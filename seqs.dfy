/** Sequence identities the verifier is asked for by name, so that the
    proofs that need them do not search for them among their other facts. */
module Seqs {

  lemma AppendEmpty<T>(a: seq<T>)
    ensures a + [] == a
  {
  }

  lemma SplitLast<T>(a: seq<T>)
    requires a != []
    ensures a == a[..|a| - 1] + [a[|a| - 1]]
  {
  }

  lemma AppendAssoc<T>(a: seq<T>, b: seq<T>, c: seq<T>)
    ensures a + (b + c) == (a + b) + c
  {
  }

  lemma TakeAll<T>(a: seq<T>)
    ensures a[..|a|] == a
  {
  }

  lemma SuffixOfDrop<T>(a: seq<T>, m: nat, n: nat)
    requires m <= |a| && n <= |a| - m
    ensures a[m..][|a| - m - n..] == a[|a| - n..]
  {
  }

  lemma DropAround<T>(a: seq<T>, x: T, b: seq<T>, m: nat)
    requires m <= |a|
    ensures (a + [x] + b)[m..] == a[m..] + [x] + b
    ensures (a + [x] + b)[|a| + 1..] == b
    ensures (a + [x] + b)[|a|] == x
  {
  }
}
