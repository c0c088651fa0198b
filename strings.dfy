/** Byte-string helpers used by the listener: Go's strings.Split on a
    one-character separator, its inverse, and the last segment of a path. */
module Strings {
  import Seqs

  /** Position of the first `c` in `s`, or |s| when there is none. */
  function IndexOfChar(s: string, c: char): (i: nat)
    ensures i <= |s|
    ensures i < |s| ==> s[i] == c
  {
    if s == [] then 0
    else if s[0] == c then 0
    else 1 + IndexOfChar(s[1..], c)
  }

  /** No `c` comes before the position IndexOfChar finds, so it finds |s|
      exactly when there is no `c`. */
  lemma {:induction false} IndexOfCharFirst(s: string, c: char)
    ensures forall j :: 0 <= j < IndexOfChar(s, c) ==> s[j] != c
    ensures IndexOfChar(s, c) == |s| <==> c !in s
    decreases |s|
  {
    if s != [] && s[0] != c {
      IndexOfCharFirst(s[1..], c);
      assert s == [s[0]] + s[1..];
    }
  }

  /** strings.Split(s, string(sep)): the pieces between the separators, so
      one more piece than there are separators; "" yields [""]. */
  function Split(s: string, sep: char): (parts: seq<string>)
    ensures |parts| >= 1
    decreases |s|
  {
    var i := IndexOfChar(s, sep);
    if i == |s| then [s]
    else [s[..i]] + Split(s[i + 1..], sep)
  }

  /** A split yields a single piece exactly when there is no separator. */
  lemma SplitOne(s: string, sep: char)
    ensures |Split(s, sep)| == 1 <==> sep !in s
  {
    IndexOfCharFirst(s, sep);
  }

  /** No piece of a split contains the separator. */
  lemma {:induction false} SplitPiecesFree(s: string, sep: char)
    ensures forall k :: 0 <= k < |Split(s, sep)| ==> sep !in Split(s, sep)[k]
    decreases |s|
  {
    var i := IndexOfChar(s, sep);
    IndexOfCharFirst(s, sep);
    if i < |s| {
      SplitPiecesFree(s[i + 1..], sep);
      SplitAt(s, sep);
      assert sep !in s[..i];
    }
  }

  /** strings.Join(parts, string(sep)). */
  function Join(parts: seq<string>, sep: char): string
  {
    if parts == [] then []
    else if |parts| == 1 then parts[0]
    else parts[0] + [sep] + Join(parts[1..], sep)
  }

  /** The first separator of dir + [sep] + name is the first one of dir,
      or the appended one when dir has none. */
  lemma {:induction false} IndexOfAppend(dir: string, name: string, sep: char)
    ensures IndexOfChar(dir + [sep] + name, sep) == IndexOfChar(dir, sep)
    decreases |dir|
  {
    if dir != [] && dir[0] != sep {
      IndexOfAppend(dir[1..], name, sep);
      Seqs.DropAround(dir, sep, name, 1);
    }
  }

  /** Past the first separator, Split yields the piece before it and then
      the pieces of the rest. */
  lemma SplitAt(s: string, sep: char)
    requires IndexOfChar(s, sep) < |s|
    ensures Split(s, sep) == [s[..IndexOfChar(s, sep)]] + Split(s[IndexOfChar(s, sep) + 1..], sep)
  {
  }

  /** The last piece of a non-empty list of pieces. */
  function Last(parts: seq<string>): string
    requires |parts| >= 1
  {
    parts[|parts| - 1]
  }

  lemma LastCons(a: string, t: seq<string>)
    requires |t| >= 1
    ensures Last([a] + t) == Last(t)
  {
  }

  /** Splitting undoes joining: pieces free of the separator come back
      exactly and in order. */
  lemma {:induction false} SplitJoin(parts: seq<string>, sep: char)
    requires |parts| >= 1
    requires forall p :: p in parts ==> sep !in p
    ensures Split(Join(parts, sep), sep) == parts
  {
    if |parts| == 1 {
      assert sep !in parts[0];
    } else {
      var s := Join(parts, sep);
      var head := parts[0];
      var tail := Join(parts[1..], sep);
      assert sep !in head;
      assert s == head + [sep] + tail;
      IndexOfAppend(head, tail, sep);
      IndexOfCharFirst(head, sep);
      Seqs.DropAround(head, sep, tail, 0);
      assert s[..|head|] == head;
      assert forall p :: p in parts[1..] ==> p in parts;
      SplitJoin(parts[1..], sep);
      SplitAt(s, sep);
    }
  }

  /** Joining undoes splitting. */
  lemma {:induction false} JoinSplit(s: string, sep: char)
    ensures Join(Split(s, sep), sep) == s
    decreases |s|
  {
    var i := IndexOfChar(s, sep);
    if i < |s| {
      var rest := s[i + 1..];
      var parts := Split(s, sep);
      JoinSplit(rest, sep);
      SplitAt(s, sep);
      assert |parts| >= 2 && parts[0] == s[..i] && parts[1..] == Split(rest, sep);
      assert Join(parts, sep) == s[..i] + [sep] + Join(Split(rest, sep), sep);
      assert s == s[..i] + [sep] + rest;
    }
  }

  /** The piece after the last separator, found by skipping past one
      separator at a time. */
  function LastSegment(s: string, sep: char): string
    decreases |s|
  {
    var i := IndexOfChar(s, sep);
    if i == |s| then s else LastSegment(s[i + 1..], sep)
  }

  /** It is the last piece of the split: name[len(name)-1] where
      name := strings.Split(s, string(sep)). */
  lemma {:induction false} LastSegmentIsLastPiece(s: string, sep: char)
    ensures LastSegment(s, sep) == Last(Split(s, sep))
    decreases |s|
  {
    var i := IndexOfChar(s, sep);
    if i < |s| {
      LastSegmentIsLastPiece(s[i + 1..], sep);
      SplitAt(s, sep);
      LastCons(s[..i], Split(s[i + 1..], sep));
    }
  }

  /** The last segment holds no separator, and a string without one is its
      own last segment. */
  lemma LastSegmentFree(s: string, sep: char)
    ensures sep !in LastSegment(s, sep)
    ensures sep !in s ==> LastSegment(s, sep) == s
  {
    LastSegmentIsLastPiece(s, sep);
    SplitPiecesFree(s, sep);
    IndexOfCharFirst(s, sep);
  }

  /** The last segment is a suffix of the whole string. */
  lemma {:induction false} LastSegmentIsSuffix(s: string, sep: char)
    ensures |LastSegment(s, sep)| <= |s|
    ensures s[|s| - |LastSegment(s, sep)|..] == LastSegment(s, sep)
    decreases |s|
  {
    var i := IndexOfChar(s, sep);
    if i < |s| {
      var rest := s[i + 1..];
      LastSegmentIsSuffix(rest, sep);
      var r := LastSegment(rest, sep);
      assert LastSegment(s, sep) == r;
      Seqs.SuffixOfDrop(s, i + 1, |r|);
    } else {
      assert LastSegment(s, sep) == s;
      Seqs.TakeAll(s);
    }
  }

  /** The last segment of a path that ends in "/" + name, with name free of
      separators, is that name. */
  lemma {:induction false} LastSegmentOfAppend(dir: string, name: string, sep: char)
    requires sep !in name
    ensures LastSegment(dir + [sep] + name, sep) == name
    decreases |dir|
  {
    var s := dir + [sep] + name;
    var i := IndexOfChar(dir, sep);
    IndexOfAppend(dir, name, sep);
    if i < |dir| {
      Seqs.DropAround(dir, sep, name, i + 1);
      LastSegmentOfAppend(dir[i + 1..], name, sep);
    } else {
      Seqs.DropAround(dir, sep, name, 0);
      LastSegmentFree(name, sep);
    }
  }
}
