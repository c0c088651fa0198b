/** What one check-in and one batch of check-ins do, stated against
    reference definitions that look at the registry as it was before the
    unit rather than as the loops leave it. */
module DispatchProperties {
  import opened Protocol
  import Strings
  import Seqs
  import opened Dispatch

  // ---------------------------------------------------------------- lookups by Id

  /** Entries with the same Ids position by position. */
  ghost predicate SameIds(bs: seq<BeaconRec>, cs: seq<BeaconRec>)
  {
    |bs| == |cs| && forall i :: 0 <= i < |bs| ==> bs[i].Id == cs[i].Id
  }

  /** With unique Ids, the entry carrying an Id is the one FindId returns. */
  lemma FindIdUnique(bs: seq<BeaconRec>, i: nat)
    requires UniqueIds(bs) && i < |bs|
    ensures FindId(bs, bs[i].Id) == i
  {
    assert forall j :: 0 <= j < i ==> bs[j].Id != bs[i].Id;
  }

  /** FindId depends only on the Ids. */
  lemma FindIdSameIds(bs: seq<BeaconRec>, cs: seq<BeaconRec>, id: string)
    requires SameIds(bs, cs)
    ensures FindId(bs, id) == FindId(cs, id)
  {
    var i, j := FindId(bs, id), FindId(cs, id);
    assert i < |bs| ==> cs[i].Id == id;
    assert j < |cs| ==> bs[j].Id == id;
  }

  lemma SameIdsUnique(bs: seq<BeaconRec>, cs: seq<BeaconRec>)
    requires SameIds(bs, cs) && UniqueIds(bs)
    ensures UniqueIds(cs)
  {
    forall i, j | 0 <= i < j < |cs|
      ensures cs[i].Id != cs[j].Id
    {
      assert bs[i].Id != bs[j].Id;
    }
  }

  /** FindId on a registry with one more entry at the end. */
  lemma FindIdSnoc(bs: seq<BeaconRec>, x: BeaconRec, id: string)
    ensures FindId(bs + [x], id)
            == if FindId(bs, id) < |bs| then FindId(bs, id)
               else if x.Id == id then |bs| else |bs| + 1
  {
    var cs := bs + [x];
    assert forall k :: 0 <= k < |bs| ==> cs[k] == bs[k];
    assert cs[|bs|] == x;
  }

  /** The buffers the record's beacon holds before its unit: its entry's,
      or none for a beacon seen for the first time. */
  function CallerBuffers(bs: seq<BeaconRec>, id: string): Buffers
  {
    var i := FindId(bs, id);
    if i < |bs| then bs[i].buffers else Empty
  }

  /** The proxied agents of the record's beacon before its unit. */
  function CallerClients(bs: seq<BeaconRec>, id: string): seq<string>
  {
    var i := FindId(bs, id);
    if i < |bs| then bs[i].ProxyClients else []
  }

  // ---------------------------------------------------------------- registerBeacon

  /** Registering the same record twice finds the entry the first call made. */
  lemma RegisterIdempotent(bs: seq<BeaconRec>, u: CommandUpdate)
    ensures Register(Register(bs, u).beacons, u) == Register(bs, u)
  {
    if FindId(bs, u.Id) == |bs| {
      FindIdSnoc(bs, NewBeacon(u), u.Id);
    }
  }

  lemma RegisterUnique(bs: seq<BeaconRec>, u: CommandUpdate)
    requires UniqueIds(bs)
    ensures UniqueIds(Register(bs, u).beacons)
  {
    var r := Register(bs, u).beacons;
    if FindId(bs, u.Id) == |bs| {
      forall i, j | 0 <= i < j < |r|
        ensures r[i].Id != r[j].Id
      {
        if j == |bs| { assert r[i] == bs[i]; } else { assert r[i] == bs[i] && r[j] == bs[j]; }
      }
    }
  }

  // ---------------------------------------------------------------- relay routing

  /** The registry after relaying for `clients`, by reference: the entries
      whose Id is one of the clients end with empty buffers, the others are
      untouched. */
  function DrainAll(clients: seq<string>, bs: seq<BeaconRec>): seq<BeaconRec>
  {
    seq(|bs|, i requires 0 <= i < |bs| => if bs[i].Id in clients then bs[i].(buffers := Empty) else bs[i])
  }

  /** The relay frames, by reference: one per client in ProxyClients order,
      at its first occurrence, when the registry holds that client with
      pending work; each carries that client's buffers as they were. */
  function ExpectedFrames(clients: seq<string>, bs: seq<BeaconRec>): seq<Message>
  {
    if clients == [] then []
    else
      var earlier := clients[..|clients| - 1];
      var c := clients[|clients| - 1];
      var i := FindId(bs, c);
      ExpectedFrames(earlier, bs)
        + if c !in earlier && i < |bs| && Pending(bs[i].buffers) > 0 then [RelayFrame(c, bs[i].buffers)] else []
  }

  /** Relaying drains exactly the entries of the proxied clients. */
  lemma {:induction false} RelayDrains(clients: seq<string>, bs: seq<BeaconRec>)
    ensures Relay(clients, bs).beacons == DrainAll(clients, bs)
  {
    if clients == [] {
      assert DrainAll(clients, bs) == bs;
    } else {
      var earlier := clients[..|clients| - 1];
      var c := clients[|clients| - 1];
      assert clients == earlier + [c];
      RelayDrains(earlier, bs);
      var prev := DrainAll(earlier, bs);
      var r := Relay(clients, bs).beacons;
      assert r == DrainFor(c, prev);
      forall i | 0 <= i < |bs|
        ensures r[i] == DrainAll(clients, bs)[i]
      {
        assert bs[i].Id in clients <==> bs[i].Id in earlier || bs[i].Id == c;
        if bs[i].Id == c && Pending(prev[i].buffers) == 0 {
          assert prev[i].buffers == Empty;
        }
      }
    }
  }

  /** With unique Ids the inner loop for one client emits at most one frame:
      that of the client's own entry, when it has pending work. */
  lemma {:induction false} RelayFramesForUnique(c: string, bs: seq<BeaconRec>)
    requires UniqueIds(bs)
    ensures RelayFramesFor(c, bs)
            == var i := FindId(bs, c);
               if i < |bs| && Pending(bs[i].buffers) > 0 then [RelayFrame(c, bs[i].buffers)] else []
  {
    if bs != [] {
      var init := bs[..|bs| - 1];
      var last := bs[|bs| - 1];
      assert bs == init + [last];
      assert UniqueIds(init);
      RelayFramesForUnique(c, init);
      FindIdSnoc(init, last, c);
      if last.Id == c {
        assert forall k :: 0 <= k < |init| ==> init[k].Id != bs[|bs| - 1].Id;
      }
    }
  }

  /** Relaying emits exactly the reference frames. */
  lemma {:induction false} RelayFrames(clients: seq<string>, bs: seq<BeaconRec>)
    requires UniqueIds(bs)
    ensures Relay(clients, bs).frames == ExpectedFrames(clients, bs)
  {
    if clients != [] {
      var earlier := clients[..|clients| - 1];
      var c := clients[|clients| - 1];
      RelayFrames(earlier, bs);
      RelayDrains(earlier, bs);
      var prev := DrainAll(earlier, bs);
      assert SameIds(bs, prev);
      SameIdsUnique(bs, prev);
      RelayFramesForUnique(c, prev);
      FindIdSameIds(bs, prev, c);
    }
  }

  /** Every relay frame is routed to one of the clients, and wraps one
      direct frame holding work that was pending. */
  lemma {:induction false} ExpectedFramesRouted(clients: seq<string>, bs: seq<BeaconRec>)
    ensures forall m :: m in ExpectedFrames(clients, bs) ==>
              && m.Route in clients
              && m.Data.Bundle? && |m.Data.frames| == 1
              && m.Data.frames[0].Route == DirectRoute
              && m.Data.frames[0].Data.Snapshot? && m.Data.frames[0].Data.buffers != Empty
  {
    if clients != [] {
      var earlier := clients[..|clients| - 1];
      assert clients == earlier + [clients[|clients| - 1]];
      ExpectedFramesRouted(earlier, bs);
    }
  }

  // ---------------------------------------------------------------- one unit

  /** The unit's last frame is the caller's direct frame, holding the
      caller's buffers as they were before the unit. */
  lemma OwnFrameLast(s: State, u: CommandUpdate)
    ensures var d := Drain(s, u);
      |d.frames| >= 1 && d.frames[|d.frames| - 1] == OwnFrame(CallerBuffers(s.beacons, u.Id))
  {
    var i := FindId(s.beacons, u.Id);
    if i < |s.beacons| {
      assert exists j :: 0 <= j < |s.beacons| && s.beacons[j].Id == u.Id by {
        assert s.beacons[i].Id == u.Id;
      }
    }
  }

  /** Frame order within a unit: the relay frames for the caller's proxied
      agents by the reference definition, then exactly one direct frame
      with the caller's buffers from before the unit. */
  lemma UnitFrames(s: State, u: CommandUpdate)
    requires UniqueIds(s.beacons)
    ensures Drain(s, u).frames
            == ExpectedFrames(CallerClients(s.beacons, u.Id), s.beacons)
               + [OwnFrame(CallerBuffers(s.beacons, u.Id))]
  {
    var reg := Register(s.beacons, u);
    RegisterUnique(s.beacons, u);
    var me := reg.beacons[reg.index];
    RelayFrames(me.ProxyClients, reg.beacons);
    OwnFrameLast(s, u);
    var i := FindId(s.beacons, u.Id);
    if i < |s.beacons| {
      assert s.beacons[i].Id == u.Id;
    }
  }

  /** The registry after the routing half of a unit: the caller's entry and
      the entries of its proxied agents have empty buffers, all else is as
      registerBeacon left it, and the console selection is untouched. */
  lemma UnitDrains(s: State, u: CommandUpdate)
    requires UniqueIds(s.beacons)
    ensures var d := Drain(s, u);
      var reg := Register(s.beacons, u).beacons;
      var clients := CallerClients(s.beacons, u.Id);
      && |d.state.beacons| == |reg|
      && d.index == FindId(d.state.beacons, u.Id)
      && UniqueIds(d.state.beacons)
      && d.state.active == s.active
      && forall i :: 0 <= i < |reg| ==>
           d.state.beacons[i]
           == if i == d.index || reg[i].Id in clients then reg[i].(buffers := Empty) else reg[i]
  {
    var d := Drain(s, u);
    var reg := Register(s.beacons, u);
    RegisterUnique(s.beacons, u);
    var me := reg.beacons[reg.index];
    RelayDrains(me.ProxyClients, reg.beacons);
    var i := FindId(s.beacons, u.Id);
    if i < |s.beacons| {
      assert s.beacons[i].Id == u.Id;
    }
    assert me.ProxyClients == CallerClients(s.beacons, u.Id);
    assert SameIds(reg.beacons, d.state.beacons);
    SameIdsUnique(reg.beacons, d.state.beacons);
    FindIdUnique(d.state.beacons, d.index);
  }

  /** Whether a unit halts: only an `exec` with empty decoded output, an
      `upload` whose status cannot be read, or a `proxyConnectSuccess` for
      an agent already served; and then only when Data is non-empty. */
  lemma HaltsExactly(s: State, u: CommandUpdate, codec: Codec)
    requires UniqueIds(s.beacons)
    ensures var decoded := codec.data(u.Data);
      HandleUnit(s, u, codec).Halt?
      <==> |u.Data| > 0
           && ((u.Type == "exec" && decoded == [])
               || (u.Type == "upload" && UploadPanics(decoded))
               || (u.Type == "proxyConnectSuccess" && decoded in CallerClients(s.beacons, u.Id)))
  {
    UnitDrains(s, u);
    var d := Drain(s, u);
    var reg := Register(s.beacons, u).beacons;
    var i := FindId(s.beacons, u.Id);
    if i < |s.beacons| {
      assert s.beacons[i].Id == u.Id;
    }
    assert d.state.beacons[d.index].ProxyClients == CallerClients(s.beacons, u.Id);
  }

  /** Branches other than `quit` and `proxyConnectSuccess` only log: the
      registry is as the routing half left it, and so are the frames. */
  lemma LogOnlyTypes(s: State, u: CommandUpdate, codec: Codec)
    requires u.Type != "quit" && u.Type != "proxyConnectSuccess"
    ensures var r := HandleUnit(s, u, codec);
      && r.state == Drain(s, u).state
      && (r.Continue? ==> r.frames == Drain(s, u).frames)
  {
  }

  /** `quit` with non-empty Data: the caller's entry leaves the registry,
      the others keep their order, activeBeacon is cleared when it named
      the caller, and the caller's next check-in registers a fresh beacon. */
  lemma QuitRemoves(s: State, u: CommandUpdate, codec: Codec, next: CommandUpdate)
    requires UniqueIds(s.beacons)
    requires u.Type == "quit" && |u.Data| > 0 && next.Id == u.Id
    ensures var d := Drain(s, u);
      var r := HandleUnit(s, u, codec);
      && r == Continue(r.state, d.frames)
      && r.state.beacons == d.state.beacons[..d.index] + d.state.beacons[d.index + 1..]
      && (forall i :: 0 <= i < |r.state.beacons| ==> r.state.beacons[i].Id != u.Id)
      && r.state.active == (if s.active == Some(u.Id) then None else s.active)
      && Register(r.state.beacons, next).beacons == r.state.beacons + [NewBeacon(next)]
  {
    UnitDrains(s, u);
    var d := Drain(s, u);
    var bs := d.state.beacons;
    var k := d.index;
    var rest := bs[..k] + bs[k + 1..];
    forall i | 0 <= i < |rest|
      ensures rest[i].Id != u.Id
    {
      if i < k {
        assert rest[i] == bs[i];
      } else {
        assert rest[i] == bs[i + 1];
      }
    }
  }

  /** `quit` with empty Data does nothing: the beacon stays registered. */
  lemma QuitNeedsData(s: State, u: CommandUpdate, codec: Codec)
    requires u.Type == "quit" && |u.Data| == 0
    ensures var d := Drain(s, u);
      HandleUnit(s, u, codec) == Continue(d.state, d.frames)
      && d.state.beacons[d.index].Id == u.Id
  {
  }

  /** `proxyConnectSuccess` for a new agent: the agent is appended to the
      caller's ProxyClients, and this unit routes no frame to it: routing
      runs before the insert. */
  lemma ProxyConnectAdds(s: State, u: CommandUpdate, codec: Codec)
    requires UniqueIds(s.beacons)
    requires u.Type == "proxyConnectSuccess" && |u.Data| > 0
    requires codec.data(u.Data) !in CallerClients(s.beacons, u.Id)
    ensures var c := codec.data(u.Data);
      var r := HandleUnit(s, u, codec);
      && r.Continue?
      && CallerClients(r.state.beacons, u.Id) == CallerClients(s.beacons, u.Id) + [c]
      && forall i :: 0 <= i < |r.frames| - 1 ==> r.frames[i].Route != c
  {
    UnitDrains(s, u);
    UnitFrames(s, u);
    var c := codec.data(u.Data);
    var d := Drain(s, u);
    var clients := CallerClients(s.beacons, u.Id);
    var i := FindId(s.beacons, u.Id);
    if i < |s.beacons| {
      assert s.beacons[i].Id == u.Id;
    }
    assert d.state.beacons[d.index].ProxyClients == clients;
    var r := HandleUnit(s, u, codec);
    assert r.state.beacons == d.state.beacons[d.index := d.state.beacons[d.index].(ProxyClients := clients + [c])];
    assert SameIds(d.state.beacons, r.state.beacons);
    FindIdSameIds(d.state.beacons, r.state.beacons, u.Id);
    ExpectedFramesRouted(clients, s.beacons);
    var relay := ExpectedFrames(clients, s.beacons);
    assert r.frames == relay + [OwnFrame(CallerBuffers(s.beacons, u.Id))];
    forall i | 0 <= i < |r.frames| - 1
      ensures r.frames[i].Route != c
    {
      assert r.frames[i] == relay[i] && relay[i] in relay;
    }
  }

  /** `proxyConnectSuccess` for an agent already served: the handler
      returns, and the caller's ProxyClients is left as it was. */
  lemma ProxyConnectDuplicate(s: State, u: CommandUpdate, codec: Codec)
    requires UniqueIds(s.beacons)
    requires u.Type == "proxyConnectSuccess" && |u.Data| > 0
    requires codec.data(u.Data) in CallerClients(s.beacons, u.Id)
    ensures var r := HandleUnit(s, u, codec);
      && r.Halt?
      && CallerClients(r.state.beacons, u.Id) == CallerClients(s.beacons, u.Id)
  {
    UnitDrains(s, u);
    var d := Drain(s, u);
    var i := FindId(s.beacons, u.Id);
    if i < |s.beacons| {
      assert s.beacons[i].Id == u.Id;
    }
    assert d.state.beacons[d.index].ProxyClients == CallerClients(s.beacons, u.Id);
  }

  // ---------------------------------------------------------------- invariants

  ghost predicate NoDup(xs: seq<string>)
  {
    forall i, j :: 0 <= i < j < |xs| ==> xs[i] != xs[j]
  }

  /** No beacon serves the same agent twice. */
  ghost predicate ClientsDistinct(bs: seq<BeaconRec>)
  {
    forall i :: 0 <= i < |bs| ==> NoDup(bs[i].ProxyClients)
  }

  /** The state a side effect leaves: unchanged, the caller removed, or an
      absent agent added to the caller's ProxyClients. */
  lemma EffectStates(s: State, k: nat, u: CommandUpdate, decoded: string, frames: seq<Message>)
    requires k < |s.beacons|
    ensures var r := Effect(s, k, u, decoded, frames);
      && (r.Continue? ==> r.frames == frames)
      && (|| r.state == s
          || (u.Type == "quit" && r.state == RemoveAt(s, k))
          || (decoded !in s.beacons[k].ProxyClients && r.state == AddProxyClient(s, k, decoded)))
  {
  }

  lemma RemoveAtUnique(s: State, k: nat)
    requires k < |s.beacons| && UniqueIds(s.beacons)
    ensures UniqueIds(RemoveAt(s, k).beacons)
  {
    var bs := s.beacons;
    var rest := RemoveAt(s, k).beacons;
    forall i, j | 0 <= i < j < |rest|
      ensures rest[i].Id != rest[j].Id
    {
      var i' := if i < k then i else i + 1;
      var j' := if j < k then j else j + 1;
      assert rest[i] == bs[i'] && rest[j] == bs[j'];
    }
  }

  /** Registry Ids stay unique across a unit. */
  lemma UnitPreservesUnique(s: State, u: CommandUpdate, codec: Codec)
    requires UniqueIds(s.beacons)
    ensures UniqueIds(HandleUnit(s, u, codec).state.beacons)
  {
    UnitDrains(s, u);
    var d := Drain(s, u);
    var decoded := codec.data(u.Data);
    EffectStates(d.state, d.index, u, decoded, d.frames);
    var r := Effect(d.state, d.index, u, decoded, d.frames);
    if r.state == RemoveAt(d.state, d.index) {
      RemoveAtUnique(d.state, d.index);
    } else {
      assert SameIds(d.state.beacons, r.state.beacons);
      SameIdsUnique(d.state.beacons, r.state.beacons);
    }
  }

  /** The routing half keeps every ProxyClients list. */
  lemma DrainKeepsClients(s: State, u: CommandUpdate)
    requires ClientsDistinct(s.beacons)
    ensures ClientsDistinct(Drain(s, u).state.beacons)
  {
    var reg := Register(s.beacons, u).beacons;
    assert ClientsDistinct(reg) by {
      forall i | 0 <= i < |reg|
        ensures NoDup(reg[i].ProxyClients)
      {
        if i < |s.beacons| { assert reg[i] == reg[..|s.beacons|][i] == s.beacons[i]; }
      }
    }
    var d := Drain(s, u);
    var k := Register(s.beacons, u).index;
    var relayed := Relay(reg[k].ProxyClients, reg);
    assert SameShape(reg, relayed.beacons);
    forall i | 0 <= i < |d.state.beacons|
      ensures NoDup(d.state.beacons[i].ProxyClients)
    {
      assert d.state.beacons[i].ProxyClients == relayed.beacons[i].ProxyClients == reg[i].ProxyClients;
    }
  }

  lemma EffectKeepsClients(s: State, k: nat, u: CommandUpdate, decoded: string, frames: seq<Message>)
    requires k < |s.beacons| && ClientsDistinct(s.beacons)
    ensures ClientsDistinct(Effect(s, k, u, decoded, frames).state.beacons)
  {
    EffectStates(s, k, u, decoded, frames);
    var r := Effect(s, k, u, decoded, frames);
    var bs := s.beacons;
    if r.state == RemoveAt(s, k) {
      forall i | 0 <= i < |r.state.beacons|
        ensures NoDup(r.state.beacons[i].ProxyClients)
      {
        if i < k { assert r.state.beacons[i] == bs[i]; } else { assert r.state.beacons[i] == bs[i + 1]; }
      }
    } else if r.state != s {
      var xs := bs[k].ProxyClients + [decoded];
      assert NoDup(xs) by {
        forall a, b | 0 <= a < b < |xs|
          ensures xs[a] != xs[b]
        {
          if b == |xs| - 1 { assert xs[a] in bs[k].ProxyClients; }
          else { assert xs[a] == bs[k].ProxyClients[a] && xs[b] == bs[k].ProxyClients[b]; }
        }
      }
      assert r.state.beacons == bs[k := bs[k].(ProxyClients := xs)];
    }
  }

  /** No agent appears twice in a ProxyClients list across a unit: the
      insert is guarded by the membership test. */
  lemma UnitPreservesClientsDistinct(s: State, u: CommandUpdate, codec: Codec)
    requires ClientsDistinct(s.beacons)
    ensures ClientsDistinct(HandleUnit(s, u, codec).state.beacons)
  {
    DrainKeepsClients(s, u);
    var d := Drain(s, u);
    EffectKeepsClients(d.state, d.index, u, codec.data(u.Data), d.frames);
  }

  /** No side effect refills the caller's buffers: it either keeps the
      caller's entry or removes the only entry with that Id. */
  lemma EffectKeepsCallerEmpty(s: State, k: nat, u: CommandUpdate, decoded: string, frames: seq<Message>)
    requires k < |s.beacons| && UniqueIds(s.beacons)
    requires s.beacons[k].Id == u.Id && s.beacons[k].buffers == Empty
    ensures CallerBuffers(Effect(s, k, u, decoded, frames).state.beacons, u.Id) == Empty
  {
    EffectStates(s, k, u, decoded, frames);
    var s1 := Effect(s, k, u, decoded, frames).state;
    var bs := s.beacons;
    FindIdUnique(bs, k);
    if s1 == RemoveAt(s, k) && u.Type == "quit" {
      forall i | 0 <= i < |s1.beacons|
        ensures s1.beacons[i].Id != u.Id
      {
        if i < k { assert s1.beacons[i] == bs[i]; } else { assert s1.beacons[i] == bs[i + 1]; }
      }
    } else {
      assert SameIds(bs, s1.beacons);
      FindIdSameIds(bs, s1.beacons, u.Id);
    }
  }

  /** A beacon's second check-in gets an empty snapshot: its buffers were
      drained by the first, whatever that unit did, and nothing in the
      handler refills them. */
  lemma SecondCheckInEmpty(s: State, u: CommandUpdate, codec: Codec, next: CommandUpdate)
    requires UniqueIds(s.beacons) && next.Id == u.Id
    ensures var s1 := HandleUnit(s, u, codec).state;
      var d := Drain(s1, next);
      d.frames[|d.frames| - 1] == OwnFrame(Empty)
  {
    UnitDrains(s, u);
    var d := Drain(s, u);
    assert d.state.beacons[d.index].Id == u.Id && d.state.beacons[d.index].buffers == Empty;
    EffectKeepsCallerEmpty(d.state, d.index, u, codec.data(u.Data), d.frames);
    OwnFrameLast(HandleUnit(s, u, codec).state, next);
  }

  /** An agent listed once in a duplicate-free list occurs exactly once. */
  lemma {:induction false} NoDupOnce(xs: seq<string>, c: string)
    requires NoDup(xs) && c in xs
    ensures multiset(xs)[c] == 1
  {
    var init := xs[..|xs| - 1];
    var last := xs[|xs| - 1];
    assert xs == init + [last];
    assert NoDup(init);
    if last == c {
      assert forall i :: 0 <= i < |init| ==> init[i] != xs[|xs| - 1];
      assert c !in init;
    } else {
      NoDupOnce(init, c);
    }
  }

  /** Two notifications in a row that a beacon now serves agent `c` leave
      `c` in its ProxyClients exactly once; the second one halts. */
  lemma RepeatedNotificationOneEntry(s: State, u: CommandUpdate, codec: Codec)
    requires UniqueIds(s.beacons) && ClientsDistinct(s.beacons)
    requires u.Type == "proxyConnectSuccess" && |u.Data| > 0
    ensures var c := codec.data(u.Data);
      var s1 := HandleUnit(s, u, codec).state;
      var second := HandleUnit(s1, u, codec);
      && second.Halt?
      && multiset(CallerClients(second.state.beacons, u.Id))[c] == 1
  {
    var c := codec.data(u.Data);
    if c in CallerClients(s.beacons, u.Id) {
      ProxyConnectDuplicate(s, u, codec);
    } else {
      ProxyConnectAdds(s, u, codec);
    }
    var s1 := HandleUnit(s, u, codec).state;
    UnitPreservesUnique(s, u, codec);
    UnitPreservesClientsDistinct(s, u, codec);
    ProxyConnectDuplicate(s1, u, codec);
    var s2 := HandleUnit(s1, u, codec).state;
    UnitPreservesClientsDistinct(s1, u, codec);
    var i := FindId(s2.beacons, u.Id);
    assert i < |s2.beacons| ==> NoDup(s2.beacons[i].ProxyClients);
    NoDupOnce(CallerClients(s2.beacons, u.Id), c);
  }

  // ---------------------------------------------------------------- the batch

  /** Registry Ids stay unique across a batch, however it ends. */
  lemma {:induction false} RunPreservesUnique(s: State, us: seq<CommandUpdate>, codec: Codec)
    requires UniqueIds(s.beacons)
    ensures UniqueIds(ResultState(Run(s, us, codec)).beacons)
  {
    if us != [] {
      RunPreservesUnique(s, us[..|us| - 1], codec);
      var r := Run(s, us[..|us| - 1], codec);
      if r.Done? {
        UnitPreservesUnique(r.state, us[|us| - 1], codec);
      }
    }
  }

  /** A completed first part followed by the outcome of the rest. */
  function Then(r1: BatchResult, r2: BatchResult): BatchResult
    requires r1.Done?
  {
    if r2.Halted? then r2 else Done(r2.state, r1.response + r2.response)
  }

  lemma StepThen(r1: BatchResult, r2: BatchResult, u: CommandUpdate, codec: Codec)
    requires r1.Done?
    ensures Step(Then(r1, r2), u, codec) == Then(r1, Step(r2, u, codec))
  {
    if r2.Done? {
      var h := HandleUnit(r2.state, u, codec);
      if h.Continue? {
        assert r1.response + r2.response + h.frames == r1.response + (r2.response + h.frames);
      }
    }
  }

  /** Batch order: a batch whose first part completes is that part followed
      by the rest, run from the state the first part leaves, with the
      responses concatenated; a halt in the rest is a halt of the whole.
      (A halt in the first part is RunHaltedFinal.) */
  lemma {:induction false} RunAppend(s: State, us: seq<CommandUpdate>, vs: seq<CommandUpdate>, codec: Codec)
    requires Run(s, us, codec).Done?
    ensures var r1 := Run(s, us, codec);
      Run(s, us + vs, codec) == Then(r1, Run(r1.state, vs, codec))
    decreases |vs|
  {
    var r1 := Run(s, us, codec);
    if vs == [] {
      Seqs.AppendEmpty(us);
      Seqs.AppendEmpty(r1.response);
    } else {
      var ws := vs[..|vs| - 1];
      var v := vs[|vs| - 1];
      Seqs.SplitLast(vs);
      RunAppend(s, us, ws, codec);
      RunAppendStep(s, us, ws, v, codec);
    }
  }

  /** The inductive step of RunAppend: one more unit at the end. */
  lemma RunAppendStep(s: State, us: seq<CommandUpdate>, ws: seq<CommandUpdate>, v: CommandUpdate, codec: Codec)
    requires Run(s, us, codec).Done?
    requires Run(s, us + ws, codec) == Then(Run(s, us, codec), Run(Run(s, us, codec).state, ws, codec))
    ensures var r1 := Run(s, us, codec);
      Run(s, us + (ws + [v]), codec) == Then(r1, Run(r1.state, ws + [v], codec))
  {
    var r1 := Run(s, us, codec);
    var y := Run(r1.state, ws, codec);
    Seqs.AppendAssoc(us, ws, [v]);
    RunSnoc(s, us + ws, v, codec);
    RunSnoc(r1.state, ws, v, codec);
    StepThen(r1, y, v, codec);
    calc {
      Run(s, us + (ws + [v]), codec);
      Step(Run(s, us + ws, codec), v, codec);
      Step(Then(r1, y), v, codec);
      Then(r1, Step(y, v, codec));
      Then(r1, Run(r1.state, ws + [v], codec));
    }
  }

  /** A request made by joining comma-free units with "," is exactly the
      batch of those units, decoded in order. */
  lemma GetHandlerJoin(s: State, units: seq<string>, codec: Codec)
    requires |units| >= 1
    requires forall p :: p in units ==> ',' !in p
    ensures GetHandler(s, Strings.Join(units, ','), codec) == Run(s, DecodeAll(codec, units), codec)
  {
    Strings.SplitJoin(units, ',');
  }

  /** A notification for an agent already served stops the whole batch: no
      response is written, whatever units follow. */
  lemma DuplicateNotificationHaltsBatch(s: State, us: seq<CommandUpdate>, u: CommandUpdate,
                                        vs: seq<CommandUpdate>, codec: Codec)
    requires UniqueIds(s.beacons) && Run(s, us, codec).Done?
    requires u.Type == "proxyConnectSuccess" && |u.Data| > 0
    requires codec.data(u.Data) in CallerClients(Run(s, us, codec).state.beacons, u.Id)
    ensures Run(s, us + [u] + vs, codec).Halted?
  {
    var s1 := Run(s, us, codec).state;
    RunPreservesUnique(s, us, codec);
    ProxyConnectDuplicate(s1, u, codec);
    RunAppend(s, us, [u], codec);
    RunHaltedFinal(s, us + [u], vs, codec);
  }
}
