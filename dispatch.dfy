/** The check-in of beaconGetHandler as a function of the registry's value:
    each registry entry is a BeaconRec, and one request maps a State and
    the request path segment to a new State and, unless the handler stops
    early, the list of frames it writes back. The imperative handler in
    module HttpListener is proved to compute exactly this. */
module Dispatch {
  import opened Protocol
  import Strings

  /** The value of one *Beacon: identity, address, queues, proxied agents. */
  datatype BeaconRec = BeaconRec(Id: string, Ip: string, buffers: Buffers, ProxyClients: seq<string>)

  /** The registry `beacons` and the Id of `activeBeacon` (None for nil). */
  datatype State = State(beacons: seq<BeaconRec>, active: Option<string>)

  ghost predicate UniqueIds(bs: seq<BeaconRec>)
  {
    forall i, j :: 0 <= i < j < |bs| ==> bs[i].Id != bs[j].Id
  }

  /** Entries keep their Id, Ip and ProxyClients position by position;
      only the buffers may differ. */
  ghost predicate SameShape(bs: seq<BeaconRec>, cs: seq<BeaconRec>)
  {
    && |bs| == |cs|
    && forall i :: 0 <= i < |bs| ==>
         bs[i].Id == cs[i].Id && bs[i].Ip == cs[i].Ip && bs[i].ProxyClients == cs[i].ProxyClients
  }

  /** Index of the first entry with Id `id`, or |bs| when there is none. */
  function FindId(bs: seq<BeaconRec>, id: string): (i: nat)
    ensures i <= |bs|
    ensures i < |bs| ==> bs[i].Id == id
    ensures forall j :: 0 <= j < i ==> bs[j].Id != id
  {
    if bs == [] then 0
    else if bs[0].Id == id then 0
    else 1 + FindId(bs[1..], id)
  }

  // ---------------------------------------------------------------- registerBeacon

  datatype Registered = Registered(beacons: seq<BeaconRec>, index: nat)

  /** A beacon seen for the first time: empty queues, no proxied agents. */
  function NewBeacon(u: CommandUpdate): BeaconRec
  {
    BeaconRec(u.Id, u.Ip, Empty, [])
  }

  /** registerBeacon, which is not part of this model, by the contract the
      handler relies on: the entry with the record's Id, else a fresh empty
      entry appended to the registry. */
  function Register(bs: seq<BeaconRec>, u: CommandUpdate): (r: Registered)
    ensures r.index < |r.beacons| && r.beacons[r.index].Id == u.Id
    ensures |bs| <= |r.beacons| && r.beacons[..|bs|] == bs
    ensures (exists i :: 0 <= i < |bs| && bs[i].Id == u.Id) ==>
              r.beacons == bs && forall j :: 0 <= j < r.index ==> bs[j].Id != u.Id
    ensures (forall i :: 0 <= i < |bs| ==> bs[i].Id != u.Id) ==>
              r.beacons == bs + [NewBeacon(u)]
  {
    var i := FindId(bs, u.Id);
    if i < |bs| then Registered(bs, i) else Registered(bs + [NewBeacon(u)], |bs|)
  }

  // ---------------------------------------------------------------- relay routing

  /** One registry entry visited by the inner loop for `client`: drained
      when its Id matches and it has pending work. */
  function DrainEntry(client: string, r: BeaconRec): (e: BeaconRec)
    ensures e.Id == r.Id && e.Ip == r.Ip && e.ProxyClients == r.ProxyClients
    ensures r.Id == client ==> e.buffers == Empty
    ensures r.Id != client ==> e == r
  {
    if r.Id == client && Pending(r.buffers) > 0 then r.(buffers := Empty) else r
  }

  /** The frame, if any, that the inner loop emits for one entry. */
  function EntryFrames(client: string, r: BeaconRec): (f: seq<Message>)
    ensures |f| <= 1
    ensures |f| == 1 <==> r.Id == client && r.buffers != Empty
    ensures |f| == 1 ==> f[0] == RelayFrame(client, r.buffers)
  {
    if r.Id == client && Pending(r.buffers) > 0 then [RelayFrame(r.Id, r.buffers)] else []
  }

  /** The registry after the inner loop over `beacons` for one client. */
  function DrainFor(client: string, bs: seq<BeaconRec>): (cs: seq<BeaconRec>)
    ensures SameShape(bs, cs)
    ensures forall i :: 0 <= i < |bs| && bs[i].Id == client ==> cs[i].buffers == Empty
    ensures forall i :: 0 <= i < |bs| && bs[i].Id != client ==> cs[i] == bs[i]
  {
    seq(|bs|, i requires 0 <= i < |bs| => DrainEntry(client, bs[i]))
  }

  /** The frames the inner loop emits for one client, in registry order. */
  function RelayFramesFor(client: string, bs: seq<BeaconRec>): (f: seq<Message>)
    ensures |f| <= |bs|
    ensures forall i :: 0 <= i < |f| ==> f[i].Route == client && f[i].Data.Bundle?
  {
    if bs == [] then []
    else RelayFramesFor(client, bs[..|bs| - 1]) + EntryFrames(client, bs[|bs| - 1])
  }

  lemma RelayFramesForSnoc(client: string, bs: seq<BeaconRec>, j: nat)
    requires j < |bs|
    ensures RelayFramesFor(client, bs[..j + 1]) == RelayFramesFor(client, bs[..j]) + EntryFrames(client, bs[j])
  {
    assert bs[..j + 1][..j] == bs[..j];
  }

  lemma DrainForPointwise(client: string, bs: seq<BeaconRec>, cs: seq<BeaconRec>)
    requires |cs| == |bs|
    requires forall i :: 0 <= i < |bs| ==> cs[i] == DrainEntry(client, bs[i])
    ensures cs == DrainFor(client, bs)
  {
  }

  datatype Relayed = Relayed(frames: seq<Message>, beacons: seq<BeaconRec>)

  /** The outer loop over ProxyClients: each client's inner loop sees the
      registry as the previous clients left it. */
  function Relay(clients: seq<string>, bs: seq<BeaconRec>): (r: Relayed)
    ensures SameShape(bs, r.beacons)
  {
    if clients == [] then Relayed([], bs)
    else
      var prev := Relay(clients[..|clients| - 1], bs);
      var c := clients[|clients| - 1];
      Relayed(prev.frames + RelayFramesFor(c, prev.beacons), DrainFor(c, prev.beacons))
  }

  // ---------------------------------------------------------------- one unit

  datatype UnitResult =
    | Continue(state: State, frames: seq<Message>)
    /** The early `return`, or a runtime panic: the rest of the batch is
        skipped and no response body is written. The two differ on the wire
        (an empty 200 after the return, a dropped connection after a panic);
        Halt records only what they share: the registry as it stands and no
        response. */
    | Halt(state: State)

  /** The `upload` branch indexes decodedData[0], and f[1] after splitting on
      ';': it panics on empty data, and on a '1' status without a ';'. */
  predicate UploadPanics(decoded: string): (p: bool)
    ensures p <==> decoded == [] || (decoded[0] == '1' && ';' !in decoded)
  {
    Strings.SplitOne(decoded, ';');
    decoded == [] || (decoded[0] == '1' && |Strings.Split(decoded, ';')| < 2)
  }

  /** `quit`: the entry at `k` leaves the registry, and activeBeacon is
      cleared when it named that beacon. */
  function RemoveAt(s: State, k: nat): (r: State)
    requires k < |s.beacons|
    ensures |r.beacons| == |s.beacons| - 1
    ensures forall i :: 0 <= i < k ==> r.beacons[i] == s.beacons[i]
    ensures forall i :: k <= i < |r.beacons| ==> r.beacons[i] == s.beacons[i + 1]
    ensures r.active != Some(s.beacons[k].Id)
    ensures s.active != Some(s.beacons[k].Id) ==> r.active == s.active
  {
    State(s.beacons[..k] + s.beacons[k + 1..],
          if s.active == Some(s.beacons[k].Id) then None else s.active)
  }

  /** `proxyConnectSuccess`: `c` appended to the ProxyClients of entry `k`. */
  function AddProxyClient(s: State, k: nat, c: string): (r: State)
    requires k < |s.beacons|
    ensures r.active == s.active && |r.beacons| == |s.beacons|
    ensures r.beacons[k].ProxyClients == s.beacons[k].ProxyClients + [c]
    ensures r.beacons[k] == s.beacons[k].(ProxyClients := r.beacons[k].ProxyClients)
    ensures forall i :: 0 <= i < |s.beacons| && i != k ==> r.beacons[i] == s.beacons[i]
  {
    s.(beacons := s.beacons[k := s.beacons[k].(ProxyClients := s.beacons[k].ProxyClients + [c])])
  }

  /** The type-specific side effect, applied only when Data is non-empty;
      `k` is the caller's entry and `decoded` its decoded Data. Branches
      that only log change nothing. */
  function Effect(s: State, k: nat, u: CommandUpdate, decoded: string, frames: seq<Message>): (r: UnitResult)
    requires k < |s.beacons|
    ensures r.Halt? ==> r.state == s
    ensures r.Continue? ==> r.frames == frames
    ensures |u.Data| == 0 ==> r == Continue(s, frames)
  {
    if |u.Data| == 0 then Continue(s, frames)
    else if u.Type == "exec" then
      if decoded == [] then Halt(s) else Continue(s, frames)
    else if u.Type == "upload" then
      if UploadPanics(decoded) then Halt(s) else Continue(s, frames)
    else if u.Type == "quit" then Continue(RemoveAt(s, k), frames)
    else if u.Type == "proxyConnectSuccess" then
      if decoded in s.beacons[k].ProxyClients then Halt(s)
      else Continue(AddProxyClient(s, k, decoded), frames)
    else Continue(s, frames)
  }

  /** The state after the routing half of a check-in, the caller's index
      in it, and the frames the unit contributes. */
  datatype Drained = Drained(state: State, index: nat, frames: seq<Message>)

  /** Register, snapshot the caller's buffers, relay for its proxied
      agents, append its own frame, clear its buffers. */
  function Drain(s: State, u: CommandUpdate): (d: Drained)
    ensures d.index < |d.state.beacons| && d.state.beacons[d.index].Id == u.Id
    ensures d.state.beacons[d.index].buffers == Empty
    ensures d.state.active == s.active
    ensures |d.frames| >= 1 && d.frames[|d.frames| - 1].Route == DirectRoute
  {
    var reg := Register(s.beacons, u);
    var k := reg.index;
    var me := reg.beacons[k];
    var relayed := Relay(me.ProxyClients, reg.beacons);
    var cleared := relayed.beacons[k := relayed.beacons[k].(buffers := Empty)];
    Drained(State(cleared, s.active), k, relayed.frames + [OwnFrame(me.buffers)])
  }

  /** One iteration of the loop over dataArr: the routing half, then the
      side effect. */
  function HandleUnit(s: State, u: CommandUpdate, codec: Codec): (r: UnitResult)
    ensures r.Continue? ==> |r.frames| >= 1 && r.frames[|r.frames| - 1].Route == DirectRoute
  {
    var d := Drain(s, u);
    Effect(d.state, d.index, u, codec.data(u.Data), d.frames)
  }

  // ---------------------------------------------------------------- the batch

  datatype BatchResult =
    | Done(state: State, response: seq<Message>)
    | Halted(state: State)

  function ResultState(r: BatchResult): State
  {
    match r
    case Done(s, _) => s
    case Halted(s) => s
  }

  /** One more unit of the batch: skipped once the handler has stopped,
      otherwise handled with its frames appended to the response. */
  function Step(r: BatchResult, u: CommandUpdate, codec: Codec): (r': BatchResult)
    ensures r.Halted? ==> r' == r
    ensures r.Done? ==> (r'.Done? <==> HandleUnit(r.state, u, codec).Continue?)
    ensures r'.Done? ==> r.Done? && r.response <= r'.response
    ensures ResultState(r') == if r.Halted? then r.state else HandleUnit(r.state, u, codec).state
  {
    match r
    case Halted(_) => r
    case Done(s1, fs) =>
      match HandleUnit(s1, u, codec)
      case Halt(s2) => Halted(s2)
      case Continue(s2, f) => Done(s2, fs + f)
  }

  /** The units in order, frames concatenated, stopping at the first Halt. */
  function Run(s: State, us: seq<CommandUpdate>, codec: Codec): (r: BatchResult)
    ensures r.Done? ==> |r.response| >= |us|
  {
    if us == [] then Done(s, [])
    else Step(Run(s, us[..|us| - 1], codec), us[|us| - 1], codec)
  }

  /** A batch with one more unit is one more step. */
  lemma RunSnoc(s: State, us: seq<CommandUpdate>, v: CommandUpdate, codec: Codec)
    ensures Run(s, us + [v], codec) == Step(Run(s, us, codec), v, codec)
  {
    assert (us + [v])[..|us|] == us;
  }

  /** The batch of the first n + 1 units is one more step after the first n. */
  lemma RunPrefixStep(s: State, us: seq<CommandUpdate>, n: nat, codec: Codec)
    requires n < |us|
    ensures Run(s, us[..n + 1], codec) == Step(Run(s, us[..n], codec), us[n], codec)
  {
    assert us[..n + 1][..n] == us[..n];
  }

  /** Once a unit halts, the units after it have no effect: the handler
      has already stopped. */
  lemma {:induction false} RunHaltedFinal(s: State, us: seq<CommandUpdate>, vs: seq<CommandUpdate>, codec: Codec)
    requires Run(s, us, codec).Halted?
    ensures Run(s, us + vs, codec) == Run(s, us, codec)
    decreases |vs|
  {
    if vs == [] {
      assert us + vs == us;
    } else {
      var ws := us + vs;
      assert ws[..|ws| - 1] == us + vs[..|vs| - 1];
      RunHaltedFinal(s, us, vs[..|vs| - 1], codec);
    }
  }

  /** A halt among the first units is the outcome of the whole batch. */
  lemma RunHaltedPrefix(s: State, us: seq<CommandUpdate>, n: nat, codec: Codec)
    requires n <= |us| && Run(s, us[..n], codec).Halted?
    ensures Run(s, us, codec) == Run(s, us[..n], codec)
  {
    assert us == us[..n] + us[n..];
    RunHaltedFinal(s, us[..n], us[n..], codec);
  }

  /** The request units decoded one by one, in order. */
  function DecodeAll(codec: Codec, units: seq<string>): (us: seq<CommandUpdate>)
    ensures |us| == |units|
    ensures forall i :: 0 <= i < |units| ==> us[i] == DecodeUnit(codec, units[i])
  {
    seq(|units|, i requires 0 <= i < |units| => DecodeUnit(codec, units[i]))
  }

  /** beaconGetHandler on the path segment `data`. */
  function GetHandler(s: State, data: string, codec: Codec): (r: BatchResult)
    ensures r.Done? ==> |r.response| >= 1
  {
    Run(s, DecodeAll(codec, Strings.Split(data, ',')), codec)
  }
}
