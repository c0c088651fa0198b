/** The listener's check-in handler over the shared heap state: the
    registry `beacons` of *Beacon references and the console's
    `activeBeacon`. Every state-changing method is proved to compute what
    module Dispatch says, through Server.Abs(). */
module HttpListener {
  import opened Protocol
  import Strings
  import Seqs
  import Paths
  import D = Dispatch

  /** A registered agent. Id and Ip never change after registration. */
  class Beacon {
    const Id: string
    const Ip: string
    var ExecBuffer: seq<string>
    var DownloadBuffer: seq<string>
    var UploadBuffer: seq<string>
    var ShellcodeBuffer: seq<string>
    var ProxyClientBuffer: seq<string>
    var ProxyClients: seq<string>

    /** A beacon with empty queues and no proxied agents. */
    constructor (id: string, ip: string)
      ensures Id == id && Ip == ip
      ensures Rec() == D.BeaconRec(id, ip, Empty, [])
    {
      Id, Ip := id, ip;
      ExecBuffer, DownloadBuffer, UploadBuffer, ShellcodeBuffer, ProxyClientBuffer := [], [], [], [], [];
      ProxyClients := [];
    }

    /** The five queues, keyed as in the response map. */
    function Buffers(): Buffers
      reads this
    {
      Protocol.Buffers(ExecBuffer, DownloadBuffer, UploadBuffer, ShellcodeBuffer, ProxyClientBuffer)
    }

    ghost function Rec(): D.BeaconRec
      reads this
    {
      D.BeaconRec(Id, Ip, Buffers(), ProxyClients)
    }

    /** Setting the five buffer fields to nil. */
    method ClearBuffers()
      modifies this
      ensures Rec() == old(Rec()).(buffers := Empty)
    {
      ExecBuffer := [];
      DownloadBuffer := [];
      UploadBuffer := [];
      ShellcodeBuffer := [];
      ProxyClientBuffer := [];
    }

    /** One visit of the inner relay loop: when this beacon is `client` and
        has pending work, its buffers are drained into a relay frame. */
    method RelayTo(client: string) returns (frames: seq<Message>)
      modifies this
      ensures Rec() == D.DrainEntry(client, old(Rec()))
      ensures frames == D.EntryFrames(client, old(Rec()))
    {
      frames := [];
      var bufferLen := |ExecBuffer| + |DownloadBuffer| + |UploadBuffer| + |ShellcodeBuffer| + |ProxyClientBuffer|;
      if Id == client && bufferLen > 0 {
        var clientRespMap := Buffers();
        ClearBuffers();
        frames := [RelayFrame(Id, clientRespMap)];
      }
    }
  }

  /** The values of a sequence of beacons, position by position. */
  ghost function Recs(bs: seq<Beacon>): (r: seq<D.BeaconRec>)
    reads bs
    ensures |r| == |bs|
    ensures forall i :: 0 <= i < |bs| ==> r[i] == bs[i].Rec()
  {
    seq(|bs|, i reads bs requires 0 <= i < |bs| => bs[i].Rec())
  }

  ghost predicate DistinctIds(bs: seq<Beacon>)
  {
    forall i, j :: 0 <= i < j < |bs| ==> bs[i].Id != bs[j].Id
  }

  lemma RecsAppend(bs: seq<Beacon>, b: Beacon)
    ensures Recs(bs + [b]) == Recs(bs) + [b.Rec()]
  {
  }

  lemma RecsRemove(bs: seq<Beacon>, k: nat)
    requires k < |bs|
    ensures Recs(bs[..k] + bs[k + 1..]) == Recs(bs)[..k] + Recs(bs)[k + 1..]
  {
    var cs := bs[..k] + bs[k + 1..];
    forall i | 0 <= i < |cs|
      ensures Recs(cs)[i] == (Recs(bs)[..k] + Recs(bs)[k + 1..])[i]
    {
      if i < k { assert cs[i] == bs[i]; } else { assert cs[i] == bs[i + 1]; }
    }
  }

  /** Index of the first occurrence of `b`, or |bs|. */
  ghost function IndexOf(bs: seq<Beacon>, b: Beacon): (i: nat)
    ensures i <= |bs|
    ensures i < |bs| ==> bs[i] == b
    ensures forall j :: 0 <= j < i ==> bs[j] != b
  {
    if bs == [] then 0
    else if bs[0] == b then 0
    else 1 + IndexOf(bs[1..], b)
  }

  lemma RemovePreservesDistinct(bs: seq<Beacon>, k: nat)
    requires k < |bs| && DistinctIds(bs)
    ensures DistinctIds(bs[..k] + bs[k + 1..])
  {
    var cs := bs[..k] + bs[k + 1..];
    forall i, j | 0 <= i < j < |cs|
      ensures cs[i].Id != cs[j].Id
    {
      var i' := if i < k then i else i + 1;
      var j' := if j < k then j else j + 1;
      assert cs[i] == bs[i'] && cs[j] == bs[j'];
    }
  }

  /** The package-level variables that every handler shares. */
  class Server {
    var beacons: seq<Beacon>
    var activeBeacon: Beacon?

    /** Ids identify registered beacons, and the console's selection, when
        set, is a registered beacon. */
    ghost predicate Valid()
      reads this
    {
      && DistinctIds(beacons)
      && (activeBeacon != null ==> activeBeacon in beacons)
    }

    ghost function ActiveId(): Option<string>
      reads this
    {
      if activeBeacon == null then None else Some(activeBeacon.Id)
    }

    ghost function Abs(): D.State
      reads this, beacons
    {
      D.State(Recs(beacons), ActiveId())
    }

    /** The registry the handler sees has unique Ids, which the
        properties of module DispatchProperties assume. */
    lemma ValidUniqueIds()
      requires Valid()
      ensures D.UniqueIds(Abs().beacons)
    {
      var r := Recs(beacons);
      forall i, j | 0 <= i < j < |r|
        ensures r[i].Id != r[j].Id
      {
        assert r[i].Id == beacons[i].Id && r[j].Id == beacons[j].Id;
      }
    }

    constructor ()
      ensures Valid() && Abs() == D.State([], None)
    {
      beacons := [];
      activeBeacon := null;
    }

    /** registerBeacon (not part of this model): the registered beacon with
        the record's Id, or a new one appended to the registry. */
    method RegisterBeacon(update: CommandUpdate) returns (beacon: Beacon, ghost k: nat)
      requires Valid()
      modifies this
      ensures Valid() && activeBeacon == old(activeBeacon)
      ensures Recs(beacons) == D.Register(old(Recs(beacons)), update).beacons
      ensures k == D.Register(old(Recs(beacons)), update).index
      ensures k < |beacons| && beacons[k] == beacon
      ensures forall b :: b in beacons ==> b in old(beacons) || fresh(b)
      ensures k < |old(beacons)| ==> beacons == old(beacons)
      ensures k == |old(beacons)| ==> beacons == old(beacons) + [beacon] && fresh(beacon)
    {
      var i := 0;
      while i < |beacons|
        invariant 0 <= i <= |beacons|
        invariant forall j :: 0 <= j < i ==> beacons[j].Id != update.Id
      {
        if beacons[i].Id == update.Id {
          beacon, k := beacons[i], i;
          assert D.FindId(Recs(beacons), update.Id) == i;
          return;
        }
        i := i + 1;
      }
      assert D.FindId(Recs(beacons), update.Id) == |beacons|;
      beacon := AppendNew(update);
      k := |beacons| - 1;
    }

    /** The registration of an agent seen for the first time: a fresh
        beacon appended to the registry. */
    method AppendNew(update: CommandUpdate) returns (beacon: Beacon)
      requires Valid()
      requires forall j :: 0 <= j < |beacons| ==> beacons[j].Id != update.Id
      modifies this
      ensures Valid() && activeBeacon == old(activeBeacon)
      ensures fresh(beacon) && beacons == old(beacons) + [beacon]
      ensures Recs(beacons) == old(Recs(beacons)) + [D.NewBeacon(update)]
    {
      beacon := new Beacon(update.Id, update.Ip);
      RecsAppend(beacons, beacon);
      beacons := beacons + [beacon];
    }

    /** Distinct Ids make the entry at `k` the only reference to its beacon,
        so a change to that beacon leaves every other entry's value alone. */
    lemma OthersDiffer(k: nat)
      requires Valid() && k < |beacons|
      ensures forall i :: 0 <= i < |beacons| && i != k ==> beacons[i] != beacons[k]
    {
      forall i | 0 <= i < |beacons| && i != k
        ensures beacons[i] != beacons[k]
      {
        if i < k { assert beacons[i].Id != beacons[k].Id; } else { assert beacons[k].Id != beacons[i].Id; }
      }
    }

    /** The inner loop over `beacons` for one proxied client: every entry
        with that Id and pending work is drained into a relay frame. */
    method RelayClient(client: string) returns (frames: seq<Message>)
      requires Valid()
      modifies set b | b in beacons
      ensures Recs(beacons) == D.DrainFor(client, old(Recs(beacons)))
      ensures frames == D.RelayFramesFor(client, old(Recs(beacons)))
    {
      ghost var before := Recs(beacons);
      frames := VisitAll(client, before);
      D.DrainForPointwise(client, before, Recs(beacons));
    }

    /** The loop of RelayClient, entry by entry against the values `before`
        the registry had when it started. */
    method VisitAll(client: string, ghost before: seq<D.BeaconRec>) returns (frames: seq<Message>)
      requires Valid() && before == Recs(beacons)
      modifies set b | b in beacons
      ensures forall i :: 0 <= i < |beacons| ==> beacons[i].Rec() == D.DrainEntry(client, before[i])
      ensures frames == D.RelayFramesFor(client, before)
    {
      frames := [];
      var j := 0;
      while j < |beacons|
        invariant 0 <= j <= |beacons|
        invariant forall i :: 0 <= i < j ==> beacons[i].Rec() == D.DrainEntry(client, before[i])
        invariant forall i :: j <= i < |beacons| ==> beacons[i].Rec() == before[i]
        invariant frames == D.RelayFramesFor(client, before[..j])
      {
        var b := beacons[j];
        OthersDiffer(j);
        var f := b.RelayTo(client);
        D.RelayFramesForSnoc(client, before, j);
        frames := frames + f;
        j := j + 1;
      }
      Seqs.TakeAll(before);
    }

    /** The loop over the caller's ProxyClients. */
    method Relay(clients: seq<string>) returns (frames: seq<Message>)
      requires Valid()
      modifies set b | b in beacons
      ensures D.Relay(clients, old(Recs(beacons))) == D.Relayed(frames, Recs(beacons))
    {
      frames := [];
      for i := 0 to |clients|
        invariant D.Relay(clients[..i], old(Recs(beacons))) == D.Relayed(frames, Recs(beacons))
      {
        assert clients[..i + 1][..i] == clients[..i];
        var f := RelayClient(clients[i]);
        frames := frames + f;
      }
      assert clients[..|clients|] == clients;
    }

    /** Lines 147-200 of one unit, once `beacon` is registered at `k`:
        take its snapshot, relay for its proxied agents, append its own
        frame, clear its buffers. */
    method DrainRegistered(beacon: Beacon, ghost k: nat) returns (frames: seq<Message>)
      requires Valid() && k < |beacons| && beacons[k] == beacon
      modifies set b | b in beacons
      ensures var relayed := D.Relay(old(beacon.ProxyClients), old(Recs(beacons)));
        && Recs(beacons) == relayed.beacons[k := relayed.beacons[k].(buffers := Empty)]
        && frames == relayed.frames + [OwnFrame(old(beacon.Buffers()))]
    {
      var respData := beacon.Buffers();
      var clients := beacon.ProxyClients;
      var beaconUpdates := Relay(clients);
      beaconUpdates := beaconUpdates + [OwnFrame(respData)];
      frames := beaconUpdates;

      ghost var pre := Recs(beacons);
      OthersDiffer(k);
      beacon.ClearBuffers();
      forall i | 0 <= i < |beacons|
        ensures Recs(beacons)[i] == pre[k := pre[k].(buffers := Empty)][i]
      {
      }
    }

    /** Lines 136-200 of one unit: resolve the beacon, then drain it. */
    method Route(update: CommandUpdate) returns (beacon: Beacon, ghost k: nat, frames: seq<Message>)
      requires Valid()
      modifies this, set b | b in beacons
      ensures Valid()
      ensures forall b :: b in beacons ==> b in old(beacons) || fresh(b)
      ensures D.Drain(old(Abs()), update) == D.Drained(Abs(), k, frames)
      ensures k < |beacons| && beacons[k] == beacon
      ensures old(beacons) <= beacons
      ensures k < |old(beacons)| ==> beacons == old(beacons)
      ensures k == |old(beacons)| ==> beacons == old(beacons) + [beacon] && fresh(beacon)
    {
      beacon, k := RegisterBeacon(update);
      frames := DrainRegistered(beacon, k);
    }

    /** The `quit` branch: the first registry entry identical to `beacon`
        is spliced out, and activeBeacon is cleared if it pointed at it. */
    method Quit(beacon: Beacon)
      requires Valid()
      modifies this
      ensures Valid()
      ensures beacon !in old(beacons) ==> beacons == old(beacons) && activeBeacon == old(activeBeacon)
      ensures beacon in old(beacons) ==>
        var i := IndexOf(old(beacons), beacon);
        && beacons == old(beacons)[..i] + old(beacons)[i + 1..]
        && activeBeacon == (if old(activeBeacon) == beacon then null else old(activeBeacon))
    {
      var idx: int := -1;
      var i := 0;
      while i < |beacons|
        invariant 0 <= i <= |beacons|
        invariant forall j :: 0 <= j < i ==> beacons[j] != beacon
        invariant beacons == old(beacons) && activeBeacon == old(activeBeacon)
      {
        if beacon == beacons[i] {
          idx := i;
          if activeBeacon == beacon {
            activeBeacon := null;
          }
          break;
        }
        i := i + 1;
      }
      if idx != -1 {
        assert IndexOf(beacons, beacon) == idx;
        RemovePreservesDistinct(beacons, idx);
        beacons := beacons[..idx] + beacons[idx + 1..];
      }
    }

    /** The `quit` branch on the caller's own entry `k`: the registry
        loses that entry and the selection is cleared when it was the
        caller, as Dispatch.RemoveAt says. */
    method QuitEntry(beacon: Beacon, ghost k: nat)
      requires Valid() && k < |beacons| && beacons[k] == beacon
      modifies this
      ensures Valid()
      ensures forall b :: b in beacons ==> b in old(beacons)
      ensures Abs() == D.RemoveAt(old(Abs()), k)
    {
      ghost var s0 := Abs();
      ghost var active0 := activeBeacon;
      assert IndexOf(beacons, beacon) == k;
      RecsRemove(beacons, k);
      if active0 != null && active0 != beacon {
        var j := IndexOf(beacons, active0);
        assert beacons[j].Id != beacons[k].Id by {
          OthersDiffer(k);
        }
      }
      Quit(beacon);
      assert ActiveId() == if s0.active == Some(s0.beacons[k].Id) then None else s0.active;
    }

    /** The `proxyConnectSuccess` branch: `return` (halted) when `decoded`
        is already served, else append it to the beacon's ProxyClients. */
    method ProxyConnectSuccess(beacon: Beacon, ghost k: nat, decoded: string) returns (halted: bool)
      requires Valid() && k < |beacons| && beacons[k] == beacon
      modifies beacon
      ensures halted <==> decoded in old(beacon.ProxyClients)
      ensures halted ==> Recs(beacons) == old(Recs(beacons))
      ensures !halted ==> Recs(beacons) == D.AddProxyClient(old(Abs()), k, decoded).beacons
    {
      var i := 0;
      while i < |beacon.ProxyClients|
        invariant 0 <= i <= |beacon.ProxyClients|
        invariant forall j :: 0 <= j < i ==> beacon.ProxyClients[j] != decoded
      {
        if beacon.ProxyClients[i] == decoded {
          return true;
        }
        i := i + 1;
      }
      OthersDiffer(k);
      beacon.ProxyClients := beacon.ProxyClients + [decoded];
      return false;
    }

    /** Lines 202-264: the side effect of a unit whose Data is non-empty.
        `halted` is the early `return`, or a runtime panic in a branch
        that otherwise only logs; both leave the registry as it stands and
        skip the rest of the batch. */
    method ApplyEffect(beacon: Beacon, ghost k: nat, update: CommandUpdate, decodedData: string, ghost frames: seq<Message>)
      returns (halted: bool)
      requires Valid() && k < |beacons| && beacons[k] == beacon
      modifies this, beacon
      ensures Valid()
      ensures forall b :: b in beacons ==> b in old(beacons)
      ensures D.Effect(old(Abs()), k, update, decodedData, frames)
                == if halted then D.Halt(Abs()) else D.Continue(Abs(), frames)
    {
      halted := false;
      if |update.Data| > 0 {
        if update.Type == "exec" {
          // out[:len(out)-1] panics when the decoded output is empty
          halted := |decodedData| == 0;
        } else if update.Type == "upload" {
          // decodedData[0], then f[1] of the ';'-split, panic on short input
          halted := |decodedData| == 0 || (decodedData[0] == '1' && ';' !in decodedData);
        } else if update.Type == "quit" {
          QuitEntry(beacon, k);
        } else if update.Type == "proxyConnectSuccess" {
          halted := ProxyConnectSuccess(beacon, k, decodedData);
        }
      }
    }

    /** One iteration of the loop over dataArr. */
    method CheckIn(update: CommandUpdate, codec: Codec) returns (frames: seq<Message>, halted: bool)
      requires Valid()
      modifies this, set b | b in beacons
      ensures Valid()
      ensures forall b :: b in beacons ==> b in old(beacons) || fresh(b)
      ensures D.HandleUnit(old(Abs()), update, codec)
                == if halted then D.Halt(Abs()) else D.Continue(Abs(), frames)
    {
      var beacon;
      ghost var k;
      beacon, k, frames := Route(update);
      var decodedData := codec.data(update.Data);
      assert beacon in beacons;
      halted := ApplyEffect(beacon, k, update, decodedData, frames);
    }

    /** beaconGetHandler: the request path segment split on ",", each unit
        decoded and checked in, every unit's frames appended in order; no
        response at all once a unit halts. */
    method BeaconGetHandler(data: string, codec: Codec) returns (response: Option<seq<Message>>)
      requires Valid()
      modifies this, set b | b in beacons
      ensures Valid()
      ensures D.GetHandler(old(Abs()), data, codec)
                == if response.Some? then D.Done(Abs(), response.value) else D.Halted(Abs())
    {
      var dataArr := Strings.Split(data, ',');
      ghost var updates := D.DecodeAll(codec, dataArr);
      ghost var start := Abs();
      var beaconMessages: seq<Message> := [];
      for n := 0 to |dataArr|
        invariant Valid()
        invariant forall b :: b in beacons ==> b in old(beacons) || fresh(b)
        invariant D.Run(start, updates[..n], codec) == D.Done(Abs(), beaconMessages)
      {
        D.RunPrefixStep(start, updates, n, codec);
        var update := DecodeUnit(codec, dataArr[n]);
        assert update == updates[n];
        var f, halted := CheckIn(update, codec);
        if halted {
          D.RunHaltedPrefix(start, updates, n + 1, codec);
          response := None;
          return;
        }
        beaconMessages := beaconMessages + f;
      }
      assert updates[..|dataArr|] == updates;
      response := Some(beaconMessages);
    }
  }

  // ---------------------------------------------------------------- file transfer paths

  /** receiveFile: `filename` is the multipart header's file name, None
      when the form has no file (the handler then returns). The file is
      saved under the last "/" segment of that name. */
  method ReceiveFile(beacon: Beacon, filename: Option<string>) returns (saved: Option<string>)
    ensures filename.None? ==> saved.None?
    ensures filename.Some? ==>
      saved == Some(Paths.SaveDir(beacon.Ip, beacon.Id) + "/" + Strings.LastSegment(filename.value, '/'))
  {
    if filename.None? {
      return None;
    }
    var name := Strings.Split(filename.value, '/');
    Strings.LastSegmentIsLastPiece(filename.value, '/');
    var dirs, file := SaveBeaconFile(beacon, name[|name| - 1]);
    saved := Some(file);
  }

  /** saveBeaconFile: the directories made when missing, in order, and the
      file written; `path` grows one segment at a time. */
  method SaveBeaconFile(beacon: Beacon, name: string) returns (dirs: seq<string>, file: string)
    ensures dirs == ["downloads", "downloads/" + beacon.Ip, Paths.SaveDir(beacon.Ip, beacon.Id)]
    ensures file == Paths.SaveDir(beacon.Ip, beacon.Id) + "/" + name
  {
    var path := "downloads";
    dirs := [path];
    path := path + "/" + beacon.Ip;
    dirs := dirs + [path];
    path := path + "/" + beacon.Id;
    dirs := dirs + [path];
    file := path + "/" + name;
    assert "downloads" + "/" == "downloads/";
  }

  /** beaconUploadHandler's choice of file: `fullPath` starts as the
      decoded request path and becomes `<cwd>/uploads/<path>` when that is
      relative. None stands for the panic on an empty decoded path. */
  method ServeFilePath(plaintext: string, cwd: string) returns (fullPath: Option<string>)
    ensures fullPath == Paths.ServedFile(cwd, plaintext)
  {
    if |plaintext| == 0 {
      return None;
    }
    var path := plaintext;
    if plaintext[0] != '/' {
      path := cwd + "/uploads/" + plaintext;
    }
    fullPath := Some(path);
  }
}
