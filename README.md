# MeetC2 listener check-in dispatcher, modelled in Dafny

MeetC2 is a command-and-control server. Its agents ("beacons") poll an HTTP
listener. This project models what that listener does with one poll, plus two
smaller pieces:

- **The check-in handler, `beaconGetHandler`.** The request path segment is a
  comma-separated batch of encoded records (`CommandUpdate`). For each record the handler:
  1. resolves the record to a registered beacon;
  2. relays pending work to the agents that beacon proxies for, draining their queues;
  3. appends the caller's own frame (route `[0]`);
  4. clears the caller's queues;
  5. applies the record's side effect. `quit` removes the beacon from the
     registry. `proxyConnectSuccess` adds a proxied agent, or returns at once,
     with no response, when that agent is already listed.

  The response is every frame of every record, in order.
- **The file-transfer path rules.** These cover where a requested file is served from
  and where a received file is saved (`downloads/<Ip>/<Id>/<name>`).
- **The builder menu logic in `createBeacon`.** This covers the target and
  platform tables, the two index guards, `getPlatform`, and the artifact name.
  `BeaconBuilder.CreateBeaconAsWritten` follows the guards as written;
  `BeaconBuilder.CreateBeacon` uses the corrected guards of the two rows under
  "## Findings".

Layout:

- `protocol.dfy`: the values that cross the wire. These are the decoded record,
  the five per-beacon queues, and the response frames `Message(Route, Data)`.
  For buffer strings that are valid UTF-8, JSON marshalling is injective on
  what the listener marshals, so a frame's Data is the structured value it
  encodes (see "## Left out" for invalid UTF-8). Request-side base64/JSON
  decoding is the parameter `Codec`.
- `strings.dfy`: `strings.Split` on one character, its inverse `Join`, and the
  last path segment.
- `dispatch.dfy`: one check-in as a function of the registry's value
  (`State`). `Run` is the batch, and `GetHandler` the whole handler.
- `httplistener.dfy`: the imperative handler over the Go globals. Class
  `Server` holds `beacons` (a sequence of `Beacon` references) and
  `activeBeacon`. Class `Beacon` holds the five buffers and `ProxyClients`. Each
  method is proved to compute what `dispatch.dfy` says, through `Server.Abs()`.
  The file also holds the file-path methods.
- `dispatch_properties.dfy`: what a check-in means, proved against reference
  definitions that read the registry as it was before the unit.
- `paths.dfy`: the served-file and saved-file path rules.
- `beaconbuilder.dfy`: `getPlatform`, the guards, and the artifact name.
- `seqs.dfy`: sequence identities the proofs ask for by name.

A repeated `proxyConnectSuccess` is not skipped: the handler returns at
httplistener.go:254, so the rest of the batch is skipped and nothing is
written. `Dispatch.Effect` returns `Halt` for it, and
`DispatchProperties.DuplicateNotificationHaltsBatch` proves the consequence.

A Go runtime panic inside the handler has the same effect as that `return` on
the registry and on the batch: the registry stays as it stands, and the rest of
the batch is skipped with no response body. They differ on the wire. After
the `return`, net/http sends a 200 with an empty body. After a panic, net/http
recovers, logs the panic and drops the connection. The model treats both as a
halt. The panics are:

- an `exec` record whose decoded Data is empty (`out[:len(out)-1]`);
- an `upload` record whose decoded Data is empty (`decodedData[0]`);
- an `upload` record that starts with `1` and contains no `;` (`f[1]`);
- an empty decoded path in the file-serve handler.

## Model

| member | source | states |
|---|---|---|
| Strings.Split | httplistener.go:124 | at least one piece, so the loop over dataArr always runs |
| Strings.SplitPiecesFree | httplistener.go:124 | no piece contains the separator |
| Strings.SplitJoin | httplistener.go:124 | splitting comma-free units joined with "," gives back exactly those units, in order |
| Strings.JoinSplit | httplistener.go:124 | joining the pieces of a split with the separator gives back the original string |
| Strings.LastSegmentIsLastPiece | httplistener.go:69-71 | the last segment is `name[len(name)-1]` of the split name |
| Strings.LastSegmentFree | httplistener.go:69-71 | the last segment contains no "/", and a name without "/" is its own last segment |
| Strings.LastSegmentIsSuffix | httplistener.go:69-71 | the last piece is a suffix of the header's file name |
| Strings.LastSegmentOfAppend | httplistener.go:89 | the last segment of `dir + "/" + name`, where name has no "/", is name |
| Protocol.Pending | httplistener.go:151 | the summed queue length is zero exactly when all five queues are empty |
| Dispatch.Register | httplistener.go:136 | registerBeacon's contract: the first entry with the Id, with the registry unchanged, when there is one; otherwise a fresh empty entry appended at the end |
| Dispatch.DrainEntry | httplistener.go:151-181 | a visit keeps an entry's Id, Ip and ProxyClients; it empties the client's entry and leaves every other entry as it was (RelayDrains) |
| Dispatch.EntryFrames | httplistener.go:151-181 | a visit emits at most one frame, exactly when the entry is the client's and has pending work, and that frame is the client's relay frame |
| Dispatch.DrainFor | httplistener.go:150-183 | one client's inner loop keeps the registry's shape, empties that client's entries and leaves every other entry alone |
| Dispatch.RelayFramesFor | httplistener.go:150-183 | at most one frame per entry, each routed to the client and bundling nested frames; with unique Ids at most one in all (RelayFramesForUnique) |
| Dispatch.Relay | httplistener.go:149-184 | relaying changes only buffers: Ids, addresses and ProxyClients keep their positions |
| Dispatch.RemoveAt | httplistener.go:214-229 | one entry fewer, the rest in order; activeBeacon no longer names the quitting beacon and is otherwise unchanged (QuitRemoves) |
| Dispatch.AddProxyClient | httplistener.go:259 | the agent is appended to the caller's ProxyClients; nothing else in the registry changes (ProxyConnectAdds) |
| Dispatch.Effect | httplistener.go:202-264 | a halt keeps the state, no side effect touches the frames, and empty Data does nothing; the exact branches are HaltsExactly, QuitRemoves, ProxyConnectAdds, ProxyConnectDuplicate and LogOnlyTypes |
| Dispatch.Drain | httplistener.go:136-200 | the caller is registered at the returned index with empty buffers, activeBeacon is unchanged, and the last frame is a direct one (UnitDrains, UnitFrames, OwnFrameLast) |
| Dispatch.HandleUnit | httplistener.go:132-264 | a unit that completes contributes at least one frame, a direct one last (UnitFrames, UnitPreservesUnique) |
| Dispatch.Run | httplistener.go:127-265 | a completed batch has at least one frame per unit (RunAppend, RunHaltedFinal, RunPreservesUnique) |
| Dispatch.GetHandler | httplistener.go:121-273 | a completed request answers with at least one frame (GetHandlerJoin, DuplicateNotificationHaltsBatch) |
| Protocol.DecodeUnit | httplistener.go:132-135 | the record is whatever json.Unmarshal filled in from the bytes DecodeString returned (possibly a partial record), or the zero record when nothing was filled in |
| Protocol.OwnFrame | httplistener.go:186-190 | the caller's frame: route `[]byte{0}`, carrying that beacon's buffers |
| Protocol.RelayFrame | httplistener.go:169-181 | a frame routed to the downstream agent, whose Data is a one-element list holding that agent's own direct frame |
| Protocol.FramesDetermine | httplistener.go:169-190 | a frame determines its route and buffers, and an own frame never equals a relay frame |
| Dispatch.UploadPanics | httplistener.go:208-210 | the `upload` branch panics exactly on empty data (`decodedData[0]`), or on a '1' status whose split on ";" has no second piece (`f[1]`), that is, one without a ";" |
| Strings.SplitOne | httplistener.go:209 | a split gives a single piece exactly when the separator does not occur |
| Dispatch.Step | httplistener.go:127-265 | one iteration over dataArr: nothing happens once the handler has stopped; otherwise it continues exactly when the unit continues, the response only grows, and the state is the unit's |
| Dispatch.DecodeAll | httplistener.go:127-135 | one record per request unit, in order, each decoded by DecodeUnit |
| Dispatch.DrainForPointwise | httplistener.go:150-183 | a registry whose every entry is that entry drained for the client is the drained registry |
| Dispatch.RunSnoc | httplistener.go:127 | a batch with one more unit is one more step |
| Dispatch.RunPrefixStep | httplistener.go:127 | the first n+1 units of a batch are one step after the first n |
| Dispatch.RunHaltedPrefix | httplistener.go:254 | a batch whose prefix halts ends as that prefix does |
| Dispatch.RunHaltedFinal | httplistener.go:254 | once a unit halts, no later unit changes the outcome |
| HttpListener.Beacon.ClearBuffers | httplistener.go:196-200 | the five buffers become empty; Id, Ip and ProxyClients are untouched |
| HttpListener.Beacon.RelayTo | httplistener.go:151-181 | one inner-loop visit: the entry is drained and its frame emitted exactly as DrainEntry and EntryFrames say |
| HttpListener.Server.ValidUniqueIds | httplistener.go:136 | the registry the handler sees has unique Ids |
| HttpListener.Server.RegisterBeacon | httplistener.go:136 | the registry afterwards is Dispatch.Register's; the beacon returned sits at its index; activeBeacon is unchanged; a known Id keeps `beacons` as the same references and returns the existing Beacon object, an unknown one appends a fresh object |
| HttpListener.Server.AppendNew | httplistener.go:136 | an agent seen for the first time becomes a fresh beacon appended at the end, as Dispatch.NewBeacon, and Valid is kept |
| HttpListener.Server.OthersDiffer | httplistener.go:150-152 | in a valid registry, the references at distinct positions are distinct objects |
| HttpListener.Server.VisitAll | httplistener.go:150-183 | the inner loop drains every entry as DrainEntry says, and emits RelayFramesFor of the registry before it |
| HttpListener.Server.RelayClient | httplistener.go:150-183 | the loop over `beacons` for one client: its registry is DrainFor and its frames are RelayFramesFor of the registry before the loop |
| HttpListener.Server.Relay | httplistener.go:149-184 | the loop over ProxyClients computes Dispatch.Relay: its frames and the registry after it |
| HttpListener.Server.DrainRegistered | httplistener.go:139-200 | the snapshot comes before the relay; the frames are the relay frames followed by the caller's own frame with that snapshot; afterwards the caller's buffers are empty |
| HttpListener.Server.Route | httplistener.go:136-200 | the routing half of a unit computes Dispatch.Drain, and Valid is kept; `beacons` keeps its references, growing only by a fresh beacon for an unknown Id |
| HttpListener.Server.Quit | httplistener.go:214-229 | the first entry identical to the beacon is removed, the rest keep their order, and activeBeacon is cleared if it pointed there; the registry is unchanged if the beacon is absent |
| HttpListener.Server.QuitEntry | httplistener.go:214-229 | quitting the beacon at index k computes Dispatch.RemoveAt at k and keeps Valid |
| HttpListener.Server.ProxyConnectSuccess | httplistener.go:249-259 | it halts exactly when the agent is already listed, leaving everything unchanged; otherwise the agent is appended |
| HttpListener.Server.ApplyEffect | httplistener.go:202-264 | the side effect computes Dispatch.Effect, including its halts |
| HttpListener.Server.CheckIn | httplistener.go:132-264 | one loop iteration computes Dispatch.HandleUnit |
| HttpListener.Server.BeaconGetHandler | httplistener.go:121-273 | the whole handler computes Dispatch.GetHandler: the response when no unit halts, no response otherwise |
| HttpListener.ReceiveFile | httplistener.go:58-73 | with a file, it is saved as `downloads/<Ip>/<Id>/<last "/" segment of its name>`; without one, nothing is saved |
| HttpListener.SaveBeaconFile | httplistener.go:75-89 | the directories `downloads`, `downloads/<Ip>`, `downloads/<Ip>/<Id>` in that order, then the file inside the last |
| HttpListener.ServeFilePath | httplistener.go:103-116 | the served path is Paths.ServedFile of the working directory and the decoded path |
| DispatchProperties.FindIdUnique | httplistener.go:150-152 | with unique Ids, an entry is the one found by its Id |
| DispatchProperties.RegisterIdempotent | httplistener.go:136 | registering the same record twice gives the same registry and index as once |
| DispatchProperties.RegisterUnique | httplistener.go:136 | registration keeps registry Ids unique |
| DispatchProperties.RelayDrains | httplistener.go:149-183 | after relaying, the entries whose Id is a proxied client have empty buffers, and every other entry is unchanged |
| DispatchProperties.RelayFramesForUnique | httplistener.go:150-183 | with unique Ids, one client yields at most one frame: its entry's, when that entry has pending work |
| DispatchProperties.RelayFrames | httplistener.go:149-184 | the relay frames are exactly the reference frames: one per client, in ProxyClients order, at its first occurrence, carrying that client's buffers from before the unit |
| DispatchProperties.ExpectedFramesRouted | httplistener.go:169-181 | every relay frame is routed to a proxied client and wraps exactly one direct frame holding non-empty work |
| DispatchProperties.OwnFrameLast | httplistener.go:139-190 | the last frame of a unit is the caller's direct frame, holding its buffers as they were before the unit |
| DispatchProperties.UnitFrames | httplistener.go:139-194 | a unit's frames are the reference relay frames followed by exactly one own frame |
| DispatchProperties.UnitDrains | httplistener.go:136-200 | after routing, the caller's entry and its proxied agents' entries have empty buffers; everything else is as registered; activeBeacon is unchanged |
| DispatchProperties.HaltsExactly | httplistener.go:202-256 | a unit halts exactly on an empty exec output, an unreadable upload status, or a repeated proxyConnectSuccess, and only when Data is non-empty |
| DispatchProperties.LogOnlyTypes | httplistener.go:203-248 | types other than quit and proxyConnectSuccess leave the registry and the frames as routing left them |
| DispatchProperties.QuitRemoves | httplistener.go:214-229 | quit removes the caller's entry, keeps the others in order, clears activeBeacon when it named the caller, and the next check-in registers a fresh beacon |
| DispatchProperties.QuitNeedsData | httplistener.go:202 | quit with empty Data leaves the beacon registered |
| DispatchProperties.ProxyConnectAdds | httplistener.go:249-259 | a new agent is appended to the caller's ProxyClients, and this unit routes no frame to it |
| DispatchProperties.ProxyConnectDuplicate | httplistener.go:249-256 | an agent already served makes the unit halt, with ProxyClients unchanged |
| DispatchProperties.EffectStates | httplistener.go:202-262 | a side effect leaves the state unchanged, removes the caller, or adds an absent agent |
| DispatchProperties.RemoveAtUnique | httplistener.go:228 | splicing an entry out keeps Ids unique |
| DispatchProperties.UnitPreservesUnique | httplistener.go:136-229 | a unit keeps registry Ids unique |
| DispatchProperties.DrainKeepsClients | httplistener.go:136-200 | routing keeps every ProxyClients list free of duplicates |
| DispatchProperties.EffectKeepsClients | httplistener.go:249-259 | the guarded insert keeps ProxyClients free of duplicates |
| DispatchProperties.UnitPreservesClientsDistinct | httplistener.go:249-259 | a unit keeps every ProxyClients list free of duplicates |
| DispatchProperties.EffectKeepsCallerEmpty | httplistener.go:202-262 | a side effect leaves the caller's buffers empty when routing emptied them |
| DispatchProperties.SecondCheckInEmpty | httplistener.go:196-200 | a beacon's next check-in after any unit of its own gets an empty snapshot |
| DispatchProperties.NoDupOnce | httplistener.go:252-259 | an agent in a duplicate-free list occurs in it exactly once |
| DispatchProperties.RepeatedNotificationOneEntry | httplistener.go:249-259 | two notifications in a row for the same agent leave it listed exactly once, and the second one halts |
| DispatchProperties.RunPreservesUnique | httplistener.go:127-265 | a batch keeps registry Ids unique, however it ends |
| DispatchProperties.StepThen | httplistener.go:192-194 | handling one more unit commutes with prefixing a completed part's response |
| DispatchProperties.RunAppendStep | httplistener.go:127-194 | if the split holds for a suffix, it holds for that suffix with one more unit |
| DispatchProperties.RunAppend | httplistener.go:127-194 | a batch whose first part completes is that part, then the rest from the state it leaves, with responses concatenated |
| DispatchProperties.GetHandlerJoin | httplistener.go:124-127 | a request of comma-free units joined by "," is the batch of those units decoded in order |
| DispatchProperties.DuplicateNotificationHaltsBatch | httplistener.go:252-256 | a notification for an agent already served stops the batch, whatever follows: no response |
| Paths.ServedFile | httplistener.go:106-115 | no file exactly for an empty decoded path; the decoded path is always a suffix of the served path |
| Paths.ServedFileCases | httplistener.go:109-115 | an absolute path is served unchanged; a relative one is `<cwd>/uploads/` followed by the path, by its text prefix only |
| Paths.SaveDir | httplistener.go:75-83 | the directory starts with `downloads/` and ends in `/<Id>`, by its text (see Paths.SavedFileName) |
| Paths.SavedFileName | httplistener.go:69-89 | the saved file's last segment is the received file's last segment, and its path starts with `downloads/` by its text prefix |
| BeaconBuilder.Platforms | beaconbuilder.go:12-17 | `platforms[target]` over the tables `targets` and `platforms`: a non-empty list of non-empty names exactly for the listed targets, and a missing key reads as the empty list |
| BeaconBuilder.TargetGuardAsWritten | beaconbuilder.go:27 | the guard as written admits every num from 0 to len(targets) inclusive |
| BeaconBuilder.PlatformGuardAsWritten | beaconbuilder.go:39 | the guard as written admits every num2 from 0 to len(platforms[target]) inclusive |
| BeaconBuilder.UsesProxy | beaconbuilder.go:63 | the proxy branch needs an answer of exactly two characters, "y" and a newline |
| BeaconBuilder.SearchFrom | beaconbuilder.go:115-121 | the search loop returns the entry at the position asked for, or "" |
| BeaconBuilder.GetPlatform | beaconbuilder.go:113-122 | `platforms[targets[idx]][p]` for a valid position p, "" otherwise |
| BeaconBuilder.TargetGuardOffByOne | beaconbuilder.go:27-32 | the only index the guard as written accepts wrongly is len(targets), which is outside `targets` |
| BeaconBuilder.TargetGuard | beaconbuilder.go:27 | the corrected guard accepts exactly the valid target indices |
| BeaconBuilder.PlatformGuardOffByOne | beaconbuilder.go:39-44 | for every target, the guard as written accepts platform len(platforms[target]), and getPlatform then gives "" |
| BeaconBuilder.PlatformGuard | beaconbuilder.go:39 | the corrected guard accepts exactly the valid platform indices |
| BeaconBuilder.GuardedPlatformIsListed | beaconbuilder.go:39-44 | under the corrected guards, the platform is a listed, non-empty entry |
| BeaconBuilder.Digits | beaconbuilder.go:51 | at least one character, all decimal digits |
| BeaconBuilder.DigitsRoundTrip | beaconbuilder.go:51 | reading the digits back gives the port |
| BeaconBuilder.Itoa | beaconbuilder.go:51 | the port text is non-empty and ends in a digit |
| BeaconBuilder.ArtifactName | beaconbuilder.go:52-57 | the name is longer than `beacon<ip>.` and starts with "beacon" followed by the address; its prefix, length and suffix are fixed by BeaconBuilder.ArtifactNameShape |
| BeaconBuilder.ArtifactNameShape | beaconbuilder.go:52-57 | the name starts with `beacon<ip>.<port>`, ends in ".exe" exactly for windows, and is exactly that prefix plus 4 characters for windows and nothing for other targets, so the name is fixed |
| BeaconBuilder.ProxyBranchDead | beaconbuilder.go:49-63 | the fixed answer "n" never selects the proxy branch |
| BeaconBuilder.CreateBeaconAsWritten | beaconbuilder.go:19-57 | with the guards as written: target len(targets) panics; a build happens for every valid target with a platform index up to and including the list length, and that last index builds with platform "" |
| BeaconBuilder.CreateBeacon | beaconbuilder.go:19-57 | with the corrected guards of the two rows under "## Findings" (not the code as written): builds exactly for valid choices, with the chosen target and platform, the artifact name, and no proxy |

## Left out

- The HTTP server, router and goroutine (httplistener.go:37-56), and `beaconPostHandler`: transport and routing around a multipart call.
- Filesystem work: `os.Stat`, `Mkdir`, `WriteFile`, `Getwd`, `ServeFile`, and the MIME lookup. Only the path strings are modelled, and the working directory is a parameter.
- Multipart parsing and `io.Copy` in `receiveFile`: foreign library calls. A form without a file is the `None` file name.
- Partial decoding of a request unit: DecodeString keeps the bytes before a corrupt character, and json.Unmarshal fills the fields it can. `Codec.unit` is a free function, so it stands for whatever record results.
- base64 and JSON internals. The request side is the `Codec` parameter. For valid UTF-8 the response marshalling is injective, so it is represented by the value it encodes. The final `json.Marshal`, base64 encoding and `w.Write` of the response are not modelled as bytes.
- The `fmt.Println` of the response, and the `info`/`infof` logging and `webInterfaceUpdates` appends of the log-only branches (`exec`, `upload` status, `plist`, `migrate`, `mimikatz`, `proxyConnectFail`). The model records only that these branches leave the registry and the frames alone, and where they panic.
- The `quit` branch's `webInterfaceUpdates` append of a "Beacon Exit" entry and its `info` call (httplistener.go:219-220). Quit models only the splice and the clearing of activeBeacon.
- The remaining `info` calls: the proxyConnectSuccess notice (httplistener.go:258), the failed receive in `receiveFile` (httplistener.go:64), the failed write and the saved-file notice in `saveBeaconFile` (httplistener.go:91, 100), and the serving notice in `beaconUploadHandler` (httplistener.go:104). They only log. The `log.Fatal` on a failed `os.Getwd` in `saveBeaconFile` (httplistener.go:94-98) and in `beaconUploadHandler` (httplistener.go:110-113, which ends the process before any path is served) is not modelled either; the working directory is a parameter.
- HttpListener.Server.Valid: it assumes that `activeBeacon`, when set, is one of the registered beacons. Only console code that is not part of this model sets `activeBeacon`, so this is an assumption about that code, not something the listener establishes. BeaconGetHandler requires it, and ActiveId's mapping of activeBeacon to an Id is sound only under it.
- Halt does not tell an empty 200 response (the `return` at httplistener.go:254) apart from a dropped connection (a runtime panic). Only their shared effect on the registry and the batch is modelled.
- json.Marshal replaces each invalid UTF-8 byte of a buffer string with U+FFFD, so two buffers that differ only in invalid bytes marshal to the same frame. The model keeps them apart: `Payload` is faithful for valid UTF-8 only.
- Path resolution: `..` segments in a relative request, or in an agent's Ip or Id, are not resolved. The path properties hold of the text prefix only.
- Go's distinction between a nil and an empty slice in the JSON output (`null` and `[]`): both are the empty sequence.
- Concurrent access to `beacons` and `activeBeacon`: one sequential handler is modelled.
- Dispatch.Register: `registerBeacon` and the `Beacon` struct are not part of this model. Register states only their contract: the first entry with the record's Id, else a fresh empty entry appended. `LastSeen` and any other fields of the struct are left out.
- The check `len(dataArr) == 0` at httplistener.go:128 can never be true inside the loop, because `strings.Split` always returns at least one piece (Strings.Split). It is therefore not modelled.
- createBeacon's stdin prompts, `strconv.Atoi` on the typed answer, `getIfaceIp`, `genRandID`, the listener table and the `go build` shell-out (beaconbuilder.go:20-25, 50-53, 88-96). The parsed answers, the address and the port are parameters. An empty read (end of input at a prompt) makes `input[:len(input)-1]` at beaconbuilder.go:25 and 37 panic; this is not modelled, so CreateBeaconAsWritten's panic condition holds for answers that were read. The proxy branch beyond its guard is unreachable and is not modelled.
- `listTargets` and `listPlatforms`: they only print the menus.

## Findings

| source | as written | input that shows it | evidently intended | confidence | as-written member | corrected member |
|---|---|---|---|---|---|---|
| beaconbuilder.go:27 | the target guard rejects `num > len(targets)` only | target choice 2 passes the guard, and `targets[2]` is out of range | reject `num >= len(targets)` | not executed | BeaconBuilder.TargetGuardOffByOne | BeaconBuilder.TargetGuard |
| beaconbuilder.go:39 | the platform guard rejects `num2 > len(platforms[target])` only | target 1 (windows) with platform choice 2, or target 0 (linux) with platform choice 4, passes, and getPlatform returns the empty platform "" | reject `num2 >= len(platforms[target])` | not executed | BeaconBuilder.PlatformGuardOffByOne | BeaconBuilder.PlatformGuard |
