/** Values exchanged in a check-in: the decoded request record, the five
    outbound buffers of a beacon, and the routed response frames. */
module Protocol {

  datatype Option<T> = None | Some(value: T)

  /** CommandUpdate: one decoded unit of a batched check-in. */
  datatype CommandUpdate = CommandUpdate(Id: string, Ip: string, Type: string, Data: string)

  /** What json.Unmarshal leaves in a zero-valued CommandUpdate. */
  const DefaultUpdate := CommandUpdate("", "", "", "")

  /** The map respMap / clientRespMap: one queue per instruction category,
      under the JSON keys exec, download, upload, shellcode, proxyclients. */
  datatype Buffers = Buffers(
    exec: seq<string>,
    download: seq<string>,
    upload: seq<string>,
    shellcode: seq<string>,
    proxyclients: seq<string>)

  const Empty := Buffers([], [], [], [], [])

  /** bufferLen: the summed length of the five queues. */
  function Pending(b: Buffers): (n: nat)
    ensures n == 0 <==> b == Empty
  {
    |b.exec| + |b.download| + |b.upload| + |b.shellcode| + |b.proxyclients|
  }

  /** The Data of a BeaconMessage. On buffers whose strings are valid UTF-8,
      json.Marshal is injective on the values the listener marshals, so the
      marshalled bytes are represented by the value they encode: a buffer
      map, or a list of nested messages. */
  datatype Payload = Snapshot(buffers: Buffers) | Bundle(frames: seq<Message>)

  /** BeaconMessage{Route, Data}. */
  datatype Message = Message(Route: string, Data: Payload)

  /** Route []byte{0}: a frame for the agent that made the request. */
  const DirectRoute: string := [0 as char]

  /** The calling agent's own frame. */
  function OwnFrame(b: Buffers): (f: Message)
    ensures f.Route == DirectRoute && f.Data.Snapshot? && f.Data.buffers == b
  {
    Message(DirectRoute, Snapshot(b))
  }

  /** A frame for downstream agent `id`: a one-element list holding that
      agent's own direct frame, routed to `id`. */
  function RelayFrame(id: string, b: Buffers): (f: Message)
    ensures f.Route == id && f.Data.Bundle? && f.Data.frames == [OwnFrame(b)]
  {
    Message(id, Bundle([OwnFrame(b)]))
  }

  /** A frame determines what it carries: an own frame its buffers, a relay
      frame its route and buffers, and the two kinds never coincide. */
  lemma FramesDetermine(a: Buffers, b: Buffers, id: string, id2: string)
    ensures OwnFrame(a) == OwnFrame(b) ==> a == b
    ensures RelayFrame(id, a) == RelayFrame(id2, b) ==> id == id2 && a == b
    ensures OwnFrame(a) != RelayFrame(id, b)
  {
  }

  /** The decoders the listener calls and discards errors from.
      `unit` is base64 then JSON on one request unit: the record
      json.Unmarshal fills in from the bytes DecodeString returns, which may
      be a prefix of the input or a record with only some fields filled;
      None when nothing was filled in (for instance, no bytes decoded).
      `data` is base64 on update.Data (whatever bytes DecodeString returns). */
  datatype Codec = Codec(unit: string -> Option<CommandUpdate>, data: string -> string)

  /** Decoding a request unit: the record the decoders filled in, or the
      zero-valued record when they filled in nothing. */
  function DecodeUnit(codec: Codec, text: string): (u: CommandUpdate)
    ensures codec.unit(text) == Some(u) || (codec.unit(text) == None && u == DefaultUpdate)
  {
    match codec.unit(text)
    case Some(u) => u
    case None => DefaultUpdate
  }
}
