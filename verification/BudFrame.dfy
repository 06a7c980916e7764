/**
 The public pair of the codec, `encode_bud_frame` and `decode_bud_frame` in bud/src/proto_wire.rs:
 the envelope's header is taken from the frame itself, and what comes back is JSON text.
 */
module BudFrame {
  import opened Wrappers
  import opened Collections
  import opened WireFormat
  import opened Json
  import opened FieldTables
  import opened FieldCodec
  import opened BudEnvelope

  function TrafficClassForFrame(frame: Value): TrafficClass {
    var ft := frame.GetString("type");
    if ft == Some("stream_data") then
      if frame.GetString("stream_type") == Some("file_read") then Bulk else ProxyActive
    else if ft.Some? && "terminal_" <= ft.value then Interactive
    else Control
  }

  function Otherwise<T>(x: Option<T>, fallback: T): T {
    if x.Some? then x.value else fallback
  }

  function FrameId(frame: Value, newId: string): string {
    Otherwise(frame.GetString("id"), newId)
  }

  function SentAt(lib: Library, frame: Value, now: nat): string {
    lib.rfc3339(Otherwise(frame.GetU64("ts"), now))
  }

  function FramePayload(lib: Library, frame: Value): Payload {
    Payload(lib.toJson(frame), frame.GetString("type"), frame.GetString("proto"))
  }

  /** `newId` and `now` stand in for an id and a time that the frame does not have. */
  function EncodeFrame(lib: Library, frame: Value, newId: string, now: nat): Result<Bytes> {
    Encode(lib, FrameId(frame, newId), SentAt(lib, frame, now), TrafficClassForFrame(frame), WebSocket,
           FramePayload(lib, frame), TypedFieldLevelWhenKnown)
  }

  function DecodeFrame(lib: Library, bytes: Bytes): Result<string> {
    var envelope :- Decode(lib, bytes);
    lib.fromUtf8(envelope.payload.json)
  }

  /** Whether a frame travels field by field. */
  predicate ByField(frame: Value) {
    var ft := frame.GetString("type");
    ft.Some? && PayloadField(ft.value).Some? && Written(ft.value).Some?
  }

  /** The frame that the other side gets. */
  function Received(lib: Library, frame: Value, newId: string, now: nat): Value {
    if ByField(frame) then
      NormalFrame(lib, frame.GetString("type").value, frame, FrameId(frame, newId), SentAt(lib, frame, now))
    else frame
  }

  lemma ReceivedPayload(lib: Library, frame: Value, newId: string, now: nat)
    requires lib.Lawful()
    ensures Arrives(lib, FramePayload(lib, frame), TypedFieldLevelWhenKnown,
                    FrameId(frame, newId), SentAt(lib, frame, now)).json
         == lib.toJson(Received(lib, frame, newId, now))
  {
  }

  /** A frame that is sent is received as text that parses to the frame, or to its normal form. */
  lemma FrameReceived(lib: Library, frame: Value, newId: string, now: nat)
    requires lib.Lawful() && lib.Textual() && EncodeFrame(lib, frame, newId, now).Ok?
    requires |EncodeFrame(lib, frame, newId, now).value| < U64
    ensures DecodeFrame(lib, EncodeFrame(lib, frame, newId, now).value).Ok?
    ensures lib.fromJson(lib.utf8(DecodeFrame(lib, EncodeFrame(lib, frame, newId, now).value).value))
         == Ok(Received(lib, frame, newId, now))
  {
    RoundTrip(lib, FrameId(frame, newId), SentAt(lib, frame, now), TrafficClassForFrame(frame), WebSocket,
              FramePayload(lib, frame), TypedFieldLevelWhenKnown);
    ReceivedPayload(lib, frame, newId, now);
  }

  /** The frame's own member, if it is this text. */
  predicate Says(frame: Value, key: string, text: string) {
    frame.Object? && key in frame.members && frame.members[key] == Str(text)
  }

  /** The frame's type begins with `prefix`. */
  predicate TypeBegins(frame: Value, prefix: string) {
    frame.Object? && "type" in frame.members && frame.members["type"].Str? && prefix <= frame.members["type"].text
  }

  /** The traffic class of a frame, by the frame's own members. */
  predicate InClass(frame: Value, tc: TrafficClass) {
    && (tc == Bulk <==> Says(frame, "type", "stream_data") && Says(frame, "stream_type", "file_read"))
    && (tc == ProxyActive <==> Says(frame, "type", "stream_data") && !Says(frame, "stream_type", "file_read"))
    && (tc == Interactive <==> TypeBegins(frame, "terminal_"))
    && (tc == Control <==> !Says(frame, "type", "stream_data") && !TypeBegins(frame, "terminal_"))
  }

  lemma ClassByMembers(frame: Value)
    ensures InClass(frame, TrafficClassForFrame(frame))
  {
    assert "terminal_"[0] == 't' && "stream_data"[0] == 's';
  }

  /**
   The envelope that arrives says how urgent the frame is: file contents are bulk, other stream data
   is active proxy traffic, terminal frames are interactive, and all others are control traffic.
   */
  lemma FrameClass(lib: Library, frame: Value, newId: string, now: nat)
    requires lib.Lawful() && EncodeFrame(lib, frame, newId, now).Ok?
    requires |EncodeFrame(lib, frame, newId, now).value| < U64
    ensures Decode(lib, EncodeFrame(lib, frame, newId, now).value).Ok?
    ensures var envelope := Decode(lib, EncodeFrame(lib, frame, newId, now).value).value;
      InClass(frame, envelope.trafficClass) && envelope.transportKind == Some(WebSocket) && envelope.version == 1
  {
    ClassByMembers(frame);
    RoundTrip(lib, FrameId(frame, newId), SentAt(lib, frame, now), TrafficClassForFrame(frame), WebSocket,
              FramePayload(lib, frame), TypedFieldLevelWhenKnown);
  }

  /** The type has a payload field of its own. */
  predicate HasField(frameType: Option<string>) {
    frameType.Some? && PayloadField(frameType.value).Some?
  }

  /** The envelope also says what the payload is: its type, and the protocol that goes with the type. */
  lemma FrameProto(lib: Library, frame: Value, newId: string, now: nat)
    requires lib.Lawful() && EncodeFrame(lib, frame, newId, now).Ok?
    requires |EncodeFrame(lib, frame, newId, now).value| < U64
    ensures Decode(lib, EncodeFrame(lib, frame, newId, now).value).Ok?
    ensures var payload := Decode(lib, EncodeFrame(lib, frame, newId, now).value).value.payload;
      && (forall t :: payload.frameType == Some(t) <==> Says(frame, "type", t))
      && (HasField(payload.frameType) ==>
            payload.proto == Some(if TypeBegins(frame, "terminal_") then "0.3" else "0.1"))
      && (!HasField(payload.frameType) ==> forall t :: payload.proto == Some(t) <==> Says(frame, "proto", t))
  {
    RoundTrip(lib, FrameId(frame, newId), SentAt(lib, frame, now), TrafficClassForFrame(frame), WebSocket,
              FramePayload(lib, frame), TypedFieldLevelWhenKnown);
  }

  lemma BaseKept(lib: Library, ft: string, frame: Value, id: string, sentAt: string, key: string)
    requires Written(ft).Some? && key in BASE_KEYS
    ensures NormalFrame(lib, ft, frame, id, sentAt).Get(key) == Some(BaseFrame(lib, ft, id, sentAt)[key])
  {
    TablesSound(ft);
    assert key !in NormalFields(lib, Written(ft).value, frame);
  }

  lemma WrittenInitial(ft: string)
    requires Written(ft).Some?
    ensures ft != "" && ft[0] != 't'
  {
  }

  /** A frame that travels field by field never is a terminal frame. */
  lemma ByFieldNotTerminal(frame: Value)
    requires ByField(frame)
    ensures !TypeBegins(frame, "terminal_")
  {
    WrittenInitial(frame.GetString("type").value);
    assert "terminal_"[0] == 't';
  }

  /** The frame's own type, id and time come back, however it travels. */
  lemma OwnHeaderReceived(lib: Library, frame: Value, newId: string, now: nat)
    requires lib.Lawful() && lib.Timely()
    ensures forall t :: Says(frame, "type", t) ==> Says(Received(lib, frame, newId, now), "type", t)
    ensures forall t :: Says(frame, "id", t) ==> Says(Received(lib, frame, newId, now), "id", t)
    ensures frame.GetU64("ts").Some? && frame.GetU64("ts").value < YEAR_10000_MS ==>
      Received(lib, frame, newId, now).GetU64("ts") == frame.GetU64("ts")
    // field by field, the protocol is the one of its type and there are no extensions; else nothing changes
    ensures ByField(frame) ==>
      && Says(Received(lib, frame, newId, now), "proto", "0.1")
      && Received(lib, frame, newId, now).Get("ext") == Some(Object(map[]))
    ensures !ByField(frame) ==> Received(lib, frame, newId, now) == frame
  {
    if ByField(frame) {
      var ft, id, sentAt := frame.GetString("type").value, FrameId(frame, newId), SentAt(lib, frame, now);
      BaseKept(lib, ft, frame, id, sentAt, "type");
      BaseKept(lib, ft, frame, id, sentAt, "id");
      BaseKept(lib, ft, frame, id, sentAt, "ts");
      BaseKept(lib, ft, frame, id, sentAt, "proto");
      BaseKept(lib, ft, frame, id, sentAt, "ext");
      ByFieldNotTerminal(frame);
    }
  }

  /** A frame without an id or a time gets the ones that were made up for it. */
  lemma MadeUpHeaderReceived(lib: Library, frame: Value, newId: string, now: nat)
    requires lib.Lawful() && lib.Timely() && ByField(frame)
    ensures frame.GetString("id").None? ==> Received(lib, frame, newId, now).GetString("id") == Some(newId)
    ensures frame.GetU64("ts").None? && now < YEAR_10000_MS ==>
      Received(lib, frame, newId, now).GetU64("ts") == Some(now)
  {
    var ft, id, sentAt := frame.GetString("type").value, FrameId(frame, newId), SentAt(lib, frame, now);
    BaseKept(lib, ft, frame, id, sentAt, "id");
    BaseKept(lib, ft, frame, id, sentAt, "ts");
  }
}
