/**
 The Bud envelope of bud/src/proto_wire.rs: a versioned header and one of three payloads
 (legacy JSON, frame_json under a typed field, or field-level protobuf).
 */
module BudEnvelope {
  import opened Wrappers
  import opened Collections
  import opened WireFormat
  import opened Json
  import opened FieldSchema
  import opened FieldTables
  import opened FieldCodec
  import opened FieldRoundTrip

  const ENVELOPE_VERSION := 1
  const FRAME_JSON_FIELD := 99
  const LEGACY_JSON_FIELD := 100

  datatype TrafficClass = Control | Interactive | ProxyActive | Bulk | Telemetry {
    function Code(): nat {
      match this
      case Control => 1
      case Interactive => 2
      case ProxyActive => 3
      case Bulk => 4
      case Telemetry => 5
    }
  }

  datatype TransportKind = WebSocket | H2Grpc | H2Data | Quic {
    function Code(): nat {
      match this
      case WebSocket => 1
      case H2Grpc => 2
      case H2Data => 3
      case Quic => 4
    }
  }

  function TrafficClassOf(n: nat): TrafficClass {
    match n
    case 2 => Interactive
    case 3 => ProxyActive
    case 4 => Bulk
    case 5 => Telemetry
    case _ => Control
  }

  function TransportKindOf(n: nat): TransportKind {
    match n
    case 2 => H2Grpc
    case 3 => H2Data
    case 4 => Quic
    case _ => WebSocket
  }

  datatype PayloadEncoding = LegacyJson | TypedFrameJsonWhenKnown | TypedFieldLevelWhenKnown

  datatype Payload = Payload(json: Bytes, frameType: Option<string>, proto: Option<string>)

  datatype Envelope = Envelope(
    version: nat, messageId: string, sentAt: string, trafficClass: TrafficClass,
    transportKind: Option<TransportKind>, payload: Payload)

  // ---------------------------------------------------------------------------
  // Payload fields
  // ---------------------------------------------------------------------------

  function ControlField(frameType: string): Option<nat> {
    if frameType == "error" then Some(101)
    else if frameType == "hello" then Some(102)
    else if frameType == "hello_ack" then Some(103)
    else if frameType == "hello_challenge" then Some(104)
    else if frameType == "hello_proof" then Some(105)
    else if frameType == "heartbeat" then Some(106)
    else if frameType == "heartbeat_ack" then Some(107)
    else if frameType == "reconnect_report" then Some(150)
    else if frameType == "reconciliation_decision" then Some(151)
    else None
  }

  function ControlFrameType(field: nat): Option<string> {
    match field
    case 101 => Some("error")
    case 102 => Some("hello")
    case 103 => Some("hello_ack")
    case 104 => Some("hello_challenge")
    case 105 => Some("hello_proof")
    case 106 => Some("heartbeat")
    case 107 => Some("heartbeat_ack")
    case 150 => Some("reconnect_report")
    case 151 => Some("reconciliation_decision")
    case _ => None
  }

  lemma ControlFieldInverse(frameType: string)
    requires ControlField(frameType).Some?
    ensures var n := ControlField(frameType).value; 101 <= n < 120 || 150 <= n < 170
    ensures ControlFrameType(ControlField(frameType).value) == Some(frameType)
  {
  }

  function TerminalField(frameType: string): Option<nat> {
    if frameType == "terminal_ensure" then Some(120)
    else if frameType == "terminal_status" then Some(121)
    else if frameType == "terminal_input" then Some(122)
    else if frameType == "terminal_resize" then Some(123)
    else if frameType == "terminal_close" then Some(124)
    else if frameType == "terminal_send" then Some(125)
    else if frameType == "terminal_send_result" then Some(126)
    else if frameType == "terminal_observe" then Some(127)
    else if frameType == "terminal_observe_result" then Some(128)
    else if frameType == "terminal_output" then Some(129)
    else None
  }

  function TerminalFrameType(field: nat): Option<string> {
    match field
    case 120 => Some("terminal_ensure")
    case 121 => Some("terminal_status")
    case 122 => Some("terminal_input")
    case 123 => Some("terminal_resize")
    case 124 => Some("terminal_close")
    case 125 => Some("terminal_send")
    case 126 => Some("terminal_send_result")
    case 127 => Some("terminal_observe")
    case 128 => Some("terminal_observe_result")
    case 129 => Some("terminal_output")
    case _ => None
  }

  lemma TerminalFieldInverse(frameType: string)
    requires TerminalField(frameType).Some?
    ensures 120 <= TerminalField(frameType).value < 150
    ensures TerminalFrameType(TerminalField(frameType).value) == Some(frameType)
  {
  }

  function DataField(frameType: string): Option<nat> {
    if frameType == "data_attach" then Some(170)
    else if frameType == "data_attach_ack" then Some(171)
    else if frameType == "stream_data" then Some(172)
    else if frameType == "stream_credit" then Some(173)
    else if frameType == "stream_reset" then Some(174)
    else if frameType == "stream_close" then Some(175)
    else if frameType == "proxy_open" then Some(176)
    else if frameType == "proxy_open_result" then Some(177)
    else if frameType == "file_open" then Some(178)
    else if frameType == "file_open_result" then Some(179)
    else if frameType == "file_resolve" then Some(180)
    else if frameType == "file_resolve_result" then Some(181)
    else if frameType == "proxy_ws_open" then Some(182)
    else if frameType == "proxy_ws_open_result" then Some(183)
    else if frameType == "proxy_ws_message" then Some(184)
    else if frameType == "proxy_ws_close" then Some(185)
    else if frameType == "proxy_ws_error" then Some(186)
    else if frameType == "browser_command" then Some(190)
    else if frameType == "browser_result" then Some(191)
    else None
  }

  function DataFrameType(field: nat): Option<string> {
    match field
    case 170 => Some("data_attach")
    case 171 => Some("data_attach_ack")
    case 172 => Some("stream_data")
    case 173 => Some("stream_credit")
    case 174 => Some("stream_reset")
    case 175 => Some("stream_close")
    case 176 => Some("proxy_open")
    case 177 => Some("proxy_open_result")
    case 178 => Some("file_open")
    case 179 => Some("file_open_result")
    case 180 => Some("file_resolve")
    case 181 => Some("file_resolve_result")
    case 182 => Some("proxy_ws_open")
    case 183 => Some("proxy_ws_open_result")
    case 184 => Some("proxy_ws_message")
    case 185 => Some("proxy_ws_close")
    case 186 => Some("proxy_ws_error")
    case 190 => Some("browser_command")
    case 191 => Some("browser_result")
    case _ => None
  }

  lemma DataFieldInverse(frameType: string)
    requires DataField(frameType).Some?
    ensures 170 <= DataField(frameType).value <= 191
    ensures DataFrameType(DataField(frameType).value) == Some(frameType)
  {
  }

  /** The typed payload field of a frame type. */
  function PayloadField(frameType: string): Option<nat> {
    if ControlField(frameType).Some? then ControlField(frameType)
    else if TerminalField(frameType).Some? then TerminalField(frameType)
    else DataField(frameType)
  }

  /** The frame type of a payload field. */
  function FrameTypeOf(field: nat): Option<string> {
    if field < 120 || 150 <= field < 170 then ControlFrameType(field)
    else if field < 150 then TerminalFrameType(field)
    else DataFrameType(field)
  }

  /** Each typed payload field leads back to the frame type it was chosen for. */
  lemma PayloadFieldInverse(frameType: string)
    requires PayloadField(frameType).Some?
    ensures 101 <= PayloadField(frameType).value <= 191
    ensures FrameTypeOf(PayloadField(frameType).value) == Some(frameType)
  {
    if ControlField(frameType).Some? {
      ControlFieldInverse(frameType);
    } else if TerminalField(frameType).Some? {
      TerminalFieldInverse(frameType);
    } else {
      DataFieldInverse(frameType);
    }
  }

  function ProtoFor(frameType: string): string {
    if "terminal_" <= frameType then "0.3" else "0.1"
  }

  // ---------------------------------------------------------------------------
  // Encoding
  // ---------------------------------------------------------------------------

  function FrameJson(json: Bytes): Bytes {
    Print([Chunk(FRAME_JSON_FIELD, json)])
  }

  /** The bytes under a typed payload field. */
  function TypedPayload(lib: Library, frameType: string, json: Bytes, encoding: PayloadEncoding): Result<Bytes> {
    if encoding == TypedFieldLevelWhenKnown && lib.fromJson(json).Ok? && Written(frameType).Some? then
      var ws :- EncodeFields(lib, Written(frameType).value, lib.fromJson(json).value);
      Ok(Print(ws))
    else
      Ok(FrameJson(json))
  }

  function LegacyWires(lib: Library, p: Payload): seq<Wire> {
    [Chunk(1, p.json)]
    + (if p.frameType.Some? then [Chunk(2, lib.utf8(p.frameType.value))] else [])
    + (if p.proto.Some? then [Chunk(3, lib.utf8(p.proto.value))] else [])
  }

  function PayloadWire(lib: Library, p: Payload, encoding: PayloadEncoding): Result<Wire> {
    if encoding != LegacyJson && p.frameType.Some? && PayloadField(p.frameType.value).Some? then
      var bytes :- TypedPayload(lib, p.frameType.value, p.json, encoding);
      Ok(Chunk(PayloadField(p.frameType.value).value, bytes))
    else
      Ok(Chunk(LEGACY_JSON_FIELD, Print(LegacyWires(lib, p))))
  }

  function HeaderWires(lib: Library, id: string, sentAt: string, tc: TrafficClass, tk: TransportKind): seq<Wire> {
    [Number(1, ENVELOPE_VERSION), Chunk(2, lib.utf8(id)), Chunk(10, lib.utf8(sentAt)),
     Number(11, tc.Code()), Number(12, tk.Code())]
  }

  function Encode(lib: Library, id: string, sentAt: string, tc: TrafficClass, tk: TransportKind,
                  p: Payload, encoding: PayloadEncoding): Result<Bytes>
  {
    var w :- PayloadWire(lib, p, encoding);
    Ok(Print(HeaderWires(lib, id, sentAt, tc, tk) + [w]))
  }

  // ---------------------------------------------------------------------------
  // Decoding
  // ---------------------------------------------------------------------------

  datatype LegacyState = LegacyState(json: Option<Bytes>, frameType: Option<string>, proto: Option<string>)

  function ApplyLegacy(lib: Library, st: LegacyState, w: Wire): Result<LegacyState> {
    if w.number == 1 then
      if !w.Chunk? then Err else Ok(st.(json := Some(w.bytes)))
    else if w.number == 2 then
      if !w.Chunk? then Err else
      var s :- lib.fromUtf8(w.bytes);
      Ok(st.(frameType := Some(s)))
    else if w.number == 3 then
      if !w.Chunk? then Err else
      var s :- lib.fromUtf8(w.bytes);
      Ok(st.(proto := Some(s)))
    else Ok(st)
  }

  function LegacyFrom(lib: Library, st: LegacyState, ws: seq<Wire>): Result<LegacyState>
    decreases ws
  {
    if ws == [] then Ok(st)
    else
      var st' :- ApplyLegacy(lib, st, ws[0]);
      LegacyFrom(lib, st', ws[1..])
  }

  function DecodeLegacy(lib: Library, bytes: Bytes): Result<Payload> {
    var ws :- Wires(bytes);
    var st :- LegacyFrom(lib, LegacyState(None, None, None), ws);
    if st.json.None? then Err else Ok(Payload(st.json.value, st.frameType, st.proto))
  }

  predicate HasFrameJson(ws: seq<Wire>) {
    exists i :: 0 <= i < |ws| && ws[i].number == FRAME_JSON_FIELD
  }

  /** The last frame_json chunk of a typed payload. */
  function LastFrameJson(json: Option<Bytes>, ws: seq<Wire>): Result<Option<Bytes>>
    decreases ws
  {
    if ws == [] then Ok(json)
    else if ws[0].number == FRAME_JSON_FIELD then
      if !ws[0].Chunk? then Err else LastFrameJson(Some(ws[0].bytes), ws[1..])
    else LastFrameJson(json, ws[1..])
  }

  function BaseFrame(lib: Library, frameType: string, id: string, sentAt: string): (m: Members)
    ensures m.Keys == BASE_KEYS
  {
    map["proto" := Str(ProtoFor(frameType)), "type" := Str(frameType), "id" := Str(id),
        "ts" := Int(lib.millis(sentAt)), "ext" := Object(map[])]
  }

  /** A typed payload: field-level unless it holds a frame_json field. */
  function DecodeTyped(lib: Library, bytes: Bytes, frameType: string, id: string, sentAt: string): Result<Payload> {
    var ws :- Wires(bytes);
    if Read(frameType).Some? && !HasFrameJson(ws) then
      var m :- DecodeWires(lib, Read(frameType).value, BaseFrame(lib, frameType, id, sentAt), ws);
      Ok(Payload(lib.toJson(Object(m)), Some(frameType), Some(ProtoFor(frameType))))
    else
      var json :- LastFrameJson(None, ws);
      if json.None? then Err else Ok(Payload(json.value, Some(frameType), Some(ProtoFor(frameType))))
  }

  datatype EnvelopeState = EnvelopeState(
    version: Option<nat>, id: Option<string>, sentAt: Option<string>, tc: Option<TrafficClass>,
    tk: Option<TransportKind>, payload: Option<Payload>, typed: Option<(string, Bytes)>)

  const BLANK := EnvelopeState(None, None, None, None, None, None, None)

  function ApplyEnvelope(lib: Library, st: EnvelopeState, w: Wire): Result<EnvelopeState> {
    if w.number == 1 then
      if !w.Number? then Err else Ok(st.(version := Some(w.value % U32)))
    else if w.number == 2 then
      if !w.Chunk? then Err else
      var s :- lib.fromUtf8(w.bytes);
      Ok(st.(id := Some(s)))
    else if w.number == 10 then
      if !w.Chunk? then Err else
      var s :- lib.fromUtf8(w.bytes);
      Ok(st.(sentAt := Some(s)))
    else if w.number == 11 then
      if !w.Number? then Err else Ok(st.(tc := Some(TrafficClassOf(w.value))))
    else if w.number == 12 then
      if !w.Number? then Err else Ok(st.(tk := Some(TransportKindOf(w.value))))
    else if w.number == LEGACY_JSON_FIELD then
      if !w.Chunk? then Err else
      var p :- DecodeLegacy(lib, w.bytes);
      Ok(st.(payload := Some(p)))
    else if FrameTypeOf(w.number).Some? then
      if !w.Chunk? then Err else Ok(st.(typed := Some((FrameTypeOf(w.number).value, w.bytes))))
    else Ok(st)
  }

  function EnvelopeFrom(lib: Library, st: EnvelopeState, ws: seq<Wire>): Result<EnvelopeState>
    decreases ws
  {
    if ws == [] then Ok(st)
    else
      var st' :- ApplyEnvelope(lib, st, ws[0]);
      EnvelopeFrom(lib, st', ws[1..])
  }

  /** The checks after the loop; a legacy payload takes precedence over a typed one. */
  function Finish(lib: Library, st: EnvelopeState): Result<Envelope> {
    if st.version != Some(ENVELOPE_VERSION) || st.id.None? || st.sentAt.None? then Err
    else
      var payload :-
        if st.payload.Some? then Ok(st.payload.value)
        else if st.typed.Some? then
          DecodeTyped(lib, st.typed.value.1, st.typed.value.0, st.id.value, st.sentAt.value)
        else Err;
      if st.tc.None? then Err
      else Ok(Envelope(ENVELOPE_VERSION, st.id.value, st.sentAt.value, st.tc.value, st.tk, payload))
  }

  function DecodeFrom(lib: Library, st: EnvelopeState, bytes: Bytes): Result<EnvelopeState> {
    var ws :- Wires(bytes);
    EnvelopeFrom(lib, st, ws)
  }

  function Decode(lib: Library, bytes: Bytes): Result<Envelope> {
    var st :- DecodeFrom(lib, BLANK, bytes);
    Finish(lib, st)
  }

  // ---------------------------------------------------------------------------
  // Round trips
  // ---------------------------------------------------------------------------

  /** Whether a payload travels as field-level protobuf. */
  predicate FieldLevel(lib: Library, p: Payload, encoding: PayloadEncoding) {
    && encoding == TypedFieldLevelWhenKnown && p.frameType.Some?
    && PayloadField(p.frameType.value).Some? && Written(p.frameType.value).Some?
    && lib.fromJson(p.json).Ok?
  }

  predicate Typed(p: Payload, encoding: PayloadEncoding) {
    encoding != LegacyJson && p.frameType.Some? && PayloadField(p.frameType.value).Some?
  }

  /** The frame that arrives when `frame` travels as field-level protobuf. */
  function NormalFrame(lib: Library, frameType: string, frame: Value, id: string, sentAt: string): Value
    requires Written(frameType).Some?
  {
    Object(BaseFrame(lib, frameType, id, sentAt) + NormalFields(lib, Written(frameType).value, frame))
  }

  /** The payload that arrives. */
  function Arrives(lib: Library, p: Payload, encoding: PayloadEncoding, id: string, sentAt: string): Payload {
    if FieldLevel(lib, p, encoding) then
      var ft := p.frameType.value;
      Payload(lib.toJson(NormalFrame(lib, ft, lib.fromJson(p.json).value, id, sentAt)), Some(ft), Some(ProtoFor(ft)))
    else if Typed(p, encoding) then
      Payload(p.json, p.frameType, Some(ProtoFor(p.frameType.value)))
    else p
  }

  lemma {:induction false} PlainHasNoFrameJson(ws: seq<Wire>)
    requires Plain(ws)
    ensures !HasFrameJson(ws)
  {
  }

  lemma FieldLevelArrives(lib: Library, ft: string, json: Bytes, id: string, sentAt: string)
    requires lib.Lawful() && Written(ft).Some? && lib.fromJson(json).Ok?
    requires EncodeFields(lib, Written(ft).value, lib.fromJson(json).value).Ok?
    requires |Print(EncodeFields(lib, Written(ft).value, lib.fromJson(json).value).value)| < U64
    ensures
      var frame := lib.fromJson(json).value;
      var bytes := Print(EncodeFields(lib, Written(ft).value, frame).value);
      DecodeTyped(lib, bytes, ft, id, sentAt)
        == Ok(Payload(lib.toJson(NormalFrame(lib, ft, frame, id, sentAt)), Some(ft), Some(ProtoFor(ft))))
  {
    TablesSound(ft);
    var fields, frame := Written(ft).value, lib.fromJson(json).value;
    var ws := EncodeFields(lib, fields, frame).value;
    FieldsPlain(lib, fields, frame);
    PlainRoundTrip(ws);
    PlainHasNoFrameJson(ws);
    FrameRoundTrip(lib, fields, BaseFrame(lib, ft, id, sentAt), frame);
  }

  lemma FrameJsonArrives(lib: Library, ft: string, json: Bytes, id: string, sentAt: string)
    requires |FrameJson(json)| < U64
    ensures DecodeTyped(lib, FrameJson(json), ft, id, sentAt) == Ok(Payload(json, Some(ft), Some(ProtoFor(ft))))
  {
    var ws := [Chunk(FRAME_JSON_FIELD, json)];
    ChunkFits(FRAME_JSON_FIELD, json);
    PrintRoundTrip(ws);
    assert ws[0].number == FRAME_JSON_FIELD;
    assert HasFrameJson(ws);
    assert ws[1..] == [];
    assert LastFrameJson(Some(json), []) == Ok(Some(json));
    assert LastFrameJson(None, ws) == Ok(Some(json));
  }

  lemma LegacyCons(lib: Library, st: LegacyState, w: Wire, ws: seq<Wire>, st': LegacyState)
    requires ApplyLegacy(lib, st, w) == Ok(st')
    ensures LegacyFrom(lib, st, [w] + ws) == LegacyFrom(lib, st', ws)
  {
    assert ([w] + ws)[1..] == ws;
  }

  lemma LegacyApplied(lib: Library, p: Payload)
    requires lib.Lawful()
    ensures LegacyFrom(lib, LegacyState(None, None, None), LegacyWires(lib, p))
         == Ok(LegacyState(Some(p.json), p.frameType, p.proto))
  {
    var st1 := LegacyState(Some(p.json), None, None);
    var st2 := st1.(frameType := p.frameType);
    var st3 := st2.(proto := p.proto);
    var third := if p.proto.Some? then [Chunk(3, lib.utf8(p.proto.value))] else [];
    var second := (if p.frameType.Some? then [Chunk(2, lib.utf8(p.frameType.value))] else []) + third;
    assert LegacyWires(lib, p) == [Chunk(1, p.json)] + second;
    LegacyCons(lib, LegacyState(None, None, None), Chunk(1, p.json), second, st1);
    if p.frameType.Some? {
      LegacyCons(lib, st1, Chunk(2, lib.utf8(p.frameType.value)), third, st2);
    } else {
      assert second == third;
    }
    if p.proto.Some? {
      LegacyCons(lib, st2, Chunk(3, lib.utf8(p.proto.value)), [], st3);
      assert third + [] == third;
    }
  }

  lemma LegacyArrives(lib: Library, p: Payload)
    requires lib.Lawful() && |Print(LegacyWires(lib, p))| < U64
    ensures DecodeLegacy(lib, Print(LegacyWires(lib, p))) == Ok(p)
  {
    PlainRoundTrip(LegacyWires(lib, p));
    LegacyApplied(lib, p);
  }

  /** What the header fields leave in the decoder's variables. */
  function Headed(id: string, sentAt: string, tc: TrafficClass, tk: TransportKind): EnvelopeState {
    EnvelopeState(Some(ENVELOPE_VERSION), Some(id), Some(sentAt), Some(tc), Some(tk), None, None)
  }

  lemma HeaderStarts(lib: Library, id: string, sentAt: string, rest: seq<Wire>)
    requires lib.Lawful()
    ensures EnvelopeFrom(lib, BLANK,
                         [Number(1, ENVELOPE_VERSION)] + ([Chunk(2, lib.utf8(id))] + ([Chunk(10, lib.utf8(sentAt))] + rest)))
         == EnvelopeFrom(lib, BLANK.(version := Some(ENVELOPE_VERSION), id := Some(id), sentAt := Some(sentAt)), rest)
  {
    var st1 := BLANK.(version := Some(ENVELOPE_VERSION));
    var st2 := st1.(id := Some(id));
    var third := [Chunk(10, lib.utf8(sentAt))] + rest;
    EnvelopeCons(lib, BLANK, Number(1, ENVELOPE_VERSION), [Chunk(2, lib.utf8(id))] + third, st1);
    EnvelopeCons(lib, st1, Chunk(2, lib.utf8(id)), third, st2);
    EnvelopeCons(lib, st2, Chunk(10, lib.utf8(sentAt)), rest, st2.(sentAt := Some(sentAt)));
  }

  lemma HeaderEnds(lib: Library, st: EnvelopeState, tc: TrafficClass, tk: TransportKind, w: Wire)
    ensures EnvelopeFrom(lib, st, [Number(11, tc.Code())] + ([Number(12, tk.Code())] + [w]))
         == ApplyEnvelope(lib, st.(tc := Some(tc), tk := Some(tk)), w)
  {
    assert TrafficClassOf(tc.Code()) == tc && TransportKindOf(tk.Code()) == tk;
    var st4 := st.(tc := Some(tc));
    EnvelopeCons(lib, st, Number(11, tc.Code()), [Number(12, tk.Code())] + [w], st4);
    EnvelopeCons(lib, st4, Number(12, tk.Code()), [w], st4.(tk := Some(tk)));
    EnvelopeOne(lib, st4.(tk := Some(tk)), w);
  }

  lemma HeaderApplied(lib: Library, id: string, sentAt: string, tc: TrafficClass, tk: TransportKind, w: Wire)
    requires lib.Lawful()
    ensures EnvelopeFrom(lib, BLANK, HeaderWires(lib, id, sentAt, tc, tk) + [w])
         == ApplyEnvelope(lib, Headed(id, sentAt, tc, tk), w)
  {
    var rest := [Number(11, tc.Code())] + ([Number(12, tk.Code())] + [w]);
    assert HeaderWires(lib, id, sentAt, tc, tk) + [w]
        == [Number(1, ENVELOPE_VERSION)] + ([Chunk(2, lib.utf8(id))] + ([Chunk(10, lib.utf8(sentAt))] + rest));
    HeaderStarts(lib, id, sentAt, rest);
    HeaderEnds(lib, BLANK.(version := Some(ENVELOPE_VERSION), id := Some(id), sentAt := Some(sentAt)), tc, tk, w);
  }

  lemma EnvelopeCons(lib: Library, st: EnvelopeState, w: Wire, ws: seq<Wire>, st': EnvelopeState)
    requires ApplyEnvelope(lib, st, w) == Ok(st')
    ensures EnvelopeFrom(lib, st, [w] + ws) == EnvelopeFrom(lib, st', ws)
  {
    assert ([w] + ws)[1..] == ws;
  }

  lemma EnvelopeOne(lib: Library, st: EnvelopeState, w: Wire)
    ensures EnvelopeFrom(lib, st, [w]) == ApplyEnvelope(lib, st, w)
  {
    var r := ApplyEnvelope(lib, st, w);
    assert [w][1..] == [];
    assert r.Ok? ==> EnvelopeFrom(lib, r.value, []) == r;
  }

  lemma EncodedWires(lib: Library, id: string, sentAt: string, tc: TrafficClass, tk: TransportKind, w: Wire)
    requires w.Chunk? && w.number < U32
    requires |Print(HeaderWires(lib, id, sentAt, tc, tk) + [w])| < U64
    ensures Wires(Print(HeaderWires(lib, id, sentAt, tc, tk) + [w])) == Ok(HeaderWires(lib, id, sentAt, tc, tk) + [w])
    ensures |w.bytes| < U64
  {
    var header := HeaderWires(lib, id, sentAt, tc, tk);
    PrintConcat(header, [w]);
    ChunkFits(w.number, w.bytes);
    assert [Chunk(w.number, w.bytes)] == [w];
    PlainValid(header);
    PrintRoundTrip(header + [w]);
  }

  lemma PayloadWireShape(lib: Library, p: Payload, encoding: PayloadEncoding)
    requires PayloadWire(lib, p, encoding).Ok?
    ensures
      var w := PayloadWire(lib, p, encoding).value;
      w.Chunk? && 100 <= w.number <= 191 && (w.number == LEGACY_JSON_FIELD <==> !Typed(p, encoding))
  {
    if Typed(p, encoding) {
      PayloadFieldInverse(p.frameType.value);
    }
  }

  /** The last wire of an envelope decides its payload. */
  lemma FinishPayload(lib: Library, id: string, sentAt: string, tc: TrafficClass, tk: TransportKind,
                      w: Wire, payload: Payload)
    requires w.Chunk? && 100 <= w.number
    requires w.number == LEGACY_JSON_FIELD ==> DecodeLegacy(lib, w.bytes) == Ok(payload)
    requires w.number != LEGACY_JSON_FIELD ==>
      && FrameTypeOf(w.number).Some?
      && DecodeTyped(lib, w.bytes, FrameTypeOf(w.number).value, id, sentAt) == Ok(payload)
    ensures ApplyEnvelope(lib, Headed(id, sentAt, tc, tk), w).Ok?
    ensures Finish(lib, ApplyEnvelope(lib, Headed(id, sentAt, tc, tk), w).value)
         == Ok(Envelope(ENVELOPE_VERSION, id, sentAt, tc, Some(tk), payload))
  {
  }

  lemma TypedArrives(lib: Library, id: string, sentAt: string, p: Payload, encoding: PayloadEncoding, w: Wire)
    requires lib.Lawful() && Typed(p, encoding) && PayloadWire(lib, p, encoding) == Ok(w) && |w.bytes| < U64
    ensures DecodeTyped(lib, w.bytes, p.frameType.value, id, sentAt) == Ok(Arrives(lib, p, encoding, id, sentAt))
  {
    var ft := p.frameType.value;
    if FieldLevel(lib, p, encoding) {
      FieldLevelArrives(lib, ft, p.json, id, sentAt);
    } else {
      FrameJsonArrives(lib, ft, p.json, id, sentAt);
    }
  }

  /**
   The main theorem: whatever the frame and the encoding, decoding an encoded envelope gives its
   header back exactly and the payload described by `Arrives`.
   */
  lemma RoundTrip(lib: Library, id: string, sentAt: string, tc: TrafficClass, tk: TransportKind,
                  p: Payload, encoding: PayloadEncoding)
    requires lib.Lawful() && Encode(lib, id, sentAt, tc, tk, p, encoding).Ok?
    requires |Encode(lib, id, sentAt, tc, tk, p, encoding).value| < U64
    ensures Decode(lib, Encode(lib, id, sentAt, tc, tk, p, encoding).value)
         == Ok(Envelope(ENVELOPE_VERSION, id, sentAt, tc, Some(tk), Arrives(lib, p, encoding, id, sentAt)))
  {
    var w := PayloadWire(lib, p, encoding).value;
    PayloadWireShape(lib, p, encoding);
    EncodedWires(lib, id, sentAt, tc, tk, w);
    HeaderApplied(lib, id, sentAt, tc, tk, w);
    if Typed(p, encoding) {
      PayloadFieldInverse(p.frameType.value);
      TypedArrives(lib, id, sentAt, p, encoding, w);
    } else {
      LegacyArrives(lib, p);
    }
    FinishPayload(lib, id, sentAt, tc, tk, w, Arrives(lib, p, encoding, id, sentAt));
  }

  /** Encoding what was decoded gives the same bytes. */
  lemma EncodeDecoded(lib: Library, id: string, sentAt: string, tc: TrafficClass, tk: TransportKind,
                      p: Payload, encoding: PayloadEncoding)
    requires lib.Lawful() && Encode(lib, id, sentAt, tc, tk, p, encoding).Ok?
    ensures Encode(lib, id, sentAt, tc, tk, Arrives(lib, p, encoding, id, sentAt), encoding)
         == Encode(lib, id, sentAt, tc, tk, p, encoding)
  {
    if FieldLevel(lib, p, encoding) {
      var ft, frame := p.frameType.value, lib.fromJson(p.json).value;
      TablesSound(ft);
      EncodeNormal(lib, Written(ft).value, BaseFrame(lib, ft, id, sentAt), frame);
    }
  }

  // ---------------------------------------------------------------------------
  // Unknown fields
  // ---------------------------------------------------------------------------

  predicate Known(number: nat) {
    number in {1, 2, 10, 11, 12, LEGACY_JSON_FIELD} || FrameTypeOf(number).Some?
  }

  lemma {:induction false} EnvelopeConcat(lib: Library, st: EnvelopeState, a: seq<Wire>, b: seq<Wire>)
    ensures EnvelopeFrom(lib, st, a + b)
         == var r := EnvelopeFrom(lib, st, a);
            if r.Ok? then EnvelopeFrom(lib, r.value, b) else Err
    decreases a
  {
    if a == [] {
      assert a + b == b;
    } else {
      assert (a + b)[0] == a[0] && (a + b)[1..] == a[1..] + b;
      var st' := ApplyEnvelope(lib, st, a[0]);
      if st'.Ok? {
        EnvelopeConcat(lib, st'.value, a[1..], b);
      }
    }
  }

  lemma {:induction false} EnvelopeUnknown(lib: Library, st: EnvelopeState, ws: seq<Wire>)
    requires forall w :: w in ws ==> !Known(w.number)
    ensures EnvelopeFrom(lib, st, ws) == Ok(st)
    decreases ws
  {
    if ws != [] {
      assert !Known(ws[0].number);
      EnvelopeUnknown(lib, st, ws[1..]);
    }
  }

  /** Unknown fields can be added at any field boundary of an envelope, well formed or not. */
  lemma UnknownEnvelopeFields(lib: Library, pre: Bytes, extra: Bytes, post: Bytes)
    requires Wires(pre).Ok? && Wires(extra).Ok?
    requires forall w :: w in Wires(extra).value ==> !Known(w.number)
    ensures Decode(lib, pre + extra + post) == Decode(lib, pre + post)
  {
    WiresConcat(pre, post);
    WiresConcat(pre, extra);
    WiresConcat(pre + extra, post);
    if Wires(post).Ok? {
      var a, x, b := Wires(pre).value, Wires(extra).value, Wires(post).value;
      EnvelopeConcat(lib, BLANK, a, b);
      EnvelopeConcat(lib, BLANK, a, x);
      EnvelopeConcat(lib, BLANK, a + x, b);
      var r := EnvelopeFrom(lib, BLANK, a);
      if r.Ok? {
        EnvelopeUnknown(lib, r.value, x);
      }
    }
  }

  lemma {:induction false} LegacyConcat(lib: Library, st: LegacyState, a: seq<Wire>, b: seq<Wire>)
    ensures LegacyFrom(lib, st, a + b)
         == var r := LegacyFrom(lib, st, a);
            if r.Ok? then LegacyFrom(lib, r.value, b) else Err
    decreases a
  {
    if a == [] {
      assert a + b == b;
    } else {
      assert (a + b)[0] == a[0] && (a + b)[1..] == a[1..] + b;
      var st' := ApplyLegacy(lib, st, a[0]);
      if st'.Ok? {
        LegacyConcat(lib, st'.value, a[1..], b);
      }
    }
  }

  lemma {:induction false} LegacyUnknown(lib: Library, st: LegacyState, ws: seq<Wire>)
    requires forall w :: w in ws ==> w.number !in {1, 2, 3}
    ensures LegacyFrom(lib, st, ws) == Ok(st)
    decreases ws
  {
    if ws != [] {
      LegacyUnknown(lib, st, ws[1..]);
    }
  }

  /** The same inside a legacy payload. */
  lemma UnknownLegacyFields(lib: Library, pre: Bytes, extra: Bytes, post: Bytes)
    requires Wires(pre).Ok? && Wires(extra).Ok?
    requires forall w :: w in Wires(extra).value ==> w.number !in {1, 2, 3}
    ensures DecodeLegacy(lib, pre + extra + post) == DecodeLegacy(lib, pre + post)
  {
    WiresConcat(pre, post);
    WiresConcat(pre, extra);
    WiresConcat(pre + extra, post);
    if Wires(post).Ok? {
      var a, x, b := Wires(pre).value, Wires(extra).value, Wires(post).value;
      var start := LegacyState(None, None, None);
      LegacyConcat(lib, start, a, b);
      LegacyConcat(lib, start, a, x);
      LegacyConcat(lib, start, a + x, b);
      var r := LegacyFrom(lib, start, a);
      if r.Ok? {
        LegacyUnknown(lib, r.value, x);
      }
    }
  }

  /** The same inside a typed payload, whichever way it is encoded. */
  lemma UnknownTypedFields(
      lib: Library, pre: Bytes, extra: Bytes, post: Bytes, frameType: string, id: string, sentAt: string)
    requires Wires(pre).Ok? && Wires(extra).Ok?
    requires forall w :: w in Wires(extra).value ==>
      w.number != FRAME_JSON_FIELD && (Read(frameType).Some? ==> Find(Read(frameType).value, w.number).None?)
    ensures DecodeTyped(lib, pre + extra + post, frameType, id, sentAt)
         == DecodeTyped(lib, pre + post, frameType, id, sentAt)
  {
    WiresConcat(pre, post);
    WiresConcat(pre, extra);
    WiresConcat(pre + extra, post);
    if Wires(post).Ok? {
      var a, x, b := Wires(pre).value, Wires(extra).value, Wires(post).value;
      SameFrameJson(a, x, b);
      if Read(frameType).Some? {
        UnknownFieldSkipped(lib, Read(frameType).value, BaseFrame(lib, frameType, id, sentAt), pre, extra, post);
      }
    }
  }

  lemma SameFrameJson(a: seq<Wire>, x: seq<Wire>, b: seq<Wire>)
    requires forall w :: w in x ==> w.number != FRAME_JSON_FIELD
    ensures HasFrameJson(a + x + b) <==> HasFrameJson(a + b)
    ensures LastFrameJson(None, a + x + b) == LastFrameJson(None, a + b)
  {
    HasFrameJsonConcat(a, b);
    HasFrameJsonConcat(a, x);
    HasFrameJsonConcat(a + x, b);
    assert a + x + b == a + (x + b);
    LastConcat(None, a, b);
    LastConcat(None, a, x + b);
    var r := LastFrameJson(None, a);
    if r.Ok? {
      LastConcat(r.value, x, b);
      LastUnknown(r.value, x);
    }
  }

  lemma HasFrameJsonConcat(a: seq<Wire>, b: seq<Wire>)
    ensures HasFrameJson(a + b) <==> HasFrameJson(a) || HasFrameJson(b)
  {
    if HasFrameJson(a) {
      var i :| 0 <= i < |a| && a[i].number == FRAME_JSON_FIELD;
      assert (a + b)[i].number == FRAME_JSON_FIELD;
    }
    if HasFrameJson(b) {
      var i :| 0 <= i < |b| && b[i].number == FRAME_JSON_FIELD;
      assert (a + b)[|a| + i].number == FRAME_JSON_FIELD;
    }
  }

  lemma {:induction false} LastConcat(json: Option<Bytes>, a: seq<Wire>, b: seq<Wire>)
    ensures LastFrameJson(json, a + b)
         == var r := LastFrameJson(json, a);
            if r.Ok? then LastFrameJson(r.value, b) else Err
    decreases a
  {
    if a == [] {
      assert a + b == b;
    } else {
      assert (a + b)[0] == a[0] && (a + b)[1..] == a[1..] + b;
      if a[0].number != FRAME_JSON_FIELD {
        LastConcat(json, a[1..], b);
      } else if a[0].Chunk? {
        LastConcat(Some(a[0].bytes), a[1..], b);
      }
    }
  }

  lemma {:induction false} LastUnknown(json: Option<Bytes>, ws: seq<Wire>)
    requires forall w :: w in ws ==> w.number != FRAME_JSON_FIELD
    ensures LastFrameJson(json, ws) == Ok(json)
    decreases ws
  {
    if ws != [] {
      LastUnknown(json, ws[1..]);
    }
  }

  // ---------------------------------------------------------------------------
  // The last one wins
  // ---------------------------------------------------------------------------

  /** The last field with a number. */
  function LastWire(ws: seq<Wire>, number: nat): (r: Option<Wire>)
    ensures r.Some? ==> r.value in ws && r.value.number == number
  {
    if ws == [] then None
    else if ws[|ws| - 1].number == number then Some(ws[|ws| - 1])
    else LastWire(ws[..|ws| - 1], number)
  }

  /** The last typed payload. */
  function LastTyped(ws: seq<Wire>): (r: Option<Wire>)
    ensures r.Some? ==> r.value in ws && FrameTypeOf(r.value.number).Some?
  {
    if ws == [] then None
    else if FrameTypeOf(ws[|ws| - 1].number).Some? then Some(ws[|ws| - 1])
    else LastTyped(ws[..|ws| - 1])
  }

  /** A field of an envelope that can be read: any unknown field, and known ones of the right kind. */
  predicate Readable(lib: Library, w: Wire) {
    && (w.number in {1, 11, 12} ==> w.Number?)
    && (w.number in {2, 10} ==> w.Chunk? && lib.fromUtf8(w.bytes).Ok?)
    && (w.number == 100 ==> w.Chunk? && DecodeLegacy(lib, w.bytes).Ok?)
    && (FrameTypeOf(w.number).Some? ==> w.Chunk?)
  }

  predicate AllReadable(lib: Library, ws: seq<Wire>) {
    forall w :: w in ws ==> Readable(lib, w)
  }

  lemma TypedNumbers(number: nat)
    requires FrameTypeOf(number).Some?
    ensures number > 100
  {
  }

  /** What the loop has after all fields, if it can read them. */
  function LastState(lib: Library, ws: seq<Wire>): EnvelopeState
    requires AllReadable(lib, ws)
  {
    var version, id, sentAt := LastWire(ws, 1), LastWire(ws, 2), LastWire(ws, 10);
    var tc, tk, legacy, typed := LastWire(ws, 11), LastWire(ws, 12), LastWire(ws, 100), LastTyped(ws);
    EnvelopeState(
      if version.Some? then Some(version.value.value % U32) else None,
      if id.Some? then Some(lib.fromUtf8(id.value.bytes).value) else None,
      if sentAt.Some? then Some(lib.fromUtf8(sentAt.value.bytes).value) else None,
      if tc.Some? then Some(TrafficClassOf(tc.value.value)) else None,
      if tk.Some? then Some(TransportKindOf(tk.value.value)) else None,
      if legacy.Some? then Some(DecodeLegacy(lib, legacy.value.bytes).value) else None,
      if typed.Some? then Some((FrameTypeOf(typed.value.number).value, typed.value.bytes)) else None)
  }

  lemma LastSnoc(ws: seq<Wire>, w: Wire, number: nat)
    ensures LastWire(ws + [w], number) == if w.number == number then Some(w) else LastWire(ws, number)
    ensures LastTyped(ws + [w]) == if FrameTypeOf(w.number).Some? then Some(w) else LastTyped(ws)
  {
    assert (ws + [w])[..|ws|] == ws;
  }

  lemma StateSnoc(lib: Library, ws: seq<Wire>, w: Wire)
    requires AllReadable(lib, ws) && Readable(lib, w)
    ensures AllReadable(lib, ws + [w])
    ensures ApplyEnvelope(lib, LastState(lib, ws), w) == Ok(LastState(lib, ws + [w]))
  {
    LastSnoc(ws, w, 1);
    LastSnoc(ws, w, 2);
    LastSnoc(ws, w, 10);
    LastSnoc(ws, w, 11);
    LastSnoc(ws, w, 12);
    LastSnoc(ws, w, 100);
    if FrameTypeOf(w.number).Some? {
      TypedNumbers(w.number);
    }
  }

  lemma UnreadableFails(lib: Library, st: EnvelopeState, w: Wire)
    ensures ApplyEnvelope(lib, st, w).Ok? <==> Readable(lib, w)
  {
    if FrameTypeOf(w.number).Some? {
      TypedNumbers(w.number);
    }
  }

  /** Each header field and each kind of payload has the value of its last occurrence. */
  lemma {:induction false} LoopKeepsLast(lib: Library, ws: seq<Wire>)
    ensures EnvelopeFrom(lib, BLANK, ws) == if AllReadable(lib, ws) then Ok(LastState(lib, ws)) else Err
  {
    if ws != [] {
      var before, w := ws[..|ws| - 1], ws[|ws| - 1];
      assert ws == before + [w];
      LoopKeepsLast(lib, before);
      EnvelopeConcat(lib, BLANK, before, [w]);
      if AllReadable(lib, before) {
        EnvelopeOne(lib, LastState(lib, before), w);
        UnreadableFails(lib, LastState(lib, before), w);
        if Readable(lib, w) {
          StateSnoc(lib, before, w);
        } else {
          assert w in ws;
        }
      } else {
        assert forall x :: x in before ==> x in ws;
      }
    }
  }

  /** The payload that an envelope's fields make: a legacy one if there is any, else the last typed one. */
  ghost predicate HasPayload(lib: Library, ws: seq<Wire>, id: string, sentAt: string, payload: Payload)
    requires AllReadable(lib, ws)
  {
    if LastWire(ws, 100).Some? then DecodeLegacy(lib, LastWire(ws, 100).value.bytes) == Ok(payload)
    else
      && LastTyped(ws).Some?
      && var w := LastTyped(ws).value;
         DecodeTyped(lib, w.bytes, FrameTypeOf(w.number).value, id, sentAt) == Ok(payload)
  }

  /**
   Decoding succeeds, and with which envelope, exactly as the last occurrences of the fields say: the
   version is 1, id, time, traffic class and a payload are there, and the transport may be missing.
   */
  lemma DecodesLast(lib: Library, bytes: Bytes, e: Envelope)
    ensures Decode(lib, bytes) == Ok(e) <==>
      && Wires(bytes).Ok? && AllReadable(lib, Wires(bytes).value)
      && var ws := Wires(bytes).value;
         && LastWire(ws, 1).Some? && LastWire(ws, 1).value.value % 0x1_0000_0000 == 1 == e.version
         && LastWire(ws, 2).Some? && lib.fromUtf8(LastWire(ws, 2).value.bytes) == Ok(e.messageId)
         && LastWire(ws, 10).Some? && lib.fromUtf8(LastWire(ws, 10).value.bytes) == Ok(e.sentAt)
         && LastWire(ws, 11).Some? && e.trafficClass == TrafficClassOf(LastWire(ws, 11).value.value)
         && e.transportKind == (if LastWire(ws, 12).Some? then Some(TransportKindOf(LastWire(ws, 12).value.value)) else None)
         && HasPayload(lib, ws, e.messageId, e.sentAt, e.payload)
  {
    if Wires(bytes).Ok? {
      LoopKeepsLast(lib, Wires(bytes).value);
    }
  }

  /** The codes of traffic classes and transports; an unknown code stands for the first of them. */
  lemma Codes(n: nat)
    ensures TrafficClassOf(n)
         == if n == 2 then Interactive else if n == 3 then ProxyActive else if n == 4 then Bulk
            else if n == 5 then Telemetry else Control
    ensures TransportKindOf(n) == if n == 2 then H2Grpc else if n == 3 then H2Data else if n == 4 then Quic else WebSocket
    ensures 1 <= n <= 5 ==> TrafficClassOf(n).Code() == n
    ensures 1 <= n <= 4 ==> TransportKindOf(n).Code() == n
  {
  }
}
