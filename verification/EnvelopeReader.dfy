/**
 The envelope encoder and decoder as the program runs them: writes onto a growing buffer, and
 loops over the cursor reader.  Each is proved to compute the function of BudEnvelope whose
 properties are proved there.
 */
module EnvelopeReader {
  import opened Wrappers
  import opened Collections
  import opened WireFormat
  import opened Json
  import opened FieldTables
  import opened FieldCodec
  import opened FieldWriter
  import opened BudEnvelope

  lemma WiresStep(s: Bytes)
    requires s != []
    ensures
      var read := ReadWire(s);
      if read.Err? then Wires(s).Err?
      else
        var tail := Wires(s[read.value.1..]);
        if tail.Err? then Wires(s).Err?
        else
          && Wires(s).Ok? && Wires(s).value != []
          && Wires(s).value[0] == read.value.0 && Wires(s).value[1..] == tail.value
  {
  }

  // ---------------------------------------------------------------------------
  // Legacy payloads
  // ---------------------------------------------------------------------------

  ghost function LegacyRest(lib: Library, st: LegacyState, s: Bytes): Result<LegacyState> {
    var ws :- Wires(s);
    LegacyFrom(lib, st, ws)
  }

  lemma LegacyStep(lib: Library, st: LegacyState, s: Bytes)
    requires s != []
    ensures LegacyRest(lib, st, s)
         == var read := ReadWire(s);
            if read.Err? then Err
            else
              var st' := ApplyLegacy(lib, st, read.value.0);
              if st'.Err? then Err else LegacyRest(lib, st'.value, s[read.value.1..])
  {
    WiresStep(s);
  }

  method ReadLegacy(lib: Library, bytes: Bytes) returns (r: Result<Payload>)
    ensures r == DecodeLegacy(lib, bytes)
  {
    var reader := new ProtoReader(bytes);
    var st := LegacyState(None, None, None);
    while !reader.Done()
      invariant reader.Valid() && reader.bytes == bytes
      invariant LegacyRest(lib, LegacyState(None, None, None), bytes) == LegacyRest(lib, st, reader.Rest())
      decreases |bytes| - reader.offset
    {
      ghost var rest := reader.Rest();
      LegacyStep(lib, st, rest);
      var tag :- reader.NextTag();
      TagThenBody(rest);
      if tag.0 == 1 {
        var b :- reader.BytesForWireType(tag.0, tag.1);
        st := st.(json := Some(b));
      } else if tag.0 == 2 {
        var b :- reader.BytesForWireType(tag.0, tag.1);
        var s :- lib.fromUtf8(b);
        st := st.(frameType := Some(s));
      } else if tag.0 == 3 {
        var b :- reader.BytesForWireType(tag.0, tag.1);
        var s :- lib.fromUtf8(b);
        st := st.(proto := Some(s));
      } else {
        var _ :- reader.Skip(tag.0, tag.1);
      }
      assert reader.Rest() == rest[ReadWire(rest).value.1..];
    }
    if st.json.None? {
      return Err;
    }
    return Ok(Payload(st.json.value, st.frameType, st.proto));
  }

  // ---------------------------------------------------------------------------
  // Typed payloads
  // ---------------------------------------------------------------------------

  /**
   What looking for a frame_json field finds: it stops at the tag of the first one, so bytes after
   that tag are not inspected, and fails if the payload breaks off before it.
   */
  ghost function SeekFrameJson(s: Bytes): Result<bool>
    decreases |s|
  {
    if s == [] then Ok(false)
    else if ReadVarint(s).Err? then Err
    else if ReadVarint(s).value.0 / 8 % U32 == FRAME_JSON_FIELD then Ok(true)
    else if ReadWire(s).Err? then Err
    else SeekFrameJson(s[ReadWire(s).value.1..])
  }

  /** In a well-formed payload that is whether it has such a field. */
  lemma {:induction false} SeekMeans(s: Bytes)
    requires Wires(s).Ok?
    ensures SeekFrameJson(s) == Ok(HasFrameJson(Wires(s).value))
    decreases |s|
  {
    if s != [] {
      WiresStep(s);
      TagThenBody(s);
      HeadHasFrameJson(Wires(s).value);
      SeekMeans(s[ReadWire(s).value.1..]);
    }
  }

  lemma {:induction false} SeekVouches(s: Bytes)
    requires SeekFrameJson(s) == Ok(false)
    ensures Wires(s).Ok?
    decreases |s|
  {
    if s != [] {
      WiresStep(s);
      SeekVouches(s[ReadWire(s).value.1..]);
    }
  }

  method ContainsFrameJson(bytes: Bytes) returns (r: Result<bool>)
    ensures r == SeekFrameJson(bytes)
  {
    var reader := new ProtoReader(bytes);
    while !reader.Done()
      invariant reader.Valid() && reader.bytes == bytes
      invariant SeekFrameJson(bytes) == SeekFrameJson(reader.Rest())
      decreases |bytes| - reader.offset
    {
      ghost var rest := reader.Rest();
      var tag :- reader.NextTag();
      TagThenBody(rest);
      if tag.0 == FRAME_JSON_FIELD {
        return Ok(true);
      }
      var _ :- reader.Skip(tag.0, tag.1);
      assert reader.Rest() == rest[ReadWire(rest).value.1..];
    }
    return Ok(false);
  }

  lemma HeadHasFrameJson(ws: seq<Wire>)
    requires ws != []
    ensures HasFrameJson(ws) <==> ws[0].number == FRAME_JSON_FIELD || HasFrameJson(ws[1..])
  {
    assert ws == [ws[0]] + ws[1..];
    HasFrameJsonConcat([ws[0]], ws[1..]);
    assert [ws[0]][0] == ws[0];
  }

  ghost function FrameJsonRest(json: Option<Bytes>, s: Bytes): Result<Option<Bytes>> {
    var ws :- Wires(s);
    LastFrameJson(json, ws)
  }

  method ReadFrameJson(bytes: Bytes) returns (r: Result<Option<Bytes>>)
    ensures r == FrameJsonRest(None, bytes)
  {
    var reader := new ProtoReader(bytes);
    var json: Option<Bytes> := None;
    while !reader.Done()
      invariant reader.Valid() && reader.bytes == bytes
      invariant FrameJsonRest(None, bytes) == FrameJsonRest(json, reader.Rest())
      decreases |bytes| - reader.offset
    {
      ghost var rest := reader.Rest();
      WiresStep(rest);
      var tag :- reader.NextTag();
      TagThenBody(rest);
      if tag.0 == FRAME_JSON_FIELD {
        var b :- reader.BytesForWireType(tag.0, tag.1);
        json := Some(b);
      } else {
        var _ :- reader.Skip(tag.0, tag.1);
      }
      assert reader.Rest() == rest[ReadWire(rest).value.1..];
    }
    return Ok(json);
  }

  method ReadTyped(lib: Library, bytes: Bytes, frameType: string, id: string, sentAt: string)
    returns (r: Result<Payload>)
    ensures r == DecodeTyped(lib, bytes, frameType, id, sentAt)
  {
    if Read(frameType).Some? {
      if Wires(bytes).Ok? {
        SeekMeans(bytes);
      } else if SeekFrameJson(bytes) == Ok(false) {
        SeekVouches(bytes);
      }
      var contains :- ContainsFrameJson(bytes);
      if !contains {
        var m :- ReadMessage(lib, Read(frameType).value, BaseFrame(lib, frameType, id, sentAt), bytes);
        return Ok(Payload(lib.toJson(Object(m)), Some(frameType), Some(ProtoFor(frameType))));
      }
    }
    var json :- ReadFrameJson(bytes);
    if json.None? {
      return Err;
    }
    return Ok(Payload(json.value, Some(frameType), Some(ProtoFor(frameType))));
  }

  // ---------------------------------------------------------------------------
  // Envelopes
  // ---------------------------------------------------------------------------

  lemma EnvelopeStep(lib: Library, st: EnvelopeState, s: Bytes)
    requires s != []
    ensures DecodeFrom(lib, st, s)
         == var read := ReadWire(s);
            if read.Err? then Err
            else
              var st' := ApplyEnvelope(lib, st, read.value.0);
              if st'.Err? then Err else DecodeFrom(lib, st'.value, s[read.value.1..])
  {
    WiresStep(s);
  }

  /** One turn of the decoding loop: the body of the field whose tag has been read. */
  method ReadEnvelopeField(lib: Library, st: EnvelopeState, reader: ProtoReader, number: nat, wireType: nat)
    returns (r: Result<EnvelopeState>)
    requires reader.Valid()
    modifies reader
    ensures
      var read := ReadBody(number, wireType, old(reader.Rest()));
      if read.Err? then r.Err?
      else
        && r == ApplyEnvelope(lib, st, read.value.0)
        && (r.Ok? ==> reader.Valid() && reader.Rest() == old(reader.Rest())[read.value.1..]
                      && old(reader.offset) <= reader.offset)
  {
    if number == 1 {
      var n :- reader.VarintForWireType(number, wireType);
      return Ok(st.(version := Some(n % U32)));
    } else if number == 2 {
      var b :- reader.BytesForWireType(number, wireType);
      var s :- lib.fromUtf8(b);
      return Ok(st.(id := Some(s)));
    } else if number == 10 {
      var b :- reader.BytesForWireType(number, wireType);
      var s :- lib.fromUtf8(b);
      return Ok(st.(sentAt := Some(s)));
    } else if number == 11 {
      var n :- reader.VarintForWireType(number, wireType);
      return Ok(st.(tc := Some(TrafficClassOf(n))));
    } else if number == 12 {
      var n :- reader.VarintForWireType(number, wireType);
      return Ok(st.(tk := Some(TransportKindOf(n))));
    } else if number == LEGACY_JSON_FIELD {
      var b :- reader.BytesForWireType(number, wireType);
      var p :- ReadLegacy(lib, b);
      return Ok(st.(payload := Some(p)));
    } else if FrameTypeOf(number).Some? {
      var b :- reader.BytesForWireType(number, wireType);
      return Ok(st.(typed := Some((FrameTypeOf(number).value, b))));
    } else {
      var _ :- reader.Skip(number, wireType);
      return Ok(st);
    }
  }

  /** The decoder; its loop ends because each turn moves the cursor forward inside the buffer. */
  method ReadEnvelope(lib: Library, bytes: Bytes) returns (r: Result<Envelope>)
    ensures r == Decode(lib, bytes)
  {
    var reader := new ProtoReader(bytes);
    var st := BLANK;
    while !reader.Done()
      invariant reader.Valid() && reader.bytes == bytes && fresh(reader)
      invariant DecodeFrom(lib, BLANK, bytes) == DecodeFrom(lib, st, reader.Rest())
      decreases |bytes| - reader.offset
    {
      ghost var rest := reader.Rest();
      EnvelopeStep(lib, st, rest);
      var tag :- reader.NextTag();
      TagThenBody(rest);
      st :- ReadEnvelopeField(lib, st, reader, tag.0, tag.1);
      assert reader.Rest() == rest[ReadWire(rest).value.1..];
    }
    r := FinishEnvelope(lib, st);
  }

  method FinishEnvelope(lib: Library, st: EnvelopeState) returns (r: Result<Envelope>)
    ensures r == Finish(lib, st)
  {
    if st.version != Some(ENVELOPE_VERSION) || st.id.None? || st.sentAt.None? {
      return Err;
    }
    var payload;
    if st.payload.Some? {
      payload := st.payload.value;
    } else if st.typed.Some? {
      payload :- ReadTyped(lib, st.typed.value.1, st.typed.value.0, st.id.value, st.sentAt.value);
    } else {
      return Err;
    }
    if st.tc.None? {
      return Err;
    }
    return Ok(Envelope(ENVELOPE_VERSION, st.id.value, st.sentAt.value, st.tc.value, st.tk, payload));
  }

  lemma PrintSnoc(ws: seq<Wire>, w: Wire)
    ensures Print(ws + [w]) == Print(ws) + w.Printed()
  {
    assert [w][1..] == [] && Print([w]) == w.Printed() + Print([]);
    assert Print([w]) == w.Printed();
    PrintConcat(ws, [w]);
  }

  method WriteHeader(lib: Library, out: Buffer, id: string, sentAt: string, tc: TrafficClass, tk: TransportKind)
    requires out.data == []
    modifies out
    ensures out.data == Print(HeaderWires(lib, id, sentAt, tc, tk))
  {
    ghost var ws := HeaderWires(lib, id, sentAt, tc, tk);
    assert ws[..1] == [] + [ws[0]] && ws[..2] == ws[..1] + [ws[1]] && ws[..3] == ws[..2] + [ws[2]];
    assert ws[..4] == ws[..3] + [ws[3]] && ws == ws[..4] + [ws[4]];
    PrintSnoc([], ws[0]);
    PrintSnoc(ws[..1], ws[1]);
    PrintSnoc(ws[..2], ws[2]);
    PrintSnoc(ws[..3], ws[3]);
    PrintSnoc(ws[..4], ws[4]);
    out.WriteVarintField(1, ENVELOPE_VERSION);
    out.WriteBytes(2, lib.utf8(id));
    out.WriteBytes(10, lib.utf8(sentAt));
    out.WriteVarintField(11, tc.Code());
    out.WriteVarintField(12, tk.Code());
  }

  method WriteLegacy(lib: Library, p: Payload) returns (bytes: Bytes)
    ensures bytes == Print(LegacyWires(lib, p))
  {
    var payload := new Buffer();
    ghost var ws: seq<Wire> := [Chunk(1, p.json)];
    PrintSnoc([], Chunk(1, p.json));
    assert [] + [Chunk(1, p.json)] == ws;
    payload.WriteBytes(1, p.json);
    assert payload.data == Print(ws);
    if p.frameType.Some? {
      PrintSnoc(ws, Chunk(2, lib.utf8(p.frameType.value)));
      payload.WriteBytes(2, lib.utf8(p.frameType.value));
      ws := ws + [Chunk(2, lib.utf8(p.frameType.value))];
    }
    if p.proto.Some? {
      PrintSnoc(ws, Chunk(3, lib.utf8(p.proto.value)));
      payload.WriteBytes(3, lib.utf8(p.proto.value));
      ws := ws + [Chunk(3, lib.utf8(p.proto.value))];
    }
    assert ws == LegacyWires(lib, p);
    return payload.data;
  }

  /** The bytes under a typed payload field: field by field where that is known, or one JSON field. */
  method WriteTyped(lib: Library, frameType: string, json: Bytes, encoding: PayloadEncoding) returns (r: Result<Bytes>)
    ensures r == TypedPayload(lib, frameType, json, encoding)
  {
    if encoding == TypedFieldLevelWhenKnown && lib.fromJson(json).Ok? && Written(frameType).Some? {
      r := WriteMessage(lib, Written(frameType).value, lib.fromJson(json).value);
      return;
    }
    var payload := new Buffer();
    payload.WriteBytes(FRAME_JSON_FIELD, json);
    PrintedOne(Chunk(FRAME_JSON_FIELD, json));
    assert [] + Chunk(FRAME_JSON_FIELD, json).Printed() == Chunk(FRAME_JSON_FIELD, json).Printed();
    return Ok(payload.data);
  }

  /** The field number and the bytes of the payload. */
  method WritePayload(lib: Library, p: Payload, encoding: PayloadEncoding) returns (r: Result<(nat, Bytes)>)
    ensures PayloadWire(lib, p, encoding) == if r.Ok? then Ok(Chunk(r.value.0, r.value.1)) else Err
  {
    if encoding != LegacyJson && p.frameType.Some? && PayloadField(p.frameType.value).Some? {
      var payload :- WriteTyped(lib, p.frameType.value, p.json, encoding);
      return Ok((PayloadField(p.frameType.value).value, payload));
    }
    var payload := WriteLegacy(lib, p);
    return Ok((LEGACY_JSON_FIELD, payload));
  }

  /** The encoder. */
  method WriteEnvelope(lib: Library, id: string, sentAt: string, tc: TrafficClass, tk: TransportKind,
                       p: Payload, encoding: PayloadEncoding) returns (r: Result<Bytes>)
    ensures r == Encode(lib, id, sentAt, tc, tk, p, encoding)
  {
    var out := new Buffer();
    WriteHeader(lib, out, id, sentAt, tc, tk);
    var payload :- WritePayload(lib, p, encoding);
    PrintSnoc(HeaderWires(lib, id, sentAt, tc, tk), Chunk(payload.0, payload.1));
    out.WriteBytes(payload.0, payload.1);
    return Ok(out.data);
  }
}
