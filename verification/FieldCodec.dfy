/**
 The field-level codec of bud/src/proto_wire.rs: JSON members to protobuf fields and back, for
 any sound field table.

 A frame does not survive field-level encoding unchanged: `Normal` says exactly what is kept.
 `FieldsRoundTrip` proves that decoding an encoded message gives its normal form, and
 `EncodeNormal` that encoding the normal form gives the same fields again.
 */
module FieldCodec {
  import opened Wrappers
  import opened Collections
  import opened Lexicographic
  import opened WireFormat
  import opened Json
  import opened FieldSchema

  type Members = map<string, Value>

  // ---------------------------------------------------------------------------
  // Encoding
  // ---------------------------------------------------------------------------

  function TextWires(lib: Library, number: nat, texts: seq<string>): seq<Wire> {
    if texts == [] then [] else [Chunk(number, lib.utf8(texts[0]))] + TextWires(lib, number, texts[1..])
  }

  function EntryWires(lib: Library, key: string, text: string): seq<Wire> {
    [Chunk(1, lib.utf8(key)), Chunk(2, lib.utf8(text))]
  }

  function MapWires(lib: Library, number: nat, m: Members, keys: seq<string>): seq<Wire>
    requires forall k :: k in keys ==> k in m
  {
    if keys == [] then []
    else [Chunk(number, Print(EntryWires(lib, keys[0], lib.TextOf(m[keys[0]]))))]
         + MapWires(lib, number, m, keys[1..])
  }

  function EncodeField(lib: Library, f: Field, v: Value): Result<seq<Wire>>
    decreases f, 1
  {
    match f.codec
    case Text =>
      var s := v.GetString(f.key);
      Ok(if s.Some? && s.value != "" then [Chunk(f.number, lib.utf8(s.value))] else [])
    case Flag =>
      var b := v.GetBool(f.key);
      Ok(if b.Some? then [Number(f.number, if b.value then 1 else 0)] else [])
    case UInt32 =>
      var n := v.GetU64(f.key);
      Ok(if n.Some? && n.value < U32 then [Number(f.number, n.value)] else [])
    case UInt64 =>
      var n := v.GetU64(f.key);
      Ok(if n.Some? then [Number(f.number, n.value)] else [])
    case SInt32 => Ok([])
    case Enum(kind) =>
      var s := v.GetString(f.key);
      var n := EnumNumber(kind, if s.Some? then s.value else "");
      Ok(if n > 0 then [Number(f.number, n)] else [])
    case Base64Bytes =>
      var s := v.GetString(f.key);
      if s.None? then Ok([])
      else
        var bytes :- lib.fromBase64(s.value);
        Ok([Chunk(f.number, bytes)])
    case JsonBytes =>
      var x := v.Get(f.key);
      Ok(if x.Some? && !x.value.Null? then [Chunk(f.number, lib.toJson(x.value))] else [])
    case StringMap =>
      var x := v.Get(f.key);
      Ok(if x.Some? && x.value.Object? then
           MapWires(lib, f.number, x.value.members, SortedKeys(x.value.members.Keys))
         else [])
    case Texts => Ok(TextWires(lib, f.number, Strings(v.GetItems(f.key))))
    case Message(fields) =>
      var x := v.Get(f.key);
      if x.Some? && x.value.Object? then
        var ws :- EncodeFields(lib, fields, x.value);
        Ok([Chunk(f.number, Print(ws))])
      else Ok([])
    case Messages(fields) => EncodeMessages(lib, f.number, fields, v.GetItems(f.key))
  }

  function EncodeMessages(lib: Library, number: nat, fields: seq<Field>, items: seq<Value>): Result<seq<Wire>>
    decreases fields, 1, items
  {
    if items == [] then Ok([])
    else
      var ws :- EncodeFields(lib, fields, items[0]);
      var rest :- EncodeMessages(lib, number, fields, items[1..]);
      Ok([Chunk(number, Print(ws))] + rest)
  }

  /** The fields of a message, in table order. */
  function EncodeFields(lib: Library, fields: seq<Field>, v: Value): Result<seq<Wire>>
    decreases fields, 0
  {
    if fields == [] then Ok([])
    else
      var head :- EncodeField(lib, fields[0], v);
      var tail :- EncodeFields(lib, fields[1..], v);
      Ok(head + tail)
  }

  // ---------------------------------------------------------------------------
  // Decoding
  // ---------------------------------------------------------------------------

  function Find(fields: seq<Field>, number: nat): (r: Option<Field>)
    ensures r.Some? ==> r.value in fields && r.value.number == number
    ensures r.None? ==> forall f :: f in fields ==> f.number != number
  {
    if fields == [] then None
    else if fields[0].number == number then Some(fields[0])
    else Find(fields[1..], number)
  }

  function Push(m: Members, key: string, v: Value): Members {
    if key in m && m[key].Array? then m[key := Array(m[key].items + [v])] else m[key := Array([v])]
  }

  datatype EntryState = EntryState(key: Option<string>, text: Option<string>)

  function ApplyEntry(lib: Library, st: EntryState, w: Wire): Result<EntryState> {
    if w.number == 1 then
      if !w.Chunk? then Err else
      var s :- lib.fromUtf8(w.bytes);
      Ok(st.(key := Some(s)))
    else if w.number == 2 then
      if !w.Chunk? then Err else
      var s :- lib.fromUtf8(w.bytes);
      Ok(st.(text := Some(s)))
    else Ok(st)
  }

  function DecodeEntry(lib: Library, st: EntryState, ws: seq<Wire>): Result<EntryState>
    decreases ws
  {
    if ws == [] then Ok(st)
    else
      var st' :- ApplyEntry(lib, st, ws[0]);
      DecodeEntry(lib, st', ws[1..])
  }

  /** An entry without a key is dropped, one without a value maps to the empty string. */
  function MergeEntry(m: Members, key: string, e: EntryState): Members {
    if e.key.None? then m
    else
      var entries := if key in m && m[key].Object? then m[key].members else map[];
      m[key := Object(entries[e.key.value := Str(if e.text.Some? then e.text.value else "")])]
  }

  function LowSigned32(n: nat): int {
    var low := n % U32;
    if low < 0x8000_0000 then low else low - U32
  }

  function ApplyField(lib: Library, f: Field, m: Members, w: Wire): Result<Members>
    decreases f, 0
  {
    match f.codec
    case Text =>
      if !w.Chunk? then Err else
      var s :- lib.fromUtf8(w.bytes);
      Ok(m[f.key := Str(s)])
    case Flag => if !w.Number? then Err else Ok(m[f.key := Bool(w.value != 0)])
    case UInt32 => if !w.Number? then Err else Ok(m[f.key := Int(w.value)])
    case UInt64 => if !w.Number? then Err else Ok(m[f.key := Int(w.value)])
    case SInt32 => if !w.Number? then Err else Ok(m[f.key := Int(LowSigned32(w.value))])
    case Enum(kind) => if !w.Number? then Err else Ok(m[f.key := Str(EnumName(kind, w.value))])
    case Base64Bytes => if !w.Chunk? then Err else Ok(m[f.key := Str(lib.base64(w.bytes))])
    case JsonBytes =>
      if !w.Chunk? then Err else
      var x :- lib.fromJson(w.bytes);
      Ok(m[f.key := x])
    case StringMap =>
      if !w.Chunk? then Err else
      var ws :- Wires(w.bytes);
      var e :- DecodeEntry(lib, EntryState(None, None), ws);
      Ok(MergeEntry(m, f.key, e))
    case Texts =>
      if !w.Chunk? then Err else
      var s :- lib.fromUtf8(w.bytes);
      Ok(Push(m, f.key, Str(s)))
    case Message(fields) =>
      if !w.Chunk? then Err else
      var sub :- DecodeBytes(lib, fields, map[], w.bytes);
      Ok(m[f.key := Object(sub)])
    case Messages(fields) =>
      if !w.Chunk? then Err else
      var sub :- DecodeBytes(lib, fields, map[], w.bytes);
      Ok(Push(m, f.key, Object(sub)))
  }

  /** One turn of a decoding loop: a field with a number outside the table is skipped. */
  function ApplyWire(lib: Library, fields: seq<Field>, m: Members, w: Wire): Result<Members>
    decreases fields, 0
  {
    var f := Find(fields, w.number);
    if f.None? then Ok(m) else ApplyField(lib, f.value, m, w)
  }

  function DecodeWires(lib: Library, fields: seq<Field>, m: Members, ws: seq<Wire>): Result<Members>
    decreases fields, 1, ws
  {
    if ws == [] then Ok(m)
    else
      var m' :- ApplyWire(lib, fields, m, ws[0]);
      DecodeWires(lib, fields, m', ws[1..])
  }

  function DecodeBytes(lib: Library, fields: seq<Field>, m: Members, bytes: Bytes): Result<Members>
    decreases fields, 2
  {
    var ws :- Wires(bytes);
    DecodeWires(lib, fields, m, ws)
  }

  lemma {:induction false} DecodeConcat(lib: Library, fields: seq<Field>, m: Members, a: seq<Wire>, b: seq<Wire>)
    ensures DecodeWires(lib, fields, m, a + b)
         == var r := DecodeWires(lib, fields, m, a);
            if r.Ok? then DecodeWires(lib, fields, r.value, b) else Err
    decreases a
  {
    if a == [] {
      assert a + b == b;
    } else {
      assert (a + b)[0] == a[0] && (a + b)[1..] == a[1..] + b;
      var m' := ApplyWire(lib, fields, m, a[0]);
      if m'.Ok? {
        DecodeConcat(lib, fields, m'.value, a[1..], b);
      }
    }
  }

  // ---------------------------------------------------------------------------
  // The decoding loops over the cursor reader
  // ---------------------------------------------------------------------------

  method ReadEntry(lib: Library, bytes: Bytes) returns (r: Result<EntryState>)
    ensures r == if Wires(bytes).Ok? then DecodeEntry(lib, EntryState(None, None), Wires(bytes).value) else Err
  {
    var reader := new ProtoReader(bytes);
    var st := EntryState(None, None);
    while !reader.Done()
      invariant reader.Valid() && reader.bytes == bytes
      invariant EntryFrom(lib, EntryState(None, None), bytes) == EntryFrom(lib, st, reader.Rest())
      decreases |bytes| - reader.offset
    {
      ghost var rest := reader.Rest();
      EntryStep(lib, st, rest);
      var tag :- reader.NextTag();
      TagThenBody(rest);
      if tag.0 == 1 {
        var b :- reader.BytesForWireType(tag.0, tag.1);
        var s :- lib.fromUtf8(b);
        st := st.(key := Some(s));
      } else if tag.0 == 2 {
        var b :- reader.BytesForWireType(tag.0, tag.1);
        var s :- lib.fromUtf8(b);
        st := st.(text := Some(s));
      } else {
        var _ :- reader.Skip(tag.0, tag.1);
      }
      assert reader.Rest() == rest[ReadWire(rest).value.1..];
    }
    return Ok(st);
  }

  ghost function EntryFrom(lib: Library, st: EntryState, s: Bytes): Result<EntryState> {
    var ws :- Wires(s);
    DecodeEntry(lib, st, ws)
  }

  lemma EntryStep(lib: Library, st: EntryState, s: Bytes)
    requires s != []
    ensures EntryFrom(lib, st, s)
         == var read := ReadWire(s);
            if read.Err? then Err
            else
              var st' := ApplyEntry(lib, st, read.value.0);
              if st'.Err? then Err else EntryFrom(lib, st'.value, s[read.value.1..])
  {
    var read := ReadWire(s);
    if read.Ok? {
      var tail := Wires(s[read.value.1..]);
      if tail.Ok? {
        var ws := [read.value.0] + tail.value;
        assert Wires(s) == Ok(ws) && ws[0] == read.value.0 && ws[1..] == tail.value;
      }
    }
  }

  predicate VarintCodec(codec: Codec) {
    codec.Flag? || codec.UInt32? || codec.UInt64? || codec.SInt32? || codec.Enum?
  }

  /** Reads the body of a field that holds one number. */
  method ReadVarintField(lib: Library, f: Field, m: Members, reader: ProtoReader, wireType: nat)
    returns (r: Result<Members>)
    requires VarintCodec(f.codec)
    requires reader.Valid()
    modifies reader
    ensures
      var read := ReadBody(f.number, wireType, old(reader.Rest()));
      if read.Err? then r.Err?
      else
        && r == ApplyField(lib, f, m, read.value.0)
        && (r.Ok? ==> reader.Valid() && reader.Rest() == old(reader.Rest())[read.value.1..]
                      && old(reader.offset) < reader.offset)
  {
    var n :- reader.VarintForWireType(f.number, wireType);
    var v :=
      match f.codec
      case Flag => Bool(n != 0)
      case SInt32 => Int(LowSigned32(n))
      case Enum(kind) => Str(EnumName(kind, n))
      case _ => Int(n);
    return Ok(m[f.key := v]);
  }

  /** Reads the body of one listed field, its tag already consumed. */
  method ReadField(lib: Library, f: Field, m: Members, reader: ProtoReader, wireType: nat)
    returns (r: Result<Members>)
    requires reader.Valid()
    modifies reader
    ensures
      var read := ReadBody(f.number, wireType, old(reader.Rest()));
      if read.Err? then r.Err?
      else
        && r == ApplyField(lib, f, m, read.value.0)
        && (r.Ok? ==> reader.Valid() && reader.Rest() == old(reader.Rest())[read.value.1..]
                      && old(reader.offset) < reader.offset)
    decreases f, 1
  {
    if VarintCodec(f.codec) {
      r := ReadVarintField(lib, f, m, reader, wireType);
      return;
    }
    var b :- reader.BytesForWireType(f.number, wireType);
    r := ReadBytesField(lib, f, m, b);
  }

  /** Interprets the bytes of a length-delimited field. */
  method ReadBytesField(lib: Library, f: Field, m: Members, b: Bytes) returns (r: Result<Members>)
    requires !VarintCodec(f.codec)
    ensures r == ApplyField(lib, f, m, Chunk(f.number, b))
    decreases f, 0
  {
    match f.codec
    case Text =>
      var s :- lib.fromUtf8(b);
      return Ok(m[f.key := Str(s)]);
    case Base64Bytes =>
      return Ok(m[f.key := Str(lib.base64(b))]);
    case JsonBytes =>
      var x :- lib.fromJson(b);
      return Ok(m[f.key := x]);
    case StringMap =>
      var e :- ReadEntry(lib, b);
      return Ok(MergeEntry(m, f.key, e));
    case Texts =>
      var s :- lib.fromUtf8(b);
      return Ok(Push(m, f.key, Str(s)));
    case Message(fields) =>
      var sub :- ReadMessage(lib, fields, map[], b);
      return Ok(m[f.key := Object(sub)]);
    case Messages(fields) =>
      var sub :- ReadMessage(lib, fields, map[], b);
      return Ok(Push(m, f.key, Object(sub)));
  }

  /** One turn of the decoding loop: a tag, and the field it announces. */
  method ReadTurn(lib: Library, fields: seq<Field>, m: Members, reader: ProtoReader) returns (r: Result<Members>)
    requires reader.Valid() && reader.Rest() != []
    modifies reader
    ensures r.Err? ==> DecodeBytes(lib, fields, m, old(reader.Rest())) == Err
    ensures r.Ok? ==>
      && reader.Valid() && old(reader.offset) < reader.offset
      && DecodeBytes(lib, fields, m, old(reader.Rest())) == DecodeBytes(lib, fields, r.value, reader.Rest())
    decreases fields, 0
  {
    ghost var rest := reader.Rest();
    DecodeStep(lib, fields, m, rest);
    var tag :- reader.NextTag();
    TagThenBody(rest);
    var f := Find(fields, tag.0);
    r := Ok(m);
    if f.Some? {
      r := ReadField(lib, f.value, m, reader, tag.1);
    } else {
      var _ :- reader.Skip(tag.0, tag.1);
    }
    assert r.Ok? ==> reader.Rest() == rest[ReadWire(rest).value.1..];
  }

  /** The decoding loop of a message: what it returns is the fold over the message's fields. */
  method ReadMessage(lib: Library, fields: seq<Field>, base: Members, bytes: Bytes) returns (r: Result<Members>)
    ensures r == DecodeBytes(lib, fields, base, bytes)
    decreases fields, 1
  {
    var reader := new ProtoReader(bytes);
    var m := base;
    while !reader.Done()
      invariant reader.Valid() && reader.bytes == bytes && fresh(reader)
      invariant DecodeBytes(lib, fields, base, bytes) == DecodeBytes(lib, fields, m, reader.Rest())
      decreases |bytes| - reader.offset
    {
      m :- ReadTurn(lib, fields, m, reader);
    }
    return Ok(m);
  }

  /** One field of a message decoded, the rest still to be read. */
  lemma DecodeStep(lib: Library, fields: seq<Field>, m: Members, s: Bytes)
    requires s != []
    ensures DecodeBytes(lib, fields, m, s)
         == var read := ReadWire(s);
            if read.Err? then Err
            else
              var m' := ApplyWire(lib, fields, m, read.value.0);
              if m'.Err? then Err else DecodeBytes(lib, fields, m'.value, s[read.value.1..])
  {
    var read := ReadWire(s);
    if read.Ok? {
      var tail := Wires(s[read.value.1..]);
      if tail.Ok? {
        var ws := [read.value.0] + tail.value;
        assert Wires(s) == Ok(ws) && ws[0] == read.value.0 && ws[1..] == tail.value;
      }
    }
  }

  // ---------------------------------------------------------------------------
  // The normal form
  // ---------------------------------------------------------------------------

  function Put(m: Members, key: string, v: Option<Value>): Members {
    if v.None? then m else m[key := v.value]
  }

  function TextItems(texts: seq<string>): seq<Value> {
    if texts == [] then [] else [Str(texts[0])] + TextItems(texts[1..])
  }

  function TextMembers(lib: Library, m: Members): Members {
    map k | k in m :: Str(lib.TextOf(m[k]))
  }

  /** What a member of `v` becomes when it is encoded and decoded; nothing when it is dropped. */
  function NormalField(lib: Library, f: Field, v: Value): Option<Value>
    decreases f, 1
  {
    match f.codec
    case Text =>
      var s := v.GetString(f.key);
      if s.Some? && s.value != "" then Some(Str(s.value)) else None
    case Flag =>
      var b := v.GetBool(f.key);
      if b.Some? then Some(Bool(b.value)) else None
    case UInt32 =>
      var n := v.GetU64(f.key);
      if n.Some? && n.value < U32 then Some(Int(n.value)) else None
    case UInt64 =>
      var n := v.GetU64(f.key);
      if n.Some? then Some(Int(n.value)) else None
    case SInt32 => None
    case Enum(kind) =>
      var s := v.GetString(f.key);
      if s.Some? && EnumNumber(kind, s.value) > 0 then Some(Str(s.value)) else None
    case Base64Bytes =>
      var s := v.GetString(f.key);
      if s.Some? then Some(Str(s.value)) else None
    case JsonBytes =>
      var x := v.Get(f.key);
      if x.Some? && !x.value.Null? then x else None
    case StringMap =>
      var x := v.Get(f.key);
      if x.Some? && x.value.Object? && x.value.members != map[] then
        Some(Object(TextMembers(lib, x.value.members)))
      else None
    case Texts =>
      var texts := Strings(v.GetItems(f.key));
      if texts == [] then None else Some(Array(TextItems(texts)))
    case Message(fields) =>
      var x := v.Get(f.key);
      if x.Some? && x.value.Object? then Some(Object(NormalFields(lib, fields, x.value))) else None
    case Messages(fields) =>
      var items := v.GetItems(f.key);
      if items == [] then None else Some(Array(NormalItems(lib, fields, items)))
  }

  function NormalItems(lib: Library, fields: seq<Field>, items: seq<Value>): seq<Value>
    decreases fields, 1, items
  {
    if items == [] then []
    else [Object(NormalFields(lib, fields, items[0]))] + NormalItems(lib, fields, items[1..])
  }

  /** The members of `v` that survive, in normal form. */
  function NormalFields(lib: Library, fields: seq<Field>, v: Value): (m: Members)
    ensures forall k :: k in m ==> exists i :: 0 <= i < |fields| && fields[i].key == k
    decreases fields, 0
  {
    if fields == [] then map[]
    else
      var tail := NormalFields(lib, fields[1..], v);
      assert forall k :: k in tail ==> exists i :: 0 <= i < |fields| && fields[i].key == k by {
        forall k | k in tail ensures exists i :: 0 <= i < |fields| && fields[i].key == k {
          var i :| 0 <= i < |fields[1..]| && fields[1..][i].key == k;
          assert fields[i + 1].key == k;
        }
      }
      Put(tail, fields[0].key, NormalField(lib, fields[0], v))
  }

  // ---------------------------------------------------------------------------
  // What survives, member by member
  // ---------------------------------------------------------------------------

  /** The values of a scalar member that survive: they do so unchanged. */
  predicate Survives(codec: Codec, x: Value) {
    match codec
    case Text => x.Str? && x.text != ""
    case Flag => x.Bool?
    case UInt32 => x.Int? && 0 <= x.n < 0x1_0000_0000
    case UInt64 => x.Int? && 0 <= x.n < 0x1_0000_0000_0000_0000
    case Enum(kind) => x.Str? && EnumNumber(kind, x.text) > 0
    case Base64Bytes => x.Str?
    case JsonBytes => !x.Null?
    case _ => false
  }

  /** A scalar member survives unchanged or is dropped, and which of the two its value decides. */
  lemma ScalarSurvives(lib: Library, f: Field, m: Members)
    requires !f.codec.StringMap? && !f.codec.Texts? && !f.codec.Message? && !f.codec.Messages?
    ensures NormalField(lib, f, Object(m))
         == if f.key in m && Survives(f.codec, m[f.key]) then Some(m[f.key]) else None
  {
  }

  lemma {:induction false} TextsSurvive(items: seq<Value>)
    requires forall i :: 0 <= i < |items| ==> items[i].Str?
    ensures TextItems(Strings(items)) == items
  {
    if items != [] {
      assert items[0].Str?;
      TextsSurvive(items[1..]);
      assert items == [items[0]] + items[1..];
    }
  }

  /** A member that is not a string is left out of a list of strings, wherever it stands. */
  lemma {:induction false} OthersDropped(a: seq<Value>, x: Value, b: seq<Value>)
    requires !x.Str?
    ensures Strings(a + [x] + b) == Strings(a + b)
  {
    if a == [] {
      assert (a + [x] + b)[1..] == b && a + b == b;
    } else {
      assert (a + [x] + b)[0] == a[0] == (a + b)[0];
      assert (a + [x] + b)[1..] == a[1..] + [x] + b && (a + b)[1..] == a[1..] + b;
      OthersDropped(a[1..], x, b);
    }
  }

  /** A list of strings survives as the strings in it, unless there are none. */
  lemma ListSurvives(lib: Library, f: Field, m: Members)
    requires f.codec == Texts
    ensures NormalField(lib, f, Object(m))
         == if f.key in m && m[f.key].Array? && Strings(m[f.key].items) != []
            then Some(Array(TextItems(Strings(m[f.key].items)))) else None
  {
  }

  /** A map survives with its values as texts, unless it is empty. */
  lemma MapSurvives(lib: Library, f: Field, m: Members)
    requires f.codec == StringMap && f.key in m && m[f.key].Object? && m[f.key].members != map[]
    ensures NormalField(lib, f, Object(m)).Some? && NormalField(lib, f, Object(m)).value.Object?
    ensures NormalField(lib, f, Object(m)).value.members.Keys == m[f.key].members.Keys
    ensures forall k :: k in m[f.key].members && m[f.key].members[k].Str? ==>
      NormalField(lib, f, Object(m)).value.members[k] == m[f.key].members[k]
    ensures forall k :: k in m[f.key].members && !m[f.key].members[k].Str? ==>
      NormalField(lib, f, Object(m)).value.members[k] == Str(lib.display(m[f.key].members[k]))
  {
  }

  /** Signed numbers arrive sign-extended to 64 bits. */
  lemma SignExtended(v: int)
    requires -0x8000_0000 <= v < 0x8000_0000
    ensures LowSigned32(if v < 0 then 0x1_0000_0000_0000_0000 + v else v) == v
  {
  }

  /** An entry without a key is dropped, and one without a value has the empty string. */
  lemma PartialEntries(m: Members, key: string, k: string)
    ensures forall text :: MergeEntry(m, key, EntryState(None, text)) == m
    ensures MergeEntry(m, key, EntryState(Some(k), None)) == MergeEntry(m, key, EntryState(Some(k), Some("")))
  {
  }

  // ---------------------------------------------------------------------------
  // Encoded fields are well formed
  // ---------------------------------------------------------------------------

  /** Chunks and varints with field numbers below the frame_json field. */
  ghost predicate Plain(ws: seq<Wire>) {
    forall i :: 0 <= i < |ws| ==>
      0 < ws[i].number < 99 && (ws[i].Chunk? || (ws[i].Number? && ws[i].value < U64))
  }

  lemma {:induction false} TextWiresPlain(lib: Library, number: nat, texts: seq<string>)
    requires 0 < number < 99
    ensures Plain(TextWires(lib, number, texts))
  {
    if texts != [] {
      TextWiresPlain(lib, number, texts[1..]);
    }
  }

  lemma {:induction false} MapWiresPlain(lib: Library, number: nat, m: Members, keys: seq<string>)
    requires 0 < number < 99 && forall k :: k in keys ==> k in m
    ensures Plain(MapWires(lib, number, m, keys))
  {
    if keys != [] {
      MapWiresPlain(lib, number, m, keys[1..]);
    }
  }

  lemma {:induction false} MessagesPlain(lib: Library, number: nat, fields: seq<Field>, items: seq<Value>)
    requires 0 < number < 99 && EncodeMessages(lib, number, fields, items).Ok?
    ensures Plain(EncodeMessages(lib, number, fields, items).value)
  {
    if items != [] {
      MessagesPlain(lib, number, fields, items[1..]);
    }
  }

  lemma FieldPlain(lib: Library, f: Field, v: Value)
    requires 0 < f.number < 99 && EncodeField(lib, f, v).Ok?
    ensures Plain(EncodeField(lib, f, v).value)
  {
    match f.codec
    case StringMap =>
      var x := v.Get(f.key);
      if x.Some? && x.value.Object? {
        MapWiresPlain(lib, f.number, x.value.members, SortedKeys(x.value.members.Keys));
      }
    case Texts => TextWiresPlain(lib, f.number, Strings(v.GetItems(f.key)));
    case Messages(fields) => MessagesPlain(lib, f.number, fields, v.GetItems(f.key));
    case Enum(kind) =>
    case _ =>
  }

  lemma {:induction false} FieldsPlain(lib: Library, fields: seq<Field>, v: Value)
    requires Sound(fields) && EncodeFields(lib, fields, v).Ok?
    ensures Plain(EncodeFields(lib, fields, v).value)
  {
    if fields != [] {
      assert Sound(fields[1..]);
      FieldPlain(lib, fields[0], v);
      FieldsPlain(lib, fields[1..], v);
    }
  }

  /** Lengths that fit the whole message fit each of its fields. */
  lemma {:induction false} PlainValid(ws: seq<Wire>)
    requires Plain(ws) && |Print(ws)| < U64
    ensures forall w :: w in ws ==> w.Valid()
  {
    if ws != [] {
      assert Plain(ws[1..]);
      PlainValid(ws[1..]);
      assert ws == [ws[0]] + ws[1..];
    }
  }

  lemma PlainRoundTrip(ws: seq<Wire>)
    requires Plain(ws) && |Print(ws)| < U64
    ensures Wires(Print(ws)) == Ok(ws)
  {
    PlainValid(ws);
    PrintRoundTrip(ws);
  }
}
