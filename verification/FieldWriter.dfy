/**
 The field-level writers of bud/src/proto_wire.rs as the program runs them: optional fields pushed
 onto a growing buffer, nested messages written to buffers of their own.  Each is proved to append
 the printed fields that FieldCodec specifies.
 */
module FieldWriter {
  import opened Wrappers
  import opened Collections
  import opened WireFormat
  import opened Lexicographic
  import opened Json
  import opened FieldSchema
  import opened FieldCodec

  lemma PrintedOne(w: Wire)
    ensures Print([w]) == w.Printed()
  {
    assert [w][1..] == [];
    assert Print([w]) == w.Printed() + [];
  }

  lemma PrintedFirst(w: Wire, ws: seq<Wire>)
    ensures Print([w] + ws) == w.Printed() + Print(ws)
  {
    assert ([w] + ws)[1..] == ws;
  }

  /** What a buffer will hold once the rest has been written to it. */
  ghost function Completed(data: Bytes, rest: Result<seq<Wire>>): Result<Bytes> {
    if rest.Err? then Err else Ok(data + Print(rest.value))
  }

  lemma CompletedFirst(data: Bytes, w: Wire, ws: seq<Wire>)
    ensures Completed(data, Ok([w] + ws)) == Completed(data + w.Printed(), Ok(ws))
  {
    PrintedFirst(w, ws);
    Append(data, w.Printed(), Print(ws));
  }

  ghost function Printed(ws: Result<seq<Wire>>): Result<Bytes> {
    if ws.Err? then Err else Ok(Print(ws.value))
  }

  lemma CompletedAlone(ws: Result<seq<Wire>>)
    ensures Completed([], ws) == Printed(ws)
  {
    if ws.Ok? {
      assert [] + Print(ws.value) == Print(ws.value);
    }
  }

  lemma CompletedNothing(data: Bytes)
    ensures Completed(data, Ok([])) == Ok(data)
  {
    assert data + [] == data;
  }

  method WriteStrings(lib: Library, out: Buffer, number: nat, texts: seq<string>)
    modifies out
    ensures Ok(out.data) == Completed(old(out.data), Ok(TextWires(lib, number, texts)))
  {
    assert texts[0..] == texts;
    for i := 0 to |texts|
      invariant Completed(out.data, Ok(TextWires(lib, number, texts[i..])))
             == Completed(old(out.data), Ok(TextWires(lib, number, texts)))
    {
      assert texts[i..][0] == texts[i] && texts[i..][1..] == texts[i + 1..];
      CompletedFirst(out.data, Chunk(number, lib.utf8(texts[i])), TextWires(lib, number, texts[i + 1..]));
      out.WriteBytes(number, lib.utf8(texts[i]));
    }
    CompletedNothing(out.data);
  }

  method WriteEntry(lib: Library, key: string, text: string) returns (bytes: Bytes)
    ensures bytes == Print(EntryWires(lib, key, text))
  {
    var entry := new Buffer();
    entry.WriteBytes(1, lib.utf8(key));
    entry.WriteBytes(2, lib.utf8(text));
    ghost var a, b := Chunk(1, lib.utf8(key)), Chunk(2, lib.utf8(text));
    assert EntryWires(lib, key, text) == [a] + [b];
    PrintedFirst(a, [b]);
    PrintedOne(b);
    assert [] + a.Printed() == a.Printed();
    return entry.data;
  }

  method WriteMap(lib: Library, out: Buffer, number: nat, m: Members, keys: seq<string>)
    requires forall k :: k in keys ==> k in m
    modifies out
    ensures Ok(out.data) == Completed(old(out.data), Ok(MapWires(lib, number, m, keys)))
  {
    assert keys[0..] == keys;
    for i := 0 to |keys|
      invariant Completed(out.data, Ok(MapWires(lib, number, m, keys[i..])))
             == Completed(old(out.data), Ok(MapWires(lib, number, m, keys)))
    {
      assert keys[i..][0] == keys[i] && keys[i..][1..] == keys[i + 1..];
      var entry := WriteEntry(lib, keys[i], lib.TextOf(m[keys[i]]));
      CompletedFirst(out.data, Chunk(number, entry), MapWires(lib, number, m, keys[i + 1..]));
      out.WriteBytes(number, entry);
    }
    CompletedNothing(out.data);
  }

  /** `write_optional_bool`, `write_optional_u32`, `write_optional_u64` and `write_optional_enum`. */
  method WriteOptionalVarint(lib: Library, out: Buffer, f: Field, v: Value)
    requires VarintCodec(f.codec)
    modifies out
    ensures Ok(out.data) == Completed(old(out.data), EncodeField(lib, f, v))
  {
    var n: Option<nat> :=
      match f.codec
      case Flag => var b := v.GetBool(f.key); if b.Some? then Some(if b.value then 1 else 0) else None
      case UInt32 => var n := v.GetU64(f.key); if n.Some? && n.value < U32 then n else None
      case UInt64 => v.GetU64(f.key)
      case Enum(kind) =>
        var s := v.GetString(f.key);
        var n := EnumNumber(kind, if s.Some? then s.value else "");
        if n > 0 then Some(n) else None
      case _ => None;
    if n.Some? {
      PrintedOne(Number(f.number, n.value));
      out.WriteVarintField(f.number, n.value);
    } else {
      CompletedNothing(out.data);
    }
  }

  predicate BytesScalar(codec: Codec) {
    codec.Text? || codec.Base64Bytes? || codec.JsonBytes?
  }

  /** `write_optional_string`, `write_optional_base64_bytes` and `write_optional_json_bytes`. */
  method WriteOptionalBytes(lib: Library, out: Buffer, f: Field, v: Value) returns (ok: bool)
    requires BytesScalar(f.codec)
    modifies out
    ensures ok == EncodeField(lib, f, v).Ok?
    ensures ok ==> Ok(out.data) == Completed(old(out.data), EncodeField(lib, f, v))
  {
    var bytes: Option<Bytes> := None;
    match f.codec {
      case Text =>
        var s := v.GetString(f.key);
        if s.Some? && s.value != "" {
          bytes := Some(lib.utf8(s.value));
        }
      case Base64Bytes =>
        var s := v.GetString(f.key);
        if s.Some? {
          var decoded := lib.fromBase64(s.value);
          if decoded.Err? {
            return false;
          }
          bytes := Some(decoded.value);
        }
      case JsonBytes =>
        var x := v.Get(f.key);
        if x.Some? && !x.value.Null? {
          bytes := Some(lib.toJson(x.value));
        }
    }
    if bytes.Some? {
      PrintedOne(Chunk(f.number, bytes.value));
      out.WriteBytes(f.number, bytes.value);
    } else {
      CompletedNothing(out.data);
    }
    return true;
  }

  /** One field, of whatever codec. */
  method WriteField(lib: Library, out: Buffer, f: Field, v: Value) returns (ok: bool)
    modifies out
    ensures ok == EncodeField(lib, f, v).Ok?
    ensures ok ==> Ok(out.data) == Completed(old(out.data), EncodeField(lib, f, v))
    decreases f, 2
  {
    if VarintCodec(f.codec) {
      WriteOptionalVarint(lib, out, f, v);
      return true;
    } else if BytesScalar(f.codec) {
      ok := WriteOptionalBytes(lib, out, f, v);
      return;
    }
    ok := WriteComposite(lib, out, f, v);
  }

  method WriteComposite(lib: Library, out: Buffer, f: Field, v: Value) returns (ok: bool)
    requires !VarintCodec(f.codec) && !BytesScalar(f.codec)
    modifies out
    ensures ok == EncodeField(lib, f, v).Ok?
    ensures ok ==> Ok(out.data) == Completed(old(out.data), EncodeField(lib, f, v))
    decreases f, 1
  {
    CompletedNothing(out.data);
    match f.codec {
      case StringMap =>
        var x := v.Get(f.key);
        if x.Some? && x.value.Object? {
          WriteMap(lib, out, f.number, x.value.members, SortedKeys(x.value.members.Keys));
        }
      case Texts =>
        WriteStrings(lib, out, f.number, Strings(v.GetItems(f.key)));
      case Message(fields) =>
        var x := v.Get(f.key);
        if x.Some? && x.value.Object? {
          var nested := WriteMessage(lib, fields, x.value);
          if nested.Err? {
            return false;
          }
          PrintedOne(Chunk(f.number, nested.value));
          out.WriteBytes(f.number, nested.value);
        }
      case Messages(fields) =>
        ok := WriteMessages(lib, out, f.number, fields, v.GetItems(f.key));
        return;
    }
    return true;
  }

  /** Encodes all messages, and writes them if that worked. */
  method WriteMessages(lib: Library, out: Buffer, number: nat, fields: seq<Field>, items: seq<Value>)
    returns (ok: bool)
    modifies out
    ensures ok == EncodeMessages(lib, number, fields, items).Ok?
    ensures ok ==> Ok(out.data) == Completed(old(out.data), EncodeMessages(lib, number, fields, items))
    decreases fields, 1, items
  {
    assert items[0..] == items;
    for i := 0 to |items|
      invariant Completed(out.data, EncodeMessages(lib, number, fields, items[i..]))
             == Completed(old(out.data), EncodeMessages(lib, number, fields, items))
    {
      MessagesFirst(lib, number, fields, items, i);
      var message := WriteMessage(lib, fields, items[i]);
      if message.Err? {
        return false;
      }
      CompletedNext(out.data, Chunk(number, message.value), EncodeMessages(lib, number, fields, items[i + 1..]));
      out.WriteBytes(number, message.value);
    }
    CompletedNothing(out.data);
    return true;
  }

  lemma CompletedNext(data: Bytes, w: Wire, rest: Result<seq<Wire>>)
    ensures Completed(data + w.Printed(), rest) == if rest.Err? then Err else Completed(data, Ok([w] + rest.value))
  {
    if rest.Ok? {
      CompletedFirst(data, w, rest.value);
    }
  }

  lemma MessagesFirst(lib: Library, number: nat, fields: seq<Field>, items: seq<Value>, i: nat)
    requires i < |items|
    ensures
      var first, rest := Printed(EncodeFields(lib, fields, items[i])), EncodeMessages(lib, number, fields, items[i + 1..]);
      EncodeMessages(lib, number, fields, items[i..])
      == if first.Err? || rest.Err? then Err else Ok([Chunk(number, first.value)] + rest.value)
  {
    assert items[i..][0] == items[i] && items[i..][1..] == items[i + 1..];
  }

  /** A message: its fields one after the other, onto a buffer of its own. */
  method WriteMessage(lib: Library, fields: seq<Field>, v: Value) returns (r: Result<Bytes>)
    ensures r == Printed(EncodeFields(lib, fields, v))
    decreases fields, 0
  {
    var out := new Buffer();
    assert fields[0..] == fields;
    for i := 0 to |fields|
      invariant Completed(out.data, EncodeFields(lib, fields[i..], v)) == Completed([], EncodeFields(lib, fields, v))
      invariant fresh(out)
    {
      FieldsFirst(lib, fields, i, v);
      ghost var before := out.data;
      var ok := WriteField(lib, out, fields[i], v);
      if !ok {
        CompletedAlone(EncodeFields(lib, fields, v));
        return Err;
      }
      CompletedBoth(before, EncodeField(lib, fields[i], v).value, EncodeFields(lib, fields[i + 1..], v));
    }
    CompletedNothing(out.data);
    CompletedAlone(EncodeFields(lib, fields, v));
    return Ok(out.data);
  }

  lemma FieldsFirst(lib: Library, fields: seq<Field>, i: nat, v: Value)
    requires i < |fields|
    ensures
      var first, rest := EncodeField(lib, fields[i], v), EncodeFields(lib, fields[i + 1..], v);
      EncodeFields(lib, fields[i..], v) == if first.Err? || rest.Err? then Err else Ok(first.value + rest.value)
  {
    assert fields[i..][0] == fields[i] && fields[i..][1..] == fields[i + 1..];
  }

  lemma CompletedBoth(data: Bytes, first: seq<Wire>, rest: Result<seq<Wire>>)
    ensures Completed(data + Print(first), rest) == if rest.Err? then Err else Completed(data, Ok(first + rest.value))
  {
    if rest.Ok? {
      PrintConcat(first, rest.value);
      Append(data, Print(first), Print(rest.value));
    }
  }
}
