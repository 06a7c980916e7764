/** Round trips of the field-level codec, for every sound table and every JSON value. */
module FieldRoundTrip {
  import opened Wrappers
  import opened Collections
  import opened Lexicographic
  import opened WireFormat
  import opened Json
  import opened FieldSchema
  import opened FieldCodec

  // ---------------------------------------------------------------------------
  // Decoding an encoded message gives its normal form
  // ---------------------------------------------------------------------------

  lemma DecodeOne(lib: Library, table: seq<Field>, m: Members, w: Wire, f: Field)
    requires Find(table, w.number) == Some(f)
    ensures DecodeWires(lib, table, m, [w]) == ApplyField(lib, f, m, w)
  {
    var r := ApplyField(lib, f, m, w);
    assert [w][1..] == [];
    assert r.Ok? ==> DecodeWires(lib, table, r.value, []) == r;
  }

  lemma DecodeCons(lib: Library, table: seq<Field>, m: Members, w: Wire, ws: seq<Wire>, f: Field)
    requires Find(table, w.number) == Some(f) && ApplyField(lib, f, m, w).Ok?
    ensures DecodeWires(lib, table, m, [w] + ws)
         == DecodeWires(lib, table, ApplyField(lib, f, m, w).value, ws)
  {
    assert ([w] + ws)[0] == w && ([w] + ws)[1..] == ws;
  }

  lemma PrintOne(number: nat, bytes: Bytes, ws: seq<Wire>)
    ensures |bytes| <= |Print([Chunk(number, bytes)] + ws)|
    ensures |Print(ws)| <= |Print([Chunk(number, bytes)] + ws)|
  {
    assert ([Chunk(number, bytes)] + ws)[1..] == ws;
  }

  lemma ChunkFits(number: nat, bytes: Bytes)
    ensures |bytes| <= |Print([Chunk(number, bytes)])|
  {
    assert [Chunk(number, bytes)] == [Chunk(number, bytes)] + [];
    PrintOne(number, bytes, []);
  }

  function PutItems(m: Members, key: string, items: seq<Value>): Members {
    if items == [] then m else m[key := Array(items)]
  }

  lemma PutUnion(m: Members, key: string, v: Option<Value>, tail: Members)
    requires key !in tail
    ensures Put(m, key, v) + tail == m + Put(tail, key, v)
  {
  }

  lemma PushPut(m: Members, key: string, items: seq<Value>, v: Value)
    requires key !in m
    ensures Push(PutItems(m, key, items), key, v) == PutItems(m, key, items + [v])
  {
    if items != [] {
      assert PutItems(m, key, items)[key] == Array(items);
    }
    assert items == [] ==> items + [v] == [v];
  }

  lemma {:induction false} TextsRoundTrip(
      lib: Library, f: Field, table: seq<Field>, m: Members, read: seq<Value>, texts: seq<string>)
    requires lib.Lawful() && f.codec == Texts && Find(table, f.number) == Some(f) && f.key !in m
    ensures DecodeWires(lib, table, PutItems(m, f.key, read), TextWires(lib, f.number, texts))
         == Ok(PutItems(m, f.key, read + TextItems(texts)))
    decreases texts
  {
    if texts == [] {
      assert read + TextItems(texts) == read;
    } else {
      var v := Str(texts[0]);
      assert read + TextItems(texts) == (read + [v]) + TextItems(texts[1..]);
      var m' := PutItems(m, f.key, read);
      PushPut(m, f.key, read, v);
      DecodeCons(lib, table, m', Chunk(f.number, lib.utf8(texts[0])), TextWires(lib, f.number, texts[1..]), f);
      TextsRoundTrip(lib, f, table, m, read + [v], texts[1..]);
    }
  }

  lemma EntryRoundTrip(lib: Library, key: string, text: string)
    requires lib.Lawful() && |Print(EntryWires(lib, key, text))| < U64
    ensures Wires(Print(EntryWires(lib, key, text))) == Ok(EntryWires(lib, key, text))
    ensures DecodeEntry(lib, EntryState(None, None), EntryWires(lib, key, text))
         == Ok(EntryState(Some(key), Some(text)))
  {
    var ws := EntryWires(lib, key, text);
    PlainRoundTrip(ws);
    assert ws[1..] == [ws[1]] && [ws[1]][1..] == [];
    var st := EntryState(Some(key), None);
    assert ApplyEntry(lib, EntryState(None, None), ws[0]) == Ok(st);
    assert DecodeEntry(lib, st, [ws[1]]) == Ok(EntryState(Some(key), Some(text)));
  }

  lemma EntryApplied(lib: Library, f: Field, m: Members, key: string, text: string)
    requires lib.Lawful() && f.codec == StringMap && |Print(EntryWires(lib, key, text))| < U64
    ensures ApplyField(lib, f, m, Chunk(f.number, Print(EntryWires(lib, key, text))))
         == Ok(MergeEntry(m, f.key, EntryState(Some(key), Some(text))))
  {
    EntryRoundTrip(lib, key, text);
  }

  function PutMap(m: Members, key: string, entries: Members): Members {
    if entries == map[] then m else m[key := Object(entries)]
  }

  lemma MergePut(m: Members, key: string, read: Members, k: string, text: string)
    requires key !in m
    ensures MergeEntry(PutMap(m, key, read), key, EntryState(Some(k), Some(text)))
         == PutMap(m, key, read[k := Str(text)])
  {
    assert k in read[k := Str(text)];
    if read != map[] {
      assert PutMap(m, key, read)[key].members == read;
    }
  }

  /** The entries read back after the first `n` keys. */
  function ReadEntries(lib: Library, entries: Members, keys: seq<string>, n: nat): Members
    requires n <= |keys| && forall k :: k in keys ==> k in entries
  {
    if n == 0 then map[]
    else ReadEntries(lib, entries, keys, n - 1)[keys[n - 1] := Str(lib.TextOf(entries[keys[n - 1]]))]
  }

  lemma {:induction false} ReadEntriesAt(lib: Library, entries: Members, keys: seq<string>, n: nat)
    requires n <= |keys| && forall k :: k in keys ==> k in entries
    ensures ReadEntries(lib, entries, keys, n)
         == map k | k in keys[..n] :: Str(lib.TextOf(entries[k]))
  {
    if n > 0 {
      assert keys[..n] == keys[..n - 1] + [keys[n - 1]];
      ReadEntriesAt(lib, entries, keys, n - 1);
    }
  }

  lemma AllEntries(lib: Library, entries: Members)
    ensures
      var keys := SortedKeys(entries.Keys);
      ReadEntries(lib, entries, keys, |keys|) == TextMembers(lib, entries)
    ensures TextMembers(lib, entries) == map[] <==> entries == map[]
  {
    var keys := SortedKeys(entries.Keys);
    assert keys[..|keys|] == keys;
    ReadEntriesAt(lib, entries, keys, |keys|);
    assert TextMembers(lib, entries).Keys == entries.Keys;
  }

  lemma {:induction false} MapRoundTrip(
      lib: Library, f: Field, table: seq<Field>, m: Members, entries: Members, keys: seq<string>, n: nat)
    requires lib.Lawful() && f.codec == StringMap && Find(table, f.number) == Some(f) && f.key !in m
    requires n <= |keys| && forall k :: k in keys ==> k in entries
    requires |Print(MapWires(lib, f.number, entries, keys[n..]))| < U64
    ensures DecodeWires(lib, table, PutMap(m, f.key, ReadEntries(lib, entries, keys, n)),
                        MapWires(lib, f.number, entries, keys[n..]))
         == Ok(PutMap(m, f.key, ReadEntries(lib, entries, keys, |keys|)))
    decreases |keys| - n
  {
    if n < |keys| {
      assert keys[n..][0] == keys[n] && keys[n..][1..] == keys[n + 1..];
      var k, text := keys[n], lib.TextOf(entries[keys[n]]);
      var bytes := Print(EntryWires(lib, k, text));
      var ws := MapWires(lib, f.number, entries, keys[n + 1..]);
      var read := ReadEntries(lib, entries, keys, n);
      PrintOne(f.number, bytes, ws);
      EntryApplied(lib, f, PutMap(m, f.key, read), k, text);
      MergePut(m, f.key, read, k, text);
      DecodeCons(lib, table, PutMap(m, f.key, read), Chunk(f.number, bytes), ws, f);
      MapRoundTrip(lib, f, table, m, entries, keys, n + 1);
    }
  }

  /** A nested message that decodes is appended to the list read so far. */
  lemma MessagePushed(
      lib: Library, f: Field, table: seq<Field>, m: Members, read: seq<Value>, fields: seq<Field>, bytes: Bytes,
      sub: Members, rest: seq<Wire>)
    requires f.codec == Messages(fields) && Find(table, f.number) == Some(f) && f.key !in m
    requires DecodeBytes(lib, fields, map[], bytes) == Ok(sub)
    ensures DecodeWires(lib, table, PutItems(m, f.key, read), [Chunk(f.number, bytes)] + rest)
         == DecodeWires(lib, table, PutItems(m, f.key, read + [Object(sub)]), rest)
  {
    PushPut(m, f.key, read, Object(sub));
    DecodeCons(lib, table, PutItems(m, f.key, read), Chunk(f.number, bytes), rest, f);
  }

  lemma {:induction false} MessagesRoundTrip(
      lib: Library, f: Field, table: seq<Field>, m: Members, read: seq<Value>, fields: seq<Field>, items: seq<Value>)
    requires lib.Lawful() && f.codec == Messages(fields) && Sound(fields)
    requires Find(table, f.number) == Some(f) && f.key !in m
    requires EncodeMessages(lib, f.number, fields, items).Ok?
    requires |Print(EncodeMessages(lib, f.number, fields, items).value)| < U64
    ensures DecodeWires(lib, table, PutItems(m, f.key, read), EncodeMessages(lib, f.number, fields, items).value)
         == Ok(PutItems(m, f.key, read + NormalItems(lib, fields, items)))
    decreases fields, 3, items
  {
    if items == [] {
      assert read + NormalItems(lib, fields, items) == read;
    } else {
      var ws := EncodeFields(lib, fields, items[0]).value;
      var rest := EncodeMessages(lib, f.number, fields, items[1..]).value;
      var v := Object(NormalFields(lib, fields, items[0]));
      assert read + NormalItems(lib, fields, items) == (read + [v]) + NormalItems(lib, fields, items[1..]);
      PrintOne(f.number, Print(ws), rest);
      MessageRoundTrip(lib, fields, items[0]);
      MessagePushed(lib, f, table, m, read, fields, Print(ws), v.members, rest);
      MessagesRoundTrip(lib, f, table, m, read + [v], fields, items[1..]);
    }
  }

  predicate Scalar(codec: Codec) {
    !codec.Message? && !codec.Messages? && !codec.Texts? && !codec.StringMap?
  }

  lemma ScalarRoundTrip(lib: Library, f: Field, m: Members, v: Value)
    requires lib.Lawful() && Scalar(f.codec)
    requires EncodeField(lib, f, v).Ok? && EncodeField(lib, f, v).value != []
    ensures |EncodeField(lib, f, v).value| == 1 && EncodeField(lib, f, v).value[0].number == f.number
    ensures NormalField(lib, f, v).Some?
    ensures ApplyField(lib, f, m, EncodeField(lib, f, v).value[0])
         == Ok(m[f.key := NormalField(lib, f, v).value])
  {
    if f.codec.Enum? {
      var s := v.GetString(f.key);
      assert EnumNumber(f.codec.kind, "") == 0;
      EnumRoundTrip(f.codec.kind, s.value);
    }
  }

  lemma MapFieldRoundTrip(lib: Library, f: Field, table: seq<Field>, m: Members, v: Value)
    requires f.codec == StringMap
    requires lib.Lawful() && 0 < f.number < 99 && SoundCodec(f.codec)
    requires Find(table, f.number) == Some(f) && f.key !in m
    requires EncodeField(lib, f, v).Ok? && |Print(EncodeField(lib, f, v).value)| < U64
    ensures DecodeWires(lib, table, m, EncodeField(lib, f, v).value) == Ok(Put(m, f.key, NormalField(lib, f, v)))
  {
    var x := v.Get(f.key);
    if x.Some? && x.value.Object? {
      var entries := x.value.members;
      var keys := SortedKeys(entries.Keys);
      assert keys[0..] == keys;
      AllEntries(lib, entries);
      MapRoundTrip(lib, f, table, m, entries, keys, 0);
    }
  }

  lemma ScalarFieldRoundTrip(lib: Library, f: Field, table: seq<Field>, m: Members, v: Value)
    requires Scalar(f.codec)
    requires lib.Lawful() && 0 < f.number < 99 && SoundCodec(f.codec)
    requires Find(table, f.number) == Some(f) && f.key !in m
    requires EncodeField(lib, f, v).Ok? && |Print(EncodeField(lib, f, v).value)| < U64
    ensures DecodeWires(lib, table, m, EncodeField(lib, f, v).value) == Ok(Put(m, f.key, NormalField(lib, f, v)))
  {
    var ws := EncodeField(lib, f, v).value;
    EmptyEncoding(lib, f, v);
    if ws != [] {
      ScalarRoundTrip(lib, f, m, v);
      assert ws == [ws[0]];
      DecodeOne(lib, table, m, ws[0], f);
    }
  }

  lemma TextsFieldRoundTrip(lib: Library, f: Field, table: seq<Field>, m: Members, v: Value)
    requires f.codec == Texts
    requires lib.Lawful() && Find(table, f.number) == Some(f) && f.key !in m
    requires EncodeField(lib, f, v).Ok?
    ensures DecodeWires(lib, table, m, EncodeField(lib, f, v).value) == Ok(Put(m, f.key, NormalField(lib, f, v)))
  {
    var texts := Strings(v.GetItems(f.key));
    assert [] + TextItems(texts) == TextItems(texts);
    TextsRoundTrip(lib, f, table, m, [], texts);
  }

  lemma FieldRoundTrip(lib: Library, f: Field, table: seq<Field>, m: Members, v: Value)
    requires lib.Lawful() && 0 < f.number < 99 && SoundCodec(f.codec)
    requires Find(table, f.number) == Some(f) && f.key !in m
    requires EncodeField(lib, f, v).Ok? && |Print(EncodeField(lib, f, v).value)| < U64
    ensures DecodeWires(lib, table, m, EncodeField(lib, f, v).value) == Ok(Put(m, f.key, NormalField(lib, f, v)))
    decreases f, 1
  {
    if Scalar(f.codec) {
      ScalarFieldRoundTrip(lib, f, table, m, v);
    } else if f.codec.StringMap? {
      MapFieldRoundTrip(lib, f, table, m, v);
    } else if f.codec.Texts? {
      TextsFieldRoundTrip(lib, f, table, m, v);
    } else if f.codec.Messages? {
      var items := v.GetItems(f.key);
      assert [] + NormalItems(lib, f.codec.fields, items) == NormalItems(lib, f.codec.fields, items);
      MessagesRoundTrip(lib, f, table, m, [], f.codec.fields, items);
    } else {
      var x := v.Get(f.key);
      if x.Some? && x.value.Object? {
        var sub := Print(EncodeFields(lib, f.codec.fields, x.value).value);
        ChunkFits(f.number, sub);
        MessageRoundTrip(lib, f.codec.fields, x.value);
        DecodeOne(lib, table, m, Chunk(f.number, sub), f);
      }
    }
  }

  /** A scalar writes nothing exactly when its normal form has nothing. */
  lemma EmptyEncoding(lib: Library, f: Field, v: Value)
    requires EncodeField(lib, f, v).Ok? && Scalar(f.codec)
    ensures EncodeField(lib, f, v).value == [] <==> NormalField(lib, f, v).None?
  {
    if f.codec.Enum? {
      assert EnumNumber(f.codec.kind, "") == 0;
    }
  }

  lemma {:induction false} FindSelf(fields: seq<Field>, i: nat)
    requires Distinct(fields) && i < |fields|
    ensures Find(fields, fields[i].number) == Some(fields[i])
  {
    if i > 0 {
      assert fields[0].number < fields[i].number;
      assert Distinct(fields[1..]);
      FindSelf(fields[1..], i - 1);
    }
  }

  lemma TailKey(lib: Library, table: seq<Field>, k: nat, v: Value)
    requires Distinct(table) && k < |table|
    ensures table[k].key !in NormalFields(lib, table[k + 1..], v)
  {
    var tail := table[k + 1..];
    assert forall i :: 0 <= i < |tail| ==> tail[i] == table[k + 1 + i];
  }

  /** The encoding from field `k` on is that of field `k` followed by the rest. */
  lemma FieldsFrom(lib: Library, table: seq<Field>, k: nat, v: Value)
    requires k < |table| && EncodeFields(lib, table[k..], v).Ok?
    ensures EncodeField(lib, table[k], v).Ok? && EncodeFields(lib, table[k + 1..], v).Ok?
    ensures EncodeFields(lib, table[k..], v).value
         == EncodeField(lib, table[k], v).value + EncodeFields(lib, table[k + 1..], v).value
    ensures NormalFields(lib, table[k..], v)
         == Put(NormalFields(lib, table[k + 1..], v), table[k].key, NormalField(lib, table[k], v))
  {
    assert table[k..][0] == table[k] && table[k..][1..] == table[k + 1..];
  }

  /** Decoding the fields of an encoded message adds its normal form to what was read before. */
  lemma {:induction false} FieldsRoundTrip(lib: Library, table: seq<Field>, k: nat, m: Members, v: Value)
    requires lib.Lawful() && Sound(table) && k <= |table|
    requires forall i :: k <= i < |table| ==> table[i].key !in m
    requires EncodeFields(lib, table[k..], v).Ok? && |Print(EncodeFields(lib, table[k..], v).value)| < U64
    ensures DecodeWires(lib, table, m, EncodeFields(lib, table[k..], v).value)
         == Ok(m + NormalFields(lib, table[k..], v))
    decreases table, 0, |table| - k
  {
    if k == |table| {
      assert m + NormalFields(lib, table[k..], v) == m;
    } else {
      var f, tail := table[k], table[k + 1..];
      FieldsFrom(lib, table, k, v);
      var head, rest := EncodeField(lib, f, v).value, EncodeFields(lib, tail, v).value;
      PrintConcat(head, rest);
      FindSelf(table, k);
      FieldRoundTrip(lib, f, table, m, v);
      DecodeConcat(lib, table, m, head, rest);
      FieldsRoundTrip(lib, table, k + 1, Put(m, f.key, NormalField(lib, f, v)), v);
      TailKey(lib, table, k, v);
      PutUnion(m, f.key, NormalField(lib, f, v), NormalFields(lib, tail, v));
    }
  }

  /** Decoding an encoded message gives its normal form, added to the members set beforehand. */
  lemma FrameRoundTrip(lib: Library, fields: seq<Field>, m: Members, v: Value)
    requires lib.Lawful() && Sound(fields) && forall i :: 0 <= i < |fields| ==> fields[i].key !in m
    requires EncodeFields(lib, fields, v).Ok? && |Print(EncodeFields(lib, fields, v).value)| < U64
    ensures DecodeBytes(lib, fields, m, Print(EncodeFields(lib, fields, v).value))
         == Ok(m + NormalFields(lib, fields, v))
    decreases fields, 1
  {
    FieldsPlain(lib, fields, v);
    PlainRoundTrip(EncodeFields(lib, fields, v).value);
    assert fields[0..] == fields;
    FieldsRoundTrip(lib, fields, 0, m, v);
  }

  lemma MessageRoundTrip(lib: Library, fields: seq<Field>, v: Value)
    requires lib.Lawful() && Sound(fields)
    requires EncodeFields(lib, fields, v).Ok? && |Print(EncodeFields(lib, fields, v).value)| < U64
    ensures DecodeBytes(lib, fields, map[], Print(EncodeFields(lib, fields, v).value))
         == Ok(NormalFields(lib, fields, v))
    decreases fields, 2
  {
    FrameRoundTrip(lib, fields, map[], v);
    assert map[] + NormalFields(lib, fields, v) == NormalFields(lib, fields, v);
  }

  // ---------------------------------------------------------------------------
  // Encoding the normal form gives the same fields
  // ---------------------------------------------------------------------------

  lemma {:induction false} StringsOfTexts(texts: seq<string>)
    ensures Strings(TextItems(texts)) == texts
  {
    if texts != [] {
      assert TextItems(texts)[1..] == TextItems(texts[1..]);
      StringsOfTexts(texts[1..]);
    }
  }

  lemma {:induction false} MapWiresNormal(lib: Library, number: nat, m: Members, keys: seq<string>)
    requires forall k :: k in keys ==> k in m
    ensures MapWires(lib, number, TextMembers(lib, m), keys) == MapWires(lib, number, m, keys)
  {
    if keys != [] {
      MapWiresNormal(lib, number, m, keys[1..]);
    }
  }

  lemma {:induction false} MessagesNormal(lib: Library, number: nat, fields: seq<Field>, items: seq<Value>)
    requires lib.Lawful() && Sound(fields) && EncodeMessages(lib, number, fields, items).Ok?
    ensures EncodeMessages(lib, number, fields, NormalItems(lib, fields, items))
         == EncodeMessages(lib, number, fields, items)
    decreases fields, 3, items
  {
    if items != [] {
      var normal := NormalItems(lib, fields, items);
      assert normal[0] == Object(NormalFields(lib, fields, items[0]));
      assert normal[1..] == NormalItems(lib, fields, items[1..]);
      EncodeNormal(lib, fields, map[], items[0]);
      assert map[] + NormalFields(lib, fields, items[0]) == NormalFields(lib, fields, items[0]);
      MessagesNormal(lib, number, fields, items[1..]);
    }
  }

  lemma EnumFieldNormal(lib: Library, f: Field, v: Value, v': Value)
    requires f.codec.Enum? && v'.Object? && v'.Get(f.key) == NormalField(lib, f, v)
    ensures EncodeField(lib, f, v') == EncodeField(lib, f, v)
  {
    assert EnumNumber(f.codec.kind, "") == 0;
  }

  lemma ScalarNormal(lib: Library, f: Field, v: Value, v': Value)
    requires lib.Lawful() && Scalar(f.codec) && EncodeField(lib, f, v).Ok?
    requires v'.Object? && v'.Get(f.key) == NormalField(lib, f, v)
    ensures EncodeField(lib, f, v') == EncodeField(lib, f, v)
  {
    if f.codec.Enum? {
      EnumFieldNormal(lib, f, v, v');
    }
  }

  lemma MapFieldNormal(lib: Library, f: Field, v: Value, v': Value)
    requires lib.Lawful() && f.codec == StringMap && EncodeField(lib, f, v).Ok?
    requires v'.Object? && v'.Get(f.key) == NormalField(lib, f, v)
    ensures EncodeField(lib, f, v') == EncodeField(lib, f, v)
  {
    var x := v.Get(f.key);
    if x.Some? && x.value.Object? {
      AllEntries(lib, x.value.members);
      assert TextMembers(lib, x.value.members).Keys == x.value.members.Keys;
      MapWiresNormal(lib, f.number, x.value.members, SortedKeys(x.value.members.Keys));
    }
  }

  lemma TextsFieldNormal(lib: Library, f: Field, v: Value, v': Value)
    requires lib.Lawful() && f.codec == Texts && EncodeField(lib, f, v).Ok?
    requires v'.Object? && v'.Get(f.key) == NormalField(lib, f, v)
    ensures EncodeField(lib, f, v') == EncodeField(lib, f, v)
  {
    StringsOfTexts(Strings(v.GetItems(f.key)));
  }

  lemma FieldNormal(lib: Library, f: Field, v: Value, v': Value)
    requires lib.Lawful() && SoundCodec(f.codec) && EncodeField(lib, f, v).Ok?
    requires v'.Object? && v'.Get(f.key) == NormalField(lib, f, v)
    ensures EncodeField(lib, f, v') == EncodeField(lib, f, v)
    decreases f, 1
  {
    if Scalar(f.codec) {
      ScalarNormal(lib, f, v, v');
    } else if f.codec.StringMap? {
      MapFieldNormal(lib, f, v, v');
    } else if f.codec.Texts? {
      TextsFieldNormal(lib, f, v, v');
    } else if f.codec.Messages? {
      MessagesNormal(lib, f.number, f.codec.fields, v.GetItems(f.key));
    } else {
      var x := v.Get(f.key);
      if x.Some? && x.value.Object? {
        var normal := NormalFields(lib, f.codec.fields, x.value);
        EncodeNormal(lib, f.codec.fields, map[], x.value);
        assert map[] + normal == normal;
      }
    }
  }

  lemma NormalFrom(lib: Library, table: seq<Field>, j: nat, v: Value)
    requires j < |table|
    ensures NormalFields(lib, table[j..], v)
         == Put(NormalFields(lib, table[j + 1..], v), table[j].key, NormalField(lib, table[j], v))
  {
    assert table[j..][0] == table[j] && table[j..][1..] == table[j + 1..];
  }

  lemma GetPut(m: Members, key: string, x: Option<Value>, other: string)
    ensures key !in m ==> Object(Put(m, key, x)).Get(key) == x
    ensures other != key ==> Object(Put(m, key, x)).Get(other) == Object(m).Get(other)
  {
  }

  lemma {:induction false} NormalAt(lib: Library, table: seq<Field>, j: nat, k: nat, v: Value)
    requires Distinct(table) && j <= k < |table|
    ensures Object(NormalFields(lib, table[j..], v)).Get(table[k].key) == NormalField(lib, table[k], v)
    decreases k - j
  {
    NormalFrom(lib, table, j, v);
    GetPut(NormalFields(lib, table[j + 1..], v), table[j].key, NormalField(lib, table[j], v), table[k].key);
    if j == k {
      TailKey(lib, table, k, v);
    } else {
      NormalAt(lib, table, j + 1, k, v);
    }
  }

  lemma {:induction false} FieldsNormal(lib: Library, table: seq<Field>, k: nat, v: Value, v': Value)
    requires lib.Lawful() && Sound(table) && k <= |table| && EncodeFields(lib, table[k..], v).Ok?
    requires v'.Object? && forall i :: k <= i < |table| ==> v'.Get(table[i].key) == NormalField(lib, table[i], v)
    ensures EncodeFields(lib, table[k..], v') == EncodeFields(lib, table[k..], v)
    decreases table, 0, |table| - k
  {
    if k < |table| {
      assert table[k..][0] == table[k] && table[k..][1..] == table[k + 1..];
      FieldNormal(lib, table[k], v, v');
      FieldsNormal(lib, table, k + 1, v, v');
    }
  }

  /** Encoding a decoded message writes the same fields again. */
  lemma EncodeNormal(lib: Library, fields: seq<Field>, base: Members, v: Value)
    requires lib.Lawful() && Sound(fields) && EncodeFields(lib, fields, v).Ok?
    requires forall i :: 0 <= i < |fields| ==> fields[i].key !in base
    ensures EncodeFields(lib, fields, Object(base + NormalFields(lib, fields, v))) == EncodeFields(lib, fields, v)
    decreases fields, 1
  {
    var v' := Object(base + NormalFields(lib, fields, v));
    assert fields[0..] == fields;
    forall i | 0 <= i < |fields| ensures v'.Get(fields[i].key) == NormalField(lib, fields[i], v) {
      NormalAt(lib, fields, 0, i, v);
    }
    FieldsNormal(lib, fields, 0, v, v');
  }

  // ---------------------------------------------------------------------------
  // Unknown fields
  // ---------------------------------------------------------------------------

  /** A field whose number the table does not list can be added at any field boundary. */
  lemma UnknownFieldSkipped(lib: Library, fields: seq<Field>, m: Members, pre: Bytes, extra: Bytes, post: Bytes)
    requires Wires(pre).Ok? && Wires(extra).Ok?
    requires forall w :: w in Wires(extra).value ==> Find(fields, w.number).None?
    ensures DecodeBytes(lib, fields, m, pre + extra + post) == DecodeBytes(lib, fields, m, pre + post)
  {
    WiresConcat(pre, post);
    WiresConcat(pre, extra);
    WiresConcat(pre + extra, post);
    if Wires(post).Ok? {
      var a, x, b := Wires(pre).value, Wires(extra).value, Wires(post).value;
      DecodeConcat(lib, fields, m, a, b);
      DecodeConcat(lib, fields, m, a, x);
      DecodeConcat(lib, fields, m, a + x, b);
      var r := DecodeWires(lib, fields, m, a);
      if r.Ok? {
        UnknownWires(lib, fields, r.value, x);
      }
    }
  }

  lemma {:induction false} UnknownWires(lib: Library, fields: seq<Field>, m: Members, ws: seq<Wire>)
    requires forall w :: w in ws ==> Find(fields, w.number).None?
    ensures DecodeWires(lib, fields, m, ws) == Ok(m)
    decreases ws
  {
    if ws != [] {
      UnknownWires(lib, fields, m, ws[1..]);
    }
  }

  lemma {:induction false} EntryConcat(lib: Library, st: EntryState, a: seq<Wire>, b: seq<Wire>)
    ensures DecodeEntry(lib, st, a + b)
         == var r := DecodeEntry(lib, st, a);
            if r.Ok? then DecodeEntry(lib, r.value, b) else Err
    decreases a
  {
    if a == [] {
      assert a + b == b;
    } else {
      assert (a + b)[0] == a[0] && (a + b)[1..] == a[1..] + b;
      var st' := ApplyEntry(lib, st, a[0]);
      if st'.Ok? {
        EntryConcat(lib, st'.value, a[1..], b);
      }
    }
  }

  lemma {:induction false} UnknownEntryWires(lib: Library, st: EntryState, ws: seq<Wire>)
    requires forall w :: w in ws ==> w.number !in {1, 2}
    ensures DecodeEntry(lib, st, ws) == Ok(st)
    decreases ws
  {
    if ws != [] {
      UnknownEntryWires(lib, st, ws[1..]);
    }
  }

  /** A map entry is a message of its own, in which only the numbers 1 and 2 are known. */
  lemma UnknownEntryFields(lib: Library, st: EntryState, pre: Bytes, extra: Bytes, post: Bytes)
    requires Wires(pre).Ok? && Wires(extra).Ok?
    requires forall w :: w in Wires(extra).value ==> w.number !in {1, 2}
    ensures EntryFrom(lib, st, pre + extra + post) == EntryFrom(lib, st, pre + post)
  {
    WiresConcat(pre, post);
    WiresConcat(pre, extra);
    WiresConcat(pre + extra, post);
    if Wires(post).Ok? {
      var a, x, b := Wires(pre).value, Wires(extra).value, Wires(post).value;
      EntryConcat(lib, st, a, b);
      EntryConcat(lib, st, a, x);
      EntryConcat(lib, st, a + x, b);
      var r := DecodeEntry(lib, st, a);
      if r.Ok? {
        UnknownEntryWires(lib, r.value, x);
      }
    }
  }

  /** Whether two byte strings decode alike under a codec that holds a nested message. */
  ghost predicate SameNested(lib: Library, codec: Codec, sub: Bytes, sub': Bytes) {
    match codec
    case Message(fields) => DecodeBytes(lib, fields, map[], sub) == DecodeBytes(lib, fields, map[], sub')
    case Messages(fields) => DecodeBytes(lib, fields, map[], sub) == DecodeBytes(lib, fields, map[], sub')
    case StringMap => EntryFrom(lib, EntryState(None, None), sub) == EntryFrom(lib, EntryState(None, None), sub')
    case _ => false
  }

  /**
   A nested message, or an entry of a map, can be replaced by any bytes that decode alike, so unknown
   fields are skipped at every depth.
   */
  lemma NestedReplaced(
      lib: Library, fields: seq<Field>, m: Members, pre: Bytes, f: Field, sub: Bytes, sub': Bytes, post: Bytes)
    requires Wires(pre).Ok? && Find(fields, f.number) == Some(f) && f.number < U32
    requires |sub| < U64 && |sub'| < U64 && SameNested(lib, f.codec, sub, sub')
    ensures DecodeBytes(lib, fields, m, pre + Chunk(f.number, sub).Printed() + post)
         == DecodeBytes(lib, fields, m, pre + Chunk(f.number, sub').Printed() + post)
  {
    DecodeAround(lib, fields, m, pre, Chunk(f.number, sub), post);
    DecodeAround(lib, fields, m, pre, Chunk(f.number, sub'), post);
    var r := DecodeWires(lib, fields, m, Wires(pre).value);
    if r.Ok? {
      SameApply(lib, f, r.value, sub, sub');
    }
  }

  lemma SameApply(lib: Library, f: Field, m: Members, sub: Bytes, sub': Bytes)
    requires SameNested(lib, f.codec, sub, sub')
    ensures ApplyField(lib, f, m, Chunk(f.number, sub)) == ApplyField(lib, f, m, Chunk(f.number, sub'))
  {
  }

  lemma DecodeAround(lib: Library, fields: seq<Field>, m: Members, pre: Bytes, w: Wire, post: Bytes)
    requires Wires(pre).Ok? && w.Valid()
    ensures DecodeBytes(lib, fields, m, pre + w.Printed() + post)
         == if Wires(post).Err? then Err
            else
              var r := DecodeWires(lib, fields, m, Wires(pre).value);
              if r.Err? then Err
              else
                var r' := ApplyWire(lib, fields, r.value, w);
                if r'.Err? then Err else DecodeWires(lib, fields, r'.value, Wires(post).value)
  {
    WiresPrinted(w);
    WiresConcat(pre, w.Printed());
    WiresConcat(pre + w.Printed(), post);
    if Wires(post).Ok? {
      var a, b := Wires(pre).value, Wires(post).value;
      DecodeConcat(lib, fields, m, a, [w]);
      DecodeConcat(lib, fields, m, a + [w], b);
      var r := DecodeWires(lib, fields, m, a);
      if r.Ok? {
        assert [w][1..] == [];
        assert DecodeWires(lib, fields, r.value, [w]) == ApplyWire(lib, fields, r.value, w);
      }
    }
  }
}
