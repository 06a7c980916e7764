/**
 Protocol Buffers wire format as written and read by bud/src/proto_wire.rs:
 base-128 varints, field tags, and the four wire types the reader accepts.

 `Print` and `Wires` are the two halves of the format on whole messages: a message is a
 sequence of `Wire` fields.  The cursor reader of the program is the class `ProtoReader`,
 whose methods are proved against these functions.
 */
module WireFormat {
  import opened Wrappers
  import opened Collections

  const U32: nat := 0x1_0000_0000
  const U64: nat := 0x1_0000_0000_0000_0000

  const WIRE_VARINT := 0
  const WIRE_64_BIT := 1
  const WIRE_LENGTH_DELIMITED := 2
  const WIRE_32_BIT := 5

  // ---------------------------------------------------------------------------
  // Varints
  // ---------------------------------------------------------------------------

  /** The bytes of a varint: seven bits a byte, least significant first. */
  function Varint(v: nat): (s: Bytes)
    ensures |s| >= 1
  {
    if v < 128 then [v as Byte] else [(v % 128 + 128) as Byte] + Varint(v / 128)
  }

  /** The number spelled by at most `k` varint bytes, and how many bytes it takes. */
  function Digits(s: Bytes, k: nat): (r: Result<(nat, nat)>)
    ensures r.Ok? ==> 0 < r.value.1 <= |s|
  {
    if s == [] || k == 0 then Err
    else if s[0] < 128 then Ok((s[0] as int, 1))
    else
      var t :- Digits(s[1..], k - 1);
      Ok((s[0] as int - 128 + 128 * t.0, t.1 + 1))
  }

  /**
   The varint at the head of `s` and the number of bytes it takes: ten bytes at most, and only
   the low 64 bits are kept.
   */
  function ReadVarint(s: Bytes): (r: Result<(nat, nat)>)
    ensures r.Ok? ==> 0 < r.value.1 <= |s| && r.value.0 < U64
  {
    var d :- Digits(s, 10);
    Ok((d.0 % U64, d.1))
  }

  function Pow128(i: nat): (p: nat)
    ensures p >= 1
  {
    if i == 0 then 1 else 128 * Pow128(i - 1)
  }

  lemma {:induction false} DigitsPrinted(v: nat, k: nat, rest: Bytes)
    requires v < Pow128(k)
    ensures k >= 1 ==> Digits(Varint(v) + rest, k) == Ok((v, |Varint(v)|))
  {
    if k >= 1 && v >= 128 {
      var s := Varint(v) + rest;
      assert s[0] == (v % 128 + 128) as Byte;
      assert s[1..] == Varint(v / 128) + rest;
      assert k >= 2;
      DigitsPrinted(v / 128, k - 1, rest);
    }
  }

  /** Every u64 value survives `write_varint` followed by `read_varint`. */
  lemma VarintRoundTrip(v: nat, rest: Bytes)
    requires v < U64
    ensures ReadVarint(Varint(v) + rest) == Ok((v, |Varint(v)|))
  {
    assert U64 <= Pow128(10);
    DigitsPrinted(v, 10, rest);
  }

  lemma {:induction false} DigitsPrefix(s: Bytes, t: Bytes, k: nat)
    requires Digits(s, k).Ok?
    ensures Digits(s + t, k) == Digits(s, k)
  {
    assert (s + t)[0] == s[0];
    if s[0] >= 128 {
      assert (s + t)[1..] == s[1..] + t;
      DigitsPrefix(s[1..], t, k - 1);
    }
  }

  // ---------------------------------------------------------------------------
  // Fields and messages
  // ---------------------------------------------------------------------------

  /** One field of a message, by wire type. */
  datatype Wire =
    | Number(number: nat, value: nat)
    | Fixed64(number: nat, bytes: Bytes)
    | Chunk(number: nat, bytes: Bytes)
    | Fixed32(number: nat, bytes: Bytes)
  {
    function WireType(): nat {
      match this
      case Number(_, _) => WIRE_VARINT
      case Fixed64(_, _) => WIRE_64_BIT
      case Chunk(_, _) => WIRE_LENGTH_DELIMITED
      case Fixed32(_, _) => WIRE_32_BIT
    }

    /** Field numbers are u32, values u64, and lengths fit in 64 bits. */
    predicate Valid() {
      && number < U32
      && match this
         case Number(_, v) => v < U64
         case Fixed64(_, b) => |b| == 8
         case Chunk(_, b) => |b| < U64
         case Fixed32(_, b) => |b| == 4
    }

    function Body(): Bytes {
      match this
      case Number(_, v) => Varint(v)
      case Fixed64(_, b) => b
      case Chunk(_, b) => Varint(|b|) + b
      case Fixed32(_, b) => b
    }

    function Printed(): Bytes {
      Varint(number * 8 + WireType()) + Body()
    }
  }

  function Print(ws: seq<Wire>): Bytes {
    if ws == [] then [] else ws[0].Printed() + Print(ws[1..])
  }

  /** The field whose tag has just been read, and the number of bytes its body takes. */
  function ReadBody(number: nat, wireType: nat, s: Bytes): (r: Result<(Wire, nat)>)
    ensures r.Ok? ==> r.value.1 <= |s| && r.value.0.number == number && r.value.0.WireType() == wireType
  {
    if wireType == WIRE_VARINT then
      var v :- ReadVarint(s);
      Ok((Number(number, v.0), v.1))
    else if wireType == WIRE_64_BIT then
      if |s| < 8 then Err else Ok((Fixed64(number, s[..8]), 8))
    else if wireType == WIRE_LENGTH_DELIMITED then
      var v :- ReadVarint(s);
      if v.1 + v.0 > |s| then Err else Ok((Chunk(number, s[v.1..v.1 + v.0]), v.1 + v.0))
    else if wireType == WIRE_32_BIT then
      if |s| < 4 then Err else Ok((Fixed32(number, s[..4]), 4))
    else
      Err
  }

  /** The field at the head of `s`; the field number is the tag's upper bits cut to 32 bits. */
  function ReadWire(s: Bytes): (r: Result<(Wire, nat)>)
    ensures r.Ok? ==> 0 < r.value.1 <= |s|
  {
    var tag :- ReadVarint(s);
    var body :- ReadBody(tag.0 / 8 % U32, tag.0 % 8, s[tag.1..]);
    Ok((body.0, tag.1 + body.1))
  }

  /** All fields of a message, or failure when it is not a sequence of whole fields. */
  function Wires(s: Bytes): Result<seq<Wire>>
    decreases |s|
  {
    if s == [] then Ok([])
    else
      var head :- ReadWire(s);
      var tail :- Wires(s[head.1..]);
      Ok([head.0] + tail)
  }

  /** Reading a field is reading its tag and then its body. */
  lemma TagThenBody(s: Bytes)
    requires ReadVarint(s).Ok?
    ensures
      var tag := ReadVarint(s).value;
      var body := ReadBody(tag.0 / 8 % U32, tag.0 % 8, s[tag.1..]);
      if body.Err? then ReadWire(s).Err?
      else
        && ReadWire(s) == Ok((body.value.0, tag.1 + body.value.1))
        && s[tag.1..][body.value.1..] == s[ReadWire(s).value.1..]
  {
  }

  lemma BodyRoundTrip(w: Wire, rest: Bytes)
    requires w.Valid()
    ensures ReadBody(w.number, w.WireType(), w.Body() + rest) == Ok((w, |w.Body()|))
  {
    match w
    case Number(_, v) => VarintRoundTrip(v, rest);
    case Chunk(_, b) =>
      VarintRoundTrip(|b|, b + rest);
      assert w.Body() + rest == Varint(|b|) + (b + rest);
    case _ =>
  }

  lemma TagParts(number: nat, wireType: nat)
    requires number < U32 && wireType < 8
    ensures number * 8 + wireType < U64
    ensures (number * 8 + wireType) / 8 % U32 == number && (number * 8 + wireType) % 8 == wireType
  {
  }

  lemma WireRoundTrip(w: Wire, rest: Bytes)
    requires w.Valid()
    ensures ReadWire(w.Printed() + rest) == Ok((w, |w.Printed()|))
  {
    var tag, body := w.number * 8 + w.WireType(), w.Body();
    var s := Varint(tag) + (body + rest);
    Append(Varint(tag), body, rest);
    assert s[|Varint(tag)|..] == body + rest;
    TagParts(w.number, w.WireType());
    VarintRoundTrip(tag, body + rest);
    BodyRoundTrip(w, rest);
    TagThenBody(s);
  }

  lemma BodyPrefix(number: nat, wireType: nat, s: Bytes, t: Bytes)
    requires ReadBody(number, wireType, s).Ok?
    ensures ReadBody(number, wireType, s + t) == ReadBody(number, wireType, s)
  {
    if wireType == WIRE_VARINT || wireType == WIRE_LENGTH_DELIMITED {
      DigitsPrefix(s, t, 10);
      var v := ReadVarint(s).value;
      if wireType == WIRE_LENGTH_DELIMITED {
        assert (s + t)[v.1..v.1 + v.0] == s[v.1..v.1 + v.0];
      }
    } else {
      var n := if wireType == WIRE_64_BIT then 8 else 4;
      assert (s + t)[..n] == s[..n];
    }
  }

  lemma WirePrefix(s: Bytes, t: Bytes)
    requires ReadWire(s).Ok?
    ensures ReadWire(s + t) == ReadWire(s)
  {
    DigitsPrefix(s, t, 10);
    var tag := ReadVarint(s).value;
    assert (s + t)[tag.1..] == s[tag.1..] + t;
    BodyPrefix(tag.0 / 8 % U32, tag.0 % 8, s[tag.1..], t);
  }

  lemma WiresCons(s: Bytes, w: Wire, n: nat, t: Bytes)
    requires ReadWire(s) == Ok((w, n)) && t == s[n..]
    ensures Wires(s) == if Wires(t).Ok? then Ok([w] + Wires(t).value) else Err
  {
  }

  /** A boundary between fields splits a message into two messages. */
  lemma {:induction false} WiresConcat(s: Bytes, t: Bytes)
    requires Wires(s).Ok?
    ensures Wires(s + t) == if Wires(t).Ok? then Ok(Wires(s).value + Wires(t).value) else Err
    decreases |s|
  {
    if s == [] {
      assert s + t == t;
      assert Wires(t).Ok? ==> [] + Wires(t).value == Wires(t).value;
    } else {
      var head := ReadWire(s).value;
      var tail := s[head.1..];
      WirePrefix(s, t);
      assert (s + t)[head.1..] == tail + t;
      WiresCons(s, head.0, head.1, tail);
      WiresCons(s + t, head.0, head.1, tail + t);
      WiresConcat(tail, t);
      if Wires(t).Ok? {
        Append([head.0], Wires(tail).value, Wires(t).value);
      }
    }
  }

  lemma WiresPrinted(w: Wire)
    requires w.Valid()
    ensures Wires(w.Printed()) == Ok([w])
  {
    WireRoundTrip(w, []);
    assert w.Printed() + [] == w.Printed();
    WiresCons(w.Printed(), w, |w.Printed()|, []);
    assert [w] + [] == [w];
  }

  /** Reading a printed message gives its fields back. */
  lemma {:induction false} PrintRoundTrip(ws: seq<Wire>)
    requires forall w :: w in ws ==> w.Valid()
    ensures Wires(Print(ws)) == Ok(ws)
  {
    if ws != [] {
      WiresPrinted(ws[0]);
      PrintRoundTrip(ws[1..]);
      WiresConcat(ws[0].Printed(), Print(ws[1..]));
      assert [ws[0]] + ws[1..] == ws;
    }
  }

  lemma SmallVarint(v: nat)
    requires v < 128
    ensures Varint(v) == [v as Byte]
  {
  }

  /** The bytes that the Protocol Buffers encoding specification prescribes, wire type by wire type. */
  lemma SpecifiedBytes(number: nat, v: nat, bytes: Bytes)
    requires number < 16 && v < 128 && |bytes| < 128
    ensures Number(number, v).Printed() == [(number * 8 + 0) as Byte] + [v as Byte]
    ensures Fixed64(number, bytes).Printed() == [(number * 8 + 1) as Byte] + bytes
    ensures Chunk(number, bytes).Printed() == [(number * 8 + 2) as Byte] + ([|bytes| as Byte] + bytes)
    ensures Fixed32(number, bytes).Printed() == [(number * 8 + 5) as Byte] + bytes
  {
    SmallVarint(number * 8 + 0);
    SmallVarint(number * 8 + 1);
    SmallVarint(number * 8 + 2);
    SmallVarint(number * 8 + 5);
    SmallVarint(v);
    SmallVarint(|bytes|);
  }

  lemma {:induction false} PrintConcat(a: seq<Wire>, b: seq<Wire>)
    ensures Print(a + b) == Print(a) + Print(b)
  {
    if a == [] {
      assert a + b == b;
    } else {
      calc {
        Print(a + b);
        { assert (a + b)[0] == a[0]; assert (a + b)[1..] == a[1..] + b; }
        a[0].Printed() + Print(a[1..] + b);
        { PrintConcat(a[1..], b); }
        a[0].Printed() + (Print(a[1..]) + Print(b));
        Print(a) + Print(b);
      }
    }
  }

  // ---------------------------------------------------------------------------
  // The writer
  // ---------------------------------------------------------------------------

  /** The growing output vector of the encoder. */
  class Buffer {
    var data: Bytes

    constructor ()
      ensures data == []
    {
      data := [];
    }

    method WriteVarint(value: nat)
      modifies this
      ensures data == old(data) + Varint(value)
    {
      var rest := value;
      while rest >= 128
        invariant data + Varint(rest) == old(data) + Varint(value)
      {
        data := data + [(rest % 128 + 128) as Byte];
        rest := rest / 128;
      }
      data := data + [rest as Byte];
    }

    method WriteVarintField(number: nat, value: nat)
      modifies this
      ensures data == old(data) + Number(number, value).Printed()
    {
      Append(old(data), Varint(number * 8 + WIRE_VARINT), Varint(value));
      WriteVarint(number * 8 + WIRE_VARINT);
      WriteVarint(value);
    }

    method WriteBytes(number: nat, value: Bytes)
      modifies this
      ensures data == old(data) + Chunk(number, value).Printed()
    {
      ghost var tag, length := Varint(number * 8 + WIRE_LENGTH_DELIMITED), Varint(|value|);
      Append(old(data), tag, length);
      Append(old(data), tag + length, value);
      Append(tag, length, value);
      WriteVarint(number * 8 + WIRE_LENGTH_DELIMITED);
      WriteVarint(|value|);
      data := data + value;
    }
  }

  // ---------------------------------------------------------------------------
  // The cursor reader
  // ---------------------------------------------------------------------------

  /** The first `i` bytes of `s` continue and spell `low`; what follows spells the rest of the number. */
  ghost predicate Tail(s: Bytes, i: nat, low: nat) {
    && i <= |s| && i <= 10
    && var whole, tail := Digits(s, 10), Digits(s[i..], 10 - i);
       && (whole.Ok? <==> tail.Ok?)
       && (whole.Ok? ==> whole.value == (low + Pow128(i) * tail.value.0, i + tail.value.1))
  }

  lemma TailUnfold(s: Bytes, i: nat)
    requires i < |s| && i <= 9
    ensures
      var tail, next := Digits(s[i..], 10 - i), Digits(s[i + 1..], 9 - i);
      && (s[i] < 128 ==> tail == Ok((s[i] as int, 1)))
      && (s[i] >= 128 ==> (tail.Ok? <==> next.Ok?))
      && (s[i] >= 128 && next.Ok? ==>
            tail.value == (s[i] as int - 128 + 128 * next.value.0, next.value.1 + 1))
  {
    assert s[i..][0] == s[i] && s[i..][1..] == s[i + 1..];
  }

  /** A byte that ends the varint ... */
  lemma DigitEnds(s: Bytes, i: nat, low: nat, p: nat, sum: nat)
    requires i < |s| && i < 9 && p == Pow128(i) && Tail(s, i, low) && s[i] < 128
    requires sum == low + (s[i] as int) * p && sum < U64
    ensures ReadVarint(s) == Ok((sum, i + 1))
  {
    TailUnfold(s, i);
    assert p * (s[i] as int) == (s[i] as int) * p;
  }

  /** ... and one that continues it. */
  lemma DigitContinues(s: Bytes, i: nat, low: nat, p: nat, digit: nat)
    requires i < |s| && i < 9 && p == Pow128(i) && Tail(s, i, low) && s[i] >= 128
    requires digit == s[i] as int - 128
    ensures Tail(s, i + 1, low + digit * p)
  {
    TailUnfold(s, i);
    if Digits(s, 10).Ok? {
      Distribute(p, digit, Digits(s[i + 1..], 9 - i).value.0);
    }
  }

  lemma Distribute(p: nat, digit: nat, t: nat)
    ensures p * (digit + 128 * t) == digit * p + (128 * p) * t
  {
  }

  /** The tenth byte: one bit is kept, and it has to be the last byte. */
  lemma LastDigitStep(s: Bytes, low: nat, p: nat, sum: nat)
    requires 9 < |s| && p == 0x8000_0000_0000_0000 && low < p && Tail(s, 9, low)
    requires sum == low + (s[9] as int % 128 * p) % U64
    ensures s[9] < 128 ==> ReadVarint(s) == Ok((sum, 10))
    ensures s[9] >= 128 ==> ReadVarint(s).Err?
  {
    TailUnfold(s, 9);
    Pow128Of9();
    var d := s[9] as int % 128;
    LowBitKept(d, low);
  }

  lemma LowBitKept(d: nat, low: nat)
    requires low < 0x8000_0000_0000_0000
    ensures (low + 0x8000_0000_0000_0000 * d) % U64 == low + (d * 0x8000_0000_0000_0000) % U64
  {
    var h, b := d / 2, d % 2;
    assert d == 2 * h + b;
    ModUnique(0x8000_0000_0000_0000 * b, h, d * 0x8000_0000_0000_0000);
    ModUnique(low + 0x8000_0000_0000_0000 * b, h, low + 0x8000_0000_0000_0000 * d);
  }

  lemma ModUnique(r: nat, q: nat, n: nat)
    requires r < U64 && n == U64 * q + r
    ensures n % U64 == r
  {
  }

  lemma Pow128Of9()
    ensures Pow128(9) == 0x8000_0000_0000_0000
  {
  }

  lemma DigitFits(digit: nat, i: nat)
    requires digit < 128 && i < 9
    ensures digit * Pow128(i) + Pow128(i) <= Pow128(i + 1) < U64
    ensures (digit * Pow128(i)) % U64 == digit * Pow128(i)
  {
    Pow128Monotonic(i + 1, 9);
    Pow128Of9();
    assert (digit + 1) * Pow128(i) <= 128 * Pow128(i);
  }

  lemma {:induction false} Pow128Monotonic(i: nat, j: nat)
    requires i <= j
    ensures Pow128(i) <= Pow128(j)
  {
    if i < j {
      Pow128Monotonic(i, j - 1);
    }
  }

  /** One turn of the reading loop. */
  lemma ReadStep(s: Bytes, i: nat, low: nat, sum: nat)
    requires i < |s| && i <= 9 && low < Pow128(i) && Tail(s, i, low)
    requires sum == low + (s[i] as int % 128 * Pow128(i)) % U64
    ensures s[i] < 128 ==> ReadVarint(s) == Ok((sum, i + 1))
    ensures s[i] >= 128 && i < 9 ==> sum < Pow128(i + 1) && Tail(s, i + 1, sum)
    ensures s[i] >= 128 && i == 9 ==> ReadVarint(s).Err?
  {
    var p := Pow128(i);
    if i == 9 {
      Pow128Of9();
      LastDigitStep(s, low, p, sum);
    } else {
      DigitFits(s[i] as int % 128, i);
      if s[i] < 128 {
        DigitEnds(s, i, low, p, sum);
      } else {
        DigitContinues(s, i, low, p, s[i] as int % 128);
      }
    }
  }

  /** A cursor over an encoded message.  After a failed read the cursor is not used again. */
  class ProtoReader {
    const bytes: Bytes
    var offset: nat

    ghost predicate Valid()
      reads this
    {
      offset <= |bytes|
    }

    ghost function Rest(): Bytes
      requires Valid()
      reads this
    {
      bytes[offset..]
    }

    constructor (bytes: Bytes)
      ensures this.bytes == bytes && offset == 0 && Valid() && Rest() == bytes
    {
      this.bytes := bytes;
      offset := 0;
    }

    predicate Done()
      reads this
    {
      offset >= |bytes|
    }

    method NextVarint() returns (r: Result<nat>)
      requires Valid()
      modifies this
      ensures r.Ok? <==> ReadVarint(old(Rest())).Ok?
      ensures r.Ok? ==>
        var read := ReadVarint(old(Rest())).value;
        Valid() && r.value == read.0 && old(offset) < offset && Rest() == old(Rest())[read.1..]
    {
      ghost var rest := Rest();
      ghost var i := 0;
      var result: nat, shift: nat := 0, 0;
      while offset < |bytes|
        invariant Valid() && i <= 9 && shift == 7 * i && offset == old(offset) + i
        invariant result < Pow128(i) && Tail(rest, i, result)
      {
        var byte := bytes[offset] as int;
        assert byte == rest[i] as int;
        offset := offset + 1;
        ghost var low := result;
        result := result + (byte % 128 * Pow128(shift / 7)) % U64;
        ReadStep(rest, i, low, result);
        if byte < 128 {
          assert Rest() == rest[i + 1..];
          return Ok(result);
        }
        i := i + 1;
        shift := shift + 7;
        if shift > 63 {
          return Err;
        }
      }
      return Err;
    }

    method NextTag() returns (r: Result<(nat, nat)>)
      requires Valid()
      modifies this
      ensures r.Ok? <==> ReadVarint(old(Rest())).Ok?
      ensures r.Ok? ==>
        var tag := ReadVarint(old(Rest())).value;
        && Valid() && old(offset) < offset && Rest() == old(Rest())[tag.1..]
        && r.value == (tag.0 / 8 % U32, tag.0 % 8)
    {
      var tag :- NextVarint();
      return Ok((tag / 8 % U32, tag % 8));
    }

    method VarintForWireType(ghost number: nat, wireType: nat) returns (r: Result<nat>)
      requires Valid()
      modifies this
      ensures
        var read := ReadBody(number, wireType, old(Rest()));
        if r.Ok? then
          && Valid() && old(offset) < offset && read.Ok?
          && read.value.0 == Number(number, r.value) && Rest() == old(Rest())[read.value.1..]
        else
          read.Err? || !read.value.0.Number?
    {
      if wireType != WIRE_VARINT {
        return Err;
      }
      r := NextVarint();
    }

    method BytesForWireType(ghost number: nat, wireType: nat) returns (r: Result<Bytes>)
      requires Valid()
      modifies this
      ensures
        var read := ReadBody(number, wireType, old(Rest()));
        if r.Ok? then
          && Valid() && old(offset) < offset && read.Ok?
          && read.value.0 == Chunk(number, r.value) && Rest() == old(Rest())[read.value.1..]
        else
          read.Err? || !read.value.0.Chunk?
    {
      if wireType != WIRE_LENGTH_DELIMITED {
        return Err;
      }
      var length :- NextVarint();
      var start := offset;
      var end := start + length;
      if end > |bytes| {
        return Err;
      }
      offset := end;
      return Ok(bytes[start..end]);
    }

    method Skip(ghost number: nat, wireType: nat) returns (r: Result<()>)
      requires Valid()
      modifies this
      ensures
        var read := ReadBody(number, wireType, old(Rest()));
        && (r.Ok? <==> read.Ok?)
        && (r.Ok? ==> Valid() && old(offset) <= offset && Rest() == old(Rest())[read.value.1..])
    {
      if wireType == WIRE_VARINT {
        var _ :- NextVarint();
      } else if wireType == WIRE_64_BIT {
        offset := offset + 8;
      } else if wireType == WIRE_LENGTH_DELIMITED {
        var length :- NextVarint();
        offset := offset + length;
      } else if wireType == WIRE_32_BIT {
        offset := offset + 4;
      } else {
        return Err;
      }
      if offset > |bytes| {
        return Err;
      }
      return Ok(());
    }
  }
}
