/** The binary form of row images and column lists (internal/store/codec.go).
    Integers use the Protocol Buffers encoding, "Base 128 Varints" and "Signed
    Integers". A parser takes a value from the front of the bytes and returns what
    is left. */
module Codec {
  import opened Wrappers
  import opened Change
  import opened Numbers

  type byte = b: int | 0 <= b < 256

  const CODEC_VERSION: byte := 1

  datatype Error =
    | Truncated
    | Overflow
    | NewerVersion
    | BadBool
    | BadNanos
    | BadRaw
    | UnknownTag
    | UnknownFlags
    | TrailingBytes
    | UnsupportedType

  const TAG_NULL: byte := 0
  const TAG_INT: byte := 1
  const TAG_UINT: byte := 2
  const TAG_FLOAT32: byte := 3
  const TAG_FLOAT64: byte := 4
  const TAG_BOOL: byte := 5
  const TAG_STRING: byte := 6
  const TAG_BYTES: byte := 7
  const TAG_TIME: byte := 8
  const TAG_RAW: byte := 9

  function ToBytes(t: Text): seq<byte> { seq(|t|, i requires 0 <= i < |t| => t[i] as int) }

  function FromBytes(b: seq<byte>): Text { seq(|b|, i requires 0 <= i < |b| => b[i] as char) }

  // ---------- Writing ----------

  /** binary.AppendUvarint */
  function Uvarint(n: nat): (b: seq<byte>)
    ensures b != []
  {
    if n < 128 then [n] else [n % 128 + 128] + Uvarint(n / 128)
  }

  function ZigZag(i: int): nat { if i >= 0 then 2 * i else -2 * i - 1 }

  function UnZigZag(u: nat): int { if u % 2 == 0 then u / 2 else -(u / 2) - 1 }

  /** k bytes, least significant first. */
  function LittleEndian(x: nat, k: nat): (b: seq<byte>)
    ensures |b| == k
  {
    if k == 0 then [] else [x % 256] + LittleEndian(x / 256, k - 1)
  }

  function FromLittleEndian(b: seq<byte>): nat {
    if b == [] then 0 else b[0] + 256 * FromLittleEndian(b[1..])
  }

  function LenPrefixed(t: Text): seq<byte> { Uvarint(|t|) + ToBytes(t) }

  function EncodeValue(v: Value): Result<seq<byte>, Error> {
    match v
    case Null => Ok([TAG_NULL])
    case Bool(b) => Ok([TAG_BOOL, if b then 1 else 0])
    case Int(_, i) => Ok([TAG_INT] + Uvarint(ZigZag(i)))
    case Uint(_, u) => Ok([TAG_UINT] + Uvarint(u))
    case Float32(x) => Ok([TAG_FLOAT32] + LittleEndian(x, 4))
    case Float64(x) => Ok([TAG_FLOAT64] + LittleEndian(x, 8))
    case Str(s) => Ok([TAG_STRING] + LenPrefixed(s))
    case Bytes(s) => Ok([TAG_BYTES] + LenPrefixed(s))
    case Time(sec, nsec, _) => Ok([TAG_TIME] + (Uvarint(ZigZag(sec)) + Uvarint(nsec)))
    case Raw(t) => if ValidRaw(t) then Ok([TAG_RAW] + LenPrefixed(t)) else Err(BadRaw)
    case Unsupported(_) => Err(UnsupportedType)
  }

  /** The encodings of xs[i..], one after another, or the first error among them. */
  function EncodeMany<T>(encode: T -> Result<seq<byte>, Error>, xs: seq<T>, i: nat): Result<seq<byte>, Error>
    requires i <= |xs|
    decreases |xs| - i
  {
    if i == |xs| then Ok([])
    else
      var x :- encode(xs[i]);
      var rest :- EncodeMany(encode, xs, i + 1);
      Ok(x + rest)
  }

  /** A version, a count and the items. */
  function EncodeList<T>(encode: T -> Result<seq<byte>, Error>, xs: seq<T>): Result<seq<byte>, Error> {
    var body :- EncodeMany(encode, xs, 0);
    Ok([CODEC_VERSION] + (Uvarint(|xs|) + body))
  }

  function EncodeRow(row: Row): Result<seq<byte>, Error> { EncodeList(EncodeValue, row) }

  function Flags(c: Column): byte { (if c.primaryKey then 1 else 0) + (if c.readOnly then 2 else 0) }

  function EncodeColumn(c: Column): Result<seq<byte>, Error> { Ok(LenPrefixed(c.name) + [Flags(c)]) }

  function EncodeColumns(cols: seq<Column>): Result<seq<byte>, Error> { EncodeList(EncodeColumn, cols) }

  // ---------- Reading ----------

  /** A parsed value and the bytes after it. */
  datatype Parsed<+T> = Parsed(value: T, rest: seq<byte>)

  type Parse<+T> = Result<Parsed<T>, Error>

  function ReadByte(s: seq<byte>): (r: Parse<byte>)
    ensures r.Ok? ==> |r.value.rest| < |s|
  {
    if s == [] then Err(Truncated) else Ok(Parsed(s[0], s[1..]))
  }

  /** What the bytes of a varint from the k-th on may still add up to. */
  function Limit(k: nat): nat
    requires k <= 9
    decreases 9 - k
  {
    if k == 9 then 2 else 128 * Limit(k + 1)
  }

  /** binary.Uvarint from its k-th byte: more than ten bytes, or a tenth byte above
      one, does not fit in 64 bits. A longer form than needed is accepted. */
  function ReadUvarintFrom(s: seq<byte>, k: nat): (r: Parse<nat>)
    requires k <= 10
    ensures r.Ok? ==> |r.value.rest| < |s|
    decreases |s|
  {
    if s == [] then Err(Truncated)
    else if k == 10 then Err(Overflow)
    else if s[0] < 128 then
      if k == 9 && s[0] > 1 then Err(Overflow) else Ok(Parsed(s[0], s[1..]))
    else
      var r :- ReadUvarintFrom(s[1..], k + 1);
      Ok(Parsed(s[0] - 128 + 128 * r.value, r.rest))
  }

  lemma {:induction false} UvarintBound(s: seq<byte>, k: nat)
    requires k <= 10 && ReadUvarintFrom(s, k).Ok?
    ensures k <= 9 && ReadUvarintFrom(s, k).value.value < Limit(k)
    decreases |s|
  {
    if s[0] >= 128 {
      UvarintBound(s[1..], k + 1);
      assert Limit(k) == 128 * Limit(k + 1);
    } else if k < 9 {
      LimitIsLarge(k);
    }
  }

  lemma {:induction false} LimitIsLarge(k: nat)
    requires k < 9
    ensures Limit(k) >= 128
    decreases 9 - k
  {
    if k == 8 { assert Limit(9) == 2; } else { LimitIsLarge(k + 1); }
  }

  lemma LimitIs64Bits()
    ensures Limit(0) == 0x1_0000_0000_0000_0000
  {
    assert Limit(8) == 256;
    assert Limit(6) == 128 * 128 * 256;
    assert Limit(4) == 128 * 128 * 128 * 128 * 256;
    assert Limit(2) == 128 * 128 * 128 * 128 * 128 * 128 * 256;
  }

  function ReadUvarint(s: seq<byte>): (r: Parse<Uint64>)
    ensures r.Ok? ==> |r.value.rest| < |s|
  {
    var r :- ReadUvarintFrom(s, 0);
    LimitIs64Bits();
    UvarintBound(s, 0);
    Ok(Parsed(r.value, r.rest))
  }

  function ReadVarint(s: seq<byte>): (r: Parse<Int64>)
    ensures r.Ok? ==> |r.value.rest| < |s|
  {
    var r :- ReadUvarint(s);
    Ok(Parsed(UnZigZag(r.value), r.rest))
  }

  function Take(s: seq<byte>, n: nat): (r: Parse<seq<byte>>)
    ensures r.Ok? ==> |r.value.value| == n && |r.value.rest| == |s| - n
  {
    if n > |s| then Err(Truncated) else Ok(Parsed(s[..n], s[n..]))
  }

  function ReadLenPrefixed(s: seq<byte>): (r: Parse<Text>)
    ensures r.Ok? ==> |r.value.rest| < |s|
  {
    var n :- ReadUvarint(s);
    var t :- Take(n.rest, n.value);
    Ok(Parsed(FromBytes(t.value), t.rest))
  }

  lemma {:induction false} LittleEndianBound(b: seq<byte>)
    ensures |b| == 4 ==> FromLittleEndian(b) < 0x1_0000_0000
    ensures |b| == 8 ==> FromLittleEndian(b) < 0x1_0000_0000_0000_0000
  {
    if |b| == 4 { BelowPower(b, 4); }
    if |b| == 8 { BelowPower(b, 8); }
  }

  function Power256(k: nat): nat { if k == 0 then 1 else 256 * Power256(k - 1) }

  lemma {:induction false} BelowPower(b: seq<byte>, k: nat)
    requires |b| == k
    ensures FromLittleEndian(b) < Power256(k)
    ensures k == 4 ==> Power256(k) == 0x1_0000_0000
    ensures k == 8 ==> Power256(k) == 0x1_0000_0000_0000_0000
  {
    if k > 0 { BelowPower(b[1..], k - 1); }
    if k == 4 { assert Power256(2) == 65536; }
    if k == 8 {
      assert Power256(2) == 65536;
      assert Power256(4) == 0x1_0000_0000;
      assert Power256(6) == 0x1_0000_0000_0000;
    }
  }

  function ReadFloat32(s: seq<byte>): (r: Parse<Value>)
    ensures r.Ok? ==> |r.value.rest| < |s|
  {
    var t :- Take(s, 4);
    LittleEndianBound(t.value);
    Ok(Parsed(Float32(FromLittleEndian(t.value)), t.rest))
  }

  function ReadFloat64(s: seq<byte>): (r: Parse<Value>)
    ensures r.Ok? ==> |r.value.rest| < |s|
  {
    var t :- Take(s, 8);
    LittleEndianBound(t.value);
    Ok(Parsed(Float64(FromLittleEndian(t.value)), t.rest))
  }

  function ReadBool(s: seq<byte>): (r: Parse<Value>)
    ensures r.Ok? ==> |r.value.rest| < |s|
  {
    var c :- ReadByte(s);
    if c.value > 1 then Err(BadBool) else Ok(Parsed(Bool(c.value == 1), c.rest))
  }

  function ReadTime(s: seq<byte>): (r: Parse<Value>)
    ensures r.Ok? ==> |r.value.rest| < |s|
  {
    var sec :- ReadVarint(s);
    var nsec :- ReadUvarint(sec.rest);
    if nsec.value > 999_999_999 then Err(BadNanos)
    else Ok(Parsed(Time(sec.value, nsec.value, 0), nsec.rest))
  }

  function ReadRaw(s: seq<byte>): (r: Parse<Value>)
    ensures r.Ok? ==> |r.value.rest| < |s|
  {
    var t :- ReadLenPrefixed(s);
    if ValidRaw(t.value) then Ok(Parsed(Raw(t.value), t.rest)) else Err(BadRaw)
  }

  /** What follows a tag. */
  function ReadTagged(tag: byte, s: seq<byte>): (r: Parse<Value>)
    ensures r.Ok? ==> |r.value.rest| <= |s|
  {
    if tag == TAG_NULL then Ok(Parsed(Null, s))
    else if tag == TAG_INT then var r :- ReadVarint(s); Ok(Parsed(Int(W64, r.value), r.rest))
    else if tag == TAG_UINT then var r :- ReadUvarint(s); Ok(Parsed(Uint(W64, r.value), r.rest))
    else if tag == TAG_FLOAT32 then ReadFloat32(s)
    else if tag == TAG_FLOAT64 then ReadFloat64(s)
    else if tag == TAG_BOOL then ReadBool(s)
    else if tag == TAG_STRING then var r :- ReadLenPrefixed(s); Ok(Parsed(Str(r.value), r.rest))
    else if tag == TAG_BYTES then var r :- ReadLenPrefixed(s); Ok(Parsed(Bytes(r.value), r.rest))
    else if tag == TAG_TIME then ReadTime(s)
    else if tag == TAG_RAW then ReadRaw(s)
    else Err(UnknownTag)
  }

  function ReadValue(s: seq<byte>): (r: Parse<Value>)
    ensures r.Ok? ==> |r.value.rest| < |s|
  {
    var tag :- ReadByte(s);
    ReadTagged(tag.value, tag.rest)
  }

  /** n items, one after another. */
  function ReadMany<T>(read: seq<byte> -> Parse<T>, s: seq<byte>, n: nat): (r: Parse<seq<T>>)
    ensures r.Ok? ==> |r.value.value| == n
    decreases n
  {
    if n == 0 then Ok(Parsed([], s))
    else
      var x :- read(s);
      var xs :- ReadMany(read, x.rest, n - 1);
      Ok(Parsed([x.value] + xs.value, xs.rest))
  }

  function ReadColumn(s: seq<byte>): (r: Parse<Column>)
    ensures r.Ok? ==> |r.value.rest| + 2 <= |s|
  {
    var name :- ReadLenPrefixed(s);
    var flags :- ReadByte(name.rest);
    if flags.value >= 4 then Err(UnknownFlags)
    else Ok(Parsed(Column(name.value, flags.value % 2 == 1, flags.value / 2 == 1), flags.rest))
  }

  function CheckVersion(s: seq<byte>): (r: Parse<byte>)
    ensures r.Ok? ==> |r.value.rest| < |s|
  {
    var v :- ReadByte(s);
    if v.value > CODEC_VERSION then Err(NewerVersion) else Ok(v)
  }

  /** How many items of at least width bytes n bytes can hold. */
  function Capacity(width: nat, n: nat): nat { if width == 1 then n else n / 2 }

  /** The version and the claimed count, which the bytes left must be able to hold
      at width bytes an item. */
  function ReadHeader(s: seq<byte>, width: nat): (r: Parse<Uint64>)
    requires width == 1 || width == 2
    ensures r.Ok? ==> |r.value.rest| < |s|
  {
    var v :- CheckVersion(s);
    var n :- ReadUvarint(v.rest);
    if n.value > Capacity(width, |n.rest|) then Err(Truncated) else Ok(n)
  }

  /** A whole record of items of at least width bytes each. */
  function DecodeList<T>(read: seq<byte> -> Parse<T>, width: nat, b: seq<byte>): Result<seq<T>, Error>
    requires width == 1 || width == 2
  {
    var n :- ReadHeader(b, width);
    var xs :- ReadMany(read, n.rest, n.value);
    if xs.rest != [] then Err(TrailingBytes) else Ok(xs.value)
  }

  function DecodeRow(b: seq<byte>): Result<Row, Error> { DecodeList(ReadValue, 1, b) }

  function DecodeColumns(b: seq<byte>): Result<seq<Column>, Error> { DecodeList(ReadColumn, 2, b) }
}
