/** The codec gives back what it was given, and is unambiguous about where a record ends. */
module CodecProps {
  import opened Wrappers
  import opened Change
  import opened Codec
  import Literal

  const INT_LIMIT := 0x8000_0000_0000_0000

  /** Lengths a Go program can have. */
  predicate SizedText(t: Text) { |t| < INT_LIMIT }

  predicate SizedValue(v: Value) {
    && (v.Str? ==> SizedText(v.s))
    && (v.Bytes? ==> SizedText(v.bs))
    && (v.Raw? ==> SizedText(v.raw))
  }

  predicate SizedRow(row: Row) { |row| < INT_LIMIT && forall i :: 0 <= i < |row| ==> SizedValue(row[i]) }

  predicate SizedColumns(cols: seq<Column>) {
    |cols| < INT_LIMIT && forall i :: 0 <= i < |cols| ==> SizedText(cols[i].name)
  }

  /** What storage keeps of a value: not the width of an integer nor the zone of a time. */
  function Canon(v: Value): Value {
    match v
    case Int(_, i) => Int(W64, i)
    case Uint(_, u) => Uint(W64, u)
    case Time(sec, nsec, _) => Time(sec, nsec, 0)
    case _ => v
  }

  function CanonRow(row: Row): Row { seq(|row|, i requires 0 <= i < |row| => Canon(row[i])) }

  // ---------- Round trips ----------

  lemma {:induction false} UvarintReadsBack(n: nat, k: nat, rest: seq<byte>)
    requires k <= 9 && n < Limit(k)
    ensures ReadUvarintFrom(Uvarint(n) + rest, k) == Ok(Parsed(n, rest))
    decreases n
  {
    var s := Uvarint(n) + rest;
    if n < 128 {
      assert s[1..] == rest;
    } else {
      assert Limit(9) == 2;
      UvarintReadsBack(n / 128, k + 1, rest);
      assert s[1..] == Uvarint(n / 128) + rest;
    }
  }

  lemma UintReadsBack(n: Uint64, rest: seq<byte>)
    ensures ReadUvarint(Uvarint(n) + rest) == Ok(Parsed(n, rest))
  {
    LimitIs64Bits();
    UvarintReadsBack(n, 0, rest);
  }

  lemma IntReadsBack(i: Int64, rest: seq<byte>)
    ensures ReadVarint(Uvarint(ZigZag(i)) + rest) == Ok(Parsed(i, rest))
  {
    UintReadsBack(ZigZag(i), rest);
  }

  lemma TextReadsBack(t: Text, rest: seq<byte>)
    requires SizedText(t)
    ensures ReadLenPrefixed(LenPrefixed(t) + rest) == Ok(Parsed(t, rest))
  {
    assert LenPrefixed(t) + rest == Uvarint(|t|) + (ToBytes(t) + rest);
    UintReadsBack(|t|, ToBytes(t) + rest);
    assert (ToBytes(t) + rest)[..|t|] == ToBytes(t);
    assert (ToBytes(t) + rest)[|t|..] == rest;
    assert FromBytes(ToBytes(t)) == t;
  }

  lemma {:induction false} LittleEndianReadsBack(x: nat, k: nat)
    requires x < Power256(k)
    ensures FromLittleEndian(LittleEndian(x, k)) == x
  {
    if k > 0 {
      LittleEndianReadsBack(x / 256, k - 1);
      assert LittleEndian(x, k)[1..] == LittleEndian(x / 256, k - 1);
    }
  }

  lemma FloatBitsReadBack(x: nat, k: nat, rest: seq<byte>)
    requires x < Power256(k)
    ensures Take(LittleEndian(x, k) + rest, k) == Ok(Parsed(LittleEndian(x, k), rest))
    ensures FromLittleEndian(LittleEndian(x, k)) == x
  {
    LittleEndianReadsBack(x, k);
    var b := LittleEndian(x, k);
    assert (b + rest)[..k] == b;
    assert (b + rest)[k..] == rest;
  }

  lemma TimeReadsBack(sec: Int64, nsec: Nanos, rest: seq<byte>)
    ensures ReadTime(Uvarint(ZigZag(sec)) + Uvarint(nsec) + rest) == Ok(Parsed(Time(sec, nsec, 0), rest))
  {
    assert Uvarint(ZigZag(sec)) + Uvarint(nsec) + rest == Uvarint(ZigZag(sec)) + (Uvarint(nsec) + rest);
    IntReadsBack(sec, Uvarint(nsec) + rest);
    UintReadsBack(nsec, rest);
  }

  /** The payload of an encoded value, without its tag. */
  function Payload(v: Value): (p: (byte, seq<byte>))
    requires EncodeValue(v).Ok?
    ensures EncodeValue(v).value == [p.0] + p.1
  {
    var b := EncodeValue(v).value;
    assert b[1..] == match v
                     case Null => []
                     case Bool(x) => [if x then 1 else 0]
                     case Int(_, i) => Uvarint(ZigZag(i))
                     case Uint(_, u) => Uvarint(u)
                     case Float32(x) => LittleEndian(x, 4)
                     case Float64(x) => LittleEndian(x, 8)
                     case Str(s) => LenPrefixed(s)
                     case Bytes(s) => LenPrefixed(s)
                     case Time(sec, nsec, _) => Uvarint(ZigZag(sec)) + Uvarint(nsec)
                     case Raw(t) => LenPrefixed(t);
    (b[0], b[1..])
  }

  lemma Powers()
    ensures Power256(4) == 0x1_0000_0000 && Power256(8) == 0x1_0000_0000_0000_0000
  {
    BelowPower([0, 0, 0, 0], 4);
    BelowPower([0, 0, 0, 0, 0, 0, 0, 0], 8);
  }

  lemma TaggedReadsBack(v: Value, rest: seq<byte>)
    requires EncodeValue(v).Ok? && SizedValue(v)
    ensures ReadTagged(Payload(v).0, Payload(v).1 + rest) == Ok(Parsed(Canon(v), rest))
  {
    match v
    case Null => assert Payload(v).1 + rest == rest;
    case Bool(b) => assert (Payload(v).1 + rest)[1..] == rest;
    case Int(_, i) => IntReadsBack(i, rest);
    case Uint(_, u) => UintReadsBack(u, rest);
    case Float32(x) => Powers(); FloatBitsReadBack(x, 4, rest);
    case Float64(x) => Powers(); FloatBitsReadBack(x, 8, rest);
    case Str(s) => TextReadsBack(s, rest);
    case Bytes(s) => TextReadsBack(s, rest);
    case Time(sec, nsec, _) => TimeReadsBack(sec, nsec, rest);
    case Raw(t) => TextReadsBack(t, rest);
  }

  lemma ValueReadsBack(v: Value, rest: seq<byte>)
    requires EncodeValue(v).Ok? && SizedValue(v)
    ensures ReadValue(EncodeValue(v).value + rest) == Ok(Parsed(Canon(v), rest))
  {
    var p := Payload(v);
    assert EncodeValue(v).value + rest == [p.0] + (p.1 + rest);
    TaggedReadsBack(v, rest);
  }

  /** A reader that gives back the canonical form of what a writer wrote, whatever follows. */
  ghost predicate ReadsBack<T(!new)>(read: seq<byte> -> Parse<T>, encode: T -> Result<seq<byte>, Error>, canon: T -> T,
    x: T)
  {
    encode(x).Ok? && forall rest: seq<byte> :: read(encode(x).value + rest) == Ok(Parsed(canon(x), rest))
  }

  /** The least room n items of at least width bytes take. */
  function Room(width: nat, n: nat): nat { if width == 1 then n else 2 * n }

  function MapSeq<T>(f: T -> T, xs: seq<T>): seq<T> { seq(|xs|, i requires 0 <= i < |xs| => f(xs[i])) }

  lemma ReadsPast<T(!new)>(read: seq<byte> -> Parse<T>, encode: T -> Result<seq<byte>, Error>, canon: T -> T, x: T,
                           more: seq<byte>, rest: seq<byte>)
    requires ReadsBack(read, encode, canon, x)
    ensures read(encode(x).value + more + rest) == Ok(Parsed(canon(x), more + rest))
  {
    assert encode(x).value + more + rest == encode(x).value + (more + rest);
  }

  lemma {:induction false} ManyReadBack<T(!new)>(
      read: seq<byte> -> Parse<T>, encode: T -> Result<seq<byte>, Error>, canon: T -> T,
      width: nat, xs: seq<T>, i: nat, rest: seq<byte>)
    requires i <= |xs| && forall k :: i <= k < |xs| ==>
             ReadsBack(read, encode, canon, xs[k]) && |encode(xs[k]).value| >= width
    requires width == 1 || width == 2
    ensures EncodeMany(encode, xs, i).Ok?
    ensures ReadMany(read, EncodeMany(encode, xs, i).value + rest, |xs| - i) == Ok(Parsed(MapSeq(canon, xs)[i..], rest))
    ensures |EncodeMany(encode, xs, i).value| >= Room(width, |xs| - i)
    decreases |xs| - i
  {
    if i == |xs| {
      assert EncodeMany(encode, xs, i).value + rest == rest;
    } else {
      ManyReadBack(read, encode, canon, width, xs, i + 1, rest);
      var more := EncodeMany(encode, xs, i + 1).value;
      assert ReadsBack(read, encode, canon, xs[i]);
      ReadsPast(read, encode, canon, xs[i], more, rest);
      assert MapSeq(canon, xs)[i..] == [canon(xs[i])] + MapSeq(canon, xs)[i + 1..];
    }
  }

  lemma HeaderReadsBack(n: nat, width: nat, body: seq<byte>)
    requires width == 1 || width == 2
    requires n < INT_LIMIT && Room(width, n) <= |body|
    ensures ReadHeader([CODEC_VERSION] + (Uvarint(n) + body), width) == Ok(Parsed(n, body))
  {
    var s := [CODEC_VERSION] + (Uvarint(n) + body);
    assert s[1..] == Uvarint(n) + body;
    UintReadsBack(n, body);
  }

  lemma ListReadsBack<T(!new)>(
      read: seq<byte> -> Parse<T>, encode: T -> Result<seq<byte>, Error>, canon: T -> T, width: nat, xs: seq<T>)
    requires |xs| < INT_LIMIT
    requires forall k :: 0 <= k < |xs| ==> ReadsBack(read, encode, canon, xs[k]) && |encode(xs[k]).value| >= width
    requires width == 1 || width == 2
    ensures EncodeList(encode, xs).Ok?
    ensures DecodeList(read, width, EncodeList(encode, xs).value) == Ok(MapSeq(canon, xs))
  {
    ManyReadBack(read, encode, canon, width, xs, 0, []);
    var body := EncodeMany(encode, xs, 0).value;
    HeaderReadsBack(|xs|, width, body);
    assert body + [] == body;
    assert MapSeq(canon, xs)[0..] == MapSeq(canon, xs);
  }

  lemma {:induction false} EncodesEach<T>(encode: T -> Result<seq<byte>, Error>, xs: seq<T>, i: nat)
    requires i <= |xs|
    ensures EncodeMany(encode, xs, i).Ok? <==> forall k :: i <= k < |xs| ==> encode(xs[k]).Ok?
    decreases |xs| - i
  {
    if i < |xs| { EncodesEach(encode, xs, i + 1); }
  }

  /** Decoding an encoded row gives back its values, in canonical form. */
  lemma RowReadsBack(row: Row)
    requires EncodeRow(row).Ok? && SizedRow(row)
    ensures DecodeRow(EncodeRow(row).value) == Ok(CanonRow(row))
  {
    EncodesEach(EncodeValue, row, 0);
    forall k | 0 <= k < |row|
      ensures ReadsBack(ReadValue, EncodeValue, Canon, row[k]) && |EncodeValue(row[k]).value| >= 1
    {
      var p := Payload(row[k]);
      forall rest: seq<byte> ensures ReadValue(EncodeValue(row[k]).value + rest) == Ok(Parsed(Canon(row[k]), rest)) {
        ValueReadsBack(row[k], rest);
      }
    }
    ListReadsBack(ReadValue, EncodeValue, Canon, 1, row);
    assert MapSeq(Canon, row) == CanonRow(row);
  }

  lemma ColumnReadsBack(c: Column, rest: seq<byte>)
    requires SizedText(c.name)
    ensures ReadColumn(EncodeColumn(c).value + rest) == Ok(Parsed(c, rest))
  {
    assert EncodeColumn(c).value + rest == LenPrefixed(c.name) + ([Flags(c)] + rest);
    TextReadsBack(c.name, [Flags(c)] + rest);
    assert ([Flags(c)] + rest)[1..] == rest;
  }

  function Same(c: Column): Column { c }

  /** Decoding an encoded column list gives it back. */
  lemma ColumnsReadBack(cols: seq<Column>)
    requires SizedColumns(cols)
    ensures EncodeColumns(cols).Ok? && DecodeColumns(EncodeColumns(cols).value) == Ok(cols)
  {
    forall k | 0 <= k < |cols|
      ensures ReadsBack(ReadColumn, EncodeColumn, Same, cols[k]) && |EncodeColumn(cols[k]).value| >= 2
    {
      forall rest: seq<byte> ensures ReadColumn(EncodeColumn(cols[k]).value + rest) == Ok(Parsed(Same(cols[k]), rest)) {
        ColumnReadsBack(cols[k], rest);
      }
    }
    ListReadsBack(ReadColumn, EncodeColumn, Same, 2, cols);
    assert MapSeq(Same, cols) == cols;
  }

  // ---------- Records are prefix-free ----------

  lemma {:induction false} UvarintIsStable(s: seq<byte>, k: nat, x: seq<byte>)
    requires k <= 10 && ReadUvarintFrom(s, k).Ok?
    ensures ReadUvarintFrom(s + x, k) ==
            Ok(Parsed(ReadUvarintFrom(s, k).value.value, ReadUvarintFrom(s, k).value.rest + x))
    decreases |s|
  {
    assert (s + x)[1..] == s[1..] + x;
    if s[0] >= 128 { UvarintIsStable(s[1..], k + 1, x); }
  }

  lemma UintIsStable(s: seq<byte>, x: seq<byte>)
    requires ReadUvarint(s).Ok?
    ensures ReadUvarint(s + x) == Ok(Parsed(ReadUvarint(s).value.value, ReadUvarint(s).value.rest + x))
  {
    UvarintIsStable(s, 0, x);
  }

  lemma TakeIsStable(s: seq<byte>, n: nat, x: seq<byte>)
    requires Take(s, n).Ok?
    ensures Take(s + x, n) == Ok(Parsed(Take(s, n).value.value, Take(s, n).value.rest + x))
  {
    assert (s + x)[..n] == s[..n];
    assert (s + x)[n..] == s[n..] + x;
  }

  lemma TextIsStable(s: seq<byte>, x: seq<byte>)
    requires ReadLenPrefixed(s).Ok?
    ensures ReadLenPrefixed(s + x) == Ok(Parsed(ReadLenPrefixed(s).value.value, ReadLenPrefixed(s).value.rest + x))
  {
    UintIsStable(s, x);
    TakeIsStable(ReadUvarint(s).value.rest, ReadUvarint(s).value.value, x);
  }

  lemma TaggedIsStable(tag: byte, s: seq<byte>, x: seq<byte>)
    requires ReadTagged(tag, s).Ok?
    ensures ReadTagged(tag, s + x) == Ok(Parsed(ReadTagged(tag, s).value.value, ReadTagged(tag, s).value.rest + x))
  {
    if tag == TAG_INT || tag == TAG_UINT {
      UintIsStable(s, x);
    } else if tag == TAG_FLOAT32 {
      TakeIsStable(s, 4, x);
    } else if tag == TAG_FLOAT64 {
      TakeIsStable(s, 8, x);
    } else if tag == TAG_BOOL {
      assert (s + x)[1..] == s[1..] + x;
    } else if tag == TAG_STRING || tag == TAG_BYTES || tag == TAG_RAW {
      TextIsStable(s, x);
    } else if tag == TAG_TIME {
      UintIsStable(s, x);
      UintIsStable(ReadVarint(s).value.rest, x);
    }
  }

  lemma ValueIsStable(s: seq<byte>, x: seq<byte>)
    requires ReadValue(s).Ok?
    ensures ReadValue(s + x) == Ok(Parsed(ReadValue(s).value.value, ReadValue(s).value.rest + x))
  {
    assert (s + x)[1..] == s[1..] + x;
    TaggedIsStable(s[0], s[1..], x);
  }

  lemma ColumnIsStable(s: seq<byte>, x: seq<byte>)
    requires ReadColumn(s).Ok?
    ensures ReadColumn(s + x) == Ok(Parsed(ReadColumn(s).value.value, ReadColumn(s).value.rest + x))
  {
    TextIsStable(s, x);
    var r := ReadLenPrefixed(s).value.rest;
    assert (r + x)[1..] == r[1..] + x;
  }

  /** A reader whose answer does not depend on what follows what it read. */
  ghost predicate Stable<T(!new)>(read: seq<byte> -> Parse<T>) {
    forall s: seq<byte>, x: seq<byte> :: read(s).Ok? ==>
      read(s + x) == Ok(Parsed(read(s).value.value, read(s).value.rest + x))
  }

  lemma {:induction false} ManyAreStable<T(!new)>(read: seq<byte> -> Parse<T>, s: seq<byte>, n: nat, x: seq<byte>)
    requires Stable(read) && ReadMany(read, s, n).Ok?
    ensures ReadMany(read, s + x, n) ==
            Ok(Parsed(ReadMany(read, s, n).value.value, ReadMany(read, s, n).value.rest + x))
    decreases n
  {
    if n > 0 {
      ManyAreStable(read, read(s).value.rest, n - 1, x);
    }
  }

  lemma HeaderIsStable(s: seq<byte>, width: nat, x: seq<byte>)
    requires width == 1 || width == 2
    requires ReadHeader(s, width).Ok?
    ensures ReadHeader(s + x, width) ==
            Ok(Parsed(ReadHeader(s, width).value.value, ReadHeader(s, width).value.rest + x))
  {
    assert (s + x)[1..] == s[1..] + x;
    UintIsStable(s[1..], x);
  }

  lemma ListsArePrefixFree<T(!new)>(read: seq<byte> -> Parse<T>, width: nat, b: seq<byte>, x: seq<byte>)
    requires Stable(read) && (width == 1 || width == 2) && x != []
    ensures !(DecodeList(read, width, b).Ok? && DecodeList(read, width, b + x).Ok?)
  {
    if DecodeList(read, width, b).Ok? {
      HeaderIsStable(b, width, x);
      var n := ReadHeader(b, width).value;
      ManyAreStable(read, n.rest, n.value, x);
    }
  }

  /** No accepted row record is a proper prefix of another: whatever follows one, or
      is cut from its end, makes the decoder refuse it. */
  lemma RowsArePrefixFree(b: seq<byte>, x: seq<byte>)
    requires x != []
    ensures !(DecodeRow(b).Ok? && DecodeRow(b + x).Ok?)
  {
    forall s, y | ReadValue(s).Ok?
      ensures ReadValue(s + y) == Ok(Parsed(ReadValue(s).value.value, ReadValue(s).value.rest + y))
    {
      ValueIsStable(s, y);
    }
    ListsArePrefixFree(ReadValue, 1, b, x);
  }

  lemma ColumnListsArePrefixFree(b: seq<byte>, x: seq<byte>)
    requires x != []
    ensures !(DecodeColumns(b).Ok? && DecodeColumns(b + x).Ok?)
  {
    forall s, y | ReadColumn(s).Ok?
      ensures ReadColumn(s + y) == Ok(Parsed(ReadColumn(s).value.value, ReadColumn(s).value.rest + y))
    {
      ColumnIsStable(s, y);
    }
    ListsArePrefixFree(ReadColumn, 2, b, x);
  }

  /** An encoded row cut short anywhere, or with anything after it, is refused. */
  lemma CutOrPaddedRowIsRefused(row: Row, k: nat, x: seq<byte>)
    requires EncodeRow(row).Ok? && SizedRow(row) && k < |EncodeRow(row).value| && x != []
    ensures DecodeRow(EncodeRow(row).value[..k]).Err?
    ensures DecodeRow(EncodeRow(row).value + x).Err?
  {
    var b := EncodeRow(row).value;
    RowReadsBack(row);
    RowsArePrefixFree(b, x);
    assert b[..k] + b[k..] == b;
    RowsArePrefixFree(b[..k], b[k..]);
  }

  lemma CutOrPaddedColumnsAreRefused(cols: seq<Column>, k: nat, x: seq<byte>)
    requires SizedColumns(cols) && EncodeColumns(cols).Ok? && k < |EncodeColumns(cols).value| && x != []
    ensures DecodeColumns(EncodeColumns(cols).value[..k]).Err?
    ensures DecodeColumns(EncodeColumns(cols).value + x).Err?
  {
    var b := EncodeColumns(cols).value;
    ColumnsReadBack(cols);
    ColumnListsArePrefixFree(b, x);
    assert b[..k] + b[k..] == b;
    ColumnListsArePrefixFree(b[..k], b[k..]);
  }

  // ---------- What is accepted ----------

  lemma AcceptedText(s: seq<byte>)
    requires ReadLenPrefixed(s).Ok? && |s| < INT_LIMIT
    ensures SizedText(ReadLenPrefixed(s).value.value)
  {
  }

  lemma AcceptedTagged(tag: byte, s: seq<byte>)
    requires ReadTagged(tag, s).Ok? && |s| < INT_LIMIT
    ensures Canon(ReadTagged(tag, s).value.value) == ReadTagged(tag, s).value.value
    ensures EncodeValue(ReadTagged(tag, s).value.value).Ok? && SizedValue(ReadTagged(tag, s).value.value)
  {
    if tag == TAG_STRING || tag == TAG_BYTES || tag == TAG_RAW { AcceptedText(s); }
  }

  lemma AcceptedValue(s: seq<byte>)
    requires ReadValue(s).Ok? && |s| < INT_LIMIT
    ensures Canon(ReadValue(s).value.value) == ReadValue(s).value.value
    ensures EncodeValue(ReadValue(s).value.value).Ok? && SizedValue(ReadValue(s).value.value)
  {
    AcceptedTagged(s[0], s[1..]);
  }

  /** A property of every item a reader accepts from fewer bytes than a limit, and
      the bytes each item takes. */
  ghost predicate Accepts<T(!new)>(read: seq<byte> -> Parse<T>, width: nat, good: T -> bool) {
    forall s: seq<byte> :: |s| < INT_LIMIT && read(s).Ok? ==>
      good(read(s).value.value) && |read(s).value.rest| + width <= |s|
  }

  lemma {:induction false} AcceptedMany<T(!new)>(read: seq<byte> -> Parse<T>, width: nat, good: T -> bool,
    s: seq<byte>, n: nat)
    requires Accepts(read, width, good) && ReadMany(read, s, n).Ok? && |s| < INT_LIMIT
    requires width == 1 || width == 2
    ensures forall i :: 0 <= i < n ==> good(ReadMany(read, s, n).value.value[i])
    ensures |ReadMany(read, s, n).value.rest| + Room(width, n) <= |s|
    decreases n
  {
    if n > 0 {
      AcceptedMany(read, width, good, read(s).value.rest, n - 1);
    }
  }

  lemma AcceptedList<T(!new)>(read: seq<byte> -> Parse<T>, width: nat, good: T -> bool, b: seq<byte>)
    requires Accepts(read, width, good) && |b| < INT_LIMIT
    requires width == 1 || width == 2
    requires DecodeList(read, width, b).Ok?
    ensures Room(width, |DecodeList(read, width, b).value|) < |b|
    ensures forall i :: 0 <= i < |DecodeList(read, width, b).value| ==> good(DecodeList(read, width, b).value[i])
  {
    var n := ReadHeader(b, width).value;
    AcceptedMany(read, width, good, n.rest, n.value);
  }

  predicate Storable(v: Value) { Canon(v) == v && EncodeValue(v).Ok? && SizedValue(v) }

  /** Whatever bytes the decoder accepts, it yields fewer values than there are
      bytes, and its result encodes and decodes to itself. */
  lemma AcceptedRowIsStorable(b: seq<byte>)
    requires DecodeRow(b).Ok? && |b| < INT_LIMIT
    ensures |DecodeRow(b).value| < |b|
    ensures EncodeRow(DecodeRow(b).value).Ok?
    ensures DecodeRow(EncodeRow(DecodeRow(b).value).value) == DecodeRow(b)
  {
    var row := DecodeRow(b).value;
    ValuesAreStorable();
    AcceptedList(ReadValue, 1, Storable, b);
    StorableReadsBack(row);
  }

  lemma ValuesAreStorable()
    ensures Accepts(ReadValue, 1, Storable)
  {
    forall s: seq<byte> | |s| < INT_LIMIT && ReadValue(s).Ok?
      ensures Storable(ReadValue(s).value.value) && |ReadValue(s).value.rest| + 1 <= |s|
    {
      AcceptedValue(s);
    }
  }

  lemma StorableReadsBack(row: Row)
    requires |row| < INT_LIMIT && forall i :: 0 <= i < |row| ==> Storable(row[i])
    ensures EncodeRow(row).Ok? && DecodeRow(EncodeRow(row).value) == Ok(row)
  {
    EncodesEach(EncodeValue, row, 0);
    RowReadsBack(row);
    assert CanonRow(row) == row;
  }

  lemma AcceptedColumn(s: seq<byte>)
    requires ReadColumn(s).Ok? && |s| < INT_LIMIT
    ensures SizedText(ReadColumn(s).value.value.name)
  {
    AcceptedText(s);
  }

  predicate SizedColumn(c: Column) { SizedText(c.name) }

  lemma AcceptedColumnsAreStorable(b: seq<byte>)
    requires DecodeColumns(b).Ok? && |b| < INT_LIMIT
    ensures 2 * |DecodeColumns(b).value| < |b|
    ensures EncodeColumns(DecodeColumns(b).value).Ok?
    ensures DecodeColumns(EncodeColumns(DecodeColumns(b).value).value) == DecodeColumns(b)
  {
    var cols := DecodeColumns(b).value;
    forall s: seq<byte> | |s| < INT_LIMIT && ReadColumn(s).Ok?
      ensures SizedColumn(ReadColumn(s).value.value) && |ReadColumn(s).value.rest| + 2 <= |s|
    {
      AcceptedColumn(s);
    }
    AcceptedList(ReadColumn, 2, SizedColumn, b);
    assert forall i :: 0 <= i < |cols| ==> SizedColumn(cols[i]);
    ColumnsReadBack(cols);
  }

  /** A longer form of a count is accepted, so two records can hold one row: decoding
      gives back what was encoded, but not the bytes. */
  lemma DecodingIsNotInjective()
    ensures DecodeRow([1, 1, TAG_NULL]) == DecodeRow([1, 129, 0, TAG_NULL]) == Ok([Null])
  {
    assert EncodeRow([Null]) == Ok([1, 1, TAG_NULL]) by {
      assert EncodeMany(EncodeValue, [Null], 1) == Ok([]);
      assert EncodeMany(EncodeValue, [Null], 0) == Ok([TAG_NULL] + []);
      assert [CODEC_VERSION] + (Uvarint(1) + ([TAG_NULL] + [])) == [1, 1, TAG_NULL];
    }
    RowReadsBack([Null]);
    assert CanonRow([Null]) == [Null];
    var b: seq<byte> := [1, 129, 0, TAG_NULL];
    assert b[1..] == [129, 0, TAG_NULL] && b[1..][1..] == [0, TAG_NULL] && b[1..][1..][1..] == [TAG_NULL];
    assert ReadUvarintFrom([0, TAG_NULL], 1) == Ok(Parsed(0, [TAG_NULL]));
    assert ReadUvarintFrom([129, 0, TAG_NULL], 0) == Ok(Parsed(1, [TAG_NULL]));
    var last: seq<byte> := [TAG_NULL];
    assert last[1..] == [];
    assert ReadMany(ReadValue, [], 0) == Ok(Parsed([], []));
    assert ReadMany(ReadValue, last, 1) == Ok(Parsed([Null] + [], []));
  }

  /** The store accepts exactly the rows the reverse engine can render. */
  lemma EncodesWhatRenders(row: Row)
    ensures EncodeRow(row).Ok? <==> forall i :: 0 <= i < |row| ==> Literal.Renderable(row[i])
  {
    EncodesEach(EncodeValue, row, 0);
    forall i | 0 <= i < |row| ensures EncodeValue(row[i]).Ok? <==> Literal.Renderable(row[i]) {
    }
  }
}
