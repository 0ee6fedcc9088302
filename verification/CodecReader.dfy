/** The encoders and the cursor as the code runs them (internal/store/codec.go). */
module CodecReader {
  import opened Wrappers
  import opened Change
  import opened Numbers
  import opened Codec

  /** What a parse decided, and what it left when it succeeded. */
  ghost predicate Took<T>(p: Parse<T>, r: Result<T, Error>, left: seq<byte>) {
    if p.Ok? then r.Ok? && p.value == Parsed(r.value, left) else r == Err(p.error)
  }

  lemma {:induction false} UvarintLeavesSuffix(s: seq<byte>, k: nat)
    requires k <= 10 && ReadUvarintFrom(s, k).Ok?
    ensures var rest := ReadUvarintFrom(s, k).value.rest; rest == s[|s| - |rest|..]
    decreases |s|
  {
    if s[0] >= 128 { UvarintLeavesSuffix(s[1..], k + 1); }
  }

  /** A cursor over a record: every read is checked against what is left of it. */
  class Reader {
    const b: seq<byte>
    var i: nat

    constructor (b: seq<byte>)
      ensures Valid() && this.b == b && Left() == b
    {
      this.b := b;
      i := 0;
    }

    ghost predicate Valid()
      reads this
    {
      i <= |b|
    }

    ghost function Left(): seq<byte>
      requires Valid()
      reads this
    {
      b[i..]
    }

    method Remaining() returns (n: nat)
      requires Valid()
      ensures n == |Left()|
    {
      n := |b| - i;
    }

    method NextByte() returns (r: Result<byte, Error>)
      requires Valid()
      modifies this`i
      ensures Valid() && Took(ReadByte(old(Left())), r, Left())
    {
      if |b| - i < 1 {
        return Err(Truncated);
      }
      var c := b[i];
      i := i + 1;
      return Ok(c);
    }

    method Uvarint() returns (r: Result<Uint64, Error>)
      requires Valid()
      modifies this`i
      ensures Valid() && Took(ReadUvarint(old(Left())), r, Left())
    {
      var u := ReadUvarint(b[i..]);
      if u.Err? {
        return Err(u.error);
      }
      UvarintLeavesSuffix(b[i..], 0);
      i := |b| - |u.value.rest|;
      return Ok(u.value.value);
    }

    method Varint() returns (r: Result<Int64, Error>)
      requires Valid()
      modifies this`i
      ensures Valid() && Took(ReadVarint(old(Left())), r, Left())
    {
      var u := Uvarint();
      if u.Err? {
        return Err(u.error);
      }
      return Ok(UnZigZag(u.value));
    }

    method NextBytes(n: nat) returns (r: Result<seq<byte>, Error>)
      requires Valid()
      modifies this`i
      ensures Valid() && Took(Take(old(Left()), n), r, Left())
    {
      if n > |b| - i {
        return Err(Truncated);
      }
      assert b[i..][..n] == b[i..i + n];
      assert b[i..][n..] == b[i + n..];
      r := Ok(b[i..i + n]);
      i := i + n;
    }

    method LenPrefixed() returns (r: Result<Text, Error>)
      requires Valid()
      modifies this`i
      ensures Valid() && Took(ReadLenPrefixed(old(Left())), r, Left())
    {
      var n := Uvarint();
      if n.Err? {
        return Err(n.error);
      }
      var t := NextBytes(n.value);
      if t.Err? {
        return Err(t.error);
      }
      return Ok(FromBytes(t.value));
    }

    method CheckVersion() returns (r: Result<byte, Error>)
      requires Valid()
      modifies this`i
      ensures Valid() && Took(Codec.CheckVersion(old(Left())), r, Left())
    {
      r := NextByte();
      if r.Ok? && r.value > CODEC_VERSION {
        return Err(NewerVersion);
      }
    }

    method FloatBits(width: nat) returns (r: Result<nat, Error>)
      requires Valid()
      modifies this`i
      ensures Valid()
      ensures var t := Take(old(Left()), width);
              if t.Ok? then r == Ok(FromLittleEndian(t.value.value)) && Left() == t.value.rest else r == Err(t.error)
    {
      var raw := NextBytes(width);
      if raw.Err? {
        return Err(raw.error);
      }
      return Ok(FromLittleEndian(raw.value));
    }

    method Time() returns (r: Result<Value, Error>)
      requires Valid()
      modifies this`i
      ensures Valid() && Took(ReadTime(old(Left())), r, Left())
    {
      var sec := Varint();
      if sec.Err? {
        return Err(sec.error);
      }
      var nsec := Uvarint();
      if nsec.Err? {
        return Err(nsec.error);
      }
      if nsec.value > 999_999_999 {
        return Err(BadNanos);
      }
      return Ok(Value.Time(sec.value, nsec.value, 0));
    }

    /** The text-carrying tags. */
    method TextValue(tag: byte) returns (r: Result<Value, Error>)
      requires Valid() && (tag == TAG_STRING || tag == TAG_BYTES || tag == TAG_RAW)
      modifies this`i
      ensures Valid() && Took(ReadTagged(tag, old(Left())), r, Left())
    {
      var t := LenPrefixed();
      if t.Err? {
        return Err(t.error);
      }
      if tag == TAG_STRING {
        return Ok(Str(t.value));
      } else if tag == TAG_BYTES {
        return Ok(Bytes(t.value));
      }
      var valid := ScanRaw(t.value);
      return if valid then Ok(Raw(t.value)) else Err(BadRaw);
    }

    /** The number-carrying tags. */
    method NumberValue(tag: byte) returns (r: Result<Value, Error>)
      requires Valid() && (tag == TAG_INT || tag == TAG_UINT || tag == TAG_FLOAT32 || tag == TAG_FLOAT64)
      modifies this`i
      ensures Valid() && Took(ReadTagged(tag, old(Left())), r, Left())
    {
      if tag == TAG_INT {
        var v := Varint();
        return if v.Ok? then Ok(Int(W64, v.value)) else Err(v.error);
      } else if tag == TAG_UINT {
        var v := Uvarint();
        return if v.Ok? then Ok(Uint(W64, v.value)) else Err(v.error);
      } else if tag == TAG_FLOAT32 {
        ghost var t := Take(Left(), 4);
        if t.Ok? { LittleEndianBound(t.value.value); }
        var v := FloatBits(4);
        return if v.Ok? then Ok(Float32(v.value)) else Err(v.error);
      } else {
        ghost var t := Take(Left(), 8);
        if t.Ok? { LittleEndianBound(t.value.value); }
        var v := FloatBits(8);
        return if v.Ok? then Ok(Float64(v.value)) else Err(v.error);
      }
    }

    method Tagged(tag: byte) returns (r: Result<Value, Error>)
      requires Valid()
      modifies this`i
      ensures Valid() && Took(ReadTagged(tag, old(Left())), r, Left())
    {
      if tag == TAG_NULL {
        return Ok(Null);
      } else if tag == TAG_INT || tag == TAG_UINT || tag == TAG_FLOAT32 || tag == TAG_FLOAT64 {
        r := NumberValue(tag);
      } else if tag == TAG_BOOL {
        var c := NextByte();
        if c.Err? {
          return Err(c.error);
        }
        return if c.value > 1 then Err(BadBool) else Ok(Bool(c.value == 1));
      } else if tag == TAG_STRING || tag == TAG_BYTES || tag == TAG_RAW {
        r := TextValue(tag);
      } else if tag == TAG_TIME {
        r := Time();
      } else {
        return Err(UnknownTag);
      }
    }

    method NextValue() returns (r: Result<Value, Error>)
      requires Valid()
      modifies this`i
      ensures Valid() && Took(ReadValue(old(Left())), r, Left())
    {
      var tag := NextByte();
      if tag.Err? {
        return Err(tag.error);
      }
      r := Tagged(tag.value);
    }

    method NextColumn() returns (r: Result<Column, Error>)
      requires Valid()
      modifies this`i
      ensures Valid() && Took(ReadColumn(old(Left())), r, Left())
    {
      var name := LenPrefixed();
      if name.Err? {
        return Err(name.error);
      }
      var flags := NextByte();
      if flags.Err? {
        return Err(flags.error);
      }
      if flags.value >= 4 {
        return Err(UnknownFlags);
      }
      return Ok(Column(name.value, flags.value % 2 == 1, flags.value / 2 == 1));
    }

    /** The version and a count that the bytes left can hold. */
    method Header(width: nat) returns (r: Result<Uint64, Error>)
      requires Valid() && (width == 1 || width == 2)
      modifies this`i
      ensures Valid() && Took(ReadHeader(old(Left()), width), r, Left())
    {
      var version := CheckVersion();
      if version.Err? {
        return Err(version.error);
      }
      var n := Uvarint();
      if n.Err? {
        return Err(n.error);
      }
      var remaining := Remaining();
      if n.value > (if width == 1 then remaining else remaining / 2) {
        return Err(Truncated);
      }
      return n;
    }
  }

  /** Having read xs of the n items that started at start, k are left to read. */
  ghost predicate Progress<T>(read: seq<byte> -> Parse<T>, start: seq<byte>, n: nat, xs: seq<T>, left: seq<byte>,
                              k: nat) {
    ReadMany(read, start, n) == Before(xs, ReadMany(read, left, k))
  }

  function Before<T>(xs: seq<T>, p: Parse<seq<T>>): Parse<seq<T>> {
    if p.Ok? then Ok(Parsed(xs + p.value.value, p.value.rest)) else p
  }

  lemma ProgressStarts<T>(read: seq<byte> -> Parse<T>, start: seq<byte>, n: nat)
    ensures Progress(read, start, n, [], start, n)
  {
    var p := ReadMany(read, start, n);
    if p.Ok? { assert [] + p.value.value == p.value.value; }
  }

  /** One turn of a decoding loop. */
  lemma ProgressStep<T>(read: seq<byte> -> Parse<T>, start: seq<byte>, n: nat, xs: seq<T>, left: seq<byte>, k: nat,
                        r: Result<T, Error>, left': seq<byte>)
    requires k > 0 && Progress(read, start, n, xs, left, k) && Took(read(left), r, left')
    ensures r.Ok? ==> Progress(read, start, n, xs + [r.value], left', k - 1)
    ensures r.Err? ==> ReadMany(read, start, n) == Err(r.error)
  {
    if r.Ok? {
      var p := ReadMany(read, left', k - 1);
      if p.Ok? { assert xs + ([r.value] + p.value.value) == xs + [r.value] + p.value.value; }
    }
  }

  lemma ProgressEnds<T>(read: seq<byte> -> Parse<T>, start: seq<byte>, n: nat, xs: seq<T>, left: seq<byte>)
    requires Progress(read, start, n, xs, left, 0)
    ensures ReadMany(read, start, n) == Ok(Parsed(xs, left))
  {
    assert xs + [] == xs;
  }

  /** The item readers, as values. */
  ghost const VALUES: seq<byte> -> Parse<Value> := ReadValue
  ghost const COLUMNS: seq<byte> -> Parse<Column> := ReadColumn

  method StepValues(reader: Reader, ghost start: seq<byte>, ghost n: nat, out: seq<Value>, ghost left: nat)
    returns (r: Result<seq<Value>, Error>)
    requires reader.Valid() && left > 0 && Progress(VALUES, start, n, out, reader.Left(), left)
    modifies reader`i
    ensures reader.Valid()
    ensures r.Ok? ==> Progress(VALUES, start, n, r.value, reader.Left(), left - 1)
    ensures r.Err? ==> ReadMany(VALUES, start, n) == Err(r.error)
  {
    ghost var before := reader.Left();
    var x := reader.NextValue();
    ProgressStep(VALUES, start, n, out, before, left, x, reader.Left());
    return if x.Ok? then Ok(out + [x.value]) else Err(x.error);
  }

  method ItemValues(reader: Reader, n: nat) returns (r: Result<seq<Value>, Error>)
    requires reader.Valid()
    modifies reader`i
    ensures reader.Valid() && Took(ReadMany(VALUES, old(reader.Left()), n), r, reader.Left())
  {
    r := Ok([]);
    ghost var start := reader.Left();
    ProgressStarts(VALUES, start, n);
    for i := 0 to n
      invariant reader.Valid() && r.Ok? && Progress(VALUES, start, n, r.value, reader.Left(), n - i)
    {
      r := StepValues(reader, start, n, r.value, n - i);
      if r.Err? {
        return;
      }
    }
    ProgressEnds(VALUES, start, n, r.value, reader.Left());
  }

  method StepColumns(reader: Reader, ghost start: seq<byte>, ghost n: nat, out: seq<Column>, ghost left: nat)
    returns (r: Result<seq<Column>, Error>)
    requires reader.Valid() && left > 0 && Progress(COLUMNS, start, n, out, reader.Left(), left)
    modifies reader`i
    ensures reader.Valid()
    ensures r.Ok? ==> Progress(COLUMNS, start, n, r.value, reader.Left(), left - 1)
    ensures r.Err? ==> ReadMany(COLUMNS, start, n) == Err(r.error)
  {
    ghost var before := reader.Left();
    var x := reader.NextColumn();
    ProgressStep(COLUMNS, start, n, out, before, left, x, reader.Left());
    return if x.Ok? then Ok(out + [x.value]) else Err(x.error);
  }

  method ItemColumns(reader: Reader, n: nat) returns (r: Result<seq<Column>, Error>)
    requires reader.Valid()
    modifies reader`i
    ensures reader.Valid() && Took(ReadMany(COLUMNS, old(reader.Left()), n), r, reader.Left())
  {
    r := Ok([]);
    ghost var start := reader.Left();
    ProgressStarts(COLUMNS, start, n);
    for i := 0 to n
      invariant reader.Valid() && r.Ok? && Progress(COLUMNS, start, n, r.value, reader.Left(), n - i)
    {
      r := StepColumns(reader, start, n, r.value, n - i);
      if r.Err? {
        return;
      }
    }
    ProgressEnds(COLUMNS, start, n, r.value, reader.Left());
  }

  method DecodeRow(b: seq<byte>) returns (r: Result<seq<Value>, Error>)
    ensures r == Codec.DecodeRow(b)
  {
    var reader := new Reader(b);
    var n := reader.Header(1);
    if n.Err? {
      return Err(n.error);
    }
    r := ItemValues(reader, n.value);
    if r.Ok? {
      var remaining := reader.Remaining();
      if remaining != 0 {
        return Err(TrailingBytes);
      }
    }
  }

  method DecodeColumns(b: seq<byte>) returns (r: Result<seq<Column>, Error>)
    ensures r == Codec.DecodeColumns(b)
  {
    var reader := new Reader(b);
    var n := reader.Header(2);
    if n.Err? {
      return Err(n.error);
    }
    r := ItemColumns(reader, n.value);
    if r.Ok? {
      var remaining := reader.Remaining();
      if remaining != 0 {
        return Err(TrailingBytes);
      }
    }
  }

  /** Bytes already written in front of the outcome of writing the rest. */
  function Continued(b: seq<byte>, r: Result<seq<byte>, Error>): Result<seq<byte>, Error> {
    if r.Ok? then Ok(b + r.value) else r
  }

  lemma WrittenOne<T>(encode: T -> Result<seq<byte>, Error>, b: seq<byte>, xs: seq<T>, i: nat)
    requires i < |xs| && encode(xs[i]).Ok?
    ensures Continued(b, EncodeMany(encode, xs, i)) == Continued(b + encode(xs[i]).value, EncodeMany(encode, xs, i + 1))
  {
    var more := EncodeMany(encode, xs, i + 1);
    if more.Ok? { assert b + (encode(xs[i]).value + more.value) == b + encode(xs[i]).value + more.value; }
  }

  method EncodeRow(row: Row) returns (r: Result<seq<byte>, Error>)
    ensures r == Codec.EncodeRow(row)
  {
    var b: seq<byte> := [CODEC_VERSION];
    b := b + Codec.Uvarint(|row|);
    ghost var whole := Continued(b, EncodeMany(EncodeValue, row, 0));
    for i := 0 to |row|
      invariant whole == Continued(b, EncodeMany(EncodeValue, row, i))
    {
      var v := EncodeValue(row[i]);
      if v.Err? {
        HeaderThen(|row|, EncodeMany(EncodeValue, row, 0));
        return Err(v.error);
      }
      WrittenOne(EncodeValue, b, row, i);
      b := b + v.value;
    }
    HeaderThen(|row|, EncodeMany(EncodeValue, row, 0));
    assert b + [] == b;
    return Ok(b);
  }

  lemma HeaderThen(n: nat, body: Result<seq<byte>, Error>)
    ensures Continued([CODEC_VERSION] + Codec.Uvarint(n), body)
         == if body.Ok? then Ok([CODEC_VERSION] + (Codec.Uvarint(n) + body.value)) else body
  {
    if body.Ok? {
      assert [CODEC_VERSION] + Codec.Uvarint(n) + body.value == [CODEC_VERSION] + (Codec.Uvarint(n) + body.value);
    }
  }

  method EncodeColumns(cols: seq<Column>) returns (r: Result<seq<byte>, Error>)
    ensures r == Codec.EncodeColumns(cols)
  {
    var b: seq<byte> := [CODEC_VERSION];
    b := b + Codec.Uvarint(|cols|);
    ghost var whole := Continued(b, EncodeMany(EncodeColumn, cols, 0));
    for i := 0 to |cols|
      invariant whole == Continued(b, EncodeMany(EncodeColumn, cols, i))
    {
      var c := cols[i];
      WrittenOne(EncodeColumn, b, cols, i);
      var flags: byte := 0;
      if c.primaryKey {
        flags := flags + 1;
      }
      if c.readOnly {
        flags := flags + 2;
      }
      b := b + (Codec.LenPrefixed(c.name) + [flags]);
    }
    HeaderThen(|cols|, EncodeMany(EncodeColumn, cols, 0));
    assert b + [] == b;
    return Ok(b);
  }
}
