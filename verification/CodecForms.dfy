/** Which accepted records are the ones the encoder writes: those of its own version in
    which every variable-length integer is as short as it can be. */
module CodecForms {
  import opened Wrappers
  import opened Codec
  import opened CodecProps

  // ---------- Variable-length integers ----------

  /** The last byte of the varint that the bytes start with is 0. */
  predicate EndsInZero(s: seq<byte>) { s != [] && (s[0] == 0 || (s[0] >= 128 && EndsInZero(s[1..]))) }

  /** No shorter varint has the same value: it is one byte, or its last byte is not 0. */
  predicate Shortest(s: seq<byte>) { s != [] && (s[0] < 128 || !EndsInZero(s[1..])) }

  lemma {:induction false} ZeroEndsInZero(s: seq<byte>, k: nat)
    requires k <= 10 && ReadUvarintFrom(s, k).Ok?
    ensures ReadUvarintFrom(s, k).value.value == 0 ==> EndsInZero(s)
    decreases |s|
  {
    if s[0] >= 128 { ZeroEndsInZero(s[1..], k + 1); }
  }

  lemma {:induction false} VarintForm(s: seq<byte>, k: nat)
    requires k <= 10 && ReadUvarintFrom(s, k).Ok?
    ensures s == Uvarint(ReadUvarintFrom(s, k).value.value) + ReadUvarintFrom(s, k).value.rest <==> Shortest(s)
    decreases |s|
  {
    var n, rest := ReadUvarintFrom(s, k).value.value, ReadUvarintFrom(s, k).value.rest;
    assert s == [s[0]] + s[1..];
    if s[0] >= 128 {
      var m := ReadUvarintFrom(s[1..], k + 1).value.value;
      VarintForm(s[1..], k + 1);
      ZeroEndsInZero(s[1..], k + 1);
      if m > 0 {
        assert Uvarint(n) == [s[0]] + Uvarint(m);
        Cancel([s[0]], s, Uvarint(m), rest);
      } else {
        assert (Uvarint(n) + rest)[0] == n;
      }
    }
  }

  lemma Cancel(a: seq<byte>, s: seq<byte>, b: seq<byte>, c: seq<byte>)
    requires a <= s
    ensures s == a + b + c <==> s[|a|..] == b + c
  {
    assert a + b + c == a + (b + c);
    assert s == a + s[|a|..];
    if s == a + b + c { assert s[|a|..] == (a + (b + c))[|a|..] == b + c; }
  }

  lemma UintForm(s: seq<byte>)
    requires ReadUvarint(s).Ok?
    ensures s == Uvarint(ReadUvarint(s).value.value) + ReadUvarint(s).value.rest <==> Shortest(s)
  {
    VarintForm(s, 0);
  }

  lemma IntForm(s: seq<byte>)
    requires ReadVarint(s).Ok?
    ensures s == Uvarint(ZigZag(ReadVarint(s).value.value)) + ReadVarint(s).value.rest <==> Shortest(s)
  {
    UintForm(s);
  }

  // ---------- Values ----------

  lemma TextForm(s: seq<byte>)
    requires ReadLenPrefixed(s).Ok?
    ensures s == LenPrefixed(ReadLenPrefixed(s).value.value) + ReadLenPrefixed(s).value.rest <==> Shortest(s)
  {
    var n, t, rest := ReadUvarint(s).value, ReadLenPrefixed(s).value.value, ReadLenPrefixed(s).value.rest;
    UintForm(s);
    assert ToBytes(t) == n.rest[..n.value];
    assert n.rest == ToBytes(t) + rest;
    assert LenPrefixed(t) + rest == Uvarint(|t|) + n.rest;
  }

  lemma {:induction false} LittleEndianForm(b: seq<byte>, k: nat)
    requires |b| == k
    ensures LittleEndian(FromLittleEndian(b), k) == b
    decreases k
  {
    if k > 0 {
      LittleEndianForm(b[1..], k - 1);
      FirstByte(b[0], FromLittleEndian(b[1..]));
    }
  }

  lemma FirstByte(b: byte, n: nat)
    ensures (b + 256 * n) % 256 == b && (b + 256 * n) / 256 == n
  {
  }

  lemma FloatForm(s: seq<byte>, k: nat)
    requires k <= |s|
    ensures s == LittleEndian(FromLittleEndian(s[..k]), k) + s[k..]
  {
    LittleEndianForm(s[..k], k);
  }

  predicate ShortestTime(s: seq<byte>) { Shortest(s) && ReadVarint(s).Ok? && Shortest(ReadVarint(s).value.rest) }

  lemma TimeForm(s: seq<byte>)
    requires ReadTime(s).Ok?
    ensures var r := ReadTime(s).value;
            s == Uvarint(ZigZag(r.value.sec)) + Uvarint(r.value.nsec) + r.rest <==> ShortestTime(s)
  {
    var r, sec := ReadTime(s).value, ReadVarint(s).value;
    var a, b := Uvarint(ZigZag(r.value.sec)), Uvarint(r.value.nsec);
    IntForm(s);
    UintForm(sec.rest);
    assert a + b + r.rest == a + (b + r.rest);
    if s == a + b + r.rest { IntReadsBack(r.value.sec, b + r.rest); }
  }

  predicate ShortestTagged(tag: byte, s: seq<byte>) {
    if tag in {TAG_INT, TAG_UINT, TAG_STRING, TAG_BYTES, TAG_RAW} then Shortest(s)
    else if tag == TAG_TIME then ShortestTime(s)
    else true
  }

  /** Every varint of a value is as short as it can be. */
  predicate ShortestValue(s: seq<byte>) { s != [] && ShortestTagged(s[0], s[1..]) }

  lemma TaggedForm(tag: byte, s: seq<byte>)
    requires ReadTagged(tag, s).Ok? && EncodeValue(ReadTagged(tag, s).value.value).Ok?
    ensures Payload(ReadTagged(tag, s).value.value).0 == tag
    ensures s == Payload(ReadTagged(tag, s).value.value).1 + ReadTagged(tag, s).value.rest <==> ShortestTagged(tag, s)
  {
    if tag == TAG_INT { IntForm(s); }
    else if tag == TAG_UINT { UintForm(s); }
    else if tag == TAG_FLOAT32 { FloatForm(s, 4); }
    else if tag == TAG_FLOAT64 { FloatForm(s, 8); }
    else if tag == TAG_STRING || tag == TAG_BYTES || tag == TAG_RAW { TextForm(s); }
    else if tag == TAG_TIME { TimeForm(s); }
    else if tag == TAG_BOOL { assert s == [s[0]] + s[1..]; }
  }

  lemma ValueForm(s: seq<byte>)
    requires ReadValue(s).Ok? && EncodeValue(ReadValue(s).value.value).Ok?
    ensures s == EncodeValue(ReadValue(s).value.value).value + ReadValue(s).value.rest <==> ShortestValue(s)
  {
    TaggedForm(s[0], s[1..]);
    Cancel([s[0]], s, Payload(ReadValue(s).value.value).1, ReadValue(s).value.rest);
  }

  lemma ColumnForm(s: seq<byte>)
    requires ReadColumn(s).Ok?
    ensures s == EncodeColumn(ReadColumn(s).value.value).value + ReadColumn(s).value.rest <==> Shortest(s)
  {
    var c, rest, name := ReadColumn(s).value.value, ReadColumn(s).value.rest, ReadLenPrefixed(s).value;
    TextForm(s);
    assert name.rest == [Flags(c)] + rest;
    assert LenPrefixed(c.name) + [Flags(c)] + rest == LenPrefixed(c.name) + name.rest;
  }

  // ---------- Records ----------

  /** What a reader takes from the front is what the writer writes exactly when the bytes
      are in form, and the reader finds the end of what the writer wrote. */
  ghost predicate Forms<T(!new)>(read: seq<byte> -> Parse<T>, encode: T -> Result<seq<byte>, Error>,
    form: seq<byte> -> bool)
  {
    forall s: seq<byte> :: |s| < INT_LIMIT && read(s).Ok? ==> Formed(read, encode, form, s)
  }

  ghost predicate Formed<T(!new)>(read: seq<byte> -> Parse<T>, encode: T -> Result<seq<byte>, Error>,
    form: seq<byte> -> bool, s: seq<byte>)
    requires read(s).Ok?
  {
    var x := read(s).value.value;
    && encode(x).Ok? && |read(s).value.rest| <= |s|
    && (s == encode(x).value + read(s).value.rest <==> form(s))
    && (forall rest: seq<byte> :: read(encode(x).value + rest) == Ok(Parsed(x, rest)))
  }

  /** n items one after another, each in form. */
  predicate InForm<T>(read: seq<byte> -> Parse<T>, form: seq<byte> -> bool, s: seq<byte>, n: nat)
    decreases n
  {
    n == 0 || (form(s) && read(s).Ok? && InForm(read, form, read(s).value.rest, n - 1))
  }

  lemma {:induction false} EncodesTail<T>(encode: T -> Result<seq<byte>, Error>, x: T, xs: seq<T>, i: nat)
    requires i <= |xs|
    ensures EncodeMany(encode, [x] + xs, i + 1) == EncodeMany(encode, xs, i)
    decreases |xs| - i
  {
    if i < |xs| { EncodesTail(encode, x, xs, i + 1); }
  }

  lemma {:induction false} ManyForm<T(!new)>(read: seq<byte> -> Parse<T>, encode: T -> Result<seq<byte>, Error>,
    form: seq<byte> -> bool,
                                             s: seq<byte>, n: nat)
    requires Forms(read, encode, form) && ReadMany(read, s, n).Ok? && |s| < INT_LIMIT
    ensures var r := ReadMany(read, s, n).value;
            EncodeMany(encode, r.value, 0).Ok?
              && (s == EncodeMany(encode, r.value, 0).value + r.rest <==> InForm(read, form, s, n))
    decreases n
  {
    var r := ReadMany(read, s, n).value;
    if n == 0 {
      assert [] + r.rest == r.rest;
    } else {
      var x, rest := read(s).value.value, read(s).value.rest;
      assert Formed(read, encode, form, s);
      ManyForm(read, encode, form, rest, n - 1);
      var xs := ReadMany(read, rest, n - 1).value.value;
      EncodesTail(encode, x, xs, 0);
      OneMoreForm(read, encode, form, s, EncodeMany(encode, xs, 0).value, r.rest);
    }
  }

  lemma OneMoreForm<T(!new)>(read: seq<byte> -> Parse<T>, encode: T -> Result<seq<byte>, Error>,
    form: seq<byte> -> bool,
                             s: seq<byte>, more: seq<byte>, end: seq<byte>)
    requires read(s).Ok? && Formed(read, encode, form, s)
    ensures s == encode(read(s).value.value).value + more + end <==> form(s) && read(s).value.rest == more + end
  {
    var x := encode(read(s).value.value).value;
    assert x + more + end == x + (more + end);
    if s == x + more + end { assert read(x + (more + end)) == Ok(Parsed(read(s).value.value, more + end)); }
  }

  /** A record of the version that is written, every varint of it as short as can be. */
  predicate RecordInForm<T>(read: seq<byte> -> Parse<T>, form: seq<byte> -> bool, b: seq<byte>) {
    && b != [] && b[0] == CODEC_VERSION && Shortest(b[1..])
    && ReadUvarint(b[1..]).Ok? && InForm(read, form, ReadUvarint(b[1..]).value.rest, ReadUvarint(b[1..]).value.value)
  }

  lemma ListForm<T(!new)>(read: seq<byte> -> Parse<T>, encode: T -> Result<seq<byte>, Error>, form: seq<byte> -> bool,
    width: nat, b: seq<byte>)
    requires Forms(read, encode, form) && (width == 1 || width == 2) && DecodeList(read, width, b).Ok?
    requires |b| < INT_LIMIT
    ensures EncodeList(encode, DecodeList(read, width, b).value) == Ok(b) <==> RecordInForm(read, form, b)
  {
    var n, xs := ReadUvarint(b[1..]).value, DecodeList(read, width, b).value;
    ManyForm(read, encode, form, n.rest, n.value);
    UintForm(b[1..]);
    var body := EncodeMany(encode, xs, 0).value;
    assert body + [] == body;
    assert b == [b[0]] + b[1..];
    if EncodeList(encode, xs) == Ok(b) {
      assert b[1..] == Uvarint(|xs|) + body;
      UintReadsBack(|xs|, body);
    }
  }

  lemma ValuesForm()
    ensures Forms(ReadValue, EncodeValue, ShortestValue)
  {
    forall s: seq<byte> | |s| < INT_LIMIT && ReadValue(s).Ok? ensures Formed(ReadValue, EncodeValue, ShortestValue, s) {
      var v := ReadValue(s).value.value;
      AcceptedValue(s);
      ValueForm(s);
      forall rest: seq<byte> ensures ReadValue(EncodeValue(v).value + rest) == Ok(Parsed(v, rest)) {
        ValueReadsBack(v, rest);
      }
    }
  }

  lemma ColumnsForm()
    ensures Forms(ReadColumn, EncodeColumn, Shortest)
  {
    forall s: seq<byte> | |s| < INT_LIMIT && ReadColumn(s).Ok? ensures Formed(ReadColumn, EncodeColumn, Shortest, s) {
      var c := ReadColumn(s).value.value;
      AcceptedColumn(s);
      ColumnForm(s);
      forall rest: seq<byte> ensures ReadColumn(EncodeColumn(c).value + rest) == Ok(Parsed(c, rest)) {
        ColumnReadsBack(c, rest);
      }
    }
  }

  /** An accepted row record is what its row encodes to exactly when its version is the
      one that is written and every varint in it is as short as it can be. */
  lemma RowReencodesExactly(b: seq<byte>)
    requires DecodeRow(b).Ok? && |b| < INT_LIMIT
    ensures EncodeRow(DecodeRow(b).value) == Ok(b) <==> RecordInForm(ReadValue, ShortestValue, b)
  {
    ValuesForm();
    ListForm(ReadValue, EncodeValue, ShortestValue, 1, b);
  }

  lemma ColumnsReencodeExactly(b: seq<byte>)
    requires DecodeColumns(b).Ok? && |b| < INT_LIMIT
    ensures EncodeColumns(DecodeColumns(b).value) == Ok(b) <==> RecordInForm(ReadColumn, Shortest, b)
  {
    ColumnsForm();
    ListForm(ReadColumn, EncodeColumn, Shortest, 2, b);
  }

  /** The version is not part of what is read: every record of version 0 decodes as the
      same record of version 1 does. */
  lemma OlderVersionIsRead(s: seq<byte>)
    ensures DecodeRow([0] + s) == DecodeRow([1] + s) && DecodeColumns([0] + s) == DecodeColumns([1] + s)
  {
    var b, c: seq<byte> := [0] + s, [1] + s;
    assert b[1..] == s && c[1..] == s;
  }
}
