/** Column values as SQL literals (internal/reverse/literal.go). */
module Literal {
  import opened Wrappers
  import opened Change
  import opened Numbers
  import opened Sql
  import Utf8

  /** The text conversions this model leaves to the Go library: the shortest form
      of a float, by its bits, and the UTC calendar form of a second. */
  datatype Format = Format(f32: Uint32 -> string, f64: Uint64 -> string, date: Int64 -> string)

  predicate IsDateChar(c: char) { IsDigit(c) || c == '-' || c == ':' || c == ' ' }

  /** What is assumed of them: a finite float prints as a plain number, and a date
      prints in digits, dashes, colons and spaces. */
  ghost predicate Sound(fmt: Format) {
    && (forall x: Uint32 {:trigger fmt.f32(x)} :: IsFinite32(x) ==> ValidRaw(fmt.f32(x)))
    && (forall x: Uint64 {:trigger fmt.f64(x)} :: IsFinite64(x) ==> ValidRaw(fmt.f64(x)))
    && (forall t: Int64 {:trigger fmt.date(t)} :: forall i :: 0 <= i < |fmt.date(t)| ==> IsDateChar(fmt.date(t)[i]))
  }

  datatype Error = RawIsNotANumber(text: Text) | UnsupportedType(kind: nat)

  /** Bytes that mean the same under every sql_mode and connection charset when quoted. */
  predicate SafeByte(c: char) { c != '\\' && c as int >= 0x20 && c as int != 0x7F }

  predicate SafeToQuote(s: string) {
    (forall i :: 0 <= i < |s| ==> SafeByte(s[i])) && Utf8.Valid(s)
  }

  /** The index loop of safeToQuote. */
  method ScanSafe(s: Text) returns (safe: bool)
    ensures safe <==> SafeToQuote(s)
  {
    var i := 0;
    while i < |s|
      invariant 0 <= i <= |s|
      invariant forall k :: 0 <= k < i ==> SafeByte(s[k])
    {
      var c := s[i];
      if c == '\\' || c as int < 0x20 || c as int == 0x7F {
        return false;
      }
      i := i + 1;
    }
    return Utf8.Valid(s);
  }

  function QuoteString(s: Text): string {
    if SafeToQuote(s) then "'" + (Doubled('\'', s) + "'") else "X'" + (HexText(s) + "'")
  }

  /** n in decimal, padded with zeros to w digits. */
  function Padded(n: nat, w: nat): (s: string)
    ensures |s| == w && AllDigits(s)
  {
    if w == 0 then "" else Padded(n / 10, w - 1) + [Digit(n % 10)]
  }

  function TimeText(fmt: Format, sec: Int64, nsec: Nanos): string {
    fmt.date(sec) + if nsec != 0 then "." + Padded(nsec / 1000, 6) else ""
  }

  /** quoteTime: the layout gains a fraction only when the value carries one, and
      the zone the value was read in plays no part. */
  function QuoteTime(fmt: Format, sec: Int64, nsec: Nanos): string { "'" + (TimeText(fmt, sec, nsec) + "'") }

  function LiteralOf(fmt: Format, v: Value): Result<string, Error> {
    match v
    case Null => Ok("NULL")
    case Bool(b) => Ok(if b then "1" else "0")
    case Int(_, i) => Ok(FormatInt(i))
    case Uint(_, u) => Ok(Decimal(u))
    case Float32(x) => Ok(fmt.f32(x))
    case Float64(x) => Ok(fmt.f64(x))
    case Raw(t) => if ValidRaw(t) then Ok(t) else Err(RawIsNotANumber(t))
    case Str(s) => Ok(QuoteString(s))
    case Bytes(s) => Ok(QuoteString(s))
    case Time(sec, nsec, _) => Ok(QuoteTime(fmt, sec, nsec))
    case Unsupported(k) => Err(UnsupportedType(k))
  }

  /** The values literal can render. */
  predicate Renderable(v: Value) { !v.Unsupported? && (v.Raw? ==> ValidRaw(v.raw)) }

  predicate Finite(v: Value) {
    (v.Float32? ==> IsFinite32(v.f32)) && (v.Float64? ==> IsFinite64(v.f64))
  }

  // ---------- What the text of a value denotes ----------

  function TextLit(s: Text): Lit { if SafeToQuote(s) then StrLit(s) else HexLit(s) }

  /** The literal the server is meant to read for a value. */
  function Denotes(fmt: Format, v: Value): Lit
    requires Renderable(v)
  {
    match v
    case Null => NullLit
    case Bool(b) => NumLit(if b then "1" else "0")
    case Int(_, i) => NumLit(FormatInt(i))
    case Uint(_, u) => NumLit(FormatInt(u))
    case Float32(x) => NumLit(fmt.f32(x))
    case Float64(x) => NumLit(fmt.f64(x))
    case Raw(t) => NumLit(t)
    case Str(s) => TextLit(s)
    case Bytes(s) => TextLit(s)
    case Time(sec, nsec, _) => StrLit(TimeText(fmt, sec, nsec))
  }

  lemma BackslashFree(s: string)
    requires forall i :: 0 <= i < |s| ==> SafeByte(s[i])
    ensures '\\' !in s
  {
  }

  lemma {:induction false} NothingToDouble(q: char, s: string)
    requires q !in s
    ensures Doubled(q, s) == s
  {
    if s != "" {
      NothingToDouble(q, s[1..]);
      assert s == [s[0]] + s[1..];
    }
  }

  lemma TimeTextIsPlain(fmt: Format, sec: Int64, nsec: Nanos)
    requires Sound(fmt)
    ensures '\\' !in TimeText(fmt, sec, nsec) && '\'' !in TimeText(fmt, sec, nsec)
  {
    var d := fmt.date(sec);
    assert forall i :: 0 <= i < |d| ==> IsDateChar(d[i]);
    var p := Padded(nsec / 1000, 6);
    assert forall i :: 0 <= i < |p| ==> IsDigit(p[i]);
  }

  lemma IntegerIsWritable(i: int)
    ensures Writable(NumLit(FormatInt(i)))
  {
    FormatIntReadsBack(i);
  }

  lemma BoolIsWritable(b: bool)
    ensures Writable(NumLit(if b then "1" else "0"))
  {
    IntegerIsWritable(if b then 1 else 0);
    assert FormatInt(1) == "1" && FormatInt(0) == "0";
  }

  lemma TimeIsWritable(fmt: Format, sec: Int64, nsec: Nanos)
    requires Sound(fmt)
    ensures Writable(StrLit(TimeText(fmt, sec, nsec)))
    ensures LitText(StrLit(TimeText(fmt, sec, nsec))) == QuoteTime(fmt, sec, nsec)
  {
    TimeTextIsPlain(fmt, sec, nsec);
    NothingToDouble('\'', TimeText(fmt, sec, nsec));
  }

  lemma ValueIsWritable(fmt: Format, v: Value)
    requires Sound(fmt) && Renderable(v) && Finite(v)
    ensures Writable(Denotes(fmt, v))
  {
    match v
    case Bool(b) => BoolIsWritable(b);
    case Int(_, i) => IntegerIsWritable(i);
    case Uint(_, u) => IntegerIsWritable(u);
    case Str(s) => TextIsWritable(s);
    case Bytes(s) => TextIsWritable(s);
    case Time(sec, nsec, _) => TimeIsWritable(fmt, sec, nsec);
    case _ =>
  }

  /** The literal of a renderable, finite value is the text of what it denotes, and
      that can be written so that it reads back. */
  lemma LiteralDenotes(fmt: Format, v: Value)
    requires Sound(fmt) && Renderable(v) && Finite(v)
    ensures Writable(Denotes(fmt, v))
    ensures LiteralOf(fmt, v) == Ok(LitText(Denotes(fmt, v)))
    ensures v == Null <==> Denotes(fmt, v) == NullLit
  {
    ValueIsWritable(fmt, v);
    if v.Str? { TextIsWritable(v.s); }
    if v.Bytes? { TextIsWritable(v.bs); }
    if v.Time? { TimeIsWritable(fmt, v.sec, v.nsec); }
  }

  lemma TextIsWritable(s: Text)
    ensures Writable(TextLit(s)) && LitText(TextLit(s)) == QuoteString(s)
  {
    if SafeToQuote(s) { BackslashFree(s); }
  }

  // ---------- A literal determines its value ----------

  /** What is assumed of the conversions beside their form: no two finite floats and no
      two seconds share a text. */
  ghost predicate TellsApart(fmt: Format) {
    && (forall x, y {:trigger fmt.f32(x), fmt.f32(y)} :: IsFinite32(x) && IsFinite32(y) && fmt.f32(x) == fmt.f32(y) ==>
       x == y)
    && (forall x, y {:trigger fmt.f64(x), fmt.f64(y)} :: IsFinite64(x) && IsFinite64(y) && fmt.f64(x) == fmt.f64(y) ==>
       x == y)
    && (forall x, y {:trigger fmt.date(x), fmt.date(y)} :: fmt.date(x) == fmt.date(y) ==> x == y)
  }

  /** Two values of one type that MySQL stores alike: integers of any width, and times
      to the microsecond in any zone. */
  predicate SameStored(v: Value, w: Value) {
    match v
    case Int(_, i) => w.Int? && w.i == i
    case Uint(_, u) => w.Uint? && w.u == u
    case Time(sec, nsec, _) => w.Time? && w.sec == sec && w.nsec / 1000 == nsec / 1000
    case _ => v == w
  }

  /** Values of one column have one type, or are NULL. */
  predicate OneType(v: Value, w: Value) {
    match v
    case Null => true
    case Bool(_) => w.Bool? || w.Null?
    case Int(_, _) => w.Int? || w.Null?
    case Uint(_, _) => w.Uint? || w.Null?
    case Float32(_) => w.Float32? || w.Null?
    case Float64(_) => w.Float64? || w.Null?
    case Str(_) => w.Str? || w.Null?
    case Bytes(_) => w.Bytes? || w.Null?
    case Time(_, _, _) => w.Time? || w.Null?
    case Raw(_) => w.Raw? || w.Null?
    case Unsupported(_) => w.Unsupported? || w.Null?
  }

  function Ten(w: nat): nat { if w == 0 then 1 else 10 * Ten(w - 1) }

  lemma {:induction false} PaddedReadsBack(n: nat, w: nat)
    requires n < Ten(w)
    ensures ParseDecimal(Padded(n, w)) == n
    decreases w
  {
    if w > 0 {
      PaddedReadsBack(n / 10, w - 1);
      var p := Padded(n / 10, w - 1);
      assert Padded(n, w)[..w - 1] == p;
    }
  }

  lemma FormatIntTellsApart(i: int, j: int)
    requires FormatInt(i) == FormatInt(j)
    ensures i == j
  {
    FormatIntReadsBack(i);
    FormatIntReadsBack(j);
  }

  /** Only a time with a fraction has a dot in its text. */
  lemma DotMarksFraction(fmt: Format, sec: Int64, nsec: Nanos)
    requires Sound(fmt)
    ensures '.' in TimeText(fmt, sec, nsec) <==> nsec != 0
  {
    var d := fmt.date(sec);
    assert forall i :: 0 <= i < |d| ==> IsDateChar(d[i]);
    if nsec == 0 { assert d + "" == d; } else { assert TimeText(fmt, sec, nsec)[|d|] == '.'; }
  }

  lemma TimeTellsApart(fmt: Format, s: Int64, m: Nanos, t: Int64, n: Nanos)
    requires Sound(fmt) && TellsApart(fmt) && TimeText(fmt, s, m) == TimeText(fmt, t, n)
    ensures s == t && m / 1000 == n / 1000
  {
    DotMarksFraction(fmt, s, m);
    DotMarksFraction(fmt, t, n);
    var a, b := TimeText(fmt, s, m), TimeText(fmt, t, n);
    var d, e := fmt.date(s), fmt.date(t);
    if m == 0 {
      assert a == d + "" == d && b == e + "" == e;
    } else {
      var p, q := Padded(m / 1000, 6), Padded(n / 1000, 6);
      assert a == d + ("." + p) && b == e + ("." + q);
      assert |d| == |e| && a[..|d|] == d && b[..|d|] == e;
      assert a[|d| + 1..] == p && b[|d| + 1..] == q;
      assert Ten(6) == 1_000_000 by { assert Ten(3) == 1000; }
      PaddedReadsBack(m / 1000, 6);
      PaddedReadsBack(n / 1000, 6);
    }
  }

  /** A literal determines its value among the values of its column: the integer, the
      float's bits, the number's text, the bytes of a text in whichever form it was
      printed, and the time to the microsecond. */
  lemma LiteralKeepsTheValue(fmt: Format, v: Value, w: Value)
    requires Sound(fmt) && TellsApart(fmt)
    requires Renderable(v) && Finite(v) && Renderable(w) && Finite(w) && OneType(v, w)
    ensures Denotes(fmt, v) == Denotes(fmt, w) ==> SameStored(v, w)
  {
    if Denotes(fmt, v) == Denotes(fmt, w) {
      match v
      case Int(_, i) => if w.Int? { FormatIntTellsApart(i, w.i); }
      case Uint(_, u) => if w.Uint? { FormatIntTellsApart(u, w.u); }
      case Time(s, m, _) => if w.Time? { TimeTellsApart(fmt, s, m, w.sec, w.nsec); }
      case _ =>
    }
  }
}
