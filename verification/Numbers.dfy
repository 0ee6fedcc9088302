/** Number text: the scanner that guards raw values (internal/change/raw.go) and
    the decimal text of integers. */
module Numbers {
  import opened Wrappers

  predicate IsDigit(c: char) { '0' <= c <= '9' }
  predicate IsSign(c: char) { c == '+' || c == '-' }
  predicate AllDigits(s: string) { forall i :: 0 <= i < |s| ==> IsDigit(s[i]) }
  predicate StartsWithDigit(s: string) { s != "" && IsDigit(s[0]) }
  predicate IsSignText(s: string) { s == "" || s == "+" || s == "-" }
  predicate IsDigits(s: string) { s != "" && AllDigits(s) }

  // ---------- The grammar ----------

  datatype Exponent = Exponent(mark: char, sign: string, digits: string)

  /** The written form of a plain SQL number: sign, digits, fraction, exponent. */
  datatype Number = Number(sign: string, whole: string, fraction: Option<string>, exponent: Option<Exponent>) {
    predicate Valid() {
      && IsSignText(sign)
      && IsDigits(whole)
      && (fraction.Some? ==> IsDigits(fraction.value))
      && (exponent.Some? ==>
            && (exponent.value.mark == 'e' || exponent.value.mark == 'E')
            && IsSignText(exponent.value.sign)
            && IsDigits(exponent.value.digits))
    }

    /** The text of the parts, followed by more text. */
    function ExponentText(rest: string): string {
      if exponent.Some? then [exponent.value.mark] + (exponent.value.sign + (exponent.value.digits + rest)) else rest
    }

    function FractionText(rest: string): string {
      var tail := ExponentText(rest);
      if fraction.Some? then "." + (fraction.value + tail) else tail
    }

    function Unsigned(rest: string): string { whole + FractionText(rest) }

    function Text(): string { sign + Unsigned("") }
  }

  ghost predicate IsNumber(s: string) { exists n: Number :: n.Valid() && n.Text() == s }

  // ---------- The scanner: each function returns what is left after its part ----------

  function DropSign(s: string): (r: string)
    ensures |r| <= |s|
  {
    if s != "" && IsSign(s[0]) then s[1..] else s
  }

  function DropDigits(s: string): (r: string)
    ensures |r| <= |s|
    ensures |r| < |s| <==> StartsWithDigit(s)
    ensures !StartsWithDigit(r)
  {
    if StartsWithDigit(s) then DropDigits(s[1..]) else s
  }

  function DropFraction(s: string): (r: Option<string>)
    ensures r.Some? ==> |r.value| <= |s|
  {
    if s != "" && s[0] == '.' then
      if StartsWithDigit(s[1..]) then Some(DropDigits(s[1..])) else None
    else Some(s)
  }

  function DropExponent(s: string): (r: Option<string>)
    ensures r.Some? ==> |r.value| <= |s|
  {
    if s != "" && (s[0] == 'e' || s[0] == 'E') then
      var d := DropSign(s[1..]);
      if StartsWithDigit(d) then Some(DropDigits(d)) else None
    else Some(s)
  }

  /** What follows the longest unsigned number at the front of s, if there is one. */
  function DropNumber(s: string): (r: Option<string>)
    ensures r.Some? ==> |r.value| < |s|
  {
    if !StartsWithDigit(s) then None
    else
      var r :- DropFraction(DropDigits(s));
      DropExponent(r)
  }

  predicate ValidRaw(s: string) { DropNumber(DropSign(s)) == Some("") }

  /** One digit loop of the scanner. */
  method ScanDigits(s: string, from: nat) returns (i: nat)
    requires from <= |s|
    ensures from <= i <= |s| && s[i..] == DropDigits(s[from..])
    ensures i == from <==> !StartsWithDigit(s[from..])
  {
    i := from;
    while i < |s| && IsDigit(s[i])
      invariant from <= i <= |s|
      invariant DropDigits(s[i..]) == DropDigits(s[from..])
      invariant i > from ==> StartsWithDigit(s[from..])
    {
      assert s[i..][1..] == s[i + 1..];
      i := i + 1;
    }
  }

  method ScanFraction(s: string, from: nat) returns (ok: bool, i: nat)
    requires from <= |s|
    ensures from <= i <= |s|
    ensures DropFraction(s[from..]) == if ok then Some(s[i..]) else None
  {
    i := from;
    if i < |s| && s[i] == '.' {
      i := ScanDigits(s, from + 1);
      assert s[from + 1..] == s[from..][1..];
      return i != from + 1, i;
    }
    return true, i;
  }

  method ScanExponent(s: string, from: nat) returns (ok: bool, i: nat)
    requires from <= |s|
    ensures from <= i <= |s|
    ensures DropExponent(s[from..]) == if ok then Some(s[i..]) else None
  {
    i := from;
    if i < |s| && (s[i] == 'e' || s[i] == 'E') {
      var start := from + 1;
      assert s[start..] == s[from..][1..];
      if start < |s| && IsSign(s[start]) {
        start := start + 1;
      }
      assert s[start..] == DropSign(s[from..][1..]);
      i := ScanDigits(s, start);
      return i != start, i;
    }
    return true, i;
  }

  /** The scanner as one index advanced through three digit runs. */
  method ScanRaw(s: string) returns (ok: bool)
    ensures ok <==> ValidRaw(s)
  {
    var i := if s != "" && IsSign(s[0]) then 1 else 0;
    assert s[i..] == DropSign(s);
    var start := i;
    i := ScanDigits(s, i);
    if i == start {
      return false;
    }
    ok, i := ScanFraction(s, i);
    if !ok {
      return;
    }
    ok, i := ScanExponent(s, i);
    return ok && i == |s|;
  }

  // ---------- Scanner and grammar agree ----------

  /** What may follow a number without becoming part of it. */
  predicate EndsNumber(rest: string) {
    rest != "" ==> !IsDigit(rest[0]) && rest[0] != '.' && rest[0] != 'e' && rest[0] != 'E'
  }

  lemma {:induction false} RunDrops(d: string, rest: string)
    requires AllDigits(d) && !StartsWithDigit(rest)
    ensures DropDigits(d + rest) == rest
  {
    if d == "" {
      assert d + rest == rest;
    } else {
      assert (d + rest)[1..] == d[1..] + rest;
      RunDrops(d[1..], rest);
    }
  }

  lemma ExponentDrops(n: Number, rest: string)
    requires n.Valid() && EndsNumber(rest)
    ensures DropExponent(n.ExponentText(rest)) == Some(rest)
  {
    if n.exponent.Some? {
      var x := n.exponent.value;
      var d := x.digits + rest;
      assert n.ExponentText(rest)[1..] == x.sign + d;
      assert DropSign(x.sign + d) == d;
      RunDrops(x.digits, rest);
    }
  }

  lemma FractionDrops(n: Number, rest: string)
    requires n.Valid() && EndsNumber(rest)
    ensures DropFraction(n.FractionText(rest)) == Some(n.ExponentText(rest))
  {
    if n.fraction.Some? {
      assert n.FractionText(rest)[1..] == n.fraction.value + n.ExponentText(rest);
      RunDrops(n.fraction.value, n.ExponentText(rest));
    }
  }

  /** The longest number at the front of a written number is all of it. */
  lemma WrittenNumberDrops(n: Number, rest: string)
    requires n.Valid() && EndsNumber(rest)
    ensures DropNumber(n.Unsigned(rest)) == Some(rest)
  {
    RunDrops(n.whole, n.FractionText(rest));
    FractionDrops(n, rest);
    ExponentDrops(n, rest);
  }

  lemma {:induction false} DigitsOf(s: string) returns (d: string)
    ensures s == d + DropDigits(s) && AllDigits(d) && (d != "" <==> StartsWithDigit(s))
  {
    d := "";
    if StartsWithDigit(s) {
      d := DigitsOf(s[1..]);
      assert s == [s[0]] + (d + DropDigits(s));
      assert [s[0]] + (d + DropDigits(s)) == ([s[0]] + d) + DropDigits(s);
      d := [s[0]] + d;
    }
  }

  lemma FractionOf(s: string) returns (f: Option<string>)
    requires DropFraction(s).Some?
    ensures f.Some? ==> IsDigits(f.value)
    ensures s == if f.Some? then "." + (f.value + DropFraction(s).value) else DropFraction(s).value
  {
    f := None;
    if s != "" && s[0] == '.' {
      var d := DigitsOf(s[1..]);
      f := Some(d);
    }
  }

  lemma ExponentOf(s: string) returns (x: Option<Exponent>)
    requires DropExponent(s) == Some("")
    ensures x.Some? ==> (x.value.mark == 'e' || x.value.mark == 'E')
    ensures x.Some? ==> IsSignText(x.value.sign) && IsDigits(x.value.digits)
    ensures s == if x.Some? then [x.value.mark] + (x.value.sign + (x.value.digits + "")) else ""
  {
    x := None;
    if s != "" && (s[0] == 'e' || s[0] == 'E') {
      var sign := SignOf(s[1..]);
      var d := DigitsOf(DropSign(s[1..]));
      x := Some(Exponent(s[0], sign, d));
    }
  }

  lemma SignOf(s: string) returns (sign: string)
    ensures IsSignText(sign) && s == sign + DropSign(s)
  {
    sign := if s != "" && IsSign(s[0]) then [s[0]] else "";
  }

  /** A scanned number taken apart into its written form. */
  lemma NumberOf(s: string) returns (n: Number)
    requires ValidRaw(s)
    ensures n.Valid() && n.Text() == s && n.Unsigned("") == DropSign(s)
  {
    var sign := SignOf(s);
    var u := DropSign(s);
    var whole := DigitsOf(u);
    var fraction := FractionOf(DropDigits(u));
    var exponent := ExponentOf(DropFraction(DropDigits(u)).value);
    n := Number(sign, whole, fraction, exponent);
  }

  /** The scanner accepts exactly the grammar: an optional sign, digits, an
      optional fraction and an optional exponent, and nothing around them. */
  lemma ValidRawIsTheGrammar(s: string)
    ensures ValidRaw(s) <==> IsNumber(s)
  {
    if ValidRaw(s) {
      var n := NumberOf(s);
    }
    if IsNumber(s) {
      var n: Number :| n.Valid() && n.Text() == s;
      WrittenNumberDrops(n, "");
      assert n.Unsigned("")[0] == n.whole[0];
      assert DropSign(n.sign + n.Unsigned("")) == n.Unsigned("");
    }
  }

  // ---------- Integers ----------

  function Digit(d: nat): (c: char)
    requires d < 10
    ensures IsDigit(c)
  {
    ('0' as int + d) as char
  }

  /** strconv.FormatUint(n, 10) */
  function Decimal(n: nat): (s: string)
    ensures IsDigits(s)
  {
    if n < 10 then [Digit(n)] else Decimal(n / 10) + [Digit(n % 10)]
  }

  /** strconv.FormatInt(i, 10) */
  function FormatInt(i: int): string {
    if i < 0 then "-" + Decimal(-i) else Decimal(i)
  }

  function ParseDecimal(s: string): nat
    requires AllDigits(s)
  {
    if s == "" then 0
    else 10 * ParseDecimal(s[..|s| - 1]) + (s[|s| - 1] as int - '0' as int)
  }

  lemma {:induction false} DecimalReadsBack(n: nat)
    ensures ParseDecimal(Decimal(n)) == n
  {
    if n >= 10 {
      DecimalReadsBack(n / 10);
      assert Decimal(n)[..|Decimal(n)| - 1] == Decimal(n / 10);
    } else {
      assert Decimal(n)[..0] == "";
    }
  }

  /** Integer text is a plain number, with a minus sign exactly when it denotes a
      negative integer, and its digits denote the magnitude. */
  lemma FormatIntReadsBack(i: int)
    ensures ValidRaw(FormatInt(i))
    ensures i < 0 <==> FormatInt(i)[0] == '-'
    ensures i < 0 ==> AllDigits(FormatInt(i)[1..]) && ParseDecimal(FormatInt(i)[1..]) == -i
    ensures i >= 0 ==> AllDigits(FormatInt(i)) && ParseDecimal(FormatInt(i)) == i
  {
    var m: nat := if i < 0 then -i else i;
    DecimalReadsBack(m);
    assert i < 0 ==> FormatInt(i)[1..] == Decimal(m);
    RunDrops(Decimal(m), "");
    assert Decimal(m) + "" == Decimal(m);
  }
}
