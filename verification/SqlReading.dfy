/** Written SQL is read back as the statements it was written from. */
module SqlReading {
  import opened Sequences
  import opened Wrappers
  import opened Numbers
  import opened Sql

  // ---------- Tokens of each construct ----------

  function NumTokens(t: string): seq<Token> {
    if t != "" && IsSign(t[0]) then [Punct(t[0]), Num(t[1..])] else [Num(t)]
  }

  function LitTokens(l: Lit): (ts: seq<Token>)
    ensures ts != []
  {
    match l
    case NullLit => [Word("NULL")]
    case NumLit(t) => NumTokens(t)
    case StrLit(t) => [Quoted(t)]
    case HexLit(b) => [HexBytes(b)]
  }

  function PredTokens(p: Pred<Lit>): seq<Token> {
    match p
    case IsNull(c) => [Ident(c), Word("IS"), Word("NULL")]
    case Equals(c, v) => [Ident(c), Punct('=')] + LitTokens(v)
  }

  function AssignTokens(a: Assign<Lit>): seq<Token> { [Ident(a.col), Punct('=')] + LitTokens(a.val) }

  function TableTokens(schema: string, table: string): seq<Token> { [Ident(schema), Punct('.'), Ident(table)] }

  function ListTokens<T>(tokens: T -> seq<Token>, sep: Token, xs: seq<T>): seq<Token> {
    if |xs| == 0 then []
    else if |xs| == 1 then tokens(xs[0])
    else tokens(xs[0]) + ([sep] + ListTokens(tokens, sep, xs[1..]))
  }

  function IdentTokens(c: string): seq<Token> { [Ident(c)] }

  function WhereTokens(where: seq<Pred<Lit>>): seq<Token> {
    [Word("WHERE")] + (ListTokens(PredTokens, Word("AND"), where) + [Word("LIMIT"), Num("1"), Punct(';')])
  }

  function StmtTokens(s: Stmt<Lit>): seq<Token> {
    match s
    case Delete(schema, table, where) =>
      [Word("DELETE"), Word("FROM")] + (TableTokens(schema, table) + WhereTokens(where))
    case Update(schema, table, sets, where) =>
      [Word("UPDATE")] + (TableTokens(schema, table) + ([Word("SET")] +
                                                        (ListTokens(AssignTokens, Punct(','), sets)
                                                          + WhereTokens(where))))
    case Insert(schema, table, cols, vals) =>
      [Word("INSERT"), Word("INTO")] +
      (TableTokens(schema, table) +
       ([Punct('(')] + (ListTokens(IdentTokens, Punct(','), cols) +
                        ([Punct(')'), Word("VALUES"), Punct('(')] +
                         (ListTokens(LitTokens, Punct(','), vals) + [Punct(')'), Punct(';')])))))
    case SetVariable(name, val) => [Word("SET"), Word(name), Punct('=')] + (LitTokens(val) + [Punct(';')])
    case SetNames(charset) => [Word("SET"), Word("NAMES"), Word(charset), Punct(';')]
  }

  // ---------- Text to tokens ----------

  function After(ts: seq<Token>, r: Option<seq<Token>>): Option<seq<Token>> {
    if r.Some? then Some(ts + r.value) else None
  }

  /** What can follow a piece of a statement: nothing, or a character that ends
      every word, number and quoted token. */
  predicate Delim(s: string) {
    s == "" || s[0] == ' ' || s[0] == '\n' || s[0] == ',' || s[0] == '(' || s[0] == ')' || s[0] == ';'
  }

  /** The text p reads as the tokens ts wherever it stands before a delimiter. */
  ghost predicate Reads(nb: bool, p: string, ts: seq<Token>) {
    forall rest: string :: Delim(rest) ==> Lex(nb, p + rest) == After(ts, Lex(nb, rest))
  }

  lemma ReadsConcat(nb: bool, p: string, ts: seq<Token>, q: string, us: seq<Token>)
    requires Reads(nb, p, ts) && Reads(nb, q, us) && Delim(q) && q != ""
    ensures Reads(nb, p + q, ts + us)
  {
    forall rest: string | Delim(rest)
      ensures Lex(nb, p + q + rest) == After(ts + us, Lex(nb, rest))
    {
      StillDelim(q, rest);
      ReadsTwice(nb, p, ts, q, us, rest);
      Regroup(p, q, rest);
    }
  }

  lemma StillDelim(q: string, rest: string)
    requires Delim(q) && q != ""
    ensures Delim(q + rest)
  {
    assert (q + rest)[0] == q[0];
  }

  /** Two pieces read one after the other. */
  lemma ReadsTwice(nb: bool, p: string, ts: seq<Token>, q: string, us: seq<Token>, rest: string)
    requires Reads(nb, p, ts) && Reads(nb, q, us) && Delim(rest) && Delim(q + rest)
    ensures Lex(nb, p + (q + rest)) == After(ts + us, Lex(nb, rest))
  {
    var r, r1, r2 := Lex(nb, rest), Lex(nb, q + rest), Lex(nb, p + (q + rest));
    assert r1 == After(us, r);
    assert r2 == After(ts, r1);
    AfterAfter(ts, us, r);
  }

  lemma AfterAfter(ts: seq<Token>, us: seq<Token>, r: Option<seq<Token>>)
    ensures After(ts, After(us, r)) == After(ts + us, r)
  {
    if r.Some? { assert ts + (us + r.value) == ts + us + r.value; }
  }

  lemma LexStep(nb: bool, s: string, t: Token, rest: string)
    requires s != "" && !IsBlank(s[0]) && s[0] != '-' && Next(nb, s) == Some((t, rest))
    ensures Lex(nb, s) == After([t], Lex(nb, rest))
  {
  }

  /** A text that is always one token, whatever delimiter comes after it. */
  ghost predicate IsToken(nb: bool, p: string, t: Token) {
    && p != "" && !IsBlank(p[0]) && p[0] != '-'
    && forall rest: string :: Delim(rest) ==> Next(nb, p + rest) == Some((t, rest))
  }

  lemma ReadsToken(nb: bool, p: string, t: Token)
    requires IsToken(nb, p, t)
    ensures Reads(nb, p, [t])
  {
    forall rest: string | Delim(rest) ensures Lex(nb, p + rest) == After([t], Lex(nb, rest)) {
      assert (p + rest)[0] == p[0];
      LexStep(nb, p + rest, t, rest);
    }
  }

  /** One token at the front, found by Next, followed by a piece. */
  lemma ReadsFront(nb: bool, a: string, t: Token, p: string, ts: seq<Token>)
    requires a != "" && !IsBlank(a[0]) && a[0] != '-' && Reads(nb, p, ts)
    requires forall rest: string :: Next(nb, a + (p + rest)) == Some((t, p + rest))
    ensures Reads(nb, a + p, [t] + ts)
  {
    forall rest: string | Delim(rest)
      ensures Lex(nb, a + p + rest) == After([t] + ts, Lex(nb, rest))
    {
      Regroup(a, p, rest);
      FrontStep(nb, a, t, p, ts, rest);
    }
  }

  lemma FrontStep(nb: bool, a: string, t: Token, p: string, ts: seq<Token>, rest: string)
    requires a != "" && !IsBlank(a[0]) && a[0] != '-' && Reads(nb, p, ts) && Delim(rest)
    requires Next(nb, a + (p + rest)) == Some((t, p + rest))
    ensures Lex(nb, a + (p + rest)) == After([t] + ts, Lex(nb, rest))
  {
    assert (a + (p + rest))[0] == a[0];
    LexStep(nb, a + (p + rest), t, p + rest);
    AfterAfter([t], ts, Lex(nb, rest));
  }

  lemma ReadsBlank(nb: bool, p: string, ts: seq<Token>)
    requires Reads(nb, p, ts)
    ensures Reads(nb, " " + p, ts)
  {
    forall rest: string | Delim(rest) ensures Lex(nb, " " + p + rest) == After(ts, Lex(nb, rest)) {
      assert (" " + p + rest)[1..] == p + rest;
    }
  }

  lemma ReadsPunct(nb: bool, c: char, p: string, ts: seq<Token>)
    requires Reads(nb, p, ts) && IsPunct(c) && !IsSign(c)
    ensures Reads(nb, [c] + p, [Punct(c)] + ts)
  {
    forall rest: string ensures Next(nb, [c] + (p + rest)) == Some((Punct(c), p + rest)) {
      assert ([c] + (p + rest))[1..] == p + rest;
    }
    ReadsFront(nb, [c], Punct(c), p, ts);
  }

  lemma ReadsNothing(nb: bool)
    ensures Reads(nb, "", [])
  {
    forall rest: string | Delim(rest) ensures Lex(nb, "" + rest) == After([], Lex(nb, rest)) {
      assert "" + rest == rest;
      var r := Lex(nb, rest);
      if r.Some? { assert [] + r.value == r.value; }
    }
  }

  // Words

  lemma {:induction false} WordDrops(w: string, rest: string)
    requires forall i :: 0 <= i < |w| ==> IsWordChar(w[i])
    requires Delim(rest)
    ensures DropWord(w + rest) == rest
  {
    if w == "" {
      assert w + rest == rest;
    } else {
      assert (w + rest)[1..] == w[1..] + rest;
      WordDrops(w[1..], rest);
    }
  }

  lemma ReadsWord(nb: bool, w: string)
    requires IsWord(w)
    ensures Reads(nb, w, [Word(w)])
  {
    forall rest: string | Delim(rest) ensures Next(nb, w + rest) == Some((Word(w), rest)) {
      WordDrops(w, rest);
      assert (w + rest)[..|w|] == w;
      assert (w + rest)[0] == w[0];
      assert |w + rest| > 1 ==> (w + rest)[1] != '\'';
    }
    ReadsToken(nb, w, Word(w));
  }

  /** A word, a space, and a piece. */
  lemma ReadsKeyword(nb: bool, w: string, p: string, ts: seq<Token>)
    requires IsWord(w) && Reads(nb, p, ts)
    ensures Reads(nb, w + (" " + p), [Word(w)] + ts)
  {
    ReadsWord(nb, w);
    ReadsBlank(nb, p, ts);
    ReadsConcat(nb, w, [Word(w)], " " + p, ts);
  }

  // Quoted tokens

  lemma {:induction false} DoubledScans(q: char, escapes: bool, s: string, rest: string)
    requires escapes ==> '\\' !in s && q != '\\'
    requires rest == "" || rest[0] != q
    ensures ScanQuoted(q, escapes, Doubled(q, s) + ([q] + rest)) == Some(Scan(s, rest))
  {
    if s == "" {
      assert Doubled(q, s) + ([q] + rest) == [q] + rest;
      assert ([q] + rest)[1..] == rest;
    } else {
      DoubledScans(q, escapes, s[1..], rest);
      assert s == [s[0]] + s[1..];
      DoubledFront(q, s, [q] + rest);
    }
  }

  lemma DoubledFront(q: char, s: string, rest: string)
    requires s != ""
    ensures var t, u := Doubled(q, s) + rest, Doubled(q, s[1..]) + rest;
            if s[0] == q then |t| >= 2 && t[0] == q && t[1] == q && t[2..] == u
            else |t| >= 1 && t[0] == s[0] && t[1..] == u
  {
    if s[0] == q { DropTwo(q, Doubled(q, s[1..]), rest); } else { DropOne(s[0], Doubled(q, s[1..]), rest); }
  }

  lemma DropTwo(q: char, d: string, rest: string)
    ensures var t := [q, q] + d + rest; |t| >= 2 && t[0] == q && t[1] == q && t[2..] == d + rest
  {
    assert [q, q] + d + rest == [q, q] + (d + rest);
  }

  lemma DropOne(c: char, d: string, rest: string)
    ensures var t := [c] + d + rest; |t| >= 1 && t[0] == c && t[1..] == d + rest
  {
    assert [c] + d + rest == [c] + (d + rest);
  }

  lemma IdentIsNext(nb: bool, name: string, rest: string)
    requires rest == "" || rest[0] != '`'
    ensures Next(nb, QuoteIdent(name) + rest) == Some((Ident(name), rest))
  {
    DoubledScans('`', false, name, rest);
    var t := QuoteIdent(name) + rest;
    assert t[1..] == Doubled('`', name) + ("`" + rest);
  }

  /** An identifier before a piece that does not start with a backtick. */
  lemma ReadsIdentThen(nb: bool, name: string, p: string, ts: seq<Token>)
    requires Reads(nb, p, ts) && p != "" && p[0] != '`'
    ensures Reads(nb, QuoteIdent(name) + p, [Ident(name)] + ts)
  {
    forall rest: string ensures Next(nb, QuoteIdent(name) + (p + rest)) == Some((Ident(name), p + rest)) {
      assert (p + rest)[0] == p[0];
      IdentIsNext(nb, name, p + rest);
    }
    ReadsFront(nb, QuoteIdent(name), Ident(name), p, ts);
  }

  lemma ReadsIdent(nb: bool, name: string)
    ensures Reads(nb, QuoteIdent(name), [Ident(name)])
  {
    forall rest: string | Delim(rest) ensures Next(nb, QuoteIdent(name) + rest) == Some((Ident(name), rest)) {
      IdentIsNext(nb, name, rest);
    }
    ReadsToken(nb, QuoteIdent(name), Ident(name));
  }

  lemma ReadsTable(nb: bool, schema: string, table: string)
    ensures Reads(nb, Qualify(schema, table), TableTokens(schema, table))
  {
    ReadsIdent(nb, table);
    ReadsPunct(nb, '.', QuoteIdent(table), [Ident(table)]);
    ReadsIdentThen(nb, schema, "." + QuoteIdent(table), [Punct('.')] + [Ident(table)]);
    assert [Ident(schema)] + ([Punct('.')] + [Ident(table)]) == TableTokens(schema, table);
  }

  lemma QuotedParts(q: string, body: string, end: string, rest: string)
    ensures q + (body + end) + rest == q + (body + (end + rest))
    ensures (q + (body + (end + rest)))[|q|..] == body + (end + rest)
  {
  }

  lemma StringIsNext(nb: bool, s: string, rest: string)
    requires '\\' !in s && (rest == "" || rest[0] != '\'')
    ensures Next(nb, "'" + (Doubled('\'', s) + "'") + rest) == Some((Quoted(s), rest))
  {
    DoubledScans('\'', !nb, s, rest);
    QuotedParts("'", Doubled('\'', s), "'", rest);
  }

  lemma ReadsString(nb: bool, s: string)
    requires '\\' !in s
    ensures Reads(nb, "'" + (Doubled('\'', s) + "'"), [Quoted(s)])
  {
    var p := "'" + (Doubled('\'', s) + "'");
    forall rest: string | Delim(rest) ensures Next(nb, p + rest) == Some((Quoted(s), rest)) {
      StringIsNext(nb, s, rest);
    }
    ReadsToken(nb, p, Quoted(s));
  }

  lemma HexDigitReads(d: nat)
    requires d < 16
    ensures HexValue(HexDigit(d)) == Some(d) && HexDigit(d) != '\''
  {
  }

  lemma OneByteScans(hi: nat, lo: nat, b: string, t: string, rest: string)
    requires hi < 16 && lo < 16 && ScanHex(t) == Some(Scan(b, rest))
    ensures ScanHex([HexDigit(hi), HexDigit(lo)] + t) == Some(Scan([(hi * 16 + lo) as char] + b, rest))
  {
    HexDigitReads(hi);
    HexDigitReads(lo);
    assert ([HexDigit(hi), HexDigit(lo)] + t)[2..] == t;
  }

  lemma {:induction false} HexScans(b: string, rest: string)
    requires IsBytes(b)
    ensures ScanHex(HexText(b) + ("'" + rest)) == Some(Scan(b, rest))
  {
    var t := HexText(b) + ("'" + rest);
    if b == "" {
      assert t == "'" + rest;
      assert t[1..] == rest;
    } else {
      HexScans(b[1..], rest);
      var hi, lo := b[0] as int / 16, b[0] as int % 16;
      assert hi % 16 == hi && (hi * 16 + lo) as char == b[0];
      assert t == [HexDigit(hi), HexDigit(lo)] + (HexText(b[1..]) + ("'" + rest));
      OneByteScans(hi, lo, b[1..], HexText(b[1..]) + ("'" + rest), rest);
      assert b == [b[0]] + b[1..];
    }
  }

  lemma HexIsNext(nb: bool, b: string, rest: string)
    requires IsBytes(b)
    ensures Next(nb, "X'" + (HexText(b) + "'") + rest) == Some((HexBytes(b), rest))
  {
    HexScans(b, rest);
    QuotedParts("X'", HexText(b), "'", rest);
  }

  lemma ReadsHex(nb: bool, b: string)
    requires IsBytes(b)
    ensures Reads(nb, "X'" + (HexText(b) + "'"), [HexBytes(b)])
  {
    var p := "X'" + (HexText(b) + "'");
    forall rest: string | Delim(rest) ensures Next(nb, p + rest) == Some((HexBytes(b), rest)) {
      HexIsNext(nb, b, rest);
    }
    ReadsToken(nb, p, HexBytes(b));
  }

  // Numbers

  lemma ExponentThen(n: Number, rest: string)
    ensures n.ExponentText("") + rest == n.ExponentText(rest)
  {
    if n.exponent.Some? {
      var x := n.exponent.value;
      assert x.digits + "" + rest == x.digits + rest;
      assert x.sign + (x.digits + "") + rest == x.sign + (x.digits + "" + rest);
      assert [x.mark] + (x.sign + (x.digits + "")) + rest == [x.mark] + (x.sign + (x.digits + "") + rest);
    } else {
      assert "" + rest == rest;
    }
  }

  lemma UnsignedThen(n: Number, rest: string)
    ensures n.Unsigned("") + rest == n.Unsigned(rest)
  {
    ExponentThen(n, rest);
    var x := n.ExponentText("");
    if n.fraction.Some? {
      var f := n.fraction.value;
      Regroup(f, x, rest);
      Regroup(".", f + x, rest);
    }
    Regroup(n.whole, n.FractionText(""), rest);
  }

  lemma NumberIsNext(nb: bool, n: Number, rest: string)
    requires n.Valid() && Delim(rest)
    ensures Next(nb, n.Unsigned("") + rest) == Some((Num(n.Unsigned("")), rest))
  {
    var u := n.Unsigned("");
    WrittenNumberDrops(n, rest);
    UnsignedThen(n, rest);
    assert u[0] == n.whole[0];
    FrontOf(u, rest);
  }

  lemma FrontOf(u: string, rest: string)
    ensures (u + rest)[..|u|] == u
    ensures u != "" ==> (u + rest)[0] == u[0]
  {
  }

  lemma ReadsUnsigned(nb: bool, n: Number)
    requires n.Valid()
    ensures Reads(nb, n.Unsigned(""), [Num(n.Unsigned(""))])
    ensures n.Unsigned("") != "" && IsDigit(n.Unsigned("")[0])
  {
    var u := n.Unsigned("");
    assert u[0] == n.whole[0];
    forall rest: string | Delim(rest) ensures Next(nb, u + rest) == Some((Num(u), rest)) {
      NumberIsNext(nb, n, rest);
    }
    ReadsToken(nb, u, Num(u));
  }

  lemma SignStep(nb: bool, c: char, u: string)
    requires IsSign(c) && StartsWithDigit(u)
    ensures Lex(nb, [c] + u) == After([Punct(c)], Lex(nb, u))
  {
    var s := [c] + u;
    assert s[1..] == u;
    assert s[1] == u[0];
  }

  lemma ReadsNumber(nb: bool, t: string)
    requires ValidRaw(t)
    ensures Reads(nb, t, NumTokens(t))
  {
    var n := NumberOf(t);
    var u := n.Unsigned("");
    ReadsUnsigned(nb, n);
    if t != "" && IsSign(t[0]) {
      assert t == [t[0]] + u;
      forall rest: string | Delim(rest) ensures Lex(nb, t + rest) == After(NumTokens(t), Lex(nb, rest)) {
        Regroup([t[0]], u, rest);
        FrontOf(u, rest);
        SignStep(nb, t[0], u + rest);
        AfterAfter([Punct(t[0])], [Num(u)], Lex(nb, rest));
        assert [Punct(t[0])] + [Num(u)] == NumTokens(t);
      }
    }
  }

  // Constructs

  lemma ReadsLit(nb: bool, l: Lit)
    requires Writable(l)
    ensures Reads(nb, LitText(l), LitTokens(l))
  {
    match l
    case NullLit => ReadsWord(nb, "NULL");
    case NumLit(t) => ReadsNumber(nb, t);
    case StrLit(t) => ReadsString(nb, t);
    case HexLit(b) => ReadsHex(nb, b);
  }

  lemma ReadsEquals(nb: bool, col: string, l: Lit)
    requires Writable(l)
    ensures Reads(nb, QuoteIdent(col) + (" = " + LitText(l)), [Ident(col), Punct('=')] + LitTokens(l))
  {
    ReadsLit(nb, l);
    ReadsBlank(nb, LitText(l), LitTokens(l));
    ReadsPunct(nb, '=', " " + LitText(l), LitTokens(l));
    ReadsBlank(nb, "=" + (" " + LitText(l)), [Punct('=')] + LitTokens(l));
    assert " " + ("=" + (" " + LitText(l))) == " = " + LitText(l);
    ReadsIdentThen(nb, col, " = " + LitText(l), [Punct('=')] + LitTokens(l));
    assert [Ident(col)] + ([Punct('=')] + LitTokens(l)) == [Ident(col), Punct('=')] + LitTokens(l);
  }

  lemma ReadsPred(nb: bool, p: Pred<Lit>)
    requires WritablePred(p)
    ensures Reads(nb, PredText(MapPred(LitText, p)), PredTokens(p))
  {
    match p
    case IsNull(c) =>
      ReadsWord(nb, "NULL");
      ReadsKeyword(nb, "IS", "NULL", [Word("NULL")]);
      assert "IS" + (" " + "NULL") == "IS NULL";
      ReadsBlank(nb, "IS NULL", [Word("IS")] + [Word("NULL")]);
      assert " " + "IS NULL" == " IS NULL";
      ReadsIdentThen(nb, c, " IS NULL", [Word("IS")] + [Word("NULL")]);
      assert [Ident(c)] + ([Word("IS")] + [Word("NULL")]) == PredTokens(p);
    case Equals(c, v) =>
      ReadsEquals(nb, c, v);
  }

  /** A separator piece: its text before any piece reads as its token. */
  ghost predicate SepReads(nb: bool, sep: string, t: Token) {
    && sep != "" && Delim(sep)
    && forall p: string, ts: seq<Token> :: Reads(nb, p, ts) ==> Reads(nb, sep + p, [t] + ts)
  }

  lemma CommaReads(nb: bool)
    ensures SepReads(nb, ", ", Punct(','))
  {
    forall p: string, ts: seq<Token> | Reads(nb, p, ts) ensures Reads(nb, ", " + p, [Punct(',')] + ts) {
      ReadsBlank(nb, p, ts);
      ReadsPunct(nb, ',', " " + p, ts);
      assert "," + (" " + p) == ", " + p;
    }
  }

  lemma AndReads(nb: bool)
    ensures SepReads(nb, " AND ", Word("AND"))
  {
    forall p: string, ts: seq<Token> | Reads(nb, p, ts) ensures Reads(nb, " AND " + p, [Word("AND")] + ts) {
      ReadsKeyword(nb, "AND", p, ts);
      ReadsBlank(nb, "AND" + (" " + p), [Word("AND")] + ts);
      assert " " + ("AND" + (" " + p)) == " AND " + p;
    }
  }

  lemma {:induction false} ReadsList<T(!new)>(
      nb: bool, texts: seq<string>, tokens: T -> seq<Token>, sep: string, t: Token, xs: seq<T>)
    requires |texts| == |xs| && |xs| > 0 && SepReads(nb, sep, t)
    requires forall i :: 0 <= i < |xs| ==> Reads(nb, texts[i], tokens(xs[i]))
    ensures Reads(nb, Join(texts, sep), ListTokens(tokens, t, xs))
  {
    if |xs| > 1 {
      ReadsList(nb, texts[1..], tokens, sep, t, xs[1..]);
      var p, ts := Join(texts[1..], sep), ListTokens(tokens, t, xs[1..]);
      assert Reads(nb, sep + p, [t] + ts);
      ReadsConcat(nb, texts[0], tokens(xs[0]), sep + p, [t] + ts);
    }
  }

  lemma ReadsPreds(nb: bool, where: seq<Pred<Lit>>)
    requires where != [] && forall p :: p in where ==> WritablePred(p)
    ensures Reads(nb, Join(PredTexts(MapPreds(LitText, where)), " AND "), ListTokens(PredTokens, Word("AND"), where))
  {
    AndReads(nb);
    forall i | 0 <= i < |where| ensures Reads(nb, PredTexts(MapPreds(LitText, where))[i], PredTokens(where[i])) {
      ReadsPred(nb, where[i]);
    }
    ReadsList(nb, PredTexts(MapPreds(LitText, where)), PredTokens, " AND ", Word("AND"), where);
  }

  lemma ReadsAssigns(nb: bool, sets: seq<Assign<Lit>>)
    requires sets != [] && forall a :: a in sets ==> WritableAssign(a)
    ensures Reads(nb, Join(AssignTexts(MapAssigns(LitText, sets)), ", "), ListTokens(AssignTokens, Punct(','), sets))
  {
    CommaReads(nb);
    forall i | 0 <= i < |sets| ensures Reads(nb, AssignTexts(MapAssigns(LitText, sets))[i], AssignTokens(sets[i])) {
      assert WritableAssign(sets[i]);
      ReadsEquals(nb, sets[i].col, sets[i].val);
    }
    ReadsList(nb, AssignTexts(MapAssigns(LitText, sets)), AssignTokens, ", ", Punct(','), sets);
  }

  lemma ReadsNames(nb: bool, cols: seq<string>)
    requires cols != []
    ensures Reads(nb, Join(NameTexts(cols), ", "), ListTokens(IdentTokens, Punct(','), cols))
  {
    CommaReads(nb);
    forall i | 0 <= i < |cols| ensures Reads(nb, NameTexts(cols)[i], IdentTokens(cols[i])) {
      ReadsIdent(nb, cols[i]);
    }
    ReadsList(nb, NameTexts(cols), IdentTokens, ", ", Punct(','), cols);
  }

  lemma ReadsVals(nb: bool, vals: seq<Lit>)
    requires vals != [] && forall v :: v in vals ==> Writable(v)
    ensures Reads(nb, Join(MapVals(LitText, vals), ", "), ListTokens(LitTokens, Punct(','), vals))
  {
    CommaReads(nb);
    forall i | 0 <= i < |vals| ensures Reads(nb, MapVals(LitText, vals)[i], LitTokens(vals[i])) {
      ReadsLit(nb, vals[i]);
    }
    ReadsList(nb, MapVals(LitText, vals), LitTokens, ", ", Punct(','), vals);
  }

  // Statements

  /** A space, a word, a space, and a piece. */
  lemma ReadsSpacedKeyword(nb: bool, w: string, p: string, ts: seq<Token>)
    requires IsWord(w) && Reads(nb, p, ts)
    ensures Reads(nb, " " + (w + (" " + p)), [Word(w)] + ts)
  {
    ReadsKeyword(nb, w, p, ts);
    ReadsBlank(nb, w + (" " + p), [Word(w)] + ts);
  }

  lemma ReadsSemicolon(nb: bool)
    ensures Reads(nb, ";", [Punct(';')])
  {
    ReadsNothing(nb);
    ReadsPunct(nb, ';', "", []);
    assert [';'] + "" == ";" && [Punct(';')] + [] == [Punct(';')];
  }

  lemma ReadsClose(nb: bool)
    ensures Reads(nb, ");", [Punct(')'), Punct(';')])
  {
    ReadsSemicolon(nb);
    ReadsPunct(nb, ')', ";", [Punct(';')]);
    assert ")" + ";" == ");";
    assert [Punct(')')] + [Punct(';')] == [Punct(')'), Punct(';')];
  }

  lemma ReadsLimit(nb: bool)
    ensures Reads(nb, " LIMIT 1;", [Word("LIMIT"), Num("1"), Punct(';')])
  {
    ReadsSemicolon(nb);
    FormatIntReadsBack(1);
    assert FormatInt(1) == "1";
    ReadsNumber(nb, "1");
    ReadsConcat(nb, "1", [Num("1")], ";", [Punct(';')]);
    assert "1" + ";" == "1;";
    ReadsSpacedKeyword(nb, "LIMIT", "1;", [Num("1")] + [Punct(';')]);
    assert " " + ("LIMIT" + (" " + "1;")) == " LIMIT 1;";
    assert [Word("LIMIT")] + ([Num("1")] + [Punct(';')]) == [Word("LIMIT"), Num("1"), Punct(';')];
  }

  lemma WhereShape(x: string)
    ensures " " + ("WHERE" + (" " + x)) == " WHERE " + x
  {
  }

  lemma ReadsWhere(nb: bool, where: seq<Pred<Lit>>)
    requires where != [] && forall p :: p in where ==> WritablePred(p)
    ensures Reads(nb, " WHERE "
            + (Join(PredTexts(MapPreds(LitText, where)), " AND ") + " LIMIT 1;"), WhereTokens(where))
  {
    var w, ts := Join(PredTexts(MapPreds(LitText, where)), " AND "), ListTokens(PredTokens, Word("AND"), where);
    ReadsPreds(nb, where);
    ReadsLimit(nb);
    ReadsConcat(nb, w, ts, " LIMIT 1;", [Word("LIMIT"), Num("1"), Punct(';')]);
    ReadsSpacedKeyword(nb, "WHERE", w + " LIMIT 1;", ts + [Word("LIMIT"), Num("1"), Punct(';')]);
    WhereShape(w + " LIMIT 1;");
  }

  lemma DeleteShape(x: string)
    ensures "DELETE" + (" " + ("FROM" + (" " + x))) == "DELETE FROM " + x
  {
  }

  lemma UpdateShape(x: string)
    ensures "UPDATE" + (" " + x) == "UPDATE " + x
  {
  }

  lemma InsertShape(x: string)
    ensures "INSERT" + (" " + ("INTO" + (" " + x))) == "INSERT INTO " + x
  {
  }

  lemma SetShape(x: string)
    ensures "SET" + (" " + x) == "SET " + x
  {
  }

  lemma EqualsShape(x: string)
    ensures " " + ("=" + (" " + x)) == " = " + x
  {
  }

  lemma NamesShape(x: string)
    ensures "SET" + (" " + ("NAMES" + (" " + x))) == "SET NAMES " + x
  {
  }

  lemma ReadsDelete(nb: bool, s: Stmt<Lit>)
    requires s.Delete? && WritableStmt(s)
    ensures Reads(nb, Written(s), StmtTokens(s))
  {
    var table, tt := Qualify(s.schema, s.table), TableTokens(s.schema, s.table);
    var where := " WHERE " + (Join(PredTexts(MapPreds(LitText, s.where)), " AND ") + " LIMIT 1;");
    ReadsTable(nb, s.schema, s.table);
    ReadsWhere(nb, s.where);
    ReadsConcat(nb, table, tt, where, WhereTokens(s.where));
    ReadsKeyword(nb, "FROM", table + where, tt + WhereTokens(s.where));
    ReadsKeyword(nb, "DELETE", "FROM" + (" " + (table + where)), [Word("FROM")] + (tt + WhereTokens(s.where)));
    DeleteShape(table + where);
    assert [Word("DELETE")] + ([Word("FROM")] + (tt + WhereTokens(s.where))) == StmtTokens(s);
  }

  lemma ReadsTableSet(nb: bool, table: string, tt: seq<Token>, rest: string, ts: seq<Token>)
    requires Reads(nb, table, tt) && Reads(nb, rest, ts)
    ensures Reads(nb, table + (" SET " + rest), tt + ([Word("SET")] + ts))
  {
    ReadsSpacedKeyword(nb, "SET", rest, ts);
    assert " " + ("SET" + (" " + rest)) == " SET " + rest;
    ReadsConcat(nb, table, tt, " SET " + rest, [Word("SET")] + ts);
  }

  lemma ReadsUpdate(nb: bool, s: Stmt<Lit>)
    requires s.Update? && WritableStmt(s)
    ensures Reads(nb, Written(s), StmtTokens(s))
  {
    var table, tt := Qualify(s.schema, s.table), TableTokens(s.schema, s.table);
    var where, wt := " WHERE "
      + (Join(PredTexts(MapPreds(LitText, s.where)), " AND ") + " LIMIT 1;"), WhereTokens(s.where);
    var sets, st := Join(AssignTexts(MapAssigns(LitText, s.sets)), ", "), ListTokens(AssignTokens, Punct(','), s.sets);
    ReadsTable(nb, s.schema, s.table);
    ReadsAssigns(nb, s.sets);
    ReadsWhere(nb, s.where);
    ReadsConcat(nb, sets, st, where, wt);
    ReadsTableSet(nb, table, tt, sets + where, st + wt);
    ReadsKeyword(nb, "UPDATE", table + (" SET " + (sets + where)), tt + ([Word("SET")] + (st + wt)));
    UpdateShape(table + (" SET " + (sets + where)));
  }

  lemma ReadsParens(nb: bool, open: string, p: string, ts: seq<Token>, q: string, us: seq<Token>)
    requires Reads(nb, p, ts) && Reads(nb, q, us) && Delim(q) && q != ""
    ensures Reads(nb, "(" + (p + q), [Punct('(')] + (ts + us))
  {
    ReadsConcat(nb, p, ts, q, us);
    ReadsPunct(nb, '(', p + q, ts + us);
  }

  lemma ReadsValues(nb: bool, vals: seq<Lit>)
    requires vals != [] && forall v :: v in vals ==> Writable(v)
    ensures Reads(nb, ") VALUES (" + (Join(MapVals(LitText, vals), ", ") + ");"),
                  [Punct(')'), Word("VALUES"), Punct('(')] +
                  (ListTokens(LitTokens, Punct(','), vals) + [Punct(')'), Punct(';')]))
  {
    var v, vt := Join(MapVals(LitText, vals), ", "), ListTokens(LitTokens, Punct(','), vals);
    ReadsVals(nb, vals);
    ReadsClose(nb);
    ReadsParens(nb, "(", v, vt, ");", [Punct(')'), Punct(';')]);
    var p, ts := "(" + (v + ");"), [Punct('(')] + (vt + [Punct(')'), Punct(';')]);
    ReadsSpacedKeyword(nb, "VALUES", p, ts);
    ReadsPunct(nb, ')', " " + ("VALUES" + (" " + p)), [Word("VALUES")] + ts);
    ValuesShape(v + ");", vt + [Punct(')'), Punct(';')]);
  }

  lemma ValuesShape(p: string, ts: seq<Token>)
    ensures ")" + (" " + ("VALUES" + (" " + ("(" + p)))) == ") VALUES (" + p
    ensures [Punct(')')] + ([Word("VALUES")] + ([Punct('(')] + ts)) == [Punct(')'), Word("VALUES"), Punct('(')] + ts
  {
  }

  lemma ReadsColumnsAndValues(nb: bool, cols: seq<string>, vals: seq<Lit>) returns (text: string, ts: seq<Token>)
    requires cols != [] && vals != [] && forall v :: v in vals ==> Writable(v)
    ensures text == " (" + (Join(NameTexts(cols), ", ") + (") VALUES (" + (Join(MapVals(LitText, vals), ", ") + ");")))
    ensures ts == [Punct('(')] + (ListTokens(IdentTokens, Punct(','), cols) +
                                  ([Punct(')'), Word("VALUES"), Punct('(')] +
                                   (ListTokens(LitTokens, Punct(','), vals) + [Punct(')'), Punct(';')])))
    ensures Reads(nb, text, ts)
  {
    var c, ct := Join(NameTexts(cols), ", "), ListTokens(IdentTokens, Punct(','), cols);
    var v := ") VALUES (" + (Join(MapVals(LitText, vals), ", ") + ");");
    var vt := [Punct(')'), Word("VALUES"), Punct('(')] +
              (ListTokens(LitTokens, Punct(','), vals) + [Punct(')'), Punct(';')]);
    ReadsNames(nb, cols);
    ReadsValues(nb, vals);
    ReadsParens(nb, "(", c, ct, v, vt);
    ts := [Punct('(')] + (ct + vt);
    ReadsBlank(nb, "(" + (c + v), ts);
    text := " (" + (c + v);
    assert " " + ("(" + (c + v)) == text;
  }

  lemma ReadsInsert(nb: bool, s: Stmt<Lit>)
    requires s.Insert? && WritableStmt(s)
    ensures Reads(nb, Written(s), StmtTokens(s))
  {
    var table, tt := Qualify(s.schema, s.table), TableTokens(s.schema, s.table);
    ReadsTable(nb, s.schema, s.table);
    var p, ts := ReadsColumnsAndValues(nb, s.cols, s.vals);
    ReadsConcat(nb, table, tt, p, ts);
    var q, us := table + p, tt + ts;
    ReadsKeyword(nb, "INTO", q, us);
    ReadsKeyword(nb, "INSERT", "INTO" + (" " + q), [Word("INTO")] + us);
    InsertShape(q);
    assert [Word("INSERT")] + ([Word("INTO")] + us) == [Word("INSERT"), Word("INTO")] + us;
  }

  lemma ReadsSetVariable(nb: bool, name: string, val: Lit)
    requires IsWord(name) && Writable(val)
    ensures Reads(nb, Written(SetVariable(name, val)), StmtTokens(SetVariable(name, val)))
  {
    ReadsSemicolon(nb);
    ReadsLit(nb, val);
    var v, vt := LitText(val) + ";", LitTokens(val) + [Punct(';')];
    ReadsConcat(nb, LitText(val), LitTokens(val), ";", [Punct(';')]);
    ReadsBlank(nb, v, vt);
    ReadsPunct(nb, '=', " " + v, vt);
    ReadsKeyword(nb, name, "=" + (" " + v), [Punct('=')] + vt);
    EqualsShape(v);
    assert name + (" " + ("=" + (" " + v))) == name + (" = " + v);
    var x, xt := name + (" = " + v), [Word(name)] + ([Punct('=')] + vt);
    ReadsKeyword(nb, "SET", x, xt);
    SetShape(x);
    assert [Word("SET")] + ([Word(name)] + ([Punct('=')] + vt)) == [Word("SET"), Word(name), Punct('=')] + vt;
  }

  lemma ReadsSetNames(nb: bool, charset: string)
    requires IsWord(charset)
    ensures Reads(nb, Written(SetNames(charset)), StmtTokens(SetNames(charset)))
  {
    ReadsSemicolon(nb);
    ReadsWord(nb, charset);
    ReadsConcat(nb, charset, [Word(charset)], ";", [Punct(';')]);
    var x := charset + ";";
    ReadsKeyword(nb, "NAMES", x, [Word(charset)] + [Punct(';')]);
    ReadsKeyword(nb, "SET", "NAMES" + (" " + x), [Word("NAMES")] + ([Word(charset)] + [Punct(';')]));
    NamesShape(x);
    assert [Word("SET")] + ([Word("NAMES")] + ([Word(charset)] + [Punct(';')]))
        == [Word("SET"), Word("NAMES"), Word(charset), Punct(';')];
  }

  /** Every statement reads as exactly its own tokens, whatever its names and
      values hold and however the server treats a backslash. */
  lemma ReadsStmt(nb: bool, s: Stmt<Lit>)
    requires WritableStmt(s)
    ensures Reads(nb, Written(s), StmtTokens(s))
  {
    match s
    case Delete(_, _, _) => ReadsDelete(nb, s);
    case Update(_, _, _, _) => ReadsUpdate(nb, s);
    case Insert(_, _, _, _) => ReadsInsert(nb, s);
    case SetVariable(name, val) => ReadsSetVariable(nb, name, val);
    case SetNames(charset) => ReadsSetNames(nb, charset);
  }

  // ---------- Tokens to statements ----------

  lemma LitParses(l: Lit, rest: seq<Token>)
    ensures ParseLit(LitTokens(l) + rest) == Some((l, rest))
  {
    var ts := LitTokens(l) + rest;
    if l.NumLit? && l.text != "" && IsSign(l.text[0]) {
      assert ts[..2] == [Punct(l.text[0]), Num(l.text[1..])];
      assert ts[2..] == rest;
      assert [l.text[0]] + l.text[1..] == l.text;
    } else {
      assert ts[0] == LitTokens(l)[0];
      assert ts[1..] == rest;
    }
  }

  lemma IdentParses(c: string, rest: seq<Token>)
    ensures ParseIdent(IdentTokens(c) + rest) == Some((c, rest))
  {
  }

  lemma EqualsParts(c: string, l: Lit, rest: seq<Token>)
    ensures var ts := [Ident(c), Punct('=')] + LitTokens(l) + rest;
            ts != [] && ts[0] == Ident(c) && ts[1] == Punct('=') && ts[1..][1..] == LitTokens(l) + rest
  {
    var ts := [Ident(c), Punct('=')] + LitTokens(l) + rest;
    assert ts == [Ident(c), Punct('=')] + (LitTokens(l) + rest);
  }

  lemma AssignParses(a: Assign<Lit>, rest: seq<Token>)
    ensures ParseAssign(AssignTokens(a) + rest) == Some((a, rest))
  {
    EqualsParts(a.col, a.val, rest);
    LitParses(a.val, rest);
  }

  lemma PredParses(p: Pred<Lit>, rest: seq<Token>)
    ensures ParsePred(PredTokens(p) + rest) == Some((p, rest))
  {
    match p
    case IsNull(c) =>
      var ts := PredTokens(p) + rest;
      assert ts[1..][1..] == [Word("NULL")] + rest;
    case Equals(c, v) =>
      EqualsParts(c, v, rest);
      LitParses(v, rest);
  }

  /** An item parser that undoes an item printer. */
  ghost predicate Undoes<T(!new)>(item: Parser<T>, tokens: T -> seq<Token>) {
    forall x: T, rest: seq<Token> :: item(tokens(x) + rest) == Some((x, rest))
  }

  lemma {:induction false} ListParses<T(!new)>(
      item: Parser<T>, tokens: T -> seq<Token>, sep: Token, xs: seq<T>, rest: seq<Token>)
    requires xs != [] && Undoes(item, tokens)
    requires rest == [] || rest[0] != sep
    ensures ParseList(item, sep, ListTokens(tokens, sep, xs) + rest) == Some((xs, rest))
  {
    if |xs| == 1 {
      assert item(tokens(xs[0]) + rest) == Some((xs[0], rest));
      assert xs == [xs[0]];
    } else {
      var more := ListTokens(tokens, sep, xs[1..]) + rest;
      Split(tokens(xs[0]), sep, ListTokens(tokens, sep, xs[1..]), rest);
      assert item(tokens(xs[0]) + ([sep] + more)) == Some((xs[0], [sep] + more));
      assert ([sep] + more)[1..] == more;
      ListParses(item, tokens, sep, xs[1..], rest);
      assert xs == [xs[0]] + xs[1..];
    }
  }

  lemma Split(a: seq<Token>, sep: Token, b: seq<Token>, rest: seq<Token>)
    ensures a + ([sep] + b) + rest == a + ([sep] + (b + rest))
  {
  }

  lemma TableParses(schema: string, table: string, rest: seq<Token>)
    ensures ParseTable(TableTokens(schema, table) + rest) == Some(((schema, table), rest))
  {
    var ts := TableTokens(schema, table) + rest;
    assert ts[1..] == [Punct('.'), Ident(table)] + rest;
    assert ts[1..][1..] == [Ident(table)] + rest;
    assert ts[1..][1..][1..] == rest;
  }

  lemma PredsParse(where: seq<Pred<Lit>>, rest: seq<Token>)
    requires where != [] && (rest == [] || rest[0] != Word("AND"))
    ensures ParseList(ParsePred, Word("AND"), ListTokens(PredTokens, Word("AND"), where) + rest) == Some((where, rest))
  {
    assert Undoes(ParsePred, PredTokens) by {
      forall p, r ensures ParsePred(PredTokens(p) + r) == Some((p, r)) { PredParses(p, r); }
    }
    ListParses(ParsePred, PredTokens, Word("AND"), where, rest);
  }

  lemma AssignsParse(sets: seq<Assign<Lit>>, rest: seq<Token>)
    requires sets != [] && (rest == [] || rest[0] != Punct(','))
    ensures ParseList(ParseAssign, Punct(','), ListTokens(AssignTokens, Punct(','), sets) + rest) == Some((sets, rest))
  {
    assert Undoes(ParseAssign, AssignTokens) by {
      forall a, r ensures ParseAssign(AssignTokens(a) + r) == Some((a, r)) { AssignParses(a, r); }
    }
    ListParses(ParseAssign, AssignTokens, Punct(','), sets, rest);
  }

  lemma WhereParts(w: seq<Token>, rest: seq<Token>)
    ensures var limit := [Word("LIMIT"), Num("1"), Punct(';')];
            var ts := [Word("WHERE")] + (w + limit) + rest;
            ts != [] && ts[0] == Word("WHERE") && ts[1..] == w + (limit + rest)
  {
    var limit := [Word("LIMIT"), Num("1"), Punct(';')];
    assert [Word("WHERE")] + (w + limit) + rest == [Word("WHERE")] + (w + (limit + rest));
  }

  lemma LimitParts(rest: seq<Token>)
    ensures var ts := [Word("LIMIT"), Num("1"), Punct(';')] + rest;
            && ts[0] == Word("LIMIT") && ts[1..][0] == Num("1") && ts[1..][1..][0] == Punct(';')
            && ts[1..][1..][1..] == rest
  {
    var ts := [Word("LIMIT"), Num("1"), Punct(';')] + rest;
    assert ts[1..] == [Num("1"), Punct(';')] + rest;
    assert ts[1..][1..] == [Punct(';')] + rest;
  }

  lemma WhereParses(where: seq<Pred<Lit>>, rest: seq<Token>)
    requires where != []
    ensures ParseWhere(WhereTokens(where) + rest) == Some((where, rest))
  {
    WhereParts(ListTokens(PredTokens, Word("AND"), where), rest);
    LimitParts(rest);
    PredsParse(where, [Word("LIMIT"), Num("1"), Punct(';')] + rest);
  }

  lemma DeleteTokens(tt: seq<Token>, w: seq<Token>, rest: seq<Token>)
    ensures var ts := [Word("DELETE"), Word("FROM")] + (tt + w) + rest;
            |ts| > 1 && ts[0] == Word("DELETE") && ts[1..][0] == Word("FROM") && ts[1..][1..] == tt + (w + rest)
  {
    var ts := [Word("DELETE"), Word("FROM")] + (tt + w) + rest;
    assert ts == [Word("DELETE"), Word("FROM")] + (tt + (w + rest));
    assert ts[1..] == [Word("FROM")] + (tt + (w + rest));
  }

  lemma TableThenWhere(ts: seq<Token>, schema: string, table: string, w: seq<Token>, where: seq<Pred<Lit>>,
                       rest: seq<Token>)
    requires |ts| > 1 && ts[0] == Word("DELETE") && ts[1..][0] == Word("FROM")
    requires ParseTable(ts[1..][1..]) == Some(((schema, table), w)) && ParseWhere(w) == Some((where, rest))
    ensures ParseStmt(ts) == Some((Delete(schema, table, where), rest))
  {
  }

  lemma DeleteParses(schema: string, table: string, where: seq<Pred<Lit>>, rest: seq<Token>)
    requires where != []
    ensures ParseStmt(StmtTokens(Delete(schema, table, where)) + rest) == Some((Delete(schema, table, where), rest))
  {
    var tt, w := TableTokens(schema, table), WhereTokens(where);
    DeleteTokens(tt, w, rest);
    TableParses(schema, table, w + rest);
    WhereParses(where, rest);
    TableThenWhere([Word("DELETE"), Word("FROM")] + (tt + w) + rest, schema, table, w + rest, where, rest);
  }

  lemma UpdateTokens(tt: seq<Token>, st: seq<Token>, w: seq<Token>, rest: seq<Token>)
    ensures var ts := [Word("UPDATE")] + (tt + ([Word("SET")] + (st + w))) + rest;
            ts != [] && ts[0] == Word("UPDATE") && ts[1..] == tt + ([Word("SET")] + (st + (w + rest)))
  {
    assert st + w + rest == st + (w + rest);
    assert [Word("UPDATE")] + (tt + ([Word("SET")] + (st + w))) + rest
        == [Word("UPDATE")] + (tt + ([Word("SET")] + (st + w + rest)));
  }

  lemma UpdateParses(schema: string, table: string, sets: seq<Assign<Lit>>, where: seq<Pred<Lit>>, rest: seq<Token>)
    requires where != [] && sets != []
    ensures ParseStmt(StmtTokens(Update(schema, table, sets, where)) + rest)
         == Some((Update(schema, table, sets, where), rest))
  {
    var tt, w := TableTokens(schema, table), WhereTokens(where);
    var st := ListTokens(AssignTokens, Punct(','), sets);
    var tail := [Word("SET")] + (st + (w + rest));
    UpdateTokens(tt, st, w, rest);
    assert tail[1..] == st + (w + rest);
    TableParses(schema, table, tail);
    AssignsParse(sets, w + rest);
    WhereParses(where, rest);
  }

  lemma ValuesParse(vals: seq<Lit>, rest: seq<Token>)
    requires vals != []
    ensures var ts := ListTokens(LitTokens, Punct(','), vals) + ([Punct(')'), Punct(';')] + rest);
            ParseList(ParseLit, Punct(','), ts) == Some((vals, [Punct(')'), Punct(';')] + rest))
  {
    assert Undoes(ParseLit, LitTokens) by {
      forall v, r ensures ParseLit(LitTokens(v) + r) == Some((v, r)) { LitParses(v, r); }
    }
    ListParses(ParseLit, LitTokens, Punct(','), vals, [Punct(')'), Punct(';')] + rest);
  }

  lemma NamesParse(cols: seq<string>, rest: seq<Token>)
    requires cols != [] && (rest == [] || rest[0] != Punct(','))
    ensures ParseList(ParseIdent, Punct(','), ListTokens(IdentTokens, Punct(','), cols) + rest) == Some((cols, rest))
  {
    assert Undoes(ParseIdent, IdentTokens) by {
      forall c, r ensures ParseIdent(IdentTokens(c) + r) == Some((c, r)) { IdentParses(c, r); }
    }
    ListParses(ParseIdent, IdentTokens, Punct(','), cols, rest);
  }

  lemma CloseParts(rest: seq<Token>)
    ensures var ts := [Punct(')'), Punct(';')] + rest;
            ts[0] == Punct(')') && ts[1..][0] == Punct(';') && ts[1..][1..] == rest
  {
    assert ([Punct(')'), Punct(';')] + rest)[1..] == [Punct(';')] + rest;
  }

  lemma ValuesParts(v: seq<Token>)
    ensures var ts := [Word("VALUES"), Punct('(')] + v;
            ts[0] == Word("VALUES") && ts[1..][0] == Punct('(') && ts[1..][1..] == v
  {
    assert ([Word("VALUES"), Punct('(')] + v)[1..] == [Punct('(')] + v;
  }

  lemma ValueListParses(vals: seq<Lit>, rest: seq<Token>)
    requires vals != []
    ensures var close := [Punct(')'), Punct(';')] + rest;
            ParseValues([Word("VALUES"), Punct('(')] + (ListTokens(LitTokens, Punct(','), vals) + close)) ==
              Some((vals, rest))
  {
    ValuesParts(ListTokens(LitTokens, Punct(','), vals) + ([Punct(')'), Punct(';')] + rest));
    ValuesParse(vals, rest);
    CloseParts(rest);
  }

  lemma NameListParses(cols: seq<string>, rest: seq<Token>)
    requires cols != []
    ensures ParseNames([Punct('(')] + (ListTokens(IdentTokens, Punct(','), cols) + ([Punct(')')] + rest))) ==
            Some((cols, rest))
  {
    var c := ListTokens(IdentTokens, Punct(','), cols) + ([Punct(')')] + rest);
    assert ([Punct('(')] + c)[1..] == c;
    NamesParse(cols, [Punct(')')] + rest);
    assert ([Punct(')')] + rest)[1..] == rest;
  }

  lemma InsertTokens(tt: seq<Token>, ct: seq<Token>, vt: seq<Token>, rest: seq<Token>)
    ensures var close := [Punct(')'), Punct(';')];
            var ts := [Word("INSERT"), Word("INTO")] +
                      (tt + ([Punct('(')] + (ct + ([Punct(')'), Word("VALUES"), Punct('(')] + (vt + close))))) + rest;
            && |ts| > 1 && ts[0] == Word("INSERT") && ts[1..][0] == Word("INTO")
            && ts[1..][1..] == tt + ([Punct('(')] + (ct + ([Punct(')')] +
                                    ([Word("VALUES"), Punct('(')] + (vt + (close + rest))))))
  {
    var close := [Punct(')'), Punct(';')];
    var values := [Punct(')'), Word("VALUES"), Punct('(')] + (vt + close);
    var values' := [Punct(')')] + ([Word("VALUES"), Punct('(')] + (vt + (close + rest)));
    assert values + rest == values' by { assert vt + close + rest == vt + (close + rest); }
    var ts := [Word("INSERT"), Word("INTO")] + (tt + ([Punct('(')] + (ct + values))) + rest;
    assert ts == [Word("INSERT"), Word("INTO")] + (tt + ([Punct('(')] + (ct + (values + rest))));
    assert ts[1..] == [Word("INTO")] + (tt + ([Punct('(')] + (ct + (values + rest))));
  }

  lemma InsertParses(schema: string, table: string, cols: seq<string>, vals: seq<Lit>, rest: seq<Token>)
    requires cols != [] && vals != []
    ensures ParseStmt(StmtTokens(Insert(schema, table, cols, vals)) + rest)
         == Some((Insert(schema, table, cols, vals), rest))
  {
    var tt := TableTokens(schema, table);
    var ct := ListTokens(IdentTokens, Punct(','), cols);
    var vt := ListTokens(LitTokens, Punct(','), vals);
    var values := [Word("VALUES"), Punct('(')] + (vt + ([Punct(')'), Punct(';')] + rest));
    InsertTokens(tt, ct, vt, rest);
    TableParses(schema, table, [Punct('(')] + (ct + ([Punct(')')] + values)));
    NameListParses(cols, values);
    ValueListParses(vals, rest);
  }

  lemma SetParts(name: string, v: seq<Token>, rest: seq<Token>)
    ensures var ts := [Word("SET"), Word(name), Punct('=')] + (v + [Punct(';')]) + rest;
            && |ts| > 2 && ts[0] == Word("SET") && ts[1..][0] == Word(name) && ts[1..][1] == Punct('=')
            && ts[1..][1..] == [Punct('=')] + (v + ([Punct(';')] + rest))
            && ([Punct('=')] + (v + ([Punct(';')] + rest)))[1..] == v + ([Punct(';')] + rest)
  {
    var ts := [Word("SET"), Word(name), Punct('=')] + (v + [Punct(';')]) + rest;
    var u := v + ([Punct(';')] + rest);
    assert ts == [Word("SET"), Word(name), Punct('=')] + u by { assert v + [Punct(';')] + rest == u; }
    assert ts[1..] == [Word(name), Punct('=')] + u;
  }

  lemma SetVariableParses(name: string, val: Lit, rest: seq<Token>)
    ensures ParseStmt(StmtTokens(SetVariable(name, val)) + rest) == Some((SetVariable(name, val), rest))
  {
    SetParts(name, LitTokens(val), rest);
    LitParses(val, [Punct(';')] + rest);
    assert ([Punct(';')] + rest)[1..] == rest;
  }

  lemma SetNamesParses(charset: string, rest: seq<Token>)
    ensures ParseStmt(StmtTokens(SetNames(charset)) + rest) == Some((SetNames(charset), rest))
  {
    var ts := StmtTokens(SetNames(charset)) + rest;
    assert ts[1..] == [Word("NAMES"), Word(charset), Punct(';')] + rest;
    assert ts[1..][2..] == [Punct(';')] + rest;
    assert ([Punct(';')] + rest)[1..] == rest;
  }

  lemma StmtParses(s: Stmt<Lit>, rest: seq<Token>)
    requires WritableStmt(s)
    ensures ParseStmt(StmtTokens(s) + rest) == Some((s, rest))
  {
    match s
    case Delete(schema, table, where) => DeleteParses(schema, table, where, rest);
    case Update(schema, table, sets, where) => UpdateParses(schema, table, sets, where, rest);
    case Insert(schema, table, cols, vals) => InsertParses(schema, table, cols, vals, rest);
    case SetVariable(name, val) => SetVariableParses(name, val, rest);
    case SetNames(charset) => SetNamesParses(charset, rest);
  }

  /** The tokens of one thing after another. */
  function EachTokens<T>(tokens: T -> seq<Token>, xs: seq<T>): seq<Token> {
    if xs == [] then [] else tokens(xs[0]) + EachTokens(tokens, xs[1..])
  }

  lemma OneOnly<T>(tokens: T -> seq<Token>, x: T)
    ensures EachTokens(tokens, [x]) == tokens(x)
  {
    assert [x][1..] == [];
    assert EachTokens(tokens, [x][1..]) == [] && tokens(x) + [] == tokens(x);
  }

  /** Items written one after another are read as themselves, and then the rest. */
  lemma {:induction false} EachParses<T(!new)>(item: Parser<T>, tokens: T -> seq<Token>, xs: seq<T>, rest: seq<Token>)
    requires forall x, rest :: x in xs ==> item(tokens(x) + rest) == Some((x, rest))
    requires forall x :: x in xs ==> tokens(x) != []
    ensures var more := ParseEach(item, rest);
            ParseEach(item, EachTokens(tokens, xs) + rest) == if more.Some? then Some(xs + more.value) else None
  {
    if xs == [] {
      assert EachTokens(tokens, xs) + rest == rest;
      var more := ParseEach(item, rest);
      if more.Some? { assert xs + more.value == more.value; }
    } else {
      var tail := EachTokens(tokens, xs[1..]) + rest;
      EachParses(item, tokens, xs[1..], rest);
      OneParses(item, tokens, xs[0], tail);
      assert EachTokens(tokens, xs) + rest == tokens(xs[0]) + tail;
      var more := ParseEach(item, rest);
      if more.Some? { assert xs + more.value == [xs[0]] + (xs[1..] + more.value); }
    }
  }

  lemma OneParses<T(!new)>(item: Parser<T>, tokens: T -> seq<Token>, x: T, tail: seq<Token>)
    requires item(tokens(x) + tail) == Some((x, tail)) && tokens(x) != []
    ensures var more := ParseEach(item, tail);
            ParseEach(item, tokens(x) + tail) == if more.Some? then Some([x] + more.value) else None
  {
  }

  /** The tokens of a script's statements, in order. */
  function AllTokens(stmts: seq<Stmt<Lit>>): seq<Token> { EachTokens(StmtTokens, stmts) }

  lemma AllParse(stmts: seq<Stmt<Lit>>)
    requires forall s :: s in stmts ==> WritableStmt(s)
    ensures ParseAll(AllTokens(stmts)) == Some(stmts)
  {
    AllParseThen(stmts, []);
    assert AllTokens(stmts) + [] == AllTokens(stmts) && stmts + [] == stmts;
  }

  lemma AllParseThen(stmts: seq<Stmt<Lit>>, rest: seq<Token>)
    requires forall s :: s in stmts ==> WritableStmt(s)
    ensures var more := ParseAll(rest);
            ParseAll(AllTokens(stmts) + rest) == if more.Some? then Some(stmts + more.value) else None
  {
    forall s, rest | s in stmts ensures ParseStmt(StmtTokens(s) + rest) == Some((s, rest)) { StmtParses(s, rest); }
    EachParses(ParseStmt, StmtTokens, stmts, rest);
  }

  /** A written statement, alone, is read back as that statement. */
  lemma StatementReadsBack(nb: bool, s: Stmt<Lit>)
    requires WritableStmt(s)
    ensures ReadScript(nb, Written(s)) == Some([s])
  {
    ReadsStmt(nb, s);
    assert Written(s) + "" == Written(s);
    assert Lex(nb, Written(s) + "") == After(StmtTokens(s), Lex(nb, ""));
    assert StmtTokens(s) + [] == StmtTokens(s);
    OneOnly(StmtTokens, s);
    AllParse([s]);
  }
}
