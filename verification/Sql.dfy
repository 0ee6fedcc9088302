/** The SQL a script is made of: its syntax, the way it is written, and what the
    server reads. The reader follows sections 9.1.1 (strings), 9.1.2 (numbers),
    9.1.4 (hexadecimal literals), 9.2 (identifiers) and 9.7 (comments) of the
    MySQL 8.0 Reference Manual, under either setting of NO_BACKSLASH_ESCAPES. */
module Sql {
  import opened Wrappers
  import opened Numbers

  // ---------- Syntax, over any representation V of column values ----------

  datatype Pred<+V> = IsNull(col: string) | Equals(col: string, val: V)

  datatype Assign<+V> = Assign(col: string, val: V)

  datatype Stmt<+V> =
    | Delete(schema: string, table: string, where: seq<Pred<V>>)
    | Update(schema: string, table: string, sets: seq<Assign<V>>, where: seq<Pred<V>>)
    | Insert(schema: string, table: string, cols: seq<string>, vals: seq<V>)
    | SetVariable(name: string, val: V)
    | SetNames(charset: string)

  /** A literal as the server understands it: what its text denotes. */
  datatype Lit = NullLit | NumLit(text: string) | StrLit(text: string) | HexLit(bytes: string)

  // ---------- Writing ----------

  /** strings.ReplaceAll(s, q, qq) */
  function Doubled(q: char, s: string): string {
    if s == "" then ""
    else if s[0] == q then [q, q] + Doubled(q, s[1..])
    else [s[0]] + Doubled(q, s[1..])
  }

  function QuoteIdent(name: string): string { "`" + (Doubled('`', name) + "`") }

  function Qualify(schema: string, table: string): string { QuoteIdent(schema) + ("." + QuoteIdent(table)) }

  function HexDigit(d: nat): char
    requires d < 16
  {
    if d < 10 then ('0' as int + d) as char else ('A' as int + (d - 10)) as char
  }

  predicate IsBytes(s: string) { forall i :: 0 <= i < |s| ==> s[i] as int < 256 }

  /** fmt.Sprintf("%X", s) */
  function HexText(s: string): string {
    if s == "" then ""
    else [HexDigit(s[0] as int / 16 % 16), HexDigit(s[0] as int % 16)] + HexText(s[1..])
  }

  function LitText(l: Lit): string {
    match l
    case NullLit => "NULL"
    case NumLit(t) => t
    case StrLit(t) => "'" + (Doubled('\'', t) + "'")
    case HexLit(b) => "X'" + (HexText(b) + "'")
  }

  /** strings.Join */
  function Join(parts: seq<string>, sep: string): string {
    if |parts| == 0 then ""
    else if |parts| == 1 then parts[0]
    else parts[0] + (sep + Join(parts[1..], sep))
  }

  // Statements whose values are already text

  function PredText(p: Pred<string>): string {
    match p
    case IsNull(c) => QuoteIdent(c) + " IS NULL"
    case Equals(c, v) => QuoteIdent(c) + (" = " + v)
  }

  function AssignText(a: Assign<string>): string { QuoteIdent(a.col) + (" = " + a.val) }

  function PredTexts(ps: seq<Pred<string>>): seq<string> { seq(|ps|, i requires 0 <= i < |ps| => PredText(ps[i])) }

  function AssignTexts(sets: seq<Assign<string>>): seq<string> {
    seq(|sets|, i requires 0 <= i < |sets| => AssignText(sets[i]))
  }

  function NameTexts(cols: seq<string>): seq<string> {
    seq(|cols|, i requires 0 <= i < |cols| => QuoteIdent(cols[i]))
  }

  function DeleteText(schema: string, table: string, where: string): string {
    "DELETE FROM " + (Qualify(schema, table) + (" WHERE " + (where + " LIMIT 1;")))
  }

  function UpdateText(schema: string, table: string, sets: string, where: string): string {
    "UPDATE " + (Qualify(schema, table) + (" SET " + (sets + (" WHERE " + (where + " LIMIT 1;")))))
  }

  function InsertText(schema: string, table: string, cols: string, vals: string): string {
    "INSERT INTO " + (Qualify(schema, table) + (" (" + (cols + (") VALUES (" + (vals + ");")))))
  }

  /** A statement as it is written in a script. */
  function StmtText(s: Stmt<string>): string {
    match s
    case Delete(schema, table, where) => DeleteText(schema, table, Join(PredTexts(where), " AND "))
    case Update(schema, table, sets, where) =>
      UpdateText(schema, table, Join(AssignTexts(sets), ", "), Join(PredTexts(where), " AND "))
    case Insert(schema, table, cols, vals) => InsertText(schema, table, Join(NameTexts(cols), ", "), Join(vals, ", "))
    case SetVariable(name, val) => "SET " + (name + (" = " + (val + ";")))
    case SetNames(charset) => "SET NAMES " + (charset + ";")
  }

  // One representation of values for another

  function MapPred<A, B>(f: A -> B, p: Pred<A>): Pred<B> {
    match p
    case IsNull(c) => IsNull(c)
    case Equals(c, v) => Equals(c, f(v))
  }

  function MapPreds<A, B>(f: A -> B, ps: seq<Pred<A>>): seq<Pred<B>> {
    seq(|ps|, i requires 0 <= i < |ps| => MapPred(f, ps[i]))
  }

  function MapAssigns<A, B>(f: A -> B, sets: seq<Assign<A>>): seq<Assign<B>> {
    seq(|sets|, i requires 0 <= i < |sets| => Assign(sets[i].col, f(sets[i].val)))
  }

  function MapVals<A, B>(f: A -> B, vals: seq<A>): seq<B> { seq(|vals|, i requires 0 <= i < |vals| => f(vals[i])) }

  function MapStmt<A, B>(f: A -> B, s: Stmt<A>): Stmt<B> {
    match s
    case Delete(schema, table, where) => Delete(schema, table, MapPreds(f, where))
    case Update(schema, table, sets, where) => Update(schema, table, MapAssigns(f, sets), MapPreds(f, where))
    case Insert(schema, table, cols, vals) => Insert(schema, table, cols, MapVals(f, vals))
    case SetVariable(name, val) => SetVariable(name, f(val))
    case SetNames(charset) => SetNames(charset)
  }

  /** The text of a statement whose values are literals. */
  function Written(s: Stmt<Lit>): string { StmtText(MapStmt(LitText, s)) }

  /** Literals whose text reads back: a number is a plain number, a quoted string
      holds no backslash, and a hexadecimal one holds bytes. */
  predicate Writable(l: Lit) {
    match l
    case NullLit => true
    case NumLit(t) => ValidRaw(t)
    case StrLit(t) => '\\' !in t
    case HexLit(b) => IsBytes(b)
  }

  predicate WritablePred(p: Pred<Lit>) { p.Equals? ==> Writable(p.val) }
  predicate WritableAssign(a: Assign<Lit>) { Writable(a.val) }

  /** Statements that read back: no list is empty, and every literal does. */
  predicate WritableStmt(s: Stmt<Lit>) {
    match s
    case Delete(_, _, where) => where != [] && forall p :: p in where ==> WritablePred(p)
    case Update(_, _, sets, where) =>
      && sets != [] && (forall a :: a in sets ==> WritableAssign(a))
      && where != [] && forall p :: p in where ==> WritablePred(p)
    case Insert(_, _, cols, vals) => cols != [] && vals != [] && forall v :: v in vals ==> Writable(v)
    case SetVariable(name, val) => IsWord(name) && Writable(val)
    case SetNames(charset) => IsWord(charset)
  }

  // ---------- Reading: characters to tokens ----------

  datatype Token =
    | Word(text: string)
    | Ident(name: string)
    | Quoted(text: string)
    | HexBytes(bytes: string)
    | Num(text: string)
    | Punct(c: char)

  /** What a scan took from the front, and what it left. */
  datatype Scan = Scan(content: string, rest: string)

  predicate IsBlank(c: char) { c == ' ' || c == '\n' || c == '\t' || c == '\r' }
  predicate IsLetter(c: char) { 'A' <= c <= 'Z' || 'a' <= c <= 'z' || c == '_' }
  predicate IsWordChar(c: char) { IsLetter(c) || IsDigit(c) || c == '$' }
  predicate IsWord(s: string) { s != "" && IsLetter(s[0]) && forall i :: 0 <= i < |s| ==> IsWordChar(s[i]) }
  predicate IsPunct(c: char)
    { c == '.' || c == ',' || c == '(' || c == ')' || c == '=' || c == ';' || c == '+' || c == '-' }

  /** A comment opens with two dashes and a blank or control character. */
  predicate StartsComment(s: string) {
    |s| >= 2 && s[0] == '-' && s[1] == '-' && (|s| == 2 || s[2] as int <= 0x20)
  }

  function AfterLine(s: string): (r: string)
    ensures |r| <= |s| && (s != "" ==> |r| < |s|)
  {
    if s == "" then ""
    else if s[0] == '\n' then s[1..]
    else AfterLine(s[1..])
  }

  /** The character a backslash escape stands for; the two wildcard escapes keep
      their backslash. */
  function Unescape(c: char): string {
    match c
    case '0' => [0 as char]
    case 'b' => [8 as char]
    case 'n' => [10 as char]
    case 'r' => [13 as char]
    case 't' => [9 as char]
    case 'Z' => [26 as char]
    case '%' => ['\\', '%']
    case '_' => ['\\', '_']
    case _ => [c]
  }

  /** The rest of a quoted token whose opening q has been read. */
  function ScanQuoted(q: char, escapes: bool, s: string): (r: Option<Scan>)
    ensures r.Some? ==> |r.value.rest| < |s|
    decreases |s|
  {
    if s == "" then None
    else if s[0] == q then
      if |s| > 1 && s[1] == q then
        var r :- ScanQuoted(q, escapes, s[2..]);
        Some(Scan([q] + r.content, r.rest))
      else Some(Scan("", s[1..]))
    else if escapes && s[0] == '\\' then
      if |s| < 2 then None
      else
        var r :- ScanQuoted(q, escapes, s[2..]);
        Some(Scan(Unescape(s[1]) + r.content, r.rest))
    else
      var r :- ScanQuoted(q, escapes, s[1..]);
      Some(Scan([s[0]] + r.content, r.rest))
  }

  function HexValue(c: char): (v: Option<nat>)
    ensures v.Some? ==> v.value < 16
  {
    if '0' <= c <= '9' then Some(c as int - '0' as int)
    else if 'A' <= c <= 'F' then Some(c as int - 'A' as int + 10)
    else if 'a' <= c <= 'f' then Some(c as int - 'a' as int + 10)
    else None
  }

  /** The rest of a hexadecimal literal whose X' has been read. */
  function ScanHex(s: string): (r: Option<Scan>)
    ensures r.Some? ==> |r.value.rest| < |s|
    decreases |s|
  {
    if s == "" then None
    else if s[0] == '\'' then Some(Scan("", s[1..]))
    else if |s| < 2 then None
    else
      var hi :- HexValue(s[0]);
      var lo :- HexValue(s[1]);
      var r :- ScanHex(s[2..]);
      Some(Scan([(hi * 16 + lo) as char] + r.content, r.rest))
  }

  function DropWord(s: string): (r: string)
    ensures |r| <= |s|
    ensures s != "" && IsWordChar(s[0]) ==> |r| < |s|
  {
    if s != "" && IsWordChar(s[0]) then DropWord(s[1..]) else s
  }

  /** The token at the front of s and the text after it. */
  function Next(noBackslash: bool, s: string): (r: Option<(Token, string)>)
    requires s != ""
    ensures r.Some? ==> |r.value.1| < |s|
  {
    if s[0] == '`' then
      var q :- ScanQuoted('`', false, s[1..]);
      Some((Ident(q.content), q.rest))
    else if s[0] == '\'' then
      var q :- ScanQuoted('\'', !noBackslash, s[1..]);
      Some((Quoted(q.content), q.rest))
    else if (s[0] == 'X' || s[0] == 'x') && |s| > 1 && s[1] == '\'' then
      var q :- ScanHex(s[2..]);
      Some((HexBytes(q.content), q.rest))
    else if IsLetter(s[0]) then
      var rest := DropWord(s);
      Some((Word(s[..|s| - |rest|]), rest))
    else if IsDigit(s[0]) then
      var rest :- DropNumber(s);
      Some((Num(s[..|s| - |rest|]), rest))
    else if IsPunct(s[0]) then Some((Punct(s[0]), s[1..]))
    else None
  }

  /** The tokens of a text, or None when some of it is not of this language. */
  function Lex(noBackslash: bool, s: string): Option<seq<Token>>
    decreases |s|
  {
    if s == "" then Some([])
    else if IsBlank(s[0]) then Lex(noBackslash, s[1..])
    else if StartsComment(s) then Lex(noBackslash, AfterLine(s))
    else
      var next :- Next(noBackslash, s);
      var ts :- Lex(noBackslash, next.1);
      Some([next.0] + ts)
  }

  // ---------- Reading: tokens to statements ----------

  /** A parser takes a construct from the front of the tokens. */
  type Parser<T> = seq<Token> -> Option<(T, seq<Token>)>

  function Expect(t: Token, ts: seq<Token>): Option<seq<Token>> {
    if ts != [] && ts[0] == t then Some(ts[1..]) else None
  }

  function ParseIdent(ts: seq<Token>): Option<(string, seq<Token>)> {
    if ts != [] && ts[0].Ident? then Some((ts[0].name, ts[1..])) else None
  }

  function ParseLit(ts: seq<Token>): Option<(Lit, seq<Token>)> {
    if ts == [] then None
    else match ts[0]
      case Word(w) => if w == "NULL" then Some((NullLit, ts[1..])) else None
      case Quoted(s) => Some((StrLit(s), ts[1..]))
      case HexBytes(b) => Some((HexLit(b), ts[1..]))
      case Num(n) => Some((NumLit(n), ts[1..]))
      case Punct(c) =>
        if IsSign(c) && |ts| > 1 && ts[1].Num? then Some((NumLit([c] + ts[1].text), ts[2..])) else None
      case Ident(_) => None
  }

  function ParseAssign(ts: seq<Token>): Option<(Assign<Lit>, seq<Token>)> {
    var c :- ParseIdent(ts);
    var r :- Expect(Punct('='), c.1);
    var v :- ParseLit(r);
    Some((Assign(c.0, v.0), v.1))
  }

  function ParsePred(ts: seq<Token>): Option<(Pred<Lit>, seq<Token>)> {
    var c :- ParseIdent(ts);
    if c.1 != [] && c.1[0] == Word("IS") then
      var r :- Expect(Word("NULL"), c.1[1..]);
      Some((IsNull(c.0), r))
    else
      var r :- Expect(Punct('='), c.1);
      var v :- ParseLit(r);
      Some((Equals(c.0, v.0), v.1))
  }

  /** One or more items with a separator between them. */
  function ParseList<T>(item: Parser<T>, sep: Token, ts: seq<Token>): Option<(seq<T>, seq<Token>)>
    decreases |ts|
  {
    var x :- item(ts);
    if x.1 != [] && x.1[0] == sep && |x.1| <= |ts| then
      var xs :- ParseList(item, sep, x.1[1..]);
      Some(([x.0] + xs.0, xs.1))
    else Some(([x.0], x.1))
  }

  function ParseTable(ts: seq<Token>): Option<((string, string), seq<Token>)> {
    var s :- ParseIdent(ts);
    var r :- Expect(Punct('.'), s.1);
    var t :- ParseIdent(r);
    Some(((s.0, t.0), t.1))
  }

  /** WHERE predicates LIMIT 1; */
  function ParseWhere(ts: seq<Token>): Option<(seq<Pred<Lit>>, seq<Token>)> {
    var r :- Expect(Word("WHERE"), ts);
    var w :- ParseList(ParsePred, Word("AND"), r);
    var r1 :- Expect(Word("LIMIT"), w.1);
    var r2 :- Expect(Num("1"), r1);
    var r3 :- Expect(Punct(';'), r2);
    Some((w.0, r3))
  }

  function ParseDelete(ts: seq<Token>): Option<(Stmt<Lit>, seq<Token>)> {
    var r :- Expect(Word("FROM"), ts);
    var t :- ParseTable(r);
    var w :- ParseWhere(t.1);
    Some((Delete(t.0.0, t.0.1, w.0), w.1))
  }

  function ParseUpdate(ts: seq<Token>): Option<(Stmt<Lit>, seq<Token>)> {
    var t :- ParseTable(ts);
    var r :- Expect(Word("SET"), t.1);
    var s :- ParseList(ParseAssign, Punct(','), r);
    var w :- ParseWhere(s.1);
    Some((Update(t.0.0, t.0.1, s.0, w.0), w.1))
  }

  /** (names) */
  function ParseNames(ts: seq<Token>): Option<(seq<string>, seq<Token>)> {
    var r :- Expect(Punct('('), ts);
    var c :- ParseList(ParseIdent, Punct(','), r);
    var r1 :- Expect(Punct(')'), c.1);
    Some((c.0, r1))
  }

  /** VALUES (values); */
  function ParseValues(ts: seq<Token>): Option<(seq<Lit>, seq<Token>)> {
    var r :- Expect(Word("VALUES"), ts);
    var r1 :- Expect(Punct('('), r);
    var v :- ParseList(ParseLit, Punct(','), r1);
    var r2 :- Expect(Punct(')'), v.1);
    var r3 :- Expect(Punct(';'), r2);
    Some((v.0, r3))
  }

  function ParseInsert(ts: seq<Token>): Option<(Stmt<Lit>, seq<Token>)> {
    var r :- Expect(Word("INTO"), ts);
    var t :- ParseTable(r);
    var c :- ParseNames(t.1);
    var v :- ParseValues(c.1);
    Some((Insert(t.0.0, t.0.1, c.0, v.0), v.1))
  }

  function ParseSet(ts: seq<Token>): Option<(Stmt<Lit>, seq<Token>)> {
    if |ts| < 2 || !ts[0].Word? then None
    else if ts[0].text == "NAMES" && ts[1].Word? then
      var r :- Expect(Punct(';'), ts[2..]);
      Some((SetNames(ts[1].text), r))
    else
      var r :- Expect(Punct('='), ts[1..]);
      var v :- ParseLit(r);
      var r1 :- Expect(Punct(';'), v.1);
      Some((SetVariable(ts[0].text, v.0), r1))
  }

  function ParseStmt(ts: seq<Token>): Option<(Stmt<Lit>, seq<Token>)> {
    if ts == [] then None
    else if ts[0] == Word("DELETE") then ParseDelete(ts[1..])
    else if ts[0] == Word("UPDATE") then ParseUpdate(ts[1..])
    else if ts[0] == Word("INSERT") then ParseInsert(ts[1..])
    else if ts[0] == Word("SET") then ParseSet(ts[1..])
    else None
  }

  /** Items one after another, to the end. */
  function ParseEach<T>(item: Parser<T>, ts: seq<Token>): Option<seq<T>>
    decreases |ts|
  {
    if ts == [] then Some([])
    else
      var x :- item(ts);
      if |x.1| >= |ts| then None
      else
        var rest :- ParseEach(item, x.1);
        Some([x.0] + rest)
  }

  function ParseAll(ts: seq<Token>): Option<seq<Stmt<Lit>>> { ParseEach(ParseStmt, ts) }

  /** What the server makes of a whole script. */
  function ReadScript(noBackslash: bool, text: string): Option<seq<Stmt<Lit>>> {
    var ts :- Lex(noBackslash, text);
    ParseAll(ts)
  }
}
