/** Read as SQL with line comments, a script is its session settings and its plan. */
module ScriptReading {
  import opened Wrappers
  import opened Change
  import opened Sql
  import opened SqlReading
  import opened Literal
  import opened Reverse
  import opened StatementText
  import opened Script
  import Utf8
  import Undo

  // ---------- Comments ----------

  lemma {:induction false} AsciiIsValid(s: string)
    requires forall i :: 0 <= i < |s| ==> s[i] as int < 0x80
    ensures Utf8.Valid(s)
    decreases |s|
  {
    if s != "" { AsciiIsValid(s[1..]); }
  }

  lemma PluralIsAscii(n: nat, noun: string)
    requires forall i :: 0 <= i < |noun| ==> 0x20 <= noun[i] as int < 0x80
    ensures OneLine(Plural(n, noun)) && forall i :: 0 <= i < |Plural(n, noun)| ==> Plural(n, noun)[i] as int < 0x80
  {
  }

  /** The text left after a cut: valid on its own, and at most three bytes short of the cap. */
  lemma CutIsNear(s: Text, k: nat)
    requires Utf8.Valid(s) && k < |s|
    ensures Utf8.Valid(s[..CutAt(s, k)]) && CutAt(s, k) <= k <= CutAt(s, k) + 3
  {
    var start := Utf8.StartIsNear(s, k);
    var cut := CutAt(s, k);
    if cut > 0 { Utf8.CutAtStart(s, cut); }
  }

  lemma EllipsisIsValid()
    ensures Utf8.Valid(ELLIPSIS)
  {
    assert ELLIPSIS[3..] == "";
  }

  lemma TruncatedIsOneLine(s: Text, cut: nat, more: string)
    requires Utf8.Valid(s) && OneLine(s) && cut <= |s| && Utf8.Valid(s[..cut])
    requires OneLine(more) && Utf8.Valid(more)
    ensures OneLine(s[..cut] + (ELLIPSIS + more)) && Utf8.Valid(s[..cut] + (ELLIPSIS + more))
  {
    EllipsisIsValid();
    Utf8.ConcatIsValid(ELLIPSIS, more);
    Utf8.ConcatIsValid(s[..cut], ELLIPSIS + more);
  }

  lemma SizeIsOneLine(before: string, n: nat, after: string)
    requires forall i :: 0 <= i < |before| ==> 0x20 <= before[i] as int < 0x80
    requires forall i :: 0 <= i < |after| ==> 0x20 <= after[i] as int < 0x80
    ensures OneLine(before + (Plural(n, "byte") + after)) && Utf8.Valid(before + (Plural(n, "byte") + after))
  {
    var size := Plural(n, "byte");
    PluralIsAscii(n, "byte");
    AsciiIsValid(before);
    AsciiIsValid(size);
    AsciiIsValid(after);
    OneLineConcat(size, after);
    OneLineConcat(before, size + after);
    Utf8.ConcatIsValid(size, after);
    Utf8.ConcatIsValid(before, size + after);
  }

  /** Whatever text it is given, what goes on a comment line is one line of valid UTF-8. */
  lemma CommentSafeIsOneLine(env: Env, s: Text)
    requires SoundEnv(env)
    ensures OneLine(CommentSafe(env, s)) && Utf8.Valid(CommentSafe(env, s))
  {
    if !PrintableOneLine(env, s) {
      SizeIsOneLine("<unprintable, ", |s|, ">");
    } else {
      Utf8.NoControlBytes(env.isPrint, s);
      if |s| > MAX_COMMENT_BYTES {
        CutIsNear(s, MAX_COMMENT_BYTES);
        SizeIsOneLine(" <truncated, ", |s|, " total>");
        TruncatedIsOneLine(s, CutAt(s, MAX_COMMENT_BYTES), " <truncated, " + (Plural(|s|, "byte") + " total>"));
      }
    }
  }

  /** What a comment shows of a text: all of it when it is printable and short, its
      beginning up to three bytes short of the cap when it is long, none otherwise. */
  lemma CommentSafeShows(env: Env, s: Text)
    ensures PrintableOneLine(env, s) && |s| <= MAX_COMMENT_BYTES ==> CommentSafe(env, s) == s
    ensures PrintableOneLine(env, s) && |s| > MAX_COMMENT_BYTES ==>
              exists cut :: MAX_COMMENT_BYTES - 3 <= cut <= MAX_COMMENT_BYTES
                && s[..cut] + ELLIPSIS <= CommentSafe(env, s)
    ensures !PrintableOneLine(env, s) ==> CommentSafe(env, s) == "<unprintable, " + (Plural(|s|, "byte") + ">")
  {
    if PrintableOneLine(env, s) && |s| > MAX_COMMENT_BYTES {
      CutIsNear(s, MAX_COMMENT_BYTES);
      var cut := CutAt(s, MAX_COMMENT_BYTES);
      assert s[..cut] + ELLIPSIS <= CommentSafe(env, s);
    }
  }

  // ---------- Lines ----------

  /** A remark stays on its line. */
  predicate LineOk(l: Line) { l.Remark? ==> OneLine(l.body) }

  predicate LinesOk(lines: seq<Line>) { forall i :: 0 <= i < |lines| ==> LineOk(lines[i]) }

  lemma PlaceIsOneLine(env: Env, logFile: Text, logPos: Uint32)
    requires SoundEnv(env)
    ensures OneLine(PlaceText(env, logFile, logPos))
  {
    CommentSafeIsOneLine(env, logFile);
  }

  lemma OneLineConcat(a: string, b: string)
    requires OneLine(a) && OneLine(b)
    ensures OneLine(a + b)
  {
  }

  lemma UndoIsOneLine(env: Env, ev: Event)
    requires SoundEnv(env)
    ensures OneLine(UndoText(env, ev))
  {
    CommentSafeIsOneLine(env, ev.schema);
    CommentSafeIsOneLine(env, ev.table);
    PlaceIsOneLine(env, ev.logFile, ev.logPos);
    var a := PlaceText(env, ev.logFile, ev.logPos) + (" at " + env.stamp(ev.at));
    OneLineConcat(" at ", env.stamp(ev.at));
    OneLineConcat(PlaceText(env, ev.logFile, ev.logPos), " at " + env.stamp(ev.at));
    var b := " " + (DASH + (" " + a));
    OneLineConcat(" ", a);
    OneLineConcat(DASH, " " + a);
    OneLineConcat(" ", DASH + (" " + a));
    var c := "." + (CommentSafe(env, ev.table) + b);
    OneLineConcat(CommentSafe(env, ev.table), b);
    OneLineConcat(".", CommentSafe(env, ev.table) + b);
    var d := " " + (CommentSafe(env, ev.schema) + c);
    OneLineConcat(CommentSafe(env, ev.schema), c);
    OneLineConcat(" ", CommentSafe(env, ev.schema) + c);
    OneLineConcat(OpText(ev.op), d);
    OneLineConcat("undo ", OpText(ev.op) + d);
  }

  lemma SchemaIsOneLine(env: Env, ev: Event)
    requires SoundEnv(env)
    ensures OneLine(SchemaText(env, ev))
  {
    CommentSafeIsOneLine(env, ev.query);
    PlaceIsOneLine(env, ev.logFile, ev.logPos);
    var a := " " + (DASH + (" " + CommentSafe(env, ev.query)));
    OneLineConcat(" ", CommentSafe(env, ev.query));
    OneLineConcat(DASH, " " + CommentSafe(env, ev.query));
    OneLineConcat(" ", DASH + (" " + CommentSafe(env, ev.query)));
    OneLineConcat(PlaceText(env, ev.logFile, ev.logPos), a);
    OneLineConcat(" at ", PlaceText(env, ev.logFile, ev.logPos) + a);
    OneLineConcat(env.stamp(ev.at), " at " + (PlaceText(env, ev.logFile, ev.logPos) + a));
    OneLineConcat("  ", env.stamp(ev.at) + (" at " + (PlaceText(env, ev.logFile, ev.logPos) + a)));
  }

  /** The statements on the lines of a script, in order. */
  function Statements(lines: seq<Line>): seq<string> {
    if lines == [] then []
    else (if lines[0].Statement? then [lines[0].text] else []) + Statements(lines[1..])
  }

  lemma {:induction false} StatementsConcat(a: seq<Line>, b: seq<Line>)
    ensures Statements(a + b) == Statements(a) + Statements(b)
    decreases |a|
  {
    if a == [] {
      assert a + b == b;
    } else {
      assert (a + b)[1..] == a[1..] + b;
      StatementsConcat(a[1..], b);
    }
  }

  lemma {:induction false} NoStatements(lines: seq<Line>)
    requires forall i :: 0 <= i < |lines| ==> !lines[i].Statement?
    ensures Statements(lines) == []
    decreases |lines|
  {
    if lines != [] { NoStatements(lines[1..]); }
  }

  // ---------- Reading lines ----------

  lemma {:induction false} LineEnds(body: string, rest: string)
    requires OneLine(body)
    ensures AfterLine(body + ("\n" + rest)) == rest
    decreases |body|
  {
    if body == "" {
      assert body + ("\n" + rest) == "\n" + rest && ("\n" + rest)[1..] == rest;
    } else {
      assert (body + ("\n" + rest))[1..] == body[1..] + ("\n" + rest);
      LineEnds(body[1..], rest);
    }
  }

  /** A line without a statement means nothing. */
  lemma QuietLine(nb: bool, l: Line, rest: string)
    requires LineOk(l) && !l.Statement?
    ensures Lex(nb, LineText(l) + ("\n" + rest)) == Lex(nb, rest)
  {
    var s := LineText(l) + ("\n" + rest);
    match l
    case Blank => assert s == "\n" + rest && s[1..] == rest;
    case Dashes => LineEnds("--", rest);
    case Remark(body) =>
      OneLineConcat("-- ", body);
      LineEnds("-- " + body, rest);
      assert s[0] == '-' && s[1] == '-' && s[2] == ' ';
  }

  lemma StatementLine(nb: bool, text: string, ts: seq<Token>, rest: string)
    requires Reads(nb, text, ts)
    ensures Lex(nb, text + ("\n" + rest)) == After(ts, Lex(nb, rest))
  {
    assert ("\n" + rest)[0] == '\n' && ("\n" + rest)[1..] == rest;
    assert Delim("\n" + rest);
  }

  function WrittenAll(stmts: seq<Stmt<Lit>>): seq<string>
  {
    seq(|stmts|, i requires 0 <= i < |stmts| => Written(stmts[i]))
  }

  predicate WritableAll(stmts: seq<Stmt<Lit>>) { forall i :: 0 <= i < |stmts| ==> WritableStmt(stmts[i]) }

  lemma FirstStatement(lines: seq<Line>, stmts: seq<Stmt<Lit>>)
    requires lines != [] && lines[0].Statement? && Statements(lines) == WrittenAll(stmts)
    ensures stmts != [] && lines[0].text == Written(stmts[0]) && Statements(lines[1..]) == WrittenAll(stmts[1..])
  {
    assert Statements(lines)[0] == lines[0].text && Statements(lines)[1..] == Statements(lines[1..]);
    assert WrittenAll(stmts)[1..] == WrittenAll(stmts[1..]);
  }

  lemma {:induction false} FileReads(nb: bool, lines: seq<Line>, stmts: seq<Stmt<Lit>>, more: string)
    requires LinesOk(lines) && WritableAll(stmts) && Statements(lines) == WrittenAll(stmts)
    ensures Lex(nb, FileText(lines) + more) == After(AllTokens(stmts), Lex(nb, more))
    decreases |lines|
  {
    if lines == [] {
      assert FileText(lines) + more == more;
      NothingBefore(Lex(nb, more));
    } else {
      var rest := FileText(lines[1..]) + more;
      assert FileText(lines) + more == LineText(lines[0]) + ("\n" + rest);
      if lines[0].Statement? {
        FirstStatement(lines, stmts);
        FileReads(nb, lines[1..], stmts[1..], more);
        ReadsStmt(nb, stmts[0]);
        StatementLine(nb, lines[0].text, StmtTokens(stmts[0]), rest);
        AfterAfter(StmtTokens(stmts[0]), AllTokens(stmts[1..]), Lex(nb, more));
      } else {
        assert Statements(lines) == Statements(lines[1..]);
        FileReads(nb, lines[1..], stmts, more);
        QuietLine(nb, lines[0], rest);
      }
    }
  }

  lemma NothingBefore(r: Option<seq<Token>>)
    ensures After([], r) == r
  {
    if r.Some? { assert [] + r.value == r.value; }
  }

  /** A file whose remarks stay on their lines is read as the statements on its lines. */
  lemma FileReadsBack(nb: bool, lines: seq<Line>, stmts: seq<Stmt<Lit>>)
    requires LinesOk(lines) && WritableAll(stmts) && Statements(lines) == WrittenAll(stmts)
    ensures ReadScript(nb, FileText(lines)) == Some(stmts)
  {
    FileReads(nb, lines, stmts, "");
    assert FileText(lines) + "" == FileText(lines) && AllTokens(stmts) + [] == AllTokens(stmts);
    AllParse(stmts);
  }

  /** With more text after it, the file is read as those statements alone if and only if
      the text means nothing. */
  lemma FileThenExactly(nb: bool, lines: seq<Line>, stmts: seq<Stmt<Lit>>, more: string)
    requires LinesOk(lines) && WritableAll(stmts) && Statements(lines) == WrittenAll(stmts)
    ensures ReadScript(nb, FileText(lines) + more) == Some(stmts) <==> Lex(nb, more) == Some([])
  {
    FileReads(nb, lines, stmts, more);
    var ts := Lex(nb, more);
    if ts.Some? {
      AllParseThen(stmts, ts.value);
      if ts.value != [] && ParseAll(ts.value).Some? {
        assert |stmts + ParseAll(ts.value).value| > |stmts|;
      } else if ts.value == [] {
        assert stmts + [] == stmts;
      }
    }
  }

  // ---------- The parts of a script ----------

  /** Lines whose remarks stay on them and whose statements are these texts. */
  ghost predicate Says(lines: seq<Line>, texts: seq<string>) { LinesOk(lines) && Statements(lines) == texts }

  lemma SaysConcat(a: seq<Line>, s: seq<string>, b: seq<Line>, t: seq<string>)
    requires Says(a, s) && Says(b, t)
    ensures Says(a + b, s + t)
  {
    StatementsConcat(a, b);
  }

  lemma QuietConcat(a: seq<Line>, b: seq<Line>)
    requires Says(a, []) && Says(b, [])
    ensures Says(a + b, [])
  {
    SaysConcat(a, [], b, []);
  }

  lemma RemarksAreQuiet(lines: seq<Line>)
    requires LinesOk(lines) && forall i :: 0 <= i < |lines| ==> !lines[i].Statement?
    ensures Says(lines, [])
  {
    NoStatements(lines);
  }

  lemma RemarkIsQuiet(line: Line)
    requires line.Remark? && LineOk(line)
    ensures Says([line], [])
  {
    RemarksAreQuiet([line]);
  }

  lemma WindowIsOneLine(env: Env, window: Filter)
    requires SoundEnv(env)
    ensures OneLine(WindowText(env, window))
  {
    if window.from.Some? && window.to.Some? { OneLineConcat(" to ", env.stamp(window.to.value)); }
  }

  function WindowLine(window: string): seq<Line> { if window != "" then [Remark("window: " + window)] else [] }

  lemma WindowIsQuiet(window: string)
    requires OneLine(window)
    ensures Says(WindowLine(window), [])
  {
    OneLineConcat("window: ", window);
    RemarksAreQuiet(WindowLine(window));
  }

  lemma HeadingIsQuiet(env: Env, source: Text, window: Filter)
    requires SoundEnv(env)
    ensures Says(Heading(env, source, window), [])
  {
    CommentSafeIsOneLine(env, source);
    OneLineConcat("source: ", CommentSafe(env, source));
    WindowIsOneLine(env, window);
    WindowIsQuiet(WindowText(env, window));
    var title, from := Remark("mulligan revert script"), Remark("source: " + CommentSafe(env, source));
    RemarksAreQuiet([title, from]);
    QuietConcat([title, from], WindowLine(WindowText(env, window)));
  }

  lemma {:induction false} SchemaLinesAreQuiet(env: Env, changes: seq<Event>)
    requires SoundEnv(env)
    ensures Says(SchemaLines(env, changes), [])
    decreases |changes|
  {
    if changes != [] {
      var init, last := changes[..|changes| - 1], Remark(SchemaText(env, changes[|changes| - 1]));
      SchemaLinesAreQuiet(env, init);
      SchemaIsOneLine(env, changes[|changes| - 1]);
      RemarksAreQuiet([last]);
      QuietConcat(SchemaLines(env, init), [last]);
    }
  }

  lemma CountLineIsOk(n: nat)
    ensures LineOk(CountLine(n))
  {
    PluralIsAscii(n, "schema change");
    OneLineConcat(" in this window. ", "The statements below describe");
    OneLineConcat(Plural(n, "schema change"), " in this window. " + "The statements below describe");
    OneLineConcat("WARNING: ", Plural(n, "schema change") + (" in this window. " + "The statements below describe"));
  }

  lemma ShapeLineIsOk()
    ensures LineOk(SHAPE_LINE)
  {
    OneLineConcat("which may not be its shape now. ", "A dropped or");
    OneLineConcat("each table as it was at the time, ", "which may not be its shape now. " + "A dropped or");
  }

  lemma ColumnLineIsOk()
    ensures LineOk(COLUMN_LINE)
  {
    OneLineConcat("a retyped one restores ", "a converted value");
    OneLineConcat("renamed column makes the script fail; ", "a retyped one restores " + "a converted value");
  }

  lemma CheckLineIsOk()
    ensures LineOk(CHECK_LINE)
  {
    OneLineConcat("Check these against the tables ", "before running:");
    OneLineConcat("without complaining. ", "Check these against the tables " + "before running:");
  }

  lemma FiveAreQuiet(a: Line, b: Line, c: Line, d: Line, e: Line)
    requires LineOk(a) && LineOk(b) && LineOk(c) && LineOk(d) && LineOk(e)
    requires !a.Statement? && !b.Statement? && !c.Statement? && !d.Statement? && !e.Statement?
    ensures Says([a, b, c, d, e], [])
  {
    RemarksAreQuiet([a, b, c, d, e]);
  }

  lemma WarningTopIsQuiet(n: nat)
    ensures Says(WarningTop(n), [])
  {
    CountLineIsOk(n);
    ShapeLineIsOk();
    ColumnLineIsOk();
    CheckLineIsOk();
    FiveAreQuiet(Dashes, CountLine(n), SHAPE_LINE, COLUMN_LINE, CHECK_LINE);
  }

  lemma WarningIsQuiet(env: Env, changes: seq<Event>)
    requires SoundEnv(env)
    ensures Says(SchemaWarning(env, changes), [])
  {
    if changes != [] {
      SchemaLinesAreQuiet(env, changes);
      WarningTopIsQuiet(|changes|);
      QuietConcat(WarningTop(|changes|), SchemaLines(env, changes));
    }
  }

  lemma OneReversal(env: Env, r: Reversal)
    requires SoundEnv(env)
    ensures Says(ReversalLines(env, r), [r.statement])
  {
    UndoIsOneLine(env, r.event);
    CommentSafeIsOneLine(env, r.event.query);
    OneLineConcat("caused by: ", CommentSafe(env, r.event.query));
    var top := [Blank, Remark(UndoText(env, r.event))]
               + if r.event.query != "" then [Remark("caused by: " + CommentSafe(env, r.event.query))] else [];
    RemarksAreQuiet(top);
    var last := [Line.Statement(r.statement)];
    assert last[1..] == [];
    SaysConcat(top, [], last, [r.statement]);
  }

  function TextsOf(plan: seq<Reversal>): seq<string> { seq(|plan|, i requires 0 <= i < |plan| => plan[i].statement) }

  lemma {:induction false} EachSaysOne(lines: Reversal -> seq<Line>, plan: seq<Reversal>)
    requires forall r {:trigger lines(r)} :: Says(lines(r), [r.statement])
    ensures Says(LinesFor(lines, plan), TextsOf(plan))
    decreases |plan|
  {
    if plan == [] {
      assert TextsOf(plan) == [];
    } else {
      var init, last := plan[..|plan| - 1], plan[|plan| - 1];
      EachSaysOne(lines, init);
      SaysConcat(LinesFor(lines, init), TextsOf(init), lines(last), [last.statement]);
      assert TextsOf(plan) == TextsOf(init) + [last.statement];
    }
  }

  lemma ReversalsAreThePlan(env: Env, plan: seq<Reversal>)
    requires SoundEnv(env)
    ensures Says(AllReversals(env, plan), TextsOf(plan))
  {
    forall r ensures Says(ReversalLines(env, r), [r.statement]) { OneReversal(env, r); }
    EachSaysOne(r => ReversalLines(env, r), plan);
  }

  /** The two statements that put the session in the terms the rest is written in. */
  const SESSION: seq<Stmt<Lit>> := [SetVariable("time_zone", StrLit("+00:00")), SetNames("utf8mb4")]

  lemma ZoneIsWritten()
    ensures Written(SetVariable("time_zone", StrLit("+00:00"))) == "SET time_zone = '+00:00';"
  {
    NothingToDouble('\'', "+00:00");
  }

  lemma NamesAreWritten()
    ensures Written(SetNames("utf8mb4")) == "SET NAMES utf8mb4;"
  {
  }

  lemma TwoStatements(a: string, b: string)
    ensures Says([Blank, Line.Statement(a), Line.Statement(b)], [a, b])
  {
    var lines := [Blank, Line.Statement(a), Line.Statement(b)];
    assert lines[1..] == [Line.Statement(a), Line.Statement(b)];
    assert lines[1..][1..] == [Line.Statement(b)];
    assert lines[1..][1..][1..] == [];
    assert Statements(lines[1..][1..]) == [b] + [];
    assert Statements(lines[1..]) == [a] + [b];
    assert Statements(lines) == [] + ([a] + [b]);
  }

  lemma BothAreWritten(a: Stmt<Lit>, b: Stmt<Lit>)
    ensures WrittenAll([a, b]) == [Written(a), Written(b)]
    ensures WritableStmt(a) && WritableStmt(b) ==> WritableAll([a, b])
  {
  }

  lemma SettingsAreTheSession()
    ensures Says(SETTINGS, WrittenAll(SESSION)) && WritableAll(SESSION)
  {
    ZoneIsWritten();
    NamesAreWritten();
    var zone, names := SESSION[0], SESSION[1];
    TwoStatements("SET time_zone = '+00:00';", "SET NAMES utf8mb4;");
    BothAreWritten(zone, names);
    assert SESSION == [zone, names];
  }

  // ---------- Whole scripts ----------

  /** The plan's statements, as the server is meant to read them. */
  ghost predicate PlanMeans(plan: seq<Reversal>, stmts: seq<Stmt<Lit>>) {
    WritableAll(stmts) && TextsOf(plan) == WrittenAll(stmts)
  }

  lemma InOrder(top: seq<Line>, settings: seq<Line>, s: seq<string>, body: seq<Line>, t: seq<string>, end: seq<Line>)
    requires Says(top, []) && Says(settings, s) && Says(body, t) && Says(end, [])
    ensures Says(top + settings + body + end, s + t)
  {
    SaysConcat(top, [], settings, s);
    SaysConcat(top + settings, s, body, t);
    SaysConcat(top + settings + body, s + t, end, []);
  }

  lemma WrittenConcat(a: seq<Stmt<Lit>>, b: seq<Stmt<Lit>>)
    ensures WrittenAll(a + b) == WrittenAll(a) + WrittenAll(b)
    ensures WritableAll(a) && WritableAll(b) ==> WritableAll(a + b)
  {
  }

  /** Quiet lines, the settings, the plan, and quiet lines: the session and the plan. */
  lemma SessionThen(nb: bool, env: Env, top: seq<Line>, plan: seq<Reversal>, stmts: seq<Stmt<Lit>>, end: seq<Line>)
    requires SoundEnv(env) && PlanMeans(plan, stmts) && Says(top, []) && Says(end, [])
    ensures ReadScript(nb, FileText(top + SETTINGS + AllReversals(env, plan) + end)) == Some(SESSION + stmts)
  {
    SettingsAreTheSession();
    ReversalsAreThePlan(env, plan);
    InOrder(top, SETTINGS, WrittenAll(SESSION), AllReversals(env, plan), TextsOf(plan), end);
    WrittenConcat(SESSION, stmts);
    FileReadsBack(nb, top + SETTINGS + AllReversals(env, plan) + end, SESSION + stmts);
  }

  lemma ReviewIsQuiet(line: Line)
    requires line.Remark? && LineOk(line)
    ensures Says([line, REVIEW], [])
  {
    assert LineOk(REVIEW);
    RemarksAreQuiet([line, REVIEW]);
  }

  lemma TopIsQuiet(env: Env, source: Text, window: Filter, line: Line, changes: seq<Event>)
    requires SoundEnv(env) && line.Remark? && LineOk(line)
    ensures Says(Heading(env, source, window) + [line, REVIEW] + SchemaWarning(env, changes), [])
  {
    HeadingIsQuiet(env, source, window);
    ReviewIsQuiet(line);
    WarningIsQuiet(env, changes);
    ThreeAreQuiet(Heading(env, source, window), [line, REVIEW], SchemaWarning(env, changes));
  }

  lemma ThreeAreQuiet(a: seq<Line>, b: seq<Line>, c: seq<Line>)
    requires Says(a, []) && Says(b, []) && Says(c, [])
    ensures Says(a + b + c, [])
  {
    QuietConcat(a, b);
    QuietConcat(a + b, c);
  }

  lemma NothingToRead(nb: bool, heading: seq<Line>)
    requires Says(heading, [])
    ensures ReadScript(nb, FileText(heading + [NO_CHANGES])) == Some([])
  {
    RemarkIsQuiet(NO_CHANGES);
    QuietConcat(heading, [NO_CHANGES]);
    FileReadsBack(nb, heading + [NO_CHANGES], []);
  }

  /** A rendered script of a non-empty plan is exactly the session settings followed by
      the plan's statements; an empty plan is a script of nothing. */
  lemma RenderedReadsBack(nb: bool, env: Env, source: Text, window: Filter, changes: seq<Event>,
                          plan: seq<Reversal>, stmts: seq<Stmt<Lit>>)
    requires SoundEnv(env) && PlanMeans(plan, stmts)
    ensures ReadScript(nb, FileText(Rendered(env, source, window, changes, plan))) ==
            Some(if plan == [] then [] else SESSION + stmts)
  {
    if plan == [] {
      HeadingIsQuiet(env, source, window);
      NothingToRead(nb, Heading(env, source, window));
    } else {
      var line := Remark(Plural(|plan|, "statement") + ", newest change first");
      PluralIsAscii(|plan|, "statement");
      OneLineConcat(Plural(|plan|, "statement"), ", newest change first");
      TopIsQuiet(env, source, window, line, changes);
      RemarksAreQuiet([]);
      var top := Heading(env, source, window) + [line, REVIEW] + SchemaWarning(env, changes);
      SessionThen(nb, env, top, plan, stmts, []);
      NothingAfter(top + SETTINGS + AllReversals(env, plan));
    }
  }

  lemma NothingAfter(lines: seq<Line>)
    ensures lines + [] == lines
  {
  }

  /** A streamed script: opened, each reversal written as it arrived, and closed. */
  function Streamed(env: Env, source: Text, window: Filter, changes: seq<Event>, plan: seq<Reversal>): seq<Line> {
    Opening(env, source, window, changes) + AllReversals(env, plan) + Closing(|plan|)
  }

  lemma ClosingIsQuiet(n: nat)
    ensures Says(Closing(n), [])
  {
    if n == 0 {
      RemarkIsQuiet(NO_CHANGES);
    } else {
      PluralIsAscii(n, "statement");
      OneLineConcat("end of script: ", Plural(n, "statement"));
      var last := Remark("end of script: " + Plural(n, "statement"));
      RemarksAreQuiet([Blank, last]);
    }
  }

  function BeforeSettings(env: Env, source: Text, window: Filter, changes: seq<Event>): seq<Line> {
    Heading(env, source, window) + [Remark("newest change first"), REVIEW] + SchemaWarning(env, changes)
  }

  lemma OpeningIsQuiet(env: Env, source: Text, window: Filter, changes: seq<Event>)
    requires SoundEnv(env)
    ensures Says(BeforeSettings(env, source, window, changes), [])
    ensures Opening(env, source, window, changes) == BeforeSettings(env, source, window, changes) + SETTINGS
  {
    TopIsQuiet(env, source, window, Remark("newest change first"), changes);
  }

  lemma StreamedReadsBack(nb: bool, env: Env, source: Text, window: Filter, changes: seq<Event>,
                          plan: seq<Reversal>, stmts: seq<Stmt<Lit>>)
    requires SoundEnv(env) && PlanMeans(plan, stmts)
    ensures ReadScript(nb, FileText(Streamed(env, source, window, changes, plan))) == Some(SESSION + stmts)
  {
    OpeningIsQuiet(env, source, window, changes);
    ClosingIsQuiet(|plan|);
    SessionThen(nb, env, BeforeSettings(env, source, window, changes), plan, stmts, Closing(|plan|));
  }

  function IntendedAll(fmt: Format, stmts: seq<Stmt<Value>>): seq<Stmt<Lit>> {
    seq(|stmts|, i requires 0 <= i < |stmts| => Intended(fmt, stmts[i]))
  }

  lemma ReversalMeans(fmt: Format, r: Reversal)
    requires Sound(fmt) && FiniteEvent(r.event)
    requires Inverse(r.event).Ok? && r.statement == Printed(fmt, Inverse(r.event).value)
    ensures WritableStmt(Intended(fmt, Inverse(r.event).value))
    ensures r.statement == Written(Intended(fmt, Inverse(r.event).value))
  {
    InverseIsPrintable(r.event);
    PrintedIsWritten(fmt, Inverse(r.event).value);
  }

  /** Every reversal of a plan prints the inverse of its change. */
  lemma PlanMeansInverses(fmt: Format, events: seq<Event>)
    requires Sound(fmt) && PlanOf(fmt, events).Ok?
    requires forall i :: 0 <= i < |events| ==> FiniteEvent(events[i])
    ensures var plan := PlanOf(fmt, events).value; PlanMeans(plan, IntendedAll(fmt, Undo.StatementsOf(plan)))
  {
    var plan := PlanOf(fmt, events).value;
    Undo.PlanPrintsInverses(fmt, events, 0);
    var stmts := IntendedAll(fmt, Undo.StatementsOf(plan));
    forall i | 0 <= i < |plan| ensures WritableStmt(stmts[i]) && plan[i].statement == Written(stmts[i]) {
      assert plan[i] in plan && stmts[i] == Intended(fmt, Inverse(plan[i].event).value);
      ReversalMeans(fmt, plan[i]);
    }
  }

  /** For all source, schema, table, file and query text, and under both settings of
      NO_BACKSLASH_ESCAPES: the server reads a script as the two session settings
      and then, in order, the inverses of the row changes, newest first. */
  lemma ScriptReadsBack(nb: bool, env: Env, fmt: Format, source: Text, window: Filter, changes: seq<Event>,
                        events: seq<Event>)
    requires SoundEnv(env) && Sound(fmt) && PlanOf(fmt, events).Ok? && PlanOf(fmt, events).value != []
    requires forall i :: 0 <= i < |events| ==> FiniteEvent(events[i])
    ensures var plan := PlanOf(fmt, events).value;
            && ReadScript(nb, FileText(Rendered(env, source, window, changes, plan))) ==
               Some(SESSION + IntendedAll(fmt, Undo.StatementsOf(plan)))
            && ReadScript(nb, FileText(Streamed(env, source, window, changes, plan))) ==
               Some(SESSION + IntendedAll(fmt, Undo.StatementsOf(plan)))
  {
    PlanMeansInverses(fmt, events);
    var plan := PlanOf(fmt, events).value;
    RenderedReadsBack(nb, env, source, window, changes, plan, IntendedAll(fmt, Undo.StatementsOf(plan)));
    StreamedReadsBack(nb, env, source, window, changes, plan, IntendedAll(fmt, Undo.StatementsOf(plan)));
  }

  // ---------- Scripts left unfinished ----------

  /** An unfinished script is its opening, the reversals written so far, and the error. */
  function Unfinished(env: Env, source: Text, window: Filter, changes: seq<Event>, plan: seq<Reversal>, why: string)
    : seq<Line>
  {
    Opening(env, source, window, changes) + AllReversals(env, plan) + Failure(why)
  }

  lemma {:induction false} FileConcat(a: seq<Line>, b: seq<Line>)
    ensures FileText(a + b) == FileText(a) + FileText(b)
    decreases |a|
  {
    if a == [] {
      assert a + b == b;
    } else {
      assert (a + b)[1..] == a[1..] + b;
      FileConcat(a[1..], b);
    }
  }

  lemma {:induction false} AfterComment(body: string, s: string)
    requires OneLine(body)
    ensures AfterLine(body + s) == AfterLine(s)
    decreases |body|
  {
    if body == "" {
      assert body + s == s;
    } else {
      assert (body + s)[1..] == body[1..] + s;
      AfterComment(body[1..], s);
    }
  }

  /** Of the error only what follows its first line can mean anything. */
  lemma FailureReads(nb: bool, why: string)
    ensures Lex(nb, FileText(Failure(why))) == Lex(nb, AfterLine(why + "\n"))
  {
    OneLineConcat("ERROR: this script is incomplete ", "and must not be run: ");
    CommentReads(nb, INCOMPLETE, why);
    FailureText(why);
    var rest := "-- " + (INCOMPLETE + why) + "\n";
    assert ("\n" + rest)[0] == '\n' && ("\n" + rest)[1..] == rest;
  }

  lemma FailureText(why: string)
    ensures FileText(Failure(why)) == "\n" + ("-- " + (INCOMPLETE + why) + "\n")
  {
    TwoLines(Blank, Remark(INCOMPLETE + why));
    assert "" + ("\n" + ("-- " + (INCOMPLETE + why) + "\n")) == "\n" + ("-- " + (INCOMPLETE + why) + "\n");
  }

  lemma TwoLines(a: Line, b: Line)
    ensures FileText([a, b]) == LineText(a) + ("\n" + (LineText(b) + "\n"))
  {
    assert [a, b][1..] == [b] && [b][1..] == [];
    assert "\n" + FileText([]) == "\n";
    assert FileText([b]) == LineText(b) + ("\n" + FileText([]));
  }

  lemma CommentReads(nb: bool, body: string, why: string)
    requires OneLine(body)
    ensures Lex(nb, "-- " + (body + why) + "\n") == Lex(nb, AfterLine(why + "\n"))
  {
    var s := "-- " + (body + why) + "\n";
    assert s[0] == '-' && s[1] == '-' && s[2] == ' ';
    OneLineConcat("-- ", body);
    assert s == ("-- " + body) + (why + "\n");
    AfterComment("-- " + body, why + "\n");
  }

  /** An unfinished script is read as the settings and the plan so far if and only if
      nothing after the first line of the error text means anything. */
  lemma UnfinishedReadsExactly(nb: bool, env: Env, source: Text, window: Filter, changes: seq<Event>,
                               plan: seq<Reversal>, stmts: seq<Stmt<Lit>>, why: string)
    requires SoundEnv(env) && PlanMeans(plan, stmts)
    ensures ReadScript(nb, FileText(Unfinished(env, source, window, changes, plan, why))) == Some(SESSION + stmts) <==>
            Lex(nb, AfterLine(why + "\n")) == Some([])
  {
    OpeningIsQuiet(env, source, window, changes);
    SettingsAreTheSession();
    ReversalsAreThePlan(env, plan);
    var top := BeforeSettings(env, source, window, changes);
    RemarksAreQuiet([]);
    InOrder(top, SETTINGS, WrittenAll(SESSION), AllReversals(env, plan), TextsOf(plan), []);
    NothingAfter(top + SETTINGS + AllReversals(env, plan));
    WrittenConcat(SESSION, stmts);
    FileConcat(top + SETTINGS + AllReversals(env, plan), Failure(why));
    FileThenExactly(nb, top + SETTINGS + AllReversals(env, plan), SESSION + stmts, FileText(Failure(why)));
    FailureReads(nb, why);
  }

  /** An error of one line does no harm. */
  lemma OneLineIsHarmless(nb: bool, why: string)
    requires OneLine(why)
    ensures Lex(nb, AfterLine(why + "\n")) == Some([])
  {
    LineEnds(why, "");
    assert why + ("\n" + "") == why + "\n";
  }

  lemma {:induction false} NeverCloses(q: char, s: string)
    requires q !in s
    ensures ScanQuoted(q, false, s) == None
    decreases |s|
  {
    if s != "" { NeverCloses(q, s[1..]); }
  }

  /** What the engine says of an update that changed nothing. */
  function NothingChangedText(schema: Text, table: Text): string {
    "reverse: update changed no columns on " + (Qualify(schema, table) + ", nothing to revert")
  }

  /** A table name may hold a newline, and then the rest of the error leaves its comment. */
  lemma TableNameMayEndTheComment(nb: bool)
    ensures !OneLine(NothingChangedText("s", "a\nb"))
    ensures Lex(nb, AfterLine(NothingChangedText("s", "a\nb") + "\n")) == None
  {
    var before, tail := "reverse: update changed no columns on " + "`s`.`a", "`, nothing to revert\n";
    OneLineConcat("reverse: update changed no columns on ", "`s`.`a");
    BrokenText(before, tail);
    BreaksTheLine(NothingChangedText("s", "a\nb"), before, "b" + tail);
    LineEnds(before, "b" + tail);
    NeverCloses('`', tail[1..]);
    WordThenQuote(nb, tail);
  }

  lemma BreaksTheLine(why: string, before: string, rest: string)
    requires why + "\n" == before + ("\n" + rest) && rest != ""
    ensures !OneLine(why)
  {
    assert why[|before|] == (why + "\n")[|before|] == '\n';
  }

  lemma BrokenText(before: string, tail: string)
    requires before == "reverse: update changed no columns on " + "`s`.`a" && tail == "`, nothing to revert\n"
    ensures NothingChangedText("s", "a\nb") + "\n" == before + ("\n" + ("b" + tail))
  {
    BrokenName();
    Regrouped("reverse: update changed no columns on ", "`s`.`a", "\n", "b`", ", nothing to revert", "\n");
    assert "b`" + (", nothing to revert" + "\n") == "b" + tail;
  }

  lemma BrokenName()
    ensures Qualify("s", "a\nb") == "`s`.`a" + ("\n" + "b`")
  {
    NothingToDouble('`', "s");
    NothingToDouble('`', "a\nb");
  }

  lemma Regrouped<T>(a: seq<T>, b: seq<T>, c: seq<T>, d: seq<T>, e: seq<T>, f: seq<T>)
    ensures (a + ((b + (c + d)) + e)) + f == (a + b) + (c + (d + (e + f)))
  {
  }

  lemma WordThenQuote(nb: bool, tail: string)
    requires tail != "" && tail[0] == '`' && ScanQuoted('`', false, tail[1..]) == None
    ensures Lex(nb, "b" + tail) == None
  {
    var s := "b" + tail;
    assert s[0] == 'b' && s[1..] == tail;
    assert DropWord(tail) == tail && DropWord(s) == tail;
    assert Lex(nb, tail) == None;
  }
}
