/** The script a human reads before running it: its lines, and how they are written
    (internal/script/render.go, internal/script/writer.go). */
module Script {
  import opened Sequences
  import opened Change
  import opened Numbers
  import opened Reverse
  import Utf8

  /** What this model leaves to the Go library: which runes are printable, and the UTC
      calendar form of a moment. */
  datatype Env = Env(isPrint: int -> bool, stamp: int -> string)

  predicate OneLine(s: string) { forall i :: 0 <= i < |s| ==> s[i] as int >= 0x20 }

  /** What is assumed of them: a control character is not printable, and a moment is
      written on one line. */
  ghost predicate SoundEnv(env: Env) {
    && (forall r :: 0 <= r < 0x20 ==> !env.isPrint(r))
    && (forall t {:trigger env.stamp(t)} :: OneLine(env.stamp(t)))
  }

  // ---------- Text for a comment ----------

  const MAX_COMMENT_BYTES := 200
  const ELLIPSIS: string := [0xE2 as char, 0x80 as char, 0xA6 as char]
  const DASH: string := [0xE2 as char, 0x80 as char, 0x94 as char]

  function Plural(n: nat, noun: string): string {
    Decimal(n) + (" " + (noun + if n == 1 then "" else "s"))
  }

  predicate PrintableOneLine(env: Env, s: Text) { Utf8.Valid(s) && Utf8.AllRunes(env.isPrint, s) }

  /** The last place at or before k where a rune can start. */
  function CutAt(s: Text, k: nat): (cut: nat)
    requires k < |s|
    ensures cut <= k && (cut > 0 ==> Utf8.IsStart(s[cut]))
    ensures forall i :: cut < i <= k ==> !Utf8.IsStart(s[i])
  {
    if k > 0 && !Utf8.IsStart(s[k]) then CutAt(s, k - 1) else k
  }

  function CommentSafe(env: Env, s: Text): string {
    if !PrintableOneLine(env, s) then "<unprintable, " + (Plural(|s|, "byte") + ">")
    else if |s| > MAX_COMMENT_BYTES then
      s[..CutAt(s, MAX_COMMENT_BYTES)] + (ELLIPSIS + (" <truncated, " + (Plural(|s|, "byte") + " total>")))
    else s
  }

  /** The loop over the runes of printableOneLine. */
  method ScanPrintable(env: Env, s: Text) returns (printable: bool)
    ensures printable <==> PrintableOneLine(env, s)
  {
    if !Utf8.Valid(s) {
      return false;
    }
    var i := 0;
    while i < |s|
      invariant 0 <= i <= |s|
      invariant Utf8.Valid(s[i..])
      invariant Utf8.AllRunes(env.isPrint, s) <==> Utf8.AllRunes(env.isPrint, s[i..])
      decreases |s| - i
    {
      var n := Utf8.RuneLen(s[i..]);
      assert s[i..][n..] == s[i + n..];
      if !env.isPrint(Utf8.Rune(s[i..])) {
        return false;
      }
      i := i + n;
    }
    return true;
  }

  method MakeCommentSafe(env: Env, s: Text) returns (r: string)
    ensures r == CommentSafe(env, s)
  {
    var printable := ScanPrintable(env, s);
    if !printable {
      return "<unprintable, " + (Plural(|s|, "byte") + ">");
    }
    if |s| > MAX_COMMENT_BYTES {
      var cut := MAX_COMMENT_BYTES;
      while cut > 0 && !Utf8.IsStart(s[cut])
        invariant 0 <= cut <= MAX_COMMENT_BYTES
        invariant CutAt(s, MAX_COMMENT_BYTES) == CutAt(s, cut)
      {
        cut := cut - 1;
      }
      return s[..cut] + (ELLIPSIS + (" <truncated, " + (Plural(|s|, "byte") + " total>")));
    }
    return s;
  }

  // ---------- Lines ----------

  /** A line of a script. The text of a statement is written as it is. */
  datatype Line = Blank | Dashes | Remark(body: string) | Statement(text: string)

  function LineText(l: Line): string {
    match l
    case Blank => ""
    case Dashes => "--"
    case Remark(body) => "-- " + body
    case Statement(text) => text
  }

  /** The file: every line ends in a newline. */
  function FileText(lines: seq<Line>): string {
    if lines == [] then "" else LineText(lines[0]) + ("\n" + FileText(lines[1..]))
  }

  function OpText(op: Op): string {
    match op
    case Insert => "INSERT"
    case Update => "UPDATE"
    case Delete => "DELETE"
    case SchemaChange => "SCHEMA CHANGE"
    case OtherOp(_) => "UNKNOWN"
  }

  function WindowText(env: Env, f: Filter): string {
    if f.from.Some? && f.to.Some? then env.stamp(f.from.value) + (" to " + env.stamp(f.to.value))
    else if f.from.Some? then "from " + env.stamp(f.from.value)
    else if f.to.Some? then "up to " + env.stamp(f.to.value)
    else ""
  }

  function PlaceText(env: Env, logFile: Text, logPos: Uint32): string
  {
    CommentSafe(env, logFile) + (":" + Decimal(logPos))
  }

  function UndoText(env: Env, ev: Event): string {
    "undo " + (OpText(ev.op) + (" " + (CommentSafe(env, ev.schema) + ("." + (CommentSafe(env, ev.table) +
    (" " + (DASH + (" " + (PlaceText(env, ev.logFile, ev.logPos) + (" at " + env.stamp(ev.at)))))))))))
  }

  function ReversalLines(env: Env, r: Reversal): seq<Line> {
    [Blank, Remark(UndoText(env, r.event))]
    + (if r.event.query != "" then [Remark("caused by: " + CommentSafe(env, r.event.query))] else [])
    + [Statement(r.statement)]
  }

  /** The lines written for each of a list of things, one after another. */
  function LinesFor<T>(lines: T -> seq<Line>, xs: seq<T>): seq<Line> {
    if xs == [] then [] else LinesFor(lines, xs[..|xs| - 1]) + lines(xs[|xs| - 1])
  }

  function AllReversals(env: Env, plan: seq<Reversal>): seq<Line> { LinesFor(r => ReversalLines(env, r), plan) }

  function SchemaText(env: Env, ev: Event): string {
    "  " + (env.stamp(ev.at) + (" at "
      + (PlaceText(env, ev.logFile, ev.logPos) + (" " + (DASH + (" " + CommentSafe(env, ev.query)))))))
  }

  function SchemaLines(env: Env, changes: seq<Event>): seq<Line> {
    if changes == [] then []
    else SchemaLines(env, changes[..|changes| - 1]) + [Remark(SchemaText(env, changes[|changes| - 1]))]
  }

  function CountLine(n: nat): Line {
    Remark("WARNING: " + (Plural(n, "schema change") + (" in this window. " + "The statements below describe")))
  }

  const SHAPE_LINE: Line := Remark("each table as it was at the time, "
    + ("which may not be its shape now. " + "A dropped or"))
  const COLUMN_LINE: Line := Remark("renamed column makes the script fail; "
    + ("a retyped one restores " + "a converted value"))
  const CHECK_LINE: Line := Remark("without complaining. " + ("Check these against the tables " + "before running:"))

  function WarningTop(n: nat): seq<Line> { [Dashes, CountLine(n), SHAPE_LINE, COLUMN_LINE, CHECK_LINE] }

  function SchemaWarning(env: Env, changes: seq<Event>): seq<Line> {
    if changes == [] then [] else WarningTop(|changes|) + SchemaLines(env, changes)
  }

  function Heading(env: Env, source: Text, window: Filter): seq<Line> {
    [Remark("mulligan revert script"), Remark("source: " + CommentSafe(env, source))]
    + if WindowText(env, window) != "" then [Remark("window: " + WindowText(env, window))] else []
  }

  const REVIEW: Line := Remark("REVIEW BEFORE RUNNING " + (DASH + " nothing here has been executed."))
  const SETTINGS: seq<Line> := [Blank, Statement("SET time_zone = '+00:00';"), Statement("SET NAMES utf8mb4;")]
  const NO_CHANGES: Line := Remark("no matching changes found")

  /** A whole script, from a finished plan. */
  function Rendered(env: Env, source: Text, window: Filter, changes: seq<Event>, plan: seq<Reversal>): seq<Line> {
    if plan == [] then Heading(env, source, window) + [NO_CHANGES]
    else
      Heading(env, source, window)
      + [Remark(Plural(|plan|, "statement") + ", newest change first"), REVIEW]
      + SchemaWarning(env, changes) + SETTINGS + AllReversals(env, plan)
  }

  /** What a streamed script starts with, and what ends it. */
  function Opening(env: Env, source: Text, window: Filter, changes: seq<Event>): seq<Line> {
    Heading(env, source, window) + [Remark("newest change first"), REVIEW] + SchemaWarning(env, changes) + SETTINGS
  }

  const INCOMPLETE := "ERROR: this script is incomplete " + "and must not be run: "

  /** What stands in the place of the closing when a script cannot be finished; the error
      is printed as it is. */
  function Failure(why: string): seq<Line> { [Blank, Remark(INCOMPLETE + why)] }

  function Closing(n: nat): seq<Line> {
    if n == 0 then [NO_CHANGES] else [Blank, Remark("end of script: " + Plural(n, "statement"))]
  }

  // ---------- Writing ----------

  method WriteReversal(env: Env, out: seq<Line>, r: Reversal) returns (o: seq<Line>)
    ensures o == out + ReversalLines(env, r)
  {
    var schema := MakeCommentSafe(env, r.event.schema);
    var table := MakeCommentSafe(env, r.event.table);
    var logFile := MakeCommentSafe(env, r.event.logFile);
    var place := logFile + (":" + Decimal(r.event.logPos));
    o := out + [Blank, Remark("undo " + (OpText(r.event.op) + (" " + (schema + ("." + (table +
      (" " + (DASH + (" " + (place + (" at " + env.stamp(r.event.at))))))))))))];
    if r.event.query != "" {
      var query := MakeCommentSafe(env, r.event.query);
      o := o + [Remark("caused by: " + query)];
    }
    o := o + [Statement(r.statement)];
  }

  method WriteSchemaLines(env: Env, out: seq<Line>, changes: seq<Event>) returns (o: seq<Line>)
    ensures o == out + SchemaLines(env, changes)
  {
    o := out;
    for i := 0 to |changes|
      invariant o == out + SchemaLines(env, changes[..i])
    {
      var ev := changes[i];
      assert changes[..i + 1][..i] == changes[..i];
      var logFile := MakeCommentSafe(env, ev.logFile);
      var query := MakeCommentSafe(env, ev.query);
      var place := logFile + (":" + Decimal(ev.logPos));
      var line := Remark("  " + (env.stamp(ev.at) + (" at " + (place + (" " + (DASH + (" " + query)))))));
      Regroup(out, SchemaLines(env, changes[..i]), [line]);
      o := o + [line];
    }
    assert changes[..|changes|] == changes;
  }

  method WriteSchemaWarning(env: Env, out: seq<Line>, changes: seq<Event>) returns (o: seq<Line>)
    ensures o == out + SchemaWarning(env, changes)
  {
    if |changes| == 0 {
      return out;
    }
    o := WriteSchemaLines(env, out + WarningTop(|changes|), changes);
    Regroup(out, WarningTop(|changes|), SchemaLines(env, changes));
  }

  method WriteReversals(env: Env, out: seq<Line>, plan: seq<Reversal>) returns (o: seq<Line>)
    ensures o == out + AllReversals(env, plan)
  {
    o := out;
    ghost var lines := (r: Reversal) => ReversalLines(env, r);
    for i := 0 to |plan|
      invariant o == out + LinesFor(lines, plan[..i])
    {
      assert plan[..i + 1][..i] == plan[..i];
      Regroup(out, LinesFor(lines, plan[..i]), lines(plan[i]));
      o := WriteReversal(env, o, plan[i]);
    }
    assert plan[..|plan|] == plan;
  }

  method WriteHeading(env: Env, source: Text, window: Filter) returns (o: seq<Line>)
    ensures o == Heading(env, source, window)
  {
    var origin := MakeCommentSafe(env, source);
    o := [Remark("mulligan revert script"), Remark("source: " + origin)];
    var line := WindowText(env, window);
    if line != "" {
      o := o + [Remark("window: " + line)];
    }
  }

  method Render(env: Env, source: Text, window: Filter, changes: seq<Event>, plan: seq<Reversal>) returns (o: seq<Line>)
    ensures o == Rendered(env, source, window, changes, plan)
  {
    o := WriteHeading(env, source, window);
    if |plan| == 0 {
      return o + [NO_CHANGES];
    }
    o := o + [Remark(Plural(|plan|, "statement") + ", newest change first"), REVIEW];
    o := WriteSchemaWarning(env, o, changes);
    o := o + SETTINGS;
    o := WriteReversals(env, o, plan);
  }

  method WriteOpening(env: Env, source: Text, window: Filter, changes: seq<Event>) returns (o: seq<Line>)
    ensures o == Opening(env, source, window, changes)
  {
    o := WriteHeading(env, source, window);
    o := o + [Remark("newest change first"), REVIEW];
    o := WriteSchemaWarning(env, o, changes);
    o := o + SETTINGS;
  }

  /** A script written as its statements arrive. */
  class Writer {
    const env: Env
    var lines: seq<Line>
    var n: nat
    var isOpen: bool

    constructor (env: Env)
      ensures this.env == env && lines == [] && n == 0 && !isOpen
    {
      this.env := env;
      lines, n, isOpen := [], 0, false;
    }

    method Open(source: Text, window: Filter, changes: seq<Event>)
      modifies this
      ensures isOpen && n == old(n)
      ensures lines == old(lines) + if old(isOpen) then [] else Opening(env, source, window, changes)
    {
      if isOpen {
        return;
      }
      isOpen := true;
      var top := WriteOpening(env, source, window, changes);
      lines := lines + top;
    }

    method Write(r: Reversal)
      modifies this
      ensures isOpen == old(isOpen) && n == old(n) + 1
      ensures lines == old(lines) + ReversalLines(env, r)
    {
      lines := WriteReversal(env, lines, r);
      n := n + 1;
    }

    method Close()
      modifies this
      ensures isOpen == old(isOpen) && n == old(n)
      ensures lines == old(lines) + Closing(n)
    {
      if n == 0 {
        lines := lines + [NO_CHANGES];
        return;
      }
      lines := lines + [Blank, Remark("end of script: " + Plural(n, "statement"))];
    }
  }
}
