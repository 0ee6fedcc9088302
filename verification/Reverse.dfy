/** One logged change to the statement that undoes it, and a run of changes to a
    plan (internal/reverse/reverse.go, validate.go, plan.go). */
module Reverse {
  import opened Wrappers
  import opened Change
  import opened Sql
  import opened Literal

  datatype Error =
    | NoColumns
    | BeforeImageSize
    | AfterImageSize
    | UnsupportedOp
    | BadValue(error: Literal.Error)
    | OnlyReadOnlyChanged
    | NothingChanged
    | NothingToInsert

  // ---------- The statement a change calls for, over column values ----------

  /** A nil image has no values. */
  function Image(row: Option<Row>): Row { if row.Some? then row.value else [] }

  function Validate(ev: Event): Option<Error> {
    if ev.columns == [] then Some(NoColumns)
    else match ev.op
      case Insert => if |Image(ev.after)| != |ev.columns| then Some(AfterImageSize) else None
      case Update =>
        if |Image(ev.before)| != |ev.columns| then Some(BeforeImageSize)
        else if |Image(ev.after)| != |ev.columns| then Some(AfterImageSize)
        else None
      case Delete => if |Image(ev.before)| != |ev.columns| then Some(BeforeImageSize) else None
      case _ => Some(UnsupportedOp)
  }

  function LiteralError(v: Value): Literal.Error
    requires !Renderable(v)
  {
    if v.Raw? then RawIsNotANumber(v.raw) else UnsupportedType(v.kind)
  }

  /** The positions of the primary key columns among the first n, in order. */
  function KeyIndexes(cols: seq<Column>, n: nat): (idx: seq<nat>)
    requires n <= |cols|
    ensures forall k :: 0 <= k < |idx| ==> idx[k] < n && cols[idx[k]].primaryKey
    ensures forall i :: 0 <= i < n && cols[i].primaryKey ==> i in idx
  {
    if n == 0 then []
    else if cols[n - 1].primaryKey then KeyIndexes(cols, n - 1) + [n - 1]
    else KeyIndexes(cols, n - 1)
  }

  /** The columns a predicate compares: the primary key, or every column without one. */
  function WhereIndexes(cols: seq<Column>): (idx: seq<nat>)
    ensures forall k :: 0 <= k < |idx| ==> idx[k] < |cols|
    ensures cols != [] ==> idx != []
  {
    var key := KeyIndexes(cols, |cols|);
    if key == [] then seq(|cols|, i => i) else key
  }

  function PredOf(col: Column, v: Value): Pred<Value> {
    if v == Null then IsNull(col.name) else Equals(col.name, v)
  }

  /** The predicates over the first n positions of idx, or the first value that
      cannot be rendered. */
  function WhereUpTo(cols: seq<Column>, row: Row, idx: seq<nat>, n: nat): Result<seq<Pred<Value>>, Error>
    requires |row| == |cols| && n <= |idx| && forall k :: 0 <= k < |idx| ==> idx[k] < |cols|
  {
    if n == 0 then Ok([])
    else
      var ps :- WhereUpTo(cols, row, idx, n - 1);
      var i := idx[n - 1];
      if Renderable(row[i]) then Ok(ps + [PredOf(cols[i], row[i])]) else Err(BadValue(LiteralError(row[i])))
  }

  function Where(cols: seq<Column>, row: Row): Result<seq<Pred<Value>>, Error>
    requires |row| == |cols|
  {
    WhereUpTo(cols, row, WhereIndexes(cols), |WhereIndexes(cols)|)
  }

  predicate Restores(col: Column, before: Value, after: Value) { !EqualValue(before, after) && !col.readOnly }

  /** The assignments over the first n columns. */
  function SetsUpTo(cols: seq<Column>, before: Row, after: Row, n: nat): Result<seq<Assign<Value>>, Error>
    requires |before| == |after| == |cols| && n <= |cols|
  {
    if n == 0 then Ok([])
    else
      var sets :- SetsUpTo(cols, before, after, n - 1);
      var c, v := cols[n - 1], before[n - 1];
      if !Restores(c, v, after[n - 1]) then Ok(sets)
      else if Renderable(v) then Ok(sets + [Assign(c.name, v)])
      else Err(BadValue(LiteralError(v)))
  }

  predicate SkipsReadOnly(cols: seq<Column>, before: Row, after: Row, n: nat)
    requires |before| == |after| == |cols| && n <= |cols|
  {
    exists i :: 0 <= i < n && !EqualValue(before[i], after[i]) && cols[i].readOnly
  }

  /** The names and values of the first n columns that can be assigned. */
  function AssignableUpTo(cols: seq<Column>, row: Row, n: nat): (r: Result<(seq<string>, seq<Value>), Error>)
    requires |row| == |cols| && n <= |cols|
    ensures r.Ok? ==> |r.value.0| == |r.value.1|
  {
    if n == 0 then Ok(([], []))
    else
      var r :- AssignableUpTo(cols, row, n - 1);
      var c, v := cols[n - 1], row[n - 1];
      if c.readOnly then Ok(r)
      else if Renderable(v) then Ok((r.0 + [c.name], r.1 + [v]))
      else Err(BadValue(LiteralError(v)))
  }

  /** The statement that undoes a change. */
  function Inverse(ev: Event): (r: Result<Stmt<Value>, Error>) {
    if Validate(ev).Some? then Err(Validate(ev).value)
    else match ev.op
      case Insert =>
        var where :- Where(ev.columns, ev.after.value);
        Ok(Stmt.Delete(ev.schema, ev.table, where))
      case Update =>
        var before, after := ev.before.value, ev.after.value;
        var sets :- SetsUpTo(ev.columns, before, after, |ev.columns|);
        if sets == [] then
          Err(if SkipsReadOnly(ev.columns, before, after, |ev.columns|) then OnlyReadOnlyChanged else NothingChanged)
        else
          var where :- Where(ev.columns, after);
          Ok(Stmt.Update(ev.schema, ev.table, sets, where))
      case Delete =>
        var r :- AssignableUpTo(ev.columns, ev.before.value, |ev.columns|);
        if r.0 == [] then Err(NothingToInsert)
        else Ok(Stmt.Insert(ev.schema, ev.table, r.0, r.1))
  }

  /** The text of a value that can be rendered. */
  function TextOf(fmt: Format): Value -> string {
    v => var r := LiteralOf(fmt, v); if r.Ok? then r.value else ""
  }

  function Printed(fmt: Format, s: Stmt<Value>): string { StmtText(MapStmt(TextOf(fmt), s)) }

  /** What Statement returns: the text of the inverse, or its error. */
  function StatementOf(fmt: Format, ev: Event): Result<string, Error> {
    var s :- Inverse(ev);
    Ok(Printed(fmt, s))
  }

  // ---------- The code that builds the text ----------

  lemma TextOfLiteral(fmt: Format, v: Value)
    ensures Renderable(v) ==> LiteralOf(fmt, v) == Ok(TextOf(fmt)(v))
    ensures !Renderable(v) ==> LiteralOf(fmt, v) == Err(LiteralError(v))
  {
  }

  method PrimaryKeyIndexes(cols: seq<Column>) returns (idx: seq<nat>)
    ensures idx == KeyIndexes(cols, |cols|)
  {
    idx := [];
    for i := 0 to |cols|
      invariant idx == KeyIndexes(cols, i)
    {
      if cols[i].primaryKey {
        idx := idx + [i];
      }
    }
  }

  /** One turn of the loop in whereClause. */
  method Predicate(fmt: Format, col: Column, v: Value) returns (r: Result<string, Error>)
    ensures r == if Renderable(v) then Ok(PredText(MapPred(TextOf(fmt), PredOf(col, v))))
            else Err(BadValue(LiteralError(v)))
  {
    var name := QuoteIdent(col.name);
    if v == Null {
      return Ok(name + " IS NULL");
    }
    TextOfLiteral(fmt, v);
    var lit := LiteralOf(fmt, v);
    if lit.Err? {
      return Err(BadValue(lit.error));
    }
    return Ok(name + (" = " + lit.value));
  }

  method WhereClause(fmt: Format, cols: seq<Column>, row: Row) returns (r: Result<string, Error>)
    requires |row| == |cols|
    ensures r == (var ps :- Where(cols, row); Ok(Join(PredTexts(MapPreds(TextOf(fmt), ps)), " AND ")))
  {
    var idx := PrimaryKeyIndexes(cols);
    if |idx| == 0 {
      idx := seq(|cols|, i => i);
    }
    assert idx == WhereIndexes(cols);
    var preds: seq<string> := [];
    ghost var ps: seq<Pred<Value>> := [];
    for n := 0 to |idx|
      invariant WhereUpTo(cols, row, idx, n) == Ok(ps)
      invariant preds == PredTexts(MapPreds(TextOf(fmt), ps))
    {
      var pred := Predicate(fmt, cols[idx[n]], row[idx[n]]);
      if pred.Err? {
        WhereStops(cols, row, idx, n + 1);
        return Err(pred.error);
      }
      OneMorePred(fmt, ps, PredOf(cols[idx[n]], row[idx[n]]));
      preds := preds + [pred.value];
      ps := ps + [PredOf(cols[idx[n]], row[idx[n]])];
    }
    return Ok(Join(preds, " AND "));
  }

  lemma OneMorePred(fmt: Format, ps: seq<Pred<Value>>, p: Pred<Value>)
    ensures PredTexts(MapPreds(TextOf(fmt), ps + [p])) ==
            PredTexts(MapPreds(TextOf(fmt), ps)) + [PredText(MapPred(TextOf(fmt), p))]
  {
  }

  /** A value that cannot be rendered is the answer, whatever comes after it. */
  lemma {:induction false} WhereStops(cols: seq<Column>, row: Row, idx: seq<nat>, n: nat)
    requires |row| == |cols| && n <= |idx| && forall k :: 0 <= k < |idx| ==> idx[k] < |cols|
    requires WhereUpTo(cols, row, idx, n).Err?
    ensures WhereUpTo(cols, row, idx, |idx|) == WhereUpTo(cols, row, idx, n)
    decreases |idx| - n
  {
    if n < |idx| {
      assert WhereUpTo(cols, row, idx, n + 1) == WhereUpTo(cols, row, idx, n);
      WhereStops(cols, row, idx, n + 1);
    }
  }

  lemma {:induction false} SetsStop(cols: seq<Column>, before: Row, after: Row, n: nat)
    requires |before| == |after| == |cols| && n <= |cols|
    requires SetsUpTo(cols, before, after, n).Err?
    ensures SetsUpTo(cols, before, after, |cols|) == SetsUpTo(cols, before, after, n)
    decreases |cols| - n
  {
    if n < |cols| {
      assert SetsUpTo(cols, before, after, n + 1) == SetsUpTo(cols, before, after, n);
      SetsStop(cols, before, after, n + 1);
    }
  }

  lemma {:induction false} AssignableStops(cols: seq<Column>, row: Row, n: nat)
    requires |row| == |cols| && n <= |cols|
    requires AssignableUpTo(cols, row, n).Err?
    ensures AssignableUpTo(cols, row, |cols|) == AssignableUpTo(cols, row, n)
    decreases |cols| - n
  {
    if n < |cols| {
      assert AssignableUpTo(cols, row, n + 1) == AssignableUpTo(cols, row, n);
      AssignableStops(cols, row, n + 1);
    }
  }

  method DeleteRow(fmt: Format, ev: Event) returns (r: Result<string, Error>)
    requires ev.op == Op.Insert && Validate(ev).None?
    ensures r == StatementOf(fmt, ev)
  {
    var where := WhereClause(fmt, ev.columns, Image(ev.after));
    if where.Err? {
      return Err(where.error);
    }
    return Ok(DeleteText(ev.schema, ev.table, where.value));
  }

  method UpdateRow(fmt: Format, ev: Event) returns (r: Result<string, Error>)
    requires ev.op == Op.Update && Validate(ev).None?
    ensures r == StatementOf(fmt, ev)
  {
    var cols, before, after := ev.columns, Image(ev.before), Image(ev.after);
    var sets: seq<string> := [];
    var skippedReadOnly := false;
    ghost var assigns: seq<Assign<Value>> := [];
    for i := 0 to |cols|
      invariant SetsUpTo(cols, before, after, i) == Ok(assigns)
      invariant sets == AssignTexts(MapAssigns(TextOf(fmt), assigns))
      invariant skippedReadOnly == SkipsReadOnly(cols, before, after, i)
    {
      if EqualValue(before[i], after[i]) {
        continue;
      }
      if cols[i].readOnly {
        skippedReadOnly := true;
        continue;
      }
      TextOfLiteral(fmt, before[i]);
      var lit := LiteralOf(fmt, before[i]);
      if lit.Err? {
        SetsStop(cols, before, after, i + 1);
        return Err(BadValue(lit.error));
      }
      sets := sets + [QuoteIdent(cols[i].name) + (" = " + lit.value)];
      assigns := assigns + [Assign(cols[i].name, before[i])];
    }
    if |sets| == 0 {
      return Err(if skippedReadOnly then OnlyReadOnlyChanged else NothingChanged);
    }
    var where := WhereClause(fmt, cols, after);
    if where.Err? {
      return Err(where.error);
    }
    return Ok(UpdateText(ev.schema, ev.table, Join(sets, ", "), where.value));
  }

  method InsertRow(fmt: Format, ev: Event) returns (r: Result<string, Error>)
    requires ev.op == Op.Delete && Validate(ev).None?
    ensures r == StatementOf(fmt, ev)
  {
    var cols, row := ev.columns, Image(ev.before);
    var names: seq<string> := [];
    var vals: seq<string> := [];
    ghost var assignable: (seq<string>, seq<Value>) := ([], []);
    for i := 0 to |cols|
      invariant AssignableUpTo(cols, row, i) == Ok(assignable)
      invariant names == NameTexts(assignable.0)
      invariant vals == MapVals(TextOf(fmt), assignable.1)
    {
      if cols[i].readOnly {
        continue;
      }
      TextOfLiteral(fmt, row[i]);
      var lit := LiteralOf(fmt, row[i]);
      if lit.Err? {
        AssignableStops(cols, row, i + 1);
        return Err(BadValue(lit.error));
      }
      names := names + [QuoteIdent(cols[i].name)];
      vals := vals + [lit.value];
      assignable := (assignable.0 + [cols[i].name], assignable.1 + [row[i]]);
    }
    if |names| == 0 {
      return Err(NothingToInsert);
    }
    return Ok(InsertText(ev.schema, ev.table, Join(names, ", "), Join(vals, ", ")));
  }

  method Statement(fmt: Format, ev: Event) returns (r: Result<string, Error>)
    ensures r == StatementOf(fmt, ev)
  {
    var invalid := Validate(ev);
    if invalid.Some? {
      return Err(invalid.value);
    }
    match ev.op {
      case Insert => r := DeleteRow(fmt, ev);
      case Update => r := UpdateRow(fmt, ev);
      case Delete => r := InsertRow(fmt, ev);
    }
  }

  // ---------- Plans ----------

  datatype Reversal = Reversal(event: Event, statement: string)

  datatype PlanError = PlanError(index: nat, error: Error)

  /** The inverses of events[from..], newest first; schema changes are carried past
      and the first failure, walking back, is the answer. */
  function PlanFrom(fmt: Format, events: seq<Event>, from: nat): Result<seq<Reversal>, PlanError>
    requires from <= |events|
    decreases |events| - from
  {
    if from == |events| then Ok([])
    else
      var newer :- PlanFrom(fmt, events, from + 1);
      if events[from].IsSchemaChange() then Ok(newer)
      else match StatementOf(fmt, events[from])
        case Ok(s) => Ok(newer + [Reversal(events[from], s)])
        case Err(e) => Err(PlanError(from, e))
  }

  function PlanOf(fmt: Format, events: seq<Event>): Result<seq<Reversal>, PlanError> { PlanFrom(fmt, events, 0) }

  method Plan(fmt: Format, events: seq<Event>) returns (r: Result<seq<Reversal>, PlanError>)
    ensures r == PlanOf(fmt, events)
  {
    if |events| == 0 {
      return Ok([]);
    }
    var out: seq<Reversal> := [];
    var i := |events|;
    while i > 0
      invariant 0 <= i <= |events|
      invariant PlanFrom(fmt, events, i) == Ok(out)
      decreases i
    {
      i := i - 1;
      PlanStep(fmt, events, i, out);
      if events[i].IsSchemaChange() {
        continue;
      }
      var stmt := Statement(fmt, events[i]);
      if stmt.Err? {
        return Err(PlanError(i, stmt.error));
      }
      out := out + [Reversal(events[i], stmt.value)];
    }
    return Ok(out);
  }

  /** What one older event adds to a plan, or that it ends it. */
  lemma PlanStep(fmt: Format, events: seq<Event>, i: nat, out: seq<Reversal>)
    requires i < |events| && PlanFrom(fmt, events, i + 1) == Ok(out)
    ensures if events[i].IsSchemaChange() then PlanFrom(fmt, events, i) == Ok(out)
            else if StatementOf(fmt, events[i]).Ok? then
              PlanFrom(fmt, events, i) == Ok(out + [Reversal(events[i], StatementOf(fmt, events[i]).value)])
            else PlanOf(fmt, events) == Err(PlanError(i, StatementOf(fmt, events[i]).error))
  {
    if PlanFrom(fmt, events, i).Err? { PlanStops(fmt, events, i); }
  }

  lemma {:induction false} PlanStops(fmt: Format, events: seq<Event>, i: nat)
    requires i <= |events| && PlanFrom(fmt, events, i).Err?
    ensures PlanOf(fmt, events) == PlanFrom(fmt, events, i)
    decreases i
  {
    if i > 0 {
      PlanStops(fmt, events, i - 1);
    }
  }

  /** Half a script is never produced: a plan fails exactly when some row change in
      it has no inverse, and otherwise holds one reversal for each row change. */
  lemma {:induction false} PlanIsAllOrNothing(fmt: Format, events: seq<Event>, from: nat)
    requires from <= |events|
    ensures PlanFrom(fmt, events, from).Ok? <==>
            forall i :: from <= i < |events| && !events[i].IsSchemaChange() ==> Inverse(events[i]).Ok?
    ensures PlanFrom(fmt, events, from).Ok? ==>
              |PlanFrom(fmt, events, from).value| == CountRowChanges(events[from..])
    decreases |events| - from
  {
    if from < |events| {
      PlanIsAllOrNothing(fmt, events, from + 1);
      assert events[from..][1..] == events[from + 1..];
    }
  }

  function CountRowChanges(events: seq<Event>): nat {
    if events == [] then 0
    else (if events[0].IsSchemaChange() then 0 else 1) + CountRowChanges(events[1..])
  }
}
