/** Streaming the script that undoes a window (internal/api/revert.go). */
module Revert {
  import opened Sequences
  import opened Wrappers
  import opened Change
  import opened Store
  import opened StoreLog
  import opened StoreTables
  import opened ReadOnly
  import opened Reverse
  import opened Script
  import Literal
  import Sql
  import StatementText
  import ScriptReading
  import Undo

  // ---------- The two visitors ----------

  /** The first pass gathers schema changes and never fails. */
  function Gather(changes: seq<Event>, ev: Event): Result<seq<Event>, Reverse.Error> {
    Ok(if ev.IsSchemaChange() then changes + [ev] else changes)
  }

  /** The second pass reverses each row change by itself. */
  function Undone(fmt: Literal.Format, want: set<Text>, done: seq<Reversal>, ev: Event)
    : Result<seq<Reversal>, Reverse.Error>
  {
    if ev.IsSchemaChange() then Ok(done)
    else match StatementOf(fmt, Mark(want, ev))
      case Err(e) => Err(e)
      case Ok(stmt) => Ok(done + [Reversal(Mark(want, ev), stmt)])
  }

  function Undoing(fmt: Literal.Format, want: set<Text>): (seq<Reversal>, Event) -> Result<seq<Reversal>, Reverse.Error>
  {
    (done, ev) => Undone(fmt, want, done, ev)
  }

  /** A refusal before anything is written, a script with its trailer, or one that says
      it is incomplete. */
  datatype Response =
    | Conflict(cause: Stop<Reverse.Error>)
    | Complete(lines: seq<Line>)
    | Incomplete(lines: seq<Line>, cause: Stop<Reverse.Error>)

  /** The texts of errors, which this model leaves open. */
  type Telling = Stop<Reverse.Error> -> string

  ghost function Respond(env: Env, fmt: Literal.Format, tell: Telling, state: State, source: Text, f: Filter,
                         want: set<Text>, now: int)
    : Response
  {
    var first := Each(state, f, now, Gather, []);
    if first.1.Some? then Conflict(first.1.value)
    else
      var second := Each(state, f, now, Undoing(fmt, want), []);
      var lines := Opening(env, source, f, first.0) + AllReversals(env, second.0);
      if second.1.Some? then Incomplete(lines + Failure(tell(second.1.value)), second.1.value)
        else Complete(lines + Closing(|second.0|))
  }

  // ---------- The handler ----------

  method MarkAlone(ev: Event, names: seq<Text>) returns (marked: Event)
    ensures marked == Mark(Wanted(names), ev)
  {
    var columns := new Column[|ev.columns|](k requires 0 <= k < |ev.columns| => ev.columns[k]);
    assert columns[..] == ev.columns;
    var one := new Held[1][Held(ev, columns)];
    assert ValueOf(one[0]) == ev;
    MarkReadOnly(one, names);
    marked := one[0].event.(columns := one[0].columns[..]);
  }

  /** The second visitor: a schema change is passed over, anything else is written reversed. */
  method WriteReversalOf(fmt: Literal.Format, ev: Event, names: seq<Text>, out: Writer, ghost done: seq<Reversal>)
    returns (error: Option<Reverse.Error>, ghost now: seq<Reversal>)
    modifies out
    ensures error.Some? ==> Undone(fmt, Wanted(names), done, ev) == Err(error.value) && now == done
    ensures error.None? ==> Undone(fmt, Wanted(names), done, ev) == Ok(now)
    ensures now == done || (|now| == |done| + 1 && now == done + [now[|done|]])
    ensures out.lines == old(out.lines) + if now == done then [] else ReversalLines(out.env, now[|done|])
    ensures out.n == old(out.n) + |now| - |done|
  {
    now := done;
    assert out.lines + [] == out.lines;
    if ev.IsSchemaChange() {
      return None, now;
    }
    var marked := MarkAlone(ev, names);
    var stmt := Reverse.Statement(fmt, marked);
    if stmt.Err? {
      return Some(stmt.error), now;
    }
    var r := Reversal(marked, stmt.value);
    out.Write(r);
    now := done + [r];
    return None, now;
  }

  /** One row of the second pass. */
  method ReverseRow(row: RowChange, txns: seq<TxnRow>, fmt: Literal.Format, f: Filter, names: seq<Text>, out: Writer,
                    ghost done: seq<Reversal>)
    returns (stop: Option<Stop<Reverse.Error>>, ghost now: seq<Reversal>)
    modifies out
    ensures (now, stop) == VisitRow(row, txns, f, Undoing(fmt, Wanted(names)), done)
    ensures now == done || (|now| == |done| + 1 && now == done + [now[|done|]])
    ensures out.lines == old(out.lines) + if now == done then [] else ReversalLines(out.env, now[|done|])
    ensures out.n == old(out.n) + |now| - |done|
  {
    now := done;
    assert out.lines + [] == out.lines;
    var t := FindTxn(txns, row.txnId);
    if t.None? { return None, now; }
    var ev := Decoded(row.data, t.value.committedAt, t.value.serverId);
    if ev.Err? { return Some(ReadFailed(Corrupt(ev.error))), now; }
    if !Match(f, ev.value) { return None, now; }
    var error;
    error, now := WriteReversalOf(fmt, ev.value, names, out, done);
    return if error.Some? then Some(VisitFailed(error.value)) else None, now;
  }

  /** The row loop of EachEvent with the second visitor, writing as it goes. */
  method ReverseRows(rows: seq<RowChange>, txns: seq<TxnRow>, fmt: Literal.Format, f: Filter, names: seq<Text>,
                     out: Writer)
    returns (stop: Option<Stop<Reverse.Error>>, ghost done: seq<Reversal>)
    modifies out
    ensures (done, stop) == Visit(rows, txns, f, Undoing(fmt, Wanted(names)), [], |rows|)
    ensures out.lines == old(out.lines) + AllReversals(out.env, done)
    ensures out.n == old(out.n) + |done|
  {
    done, stop := [], None;
    NothingWritten(out.env, out.lines);
    var i := |rows|;
    ghost var visit := Undoing(fmt, Wanted(names));
    ghost var whole := Visit(rows, txns, f, visit, [], |rows|);
    while i > 0
      invariant 0 <= i <= |rows|
      invariant Visit(rows, txns, f, visit, done, i) == whole
      invariant out.lines == old(out.lines) + AllReversals(out.env, done)
      invariant out.n == old(out.n) + |done|
      decreases i
    {
      i := i - 1;
      ghost var before := done;
      stop, done := ReverseRow(rows[i], txns, fmt, f, names, out, done);
      OneMoreWritten(out.env, old(out.lines), before, done);
      if stop.Some? { return stop, done; }
    }
    return None, done;
  }

  /** The second pass: nothing is written when coverage refuses the window. */
  method StreamReversals(db: Tables, fmt: Literal.Format, f: Filter, names: seq<Text>, now: int, out: Writer)
    returns (stop: Option<Stop<Reverse.Error>>, ghost done: seq<Reversal>)
    modifies out
    ensures (done, stop) == Each(db.State(), f, now, Undoing(fmt, Wanted(names)), [])
    ensures out.lines == old(out.lines) + AllReversals(out.env, done)
    ensures out.n == old(out.n) + |done|
  {
    var refusal := Judge(db.State(), f, now);
    if refusal.Some? {
      NothingWritten(out.env, out.lines);
      return Some(ReadFailed(Refused(refusal.value))), [];
    }
    stop, done := ReverseRows(db.rows, db.txns, fmt, f, names, out);
  }

  lemma NothingWritten(env: Env, before: seq<Line>)
    ensures before + AllReversals(env, []) == before
  {
  }

  lemma OneMoreWritten(env: Env, before: seq<Line>, done: seq<Reversal>, now: seq<Reversal>)
    requires now == done || (|now| == |done| + 1 && now == done + [now[|done|]])
    ensures before + AllReversals(env, now) ==
            before + AllReversals(env, done) + if now == done then [] else ReversalLines(env, now[|done|])
  {
    if now != done {
      assert now[..|done|] == done;
      Regroup(before, AllReversals(env, done), ReversalLines(env, now[|done|]));
    }
  }

  method HandleRevert(db: Tables, env: Env, fmt: Literal.Format, tell: Telling, source: Text, f: Filter,
                      names: seq<Text>, now: int)
    returns (r: Response)
    ensures r == Respond(env, fmt, tell, db.State(), source, f, Wanted(names), now)
  {
    var changes, refused := db.EachEvent(f, now, Gather, []);
    if refused.Some? { return Conflict(refused.value); }
    var out := new Writer(env);
    out.Open(source, f, changes);
    assert out.lines == Opening(env, source, f, changes);
    var stop, done := StreamReversals(db, fmt, f, names, now, out);
    if stop.Some? { return Incomplete(out.lines + Failure(tell(stop.value)), stop.value); }
    out.Close();
    return Complete(out.lines);
  }

  // ---------- Visiting newest first is planning ----------

  function MarkAll(want: set<Text>, events: seq<Event>): seq<Event> {
    seq(|events|, i requires 0 <= i < |events| => Mark(want, events[i]))
  }

  /** A visitor over a sequence of changes, newest first. */
  function Fold<S, E>(visit: (S, Event) -> Result<S, E>, s: S, events: seq<Event>): (S, Option<Stop<E>>) {
    if events == [] then (s, None)
    else match visit(s, events[|events| - 1])
      case Err(e) => (s, Some(VisitFailed(e)))
      case Ok(next) => Fold(visit, next, events[..|events| - 1])
  }

  lemma FoldStep<S, E>(visit: (S, Event) -> Result<S, E>, s: S, events: seq<Event>, ev: Event)
    ensures Fold(visit, s, events + [ev]) ==
            if visit(s, ev).Ok? then Fold(visit, visit(s, ev).value, events)
              else (s, Some(VisitFailed(visit(s, ev).error)))
  {
    assert (events + [ev])[..|events|] == events;
  }

  /** The newest row is visited first. */
  lemma NewestFolds<S, E>(rows: seq<RowChange>, txns: seq<TxnRow>, f: Filter, visit: (S, Event) -> Result<S, E>, s: S,
                          n: nat)
    requires 0 < n <= |rows| && ViewUpTo(rows, txns, n).Ok?
    ensures ViewUpTo(rows, txns, n - 1).Ok?
    ensures var (next, stop) := VisitRow(rows[n - 1], txns, f, visit, s);
            Fold(visit, s, Matching(f, EventsOf(ViewUpTo(rows, txns, n).value))) ==
            if stop.Some? then (next, stop)
              else Fold(visit, next, Matching(f, EventsOf(ViewUpTo(rows, txns, n - 1).value)))
  {
    if FindTxn(txns, rows[n - 1].txnId).Some? {
      var e := ViewStep(rows, txns, n);
      var view := ViewUpTo(rows, txns, n - 1).value;
      OneMoreMatched(f, view, e);
      FoldStep(visit, s, Matching(f, EventsOf(view)), e.event);
    }
  }

  lemma {:induction false} VisitIsFold<S, E>(rows: seq<RowChange>, txns: seq<TxnRow>, f: Filter,
                                             visit: (S, Event) -> Result<S, E>, s: S, n: nat)
    requires n <= |rows| && ViewUpTo(rows, txns, n).Ok?
    ensures Visit(rows, txns, f, visit, s, n) == Fold(visit, s, Matching(f, EventsOf(ViewUpTo(rows, txns, n).value)))
    decreases n
  {
    if n > 0 {
      NewestFolds(rows, txns, f, visit, s, n);
      var (next, stop) := VisitRow(rows[n - 1], txns, f, visit, s);
      if stop.None? { VisitIsFold(rows, txns, f, visit, next, n - 1); }
    }
  }

  lemma {:induction false} VisitMeetsBrokenRow<S, E>(rows: seq<RowChange>, txns: seq<TxnRow>, f: Filter,
                                                     visit: (S, Event) -> Result<S, E>, s: S, n: nat)
    requires n <= |rows| && ViewUpTo(rows, txns, n).Err?
    ensures Visit(rows, txns, f, visit, s, n).1.Some?
    decreases n
  {
    var (next, stop) := VisitRow(rows[n - 1], txns, f, visit, s);
    if stop.None? { VisitMeetsBrokenRow(rows, txns, f, visit, next, n - 1); }
  }

  /** Visiting a window is folding over what Events returns for it. */
  lemma EachIsFold<S, E>(state: State, f: Filter, now: int, visit: (S, Event) -> Result<S, E>, s: S)
    ensures var r := Each(state, f, now, visit, s);
            match Answer(state, f, now)
            case Ok(events) => r == Fold(visit, s, events)
            case Err(Refused(why)) => r == (s, Some(ReadFailed(Refused(why))))
            case Err(Corrupt(_)) => r.1.Some?
  {
    if Judge(state, f, now).None? {
      if View(state).Ok? {
        VisitIsFold(state.rows, state.txns, f, visit, s, |state.rows|);
      } else {
        VisitMeetsBrokenRow(state.rows, state.txns, f, visit, s, |state.rows|);
      }
    }
  }

  /** What reversing the first k changes, after the newer ones, comes to. */
  lemma {:induction false} FoldIsPlan(fmt: Literal.Format, want: set<Text>, events: seq<Event>, k: nat)
    requires k <= |events| && PlanFrom(fmt, MarkAll(want, events), k).Ok?
    ensures var done, plan := PlanFrom(fmt, MarkAll(want, events), k).value, PlanOf(fmt, MarkAll(want, events));
            var r := Fold(Undoing(fmt, want), done, events[..k]);
            if plan.Ok? then r == (plan.value, None)
            else plan.error.index < k && PlanFrom(fmt, MarkAll(want, events), plan.error.index + 1).Ok? &&
                 r == (PlanFrom(fmt, MarkAll(want, events), plan.error.index + 1).value,
                   Some(VisitFailed(plan.error.error)))
    decreases k
  {
    var marked, undone := MarkAll(want, events), Undoing(fmt, want);
    if k > 0 {
      assert events[..k] == events[..k - 1] + [events[k - 1]];
      FoldStep(undone, PlanFrom(fmt, marked, k).value, events[..k - 1], events[k - 1]);
      if PlanFrom(fmt, marked, k - 1).Ok? {
        FoldIsPlan(fmt, want, events, k - 1);
      } else {
        PlanStops(fmt, marked, k - 1);
      }
    }
  }

  /** The streaming path emits exactly the plan over what Events returns, with the same
      marking; it fails exactly when reading or planning fails, having emitted exactly the
      plan of the changes newer than the failing one; and it visits nothing when coverage
      refuses. */
  lemma StreamIsPlan(state: State, fmt: Literal.Format, f: Filter, want: set<Text>, now: int)
    ensures var r, answer := Each(state, f, now, Undoing(fmt, want), []), Answer(state, f, now);
            && (r.1.None? <==> answer.Ok? && PlanOf(fmt, MarkAll(want, answer.value)).Ok?)
            && (r.1.None? ==> r.0 == PlanOf(fmt, MarkAll(want, answer.value)).value)
            && (answer.Ok? && PlanOf(fmt, MarkAll(want, answer.value)).Err? ==>
                  r == PlanUntil(fmt, MarkAll(want, answer.value), PlanOf(fmt, MarkAll(want, answer.value)).error))
            && (answer.Err? && answer.error.Refused? ==> r.0 == [])
  {
    EachIsFold(state, f, now, Undoing(fmt, want), []);
    var answer := Answer(state, f, now);
    if answer.Ok? {
      FoldIsPlan(fmt, want, answer.value, |answer.value|);
      assert answer.value[..|answer.value|] == answer.value;
    }
  }

  /** What was planned, newest first, before the change that failed. */
  function PlanUntil(fmt: Literal.Format, events: seq<Event>, e: PlanError)
    : (seq<Reversal>, Option<Stop<Reverse.Error>>)
  {
    var newer := if e.index < |events| then PlanFrom(fmt, events, e.index + 1) else Err(e);
    (if newer.Ok? then newer.value else [], Some(VisitFailed(e.error)))
  }

  /** The schema changes of a window, newest first. */
  function SchemaChanges(events: seq<Event>): seq<Event> {
    if events == [] then []
    else
      var init, last := events[..|events| - 1], events[|events| - 1];
      (if last.IsSchemaChange() then [last] else []) + SchemaChanges(init)
  }

  lemma {:induction false} GatherFolds(changes: seq<Event>, events: seq<Event>)
    ensures Fold(Gather, changes, events) == (changes + SchemaChanges(events), None)
    decreases |events|
  {
    assert changes + [] == changes;
    if events != [] {
      var init, last := events[..|events| - 1], events[|events| - 1];
      var head := if last.IsSchemaChange() then [last] else [];
      Regroup(changes, head, SchemaChanges(init));
      GatherFolds(changes + head, init);
    }
  }

  /** What a request for a revert is answered with: a refusal exactly when the window
      cannot be read; the streamed script of the plan exactly when there is one. */
  lemma RevertIsThePlan(env: Env, fmt: Literal.Format, tell: Telling, state: State, source: Text, f: Filter,
                        want: set<Text>, now: int)
    ensures var r := Respond(env, fmt, tell, state, source, f, want, now);
            match Answer(state, f, now)
            case Err(_) => r.Conflict?
            case Ok(events) =>
              match PlanOf(fmt, MarkAll(want, events))
              case Ok(plan) => r == Complete(ScriptReading.Streamed(env, source, f, SchemaChanges(events), plan))
              case Err(e) =>
                var newer := PlanUntil(fmt, MarkAll(want, events), e).0;
                r == Incomplete(ScriptReading.Unfinished(env, source, f, SchemaChanges(events), newer,
                  tell(VisitFailed(e.error))),
                                VisitFailed(e.error))
  {
    FirstPass(state, f, now);
    StreamIsPlan(state, fmt, f, want, now);
  }

  /** The first pass gathers the schema changes of a window that can be read. */
  lemma FirstPass(state: State, f: Filter, now: int)
    ensures var r, answer := Each(state, f, now, Gather, []), Answer(state, f, now);
            if answer.Ok? then r == (SchemaChanges(answer.value), None) else r.1.Some?
  {
    EachIsFold(state, f, now, Gather, []);
    var answer := Answer(state, f, now);
    if answer.Ok? {
      GatherFolds([], answer.value);
      assert [] + SchemaChanges(answer.value) == SchemaChanges(answer.value);
    }
  }

  /** A completed revert, read as SQL, is the session settings and the inverses of the
      window's row changes, newest first. */
  lemma CompleteRevertReadsBack(nb: bool, env: Env, fmt: Literal.Format, tell: Telling, state: State, source: Text,
                                f: Filter,
                                want: set<Text>, now: int)
    requires SoundEnv(env) && Literal.Sound(fmt) && Respond(env, fmt, tell, state, source, f, want, now).Complete?
    requires Answer(state, f, now).Ok? ==>
               forall i :: 0 <= i < |Answer(state, f, now).value| ==>
                 StatementText.FiniteEvent(Answer(state, f, now).value[i])
    ensures Answer(state, f, now).Ok? && PlanOf(fmt, MarkAll(want, Answer(state, f, now).value)).Ok?
    ensures Sql.ReadScript(nb, FileText(Respond(env, fmt, tell, state, source, f, want, now).lines)) ==
            Some(ScriptReading.SESSION + ScriptReading.IntendedAll(fmt,
              Undo.StatementsOf(PlanOf(fmt, MarkAll(want, Answer(state, f, now).value)).value)))
  {
    RevertIsThePlan(env, fmt, tell, state, source, f, want, now);
    var events := Answer(state, f, now).value;
    var plan := PlanOf(fmt, MarkAll(want, events)).value;
    forall i | 0 <= i < |events| ensures StatementText.FiniteEvent(MarkAll(want, events)[i]) {
      assert StatementText.FiniteEvent(events[i]);
    }
    ScriptReading.PlanMeansInverses(fmt, MarkAll(want, events));
    ScriptReading.StreamedReadsBack(nb, env, source, f, SchemaChanges(events), plan,
      ScriptReading.IntendedAll(fmt, Undo.StatementsOf(plan)));
  }

  lemma {:induction false} PlanFromMeansInverses(fmt: Literal.Format, events: seq<Event>, from: nat)
    requires Literal.Sound(fmt) && from <= |events| && PlanFrom(fmt, events, from).Ok?
    requires forall i :: 0 <= i < |events| ==> StatementText.FiniteEvent(events[i])
    ensures var plan := PlanFrom(fmt, events, from).value;
            ScriptReading.PlanMeans(plan, ScriptReading.IntendedAll(fmt, Undo.StatementsOf(plan)))
  {
    var plan := PlanFrom(fmt, events, from).value;
    Undo.PlanPrintsInverses(fmt, events, from);
    var stmts := ScriptReading.IntendedAll(fmt, Undo.StatementsOf(plan));
    forall i | 0 <= i < |plan| ensures Sql.WritableStmt(stmts[i]) && plan[i].statement == Sql.Written(stmts[i]) {
      assert plan[i] in plan && stmts[i] == StatementText.Intended(fmt, Inverse(plan[i].event).value);
      ScriptReading.ReversalMeans(fmt, plan[i]);
    }
  }

  /** An incomplete response is read as the session settings and the inverses of the
      changes newer than the failing one if and only if nothing after the first line of
      the error's text means anything; an error of one line never does. */
  lemma IncompleteReadsExactly(nb: bool, env: Env, fmt: Literal.Format, tell: Telling, state: State, source: Text,
                               f: Filter,
                               want: set<Text>, now: int)
    requires SoundEnv(env) && Literal.Sound(fmt) && Answer(state, f, now).Ok?
    requires PlanOf(fmt, MarkAll(want, Answer(state, f, now).value)).Err?
    requires forall i :: 0 <= i < |Answer(state, f, now).value| ==>
             StatementText.FiniteEvent(Answer(state, f, now).value[i])
    ensures var marked := MarkAll(want, Answer(state, f, now).value);
            var e := PlanOf(fmt, marked).error;
            var newer := PlanUntil(fmt, marked, e).0;
            var r, why := Respond(env, fmt, tell, state, source, f, want, now), tell(VisitFailed(e.error));
            && r.Incomplete?
            && (Sql.ReadScript(nb, FileText(r.lines)) ==
                  Some(ScriptReading.SESSION + ScriptReading.IntendedAll(fmt, Undo.StatementsOf(newer))) <==>
                Sql.Lex(nb, Sql.AfterLine(why + "\n")) == Some([]))
            && (OneLine(why) ==> Sql.Lex(nb, Sql.AfterLine(why + "\n")) == Some([]))
  {
    RevertIsThePlan(env, fmt, tell, state, source, f, want, now);
    StreamIsPlan(state, fmt, f, want, now);
    var events := Answer(state, f, now).value;
    var marked := MarkAll(want, events);
    var e := PlanOf(fmt, marked).error;
    forall i | 0 <= i < |events| ensures StatementText.FiniteEvent(marked[i]) {
      assert StatementText.FiniteEvent(events[i]);
    }
    var newer, why := PlanUntil(fmt, marked, e).0, tell(VisitFailed(e.error));
    NewerIsPlanned(fmt, marked);
    PlanFromMeansInverses(fmt, marked, e.index + 1);
    ScriptReading.UnfinishedReadsExactly(nb, env, source, f, SchemaChanges(events), newer,
      ScriptReading.IntendedAll(fmt, Undo.StatementsOf(newer)), why);
    if OneLine(why) { ScriptReading.OneLineIsHarmless(nb, why); }
  }

  lemma NewerIsPlanned(fmt: Literal.Format, events: seq<Event>)
    requires PlanOf(fmt, events).Err?
    ensures var e := PlanOf(fmt, events).error; e.index < |events| && PlanFrom(fmt, events, e.index + 1).Ok?
  {
    FirstFailure(fmt, events, 0);
  }

  lemma {:induction false} FirstFailure(fmt: Literal.Format, events: seq<Event>, from: nat)
    requires from <= |events| && PlanFrom(fmt, events, from).Err?
    ensures var e := PlanFrom(fmt, events, from).error;
            from <= e.index < |events| && PlanFrom(fmt, events, e.index + 1).Ok?
    decreases |events| - from
  {
    if PlanFrom(fmt, events, from + 1).Err? { FirstFailure(fmt, events, from + 1); }
  }
}
