/** From end to end: what a source went through, its log, the store, the script made of
    an accepted window, and the server that reads the script back. */
module Recovery {
  import opened Wrappers
  import opened Sequences
  import opened Change
  import opened Sql
  import opened Literal
  import opened Reverse
  import opened Database
  import opened Undo
  import opened Separate
  import opened StatementText
  import opened ScriptReading
  import opened ReadOnly
  import opened StoreLog
  import opened Collector
  import opened ExactlyOnce
  import Storage
  import Store
  import Script
  import Revert

  // ---------- Literals, as a column takes them ----------

  /** The value a literal stands for in a column, in a session with the script's settings. */
  type Reading = (TableName, string, Lit) -> Value

  predicate Understood(read: Reading, fmt: Format, t: TableName, col: string, v: Value) {
    read(t, col, Meaning(fmt)(v)) == v
  }

  predicate UnderstoodRow(read: Reading, fmt: Format, t: TableName, cols: seq<Column>, row: Row) {
    |row| == |cols| ==> forall i :: 0 <= i < |cols| ==> Understood(read, fmt, t, cols[i].name, row[i])
  }

  /** Every value of a change prints, and is what its column takes its literal for. */
  predicate Readable(read: Reading, fmt: Format, ev: Event) {
    && FiniteEvent(ev)
    && (ev.before.Some? ==> UnderstoodRow(read, fmt, NameOf(ev), ev.columns, ev.before.value))
    && (ev.after.Some? ==> UnderstoodRow(read, fmt, NameOf(ev), ev.columns, ev.after.value))
  }

  // ---------- Executing what was read ----------

  function TypedPred(read: Reading, t: TableName, p: Pred<Lit>): Pred<Value> {
    match p
    case IsNull(c) => IsNull(c)
    case Equals(c, l) => Equals(c, read(t, c, l))
  }

  function TypedPreds(read: Reading, t: TableName, ps: seq<Pred<Lit>>): seq<Pred<Value>> {
    seq(|ps|, i requires 0 <= i < |ps| => TypedPred(read, t, ps[i]))
  }

  function TypedAssigns(read: Reading, t: TableName, sets: seq<Assign<Lit>>): seq<Assign<Value>> {
    seq(|sets|, i requires 0 <= i < |sets| => Assign(sets[i].col, read(t, sets[i].col, sets[i].val)))
  }

  function TypedVals(read: Reading, t: TableName, cols: seq<string>, vals: seq<Lit>): seq<Value> {
    seq(|vals|, i requires 0 <= i < |vals| => read(t, if i < |cols| then cols[i] else "", vals[i]))
  }

  /** A row statement with its literals taken for values; a setting has none. */
  function Typed(read: Reading, s: Stmt<Lit>): Stmt<Value> {
    match s
    case Delete(schema, table, where) => Stmt.Delete(schema, table, TypedPreds(read, TableName(schema, table), where))
    case Update(schema, table, sets, where) =>
      Stmt.Update(schema, table, TypedAssigns(read, TableName(schema, table), sets),
        TypedPreds(read, TableName(schema, table), where))
    case Insert(schema, table, cols, vals) =>
      Stmt.Insert(schema, table, cols, TypedVals(read, TableName(schema, table), cols, vals))
    case SetVariable(_, _) => SetNames("")
    case SetNames(charset) => SetNames(charset)
  }

  predicate IsSetting(s: Stmt<Lit>) { s.SetVariable? || s.SetNames? }

  ghost predicate ExecutesRead(defs: Defs, read: Reading, db: Db, s: Stmt<Lit>, db': Db, n: int) {
    if IsSetting(s) then db' == db && n == 0 else ExecutesDb(defs, db, Typed(read, s), db', n)
  }

  /** Every outcome of a script, affecting n rows in all. */
  ghost predicate ExecutesScript(defs: Defs, read: Reading, db: Db, stmts: seq<Stmt<Lit>>, db': Db, n: int)
    decreases |stmts|
  {
    if stmts == [] then db' == db && n == 0
    else exists mid: Db, k: int, m: int ::
           ExecutesScript(defs, read, db, Init(stmts), mid, k) && ExecutesRead(defs, read, mid, Last(stmts), db', m)
             && n == k + m
  }

  /** Every execution of a script leads to one database and affects n rows. */
  ghost predicate ScriptLeadsTo(defs: Defs, read: Reading, db: Db, stmts: seq<Stmt<Lit>>, target: Db, n: int) {
    forall back, k :: ExecutesScript(defs, read, db, stmts, back, k) <==> back == target && k == n
  }

  // ---------- What is read is what was meant ----------

  predicate UnderstoodPred(read: Reading, fmt: Format, t: TableName, p: Pred<Value>) {
    p.Equals? ==> Understood(read, fmt, t, p.col, p.val)
  }

  predicate UnderstoodStmt(read: Reading, fmt: Format, s: Stmt<Value>) {
    match s
    case Delete(_, _, where) => forall k :: 0 <= k < |where| ==> UnderstoodPred(read, fmt, TargetOf(s), where[k])
    case Update(_, _, sets, where) =>
      && (forall k :: 0 <= k < |sets| ==> Understood(read, fmt, TargetOf(s), sets[k].col, sets[k].val))
      && forall k :: 0 <= k < |where| ==> UnderstoodPred(read, fmt, TargetOf(s), where[k])
    case Insert(_, _, cols, vals) =>
      |cols| == |vals| && forall k :: 0 <= k < |cols| ==> Understood(read, fmt, TargetOf(s), cols[k], vals[k])
    case _ => false
  }

  lemma PredsAreTyped(read: Reading, fmt: Format, t: TableName, ps: seq<Pred<Value>>)
    requires forall k :: 0 <= k < |ps| ==> UnderstoodPred(read, fmt, t, ps[k])
    ensures TypedPreds(read, t, MapPreds(Meaning(fmt), ps)) == ps
  {
    forall k | 0 <= k < |ps| ensures TypedPred(read, t, MapPred(Meaning(fmt), ps[k])) == ps[k] {
      assert UnderstoodPred(read, fmt, t, ps[k]);
    }
  }

  /** A statement whose values are understood is read as itself. */
  lemma IntendedIsTyped(read: Reading, fmt: Format, s: Stmt<Value>)
    requires UnderstoodStmt(read, fmt, s)
    ensures Typed(read, Intended(fmt, s)) == s && !IsSetting(Intended(fmt, s))
  {
    var t := TargetOf(s);
    match s
    case Delete(_, _, where) => PredsAreTyped(read, fmt, t, where);
    case Update(_, _, sets, where) =>
      PredsAreTyped(read, fmt, t, where);
      assert TypedAssigns(read, t, MapAssigns(Meaning(fmt), sets)) == sets;
    case Insert(_, _, cols, vals) =>
      assert TypedVals(read, t, cols, MapVals(Meaning(fmt), vals)) == vals;
  }

  lemma {:induction false} WhereIsUnderstood(read: Reading, fmt: Format, t: TableName, cols: seq<Column>, row: Row,
                                             idx: seq<nat>, n: nat)
    requires |row| == |cols| && n <= |idx| && forall k :: 0 <= k < |idx| ==> idx[k] < |cols|
    requires UnderstoodRow(read, fmt, t, cols, row) && WhereUpTo(cols, row, idx, n).Ok?
    ensures var ps := WhereUpTo(cols, row, idx, n).value;
            forall k :: 0 <= k < |ps| ==> UnderstoodPred(read, fmt, t, ps[k])
  {
    if n > 0 {
      WhereIsUnderstood(read, fmt, t, cols, row, idx, n - 1);
      assert Understood(read, fmt, t, cols[idx[n - 1]].name, row[idx[n - 1]]);
    }
  }

  lemma {:induction false} SetsAreUnderstood(read: Reading, fmt: Format, t: TableName, cols: seq<Column>, before: Row,
                                             after: Row, n: nat)
    requires |before| == |after| == |cols| && n <= |cols|
    requires UnderstoodRow(read, fmt, t, cols, before) && SetsUpTo(cols, before, after, n).Ok?
    ensures var sets := SetsUpTo(cols, before, after, n).value;
            forall k :: 0 <= k < |sets| ==> Understood(read, fmt, t, sets[k].col, sets[k].val)
  {
    if n > 0 {
      SetsAreUnderstood(read, fmt, t, cols, before, after, n - 1);
      assert Understood(read, fmt, t, cols[n - 1].name, before[n - 1]);
    }
  }

  lemma {:induction false} ValsAreUnderstood(read: Reading, fmt: Format, t: TableName, cols: seq<Column>, row: Row,
                                             n: nat)
    requires |row| == |cols| && n <= |cols|
    requires UnderstoodRow(read, fmt, t, cols, row) && AssignableUpTo(cols, row, n).Ok?
    ensures var (names, vals) := AssignableUpTo(cols, row, n).value;
            |names| == |vals| && forall k :: 0 <= k < |names| ==> Understood(read, fmt, t, names[k], vals[k])
  {
    if n > 0 {
      ValsAreUnderstood(read, fmt, t, cols, row, n - 1);
      assert Understood(read, fmt, t, cols[n - 1].name, row[n - 1]);
    }
  }

  /** The inverse of a readable change is understood. */
  lemma InverseIsUnderstood(read: Reading, fmt: Format, ev: Event)
    requires Readable(read, fmt, ev) && Inverse(ev).Ok?
    ensures UnderstoodStmt(read, fmt, Inverse(ev).value)
  {
    var t, cols, idx := NameOf(ev), ev.columns, WhereIndexes(ev.columns);
    match ev.op
    case Insert => WhereIsUnderstood(read, fmt, t, cols, Image(ev.after), idx, |idx|);
    case Update =>
      SetsAreUnderstood(read, fmt, t, cols, Image(ev.before), Image(ev.after), |cols|);
      WhereIsUnderstood(read, fmt, t, cols, Image(ev.after), idx, |idx|);
    case Delete => ValsAreUnderstood(read, fmt, t, cols, Image(ev.before), |cols|);
  }

  // ---------- A script does what its plan does ----------

  lemma SettingChangesNothing(defs: Defs, read: Reading, db: Db, stmts: seq<Stmt<Lit>>)
    requires stmts != [] && IsSetting(Last(stmts)) && ScriptLeadsTo(defs, read, db, Init(stmts), db, 0)
    ensures ScriptLeadsTo(defs, read, db, stmts, db, 0)
  {
    forall back, n | back == db && n == 0 ensures ExecutesScript(defs, read, db, stmts, back, n) {
      assert ExecutesScript(defs, read, db, Init(stmts), db, 0) && ExecutesRead(defs, read, db, Last(stmts), db, 0);
    }
  }

  lemma SessionChangesNothing(defs: Defs, read: Reading, db: Db)
    ensures ScriptLeadsTo(defs, read, db, SESSION, db, 0)
  {
    assert Init(SESSION[..1]) == [] && Init(SESSION) == SESSION[..1];
    SettingChangesNothing(defs, read, db, SESSION[..1]);
    SettingChangesNothing(defs, read, db, SESSION);
  }

  predicate AllUnderstood(read: Reading, fmt: Format, stmts: seq<Stmt<Value>>) {
    forall i :: 0 <= i < |stmts| ==> UnderstoodStmt(read, fmt, stmts[i])
  }

  lemma ScriptParts(fmt: Format, stmts: seq<Stmt<Value>>)
    requires stmts != []
    ensures var script := SESSION + IntendedAll(fmt, stmts);
            script != [] && Init(script) == SESSION + IntendedAll(fmt, Init(stmts))
              && Last(script) == Intended(fmt, Last(stmts))
  {
  }

  ghost predicate SameOutcomes(defs: Defs, read: Reading, db: Db, script: seq<Stmt<Lit>>, stmts: seq<Stmt<Value>>) {
    forall back, n :: ExecutesScript(defs, read, db, script, back, n) <==> ExecutesAll(defs, db, stmts, back, n)
  }

  lemma ReadIsMeant(defs: Defs, read: Reading, db: Db, script: seq<Stmt<Lit>>, stmts: seq<Stmt<Value>>, back: Db,
                    n: int)
    requires script != [] && stmts != [] && SameOutcomes(defs, read, db, Init(script), Init(stmts))
    requires Typed(read, Last(script)) == Last(stmts) && !IsSetting(Last(script))
    requires ExecutesScript(defs, read, db, script, back, n)
    ensures ExecutesAll(defs, db, stmts, back, n)
  {
    var mid: Db, k: int, m: int :|
      ExecutesScript(defs, read, db, Init(script), mid, k) && ExecutesRead(defs, read, mid, Last(script), back, m)
        && n == k + m;
    assert ExecutesAll(defs, db, Init(stmts), mid, k) && ExecutesDb(defs, mid, Last(stmts), back, m);
  }

  lemma MeantIsRead(defs: Defs, read: Reading, db: Db, script: seq<Stmt<Lit>>, stmts: seq<Stmt<Value>>, back: Db,
                    n: int)
    requires script != [] && stmts != [] && SameOutcomes(defs, read, db, Init(script), Init(stmts))
    requires Typed(read, Last(script)) == Last(stmts) && !IsSetting(Last(script))
    requires ExecutesAll(defs, db, stmts, back, n)
    ensures ExecutesScript(defs, read, db, script, back, n)
  {
    var mid: Db, k: int, m: int :|
      ExecutesAll(defs, db, Init(stmts), mid, k) && ExecutesDb(defs, mid, Last(stmts), back, m) && n == k + m;
    assert ExecutesScript(defs, read, db, Init(script), mid, k) && ExecutesRead(defs, read, mid, Last(script), back, m);
  }

  lemma OneMoreRead(defs: Defs, read: Reading, db: Db, script: seq<Stmt<Lit>>, stmts: seq<Stmt<Value>>)
    requires script != [] && stmts != [] && SameOutcomes(defs, read, db, Init(script), Init(stmts))
    requires Typed(read, Last(script)) == Last(stmts) && !IsSetting(Last(script))
    ensures SameOutcomes(defs, read, db, script, stmts)
  {
    forall back, n | ExecutesScript(defs, read, db, script, back, n) ensures ExecutesAll(defs, db, stmts, back, n) {
      ReadIsMeant(defs, read, db, script, stmts, back, n);
    }
    forall back, n | ExecutesAll(defs, db, stmts, back, n) ensures ExecutesScript(defs, read, db, script, back, n) {
      MeantIsRead(defs, read, db, script, stmts, back, n);
    }
  }

  /** After the session's settings, the script has the outcomes of its statements over values. */
  lemma {:induction false} ScriptIsStatements(defs: Defs, read: Reading, fmt: Format, db: Db, stmts: seq<Stmt<Value>>)
    requires AllUnderstood(read, fmt, stmts)
    ensures SameOutcomes(defs, read, db, SESSION + IntendedAll(fmt, stmts), stmts)
    decreases |stmts|
  {
    if stmts == [] {
      SessionChangesNothing(defs, read, db);
      assert SESSION + IntendedAll(fmt, stmts) == SESSION;
    } else {
      ScriptIsStatements(defs, read, fmt, db, Init(stmts));
      ScriptParts(fmt, stmts);
      assert UnderstoodStmt(read, fmt, stmts[|stmts| - 1]);
      IntendedIsTyped(read, fmt, Last(stmts));
      OneMoreRead(defs, read, db, SESSION + IntendedAll(fmt, stmts), stmts);
    }
  }

  predicate AllReadable(read: Reading, fmt: Format, events: seq<Event>) {
    forall i :: 0 <= i < |events| ==> Readable(read, fmt, events[i])
  }

  lemma PlanIsUnderstood(read: Reading, fmt: Format, events: seq<Event>)
    requires AllReadable(read, fmt, events) && PlanOf(fmt, events).Ok?
    ensures AllUnderstood(read, fmt, StatementsOf(PlanOf(fmt, events).value))
  {
    var plan := PlanOf(fmt, events).value;
    PlanPrintsInverses(fmt, events, 0);
    forall i | 0 <= i < |plan| ensures UnderstoodStmt(read, fmt, StatementsOf(plan)[i]) {
      assert plan[i] in plan;
      InverseIsUnderstood(read, fmt, plan[i].event);
    }
  }

  /** Where a plan leads over values, its script leads when it is read. */
  lemma ScriptLeads(defs: Defs, read: Reading, fmt: Format, db: Db, events: seq<Event>, target: Db)
    requires AllReadable(read, fmt, events) && PlanOf(fmt, events).Ok?
    requires LeadsTo(defs, db, StatementsOf(PlanOf(fmt, events).value), target, |PlanOf(fmt, events).value|)
    ensures ScriptLeadsTo(defs, read, db, SESSION + IntendedAll(fmt, StatementsOf(PlanOf(fmt, events).value)), target,
                          |PlanOf(fmt, events).value|)
  {
    PlanIsUnderstood(read, fmt, events);
    ScriptIsStatements(defs, read, fmt, db, StatementsOf(PlanOf(fmt, events).value));
  }

  // ---------- The window a script is made of ----------

  predicate InTime(f: Filter, ev: Event) {
    (f.from.Some? ==> ev.at >= f.from.value) && (f.to.Some? ==> ev.at <= f.to.value)
  }

  function TablesOnly(f: Filter): Filter { f.(from := None, to := None) }

  /** The window holds exactly the changes from the p-th on. */
  predicate Reaches(f: Filter, events: seq<Event>, p: nat) {
    forall j :: 0 <= j < |events| ==> (InTime(f, events[j]) <==> p <= j)
  }

  lemma {:induction false} WindowIsTail(f: Filter, events: seq<Event>, p: nat, n: nat)
    requires n <= |events| && Reaches(f, events, p)
    ensures Matching(f, events[..n]) == if p <= n then Matching(TablesOnly(f), events[p..n]) else []
    decreases n
  {
    if n > 0 {
      WindowIsTail(f, events, p, n - 1);
      assert events[..n] == events[..n - 1] + [events[n - 1]];
      MatchingOneMore(f, events[..n - 1], events[n - 1]);
      assert Match(f, events[n - 1]) <==> InTime(f, events[n - 1]) && Match(TablesOnly(f), events[n - 1]);
      if p < n {
        assert events[p..n] == events[p..n - 1] + [events[n - 1]];
        MatchingOneMore(TablesOnly(f), events[p..n - 1], events[n - 1]);
      }
    }
  }

  lemma RunPart(defs: Defs, dbs: seq<Db>, events: seq<Event>, p: nat, n: nat)
    requires Run(defs, dbs, events) && p <= n <= |events|
    ensures Run(defs, dbs[p..n + 1], events[p..n])
  {
    var part, evs := dbs[p..n + 1], events[p..n];
    forall i | 0 <= i < |part| ensures DbOk(defs, part[i]) {
      assert DbOk(defs, dbs[p + i]);
    }
    forall i | 0 <= i < |evs| ensures Database.Step(defs, part[i], evs[i], part[i + 1]) {
      assert Database.Step(defs, dbs[p + i], events[p + i], dbs[p + i + 1]);
    }
  }

  lemma {:induction false} WindowIsReadable(f: Filter, read: Reading, fmt: Format, events: seq<Event>)
    requires AllReadable(read, fmt, events)
    ensures AllReadable(read, fmt, Matching(f, events))
    decreases |events|
  {
    if events != [] { WindowIsReadable(f, read, fmt, events[..|events| - 1]); }
  }

  function Min(a: nat, b: nat): nat { if a <= b then a else b }

  /** Executing the script of a window that reaches from the p-th change on, over the
      state after n changes, gives each selected table the rows it had before the p-th. */
  lemma WindowIsUndone(defs: Defs, read: Reading, fmt: Format, dbs: seq<Db>, events: seq<Event>, f: Filter, p: nat,
                       n: nat)
    requires Run(defs, dbs, events) && n <= |events| && Reaches(f, events, p) && AllReadable(read, fmt, events)
    ensures var q, window := Min(p, n), Matching(f, events[..n]);
            && PlanOf(fmt, window).Ok? && dbs[q].Keys == dbs[n].Keys
            && var plan := PlanOf(fmt, window).value;
               ScriptLeadsTo(defs, read, dbs[n], SESSION + IntendedAll(fmt, StatementsOf(plan)),
                             Merge(TablesOnly(f), dbs[q], dbs[n]), |plan|)
  {
    var q, window := Min(p, n), Matching(f, events[..n]);
    WindowIsTail(f, events, p, n);
    RunPart(defs, dbs, events, q, n);
    assert p > n ==> events[q..n] == [] && Matching(TablesOnly(f), events[q..n]) == [];
    assert window == Matching(TablesOnly(f), events[q..n]);
    FilteredPlanUndoesSelected(fmt, defs, dbs[q..n + 1], events[q..n], TablesOnly(f));
    PrefixReadable(read, fmt, events, n);
    WindowIsReadable(f, read, fmt, events[..n]);
    ScriptLeads(defs, read, fmt, dbs[n], window, Merge(TablesOnly(f), dbs[q], dbs[n]));
  }

  lemma PrefixReadable(read: Reading, fmt: Format, events: seq<Event>, n: nat)
    requires AllReadable(read, fmt, events) && n <= |events|
    ensures AllReadable(read, fmt, events[..n])
  {
  }

  // ---------- From the log to the script and back ----------

  lemma {:induction false} MarkingKeepsWindow(want: set<Text>, f: Filter, events: seq<Event>)
    ensures Revert.MarkAll(want, Matching(f, events)) == Matching(f, Revert.MarkAll(want, events))
    decreases |events|
  {
    if events != [] {
      var init, last := events[..|events| - 1], events[|events| - 1];
      MarkingKeepsWindow(want, f, init);
      assert Revert.MarkAll(want, events) == Revert.MarkAll(want, init) + [Mark(want, last)];
      MatchingOneMore(f, Revert.MarkAll(want, init), Mark(want, last));
      assert Matching(f, events) == if Match(f, last) then Matching(f, init) + [last] else Matching(f, init);
    }
  }

  /** The changes of the whole log, as the store gives them back and a request marks them. */
  function Everything(c: Config, want: set<Text>): seq<Event>
  {
    Revert.MarkAll(want, LogEvents(StoredUpTo(c, Length(c))))
  }

  lemma {:induction false} StoredGrows(c: Config, m: nat, n: nat)
    requires m <= n <= Length(c)
    ensures StoredUpTo(c, m) <= StoredUpTo(c, n)
    decreases n
  {
    if m < n {
      StoredGrows(c, m, n - 1);
      OneMoreStored(c, n);
    }
  }

  lemma {:induction false} LogOfPrefix(some: seq<Transaction>, all: seq<Transaction>)
    requires some <= all
    ensures LogEvents(some) <= LogEvents(all)
    decreases |all|
  {
    if some != all {
      LogOfPrefix(some, Init(all));
      PrefixOfMore(LogEvents(some), LogEvents(Init(all)), RestoredAll(Last(all)));
    }
  }

  lemma PrefixOfMore<T>(a: seq<T>, b: seq<T>, c: seq<T>)
    requires a <= b
    ensures a <= b + c
  {
  }

  lemma MarkedPrefix(want: set<Text>, some: seq<Event>, all: seq<Event>)
    requires some <= all
    ensures Revert.MarkAll(want, some) == Revert.MarkAll(want, all)[..|some|]
  {
  }

  /** The source went through these states with these changes, and its server takes
      every literal for the value it was printed from. */
  ghost predicate Recorded(defs: Defs, read: Reading, fmt: Format, dbs: seq<Db>, events: seq<Event>) {
    Run(defs, dbs, events) && AllReadable(read, fmt, events)
  }

  /** A completed response whose script reads as some statements. */
  ghost predicate Scripted(nb: bool, r: Revert.Response, script: seq<Stmt<Lit>>) {
    r.Complete? && ReadScript(nb, Script.FileText(r.lines)) == Some(script)
  }

  /** Every execution over the n-th state gives each selected table its rows of the
      q-th state, and leaves the others. */
  ghost predicate TakesBack(defs: Defs, read: Reading, f: Filter, script: seq<Stmt<Lit>>, dbs: seq<Db>, n: nat, q: nat,
                            k: nat)
    requires n < |dbs| && q < |dbs|
  {
    dbs[q].Keys == dbs[n].Keys && ScriptLeadsTo(defs, read, dbs[n], script, Merge(TablesOnly(f), dbs[q], dbs[n]), k)
  }

  /** A request for a window that can be read and planned is answered with the script of
      its plan. */
  lemma ResponseIsScript(nb: bool, env: Script.Env, fmt: Format, tell: Revert.Telling, state: Store.State,
                         source: Text, f: Filter,
                         want: set<Text>, now: int, read: Reading, events: seq<Event>, n: nat)
    requires Script.SoundEnv(env) && Sound(fmt) && n <= |events| && AllReadable(read, fmt, events)
    requires Store.Answer(state, f, now).Ok?
    requires Revert.MarkAll(want, Store.Answer(state, f, now).value) == Matching(f, events[..n])
    requires PlanOf(fmt, Matching(f, events[..n])).Ok?
    ensures Scripted(nb, Revert.Respond(env, fmt, tell, state, source, f, want, now),
                     SESSION + IntendedAll(fmt, StatementsOf(PlanOf(fmt, Matching(f, events[..n])).value)))
  {
    Revert.RevertIsThePlan(env, fmt, tell, state, source, f, want, now);
    WindowIsFinite(read, fmt, want, Store.Answer(state, f, now).value, events, f, n);
    Revert.CompleteRevertReadsBack(nb, env, fmt, tell, state, source, f, want, now);
  }

  /** A request that is answered with a window of a run is answered with a script that,
      read and executed on the state the run stands in, undoes the window. */
  lemma ResponseUndoes(nb: bool, env: Script.Env, fmt: Format, tell: Revert.Telling, state: Store.State, source: Text,
                       f: Filter,
                       want: set<Text>, now: int, defs: Defs, read: Reading, dbs: seq<Db>, events: seq<Event>, p: nat,
                         n: nat)
    returns (script: seq<Stmt<Lit>>, k: nat)
    requires Script.SoundEnv(env) && Sound(fmt)
    requires Recorded(defs, read, fmt, dbs, events) && n <= |events| && Reaches(f, events, p)
    requires Store.Answer(state, f, now).Ok?
    requires Revert.MarkAll(want, Store.Answer(state, f, now).value) == Matching(f, events[..n])
    ensures Scripted(nb, Revert.Respond(env, fmt, tell, state, source, f, want, now), script)
    ensures TakesBack(defs, read, f, script, dbs, n, Min(p, n), k)
  {
    WindowIsUndone(defs, read, fmt, dbs, events, f, p, n);
    var plan := PlanOf(fmt, Matching(f, events[..n])).value;
    script, k := SESSION + IntendedAll(fmt, StatementsOf(plan)), |plan|;
    ResponseIsScript(nb, env, fmt, tell, state, source, f, want, now, read, events, n);
  }

  /** Every execution over the n-th state leads to where the changes outside the window
      lead by themselves. */
  ghost predicate TakesOut(defs: Defs, read: Reading, f: Filter, script: seq<Stmt<Lit>>, dbs: seq<Db>,
                           events: seq<Event>, n: nat,
                           back: Db, k: nat)
    requires n < |dbs| && n <= |events|
  {
    Path(defs, dbs[0], Outside(f, events[..n]), back) && ScriptLeadsTo(defs, read, dbs[n], script, back, k)
  }

  /** The same for a window that lies anywhere, when nothing outside it touches what a
      change inside it touched before. */
  lemma ResponseTakesOut(nb: bool, env: Script.Env, fmt: Format, tell: Revert.Telling, state: Store.State,
                         source: Text, f: Filter,
                         want: set<Text>, now: int, defs: Defs, read: Reading, dbs: seq<Db>, events: seq<Event>, n: nat)
    returns (script: seq<Stmt<Lit>>, back: Db, k: nat)
    requires Script.SoundEnv(env) && Sound(fmt)
    requires Recorded(defs, read, fmt, dbs, events) && n <= |events| && KeepsApart(f, events[..n])
    requires Store.Answer(state, f, now).Ok?
    requires Revert.MarkAll(want, Store.Answer(state, f, now).value) == Matching(f, events[..n])
    ensures Scripted(nb, Revert.Respond(env, fmt, tell, state, source, f, want, now), script)
    ensures TakesOut(defs, read, f, script, dbs, events, n, back, k)
  {
    RunPart(defs, dbs, events, 0, n);
    assert events[0..n] == events[..n];
    back := SeparateIsUndone(fmt, defs, dbs[0..n + 1], events[..n], f);
    var window := Matching(f, events[..n]);
    var plan := PlanOf(fmt, window).value;
    script, k := SESSION + IntendedAll(fmt, StatementsOf(plan)), |plan|;
    PrefixReadable(read, fmt, events, n);
    WindowIsReadable(f, read, fmt, events[..n]);
    ScriptLeads(defs, read, fmt, dbs[n], window, back);
    ResponseIsScript(nb, env, fmt, tell, state, source, f, want, now, read, events, n);
  }

  lemma WindowIsFinite(read: Reading, fmt: Format, want: set<Text>, answer: seq<Event>, events: seq<Event>, f: Filter,
                       n: nat)
    requires n <= |events| && AllReadable(read, fmt, events) && Revert.MarkAll(want, answer) == Matching(f, events[..n])
    ensures forall i :: 0 <= i < |answer| ==> FiniteEvent(answer[i])
  {
    PrefixReadable(read, fmt, events, n);
    WindowIsReadable(f, read, fmt, events[..n]);
    forall i | 0 <= i < |answer| ensures FiniteEvent(answer[i]) {
      assert Readable(read, fmt, Revert.MarkAll(want, answer)[i]);
    }
  }

  /** What an accepted window is answered with, marked, is what it holds of the changes so far. */
  lemma AnswerIsMarked(c: Config, worlds: seq<World>, i: nat, f: Filter, now: int, want: set<Text>)
    returns (m: nat, n: nat)
    requires LogOk(c) && IsRun(c, worlds) && i < |worlds| && f.from.Some?
    requires Store.Judge(RunOf(worlds[i].ops), f, now).None?
    ensures m <= Length(c) && CheckpointWithin(c, RunOf(worlds[i].ops).checkpoint, m)
    ensures worlds[i].conn.Some? ==> worlds[i].conn.value.at <= m
    ensures n == |LogEvents(StoredUpTo(c, m))| <= |Everything(c, want)|
    ensures var answer := Store.Answer(RunOf(worlds[i].ops), f, now);
            answer.Ok? && Revert.MarkAll(want, answer.value) == Matching(f, Everything(c, want)[..n])
  {
    m := AnswersAreTheLogPrefix(c, worlds, i, f, now);
    n := |LogEvents(StoredUpTo(c, m))|;
    StoredGrows(c, m, Length(c));
    LogOfPrefix(StoredUpTo(c, m), StoredUpTo(c, Length(c)));
    MarkedPrefix(want, LogEvents(StoredUpTo(c, m)), LogEvents(StoredUpTo(c, Length(c))));
    MarkingKeepsWindow(want, f, LogEvents(StoredUpTo(c, m)));
  }

  /** The guarantee from end to end. A source goes through a run of changes, and its log
      commits them; a collector follows the log with any number of failures; some window
      of the store is accepted, and holds exactly the changes from the p-th on. Then the
      revert of the window completes, and its script, read by the server under either
      setting of NO_BACKSLASH_ESCAPES and executed on the state after the n changes the
      store was handed, leads to one state: every selected table as it was before the
      p-th change, every other one as it is. */
  lemma RevertRestores(nb: bool, env: Script.Env, fmt: Format, tell: Revert.Telling, source: Text, f: Filter,
                       want: set<Text>, now: int,
                       c: Config, worlds: seq<World>, i: nat, defs: Defs, read: Reading, dbs: seq<Db>, p: nat)
    returns (m: nat, n: nat, script: seq<Stmt<Lit>>, k: nat)
    requires Script.SoundEnv(env) && Sound(fmt) && LogOk(c) && IsRun(c, worlds) && i < |worlds|
    requires f.from.Some? && Store.Judge(RunOf(worlds[i].ops), f, now).None?
    requires Recorded(defs, read, fmt, dbs, Everything(c, want)) && Reaches(f, Everything(c, want), p)
    ensures m <= Length(c) && CheckpointWithin(c, RunOf(worlds[i].ops).checkpoint, m)
    ensures worlds[i].conn.Some? ==> worlds[i].conn.value.at <= m
    ensures n == |LogEvents(StoredUpTo(c, m))| < |dbs|
    ensures Scripted(nb, Revert.Respond(env, fmt, tell, RunOf(worlds[i].ops), source, f, want, now), script)
    ensures TakesBack(defs, read, f, script, dbs, n, Min(p, n), k)
  {
    m, n := AnswerIsMarked(c, worlds, i, f, now, want);
    script, k := ResponseUndoes(nb, env, fmt, tell, RunOf(worlds[i].ops), source, f, want, now, defs, read, dbs,
      Everything(c, want), p, n);
  }

  lemma PrefixKeepsApart(f: Filter, events: seq<Event>, n: nat)
    requires KeepsApart(f, events) && n <= |events|
    ensures KeepsApart(f, events[..n])
  {
  }

  /** The same for a window that lies anywhere in the log, when no change outside it
      touches the key of a change inside it that came before: every execution leads to
      the database that the changes outside the window lead to by themselves. */
  lemma RevertTakesOut(nb: bool, env: Script.Env, fmt: Format, tell: Revert.Telling, source: Text, f: Filter,
                       want: set<Text>, now: int,
                       c: Config, worlds: seq<World>, i: nat, defs: Defs, read: Reading, dbs: seq<Db>)
    returns (m: nat, n: nat, script: seq<Stmt<Lit>>, back: Db, k: nat)
    requires Script.SoundEnv(env) && Sound(fmt) && LogOk(c) && IsRun(c, worlds) && i < |worlds|
    requires f.from.Some? && Store.Judge(RunOf(worlds[i].ops), f, now).None?
    requires Recorded(defs, read, fmt, dbs, Everything(c, want)) && KeepsApart(f, Everything(c, want))
    ensures m <= Length(c) && CheckpointWithin(c, RunOf(worlds[i].ops).checkpoint, m)
    ensures worlds[i].conn.Some? ==> worlds[i].conn.value.at <= m
    ensures n == |LogEvents(StoredUpTo(c, m))| < |dbs| && n <= |Everything(c, want)|
    ensures Scripted(nb, Revert.Respond(env, fmt, tell, RunOf(worlds[i].ops), source, f, want, now), script)
    ensures TakesOut(defs, read, f, script, dbs, Everything(c, want), n, back, k)
  {
    m, n := AnswerIsMarked(c, worlds, i, f, now, want);
    PrefixKeepsApart(f, Everything(c, want), n);
    script, back, k :=
      ResponseTakesOut(nb, env, fmt, tell, RunOf(worlds[i].ops), source, f, want, now, defs, read, dbs,
        Everything(c, want), n);
  }

  // ---------- What is assumed can be met ----------

  function RawChanges(log: seq<Transaction>): seq<Event> {
    if log == [] then [] else RawChanges(Init(log)) + Last(log).events
  }

  predicate CanonicalImages(ev: Event) {
    Storage.CanonImage(ev.before) == ev.before && Storage.CanonImage(ev.after) == ev.after
  }

  predicate AllCanonical(events: seq<Event>) { forall i :: 0 <= i < |events| ==> CanonicalImages(events[i]) }

  /** The same change, seen at another time. */
  predicate SameChange(a: Event, b: Event) { b == a.(at := b.at, serverId := b.serverId) }

  predicate SameChanges(a: seq<Event>, b: seq<Event>) {
    |a| == |b| && forall i :: 0 <= i < |a| ==> SameChange(a[i], b[i])
  }

  lemma {:induction false} RestoredChanges(txn: Transaction, n: nat)
    requires n <= |txn.events| && AllCanonical(txn.events)
    ensures SameChanges(txn.events[..n], RestoredUpTo(txn, n))
    decreases n
  {
    if n > 0 {
      RestoredChanges(txn, n - 1);
      assert CanonicalImages(txn.events[n - 1]);
    }
  }

  lemma {:induction false} LogHoldsTheChanges(log: seq<Transaction>)
    requires AllCanonical(RawChanges(log))
    ensures SameChanges(RawChanges(log), LogEvents(log))
    decreases |log|
  {
    if log != [] {
      var before, txn := RawChanges(Init(log)), Last(log);
      assert AllCanonical(before) by { assert before == RawChanges(log)[..|before|]; }
      assert AllCanonical(txn.events) by { assert txn.events == RawChanges(log)[|before|..]; }
      LogHoldsTheChanges(Init(log));
      RestoredChanges(txn, |txn.events|);
      assert txn.events[..|txn.events|] == txn.events;
    }
  }

  /** With canonical images, a run of the changes that the log commits is a run of the
      changes that the store gives back. */
  lemma StoredRun(defs: Defs, dbs: seq<Db>, want: set<Text>, log: seq<Transaction>)
    requires AllCanonical(RawChanges(log)) && Run(defs, dbs, Revert.MarkAll(want, RawChanges(log)))
    ensures Run(defs, dbs, Revert.MarkAll(want, LogEvents(log)))
  {
    LogHoldsTheChanges(log);
    var raw, back := Revert.MarkAll(want, RawChanges(log)), Revert.MarkAll(want, LogEvents(log));
    forall i | 0 <= i < |back| ensures Database.Step(defs, dbs[i], back[i], dbs[i + 1]) {
      assert SameChange(RawChanges(log)[i], LogEvents(log)[i]);
      assert Database.Step(defs, dbs[i], raw[i], dbs[i + 1]);
    }
  }

  predicate HoldsAt(ev: Event, col: string, v: Value) {
    exists i :: 0 <= i < |ev.columns| && ev.columns[i].name == col
      && (IsAt(ev.before, ev.columns, i, v) || IsAt(ev.after, ev.columns, i, v))
  }

  predicate IsAt(row: Option<Row>, cols: seq<Column>, i: nat, v: Value) {
    row.Some? && |row.value| == |cols| && i < |cols| && row.value[i] == v
  }

  /** A value that stands in a column of a table in some change. */
  ghost predicate InColumn(events: seq<Event>, t: TableName, col: string, v: Value) {
    exists i :: 0 <= i < |events| && NameOf(events[i]) == t && HoldsAt(events[i], col, v)
  }

  /** The values of a column print, have one type, and are canonical. */
  ghost predicate OneTyped(events: seq<Event>) {
    forall t, col, v, w :: InColumn(events, t, col, v) && InColumn(events, t, col, w) ==>
      Printable(v) && OneType(v, w) && (SameStored(v, w) ==> v == w)
  }

  /** The value of the column that the literal was printed from. */
  ghost function TakenFor(fmt: Format, events: seq<Event>, t: TableName, col: string, l: Lit): Value {
    if exists v :: InColumn(events, t, col, v) && Meaning(fmt)(v) == l then
      var v :| InColumn(events, t, col, v) && Meaning(fmt)(v) == l; v
    else Null
  }

  lemma TakenForIt(fmt: Format, events: seq<Event>, t: TableName, col: string, v: Value)
    requires Sound(fmt) && TellsApart(fmt) && OneTyped(events) && InColumn(events, t, col, v)
    ensures TakenFor(fmt, events, t, col, Meaning(fmt)(v)) == v
  {
    var w := TakenFor(fmt, events, t, col, Meaning(fmt)(v));
    assert InColumn(events, t, col, w) && Meaning(fmt)(w) == Meaning(fmt)(v);
    LiteralKeepsTheValue(fmt, v, w);
  }

  /** Literals tell values apart, so where each column holds canonical values of one type
      there is a server that takes every literal for the value it was printed from. */
  lemma AServerReads(fmt: Format, events: seq<Event>) returns (read: Reading)
    requires Sound(fmt) && TellsApart(fmt) && OneTyped(events)
    requires forall i :: 0 <= i < |events| ==> FiniteEvent(events[i])
    ensures AllReadable(read, fmt, events)
  {
    read := (t, col, l) => TakenFor(fmt, events, t, col, l);
    forall i, k, v | 0 <= i < |events| && 0 <= k < |events[i].columns|
                     && (IsAt(events[i].before, events[i].columns, k, v)
                        || IsAt(events[i].after, events[i].columns, k, v))
      ensures Understood(read, fmt, NameOf(events[i]), events[i].columns[k].name, v)
    {
      assert HoldsAt(events[i], events[i].columns[k].name, v);
      TakenForIt(fmt, events, NameOf(events[i]), events[i].columns[k].name, v);
    }
  }
}
