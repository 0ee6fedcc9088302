/** Running a plan undoes the run it was made from. */
module Undo {
  import opened Sequences
  import opened Wrappers
  import opened Change
  import opened Sql
  import opened Literal
  import opened Reverse
  import opened Database

  // ---------- Locating a row ----------

  lemma NamesLocate(def: TableDef, i: nat)
    requires DefOk(def) && i < |def.columns|
    ensures ColumnAt(def.columns, def.columns[i].name) == i
  {
    var k := ColumnAt(def.columns, def.columns[i].name);
    if k < |def.columns| { assert def.columns[k].name == def.columns[i].name; }
  }

  lemma {:induction false} WhereIs(cols: seq<Column>, row: Row, idx: seq<nat>, n: nat)
    requires |row| == |cols| && n <= |idx| && forall k :: 0 <= k < |idx| ==> idx[k] < |cols|
    requires forall i :: 0 <= i < |row| ==> Renderable(row[i])
    ensures var r := WhereUpTo(cols, row, idx, n);
            r.Ok? && |r.value| == n && forall k :: 0 <= k < n ==> r.value[k] == PredOf(cols[idx[k]], row[idx[k]])
  {
    if n > 0 {
      WhereIs(cols, row, idx, n - 1);
    }
  }

  predicate AgreesOn(idx: seq<nat>, r: Row, a: Row)
    requires |r| == |a| && forall k :: 0 <= k < |idx| ==> idx[k] < |a|
  {
    forall k :: 0 <= k < |idx| ==> r[idx[k]] == a[idx[k]]
  }

  lemma AgreesOnKey(cols: seq<Column>, r: Row, a: Row)
    requires |r| == |a| == |cols|
    ensures AgreesOn(WhereIndexes(cols), r, a) <==> if HasKey(cols) then SameKey(cols, r, a) else r == a
  {
    IndexesCover(cols);
    var idx := WhereIndexes(cols);
    if AgreesOn(idx, r, a) {
      forall i | 0 <= i < |cols| && (HasKey(cols) ==> cols[i].primaryKey) ensures r[i] == a[i] {
        assert i in idx;
      }
    }
  }

  lemma PredAgrees(def: TableDef, a: Row, r: Row, i: nat)
    requires DefOk(def) && |r| == |a| == |def.columns| && i < |def.columns|
    ensures ColumnAt(def.columns, PredOf(def.columns[i], a[i]).col) == i
    ensures Holds(def.columns, r, PredOf(def.columns[i], a[i])) <==> r[i] == a[i]
  {
    NamesLocate(def, i);
  }

  lemma WhereAgrees(def: TableDef, a: Row, r: Row)
    requires DefOk(def) && RowOk(def, a) && |r| == |def.columns|
    ensures Where(def.columns, a).Ok?
    ensures Known(def.columns, Where(def.columns, a).value)
    ensures Matches(def.columns, r, Where(def.columns, a).value) <==> AgreesOn(WhereIndexes(def.columns), r, a)
  {
    var cols, idx := def.columns, WhereIndexes(def.columns);
    WhereIs(cols, a, idx, |idx|);
    var where := Where(cols, a).value;
    forall k | 0 <= k < |idx|
      ensures ColumnAt(cols, where[k].col) == idx[k]
      ensures Holds(cols, r, where[k]) <==> r[idx[k]] == a[idx[k]]
    {
      PredAgrees(def, a, r, idx[k]);
    }
  }

  /** The predicate built from a row image holds of exactly the rows with its key,
      and without a key of exactly the rows equal to it, NULLs included. */
  lemma WhereFinds(def: TableDef, a: Row, r: Row)
    requires DefOk(def) && RowOk(def, a) && |r| == |def.columns|
    ensures Where(def.columns, a).Ok?
    ensures Known(def.columns, Where(def.columns, a).value)
    ensures Matches(def.columns, r, Where(def.columns, a).value)
       <==> if HasKey(def.columns) then SameKey(def.columns, r, a) else r == a
  {
    WhereAgrees(def, a, r);
    AgreesOnKey(def.columns, r, a);
  }

  lemma IndexesCover(cols: seq<Column>)
    ensures forall i :: 0 <= i < |cols| && (HasKey(cols) ==> cols[i].primaryKey) ==> i in WhereIndexes(cols)
    ensures HasKey(cols) ==> forall k :: 0 <= k < |WhereIndexes(cols)| ==> cols[WhereIndexes(cols)[k]].primaryKey
  {
    var key := KeyIndexes(cols, |cols|);
    if key == [] {
      var all := seq(|cols|, i => i);
      forall i | 0 <= i < |cols| ensures i in all { assert all[i] == i; }
      forall i | 0 <= i < |cols| ensures !cols[i].primaryKey { assert i !in key; }
    } else {
      assert cols[key[0]].primaryKey;
    }
  }

  // ---------- Rebuilding a row ----------

  /** The assignments give a value to exactly the picked ones of the first n columns. */
  ghost predicate AssignsPicked(def: TableDef, b: Row, pick: seq<bool>, n: nat, sets: seq<Assign<Value>>)
    requires |b| == |pick| == |def.columns|
  {
    && (forall k :: 0 <= k < |sets| ==> Assignable(def.columns, sets[k].col))
    && (forall i :: 0 <= i < |def.columns| ==>
          Assigned(sets, def.columns[i].name) == if i < n && pick[i] then Some(b[i]) else None)
    && ((exists i :: 0 <= i < n && i < |b| && pick[i]) ==> sets != [])
  }

  lemma OneMorePick(def: TableDef, b: Row, pick: seq<bool>, n: nat, sets: seq<Assign<Value>>)
    requires DefOk(def) && |b| == |pick| == |def.columns| && n < |b| && AssignsPicked(def, b, pick, n, sets)
    requires pick[n] ==> !def.columns[n].readOnly
    ensures AssignsPicked(def, b, pick, n + 1, sets + if pick[n] then [Assign(def.columns[n].name, b[n])] else [])
  {
    if !pick[n] {
      assert sets + [] == sets;
    } else {
      var more := sets + [Assign(def.columns[n].name, b[n])];
      assert more[..|more| - 1] == sets;
      NamesLocate(def, n);
      forall i | 0 <= i < |def.columns| && i != n ensures def.columns[i].name != def.columns[n].name {
        NamesLocate(def, i);
      }
    }
  }

  lemma NothingPicked(def: TableDef, b: Row, pick: seq<bool>)
    requires |b| == |pick| == |def.columns|
    ensures AssignsPicked(def, b, pick, 0, [])
  {
  }

  predicate AllRenderable(r: Row) { forall i :: 0 <= i < |r| ==> Renderable(r[i]) }
  predicate AllExact(r: Row) { forall i :: 0 <= i < |r| ==> Exact(r[i]) }

  function Changed(cols: seq<Column>, b: Row, a: Row): seq<bool>
    requires |b| == |a| == |cols|
  {
    seq(|cols|, i requires 0 <= i < |cols| => b[i] != a[i] && !cols[i].readOnly)
  }

  function WritableColumns(cols: seq<Column>): seq<bool> {
    seq(|cols|, i requires 0 <= i < |cols| => !cols[i].readOnly)
  }

  lemma SetsStep(cols: seq<Column>, b: Row, a: Row, n: nat)
    requires |b| == |a| == |cols| && 0 < n <= |cols| && Renderable(b[n - 1]) && Exact(b[n - 1]) && Exact(a[n - 1])
    requires SetsUpTo(cols, b, a, n - 1).Ok?
    ensures SetsUpTo(cols, b, a, n) ==
            Ok(SetsUpTo(cols, b, a, n - 1).value + if Changed(cols, b, a)[n - 1]
              then [Assign(cols[n - 1].name, b[n - 1])] else [])
  {
    ExactEquality(b[n - 1], a[n - 1]);
    var sets := SetsUpTo(cols, b, a, n - 1).value;
    assert sets + [] == sets;
  }

  lemma OneMoreSet(def: TableDef, b: Row, a: Row, n: nat)
    requires DefOk(def) && |b| == |a| == |def.columns| && 0 < n <= |def.columns|
    requires Renderable(b[n - 1]) && Exact(b[n - 1]) && Exact(a[n - 1])
    requires SetsUpTo(def.columns, b, a, n - 1).Ok?
    requires AssignsPicked(def, b, Changed(def.columns, b, a), n - 1, SetsUpTo(def.columns, b, a, n - 1).value)
    ensures SetsUpTo(def.columns, b, a, n).Ok?
    ensures AssignsPicked(def, b, Changed(def.columns, b, a), n, SetsUpTo(def.columns, b, a, n).value)
  {
    SetsStep(def.columns, b, a, n);
    OneMorePick(def, b, Changed(def.columns, b, a), n - 1, SetsUpTo(def.columns, b, a, n - 1).value);
  }

  lemma {:induction false} SetsAre(def: TableDef, b: Row, a: Row, n: nat)
    requires DefOk(def) && |b| == |a| == |def.columns| && AllRenderable(b) && AllExact(b) && AllExact(a)
    requires n <= |def.columns|
    ensures SetsUpTo(def.columns, b, a, n).Ok?
    ensures AssignsPicked(def, b, Changed(def.columns, b, a), n, SetsUpTo(def.columns, b, a, n).value)
    decreases n
  {
    if n == 0 {
      NothingPicked(def, b, Changed(def.columns, b, a));
    } else {
      SetsAre(def, b, a, n - 1);
      OneMoreSet(def, b, a, n);
    }
  }

  lemma RecomputeByBase(def: TableDef, r: Row, s: Row)
    requires |r| == |s| == |def.columns|
    requires forall i :: 0 <= i < |r| && !def.columns[i].readOnly ==> r[i] == s[i]
    ensures Recompute(def, r) == Recompute(def, s)
  {
    assert Base(def.columns, r) == Base(def.columns, s);
  }

  /** Assigning the before values of the changed columns rebuilds the before image,
      computed columns included. */
  lemma SetsRebuild(def: TableDef, b: Row, a: Row)
    requires DefOk(def) && RowOk(def, b) && RowOk(def, a)
    ensures SetsUpTo(def.columns, b, a, |def.columns|).Ok?
    ensures AssignRow(def, a, SetsUpTo(def.columns, b, a, |def.columns|).value) == b
    ensures a != b ==> SetsUpTo(def.columns, b, a, |def.columns|).value != []
  {
    var cols := def.columns;
    SetsAre(def, b, a, |cols|);
    var sets := SetsUpTo(cols, b, a, |cols|).value;
    var r := seq(|a|, i requires 0 <= i < |a| => var v := Assigned(sets, cols[i].name);
      if v.Some? then v.value else a[i]);
    RecomputeByBase(def, r, b);
    if sets == [] {
      forall i | 0 <= i < |cols| && !cols[i].readOnly ensures a[i] == b[i] {
        assert Assigned(sets, cols[i].name) == None;
      }
      RecomputeByBase(def, a, b);
    }
  }

  lemma PairsAppend(cols: seq<string>, vals: seq<Value>, c: string, v: Value)
    requires |cols| == |vals|
    ensures Pairs(cols + [c], vals + [v]) == Pairs(cols, vals) + [Assign(c, v)]
  {
  }

  lemma AssignableStep(cols: seq<Column>, b: Row, n: nat)
    requires |b| == |cols| && n < |cols| && AllRenderable(b) && AssignableUpTo(cols, b, n).Ok?
    ensures AssignableUpTo(cols, b, n + 1) ==
            var r := AssignableUpTo(cols, b, n).value;
            if cols[n].readOnly then Ok(r) else Ok((r.0 + [cols[n].name], r.1 + [b[n]]))
  {
  }

  lemma OneMoreAssignable(def: TableDef, b: Row, n: nat)
    requires DefOk(def) && |b| == |def.columns| && AllRenderable(b) && 0 < n <= |def.columns|
    requires AssignableUpTo(def.columns, b, n - 1).Ok?
    requires var r := AssignableUpTo(def.columns, b, n - 1).value;
             AssignsPicked(def, b, WritableColumns(def.columns), n - 1, Pairs(r.0, r.1))
    ensures AssignableUpTo(def.columns, b, n).Ok?
    ensures var r := AssignableUpTo(def.columns, b, n).value;
            AssignsPicked(def, b, WritableColumns(def.columns), n, Pairs(r.0, r.1))
  {
    var r := AssignableUpTo(def.columns, b, n - 1).value;
    AssignableStep(def.columns, b, n - 1);
    PairsAppend(r.0, r.1, def.columns[n - 1].name, b[n - 1]);
    OneMorePick(def, b, WritableColumns(def.columns), n - 1, Pairs(r.0, r.1));
    assert Pairs(r.0, r.1) + [] == Pairs(r.0, r.1);
  }

  lemma {:induction false} AssignableAre(def: TableDef, b: Row, n: nat)
    requires DefOk(def) && |b| == |def.columns| && AllRenderable(b) && n <= |def.columns|
    ensures AssignableUpTo(def.columns, b, n).Ok?
    ensures var r := AssignableUpTo(def.columns, b, n).value;
            AssignsPicked(def, b, WritableColumns(def.columns), n, Pairs(r.0, r.1))
    decreases n
  {
    if n == 0 {
      NothingPicked(def, b, WritableColumns(def.columns));
    } else {
      AssignableAre(def, b, n - 1);
      OneMoreAssignable(def, b, n);
    }
  }

  function Pairs(cols: seq<string>, vals: seq<Value>): seq<Assign<Value>>
    requires |cols| == |vals|
  {
    seq(|cols|, k requires 0 <= k < |cols| => Assign(cols[k], vals[k]))
  }

  lemma InsertRebuilds(def: TableDef, b: Row)
    requires DefOk(def) && RowOk(def, b)
    ensures var r := AssignableUpTo(def.columns, b, |def.columns|);
            && r.Ok? && r.value.0 != [] && BuildRow(def, r.value.0, r.value.1) == b
            && forall k :: 0 <= k < |r.value.0| ==> Assignable(def.columns, r.value.0[k])
  {
    var cols := def.columns;
    AssignableAre(def, b, |cols|);
    var v := AssignableUpTo(cols, b, |cols|).value;
    forall k | 0 <= k < |v.0| ensures Assignable(cols, v.0[k]) {
      assert Pairs(v.0, v.1)[k].col == v.0[k];
    }
    assert Pairs(v.0, v.1) == seq(|v.0|, k requires 0 <= k < |v.0| => Assign(v.0[k], v.1[k]));
    var empty := seq(|cols|, i => Null);
    var r := seq(|empty|, i requires 0 <= i < |empty| =>
      var w := Assigned(Pairs(v.0, v.1), cols[i].name); if w.Some? then w.value else empty[i]);
    RecomputeByBase(def, r, b);
  }

  // ---------- One change and its reversal ----------

  lemma AddKeepsTable(def: TableDef, rows: Rows, a: Row)
    requires TableOk(def, rows) && RowOk(def, a) && KeyFree(def, rows, a)
    ensures TableOk(def, rows + multiset{a})
  {
    var rows' := rows + multiset{a};
    if HasKey(def.columns) {
      assert a !in rows by {
        if a in rows { assert SameKey(def.columns, a, a); }
      }
      forall r, s | r in rows' && s in rows' && SameKey(def.columns, r, s) ensures r == s {
        assert (r in rows || r == a) && (s in rows || s == a);
      }
      forall r | r in rows' ensures rows'[r] == 1 {
        assert r in rows || r == a;
      }
    }
  }

  lemma RemoveKeepsTable(def: TableDef, rows: Rows, b: Row)
    requires TableOk(def, rows) && b in rows
    ensures TableOk(def, rows - multiset{b})
  {
    var rows' := rows - multiset{b};
    assert forall r :: r in rows' ==> r in rows;
  }

  /** A change keeps its table well formed. */
  lemma AppliesKeepsTable(def: TableDef, rows: Rows, ev: Event, rows': Rows)
    requires DefOk(def) && TableOk(def, rows) && Applies(def, rows, ev, rows')
    ensures TableOk(def, rows')
  {
    match ev.op
    case Insert => AddKeepsTable(def, rows, ev.after.value);
    case Delete => RemoveKeepsTable(def, rows, ev.before.value);
    case Update =>
      RemoveKeepsTable(def, rows, ev.before.value);
      AddKeepsTable(def, rows - multiset{ev.before.value}, ev.after.value);
  }

  lemma OnlyRowWithKey(def: TableDef, rows: Rows, a: Row)
    requires DefOk(def) && TableOk(def, rows) && a in rows
    ensures Where(def.columns, a).Ok? && Known(def.columns, Where(def.columns, a).value)
    ensures forall r :: r in rows && |r| == |def.columns| ==>
              (Matches(def.columns, r, Where(def.columns, a).value) <==> r == a)
  {
    WhereFinds(def, a, a);
    forall r | r in rows && |r| == |def.columns|
      ensures Matches(def.columns, r, Where(def.columns, a).value) <==> r == a
    {
      WhereFinds(def, a, r);
    }
  }

  /** An UPDATE or DELETE whose predicate finds only copies of one row acts on that row. */
  lemma OnlyOneOutcome(def: TableDef, rows: Rows, a: Row, where: seq<Pred<Value>>)
    requires a in rows && |a| == |def.columns|
    requires forall r :: r in rows && |r| == |def.columns| ==> (Matches(def.columns, r, where) <==> r == a)
    requires Known(def.columns, where)
    ensures forall schema, table, back, n ::
              Executes(def, rows, Stmt.Delete(schema, table, where), back, n) <==> n == 1 && back == rows - multiset{a}
    ensures forall schema, table, sets: seq<Assign<Value>>, back, n ::
              Executes(def, rows, Stmt.Update(schema, table, sets, where), back, n) <==>
              && (forall k :: 0 <= k < |sets| ==> Assignable(def.columns, sets[k].col))
              && KeyFree(def, rows - multiset{a}, AssignRow(def, a, sets))
              && n == 1 && back == rows - multiset{a} + multiset{AssignRow(def, a, sets)}
  {
    assert Matches(def.columns, a, where);
  }

  lemma InsertIsUndone(def: TableDef, rows: Rows, ev: Event, rows': Rows)
    requires DefOk(def) && TableOk(def, rows) && Applies(def, rows, ev, rows')
    requires ev.op == Op.Insert && ev.columns == def.columns
    ensures Inverse(ev).Ok?
    ensures forall back, n :: Executes(def, rows', Inverse(ev).value, back, n) <==> back == rows && n == 1
  {
    var a := ev.after.value;
    AppliesKeepsTable(def, rows, ev, rows');
    OnlyRowWithKey(def, rows', a);
    OnlyOneOutcome(def, rows', a, Where(def.columns, a).value);
    assert rows' - multiset{a} == rows;
  }

  lemma UpdateIsUndone(def: TableDef, rows: Rows, ev: Event, rows': Rows)
    requires DefOk(def) && TableOk(def, rows) && Applies(def, rows, ev, rows')
    requires ev.op == Op.Update && ev.columns == def.columns
    ensures Inverse(ev).Ok?
    ensures forall back, n :: Executes(def, rows', Inverse(ev).value, back, n) <==> back == rows && n == 1
  {
    var b, a := ev.before.value, ev.after.value;
    AppliesKeepsTable(def, rows, ev, rows');
    OnlyRowWithKey(def, rows', a);
    OnlyOneOutcome(def, rows', a, Where(def.columns, a).value);
    SetsAre(def, b, a, |def.columns|);
    SetsRebuild(def, b, a);
    assert rows' - multiset{a} == rows - multiset{b};
    assert rows - multiset{b} + multiset{b} == rows;
    KeyFreeAfterRemoval(def, rows, b);
  }

  lemma DeleteIsUndone(def: TableDef, rows: Rows, ev: Event, rows': Rows)
    requires DefOk(def) && TableOk(def, rows) && Applies(def, rows, ev, rows')
    requires ev.op == Op.Delete && ev.columns == def.columns
    ensures Inverse(ev).Ok?
    ensures forall back, n :: Executes(def, rows', Inverse(ev).value, back, n) <==> back == rows && n == 1
  {
    var b := ev.before.value;
    AssignableAre(def, b, |def.columns|);
    InsertRebuilds(def, b);
    assert rows - multiset{b} + multiset{b} == rows;
    KeyFreeAfterRemoval(def, rows, b);
  }

  lemma KeyFreeAfterRemoval(def: TableDef, rows: Rows, b: Row)
    requires TableOk(def, rows) && b in rows
    ensures |b| == |def.columns| && KeyFree(def, rows - multiset{b}, b)
  {
    assert RowOk(def, b);
    forall s | HasKey(def.columns) && s in rows - multiset{b} && |s| == |def.columns|
      ensures !SameKey(def.columns, s, b)
    {
      assert s in rows && rows[b] == 1;
    }
  }

  /** The reversal of a row change, run on the table the change left, has exactly one
      outcome: it affects one row and leaves the table as it was before. */
  lemma ChangeIsUndone(def: TableDef, rows: Rows, ev: Event, rows': Rows)
    requires DefOk(def) && TableOk(def, rows) && Applies(def, rows, ev, rows') && ev.columns == def.columns
    ensures Inverse(ev).Ok?
    ensures forall back, n :: Executes(def, rows', Inverse(ev).value, back, n) <==> back == rows && n == 1
  {
    match ev.op
    case Insert => InsertIsUndone(def, rows, ev, rows');
    case Update => UpdateIsUndone(def, rows, ev, rows');
    case Delete => DeleteIsUndone(def, rows, ev, rows');
  }

  lemma StepIsUndone(defs: Defs, db: Db, ev: Event, db': Db)
    requires DbOk(defs, db) && Step(defs, db, ev, db') && !ev.IsSchemaChange()
    ensures Inverse(ev).Ok?
    ensures forall back, n :: ExecutesDb(defs, db', Inverse(ev).value, back, n) <==> back == db && n == 1
  {
    var t := NameOf(ev);
    ChangeIsUndone(defs[t], db[t], ev, db'[t]);
    var s := Inverse(ev).value;
    assert TargetOf(s) == t;
    forall back, n ensures ExecutesDb(defs, db', s, back, n) <==> back == db && n == 1 {
      if back == db && n == 1 {
        assert db == db'[t := db[t]];
      }
      if ExecutesDb(defs, db', s, back, n) {
        assert db == db'[t := db[t]];
      }
    }
  }

  // ---------- A whole run ----------

  /** The statements a plan runs, over values. */
  function StatementsOf(plan: seq<Reversal>): seq<Stmt<Value>> {
    seq(|plan|, i requires 0 <= i < |plan| =>
      var s := Inverse(plan[i].event); if s.Ok? then s.value else SetNames(""))
  }

  lemma {:induction false} PlanFromUndoes(fmt: Format, defs: Defs, dbs: seq<Db>, events: seq<Event>, from: nat)
    requires Run(defs, dbs, events) && from <= |events|
    ensures PlanFrom(fmt, events, from).Ok?
    ensures LeadsTo(defs, dbs[|events|], StatementsOf(PlanFrom(fmt, events, from).value), dbs[from],
                     |PlanFrom(fmt, events, from).value|)
    decreases |events| - from
  {
    if from < |events| {
      PlanFromUndoes(fmt, defs, dbs, events, from + 1);
      assert DbOk(defs, dbs[from]);
      assert Step(defs, dbs[from], events[from], dbs[from + 1]);
      if !events[from].IsSchemaChange() {
        StepIsUndone(defs, dbs[from], events[from], dbs[from + 1]);
        var newer := PlanFrom(fmt, events, from + 1).value;
        var ss := StatementsOf(PlanFrom(fmt, events, from).value);
        assert Init(ss) == StatementsOf(newer);
        assert Last(ss) == Inverse(events[from]).value;
        OneMore(defs, dbs[|events|], ss, dbs[from + 1], |newer|, dbs[from]);
      }
    }
  }

  /** Every execution of the statements leads to one database and affects n rows. */
  ghost predicate LeadsTo(defs: Defs, db: Db, stmts: seq<Stmt<Value>>, target: Db, n: int) {
    forall back, k :: ExecutesAll(defs, db, stmts, back, k) <==> back == target && k == n
  }

  lemma OneMore(defs: Defs, db: Db, ss: seq<Stmt<Value>>, mid: Db, k: int, end: Db)
    requires ss != [] && LeadsTo(defs, db, Init(ss), mid, k)
    requires forall d, n :: ExecutesDb(defs, mid, Last(ss), d, n) <==> d == end && n == 1
    ensures LeadsTo(defs, db, ss, end, k + 1)
  {
    forall d, n | d == end && n == k + 1 ensures ExecutesAll(defs, db, ss, d, n) {
      assert ExecutesAll(defs, db, Init(ss), mid, k) && ExecutesDb(defs, mid, Last(ss), d, 1);
    }
  }

  /** The statements of a plan are the printed inverses of its events. */
  lemma {:induction false} PlanPrintsInverses(fmt: Format, events: seq<Event>, from: nat)
    requires from <= |events| && PlanFrom(fmt, events, from).Ok?
    ensures forall r :: r in PlanFrom(fmt, events, from).value ==>
              r.event in events && Inverse(r.event).Ok? && r.statement == Printed(fmt, Inverse(r.event).value)
    decreases |events| - from
  {
    if from < |events| {
      PlanPrintsInverses(fmt, events, from + 1);
    }
  }

  /** For every run of changes, over any tables, keyed or not, with duplicate rows,
      NULLs, key changes and computed columns: the plan exists, every execution of
      its statements from the final state passes back to the state at the start, and
      each of them affects exactly one row. */
  lemma PlanUndoesRun(fmt: Format, defs: Defs, dbs: seq<Db>, events: seq<Event>)
    requires Run(defs, dbs, events)
    ensures PlanOf(fmt, events).Ok?
    ensures var plan := PlanOf(fmt, events).value;
            && |plan| == CountRowChanges(events)
            && (forall r :: r in plan ==> Inverse(r.event).Ok? && r.statement == Printed(fmt, Inverse(r.event).value))
            && LeadsTo(defs, dbs[|events|], StatementsOf(plan), dbs[0], |plan|)
  {
    PlanFromUndoes(fmt, defs, dbs, events, 0);
    PlanIsAllOrNothing(fmt, events, 0);
    PlanPrintsInverses(fmt, events, 0);
    assert events[0..] == events;
  }

  // ---------- A run seen through a table filter ----------

  /** The selected tables of one database and the others of another. */
  function Merge(f: Filter, selected: Db, others: Db): Db
    requires selected.Keys == others.Keys
  {
    map t | t in others :: if Selects(f, t) then selected[t] else others[t]
  }

  predicate Selects(f: Filter, t: TableName) {
    Text?(t.schema) && Text?(t.table) && MatchesTable(f, t.schema, t.table)
  }

  predicate Text?(s: string) { forall i :: 0 <= i < |s| ==> s[i] as int < 256 }

  lemma {:induction false} RunKeepsTables(defs: Defs, dbs: seq<Db>, events: seq<Event>, i: nat)
    requires Run(defs, dbs, events) && i < |dbs|
    ensures dbs[i].Keys == dbs[0].Keys
    decreases i
  {
    if i > 0 {
      RunKeepsTables(defs, dbs, events, i - 1);
      assert Step(defs, dbs[i - 1], events[i - 1], dbs[i]);
    }
  }

  lemma MergeIsOk(defs: Defs, db: Db, f: Filter, others: Db)
    requires DbOk(defs, db) && DbOk(defs, others) && db.Keys == others.Keys
    ensures DbOk(defs, Merge(f, db, others))
  {
  }

  lemma MergeSelected(f: Filter, db: Db, t: TableName, rows: Rows, others: Db)
    requires db.Keys == others.Keys && t in db && Selects(f, t)
    ensures Merge(f, db[t := rows], others) == Merge(f, db, others)[t := rows]
  {
  }

  lemma MergeUnselected(f: Filter, db: Db, t: TableName, rows: Rows, others: Db)
    requires db.Keys == others.Keys && t in db && !Selects(f, t)
    ensures Merge(f, db[t := rows], others) == Merge(f, db, others)
  {
  }

  lemma MergedStep(defs: Defs, db: Db, ev: Event, db': Db, f: Filter, others: Db)
    requires db.Keys == db'.Keys == others.Keys
    requires Step(defs, db, ev, db') && f.from.None? && f.to.None?
    ensures if Match(f, ev) then Step(defs, Merge(f, db, others), ev, Merge(f, db', others))
            else Merge(f, db, others) == Merge(f, db', others)
  {
    if !ev.IsSchemaChange() {
      var t := NameOf(ev);
      assert Selects(f, t) <==> Match(f, ev);
      if Match(f, ev) {
        MergeSelected(f, db, t, db'[t], others);
      } else {
        MergeUnselected(f, db, t, db'[t], others);
      }
    }
  }

  lemma RunExtends(defs: Defs, dbs: seq<Db>, events: seq<Event>, ev: Event, db: Db)
    requires Run(defs, dbs, events) && DbOk(defs, db) && Step(defs, dbs[|events|], ev, db)
    ensures Run(defs, dbs + [db], events + [ev])
  {
    var dbs', events' := dbs + [db], events + [ev];
    forall i | 0 <= i < |dbs'| ensures DbOk(defs, dbs'[i]) {
      if i < |dbs| { assert DbOk(defs, dbs[i]); }
    }
    forall i | 0 <= i < |events'| ensures Step(defs, dbs'[i], events'[i], dbs'[i + 1]) {
      if i < |events| { assert Step(defs, dbs[i], events[i], dbs[i + 1]); }
    }
  }

  /** A run of events that leads from one merged state to another. */
  ghost predicate Joins(defs: Defs, merged: seq<Db>, events: seq<Event>, start: Db, end: Db) {
    Run(defs, merged, events) && merged[0] == start && merged[|events|] == end
  }

  lemma JoinsExtends(defs: Defs, merged: seq<Db>, events: seq<Event>, start: Db, end: Db, ev: Event, db: Db)
    requires Joins(defs, merged, events, start, end) && DbOk(defs, db) && Step(defs, end, ev, db)
    ensures Joins(defs, merged + [db], events + [ev], start, db)
  {
    RunExtends(defs, merged, events, ev, db);
  }

  lemma RunAt(defs: Defs, dbs: seq<Db>, events: seq<Event>, n: nat)
    requires Run(defs, dbs, events) && n < |dbs|
    ensures DbOk(defs, dbs[n]) && dbs[n].Keys == dbs[0].Keys
    ensures n > 0 ==> Step(defs, dbs[n - 1], events[n - 1], dbs[n]) && dbs[n - 1].Keys == dbs[0].Keys
  {
    RunKeepsTables(defs, dbs, events, n);
    if n > 0 { RunKeepsTables(defs, dbs, events, n - 1); }
  }

  lemma LastEventApart(events: seq<Event>, n: nat)
    requires 0 < n <= |events|
    ensures events[..n] == events[..n - 1] + [events[n - 1]]
  {
  }

  /** One more change of a run: a step of the merged states when it matches, and none
      when it does not. */
  lemma FilteredStep(defs: Defs, start: Db, before: Db, after: Db, events: seq<Event>, ev: Event, f: Filter,
                     others: Db, merged: seq<Db>)
    returns (now: seq<Db>)
    requires f.from.None? && f.to.None? && start.Keys == before.Keys == after.Keys == others.Keys
    requires Step(defs, before, ev, after) && DbOk(defs, Merge(f, after, others))
    requires Joins(defs, merged, Matching(f, events), Merge(f, start, others), Merge(f, before, others))
    ensures Joins(defs, now, Matching(f, events + [ev]), Merge(f, start, others), Merge(f, after, others))
  {
    MatchingOneMore(f, events, ev);
    MergedStep(defs, before, ev, after, f, others);
    now := merged;
    if Match(f, ev) {
      JoinsExtends(defs, merged, Matching(f, events), Merge(f, start, others), Merge(f, before, others), ev,
        Merge(f, after, others));
      now := merged + [Merge(f, after, others)];
    }
  }

  /** Through a table filter, a run is a run of the matching events over the merged states. */
  lemma {:induction false} FilteredRun(defs: Defs, dbs: seq<Db>, events: seq<Event>, f: Filter, others: Db, n: nat)
    returns (merged: seq<Db>)
    requires Run(defs, dbs, events) && f.from.None? && f.to.None? && n <= |events|
    requires DbOk(defs, others) && others.Keys == dbs[0].Keys
    ensures dbs[n].Keys == others.Keys
    ensures Joins(defs, merged, Matching(f, events[..n]), Merge(f, dbs[0], others), Merge(f, dbs[n], others))
    decreases n
  {
    RunAt(defs, dbs, events, n);
    MergeIsOk(defs, dbs[n], f, others);
    if n == 0 {
      merged := [Merge(f, dbs[0], others)];
    } else {
      merged := FilteredRun(defs, dbs, events, f, others, n - 1);
      RunAt(defs, dbs, events, n - 1);
      LastEventApart(events, n);
      merged := FilteredStep(defs, dbs[0], dbs[n - 1], dbs[n], events[..n - 1], events[n - 1], f, others, merged);
    }
  }

  /** With a table filter, running the plan of the matching events returns every
      selected table to its state before the run and leaves every other table as
      the run left it, however the changes to different tables were interleaved. */
  lemma FilteredPlanUndoesSelected(fmt: Format, defs: Defs, dbs: seq<Db>, events: seq<Event>, f: Filter)
    requires Run(defs, dbs, events) && f.from.None? && f.to.None?
    ensures PlanOf(fmt, Matching(f, events)).Ok? && dbs[0].Keys == dbs[|events|].Keys
    ensures var plan := PlanOf(fmt, Matching(f, events)).value;
            LeadsTo(defs, dbs[|events|], StatementsOf(plan), Merge(f, dbs[0], dbs[|events|]), |plan|)
  {
    RunKeepsTables(defs, dbs, events, |events|);
    assert DbOk(defs, dbs[|events|]);
    var merged := FilteredRun(defs, dbs, events, f, dbs[|events|], |events|);
    assert events[..|events|] == events;
    assert Merge(f, dbs[|events|], dbs[|events|]) == dbs[|events|];
    PlanUndoesRun(fmt, defs, merged, Matching(f, events));
  }
}
