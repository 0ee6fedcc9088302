/** Undoing changes from among others: when nothing that came after them and stays touches
    what they touched, the others are left as if the undone ones had never been. */
module Separate {
  import opened Wrappers
  import opened Sequences
  import opened Change
  import opened Reverse
  import opened Literal
  import opened Database
  import opened Undo

  // ---------- Changes that do not touch ----------

  /** A row image of a change. */
  predicate IsImage(ev: Event, r: Row) { ev.before == Some(r) || ev.after == Some(r) }

  /** No image of one change has the key of an image of the other; in a table without a
      key every two changes touch. */
  ghost predicate Apart(a: Event, b: Event) {
    || a.IsSchemaChange() || b.IsSchemaChange() || NameOf(a) != NameOf(b)
    || (forall r, s :: IsImage(a, r) && IsImage(b, s) && |r| == |s| == |a.columns| ==> !SameKey(a.columns, r, s))
  }

  // ---------- One table ----------

  /** A change of a table as what it takes away and what it puts in its place. */
  function Gone(ev: Event): Rows {
    if ev.op.Insert? || ev.before.None? then multiset{} else multiset{ev.before.value}
  }

  function Come(ev: Event): Rows {
    if ev.op.Delete? || ev.after.None? then multiset{} else multiset{ev.after.value}
  }

  ghost predicate Fits(def: TableDef, rows: Rows, ev: Event) {
    && Gone(ev) <= rows
    && (forall a :: a in Come(ev) ==> RowOk(def, a) && KeyFree(def, rows - Gone(ev), a))
  }

  ghost predicate WellFormed(ev: Event) {
    match ev.op
    case Insert => ev.after.Some?
    case Delete => ev.before.Some?
    case Update => ev.before.Some? && ev.after.Some? && ev.after != ev.before
    case _ => false
  }

  lemma AppliesIsFits(def: TableDef, rows: Rows, ev: Event, rows': Rows)
    ensures Applies(def, rows, ev, rows') <==>
            WellFormed(ev) && Fits(def, rows, ev) && rows' == rows - Gone(ev) + Come(ev)
  {
    if WellFormed(ev) {
      match ev.op
      case Insert => assert rows - Gone(ev) == rows;
      case Delete => assert rows - Gone(ev) + Come(ev) == rows - Gone(ev);
      case Update => assert forall a :: a in Come(ev) <==> a == ev.after.value;
    }
  }

  /** Rows of one change are no rows of the other. */
  ghost predicate RowsApart(def: TableDef, a: Event, b: Event) {
    forall r, s :: r in Gone(a) + Come(a) && s in Gone(b) + Come(b) ==>
      r != s && (|r| == |s| == |def.columns| ==> !SameKey(def.columns, r, s))
  }

  lemma KeyStaysFree(def: TableDef, rows: Rows, more: Rows, a: Row)
    requires RowOk(def, a) && KeyFree(def, rows, a)
    requires forall r :: r in more && r !in rows ==> |r| != |def.columns| || !SameKey(def.columns, r, a)
    ensures KeyFree(def, more, a)
  {
  }

  lemma WentOut(rows: Rows, g: Rows, c: Rows, h: Rows, r: Row)
    requires r in rows - h && r !in rows - g + c - h
    ensures r in g
  {
  }

  /** Changes that do not touch fit in either order. */
  lemma FitsBefore(def: TableDef, rows: Rows, a: Event, b: Event)
    requires Fits(def, rows, a) && Fits(def, rows - Gone(a) + Come(a), b) && RowsApart(def, a, b)
    ensures Fits(def, rows, b)
  {
    var mid := rows - Gone(a) + Come(a);
    assert Gone(b) <= rows;
    forall s | s in Come(b) ensures KeyFree(def, rows - Gone(b), s) {
      forall q | q in rows - Gone(b) && q !in mid - Gone(b)
        ensures |q| != |def.columns| || !SameKey(def.columns, q, s)
      {
        WentOut(rows, Gone(a), Come(a), Gone(b), q);
      }
      KeyStaysFree(def, mid - Gone(b), rows - Gone(b), s);
    }
  }

  lemma Swapped(rows: Rows, g: Rows, c: Rows, h: Rows, d: Rows)
    requires g <= rows && h <= rows && g !! h && g !! d && c !! h
    ensures g <= rows - h + d && rows - h + d - g + c == rows - g + c - h + d
  {
    forall x ensures g[x] <= (rows - h + d)[x] && (rows - h + d - g + c)[x] == (rows - g + c - h + d)[x] {
      assert g[x] <= rows[x] && h[x] <= rows[x];
      assert g[x] == 0 || h[x] == 0;
      assert g[x] == 0 || d[x] == 0;
      assert c[x] == 0 || h[x] == 0;
    }
  }

  lemma RowsAreDisjoint(def: TableDef, a: Event, b: Event)
    requires RowsApart(def, a, b)
    ensures Gone(a) !! Gone(b) && Gone(a) !! Come(b) && Come(a) !! Gone(b)
  {
  }

  lemma FitsAfter(def: TableDef, rows: Rows, a: Event, b: Event)
    requires Fits(def, rows, a) && Fits(def, rows, b) && RowsApart(def, a, b)
    ensures Fits(def, rows - Gone(b) + Come(b), a)
    ensures rows - Gone(b) + Come(b) - Gone(a) + Come(a) == rows - Gone(a) + Come(a) - Gone(b) + Come(b)
  {
    RowsAreDisjoint(def, a, b);
    Swapped(rows, Gone(a), Come(a), Gone(b), Come(b));
    forall r | r in Come(a) ensures KeyFree(def, rows - Gone(b) + Come(b) - Gone(a), r) {
      StaysFree(def, rows, a, b, r);
    }
  }

  lemma CameIn(rows: Rows, g: Rows, h: Rows, d: Rows, r: Row)
    requires r in rows - h + d - g && r !in rows - g
    ensures r in d
  {
  }

  lemma StaysFree(def: TableDef, rows: Rows, a: Event, b: Event, r: Row)
    requires Fits(def, rows, a) && RowsApart(def, a, b) && r in Come(a)
    ensures KeyFree(def, rows - Gone(b) + Come(b) - Gone(a), r)
  {
    var after := rows - Gone(b) + Come(b) - Gone(a);
    forall q | q in after && q !in rows - Gone(a) ensures |q| != |def.columns| || !SameKey(def.columns, q, r) {
      CameIn(rows, Gone(a), Gone(b), Come(b), q);
    }
    KeyStaysFree(def, rows - Gone(a), after, r);
  }

  // ---------- A whole database ----------

  lemma OwnKey(cols: seq<Column>, r: Row)
    requires |r| == |cols|
    ensures SameKey(cols, r, r)
  {
  }

  lemma ImagesApart(cols: seq<Column>, a: Event, b: Event, r: Row, s: Row)
    requires Apart(a, b) && !a.IsSchemaChange() && !b.IsSchemaChange() && NameOf(a) == NameOf(b) && a.columns == cols
    requires IsImage(a, r) && IsImage(b, s) && |r| == |s| == |cols|
    ensures r != s && !SameKey(cols, r, s)
  {
    OwnKey(cols, r);
  }

  lemma RowIsImage(ev: Event, r: Row)
    requires WellFormed(ev) && r in Gone(ev) + Come(ev)
    ensures IsImage(ev, r)
  {
  }

  lemma ApartRows(def: TableDef, a: Event, b: Event)
    requires Apart(a, b) && NameOf(a) == NameOf(b) && a.columns == def.columns && WellFormed(a) && WellFormed(b)
    requires forall r :: r in Gone(a) + Come(a) ==> |r| == |def.columns|
    requires forall r :: r in Gone(b) + Come(b) ==> |r| == |def.columns|
    ensures RowsApart(def, a, b)
  {
    forall r, s | r in Gone(a) + Come(a) && s in Gone(b) + Come(b) ensures r != s && !SameKey(def.columns, r, s) {
      RowIsImage(a, r);
      RowIsImage(b, s);
      ImagesApart(def.columns, a, b, r, s);
    }
  }

  /** What a table has after a change that fits, it may have. */
  lemma FittingIsOk(def: TableDef, rows: Rows, ev: Event)
    requires DefOk(def) && TableOk(def, rows) && Fits(def, rows, ev) && |Come(ev)| <= 1
    ensures TableOk(def, rows - Gone(ev) + Come(ev))
  {
    var now := rows - Gone(ev) + Come(ev);
    assert forall r :: r in now ==> r in rows || r in Come(ev);
    if HasKey(def.columns) {
      forall r, s | r in now && s in now && SameKey(def.columns, r, s) ensures r == s {
        OneOfKey(def, rows, ev, r, s);
      }
      forall r | r in now ensures now[r] == 1 {
        OnceAfter(def, rows, ev, r);
      }
    }
  }

  lemma KeyIsFree(def: TableDef, rows: Rows, r: Row, s: Row)
    requires |r| == |s| == |def.columns| && HasKey(def.columns) && KeyFree(def, rows, s) && r in rows
    ensures !SameKey(def.columns, r, s) && !SameKey(def.columns, s, r)
  {
  }

  lemma OneOfKey(def: TableDef, rows: Rows, ev: Event, r: Row, s: Row)
    requires TableOk(def, rows) && Fits(def, rows, ev) && |Come(ev)| <= 1 && HasKey(def.columns)
    requires r in rows - Gone(ev) + Come(ev) && s in rows - Gone(ev) + Come(ev)
    requires |r| == |s| == |def.columns| && SameKey(def.columns, r, s)
    ensures r == s
  {
    if r in Come(ev) && s in Come(ev) {
      assert Come(ev) == multiset{ev.after.value};
    } else if r in Come(ev) {
      KeyIsFree(def, rows - Gone(ev), s, r);
    } else if s in Come(ev) {
      KeyIsFree(def, rows - Gone(ev), r, s);
    }
  }

  lemma OnceAfter(def: TableDef, rows: Rows, ev: Event, r: Row)
    requires TableOk(def, rows) && Fits(def, rows, ev) && |Come(ev)| <= 1 && HasKey(def.columns)
    requires r in rows - Gone(ev) + Come(ev)
    ensures (rows - Gone(ev) + Come(ev))[r] == 1
  {
    if r in Come(ev) {
      assert Come(ev) == multiset{r};
      OwnKey(def.columns, r);
    } else {
      assert rows[r] == 1;
    }
  }

  lemma FitsInTable(def: TableDef, rows: Rows, ev: Event, rows': Rows)
    requires TableOk(def, rows) && Applies(def, rows, ev, rows') && ev.columns == def.columns
    ensures WellFormed(ev) && Fits(def, rows, ev) && rows' == rows - Gone(ev) + Come(ev) && |Come(ev)| <= 1
    ensures forall r :: r in Gone(ev) + Come(ev) ==> |r| == |def.columns|
  {
    AppliesIsFits(def, rows, ev, rows');
  }

  /** In one table, changes that do not touch can be made in either order. */
  lemma TableSwaps(def: TableDef, rows: Rows, a: Event, mid: Rows, b: Event, rows': Rows) returns (mid': Rows)
    requires DefOk(def) && TableOk(def, rows) && TableOk(def, mid) && a.columns == b.columns == def.columns
    requires Applies(def, rows, a, mid) && Applies(def, mid, b, rows') && NameOf(a) == NameOf(b) && Apart(a, b)
    ensures TableOk(def, mid') && Applies(def, rows, b, mid') && Applies(def, mid', a, rows')
  {
    FitsInTable(def, rows, a, mid);
    FitsInTable(def, mid, b, rows');
    ApartRows(def, a, b);
    FitsBefore(def, rows, a, b);
    FitsAfter(def, rows, a, b);
    mid' := rows - Gone(b) + Come(b);
    FittingIsOk(def, rows, b);
    AppliesIsFits(def, rows, b, mid');
    AppliesIsFits(def, mid', a, rows');
  }

  /** So they can in a database. */
  lemma StepsSwap(defs: Defs, db: Db, a: Event, mid: Db, b: Event, db': Db) returns (mid': Db)
    requires DbOk(defs, db) && DbOk(defs, mid) && DbOk(defs, db')
    requires Step(defs, db, a, mid) && Step(defs, mid, b, db') && Apart(a, b)
    ensures DbOk(defs, mid') && Step(defs, db, b, mid') && Step(defs, mid', a, db')
  {
    if a.IsSchemaChange() {
      mid' := db';
    } else if b.IsSchemaChange() {
      mid' := db;
    } else if NameOf(a) != NameOf(b) {
      mid' := OtherTables(defs, db, a, mid, b, db');
    } else {
      mid' := SameTable(defs, db, a, mid, b, db');
    }
  }

  /** A change of one table, written as what that table becomes. */
  lemma TableStep(defs: Defs, db: Db, ev: Event, rows: Rows)
    requires !ev.IsSchemaChange() && NameOf(ev) in db && NameOf(ev) in defs && ev.columns == defs[NameOf(ev)].columns
    requires Applies(defs[NameOf(ev)], db[NameOf(ev)], ev, rows)
    ensures Step(defs, db, ev, db[NameOf(ev) := rows])
  {
    var db' := db[NameOf(ev) := rows];
    assert db' == db[NameOf(ev) := db'[NameOf(ev)]];
  }

  lemma OtherTables(defs: Defs, db: Db, a: Event, mid: Db, b: Event, db': Db) returns (mid': Db)
    requires DbOk(defs, db) && DbOk(defs, db') && !a.IsSchemaChange() && !b.IsSchemaChange() && NameOf(a) != NameOf(b)
    requires Step(defs, db, a, mid) && Step(defs, mid, b, db')
    ensures DbOk(defs, mid') && Step(defs, db, b, mid') && Step(defs, mid', a, db')
  {
    var s, t := NameOf(a), NameOf(b);
    StepHasTable(defs, db, a, mid);
    StepHasTable(defs, mid, b, db');
    TablesAreOk(defs, db', t);
    mid' := db[t := db'[t]];
    TableReplaced(defs, db, t, db'[t]);
    TableStep(defs, db, b, db'[t]);
    TableStep(defs, mid', a, mid[s]);
    BothReplaced(db, s, mid[s], t, db'[t]);
  }

  lemma BothReplaced(db: Db, s: TableName, x: Rows, t: TableName, y: Rows)
    requires s != t
    ensures db[s := x][t := y] == db[t := y][s := x]
  {
  }

  lemma SameTable(defs: Defs, db: Db, a: Event, mid: Db, b: Event, db': Db) returns (mid': Db)
    requires DbOk(defs, db) && DbOk(defs, mid) && !a.IsSchemaChange() && !b.IsSchemaChange() && NameOf(a) == NameOf(b)
    requires Step(defs, db, a, mid) && Step(defs, mid, b, db') && Apart(a, b)
    ensures DbOk(defs, mid') && Step(defs, db, b, mid') && Step(defs, mid', a, db')
  {
    var t := NameOf(a);
    StepHasTable(defs, db, a, mid);
    StepHasTable(defs, mid, b, db');
    TablesAreOk(defs, db, t);
    TablesAreOk(defs, mid, t);
    var rows := TableSwaps(defs[t], db[t], a, mid[t], b, db'[t]);
    mid' := db[t := rows];
    TableReplaced(defs, db, t, rows);
    TableStep(defs, db, b, rows);
    TableStep(defs, mid', a, db'[t]);
    ReplacedTwice(db, t, mid[t], rows, db'[t]);
  }

  lemma StepHasTable(defs: Defs, db: Db, ev: Event, db': Db)
    requires !ev.IsSchemaChange() && Step(defs, db, ev, db')
    ensures NameOf(ev) in db && NameOf(ev) in defs && NameOf(ev) in db' && ev.columns == defs[NameOf(ev)].columns
    ensures Applies(defs[NameOf(ev)], db[NameOf(ev)], ev, db'[NameOf(ev)]) && db' == db[NameOf(ev) := db'[NameOf(ev)]]
  {
  }

  lemma ReplacedTwice(db: Db, t: TableName, x: Rows, y: Rows, z: Rows)
    ensures db[t := x][t := z] == db[t := y][t := z]
  {
  }

  lemma TablesAreOk(defs: Defs, db: Db, t: TableName)
    requires DbOk(defs, db) && t in db
    ensures t in defs && DefOk(defs[t]) && TableOk(defs[t], db[t])
  {
  }

  lemma TableReplaced(defs: Defs, db: Db, t: TableName, rows: Rows)
    requires DbOk(defs, db) && t in db && TableOk(defs[t], rows)
    ensures DbOk(defs, db[t := rows])
  {
  }

  // ---------- A run taken apart ----------

  /** Some run of these changes leads from one database to another. */
  ghost predicate Path(defs: Defs, db: Db, events: seq<Event>, db': Db)
    decreases |events|
  {
    if events == [] then db' == db && DbOk(defs, db)
    else exists mid: Db :: Path(defs, db, Init(events), mid) && Step(defs, mid, Last(events), db') && DbOk(defs, db')
  }

  lemma {:induction false} PathEnds(defs: Defs, db: Db, events: seq<Event>, db': Db)
    requires Path(defs, db, events, db')
    ensures DbOk(defs, db) && DbOk(defs, db')
    decreases |events|
  {
    if events != [] {
      var mid: Db :| Path(defs, db, Init(events), mid) && Step(defs, mid, Last(events), db');
      PathEnds(defs, db, Init(events), mid);
    }
  }

  lemma PathStep(defs: Defs, db: Db, events: seq<Event>, mid: Db, ev: Event, db': Db)
    requires Path(defs, db, events, mid) && Step(defs, mid, ev, db') && DbOk(defs, db')
    ensures Path(defs, db, events + [ev], db')
  {
    assert Init(events + [ev]) == events && Last(events + [ev]) == ev;
  }

  lemma PathBack(defs: Defs, db: Db, events: seq<Event>, ev: Event, db': Db) returns (mid: Db)
    requires Path(defs, db, events + [ev], db')
    ensures Path(defs, db, events, mid) && Step(defs, mid, ev, db') && DbOk(defs, db') && DbOk(defs, mid)
  {
    assert Init(events + [ev]) == events && Last(events + [ev]) == ev;
    mid :| Path(defs, db, events, mid) && Step(defs, mid, ev, db');
    PathEnds(defs, db, events, mid);
  }

  /** A change apart from all before it can be made first. */
  lemma {:induction false} MovesFirst(defs: Defs, db: Db, block: seq<Event>, ev: Event, db': Db) returns (mid: Db)
    requires Path(defs, db, block + [ev], db') && forall a :: a in block ==> Apart(a, ev)
    ensures Step(defs, db, ev, mid) && DbOk(defs, mid) && Path(defs, mid, block, db')
    decreases |block|
  {
    if block == [] {
      var before := PathBack(defs, db, block, ev, db');
      mid := db';
    } else {
      var init, last := Init(block), Last(block);
      assert init + [last] == block;
      var swapped := MovesPast(defs, db, init, last, ev, db');
      mid := MovesFirst(defs, db, init, ev, swapped);
      PathStep(defs, mid, init, swapped, last, db');
    }
  }

  /** It can be made before the last of them. */
  lemma MovesPast(defs: Defs, db: Db, init: seq<Event>, last: Event, ev: Event, db': Db) returns (swapped: Db)
    requires Path(defs, db, init + [last] + [ev], db') && Apart(last, ev)
    ensures Path(defs, db, init + [ev], swapped) && Step(defs, swapped, last, db') && DbOk(defs, db')
  {
    var before := PathBack(defs, db, init + [last], ev, db');
    var earlier := PathBack(defs, db, init, last, before);
    swapped := StepsSwap(defs, earlier, last, before, ev, db');
    PathStep(defs, db, init, earlier, ev, swapped);
  }

  /** The changes of a sequence that a filter leaves out. */
  function Outside(f: Filter, events: seq<Event>): seq<Event> {
    if events == [] then []
    else Outside(f, Init(events)) + if Match(f, Last(events)) then [] else [Last(events)]
  }

  /** Nothing outside the window touches what a change inside it touched before. */
  ghost predicate KeepsApart(f: Filter, events: seq<Event>) {
    forall i, j :: 0 <= i < j < |events| && Match(f, events[i]) && !Match(f, events[j]) ==> Apart(events[i], events[j])
  }

  lemma {:induction false} MatchingComesFrom(f: Filter, events: seq<Event>, a: Event) returns (i: nat)
    requires a in Matching(f, events)
    ensures i < |events| && events[i] == a && Match(f, a)
    decreases |events|
  {
    var n := |events| - 1;
    if a in Matching(f, events[..n]) { i := MatchingComesFrom(f, events[..n], a); } else { i := n; }
  }

  /** The changes outside can all be made first, and those inside after them. */
  lemma {:induction false} OutsideFirst(defs: Defs, db: Db, events: seq<Event>, f: Filter, db': Db) returns (mid: Db)
    requires Path(defs, db, events, db') && KeepsApart(f, events)
    ensures Path(defs, db, Outside(f, events), mid) && Path(defs, mid, Matching(f, events), db')
    decreases |events|
  {
    if events == [] {
      mid := db;
    } else {
      var init, ev := Init(events), Last(events);
      assert init + [ev] == events;
      var last := PathBack(defs, db, init, ev, db');
      mid := OutsideFirst(defs, db, init, f, last);
      PathStep(defs, mid, Matching(f, init), last, ev, db');
      if Match(f, ev) {
        assert Outside(f, init) + [] == Outside(f, init);
      } else {
        forall a | a in Matching(f, init) ensures Apart(a, ev) {
          var i := MatchingComesFrom(f, init, a);
          assert events[i] == a && events[|events| - 1] == ev;
        }
        var first := MovesFirst(defs, mid, Matching(f, init), ev, db');
        PathStep(defs, db, Outside(f, init), mid, ev, first);
        mid := first;
      }
    }
  }

  // ---------- Undoing the changes of a window ----------

  lemma {:induction false} RunIsPath(defs: Defs, dbs: seq<Db>, events: seq<Event>, n: nat)
    requires Run(defs, dbs, events) && n <= |events|
    ensures Path(defs, dbs[0], events[..n], dbs[n])
    decreases n
  {
    RunIsOk(defs, dbs, events, n);
    if n > 0 {
      assert events[..n] == events[..n - 1] + [events[n - 1]];
      RunIsPath(defs, dbs, events, n - 1);
      RunSteps(defs, dbs, events, n - 1);
      PathStep(defs, dbs[0], events[..n - 1], dbs[n - 1], events[n - 1], dbs[n]);
    }
  }

  lemma RunIsOk(defs: Defs, dbs: seq<Db>, events: seq<Event>, n: nat)
    requires Run(defs, dbs, events) && n <= |events|
    ensures DbOk(defs, dbs[n])
  {
  }

  lemma RunSteps(defs: Defs, dbs: seq<Db>, events: seq<Event>, n: nat)
    requires Run(defs, dbs, events) && n < |events|
    ensures Step(defs, dbs[n], events[n], dbs[n + 1])
  {
  }

  lemma {:induction false} PathIsRun(defs: Defs, db: Db, events: seq<Event>, db': Db) returns (dbs: seq<Db>)
    requires Path(defs, db, events, db')
    ensures Joins(defs, dbs, events, db, db')
    decreases |events|
  {
    if events == [] {
      dbs := [db];
    } else {
      assert Init(events) + [Last(events)] == events;
      var mid := PathBack(defs, db, Init(events), Last(events), db');
      var before := PathIsRun(defs, db, Init(events), mid);
      JoinsExtends(defs, before, Init(events), db, mid, Last(events), db');
      dbs := before + [db'];
    }
  }

  /** Where a run of some changes leads is one database. */
  lemma {:induction false} PathIsOne(defs: Defs, db: Db, events: seq<Event>, x: Db, y: Db)
    requires Path(defs, db, events, x) && Path(defs, db, events, y)
    ensures x == y
    decreases |events|
  {
    if events != [] {
      assert Init(events) + [Last(events)] == events;
      var a := PathBack(defs, db, Init(events), Last(events), x);
      var b := PathBack(defs, db, Init(events), Last(events), y);
      PathIsOne(defs, db, Init(events), a, b);
      StepIsOne(defs, a, Last(events), x, y);
    }
  }

  lemma StepIsOne(defs: Defs, db: Db, ev: Event, x: Db, y: Db)
    requires Step(defs, db, ev, x) && Step(defs, db, ev, y)
    ensures x == y
  {
  }

  /** When nothing outside a window touches what a change inside touched before it, every
      execution of the window's plan leads to the database that the changes outside alone
      lead to from the start. */
  lemma SeparateIsUndone(fmt: Format, defs: Defs, dbs: seq<Db>, events: seq<Event>, f: Filter) returns (back: Db)
    requires Run(defs, dbs, events) && KeepsApart(f, events)
    ensures Path(defs, dbs[0], Outside(f, events), back)
    ensures PlanOf(fmt, Matching(f, events)).Ok?
    ensures var plan := PlanOf(fmt, Matching(f, events)).value;
            LeadsTo(defs, dbs[|events|], StatementsOf(plan), back, |plan|)
  {
    RunIsPath(defs, dbs, events, |events|);
    assert events[..|events|] == events;
    back := OutsideFirst(defs, dbs[0], events, f, dbs[|events|]);
    var inside := PathIsRun(defs, back, Matching(f, events), dbs[|events|]);
    PlanUndoesRun(fmt, defs, inside, Matching(f, events));
  }
}
