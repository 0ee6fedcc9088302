/** On a table with a primary key, a reversal restores only what its update changed,
    so later writes to other columns survive it. */
module LaterWrites {
  import opened Wrappers
  import opened Change
  import opened Sql
  import opened Reverse
  import opened Database
  import opened Undo

  /** An update event of a keyed table, with well-formed images that differ. */
  ghost predicate IsUpdate(def: TableDef, ev: Event, b: Row, a: Row) {
    && DefOk(def) && HasKey(def.columns) && RowOk(def, b) && RowOk(def, a) && b != a
    && ev.op == Op.Update && ev.columns == def.columns && ev.before == Some(b) && ev.after == Some(a)
  }

  /** The row r still holds the key the update left and every value it wrote. */
  predicate StillHolds(cols: seq<Column>, b: Row, a: Row, r: Row)
    requires |b| == |a| == |r| == |cols|
  {
    && SameKey(cols, r, a)
    && forall i :: 0 <= i < |cols| && b[i] != a[i] && !cols[i].readOnly ==> r[i] == a[i]
  }

  /** The row the reversal should leave: before values where the update changed a
      column, the current value everywhere else, computed columns recomputed. */
  function PutBack(def: TableDef, b: Row, a: Row, r: Row): Row
    requires |b| == |a| == |r| == |def.columns|
  {
    Recompute(def, seq(|r|, i requires 0 <= i < |r| => if b[i] != a[i] && !def.columns[i].readOnly then b[i] else r[i]))
  }

  lemma SetsRestore(def: TableDef, b: Row, a: Row, r: Row)
    requires DefOk(def) && RowOk(def, b) && RowOk(def, a) && |r| == |def.columns|
    ensures SetsUpTo(def.columns, b, a, |def.columns|).Ok?
    ensures AssignRow(def, r, SetsUpTo(def.columns, b, a, |def.columns|).value) == PutBack(def, b, a, r)
  {
    var cols := def.columns;
    SetsAre(def, b, a, |cols|);
    var sets := SetsUpTo(cols, b, a, |cols|).value;
    var x := seq(|r|, i requires 0 <= i < |r| => var v := Assigned(sets, cols[i].name);
      if v.Some? then v.value else r[i]);
    var y := seq(|r|, i requires 0 <= i < |r| => if b[i] != a[i] && !cols[i].readOnly then b[i] else r[i]);
    assert forall i :: 0 <= i < |r| ==> x[i] == y[i];
    RecomputeByBase(def, x, y);
  }

  /** Key columns are never computed ones. */
  predicate KeysAreWritable(cols: seq<Column>) {
    forall i :: 0 <= i < |cols| && cols[i].primaryKey ==> !cols[i].readOnly
  }

  lemma SameKeyIsTransitive(cols: seq<Column>, r: Row, s: Row, t: Row)
    requires |r| == |s| == |t| == |cols|
    ensures SameKey(cols, r, s) && SameKey(cols, s, t) ==> SameKey(cols, r, t)
  {
  }

  lemma FindsTheRow(def: TableDef, rows: Rows, a: Row, r: Row)
    requires DefOk(def) && HasKey(def.columns) && RowOk(def, a) && TableOk(def, rows) && r in rows
    requires |r| == |def.columns| && SameKey(def.columns, r, a)
    ensures Where(def.columns, a).Ok? && Known(def.columns, Where(def.columns, a).value)
    ensures forall s :: s in rows && |s| == |def.columns| ==>
              (Matches(def.columns, s, Where(def.columns, a).value) <==> s == r)
  {
    WhereFinds(def, a, r);
    forall s | s in rows && |s| == |def.columns|
      ensures Matches(def.columns, s, Where(def.columns, a).value) <==> s == r
    {
      WhereFinds(def, a, s);
      assert SameKey(def.columns, s, a) ==> SameKey(def.columns, s, r);
    }
  }

  lemma UpdateInverse(def: TableDef, ev: Event, b: Row, a: Row)
    requires IsUpdate(def, ev, b, a)
    ensures Where(def.columns, a).Ok? && SetsUpTo(def.columns, b, a, |def.columns|).Ok?
    ensures Inverse(ev) == Ok(Stmt.Update(ev.schema, ev.table, SetsUpTo(def.columns, b, a, |def.columns|).value,
                                          Where(def.columns, a).value))
    ensures forall k :: 0 <= k < |SetsUpTo(def.columns, b, a, |def.columns|).value| ==>
              Assignable(def.columns, SetsUpTo(def.columns, b, a, |def.columns|).value[k].col)
  {
    WhereFinds(def, a, a);
    SetsRebuild(def, b, a);
    SetsAre(def, b, a, |def.columns|);
  }

  /** Whatever later writes did to the other columns of the row, reversing the update
      affects that row alone and leaves it as PutBack; it is refused only when the
      restored key has been taken since. */
  lemma ReversalKeepsLaterWrites(def: TableDef, rows: Rows, ev: Event, b: Row, a: Row, r: Row)
    requires IsUpdate(def, ev, b, a) && TableOk(def, rows) && r in rows && |r| == |def.columns|
    requires StillHolds(def.columns, b, a, r)
    ensures Inverse(ev).Ok?
    ensures forall back, n :: Executes(def, rows, Inverse(ev).value, back, n) <==>
              && KeyFree(def, rows - multiset{r}, PutBack(def, b, a, r))
              && n == 1 && back == rows - multiset{r} + multiset{PutBack(def, b, a, r)}
  {
    UpdateInverse(def, ev, b, a);
    SetsRestore(def, b, a, r);
    FindsTheRow(def, rows, a, r);
    OnlyOneOutcome(def, rows, r, Where(def.columns, a).value);
  }

  /** In the restored row the changed columns have their before values and every
      other column that can be written keeps its current value; and if the update
      left the key alone, that key cannot have been taken. */
  lemma RestoredKeepsTheRest(def: TableDef, rows: Rows, b: Row, a: Row, r: Row)
    requires RowOk(def, b) && RowOk(def, a) && TableOk(def, rows) && r in rows && |r| == |def.columns|
    requires StillHolds(def.columns, b, a, r)
    ensures forall i :: 0 <= i < |r| && !def.columns[i].readOnly ==>
              PutBack(def, b, a, r)[i] == if b[i] != a[i] then b[i] else r[i]
    ensures SameKey(def.columns, b, a) && KeysAreWritable(def.columns) ==>
              KeyFree(def, rows - multiset{r}, PutBack(def, b, a, r))
  {
    KeyFreeAfterRemoval(def, rows, r);
    if SameKey(def.columns, b, a) && KeysAreWritable(def.columns) {
      var w := PutBack(def, b, a, r);
      assert SameKey(def.columns, w, r);
      forall s | HasKey(def.columns) && s in rows - multiset{r} && |s| == |def.columns|
        ensures !SameKey(def.columns, s, w)
      {
        SameKeyIsTransitive(def.columns, s, w, r);
      }
    }
  }

  /** A write to columns the update neither keyed on nor changed. */
  predicate WritesElsewhere(def: TableDef, b: Row, a: Row, write: seq<Assign<Value>>)
    requires |b| == |a| == |def.columns|
  {
    forall i :: 0 <= i < |def.columns| && Assigned(write, def.columns[i].name).Some? ==>
      !def.columns[i].readOnly && !def.columns[i].primaryKey && b[i] == a[i]
  }

  lemma RestoredCommutes(def: TableDef, b: Row, a: Row, write: seq<Assign<Value>>)
    requires RowOk(def, b) && RowOk(def, a) && WritesElsewhere(def, b, a, write)
    ensures PutBack(def, b, a, AssignRow(def, a, write)) == AssignRow(def, b, write)
  {
    var cols, r := def.columns, AssignRow(def, a, write);
    var x := seq(|r|, i requires 0 <= i < |r| => if b[i] != a[i] && !cols[i].readOnly then b[i] else r[i]);
    var y := seq(|b|, i requires 0 <= i < |b| => var v := Assigned(write, cols[i].name);
      if v.Some? then v.value else b[i]);
    RecomputeByBase(def, x, y);
  }

  /** Reversing an update and making a later write elsewhere in the row commute:
      write then reverse reaches exactly the table that reverse then write does. */
  lemma ReversalCommutesWithWrite(def: TableDef, rows: Rows, ev: Event, b: Row, a: Row, write: seq<Assign<Value>>)
    requires IsUpdate(def, ev, b, a) && TableOk(def, rows) && a in rows && KeyFree(def, rows - multiset{a}, b)
    requires KeysAreWritable(def.columns) && WritesElsewhere(def, b, a, write) && RowOk(def, AssignRow(def, a, write))
    ensures Inverse(ev).Ok?
    ensures var reversed := rows - multiset{a} + multiset{b};
            var written := rows - multiset{a} + multiset{AssignRow(def, a, write)};
            forall back, n :: Executes(def, written, Inverse(ev).value, back, n) <==>
              n == 1 && back == reversed - multiset{b} + multiset{AssignRow(def, b, write)}
  {
    var cols, r := def.columns, AssignRow(def, a, write);
    var others := rows - multiset{a};
    var written := others + multiset{r};
    RemoveKeepsTable(def, rows, a);
    KeyFreeAfterRemoval(def, rows, a);
    assert SameKey(cols, r, a);
    assert KeyFree(def, others, r);
    AddKeepsTable(def, others, r);
    ReversalKeepsLaterWrites(def, written, ev, b, a, r);
    RestoredCommutes(def, b, a, write);
    assert written - multiset{r} == others;
    assert others + multiset{b} - multiset{b} == others;
    assert SameKey(cols, AssignRow(def, b, write), b);
  }
}
