/** What row changes and reversal statements do to a database. A table is a
    multiset of rows with an optional primary key and columns computed from the
    others. SQL equality holds only for identical non-NULL values. */
module Database {
  import opened Wrappers
  import opened Sequences
  import opened Change
  import opened Sql
  import opened Literal

  datatype TableName = TableName(schema: string, table: string)

  /** derive gives a computed column from the row with its computed columns cleared. */
  datatype TableDef = TableDef(columns: seq<Column>, derive: (Row, nat) -> Value)

  type Rows = multiset<Row>
  type Db = map<TableName, Rows>
  type Defs = map<TableName, TableDef>

  ghost predicate DefOk(def: TableDef) {
    && (forall i, j :: 0 <= i < j < |def.columns| ==> def.columns[i].name != def.columns[j].name)
    && (exists i :: 0 <= i < |def.columns| && !def.columns[i].readOnly)
  }

  // ---------- Rows ----------

  function Base(cols: seq<Column>, r: Row): Row
    requires |r| == |cols|
  {
    seq(|r|, i requires 0 <= i < |r| => if cols[i].readOnly then Null else r[i])
  }

  /** The row with its computed columns recomputed. */
  function Recompute(def: TableDef, r: Row): Row
    requires |r| == |def.columns|
  {
    var base := Base(def.columns, r);
    seq(|r|, i requires 0 <= i < |r| => if def.columns[i].readOnly then def.derive(base, i) else r[i])
  }

  predicate RowOk(def: TableDef, r: Row) {
    && |r| == |def.columns|
    && r == Recompute(def, r)
    && forall i :: 0 <= i < |r| ==> Renderable(r[i]) && Exact(r[i])
  }

  predicate SameKey(cols: seq<Column>, r: Row, s: Row)
    requires |r| == |s| == |cols|
  {
    forall i :: 0 <= i < |cols| && cols[i].primaryKey ==> r[i] == s[i]
  }

  predicate HasKey(cols: seq<Column>) { exists i :: 0 <= i < |cols| && cols[i].primaryKey }

  /** No row of the table has the key of r. */
  ghost predicate KeyFree(def: TableDef, rows: Rows, r: Row)
    requires |r| == |def.columns|
  {
    HasKey(def.columns) ==> forall s :: s in rows && |s| == |def.columns| ==> !SameKey(def.columns, s, r)
  }

  ghost predicate TableOk(def: TableDef, rows: Rows) {
    && (forall r :: r in rows ==> RowOk(def, r))
    && (HasKey(def.columns) ==>
          && (forall r, s :: r in rows && s in rows && SameKey(def.columns, r, s) ==> r == s)
          && (forall r :: r in rows ==> rows[r] == 1))
  }

  // ---------- Row changes, as the source applied them ----------

  ghost predicate Applies(def: TableDef, rows: Rows, ev: Event, rows': Rows) {
    match ev.op
    case Insert =>
      ev.after.Some? && var a := ev.after.value;
      RowOk(def, a) && KeyFree(def, rows, a) && rows' == rows + multiset{a}
    case Delete =>
      ev.before.Some? && var b := ev.before.value;
      b in rows && rows' == rows - multiset{b}
    case Update =>
      ev.before.Some? && ev.after.Some? && var b, a := ev.before.value, ev.after.value;
      && b in rows && RowOk(def, a) && a != b
      && KeyFree(def, rows - multiset{b}, a)
      && rows' == rows - multiset{b} + multiset{a}
    case _ => false
  }

  function NameOf(ev: Event): TableName { TableName(ev.schema, ev.table) }

  ghost predicate DbOk(defs: Defs, db: Db) {
    forall t :: t in db ==> t in defs && DefOk(defs[t]) && TableOk(defs[t], db[t])
  }

  /** One logged change. A schema change is outside the row model and leaves it alone. */
  ghost predicate Step(defs: Defs, db: Db, ev: Event, db': Db) {
    if ev.IsSchemaChange() then db' == db
    else
      var t := NameOf(ev);
      && t in db && t in defs && ev.columns == defs[t].columns
      && t in db' && Applies(defs[t], db[t], ev, db'[t])
      && db' == db[t := db'[t]]
  }

  /** dbs are the states a source passed through while it logged events. */
  ghost predicate Run(defs: Defs, dbs: seq<Db>, events: seq<Event>) {
    && |dbs| == |events| + 1
    && (forall i {:trigger DbOk(defs, dbs[i])} :: 0 <= i < |dbs| ==> DbOk(defs, dbs[i]))
    && (forall i {:trigger events[i]} :: 0 <= i < |events| ==> Step(defs, dbs[i], events[i], dbs[i + 1]))
  }

  // ---------- Statements, as the server executes them ----------

  /** The position of a column, or the number of columns when there is none. */
  function ColumnAt(cols: seq<Column>, name: string): (i: nat)
    ensures i <= |cols|
    ensures i < |cols| ==> cols[i].name == name
    ensures forall k :: 0 <= k < i ==> cols[k].name != name
  {
    if cols == [] || cols[0].name == name then 0 else 1 + ColumnAt(cols[1..], name)
  }

  predicate Holds(cols: seq<Column>, r: Row, p: Pred<Value>)
    requires |r| == |cols|
  {
    var i := ColumnAt(cols, p.col);
    i < |r| && match p
               case IsNull(_) => r[i] == Null
               case Equals(_, v) => v != Null && r[i] == v
  }

  predicate Matches(cols: seq<Column>, r: Row, where: seq<Pred<Value>>)
    requires |r| == |cols|
  {
    forall k :: 0 <= k < |where| ==> Holds(cols, r, where[k])
  }

  /** The value assigned to a column, if any. */
  function Assigned(sets: seq<Assign<Value>>, name: string): Option<Value> {
    if sets == [] then None
    else if sets[|sets| - 1].col == name then Some(sets[|sets| - 1].val)
    else Assigned(sets[..|sets| - 1], name)
  }

  function AssignRow(def: TableDef, r: Row, sets: seq<Assign<Value>>): Row
    requires |r| == |def.columns|
  {
    Recompute(def, seq(|r|, i requires 0 <= i < |r| =>
      var v := Assigned(sets, def.columns[i].name); if v.Some? then v.value else r[i]))
  }

  /** A column that is not named takes NULL; the statements here name every column
      that is not computed. */
  function BuildRow(def: TableDef, cols: seq<string>, vals: seq<Value>): Row
    requires |cols| == |vals|
  {
    var sets := seq(|cols|, k requires 0 <= k < |cols| => Assign(cols[k], vals[k]));
    AssignRow(def, seq(|def.columns|, i => Null), sets)
  }

  /** A column that exists and can be assigned. */
  predicate Assignable(cols: seq<Column>, name: string) {
    var i := ColumnAt(cols, name);
    i < |cols| && !cols[i].readOnly
  }

  predicate Known(cols: seq<Column>, where: seq<Pred<Value>>) {
    forall k :: 0 <= k < |where| ==> ColumnAt(cols, where[k].col) < |cols|
  }

  /** Every outcome a statement may have on a table: with LIMIT 1 the server picks
      one matching row. n is the number of rows it affects. A statement that names
      an unknown column, assigns a computed one or takes a key already present has
      no outcome: the server refuses it. */
  ghost predicate Executes(def: TableDef, rows: Rows, s: Stmt<Value>, rows': Rows, n: int) {
    match s
    case Delete(_, _, where) =>
      && Known(def.columns, where)
      && if exists r :: r in rows && |r| == |def.columns| && Matches(def.columns, r, where) then
           n == 1 && exists r :: r in rows && |r| == |def.columns| && Matches(def.columns, r, where)
                                 && rows' == rows - multiset{r}
         else n == 0 && rows' == rows
    case Update(_, _, sets, where) =>
      && Known(def.columns, where)
      && (forall k :: 0 <= k < |sets| ==> Assignable(def.columns, sets[k].col))
      && if exists r :: r in rows && |r| == |def.columns| && Matches(def.columns, r, where) then
           n == 1 && exists r :: r in rows && |r| == |def.columns| && Matches(def.columns, r, where)
                                 && KeyFree(def, rows - multiset{r}, AssignRow(def, r, sets))
                                 && rows' == rows - multiset{r} + multiset{AssignRow(def, r, sets)}
         else n == 0 && rows' == rows
    case Insert(_, _, cols, vals) =>
      && |cols| == |vals|
      && (forall k :: 0 <= k < |cols| ==> Assignable(def.columns, cols[k]))
      && n == 1
      && KeyFree(def, rows, BuildRow(def, cols, vals))
      && rows' == rows + multiset{BuildRow(def, cols, vals)}
    case _ => false
  }

  function TargetOf(s: Stmt<Value>): TableName {
    if s.Delete? || s.Update? || s.Insert? then TableName(s.schema, s.table) else TableName("", "")
  }

  ghost predicate ExecutesDb(defs: Defs, db: Db, s: Stmt<Value>, db': Db, n: int) {
    var t := TargetOf(s);
    && t in db && t in defs && t in db'
    && Executes(defs[t], db[t], s, db'[t], n)
    && db' == db[t := db'[t]]
  }

  /** Every outcome of a sequence of statements, affecting n rows in all. */
  ghost predicate ExecutesAll(defs: Defs, db: Db, stmts: seq<Stmt<Value>>, db': Db, n: int)
    decreases |stmts|
  {
    if stmts == [] then db' == db && n == 0
    else exists mid: Db, k: int, m: int ::
           ExecutesAll(defs, db, Init(stmts), mid, k) && ExecutesDb(defs, mid, Last(stmts), db', m) && n == k + m
  }
}
