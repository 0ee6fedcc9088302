/** A change in its stored form, and what storage keeps of it (internal/store/append.go). */
module Storage {
  import opened Wrappers
  import opened Change
  import opened Sql
  import opened Literal
  import opened Reverse
  import Codec
  import opened CodecProps

  datatype EncodedRow = EncodedRow(
    schema: Text,
    table: Text,
    op: Op,
    logFile: Text,
    logPos: Uint32,
    query: Option<Text>,
    columns: seq<Codec.byte>,
    before: Option<seq<Codec.byte>>,
    after: Option<seq<Codec.byte>>)

  function EncodeImage(row: Option<Row>): Result<Option<seq<Codec.byte>>, Codec.Error> {
    if row.None? then Ok(None)
    else
      var b :- Codec.EncodeRow(row.value);
      Ok(Some(b))
  }

  function DecodeImage(b: Option<seq<Codec.byte>>): Result<Option<Row>, Codec.Error> {
    if b.None? then Ok(None)
    else
      var row :- Codec.DecodeRow(b.value);
      Ok(Some(row))
  }

  function EncodeEvent(ev: Event): Result<EncodedRow, Codec.Error> {
    var columns :- Codec.EncodeColumns(ev.columns);
    var before :- EncodeImage(ev.before);
    var after :- EncodeImage(ev.after);
    Ok(EncodedRow(ev.schema, ev.table, ev.op, ev.logFile, ev.logPos,
                  if ev.query == "" then None else Some(ev.query), columns, before, after))
  }

  /** A stored change read back; its time and server are its transaction's. */
  function DecodeEvent(r: EncodedRow, committedAt: int, serverId: Uint32): Result<Event, Codec.Error> {
    var columns :- Codec.DecodeColumns(r.columns);
    var before :- DecodeImage(r.before);
    var after :- DecodeImage(r.after);
    Ok(Event(r.schema, r.table, r.op, columns, before, after, r.logFile, r.logPos, committedAt, serverId,
             if r.query.Some? then r.query.value else ""))
  }

  function CanonImage(row: Option<Row>): Option<Row> { if row.Some? then Some(CanonRow(row.value)) else None }

  /** The change as the store gives it back. */
  function Restored(ev: Event, committedAt: int, serverId: Uint32): Event {
    ev.(before := CanonImage(ev.before), after := CanonImage(ev.after), at := committedAt, serverId := serverId)
  }

  predicate SizedImage(row: Option<Row>) { row.Some? ==> SizedRow(row.value) }

  predicate SizedEvent(ev: Event) { SizedColumns(ev.columns) && SizedImage(ev.before) && SizedImage(ev.after) }

  lemma ImageReadsBack(row: Option<Row>)
    requires EncodeImage(row).Ok? && SizedImage(row)
    ensures DecodeImage(EncodeImage(row).value) == Ok(CanonImage(row))
  {
    if row.Some? { RowReadsBack(row.value); }
  }

  /** Reading a stored change gives it back in canonical form. */
  lemma EventReadsBack(ev: Event, committedAt: int, serverId: Uint32)
    requires EncodeEvent(ev).Ok? && SizedEvent(ev)
    ensures DecodeEvent(EncodeEvent(ev).value, committedAt, serverId) == Ok(Restored(ev, committedAt, serverId))
  {
    ColumnsReadBack(ev.columns);
    ImageReadsBack(ev.before);
    ImageReadsBack(ev.after);
  }

  // ---------- Storage keeps the statement ----------

  /** Two images of one column: the same integer width, and times read in one zone. */
  predicate SameType(a: Value, b: Value) {
    && (a.Int? && b.Int? ==> a.iw == b.iw)
    && (a.Uint? && b.Uint? ==> a.uw == b.uw)
    && (a.Time? && b.Time? ==> a.zone == b.zone)
  }

  predicate SameTypes(ev: Event) {
    var before, after := Image(ev.before), Image(ev.after);
    forall i :: 0 <= i < |before| && i < |after| ==> SameType(before[i], after[i])
  }

  lemma CanonKeepsKind(v: Value)
    ensures Renderable(Canon(v)) <==> Renderable(v)
    ensures Canon(v) == Null <==> v == Null
    ensures !Renderable(v) ==> LiteralError(Canon(v)) == LiteralError(v)
  {
  }

  /** A stored value has the literal, or the error, of the original. */
  lemma CanonKeepsValue(fmt: Format, v: Value)
    ensures LiteralOf(fmt, Canon(v)) == LiteralOf(fmt, v)
  {
    CanonKeepsKind(v);
  }

  lemma CanonKeepsEquality(a: Value, b: Value)
    ensures EqualValue(a, b) ==> EqualValue(Canon(a), Canon(b))
    ensures SameType(a, b) && EqualValue(Canon(a), Canon(b)) ==> EqualValue(a, b)
  {
  }

  /** A difference between two images that storage does not keep. */
  predicate Lost(before: Value, after: Value) { EqualValue(Canon(before), Canon(after)) && !EqualValue(before, after) }

  /** One of the first n columns that can be written loses its difference. */
  predicate LosesWritable(cols: seq<Column>, before: Row, after: Row, n: nat)
    requires |before| == |after| == |cols| && n <= |cols|
  {
    exists i :: 0 <= i < n && !cols[i].readOnly && Lost(before[i], after[i])
  }

  lemma MapPredsAppend<A, B>(f: A -> B, ps: seq<Pred<A>>, p: Pred<A>)
    ensures MapPreds(f, ps + [p]) == MapPreds(f, ps) + [MapPred(f, p)]
  {
  }

  lemma MapAssignsAppend<A, B>(f: A -> B, sets: seq<Assign<A>>, a: Assign<A>)
    ensures MapAssigns(f, sets + [a]) == MapAssigns(f, sets) + [Assign(a.col, f(a.val))]
  {
  }

  lemma MapValsAppend<A, B>(f: A -> B, vals: seq<A>, v: A)
    ensures MapVals(f, vals + [v]) == MapVals(f, vals) + [f(v)]
  {
  }

  lemma {:induction false} WhereOfCanon(cols: seq<Column>, row: Row, idx: seq<nat>, n: nat)
    requires |row| == |cols| && n <= |idx| && forall k :: 0 <= k < |idx| ==> idx[k] < |cols|
    ensures var r, r' := WhereUpTo(cols, row, idx, n), WhereUpTo(cols, CanonRow(row), idx, n);
            if r.Ok? then r'.Ok? && r'.value == MapPreds(Canon, r.value) else r' == r
    decreases n
  {
    if n > 0 {
      WhereOfCanon(cols, row, idx, n - 1);
      CanonKeepsKind(row[idx[n - 1]]);
      var r := WhereUpTo(cols, row, idx, n - 1);
      if r.Ok? { MapPredsAppend(Canon, r.value, PredOf(cols[idx[n - 1]], row[idx[n - 1]])); }
    }
  }

  predicate RenderableRow(row: Row) { forall i :: 0 <= i < |row| ==> Renderable(row[i]) }

  /** The assignments after storage: all of them while no difference is lost, and
      strictly fewer as soon as one is. */
  ghost predicate SetsSurvive(cols: seq<Column>, before: Row, after: Row, n: nat)
    requires |before| == |after| == |cols| && n <= |cols|
  {
    var r, r' := SetsUpTo(cols, before, after, n), SetsUpTo(cols, CanonRow(before), CanonRow(after), n);
    && r.Ok? && r'.Ok? && |r'.value| <= |r.value|
    && (if LosesWritable(cols, before, after, n) then |r'.value| < |r.value|
       else r'.value == MapAssigns(Canon, r.value))
  }

  lemma OneMoreLoss(cols: seq<Column>, before: Row, after: Row, n: nat)
    requires |before| == |after| == |cols| && n < |cols|
    ensures LosesWritable(cols, before, after, n + 1) <==>
            LosesWritable(cols, before, after, n) || (!cols[n].readOnly && Lost(before[n], after[n]))
  {
  }

  lemma {:induction false} SetsOfCanon(cols: seq<Column>, before: Row, after: Row, n: nat)
    requires |before| == |after| == |cols| && n <= |cols| && RenderableRow(before)
    ensures SetsSurvive(cols, before, after, n)
    decreases n
  {
    if n > 0 {
      SetsOfCanon(cols, before, after, n - 1);
      OneMoreLoss(cols, before, after, n - 1);
      CanonKeepsKind(before[n - 1]);
      CanonKeepsEquality(before[n - 1], after[n - 1]);
      MapAssignsAppend(Canon, SetsUpTo(cols, before, after, n - 1).value, Assign(cols[n - 1].name, before[n - 1]));
    }
  }

  lemma {:induction false} AssignableOfCanon(cols: seq<Column>, row: Row, n: nat)
    requires |row| == |cols| && n <= |cols|
    ensures var r, r' := AssignableUpTo(cols, row, n), AssignableUpTo(cols, CanonRow(row), n);
            if r.Ok? then r'.Ok? && r'.value == (r.value.0, MapVals(Canon, r.value.1)) else r' == r
    decreases n
  {
    if n == 0 {
      assert MapVals(Canon, []) == [];
    } else {
      AssignableOfCanon(cols, row, n - 1);
      CanonKeepsKind(row[n - 1]);
      var r := AssignableUpTo(cols, row, n - 1);
      if r.Ok? { MapValsAppend(Canon, r.value.1, row[n - 1]); }
    }
  }

  /** The statement or error of a change, in canonical form. */
  function InCanon(r: Result<Stmt<Value>, Reverse.Error>): Result<Stmt<Value>, Reverse.Error> {
    if r.Ok? then Ok(MapStmt(Canon, r.value)) else r
  }

  predicate UpdatesRow(ev: Event) { ev.op == Op.Update && Validate(ev).None? }

  /** What storage must not lose of an update: no difference in a column that can be
      written; and when only others differ, not every one of those. */
  predicate KeepsChanges(ev: Event) {
    UpdatesRow(ev) ==>
      var cols, before, after := ev.columns, Image(ev.before), Image(ev.after);
      && !LosesWritable(cols, before, after, |cols|)
      && (SetsUpTo(cols, before, after, |cols|) == Ok([]) && SkipsReadOnly(cols, before, after, |cols|) ==>
            SkipsReadOnly(cols, CanonRow(before), CanonRow(after), |cols|))
  }

  predicate StorableEvent(ev: Event) { RenderableRow(Image(ev.before)) && RenderableRow(Image(ev.after)) }

  lemma {:induction false} RenderableWhere(cols: seq<Column>, row: Row, idx: seq<nat>, n: nat)
    requires |row| == |cols| && n <= |idx| && forall k :: 0 <= k < |idx| ==> idx[k] < |cols|
    requires RenderableRow(row)
    ensures WhereUpTo(cols, row, idx, n).Ok?
    decreases n
  {
    if n > 0 { RenderableWhere(cols, row, idx, n - 1); }
  }

  lemma SkipsOfCanon(cols: seq<Column>, before: Row, after: Row)
    requires |before| == |after| == |cols|
    ensures SkipsReadOnly(cols, CanonRow(before), CanonRow(after), |cols|) ==>
            SkipsReadOnly(cols, before, after, |cols|)
  {
    forall i | 0 <= i < |cols| && !EqualValue(CanonRow(before)[i], CanonRow(after)[i])
      ensures !EqualValue(before[i], after[i])
    {
      CanonKeepsEquality(before[i], after[i]);
    }
  }

  lemma UpdateOfRestored(ev: Event, committedAt: int, serverId: Uint32)
    requires UpdatesRow(ev) && StorableEvent(ev)
    ensures Inverse(Restored(ev, committedAt, serverId)) == InCanon(Inverse(ev)) <==> KeepsChanges(ev)
  {
    var cols, idx, before, after := ev.columns, WhereIndexes(ev.columns), Image(ev.before), Image(ev.after);
    SetsOfCanon(cols, before, after, |cols|);
    SkipsOfCanon(cols, before, after);
    RenderableWhere(cols, after, idx, |idx|);
    WhereOfCanon(cols, after, idx, |idx|);
    var back := Restored(ev, committedAt, serverId);
    assert Image(back.before) == CanonRow(before) && Image(back.after) == CanonRow(after);
  }

  /** Exactly when a change that can be stored survives it: stored and read back it
      calls for the canonical form of its own inverse, or fails with its own error, if
      and only if storage keeps its differences. */
  lemma SurvivesExactly(ev: Event, committedAt: int, serverId: Uint32)
    requires StorableEvent(ev)
    ensures Inverse(Restored(ev, committedAt, serverId)) == InCanon(Inverse(ev)) <==> KeepsChanges(ev)
  {
    if UpdatesRow(ev) {
      UpdateOfRestored(ev, committedAt, serverId);
    } else if Validate(ev).None? {
      var cols, idx := ev.columns, WhereIndexes(ev.columns);
      if ev.op == Op.Insert {
        WhereOfCanon(cols, Image(ev.after), idx, |idx|);
      } else {
        AssignableOfCanon(cols, Image(ev.before), |cols|);
      }
    }
  }

  /** Images of one type per column, as a source delivers them, lose nothing. */
  lemma SameTypesKeepChanges(ev: Event)
    requires SameTypes(ev)
    ensures KeepsChanges(ev)
  {
    if UpdatesRow(ev) {
      var cols, before, after := ev.columns, Image(ev.before), Image(ev.after);
      forall i | 0 <= i < |cols|
        ensures EqualValue(CanonRow(before)[i], CanonRow(after)[i]) <==> EqualValue(before[i], after[i])
      {
        CanonKeepsEquality(before[i], after[i]);
      }
    }
  }

  lemma EncodedIsStorable(ev: Event)
    requires EncodeEvent(ev).Ok?
    ensures StorableEvent(ev)
  {
    if ev.before.Some? { EncodesWhatRenders(ev.before.value); }
    if ev.after.Some? { EncodesWhatRenders(ev.after.value); }
  }

  lemma PrintedOfCanon(fmt: Format, s: Stmt<Value>)
    ensures Printed(fmt, MapStmt(Canon, s)) == Printed(fmt, s)
  {
    match s
    case Delete(_, _, where) => PredsOfCanon(fmt, where);
    case Update(_, _, sets, where) =>
      PredsOfCanon(fmt, where);
      forall i | 0 <= i < |sets| ensures TextOf(fmt)(Canon(sets[i].val)) == TextOf(fmt)(sets[i].val) {
        CanonKeepsValue(fmt, sets[i].val);
      }
      assert MapAssigns(TextOf(fmt), MapAssigns(Canon, sets)) == MapAssigns(TextOf(fmt), sets);
    case Insert(_, _, _, vals) =>
      forall i | 0 <= i < |vals| ensures TextOf(fmt)(Canon(vals[i])) == TextOf(fmt)(vals[i]) {
        CanonKeepsValue(fmt, vals[i]);
      }
      assert MapVals(TextOf(fmt), MapVals(Canon, vals)) == MapVals(TextOf(fmt), vals);
    case _ =>
  }

  lemma PredsOfCanon(fmt: Format, ps: seq<Pred<Value>>)
    ensures MapPreds(TextOf(fmt), MapPreds(Canon, ps)) == MapPreds(TextOf(fmt), ps)
  {
    forall i | 0 <= i < |ps| ensures MapPred(TextOf(fmt), MapPred(Canon, ps[i])) == MapPred(TextOf(fmt), ps[i]) {
      if ps[i].Equals? { CanonKeepsValue(fmt, ps[i].val); }
    }
  }

  /** Storage preserves meaning: a change that was stored and read back calls for
      exactly the statement, or fails with exactly the error, of the original. */
  lemma StorageKeepsStatement(fmt: Format, ev: Event, committedAt: int, serverId: Uint32)
    requires EncodeEvent(ev).Ok? && SizedEvent(ev) && (SameTypes(ev) || KeepsChanges(ev))
    ensures var back := DecodeEvent(EncodeEvent(ev).value, committedAt, serverId);
            back.Ok? && StatementOf(fmt, back.value) == StatementOf(fmt, ev)
  {
    if SameTypes(ev) { SameTypesKeepChanges(ev); }
    EncodedIsStorable(ev);
    EventReadsBack(ev, committedAt, serverId);
    SurvivesExactly(ev, committedAt, serverId);
    if Inverse(ev).Ok? { PrintedOfCanon(fmt, Inverse(ev).value); }
  }

  /** The condition is not empty: an integer that only changed its width is a change
      before storage and none after it. */
  lemma MixedTypesMayNotSurvive(fmt: Format) returns (ev: Event)
    ensures !KeepsChanges(ev) && StorableEvent(ev)
    ensures StatementOf(fmt, ev).Ok? && StatementOf(fmt, Restored(ev, 1, 0)) == Err(NothingChanged)
  {
    ev := Event("s", "t", Op.Update, [Column("c", false, false)], Some([Int(W8, 1)]), Some([Int(W64, 1)]), "", 0, 1, 0,
      "");
    var cols := ev.columns;
    var b, a: Row := [Int(W8, 1)], [Int(W64, 1)];
    assert Image(ev.before) == b && Image(ev.after) == a;
    assert SetsUpTo(cols, b, a, 0) == Ok([]);
    assert Lost(b[0], a[0]) && LosesWritable(cols, b, a, 1);
    assert Inverse(ev).Ok? by {
      assert SetsUpTo(cols, b, a, 1) == Ok([] + [Assign("c", b[0])]);
      var idx := WhereIndexes(cols);
      RenderableWhere(cols, a, idx, |idx|);
    }
    var ev' := Restored(ev, 1, 0);
    assert Image(ev'.before) == [Int(W64, 1)] && Image(ev'.after) == [Int(W64, 1)];
    assert SetsUpTo(cols, Image(ev'.before), Image(ev'.after), 0) == Ok([]);
    assert SetsUpTo(cols, Image(ev'.before), Image(ev'.after), 1) == Ok([]);
  }
}
