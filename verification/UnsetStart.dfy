/** Windows without a stated start: when the store answers them with exactly the log from
    its lower edge on. */
module UnsetStart {
  import opened Wrappers
  import opened Sequences
  import opened Change
  import opened Store
  import opened StoreLog
  import opened StoreRuns
  import Storage

  /** Every stored change lies at or after the lower edge. */
  predicate AllAhead(s: State) { forall i: nat :: i < |s.rows| ==> IsAhead(s, i) }

  predicate IsAhead(s: State, i: nat)
    requires i < |s.rows|
  {
    var t := FindTxn(s.txns, s.rows[i].txnId);
    t.Some? ==> !Behind(s.coverageFrom, t.value.committedAt)
  }

  /** A change lies at or after an edge. */
  predicate FromOn(edge: Option<int>, ev: Event) { Match(From(edge), ev) }

  lemma {:induction false} ViewAhead(s: State, n: nat)
    requires n <= |s.rows| && ViewUpTo(s.rows, s.txns, n).Ok?
    ensures (forall i: nat :: i < n ==> IsAhead(s, i)) <==>
            forall e :: e in ViewUpTo(s.rows, s.txns, n).value ==> FromOn(s.coverageFrom, e.event)
    decreases n
  {
    if n > 0 {
      var t := FindTxn(s.txns, s.rows[n - 1].txnId);
      ViewAhead(s, n - 1);
      if t.Some? {
        var e := ViewStep(s.rows, s.txns, n);
        var view := ViewUpTo(s.rows, s.txns, n - 1).value;
        assert FromOn(s.coverageFrom, e.event) <==> IsAhead(s, n - 1);
        OneMoreIn(view, e);
      } else {
        assert IsAhead(s, n - 1);
      }
    }
  }

  lemma OneMoreIn<T>(xs: seq<T>, x: T)
    ensures forall y :: y in xs + [x] <==> y in xs || y == x
  {
  }

  const EVERYTHING := Filter([], None, None)

  lemma {:induction false} EverythingMatches(evs: seq<Event>)
    ensures Matching(EVERYTHING, evs) == evs
    decreases |evs|
  {
    if evs != [] {
      EverythingMatches(evs[..|evs| - 1]);
      assert evs == evs[..|evs| - 1] + [evs[|evs| - 1]];
    }
  }

  /** An unset-start window is answered with exactly the log from the lower edge on. */
  ghost predicate AnswersFromTheEdge(ops: seq<StoreOp>, f: Filter, now: int) {
    Answer(RunOf(ops), f, now) == Ok(Matching(From(RunOf(ops).coverageFrom), Matching(f, LogEvents(LedgerOf(ops).log))))
  }

  /** A store that answers for everything answers every unset-start window with exactly
      the log from the lower edge on if and only if no stored change lies behind the edge. */
  lemma UnsetAnswersExactly(ops: seq<StoreOp>, now: int)
    requires Consistent(ops) && Judge(RunOf(ops), EVERYTHING, now).None?
    ensures (forall f: Filter :: f.from.None? && Judge(RunOf(ops), f, now).None? ==>
            AnswersFromTheEdge(ops, f, now)) <==>
            AllAhead(RunOf(ops))
  {
    InvAlwaysHolds(ops);
    var s := RunOf(ops);
    ViewAhead(s, |s.rows|);
    ViewIsAhead(s);
    forall f: Filter | f.from.None? && Judge(s, f, now).None? ensures AnswersFromTheEdge(ops, f, now) <==>
      AnswerIsAhead(s, f, now) {
      AnswerUnstatedExactly(ops, f, now);
    }
    if AllAhead(s) {
      forall f: Filter | f.from.None? && Judge(s, f, now).None? ensures AnswersFromTheEdge(ops, f, now) {
        MatchingIsAmong(f, EventsOf(View(s).value));
        assert AnswerIsAhead(s, f, now);
      }
    } else {
      EverythingMatches(EventsOf(View(s).value));
      assert !AnswerIsAhead(s, EVERYTHING, now);
      assert !AnswersFromTheEdge(ops, EVERYTHING, now);
    }
  }

  predicate AnswerIsAhead(s: State, f: Filter, now: int)
    requires Answer(s, f, now).Ok?
  {
    forall ev :: ev in Answer(s, f, now).value ==> FromOn(s.coverageFrom, ev)
  }

  lemma {:induction false} MatchingIsAmong(f: Filter, evs: seq<Event>)
    ensures forall ev :: ev in Matching(f, evs) ==> ev in evs
    decreases |evs|
  {
    if evs != [] { MatchingIsAmong(f, evs[..|evs| - 1]); }
  }

  lemma ViewIsAhead(s: State)
    requires View(s).Ok?
    ensures AllAhead(s) <==> forall ev :: ev in EventsOf(View(s).value) ==> FromOn(s.coverageFrom, ev)
  {
    ViewAhead(s, |s.rows|);
    var view := View(s).value;
    forall e | e in view ensures e.event in EventsOf(view) {
      var i :| 0 <= i < |view| && view[i] == e;
      assert EventsOf(view)[i] == e.event;
    }
  }

  // ---------- Over runs ----------

  /** An operation leaves a change behind the edge: a transaction behind it is stored anew,
      or the first opening passes a stored one. */
  ghost predicate PutsBehind(s: State, op: StoreOp) {
    match op
    case AppendTxn(txn, _) =>
      && EncodeUpTo(txn.events, |txn.events|).Ok? && !HasSource(s.txns, txn.sourceId) && txn.events != []
      && Behind(s.coverageFrom, txn.committedAt)
    case Opened(when) => s.coverageFrom.None? && !AllAhead(s.(coverageFrom := Some(when)))
    case _ => false
  }

  lemma {:induction false} AddedRowsAre(rows: seq<RowChange>, id: nat, data: seq<Storage.EncodedRow>, n: nat)
    requires n <= |data|
    ensures var now := AddRows(rows, id, data, n);
            |now| == |rows| + n && rows <= now && forall i :: |rows| <= i < |now| ==> now[i].txnId == id
    decreases n
  {
    if n > 0 { AddedRowsAre(rows, id, data, n - 1); }
  }

  lemma NewIdIsNew(s: State, i: nat, t: TxnRow)
    requires TablesOk(s) && i < |s.rows| && t.id == NextTxnId(s.txns)
    ensures FindTxn(s.txns + [t], s.rows[i].txnId) == FindTxn(s.txns, s.rows[i].txnId)
  {
    FindAfterAppend(s.txns, t, s.rows[i].txnId);
    RowIsJoined(s.rows, s.txns, i);
    NextIsNew(s.txns, s.rows[i].txnId);
  }

  lemma NextIsNew(txns: seq<TxnRow>, id: nat)
    requires TxnsOk(txns) && FindTxn(txns, id).Some?
    ensures id != NextTxnId(txns)
  {
    var k :| 0 <= k < |txns| && txns[k] == FindTxn(txns, id).value;
  }

  lemma AppendStaysAhead(s: State, txn: Transaction, cp: Checkpoint)
    requires TablesOk(s) && AllAhead(s) && EncodeUpTo(txn.events, |txn.events|).Ok?
    ensures AllAhead(Append(s, txn, cp).value) <==> !PutsBehind(s, AppendTxn(txn, cp))
  {
    AppendStores(s, txn, cp);
    var now, data := Append(s, txn, cp).value, EncodeUpTo(txn.events, |txn.events|).value;
    if HasSource(s.txns, txn.sourceId) {
      forall i: nat | i < |now.rows| ensures IsAhead(now, i) { assert IsAhead(s, i); }
    } else {
      var t := TxnRow(NextTxnId(s.txns), txn.sourceId, txn.committedAt, txn.serverId);
      AddedRowsAre(s.rows, t.id, data, |data|);
      forall i: nat | i < |s.rows| ensures IsAhead(now, i) {
        assert IsAhead(s, i);
        NewIdIsNew(s, i, t);
      }
      forall i: nat | |s.rows| <= i < |now.rows| ensures IsAhead(now, i) <==> !Behind(s.coverageFrom, txn.committedAt) {
        FindAfterAppend(s.txns, t, t.id);
      }
      if txn.events != [] { assert IsAhead(now, |s.rows|) <==> !Behind(s.coverageFrom, txn.committedAt); }
    }
  }

  lemma PruneStaysAhead(s: State, edge: int)
    requires TablesOk(s) && AllAhead(s)
    ensures AllAhead(PruneAt(s, edge))
  {
    var now := PruneAt(s, edge);
    KeptRowsAreOk(s, edge);
    forall i: nat | i < |now.rows| ensures IsAhead(now, i) {
      var k: nat :| k < |s.rows| && s.rows[k] == now.rows[i];
      assert IsAhead(s, k);
      FindInKept(s.txns, edge, now.rows[i].txnId);
    }
  }

  /** As long as no stored change lies behind the edge, an operation keeps it so if and
      only if it puts none there. */
  lemma StepStaysAheadExactly(s: State, op: StoreOp)
    requires TablesOk(s) && AllAhead(s)
    ensures AllAhead(Apply(s, op)) <==> !PutsBehind(s, op)
  {
    match op
    case AppendTxn(txn, cp) =>
      if EncodeUpTo(txn.events, |txn.events|).Ok? { AppendStaysAhead(s, txn, cp); }
    case Pruned(now) =>
      if Edge(s, now).Some? { PruneStaysAhead(s, Edge(s, now).value); }
    case Opened(when) =>
    case _ =>
      SameRows(s, Apply(s, op));
  }

  lemma SameRows(s: State, now: State)
    requires AllAhead(s) && now.rows == s.rows && now.txns == s.txns && now.coverageFrom == s.coverageFrom
    ensures AllAhead(now)
  {
    forall i: nat | i < |now.rows| ensures IsAhead(now, i) { assert IsAhead(s, i); }
  }

  /** So over every run in which nothing was stored behind the edge, no change lies there. */
  lemma {:induction false} RunStaysAhead(ops: seq<StoreOp>)
    requires Consistent(ops) && forall i :: 0 <= i < |ops| ==> !PutsBehind(RunOf(ops[..i]), ops[i])
    ensures AllAhead(RunOf(ops))
    decreases |ops|
  {
    if ops != [] {
      var before := Init(ops);
      forall i | 0 <= i < |before| ensures !PutsBehind(RunOf(before[..i]), before[i]) {
        assert before[..i] == ops[..i];
      }
      RunStaysAhead(before);
      InvAlwaysHolds(before);
      StepStaysAheadExactly(RunOf(before), Last(ops));
    }
  }

  /** A schema change at 10. */
  function Late(): Transaction {
    Transaction("t", 10, 1, [Event("s", "", Op.SchemaChange, [], None, None, "f", 1, 10, 1, "d")])
  }

  const PLACE := Checkpoint("f", 1, "", 10)

  lemma LateEncodes()
    ensures Sized(Late()) && EncodeUpTo(Late().events, 1).Ok?
  {
    assert EncodeUpTo(Late().events, 0) == Ok([]);
  }

  lemma NothingIsKept(t: TxnRow, r: RowChange, edge: int)
    requires t.committedAt < edge && r.txnId == t.id
    ensures KeptTxns([t], edge) == [] && KeptRows([r], [t], edge) == []
  {
    assert [t][..0] == [] && [r][..0] == [];
    assert FindTxn([t], r.txnId) == Some(t);
    assert KeptTxns([], edge) == [] && KeptRows([], [t], edge) == [];
    assert Keep((t: TxnRow) => t.committedAt >= edge, [t]) == [] + [];
  }

  /** A store that pruned the change away, its edge at 50. */
  lemma PrunedAway() returns (ops: seq<StoreOp>)
    ensures ops == [AppendTxn(Late(), PLACE), SetRetention(50), Pruned(100)]
    ensures var s := RunOf(ops);
            && s.txns == [] && s.rows == [] && s.gaps == [] && s.misses == [] && s.maxStaleness == None
            && s.coverageFrom == Some(50) && s.coverageTo == Some(10)
  {
    LateEncodes();
    var first := [AppendTxn(Late(), PLACE)];
    assert Init(first) == [] && RunOf([]) == EMPTY;
    AppendStores(EMPTY, Late(), PLACE);
    var data := EncodeUpTo(Late().events, 1).value;
    AddedRowsAre([], 1, data, 1);
    var s := RunOf(first);
    assert s.txns == [] + [TxnRow(1, "t", 10, 1)] == [TxnRow(1, "t", 10, 1)];
    RunConcat(first, SetRetention(50));
    RunConcat(first + [SetRetention(50)], Pruned(100));
    ops := first + [SetRetention(50)] + [Pruned(100)];
    assert FindTxn(s.txns, 1) == Some(s.txns[0]);
    assert s.rows == [s.rows[0]];
    NothingIsKept(s.txns[0], s.rows[0], 50);
  }

  /** Delivered again after it was pruned, a transaction is in the answer and not in the
      log from the edge on. */
  lemma UnsetMayAnswerMore() returns (ops: seq<StoreOp>, now: int)
    ensures Consistent(ops) && Judge(RunOf(ops), EVERYTHING, now).None? && !AllAhead(RunOf(ops))
    ensures exists f: Filter :: f.from.None? && Judge(RunOf(ops), f, now).None? && !AnswersFromTheEdge(ops, f, now)
  {
    LateEncodes();
    var before := PrunedAway();
    ops, now := before + [AppendTxn(Late(), PLACE)], 10;
    RunConcat(before, AppendTxn(Late(), PLACE));
    AppendStores(RunOf(before), Late(), PLACE);
    var s, data := RunOf(ops), EncodeUpTo(Late().events, 1).value;
    AddedRowsAre([], 1, data, 1);
    assert s.txns == [] + [TxnRow(1, "t", 10, 1)] == [TxnRow(1, "t", 10, 1)];
    assert FindTxn(s.txns, 1) == Some(s.txns[0]) && !IsAhead(s, 0);
    UnsetAnswersExactly(ops, now);
  }
}
