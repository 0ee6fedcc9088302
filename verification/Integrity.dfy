/** The two store invariants that Integrity checks hold in every state a collector
    reaches (internal/store/integrity.go). */
module Integrity {
  import opened Sequences
  import opened Change
  import opened Storage
  import opened Store
  import opened StoreLog
  import opened StoreRuns

  /** What a collector writes: changes, and a checkpoint carrying the commit's time
      (internal/source/mysql/source.go). */
  predicate ByCollector(op: StoreOp) {
    op.AppendTxn? ==> op.txn.events != [] && op.cp.updatedAt == op.txn.committedAt
  }

  predicate CollectorRun(ops: seq<StoreOp>) {
    Consistent(ops) && forall k :: 0 <= k < |ops| ==> ByCollector(ops[k])
  }

  ghost predicate EveryTxnHasRows(s: State) { forall k :: 0 <= k < |s.txns| ==> HasRow(s.rows, s.txns[k].id) }

  ghost predicate Clean(s: State) { EveryTxnHasRows(s) && !Ahead(s) }

  lemma {:induction false} NewestIs(txns: seq<TxnRow>)
    ensures Newest(txns).Some? <==> txns != []
    ensures forall k :: 0 <= k < |txns| ==> txns[k].committedAt <= Newest(txns).value
    ensures txns != [] ==> exists k :: 0 <= k < |txns| && txns[k].committedAt == Newest(txns).value
    decreases |txns|
  {
    if txns != [] {
      var init := txns[..|txns| - 1];
      NewestIs(init);
      if init != [] {
        var k :| 0 <= k < |init| && init[k].committedAt == Newest(init).value;
        assert txns[k] == init[k];
      }
      assert forall k :: 0 <= k < |init| ==> txns[k] == init[k];
    }
  }

  lemma {:induction false} AddRowsKeeps(rows: seq<RowChange>, txnId: nat, data: seq<EncodedRow>, n: nat)
    requires n <= |data|
    ensures rows <= AddRows(rows, txnId, data, n)
    ensures n > 0 ==> HasRow(AddRows(rows, txnId, data, n), txnId)
    decreases n
  {
    if n > 0 {
      AddRowsKeeps(rows, txnId, data, n - 1);
      var now := AddRows(rows, txnId, data, n);
      assert now[|now| - 1].txnId == txnId;
    }
  }

  lemma HasRowGrows(rows: seq<RowChange>, now: seq<RowChange>, id: nat)
    requires rows <= now && HasRow(rows, id)
    ensures HasRow(now, id)
  {
    var k :| 0 <= k < |rows| && rows[k].txnId == id;
    assert now[k] == rows[k];
  }

  lemma NewerCommit(txns: seq<TxnRow>, t: TxnRow)
    ensures Newest(txns + [t]).Some? && Newest(txns + [t]).value >= t.committedAt
  {
    NewestIs(txns + [t]);
    assert (txns + [t])[|txns|] == t;
  }

  lemma AppendStaysSound(s: State, l: Ledger, txn: Transaction, cp: Checkpoint)
    requires Inv(s, l) && Clean(s) && OpOk(l, AppendTxn(txn, cp)) && ByCollector(AppendTxn(txn, cp))
    requires EncodeUpTo(txn.events, |txn.events|).Ok?
    ensures Clean(Append(s, txn, cp).value)
  {
    AppendStores(s, txn, cp);
    var s' := Append(s, txn, cp).value;
    if HasSource(s.txns, txn.sourceId) {
      var i :| 0 <= i < |s.txns| && s.txns[i].sourceId == txn.sourceId;
      assert Delivered(l.log, s.txns[i].sourceId);
      NewestIs(s.txns);
    } else {
      var id, data := NextTxnId(s.txns), EncodeUpTo(txn.events, |txn.events|).value;
      AddRowsKeeps(s.rows, id, data, |data|);
      forall k | 0 <= k < |s'.txns| ensures HasRow(s'.rows, s'.txns[k].id) {
        if k < |s.txns| { HasRowGrows(s.rows, s'.rows, s.txns[k].id); }
      }
      NewerCommit(s.txns, s'.txns[|s.txns|]);
    }
  }

  lemma KeptTxnHasRows(s: State, edge: int, t: TxnRow)
    requires TxnsOk(s.txns) && EveryTxnHasRows(s) && t in s.txns && t.committedAt >= edge
    ensures HasRow(KeptRows(s.rows, s.txns, edge), t.id)
  {
    var i :| 0 <= i < |s.txns| && s.txns[i] == t;
    FindFinds(s.txns, i);
    assert HasRow(s.rows, s.txns[i].id);
    var k :| 0 <= k < |s.rows| && s.rows[k].txnId == t.id;
    var p := (r: RowChange) => var t := FindTxn(s.txns, r.txnId); t.None? || t.value.committedAt >= edge;
    KeepIs(p, s.rows);
    assert KeptRows(s.rows, s.txns, edge) == Keep(p, s.rows) && s.rows[k] in Keep(p, s.rows);
    var j :| 0 <= j < |Keep(p, s.rows)| && Keep(p, s.rows)[j] == s.rows[k];
  }

  /** Pruning keeps the newest change unless it removes every change. */
  lemma KeptNewest(txns: seq<TxnRow>, edge: int)
    requires KeptTxns(txns, edge) != []
    ensures Newest(KeptTxns(txns, edge)) == Newest(txns)
  {
    var kept := KeptTxns(txns, edge);
    var p := (t: TxnRow) => t.committedAt >= edge;
    KeepIs(p, txns);
    assert kept == Keep(p, txns);
    NewestIs(txns);
    NewestIs(kept);
    var k :| 0 <= k < |kept| && kept[k].committedAt == Newest(kept).value;
    var i :| 0 <= i < |txns| && txns[i] == kept[k];
    var m :| 0 <= m < |txns| && txns[m].committedAt == Newest(txns).value;
    assert txns[m] in kept;
    var j :| 0 <= j < |kept| && kept[j] == txns[m];
  }

  lemma PruneStaysSound(s: State, edge: int)
    requires TxnsOk(s.txns) && Clean(s)
    ensures Clean(PruneAt(s, edge))
  {
    var s' := PruneAt(s, edge);
    forall k | 0 <= k < |s'.txns| ensures HasRow(s'.rows, s'.txns[k].id) {
      var i := KeptComeFrom(s.txns, edge, k);
      KeepIs((t: TxnRow) => t.committedAt >= edge, s.txns);
      KeptTxnHasRows(s, edge, s'.txns[k]);
    }
    if s'.txns != [] { KeptNewest(s.txns, edge); }
  }

  lemma StepStaysSound(s: State, l: Ledger, op: StoreOp)
    requires Inv(s, l) && Clean(s) && OpOk(l, op) && ByCollector(op)
    ensures Clean(Apply(s, op))
  {
    match op
    case AppendTxn(txn, cp) =>
      if EncodeUpTo(txn.events, |txn.events|).Ok? { AppendStaysSound(s, l, txn, cp); }
    case Pruned(now) => if Edge(s, now).Some? { PruneStaysSound(s, Edge(s, now).value); }
    case _ =>
  }

  lemma {:induction false} AlwaysSound(ops: seq<StoreOp>)
    requires CollectorRun(ops)
    ensures Clean(RunOf(ops))
    decreases |ops|
  {
    if ops != [] {
      AlwaysSound(Init(ops));
      InvAlwaysHolds(Init(ops));
      LastIsOk(ops);
      StepStaysSound(RunOf(Init(ops)), LedgerOf(Init(ops)), Last(ops));
    }
  }

  lemma {:induction false} KeepsNothing<T>(p: T -> bool, xs: seq<T>)
    requires forall k :: 0 <= k < |xs| ==> !p(xs[k])
    ensures Keep(p, xs) == []
    decreases |xs|
  {
    if xs != [] { KeepsNothing(p, xs[..|xs| - 1]); }
  }

  /** In every state a collector reaches, Integrity's two checks report nothing and
      every row has its transaction. */
  lemma IntegrityNeverReports(ops: seq<StoreOp>)
    requires CollectorRun(ops)
    ensures Problems(RunOf(ops)) == []
    ensures RowsJoined(RunOf(ops).rows, RunOf(ops).txns)
  {
    AlwaysSound(ops);
    InvAlwaysHolds(ops);
    var s := RunOf(ops);
    KeepsNothing((t: TxnRow) => !HasRow(s.rows, t.id), s.txns);
  }

  /** What the checks decide, for any state: nothing is reported exactly when every
      transaction has a row and the checkpoint is not ahead of the newest change. */
  lemma ProblemsExactly(s: State)
    ensures Problems(s) == [] <==> Clean(s)
  {
    var p := (t: TxnRow) => !HasRow(s.rows, t.id);
    KeepIs(p, s.txns);
    assert Rowless(s) == Keep(p, s.txns);
    if EveryTxnHasRows(s) {
      KeepsNothing(p, s.txns);
    } else {
      var k :| 0 <= k < |s.txns| && !HasRow(s.rows, s.txns[k].id);
      assert s.txns[k] in Keep(p, s.txns);
    }
  }
}
