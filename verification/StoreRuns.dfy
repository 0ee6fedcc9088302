/** What holds of the store after any run of operations. */
module StoreRuns {
  import opened Sequences
  import opened Wrappers
  import opened Change
  import opened Store
  import opened StoreLog

  predicate Behind(edge: Option<int>, at: int) { edge.Some? && at < edge.value }

  /** From the lower edge on, the store reads exactly as the log does. */
  ghost predicate ReadsAsLog(s: State, l: Ledger) {
    View(s).Ok? && Matching(From(s.coverageFrom), EventsOf(View(s).value)) ==
      Matching(From(s.coverageFrom), LogEvents(l.log))
  }

  /** Whatever the store no longer holds lies behind its lower edge. */
  ghost predicate NothingLost(s: State, l: Ledger) {
    && (forall k :: 0 <= k < |l.log| ==>
       HasSource(s.txns, l.log[k].sourceId) || Behind(s.coverageFrom, l.log[k].committedAt))
    && (forall k :: 0 <= k < |s.txns| ==> Delivered(l.log, s.txns[k].sourceId))
  }

  /** A stored transaction carries the time it was first delivered with. */
  ghost predicate TimesLogged(s: State, l: Ledger) {
    forall i, k :: 0 <= i < |s.txns| && 0 <= k < |l.log| && s.txns[i].sourceId == l.log[k].sourceId ==>
      s.txns[i].committedAt == l.log[k].committedAt
  }

  /** Every gap and miss ever recorded is still there, or lies behind the lower edge. */
  ghost predicate HolesKept(s: State, l: Ledger) {
    && (forall k :: 0 <= k < |l.gaps| ==> l.gaps[k] in s.gaps || Behind(s.coverageFrom, l.gaps[k].to))
    && (forall k :: 0 <= k < |l.misses| ==> l.misses[k] in s.misses || Behind(s.coverageFrom, l.misses[k]))
  }

  ghost predicate Inv(s: State, l: Ledger) { TablesOk(s) && ReadsAsLog(s, l) && NothingLost(s, l) && TimesLogged(s, l) }

  /** The next delivery carries what an earlier delivery under its id did. */
  predicate OpOk(l: Ledger, op: StoreOp) {
    op.AppendTxn? ==>
      Sized(op.txn) && forall k :: 0 <= k < |l.log| && l.log[k].sourceId == op.txn.sourceId ==> l.log[k] == op.txn
  }

  // ---------- Appends ----------

  lemma LogGrows(log: seq<Transaction>, txn: Transaction)
    ensures LogEvents(log + [txn]) == LogEvents(log) + RestoredAll(txn)
  {
    assert Init(log + [txn]) == log;
  }

  /** Delivered again after it was pruned, a transaction lands behind the edge. */
  lemma BehindTheEdge(edge: Option<int>, txn: Transaction)
    requires Behind(edge, txn.committedAt)
    ensures Matching(From(edge), RestoredAll(txn)) == []
  {
    RestoredTimes(txn, |txn.events|);
    MatchingAll(From(edge), RestoredAll(txn));
  }

  lemma NewKeepsReading(s: State, l: Ledger, txn: Transaction, cp: Checkpoint)
    requires Inv(s, l) && OpOk(l, AppendTxn(txn, cp)) && !HasSource(s.txns, txn.sourceId)
    requires EncodeUpTo(txn.events, |txn.events|).Ok?
    ensures Append(s, txn, cp).Ok? && TablesOk(Append(s, txn, cp).value)
    ensures ReadsAsLog(Append(s, txn, cp).value, Record(l, AppendTxn(txn, cp)))
  {
    NewTransaction(s, txn, cp);
    AppendStores(s, txn, cp);
    var f, more := From(s.coverageFrom), RestoredAll(txn);
    MatchingConcat(f, EventsOf(View(s).value), more);
    if Delivered(l.log, txn.sourceId) {
      BehindTheEdge(s.coverageFrom, txn);
    } else {
      LogGrows(l.log, txn);
      MatchingConcat(f, LogEvents(l.log), more);
    }
  }

  lemma AppendKeepsInv(s: State, l: Ledger, txn: Transaction, cp: Checkpoint)
    requires Inv(s, l) && OpOk(l, AppendTxn(txn, cp))
    ensures Inv(Apply(s, AppendTxn(txn, cp)), Record(l, AppendTxn(txn, cp)))
  {
    if EncodeUpTo(txn.events, |txn.events|).Ok? {
      AppendStores(s, txn, cp);
      var s', l' := Append(s, txn, cp).value, Record(l, AppendTxn(txn, cp));
      if HasSource(s.txns, txn.sourceId) {
        var k :| 0 <= k < |s.txns| && s.txns[k].sourceId == txn.sourceId;
        assert Delivered(l.log, s.txns[k].sourceId);
      } else {
        NewKeepsReading(s, l, txn, cp);
        StillDelivered(s, l, txn, cp);
        TimesStayLogged(s, l, txn, cp);
      }
    }
  }

  lemma StillDelivered(s: State, l: Ledger, txn: Transaction, cp: Checkpoint)
    requires NothingLost(s, l) && !HasSource(s.txns, txn.sourceId) && EncodeUpTo(txn.events, |txn.events|).Ok?
    ensures NothingLost(Append(s, txn, cp).value, Record(l, AppendTxn(txn, cp)))
  {
    AppendStores(s, txn, cp);
    var s', l' := Append(s, txn, cp).value, Record(l, AppendTxn(txn, cp));
    var n := |s.txns|;
    assert s'.txns[n].sourceId == txn.sourceId && forall k :: 0 <= k < n ==> s'.txns[k] == s.txns[k];
    forall k | 0 <= k < |l'.log|
      ensures HasSource(s'.txns, l'.log[k].sourceId) || Behind(s'.coverageFrom, l'.log[k].committedAt)
    {
      if k < |l.log| {
        if HasSource(s.txns, l.log[k].sourceId) {
          var i :| 0 <= i < n && s.txns[i].sourceId == l.log[k].sourceId;
          assert s'.txns[i].sourceId == l.log[k].sourceId;
        }
      }
    }
    forall k | 0 <= k < |s'.txns| ensures Delivered(l'.log, s'.txns[k].sourceId) {
      if k < n {
        var i :| 0 <= i < |l.log| && l.log[i].sourceId == s.txns[k].sourceId;
        assert l'.log[i] == l.log[i];
      } else if !Delivered(l.log, txn.sourceId) {
        assert l'.log[|l.log|].sourceId == txn.sourceId;
      }
    }
  }

  lemma TimesStayLogged(s: State, l: Ledger, txn: Transaction, cp: Checkpoint)
    requires NothingLost(s, l) && TimesLogged(s, l) && OpOk(l, AppendTxn(txn, cp))
    requires !HasSource(s.txns, txn.sourceId) && EncodeUpTo(txn.events, |txn.events|).Ok?
    ensures TimesLogged(Append(s, txn, cp).value, Record(l, AppendTxn(txn, cp)))
  {
    AppendStores(s, txn, cp);
    var s', l' := Append(s, txn, cp).value, Record(l, AppendTxn(txn, cp));
    var n := |s.txns|;
    assert forall k :: 0 <= k < n ==> s'.txns[k] == s.txns[k];
    forall i, k | 0 <= i < |s'.txns| && 0 <= k < |l'.log| && s'.txns[i].sourceId == l'.log[k].sourceId
      ensures s'.txns[i].committedAt == l'.log[k].committedAt
    {
      if i < n {
        assert Delivered(l.log, s.txns[i].sourceId);
      }
    }
  }

  // ---------- Prunes ----------

  lemma {:induction false} ViewTimes(rows: seq<RowChange>, txns: seq<TxnRow>, n: nat)
    requires n <= |rows| && ViewUpTo(rows, txns, n).Ok?
    ensures forall i :: 0 <= i < |ViewUpTo(rows, txns, n).value| ==> ViewUpTo(rows, txns, n).value[i].event.at > 0
    decreases n
  {
    if n > 0 { ViewTimes(rows, txns, n - 1); }
  }

  lemma {:induction false} SinceAll(edge: int, entries: seq<Entry>)
    requires forall i :: 0 <= i < |entries| ==> entries[i].event.at >= edge
    ensures Since(edge, entries) == entries
    decreases |entries|
  {
    if entries != [] { SinceAll(edge, entries[..|entries| - 1]); }
  }

  lemma PrunedView(s: State, edge: int)
    requires TablesOk(s)
    ensures View(PruneAt(s, edge)).Ok?
    ensures EventsOf(View(PruneAt(s, edge)).value) == Matching(From(Some(edge)), EventsOf(View(s).value))
  {
    PruneKeepsRest(s, edge);
    if edge > 0 {
      SinceIsMatching(edge, View(s).value);
    } else {
      ViewTimes(s.rows, s.txns, |s.rows|);
      SinceAll(edge, View(s).value);
      MatchingAll(From(Some(edge)), EventsOf(View(s).value));
    }
  }

  lemma PruneKeepsReading(s: State, l: Ledger, edge: int)
    requires TablesOk(s) && ReadsAsLog(s, l)
    ensures ReadsAsLog(PruneAt(s, edge), l)
  {
    PrunedView(s, edge);
    var view, log := EventsOf(View(s).value), LogEvents(l.log);
    var f, old_, cut := From(PruneAt(s, edge).coverageFrom), From(s.coverageFrom), From(Some(edge));
    MatchingNarrows(f, cut, view);
    MatchingNarrows(f, old_, view);
    MatchingNarrows(f, old_, log);
  }

  lemma KeptAt(txns: seq<TxnRow>, edge: int, i: nat)
    requires i < |txns| && txns[i].committedAt >= edge
    ensures HasSource(KeptTxns(txns, edge), txns[i].sourceId)
  {
    var p := (t: TxnRow) => t.committedAt >= edge;
    KeepIs(p, txns);
    assert KeptTxns(txns, edge) == Keep(p, txns) && txns[i] in Keep(p, txns);
    var k :| 0 <= k < |Keep(p, txns)| && Keep(p, txns)[k] == txns[i];
  }

  lemma KeptComeFrom(txns: seq<TxnRow>, edge: int, k: nat) returns (i: nat)
    requires k < |KeptTxns(txns, edge)|
    ensures i < |txns| && txns[i] == KeptTxns(txns, edge)[k]
  {
    var p := (t: TxnRow) => t.committedAt >= edge;
    KeepIs(p, txns);
    assert KeptTxns(txns, edge) == Keep(p, txns);
    i :| 0 <= i < |txns| && txns[i] == Keep(p, txns)[k];
  }

  lemma PruneLosesNothing(s: State, l: Ledger, edge: int)
    requires NothingLost(s, l) && TimesLogged(s, l)
    ensures NothingLost(PruneAt(s, edge), l) && TimesLogged(PruneAt(s, edge), l)
  {
    var s' := PruneAt(s, edge);
    forall k | 0 <= k < |l.log|
      ensures HasSource(s'.txns, l.log[k].sourceId) || Behind(s'.coverageFrom, l.log[k].committedAt)
    {
      if HasSource(s.txns, l.log[k].sourceId) && !Behind(s'.coverageFrom, l.log[k].committedAt) {
        var i :| 0 <= i < |s.txns| && s.txns[i].sourceId == l.log[k].sourceId;
        KeptAt(s.txns, edge, i);
      }
    }
    forall k | 0 <= k < |s'.txns|
      ensures Delivered(l.log, s'.txns[k].sourceId)
      ensures forall j :: 0 <= j < |l.log| && s'.txns[k].sourceId == l.log[j].sourceId ==>
                s'.txns[k].committedAt == l.log[j].committedAt
    {
      var i := KeptComeFrom(s.txns, edge, k);
      assert Delivered(l.log, s.txns[i].sourceId);
    }
  }

  lemma PruneKeepsInv(s: State, l: Ledger, edge: int)
    requires Inv(s, l)
    ensures Inv(PruneAt(s, edge), l)
  {
    PruneKeepsRest(s, edge);
    PruneKeepsReading(s, l, edge);
    PruneLosesNothing(s, l, edge);
  }

  // ---------- Every step ----------

  lemma OpenKeepsInv(s: State, l: Ledger, when: Instant)
    requires Inv(s, l)
    ensures Inv(OpenCoverage(s, when), l)
  {
    if s.coverageFrom.None? {
      var view, log, f := EventsOf(View(s).value), LogEvents(l.log), From(Some(when));
      MatchingNarrows(f, From(None), view);
      MatchingNarrows(f, From(None), log);
    }
  }

  lemma SameTables(s: State, s': State, l: Ledger)
    requires Inv(s, l)
    requires s'.txns == s.txns && s'.rows == s.rows && s'.coverageFrom == s.coverageFrom
    ensures Inv(s', l)
  {
  }

  lemma SameLog(s: State, l: Ledger, l': Ledger)
    requires Inv(s, l) && l'.log == l.log
    ensures Inv(s, l')
  {
  }

  lemma StepKeepsInv(s: State, l: Ledger, op: StoreOp)
    requires Inv(s, l) && OpOk(l, op)
    ensures Inv(Apply(s, op), Record(l, op))
  {
    match op
    case AppendTxn(txn, cp) => AppendKeepsInv(s, l, txn, cp);
    case Opened(when) => OpenKeepsInv(s, l, when);
    case Pruned(now) => if Edge(s, now).Some? { PruneKeepsInv(s, l, Edge(s, now).value); }
    case _ =>
      SameTables(s, Apply(s, op), l);
      SameLog(Apply(s, op), l, Record(l, op));
  }

  /** Every logged transaction was delivered by some step. */
  lemma {:induction false} LogWasDelivered(ops: seq<StoreOp>, k: nat) returns (i: nat)
    requires k < |LedgerOf(ops).log|
    ensures i < |ops| && ops[i].AppendTxn? && ops[i].txn == LedgerOf(ops).log[k]
    decreases |ops|
  {
    if k < |LedgerOf(Init(ops)).log| { i := LogWasDelivered(Init(ops), k); } else { i := |ops| - 1; }
  }

  lemma LastIsOk(ops: seq<StoreOp>)
    requires Consistent(ops) && ops != []
    ensures OpOk(LedgerOf(Init(ops)), Last(ops))
  {
    var l, op := LedgerOf(Init(ops)), Last(ops);
    if op.AppendTxn? {
      forall k | 0 <= k < |l.log| && l.log[k].sourceId == op.txn.sourceId ensures l.log[k] == op.txn {
        var i := LogWasDelivered(Init(ops), k);
        assert ops[i].txn == l.log[k];
      }
    }
  }

  lemma {:induction false} InvAlwaysHolds(ops: seq<StoreOp>)
    requires Consistent(ops)
    ensures Inv(RunOf(ops), LedgerOf(ops))
    decreases |ops|
  {
    if ops != [] {
      InvAlwaysHolds(Init(ops));
      LastIsOk(ops);
      StepKeepsInv(RunOf(Init(ops)), LedgerOf(Init(ops)), Last(ops));
    }
  }

  // ---------- What the store may answer ----------

  /** Over every run, an accepted window with a stated start is answered with exactly
      the log of first deliveries filtered by that window, in source order. */
  lemma AnswerIsTheLog(ops: seq<StoreOp>, f: Filter, now: int)
    requires Consistent(ops) && f.from.Some?
    requires Judge(RunOf(ops), f, now).None?
    ensures Answer(RunOf(ops), f, now) == Ok(Matching(f, LogEvents(LedgerOf(ops).log)))
  {
    InvAlwaysHolds(ops);
    var s := RunOf(ops);
    var g := From(s.coverageFrom);
    MatchingNarrows(f, g, EventsOf(View(s).value));
    MatchingNarrows(f, g, LogEvents(LedgerOf(ops).log));
  }

  /** With no stated start the answer still agrees with the log from the lower edge on. */
  lemma AnswerFromTheEdge(ops: seq<StoreOp>, f: Filter, now: int)
    requires Consistent(ops) && Judge(RunOf(ops), f, now).None?
    ensures var r, edge := Answer(RunOf(ops), f, now), From(RunOf(ops).coverageFrom);
            r.Ok? && Matching(edge, r.value) == Matching(edge, Matching(f, LogEvents(LedgerOf(ops).log)))
  {
    InvAlwaysHolds(ops);
    var s := RunOf(ops);
    var g, view, log := From(s.coverageFrom), EventsOf(View(s).value), LogEvents(LedgerOf(ops).log);
    MatchingCommutes(f, g, view);
    MatchingCommutes(f, g, log);
  }

  lemma {:induction false} MatchingCommutes(f: Filter, g: Filter, evs: seq<Event>)
    ensures Matching(f, Matching(g, evs)) == Matching(g, Matching(f, evs))
    decreases |evs|
  {
    if evs != [] {
      var init, last := evs[..|evs| - 1], evs[|evs| - 1];
      MatchingCommutes(f, g, init);
      MatchingOneMore(f, Matching(g, init), last);
      MatchingOneMore(g, Matching(f, init), last);
    }
  }

  /** With no stated start the answer is exactly the log from the lower edge on, if and
      only if no matching change that the store reads lies behind the edge. */
  lemma AnswerUnstatedExactly(ops: seq<StoreOp>, f: Filter, now: int)
    requires Consistent(ops) && f.from.None? && Judge(RunOf(ops), f, now).None?
    ensures View(RunOf(ops)).Ok?
    ensures var s, edge := RunOf(ops), From(RunOf(ops).coverageFrom);
            Answer(s, f, now) == Ok(Matching(edge, Matching(f, LogEvents(LedgerOf(ops).log)))) <==>
            forall ev :: ev in Matching(f, EventsOf(View(s).value)) ==> Match(edge, ev)
  {
    InvAlwaysHolds(ops);
    AnswerFromTheEdge(ops, f, now);
    var s := RunOf(ops);
    var edge, answer := From(s.coverageFrom), Matching(f, EventsOf(View(s).value));
    MatchingAll(edge, answer);
    MatchingMatches(edge, answer);
  }

  lemma {:induction false} MatchingMatches(f: Filter, evs: seq<Event>)
    ensures forall ev :: ev in Matching(f, evs) ==> Match(f, ev)
    decreases |evs|
  {
    if evs != [] { MatchingMatches(f, evs[..|evs| - 1]); }
  }

  // ---------- Gaps and misses ----------

  lemma HolesStayKept(s: State, l: Ledger, s': State)
    requires HolesKept(s, l)
    requires s.gaps <= s'.gaps && s.misses <= s'.misses
    requires s.coverageFrom.Some? ==> s'.coverageFrom.Some? && s'.coverageFrom.value >= s.coverageFrom.value
    ensures HolesKept(s', l)
  {
  }

  lemma PruneKeepsHoles(s: State, l: Ledger, edge: int)
    requires HolesKept(s, l)
    ensures HolesKept(PruneAt(s, edge), l)
  {
    var p, q := (g: Gap) => g.to >= edge, (m: Instant) => m >= edge;
    KeepIs(p, s.gaps);
    KeepIs(q, s.misses);
    var s' := PruneAt(s, edge);
    assert s'.gaps == Keep(p, s.gaps) && s'.misses == Keep(q, s.misses);
  }

  lemma StepKeepsHoles(s: State, l: Ledger, op: StoreOp)
    requires HolesKept(s, l)
    ensures HolesKept(Apply(s, op), Record(l, op))
  {
    if op.Pruned? {
      if Edge(s, op.now).Some? { PruneKeepsHoles(s, l, Edge(s, op.now).value); }
    } else {
      HolesStayKept(s, l, Apply(s, op));
    }
  }

  lemma {:induction false} HolesAreAlwaysKept(ops: seq<StoreOp>)
    ensures HolesKept(RunOf(ops), LedgerOf(ops))
    decreases |ops|
  {
    if ops != [] {
      HolesAreAlwaysKept(Init(ops));
      StepKeepsHoles(RunOf(Init(ops)), LedgerOf(Init(ops)), Last(ops));
    }
  }

  /** Over every run, an accepted window holds no instant of a gap or miss that was
      ever recorded, not even of one that was since pruned. */
  lemma AcceptedWindowHasNoHoles(ops: seq<StoreOp>, f: Filter, now: int)
    requires Judge(RunOf(ops), f, now).None?
    ensures var (from, to) := WindowBounds(ReadCoverage(RunOf(ops)), f);
            forall t: int {:trigger Behind(Some(t), from)} :: from <= t <= to ==>
              && (forall k :: 0 <= k < |LedgerOf(ops).gaps| ==>
                 !(LedgerOf(ops).gaps[k].from <= t <= LedgerOf(ops).gaps[k].to))
              && (forall k :: 0 <= k < |LedgerOf(ops).misses| ==> LedgerOf(ops).misses[k] != t)
  {
    HolesAreAlwaysKept(ops);
    var s, l := RunOf(ops), LedgerOf(ops);
    var (from, to) := WindowBounds(ReadCoverage(s), f);
    forall k | 0 <= k < |l.gaps| ensures !Overlaps(l.gaps[k], from, to) {
      if l.gaps[k] in s.gaps { var i :| 0 <= i < |s.gaps| && s.gaps[i] == l.gaps[k]; }
    }
    forall k | 0 <= k < |l.misses| ensures !(from <= l.misses[k] <= to) {
      if l.misses[k] in s.misses { var i :| 0 <= i < |s.misses| && s.misses[i] == l.misses[k]; }
    }
  }

  /** An instant at which a miss was recorded lies in no accepted window. */
  lemma AcceptedHasNoMiss(ops: seq<StoreOp>, f: Filter, now: int)
    requires Judge(RunOf(ops), f, now).None?
    ensures forall t :: t in LedgerOf(ops).misses ==> !InWindow(RunOf(ops), f, t)
  {
    AcceptedWindowHasNoHoles(ops, f, now);
    var misses := LedgerOf(ops).misses;
    var (from, _) := WindowBounds(ReadCoverage(RunOf(ops)), f);
    forall t | t in misses ensures !InWindow(RunOf(ops), f, t) {
      var k :| 0 <= k < |misses| && misses[k] == t;
      assert Behind(Some(t), from) || !Behind(Some(t), from);
    }
  }

  // ---------- The edges ----------

  predicate NotBack(a: Option<int>, b: Option<int>) { a.Some? ==> b.Some? && a.value <= b.value }

  /** A step keeps a marked lower edge and the high-water mark from moving back. */
  lemma StepMovesForward(s: State, op: StoreOp)
    ensures NotBack(s.coverageFrom, Apply(s, op).coverageFrom) && NotBack(s.coverageTo, Apply(s, op).coverageTo)
  {
  }

  lemma {:induction false} EdgesMoveForward(ops: seq<StoreOp>, i: nat, j: nat)
    requires i <= j <= |ops|
    ensures NotBack(RunOf(ops[..i]).coverageFrom, RunOf(ops[..j]).coverageFrom)
    ensures NotBack(RunOf(ops[..i]).coverageTo, RunOf(ops[..j]).coverageTo)
    decreases j
  {
    if i < j {
      EdgesMoveForward(ops, i, j - 1);
      assert Init(ops[..j]) == ops[..j - 1];
      StepMovesForward(RunOf(ops[..j - 1]), ops[j - 1]);
    }
  }

  /** Once OpenCoverage has run, neither edge of the coverage ever moves back. */
  lemma CoverageNeverMovesBack(ops: seq<StoreOp>, marked: nat, i: nat, j: nat)
    requires marked < i <= j <= |ops| && ops[marked].Opened?
    ensures ReadCoverage(RunOf(ops[..i])).from <= ReadCoverage(RunOf(ops[..j])).from
    ensures NotBack(ReadCoverage(RunOf(ops[..i])).to, ReadCoverage(RunOf(ops[..j])).to)
  {
    MarkedAfter(ops[..i], marked);
    EdgesMoveForward(ops, i, j);
  }

  lemma {:induction false} EarliestIs(txns: seq<TxnRow>)
    ensures Earliest(txns).Some? <==> txns != []
    ensures Earliest(txns).Some? ==> Earliest(txns).value > 0
    decreases |txns|
  {
    if txns != [] { EarliestIs(txns[..|txns| - 1]); }
  }

  /** Exactly when pruning moves the lower edge back: on a store that was never
      opened, to a retention edge before the earliest change it holds. */
  lemma PruneMovesBackExactly(s: State, now: int)
    ensures ReadCoverage(Prune(s, now)).from < ReadCoverage(s).from <==>
            && s.coverageFrom.None? && s.txns != []
            && Edge(s, now).Some? && Edge(s, now).value < Earliest(s.txns).value
  {
    EarliestIs(s.txns);
  }

  lemma PruneKeepsLaterHoles(s: State, edge: int, from: int, to: int)
    requires from >= edge
    ensures (exists k :: 0 <= k < |s.gaps| && Overlaps(s.gaps[k], from, to)) ==>
            var gaps := PruneAt(s, edge).gaps; exists k :: 0 <= k < |gaps| && Overlaps(gaps[k], from, to)
    ensures (exists k :: 0 <= k < |s.misses| && from <= s.misses[k] <= to) ==>
            var misses := PruneAt(s, edge).misses; exists k :: 0 <= k < |misses| && from <= misses[k] <= to
  {
    var p, q := (g: Gap) => g.to >= edge, (m: Instant) => m >= edge;
    KeepIs(p, s.gaps);
    KeepIs(q, s.misses);
    var s' := PruneAt(s, edge);
    assert s'.gaps == Keep(p, s.gaps) && s'.misses == Keep(q, s.misses);
    if k :| 0 <= k < |s.gaps| && Overlaps(s.gaps[k], from, to) {
      assert s.gaps[k] in s'.gaps;
    }
    if k :| 0 <= k < |s.misses| && from <= s.misses[k] <= to {
      assert s.misses[k] in s'.misses;
    }
  }

  /** Pruning never turns a refused window with a stated start into an answered one,
      except in the one case where it moves the lower edge back. */
  lemma PruneAnswersNoMore(s: State, f: Filter, pruned: int, now: int)
    requires f.from.Some?
    requires Judge(s, f, now).Some? && Judge(Prune(s, pruned), f, now).None?
    ensures ReadCoverage(Prune(s, pruned)).from <= f.from.value < ReadCoverage(s).from
    ensures s.coverageFrom.None? && Judge(s, f, now) == Some(BeforeCoverage)
  {
    if Edge(s, pruned).Some? {
      var c := ReadCoverage(s);
      var edge := Edge(s, pruned).value;
      if f.from.value >= c.from && c.to.Some? {
        var (from, to) := WindowBounds(c, f);
        PruneKeepsLaterHoles(s, edge, from, to);
      }
    }
  }

  lemma PrunedHolesWereThere(s: State, edge: int, from: int, to: int)
    ensures var gaps := PruneAt(s, edge).gaps;
            (exists k :: 0 <= k < |gaps| && Overlaps(gaps[k], from, to)) ==>
              exists k :: 0 <= k < |s.gaps| && Overlaps(s.gaps[k], from, to)
    ensures var misses := PruneAt(s, edge).misses;
            (exists k :: 0 <= k < |misses| && from <= misses[k] <= to) ==>
              exists k :: 0 <= k < |s.misses| && from <= s.misses[k] <= to
  {
    var p, q := (g: Gap) => g.to >= edge, (m: Instant) => m >= edge;
    KeepIs(p, s.gaps);
    KeepIs(q, s.misses);
    var s' := PruneAt(s, edge);
    assert s'.gaps == Keep(p, s.gaps) && s'.misses == Keep(q, s.misses);
    if k :| 0 <= k < |s'.gaps| && Overlaps(s'.gaps[k], from, to) { assert s'.gaps[k] in s.gaps; }
    if k :| 0 <= k < |s'.misses| && from <= s'.misses[k] <= to { assert s'.misses[k] in s.misses; }
  }

  /** Where pruning moves the edge of a store back to at or before the start of a
      window, the window is judged as if there were no edge. */
  lemma PrunedIsUnbounded(s: State, f: Filter, pruned: int, now: int)
    requires f.from.Some? && s.coverageFrom.None? && Edge(s, pruned).Some? && Edge(s, pruned).value <= f.from.value
    ensures Judge(Prune(s, pruned), f, now).None? <==>
            CheckCoverage(ReadCoverage(s).(from := 0), f, now, s.gaps, s.misses).None?
  {
    if s.coverageTo.Some? {
      var edge := Edge(s, pruned).value;
      var (from, to) := WindowBounds(ReadCoverage(s), f);
      PruneKeepsLaterHoles(s, edge, from, to);
      PrunedHolesWereThere(s, edge, from, to);
    }
  }

  /** Exactly when pruning turns a refused window with a stated start into an answered
      one: on a store that was never opened, whose retention edge is at or before the
      window's start and whose earliest change is after it, when nothing else refuses. */
  lemma PruneAnswersExactly(s: State, f: Filter, pruned: int, now: int)
    requires f.from.Some?
    ensures Judge(s, f, now).Some? && Judge(Prune(s, pruned), f, now).None? <==>
            && s.coverageFrom.None? && s.txns != []
            && Edge(s, pruned).Some? && Edge(s, pruned).value <= f.from.value < Earliest(s.txns).value
            && CheckCoverage(ReadCoverage(s).(from := 0), f, now, s.gaps, s.misses).None?
  {
    EarliestIs(s.txns);
    if Judge(s, f, now).Some? && Judge(Prune(s, pruned), f, now).None? {
      PruneAnswersNoMore(s, f, pruned, now);
    }
    if s.coverageFrom.None? && Edge(s, pruned).Some? && Edge(s, pruned).value <= f.from.value {
      PrunedIsUnbounded(s, f, pruned, now);
    }
  }

  /** A store that was never opened and holds one transaction. */
  function NeverOpened(): State {
    EMPTY.(txns := [TxnRow(1, "t", 100, 0)], checkpoint := Some(Checkpoint("f", 1, "", 100)), coverageTo := Some(100),
           retention := Some(50), maxStaleness := Some(1000))
  }

  lemma NeverOpenedIsReached() returns (ops: seq<StoreOp>)
    ensures Consistent(ops) && RunOf(ops) == NeverOpened()
  {
    var txn, cp := Transaction("t", 100, 0, []), Checkpoint("f", 1, "", 100);
    ops := [AppendTxn(txn, cp)];
    assert Init(ops) == [] && RunOf([]) == EMPTY;
    AppendStores(EMPTY, txn, cp);
    var more := ops + [SetRetention(50)];
    RunConcat(ops, SetRetention(50));
    RunConcat(more, SetMaxStaleness(1000));
    ops := more + [SetMaxStaleness(1000)];
  }

  /** The case is real: a run reaches a store of which pruning makes a refused window
      an answered one. */
  lemma PruneMayAnswerMore() returns (ops: seq<StoreOp>, f: Filter, pruned: int, now: int)
    ensures Consistent(ops) && f.from.Some?
    ensures Judge(RunOf(ops), f, now) == Some(BeforeCoverage) && Judge(Prune(RunOf(ops), pruned), f, now).None?
  {
    ops := NeverOpenedIsReached();
    f, pruned, now := Filter([], Some(80), None), 120, 120;
    var s := NeverOpened();
    assert s.txns[..0] == [] && Earliest(s.txns) == Some(100);
    PruneAnswersExactly(s, f, pruned, now);
  }

  /** How far an operation says the collector has reached. */
  function ReachedBy(op: StoreOp): Option<int> {
    match op
    case AppendTxn(txn, _) => if EncodeUpTo(txn.events, |txn.events|).Ok? then Some(txn.committedAt) else None
    case Advanced(to) => Some(to)
    case _ => None
  }

  /** The high-water mark is the furthest any operation of the run reached, whatever
      order they came in, and there is none before the first. */
  lemma {:induction false} HighWaterIsTheFurthest(ops: seq<StoreOp>)
    ensures forall i :: 0 <= i < |ops| && ReachedBy(ops[i]).Some? ==>
              RunOf(ops).coverageTo.Some? && ReachedBy(ops[i]).value <= RunOf(ops).coverageTo.value
    ensures RunOf(ops).coverageTo.Some? ==> exists i :: 0 <= i < |ops| && ReachedBy(ops[i]) == RunOf(ops).coverageTo
    decreases |ops|
  {
    if ops != [] {
      var before, op := Init(ops), Last(ops);
      HighWaterIsTheFurthest(before);
      StepReaches(RunOf(before), op);
      assert ops[|ops| - 1] == op && forall i :: 0 <= i < |before| ==> ops[i] == before[i];
      if RunOf(ops).coverageTo == RunOf(before).coverageTo && RunOf(ops).coverageTo.Some? {
        var i :| 0 <= i < |before| && ReachedBy(before[i]) == RunOf(before).coverageTo;
        assert ReachedBy(ops[i]) == RunOf(ops).coverageTo;
      }
    }
  }

  lemma StepReaches(s: State, op: StoreOp)
    ensures Apply(s, op).coverageTo == if ReachedBy(op).Some? then Advance(s.coverageTo, ReachedBy(op).value)
            else s.coverageTo
  {
  }

  lemma {:induction false} MarkedAfter(ops: seq<StoreOp>, k: nat)
    requires k < |ops| && ops[k].Opened?
    ensures RunOf(ops).coverageFrom.Some?
    decreases |ops|
  {
    if k < |ops| - 1 {
      MarkedAfter(Init(ops), k);
      StepMovesForward(RunOf(Init(ops)), Last(ops));
    }
  }

  lemma MarkedStays(s: State, when: Instant)
    requires s.coverageFrom.Some?
    ensures Apply(s, Opened(when)) == s
  {
  }

  /** A store that was opened is not opened again: the boundary stays where it is. */
  lemma OpenedOnce(ops: seq<StoreOp>, k: nat, when: Instant)
    requires k < |ops| && ops[k].Opened?
    ensures RunOf(ops + [Opened(when)]) == RunOf(ops)
  {
    MarkedAfter(ops, k);
    MarkedStays(RunOf(ops), when);
    RunConcat(ops, Opened(when));
  }

  /** Exactly when a window is accepted: the collector is live, the stated bounds lie
      within what was covered, and no instant of the window is in a gap or a miss. */
  lemma AcceptedExactly(s: State, f: Filter, now: int)
    requires forall k :: 0 <= k < |s.gaps| ==> s.gaps[k].from <= s.gaps[k].to
    requires s.coverageTo.Some? ==> var (from, to) := WindowBounds(ReadCoverage(s), f); from <= to
    ensures Judge(s, f, now).None? <==>
            var c := ReadCoverage(s);
            && c.to.Some? && now <= c.to.value + c.maxStaleness
            && (f.from.Some? ==> c.from <= f.from.value)
            && (f.to.Some? ==> f.to.value <= c.to.value + c.maxStaleness)
            && var (from, to) := WindowBounds(c, f);
               forall t: int {:trigger InHole(s, t)} :: from <= t <= to ==> !InHole(s, t)
  {
    var c := ReadCoverage(s);
    if c.to.Some? {
      var (from, to) := WindowBounds(c, f);
      forall k | 0 <= k < |s.gaps| && Overlaps(s.gaps[k], from, to)
        ensures exists t: int :: from <= t <= to && InHole(s, t)
      {
        var t := if from <= s.gaps[k].from then s.gaps[k].from else from;
        assert from <= t <= to && InHole(s, t);
      }
      forall k | 0 <= k < |s.misses| && from <= s.misses[k] <= to
        ensures exists t: int :: from <= t <= to && InHole(s, t)
      {
        assert InHole(s, s.misses[k]);
      }
    }
  }

  /** An instant the store knows it did not record. */
  predicate InHole(s: State, t: int) {
    || (exists k :: 0 <= k < |s.gaps| && s.gaps[k].from <= t <= s.gaps[k].to)
    || (exists k :: 0 <= k < |s.misses| && s.misses[k] == t)
  }
}
