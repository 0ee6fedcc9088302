/** Every answer of the store refines a log of everything ever delivered to it. */
module StoreLog {
  import opened Wrappers
  import opened Sequences
  import opened Change
  import opened Storage
  import opened Store

  // ---------- Runs ----------

  datatype StoreOp =
    | AppendTxn(txn: Transaction, cp: Checkpoint)
    | Gapped(from: Instant, to: Instant)
    | Missed(at: Instant)
    | Advanced(to: Instant)
    | Opened(when: Instant)
    | Pruned(now: int)
    | SetRetention(seconds: int)
    | SetMaxStaleness(seconds: int)

  function Apply(s: State, op: StoreOp): State {
    match op
    case AppendTxn(txn, cp) => var r := Append(s, txn, cp); if r.Ok? then r.value else s
    case Gapped(from, to) => RecordGap(s, from, to)
    case Missed(at) => RecordMiss(s, at)
    case Advanced(to) => AdvanceCoverage(s, to)
    case Opened(when) => OpenCoverage(s, when)
    case Pruned(now) => Prune(s, now)
    case SetRetention(d) => s.(retention := Some(d))
    case SetMaxStaleness(d) => s.(maxStaleness := Some(d))
  }

  function RunOf(ops: seq<StoreOp>): State {
    if ops == [] then EMPTY else Apply(RunOf(Init(ops)), Last(ops))
  }

  /** Everything a run delivered: each transaction the first time the store accepted
      it, and every gap and miss, whatever was pruned since. */
  datatype Ledger = Ledger(log: seq<Transaction>, gaps: seq<Gap>, misses: seq<Instant>)

  predicate Delivered(log: seq<Transaction>, sourceId: Text) {
    exists k :: 0 <= k < |log| && log[k].sourceId == sourceId
  }

  function Record(l: Ledger, op: StoreOp): Ledger {
    match op
    case AppendTxn(txn, _) =>
      if EncodeUpTo(txn.events, |txn.events|).Err? || Delivered(l.log, txn.sourceId) then l
      else l.(log := l.log + [txn])
    case Gapped(from, to) => l.(gaps := l.gaps + [Gap(from, to)])
    case Missed(at) => l.(misses := l.misses + [at])
    case _ => l
  }

  function LedgerOf(ops: seq<StoreOp>): Ledger {
    if ops == [] then Ledger([], [], []) else Record(LedgerOf(Init(ops)), Last(ops))
  }

  lemma RunConcat(ops: seq<StoreOp>, op: StoreOp)
    ensures RunOf(ops + [op]) == Apply(RunOf(ops), op) && LedgerOf(ops + [op]) == Record(LedgerOf(ops), op)
  {
    assert Init(ops + [op]) == ops;
  }

  predicate Sized(txn: Transaction) { forall i :: 0 <= i < |txn.events| ==> SizedEvent(txn.events[i]) }

  /** A transaction delivered again is the same transaction. */
  predicate Consistent(ops: seq<StoreOp>) {
    && (forall i :: 0 <= i < |ops| && ops[i].AppendTxn? ==> Sized(ops[i].txn))
    && (forall i, j :: 0 <= i < j < |ops| && ops[i].AppendTxn? && ops[j].AppendTxn? ==>
          ops[i].txn.sourceId == ops[j].txn.sourceId ==> ops[i].txn == ops[j].txn)
  }

  /** A transaction's changes as the store gives them back. */
  function RestoredUpTo(txn: Transaction, n: nat): seq<Event>
    requires n <= |txn.events|
  {
    if n == 0 then [] else RestoredUpTo(txn, n - 1) + [Restored(txn.events[n - 1], txn.committedAt, txn.serverId)]
  }

  function RestoredAll(txn: Transaction): seq<Event> { RestoredUpTo(txn, |txn.events|) }

  function LogEvents(log: seq<Transaction>): seq<Event> {
    if log == [] then [] else LogEvents(Init(log)) + RestoredAll(Last(log))
  }

  // ---------- Filtering sequences ----------

  lemma {:induction false} MatchingConcat(f: Filter, a: seq<Event>, b: seq<Event>)
    ensures Matching(f, a + b) == Matching(f, a) + Matching(f, b)
    decreases |b|
  {
    if b == [] {
      assert a + b == a;
    } else {
      assert (a + b)[..|a + b| - 1] == a + b[..|b| - 1];
      MatchingConcat(f, a, b[..|b| - 1]);
    }
  }

  /** Filtering by a wider filter first changes nothing. */
  lemma {:induction false} MatchingNarrows(f: Filter, g: Filter, evs: seq<Event>)
    requires forall ev :: Match(f, ev) ==> Match(g, ev)
    ensures Matching(f, Matching(g, evs)) == Matching(f, evs)
    decreases |evs|
  {
    if evs != [] {
      var n := |evs| - 1;
      MatchingNarrows(f, g, evs[..n]);
      if Match(g, evs[n]) {
        MatchingConcat(f, Matching(g, evs[..n]), [evs[n]]);
        assert [evs[n]][..0] == [];
        assert Matching(f, [evs[n]]) == if Match(f, evs[n]) then [] + [evs[n]] else [];
      }
    }
  }

  lemma {:induction false} MatchingAll(f: Filter, evs: seq<Event>)
    ensures (forall i :: 0 <= i < |evs| ==> Match(f, evs[i])) ==> Matching(f, evs) == evs
    ensures (forall i :: 0 <= i < |evs| ==> !Match(f, evs[i])) ==> Matching(f, evs) == []
    decreases |evs|
  {
    if evs != [] {
      MatchingAll(f, evs[..|evs| - 1]);
    }
  }

  /** The events at or after an edge. */
  function From(edge: Option<int>): Filter {
    Filter([], if edge.Some? && edge.value > 0 then Some(edge.value) else None, None)
  }

  lemma {:induction false} RestoredTimes(txn: Transaction, n: nat)
    requires n <= |txn.events|
    ensures forall i :: 0 <= i < |RestoredUpTo(txn, n)| ==> RestoredUpTo(txn, n)[i].at == txn.committedAt
    decreases n
  {
    if n > 0 { RestoredTimes(txn, n - 1); }
  }

  // ---------- The tables ----------

  ghost predicate TxnsOk(txns: seq<TxnRow>) {
    && (forall i, j :: 0 <= i < j < |txns| ==> txns[i].id < txns[j].id)
    && (forall i, j :: 0 <= i < j < |txns| ==> txns[i].sourceId != txns[j].sourceId)
  }

  ghost predicate RowsOrdered(rows: seq<RowChange>) {
    forall i, j :: 0 <= i < j < |rows| ==> rows[i].id < rows[j].id
  }

  ghost predicate RowsJoined(rows: seq<RowChange>, txns: seq<TxnRow>) {
    forall i :: 0 <= i < |rows| ==> FindTxn(txns, rows[i].txnId).Some?
  }

  /** Ids are unique, every row has its transaction, and every row decodes. */
  ghost predicate TablesOk(s: State) {
    TxnsOk(s.txns) && RowsOrdered(s.rows) && RowsJoined(s.rows, s.txns) && View(s).Ok?
  }

  lemma {:induction false} FindFinds(txns: seq<TxnRow>, k: nat)
    requires k < |txns| && TxnsOk(txns)
    ensures FindTxn(txns, txns[k].id) == Some(txns[k])
    decreases |txns|
  {
    if k < |txns| - 1 { FindFinds(txns[..|txns| - 1], k); }
  }

  lemma FindAfterAppend(txns: seq<TxnRow>, t: TxnRow, id: nat)
    ensures FindTxn(txns + [t], id) == if t.id == id then Some(t) else FindTxn(txns, id)
  {
    assert (txns + [t])[..|txns|] == txns;
  }

  /** A new transaction does not change how earlier rows read. */
  lemma {:induction false} ViewKeepsOldRows(rows: seq<RowChange>, txns: seq<TxnRow>, t: TxnRow, n: nat)
    requires n <= |rows| && forall i :: 0 <= i < |rows| ==> rows[i].txnId != t.id
    ensures ViewUpTo(rows, txns + [t], n) == ViewUpTo(rows, txns, n)
    decreases n
  {
    if n > 0 {
      ViewKeepsOldRows(rows, txns, t, n - 1);
      FindAfterAppend(txns, t, rows[n - 1].txnId);
    }
  }

  lemma {:induction false} ViewOfPrefix(rows: seq<RowChange>, more: seq<RowChange>, txns: seq<TxnRow>, n: nat)
    requires n <= |rows|
    ensures ViewUpTo(rows + more, txns, n) == ViewUpTo(rows, txns, n)
    decreases n
  {
    if n > 0 { ViewOfPrefix(rows, more, txns, n - 1); }
  }

  /** What appending the first n rows of a transaction adds to the table and the view. */
  ghost predicate AddedRows(rows: seq<RowChange>, now: seq<RowChange>, txns: seq<TxnRow>, t: TxnRow, before: seq<Entry>,
                            added: seq<Event>) {
    && rows <= now && |now| == |rows| + |added|
    && (forall i :: |rows| <= i < |now| ==> now[i].txnId == t.id)
    && RowsOrdered(now)
    && ViewUpTo(now, txns, |now|).Ok?
    && var v := ViewUpTo(now, txns, |now|).value;
       |v| == |before| + |added| && EventsOf(v) == EventsOf(before) + added && v[..|before|] == before
  }

  lemma AddOneRow(rows: seq<RowChange>, now: seq<RowChange>, txns: seq<TxnRow>, t: TxnRow, before: seq<Entry>,
                  added: seq<Event>, r: RowChange, ev: Event)
    requires AddedRows(rows, now, txns, t, before, added)
    requires r.txnId == t.id && r.id == NextRowId(now) && FindTxn(txns, t.id) == Some(t)
    requires DecodeEvent(r.data, t.committedAt, t.serverId) == Ok(ev)
    ensures AddedRows(rows, now + [r], txns, t, before, added + [ev])
  {
    var now' := now + [r];
    ViewOfPrefix(now, [r], txns, |now|);
    var v, v' := ViewUpTo(now, txns, |now|).value, ViewUpTo(now', txns, |now'|).value;
    assert v' == v + [Entry(r.id, ev)];
    assert EventsOf(v') == EventsOf(v) + [ev];
    assert EventsOf(before) + (added + [ev]) == EventsOf(before) + added + [ev];
    assert v'[..|before|] == v[..|before|];
  }

  lemma {:induction false} EncodesEachEvent(events: seq<Event>, n: nat)
    requires n <= |events| && EncodeUpTo(events, n).Ok?
    ensures forall i :: 0 <= i < n ==> EncodeEvent(events[i]) == Ok(EncodeUpTo(events, n).value[i])
    decreases n
  {
    if n > 0 { EncodesEachEvent(events, n - 1); }
  }

  /** The stored forms of a transaction's changes, each reading back as its change. */
  ghost predicate ReadBack(txn: Transaction, data: seq<EncodedRow>) {
    && |data| == |txn.events|
    && forall i {:trigger data[i]} :: 0 <= i < |data| ==>
         DecodeEvent(data[i], txn.committedAt, txn.serverId) ==
           Ok(Restored(txn.events[i], txn.committedAt, txn.serverId))
  }

  lemma EncodedReadsBack(txn: Transaction)
    requires Sized(txn) && EncodeUpTo(txn.events, |txn.events|).Ok?
    ensures ReadBack(txn, EncodeUpTo(txn.events, |txn.events|).value)
  {
    EncodesEachEvent(txn.events, |txn.events|);
    forall i | 0 <= i < |txn.events|
      ensures var data := EncodeUpTo(txn.events, |txn.events|).value;
              DecodeEvent(data[i], txn.committedAt, txn.serverId) ==
                Ok(Restored(txn.events[i], txn.committedAt, txn.serverId))
    {
      EventReadsBack(txn.events[i], txn.committedAt, txn.serverId);
    }
  }

  lemma AddNextRow(rows: seq<RowChange>, txns: seq<TxnRow>, t: TxnRow, before: seq<Entry>, txn: Transaction,
                   data: seq<EncodedRow>, n: nat)
    requires 0 < n <= |data| && ReadBack(txn, data)
    requires FindTxn(txns, t.id) == Some(t) && t.committedAt == txn.committedAt && t.serverId == txn.serverId
    requires AddedRows(rows, AddRows(rows, t.id, data, n - 1), txns, t, before, RestoredUpTo(txn, n - 1))
    ensures AddedRows(rows, AddRows(rows, t.id, data, n), txns, t, before, RestoredUpTo(txn, n))
  {
    var now := AddRows(rows, t.id, data, n - 1);
    var ev := Restored(txn.events[n - 1], txn.committedAt, txn.serverId);
    AddOneRow(rows, now, txns, t, before, RestoredUpTo(txn, n - 1), RowChange(NextRowId(now), t.id, data[n - 1]), ev);
  }

  lemma {:induction false} AddRowsAdds(rows: seq<RowChange>, txns: seq<TxnRow>, t: TxnRow, before: seq<Entry>,
                                       txn: Transaction, data: seq<EncodedRow>, n: nat)
    requires n <= |data| && ReadBack(txn, data)
    requires FindTxn(txns, t.id) == Some(t) && t.committedAt == txn.committedAt && t.serverId == txn.serverId
    requires AddedRows(rows, rows, txns, t, before, [])
    ensures AddedRows(rows, AddRows(rows, t.id, data, n), txns, t, before, RestoredUpTo(txn, n))
    decreases n
  {
    if n > 0 {
      AddRowsAdds(rows, txns, t, before, txn, data, n - 1);
      AddNextRow(rows, txns, t, before, txn, data, n);
    }
  }

  /** Before anything is added: a new transaction changes nothing the store reads. */
  lemma NothingAddedYet(s: State, t: TxnRow)
    requires TablesOk(s) && t.id == NextTxnId(s.txns)
    ensures AddedRows(s.rows, s.rows, s.txns + [t], t, View(s).value, [])
  {
    forall i | 0 <= i < |s.rows| ensures s.rows[i].txnId != t.id {
      var found := FindTxn(s.txns, s.rows[i].txnId);
    }
    ViewKeepsOldRows(s.rows, s.txns, t, |s.rows|);
    var before := View(s).value;
    assert EventsOf(before) + [] == EventsOf(before);
  }

  lemma RowsFindTheirs(s: State, t: TxnRow, rows: seq<RowChange>)
    requires s.rows <= rows && forall i :: |s.rows| <= i < |rows| ==> rows[i].txnId == t.id
    requires forall i :: 0 <= i < |s.rows| ==> FindTxn(s.txns, s.rows[i].txnId).Some?
    ensures forall i :: 0 <= i < |rows| ==> FindTxn(s.txns + [t], rows[i].txnId).Some?
  {
    forall i | 0 <= i < |rows| ensures FindTxn(s.txns + [t], rows[i].txnId).Some? {
      FindAfterAppend(s.txns, t, rows[i].txnId);
      if i < |s.rows| { assert rows[i] == s.rows[i]; }
    }
  }

  lemma TxnsStayOrdered(txns: seq<TxnRow>, t: TxnRow)
    requires TxnsOk(txns) && t.id == NextTxnId(txns) && !HasSource(txns, t.sourceId)
    ensures TxnsOk(txns + [t])
  {
  }

  lemma AppendStores(s: State, txn: Transaction, cp: Checkpoint)
    requires EncodeUpTo(txn.events, |txn.events|).Ok?
    ensures Append(s, txn, cp).Ok?
    ensures var s', data := Append(s, txn, cp).value, EncodeUpTo(txn.events, |txn.events|).value;
            var id := NextTxnId(s.txns);
            && s' == s.(txns := s'.txns, rows := s'.rows, checkpoint := Some(cp),
                        coverageTo := Advance(s.coverageTo, txn.committedAt))
            && if HasSource(s.txns, txn.sourceId) then s'.txns == s.txns && s'.rows == s.rows
               else && s'.txns == s.txns + [TxnRow(id, txn.sourceId, txn.committedAt, txn.serverId)]
                    && s'.rows == AddRows(s.rows, id, data, |data|)
  {
  }

  lemma AddedTables(s: State, t: TxnRow, rows: seq<RowChange>, added: seq<Event>)
    requires TablesOk(s) && t.id == NextTxnId(s.txns) && !HasSource(s.txns, t.sourceId)
    requires AddedRows(s.rows, rows, s.txns + [t], t, View(s).value, added)
    ensures TxnsOk(s.txns + [t]) && RowsOrdered(rows) && RowsJoined(rows, s.txns + [t])
  {
    TxnsStayOrdered(s.txns, t);
    RowsFindTheirs(s, t, rows);
  }

  /** Storing a new transaction appends exactly its restored changes to what the store reads. */
  lemma NewTransaction(s: State, txn: Transaction, cp: Checkpoint)
    requires TablesOk(s) && Sized(txn) && !HasSource(s.txns, txn.sourceId)
    requires EncodeUpTo(txn.events, |txn.events|).Ok?
    ensures Append(s, txn, cp).Ok?
    ensures var s' := Append(s, txn, cp).value;
            TablesOk(s') && EventsOf(View(s').value) == EventsOf(View(s).value) + RestoredAll(txn)
            && |View(s).value| <= |View(s').value| && View(s').value[..|View(s).value|] == View(s).value
  {
    var data := EncodeUpTo(txn.events, |txn.events|).value;
    var t := TxnRow(NextTxnId(s.txns), txn.sourceId, txn.committedAt, txn.serverId);
    var rows := AddRows(s.rows, t.id, data, |data|);
    EncodedReadsBack(txn);
    FindAfterAppend(s.txns, t, t.id);
    NothingAddedYet(s, t);
    AddRowsAdds(s.rows, s.txns + [t], t, View(s).value, txn, data, |data|);
    AddedTables(s, t, rows, RestoredAll(txn));
    AppendStores(s, txn, cp);
  }

  // ---------- Pruning ----------

  lemma {:induction false} KeepIs<T>(p: T -> bool, xs: seq<T>)
    ensures forall k :: 0 <= k < |Keep(p, xs)| ==> Keep(p, xs)[k] in xs && p(Keep(p, xs)[k])
    ensures forall x :: x in xs && p(x) ==> x in Keep(p, xs)
    decreases |xs|
  {
    if xs != [] {
      KeepIs(p, xs[..|xs| - 1]);
      var kept := Keep(p, xs[..|xs| - 1]);
      forall x | x in xs && p(x) ensures x in Keep(p, xs) {
        if x in xs[..|xs| - 1] { assert x in kept; }
      }
    }
  }

  lemma TxnBeforeLast(txns: seq<TxnRow>, t: TxnRow)
    requires TxnsOk(txns) && txns != [] && t in Init(txns)
    ensures t.id < Last(txns).id && t.sourceId != Last(txns).sourceId
  {
    var i :| 0 <= i < |txns| - 1 && txns[i] == t;
  }

  lemma TxnAtEnd(kept: seq<TxnRow>, last: TxnRow)
    requires TxnsOk(kept) && forall t :: t in kept ==> t.id < last.id && t.sourceId != last.sourceId
    ensures TxnsOk(kept + [last])
  {
  }

  lemma {:induction false} KeepOrdersTxns(p: TxnRow -> bool, txns: seq<TxnRow>)
    requires TxnsOk(txns)
    ensures TxnsOk(Keep(p, txns))
    decreases |txns|
  {
    if txns != [] {
      var kept := Keep(p, Init(txns));
      KeepOrdersTxns(p, Init(txns));
      KeepIs(p, Init(txns));
      forall t | t in kept ensures t.id < Last(txns).id && t.sourceId != Last(txns).sourceId { TxnBeforeLast(txns, t); }
      TxnAtEnd(kept, Last(txns));
    }
  }

  lemma RowBeforeLast(rows: seq<RowChange>, r: RowChange)
    requires RowsOrdered(rows) && rows != [] && r in Init(rows)
    ensures r.id < Last(rows).id
  {
    var i :| 0 <= i < |rows| - 1 && rows[i] == r;
  }

  lemma RowAtEnd(kept: seq<RowChange>, last: RowChange)
    requires RowsOrdered(kept) && forall r :: r in kept ==> r.id < last.id
    ensures RowsOrdered(kept + [last])
  {
  }

  lemma {:induction false} KeepOrdersRows(p: RowChange -> bool, rows: seq<RowChange>)
    requires RowsOrdered(rows)
    ensures RowsOrdered(Keep(p, rows))
    decreases |rows|
  {
    if rows != [] {
      var kept := Keep(p, Init(rows));
      KeepOrdersRows(p, Init(rows));
      KeepIs(p, Init(rows));
      forall r | r in kept ensures r.id < Last(rows).id { RowBeforeLast(rows, r); }
      RowAtEnd(kept, Last(rows));
    }
  }

  lemma {:induction false} FindInKept(txns: seq<TxnRow>, edge: int, id: nat)
    requires TxnsOk(txns)
    ensures FindTxn(KeptTxns(txns, edge), id) ==
            var t := FindTxn(txns, id); if t.Some? && t.value.committedAt >= edge then t else None
    decreases |txns|
  {
    if txns != [] {
      var init, last := txns[..|txns| - 1], txns[|txns| - 1];
      FindInKept(init, edge, id);
      var kept := KeptTxns(init, edge);
      if last.committedAt >= edge {
        FindAfterAppend(kept, last, id);
      } else if last.id == id {
        var t := FindTxn(init, id);
      }
    }
  }

  /** The entries of transactions at or after an edge. */
  function Since(edge: int, entries: seq<Entry>): seq<Entry> { Keep((e: Entry) => e.event.at >= edge, entries) }

  predicate Stays(txns: seq<TxnRow>, edge: int, r: RowChange) {
    var t := FindTxn(txns, r.txnId);
    t.None? || t.value.committedAt >= edge
  }

  lemma KeptRowsStep(rows: seq<RowChange>, txns: seq<TxnRow>, edge: int, n: nat)
    requires 0 < n <= |rows|
    ensures KeptRows(rows[..n], txns, edge) ==
            KeptRows(rows[..n - 1], txns, edge) + if Stays(txns, edge, rows[n - 1]) then [rows[n - 1]] else []
  {
    assert rows[..n][..n - 1] == rows[..n - 1];
    var kept := KeptRows(rows[..n - 1], txns, edge);
    assert kept + [] == kept;
  }

  lemma SinceStep(edge: int, entries: seq<Entry>, e: Entry)
    ensures Since(edge, entries + [e]) == Since(edge, entries) + if e.event.at >= edge then [e] else []
  {
    assert (entries + [e])[..|entries|] == entries;
    assert Since(edge, entries) + [] == Since(edge, entries);
  }

  lemma ViewStep(rows: seq<RowChange>, txns: seq<TxnRow>, n: nat) returns (e: Entry)
    requires 0 < n <= |rows| && FindTxn(txns, rows[n - 1].txnId).Some? && ViewUpTo(rows, txns, n).Ok?
    ensures ViewUpTo(rows, txns, n - 1).Ok?
    ensures ViewUpTo(rows, txns, n).value == ViewUpTo(rows, txns, n - 1).value + [e]
    ensures e.event.at == FindTxn(txns, rows[n - 1].txnId).value.committedAt
    ensures ReadsAs(rows[n - 1], FindTxn(txns, rows[n - 1].txnId), e)
  {
    e := ViewUpTo(rows, txns, n).value[|ViewUpTo(rows, txns, n - 1).value|];
  }

  /** A row joined with a transaction reads as an entry. */
  predicate ReadsAs(r: RowChange, t: Option<TxnRow>, e: Entry) {
    t.Some? && e.id == r.id && DecodeEvent(r.data, t.value.committedAt, t.value.serverId) == Ok(e.event)
  }

  lemma ViewGrows(kept: seq<RowChange>, txns: seq<TxnRow>, r: RowChange, e: Entry)
    requires ViewUpTo(kept, txns, |kept|).Ok? && ReadsAs(r, FindTxn(txns, r.txnId), e)
    ensures ViewUpTo(kept + [r], txns, |kept + [r]|) == Ok(ViewUpTo(kept, txns, |kept|).value + [e])
  {
    ViewOfPrefix(kept, [r], txns, |kept|);
  }

  /** A row is kept together with what it reads as, or neither is. */
  lemma KeptGrows(kept: seq<RowChange>, txns: seq<TxnRow>, edge: int, r: RowChange, e: Entry, since: seq<Entry>)
    requires ReadsAs(r, FindTxn(txns, r.txnId), e) && e.event.at == FindTxn(txns, r.txnId).value.committedAt
    requires FindTxn(KeptTxns(txns, edge), r.txnId) == if e.event.at >= edge then FindTxn(txns, r.txnId) else None
    requires ViewUpTo(kept, KeptTxns(txns, edge), |kept|) == Ok(since)
    ensures var now := kept + if Stays(txns, edge, r) then [r] else [];
            ViewUpTo(now, KeptTxns(txns, edge), |now|) == Ok(since + if e.event.at >= edge then [e] else [])
  {
    if Stays(txns, edge, r) {
      ViewGrows(kept, KeptTxns(txns, edge), r, e);
    } else {
      assert kept + [] == kept && since + [] == since;
    }
  }

  lemma RowIsJoined(rows: seq<RowChange>, txns: seq<TxnRow>, i: nat)
    requires i < |rows| && RowsJoined(rows, txns)
    ensures FindTxn(txns, rows[i].txnId).Some?
  {
  }

  /** What is kept of the first n rows reads as what is recent of their view. */
  predicate KeptReadsAs(rows: seq<RowChange>, txns: seq<TxnRow>, edge: int, n: nat, view: seq<Entry>)
    requires n <= |rows|
  {
    var kept := KeptRows(rows[..n], txns, edge);
    ViewUpTo(kept, KeptTxns(txns, edge), |kept|) == Ok(Since(edge, view))
  }

  lemma OneMoreKept(rows: seq<RowChange>, txns: seq<TxnRow>, edge: int, n: nat, e: Entry, view: seq<Entry>)
    requires 0 < n <= |rows| && JoinedAt(rows, txns, edge, n - 1) && KeptReadsAs(rows, txns, edge, n - 1, view)
    requires ReadsAs(rows[n - 1], FindTxn(txns, rows[n - 1].txnId), e)
    requires e.event.at == FindTxn(txns, rows[n - 1].txnId).value.committedAt
    ensures KeptReadsAs(rows, txns, edge, n, view + [e])
  {
    KeptRowsStep(rows, txns, edge, n);
    SinceStep(edge, view, e);
    KeptGrows(KeptRows(rows[..n - 1], txns, edge), txns, edge, rows[n - 1], e, Since(edge, view));
  }

  lemma NothingKept(rows: seq<RowChange>, txns: seq<TxnRow>, edge: int)
    ensures KeptReadsAs(rows, txns, edge, 0, [])
  {
  }

  lemma ViewOfKept(rows: seq<RowChange>, txns: seq<TxnRow>, edge: int)
    requires TxnsOk(txns) && RowsJoined(rows, txns) && ViewUpTo(rows, txns, |rows|).Ok?
    ensures KeptReadsAs(rows, txns, edge, |rows|, ViewUpTo(rows, txns, |rows|).value)
  {
    forall i: nat | i < |rows| ensures JoinedAt(rows, txns, edge, i) { FindInKept(txns, edge, rows[i].txnId); }
    ViewOfKeptUpTo(rows, txns, edge, |rows|);
  }

  /** A row has its transaction, and keeps it exactly when that is recent. */
  ghost predicate JoinedAt(rows: seq<RowChange>, txns: seq<TxnRow>, edge: int, i: nat)
    requires i < |rows|
  {
    var t := FindTxn(txns, rows[i].txnId);
    t.Some? && FindTxn(KeptTxns(txns, edge), rows[i].txnId) == if t.value.committedAt >= edge then t else None
  }

  lemma {:induction false} ViewOfKeptUpTo(rows: seq<RowChange>, txns: seq<TxnRow>, edge: int, n: nat)
    requires n <= |rows| && ViewUpTo(rows, txns, n).Ok?
    requires forall i: nat {:trigger JoinedAt(rows, txns, edge, i)} :: i < |rows| ==> JoinedAt(rows, txns, edge, i)
    ensures KeptReadsAs(rows, txns, edge, n, ViewUpTo(rows, txns, n).value)
    decreases n
  {
    if n == 0 {
      NothingKept(rows, txns, edge);
    } else {
      assert JoinedAt(rows, txns, edge, n - 1);
      var e := ViewStep(rows, txns, n);
      ViewOfKeptUpTo(rows, txns, edge, n - 1);
      OneMoreKept(rows, txns, edge, n, e, ViewUpTo(rows, txns, n - 1).value);
    }
  }

  lemma KeptRowsAreOk(s: State, edge: int)
    requires TablesOk(s)
    ensures var rows := KeptRows(s.rows, s.txns, edge);
            RowsOrdered(rows) && forall i :: 0 <= i < |rows| ==> rows[i] in s.rows && Stays(s.txns, edge, rows[i])
  {
    var p := (r: RowChange) => var t := FindTxn(s.txns, r.txnId); t.None? || t.value.committedAt >= edge;
    KeepOrdersRows(p, s.rows);
    KeepIs(p, s.rows);
    assert KeptRows(s.rows, s.txns, edge) == Keep(p, s.rows);
  }

  lemma KeptRowsJoin(s: State, edge: int)
    requires TablesOk(s)
    ensures RowsJoined(KeptRows(s.rows, s.txns, edge), KeptTxns(s.txns, edge))
  {
    KeptRowsAreOk(s, edge);
    var rows := KeptRows(s.rows, s.txns, edge);
    forall i | 0 <= i < |rows| ensures FindTxn(KeptTxns(s.txns, edge), rows[i].txnId).Some? {
      var k :| 0 <= k < |s.rows| && s.rows[k] == rows[i];
      assert Stays(s.txns, edge, rows[i]);
      FindInKept(s.txns, edge, rows[i].txnId);
    }
  }

  /** Pruning removes from what the store reads exactly the changes behind the edge. */
  lemma PruneKeepsRest(s: State, edge: int)
    requires TablesOk(s)
    ensures TablesOk(PruneAt(s, edge)) && View(PruneAt(s, edge)) == Ok(Since(edge, View(s).value))
  {
    ViewOfKept(s.rows, s.txns, edge);
    assert s.rows[..|s.rows|] == s.rows;
    KeepOrdersTxns((t: TxnRow) => t.committedAt >= edge, s.txns);
    KeptRowsAreOk(s, edge);
    KeptRowsJoin(s, edge);
  }

  lemma {:induction false} SinceIsMatching(edge: int, entries: seq<Entry>)
    requires edge > 0
    ensures EventsOf(Since(edge, entries)) == Matching(From(Some(edge)), EventsOf(entries))
    decreases |entries|
  {
    if entries != [] {
      var n := |entries| - 1;
      SinceIsMatching(edge, entries[..n]);
      assert EventsOf(entries)[..n] == EventsOf(entries[..n]);
      var kept := Since(edge, entries[..n]);
      assert EventsOf(kept + [entries[n]]) == EventsOf(kept) + [entries[n].event];
    }
  }
}
