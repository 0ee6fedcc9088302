/** The window store: its tables, what each operation does to them, and what it may
    answer (internal/store). One store transaction is one step. */
module Store {
  import opened Wrappers
  import opened Change
  import Codec
  import opened Storage

  datatype TxnRow = TxnRow(id: nat, sourceId: Text, committedAt: Instant, serverId: Uint32)

  datatype RowChange = RowChange(id: nat, txnId: nat, data: EncodedRow)

  datatype Gap = Gap(from: Instant, to: Instant)

  /** The tables, each in the order of its id, and the meta keys. */
  datatype State = State(
    txns: seq<TxnRow>,
    rows: seq<RowChange>,
    gaps: seq<Gap>,
    misses: seq<Instant>,
    checkpoint: Option<Checkpoint>,
    coverageFrom: Option<int>,
    coverageTo: Option<int>,
    maxStaleness: Option<int>,
    retention: Option<int>)

  const EMPTY := State([], [], [], [], None, None, None, None, None)

  function Keep<T>(p: T -> bool, xs: seq<T>): seq<T> {
    if xs == [] then []
    else
      var kept := Keep(p, xs[..|xs| - 1]);
      if p(xs[|xs| - 1]) then kept + [xs[|xs| - 1]] else kept
  }

  // ---------- Appending ----------

  /** An INTEGER PRIMARY KEY without AUTOINCREMENT: one more than the largest id. */
  function NextTxnId(txns: seq<TxnRow>): (id: nat)
    ensures id > 0 && forall k :: 0 <= k < |txns| ==> txns[k].id < id
  {
    if txns == [] then 1
    else
      var n := NextTxnId(txns[..|txns| - 1]);
      if txns[|txns| - 1].id >= n then txns[|txns| - 1].id + 1 else n
  }

  function NextRowId(rows: seq<RowChange>): (id: nat)
    ensures id > 0 && forall k :: 0 <= k < |rows| ==> rows[k].id < id
  {
    if rows == [] then 1
    else
      var n := NextRowId(rows[..|rows| - 1]);
      if rows[|rows| - 1].id >= n then rows[|rows| - 1].id + 1 else n
  }

  predicate HasSource(txns: seq<TxnRow>, sourceId: Text) {
    exists k :: 0 <= k < |txns| && txns[k].sourceId == sourceId
  }

  /** The encodings of the first n events. */
  function EncodeUpTo(events: seq<Event>, n: nat): (r: Result<seq<EncodedRow>, Codec.Error>)
    requires n <= |events|
    ensures r.Ok? ==> |r.value| == n
  {
    if n == 0 then Ok([])
    else
      var rest :- EncodeUpTo(events, n - 1);
      var e :- EncodeEvent(events[n - 1]);
      Ok(rest + [e])
  }

  function AddRows(rows: seq<RowChange>, txnId: nat, data: seq<EncodedRow>, n: nat): seq<RowChange>
    requires n <= |data|
  {
    if n == 0 then rows
    else
      var before := AddRows(rows, txnId, data, n - 1);
      before + [RowChange(NextRowId(before), txnId, data[n - 1])]
  }

  /** The high-water mark never moves back. */
  function Advance(to: Option<int>, when: int): Option<int> {
    if to.Some? && to.value >= when then to else Some(when)
  }

  /** A transaction already stored is accepted and stored once; the checkpoint and
      the high-water mark move with it either way. */
  function Append(s: State, txn: Transaction, cp: Checkpoint): Result<State, Codec.Error> {
    var data :- EncodeUpTo(txn.events, |txn.events|);
    var id := NextTxnId(s.txns);
    var stored := if HasSource(s.txns, txn.sourceId) then s
                  else s.(txns := s.txns + [TxnRow(id, txn.sourceId, txn.committedAt, txn.serverId)],
                          rows := AddRows(s.rows, id, data, |data|));
    Ok(stored.(checkpoint := Some(cp), coverageTo := Advance(s.coverageTo, txn.committedAt)))
  }

  // ---------- Coverage ----------

  function OpenCoverage(s: State, when: Instant): State {
    if s.coverageFrom.Some? then s else s.(coverageFrom := Some(when))
  }

  function RecordGap(s: State, from: Instant, to: Instant): State { s.(gaps := s.gaps + [Gap(from, to)]) }

  function RecordMiss(s: State, at: Instant): State { s.(misses := s.misses + [at]) }

  function AdvanceCoverage(s: State, to: Instant): State { s.(coverageTo := Advance(s.coverageTo, to)) }

  /** The period a store can answer for; from is 0 when there is no lower bound. */
  datatype Coverage = Coverage(from: nat, to: Option<int>, maxStaleness: int)

  const DEFAULT_MAX_STALENESS := 300

  function Earliest(txns: seq<TxnRow>): Option<int> {
    if txns == [] then None
    else
      var e := Earliest(txns[..|txns| - 1]);
      var t: int := txns[|txns| - 1].committedAt;
      if e.Some? && e.value <= t then e else Some(t)
  }

  /** A store that was never opened covers from the earliest change it holds. */
  function ReadCoverage(s: State): Coverage {
    var earliest := Earliest(s.txns);
    var from := if s.coverageFrom.Some? then s.coverageFrom.value else if earliest.Some? then earliest.value else 0;
    Coverage(if from > 0 then from else 0, s.coverageTo,
             if s.maxStaleness.Some? then s.maxStaleness.value else DEFAULT_MAX_STALENESS)
  }

  datatype Refusal = NothingRecorded | Stale | BeforeCoverage | AfterCoverage | InsideGap | InsideMiss

  /** An unset bound is the store's own edge. */
  function WindowBounds(c: Coverage, f: Filter): (int, int)
    requires c.to.Some?
  {
    (if f.from.Some? then f.from.value else c.from, if f.to.Some? then f.to.value else c.to.value)
  }

  /** An instant lies in the window a question is about. */
  predicate InWindow(s: State, f: Filter, t: int) {
    ReadCoverage(s).to.Some? && var (from, to) := WindowBounds(ReadCoverage(s), f); from <= t <= to
  }

  predicate Overlaps(g: Gap, from: int, to: int) { from <= g.to && g.from <= to }

  function CheckCoverage(c: Coverage, f: Filter, now: int, gaps: seq<Gap>, misses: seq<Instant>): Option<Refusal> {
    if c.to.None? then Some(NothingRecorded)
    else if now - c.to.value > c.maxStaleness then Some(Stale)
    else if f.from.Some? && f.from.value < c.from then Some(BeforeCoverage)
    else if f.to.Some? && f.to.value > c.to.value + c.maxStaleness then Some(AfterCoverage)
    else
      var (from, to) := WindowBounds(c, f);
      if exists k :: 0 <= k < |gaps| && Overlaps(gaps[k], from, to) then Some(InsideGap)
      else if exists k :: 0 <= k < |misses| && from <= misses[k] <= to then Some(InsideMiss)
      else None
  }

  /** Whether the store answers for a window at a moment, or why not. */
  function Judge(s: State, f: Filter, now: int): Option<Refusal> {
    CheckCoverage(ReadCoverage(s), f, now, s.gaps, s.misses)
  }

  // ---------- Reading ----------

  datatype Entry = Entry(id: nat, event: Event)

  datatype ReadError = Refused(refusal: Refusal) | Corrupt(error: Codec.Error)

  function FindTxn(txns: seq<TxnRow>, id: nat): (t: Option<TxnRow>)
    ensures t.Some? ==> t.value in txns && t.value.id == id
  {
    if txns == [] then None
    else if txns[|txns| - 1].id == id then Some(txns[|txns| - 1])
    else FindTxn(txns[..|txns| - 1], id)
  }

  /** The first n rows joined with their transactions and decoded, in id order. */
  function ViewUpTo(rows: seq<RowChange>, txns: seq<TxnRow>, n: nat): Result<seq<Entry>, Codec.Error>
    requires n <= |rows|
  {
    if n == 0 then Ok([])
    else
      var before :- ViewUpTo(rows, txns, n - 1);
      var t := FindTxn(txns, rows[n - 1].txnId);
      if t.None? then Ok(before)
      else
        var ev :- DecodeEvent(rows[n - 1].data, t.value.committedAt, t.value.serverId);
        Ok(before + [Entry(rows[n - 1].id, ev)])
  }

  function View(s: State): Result<seq<Entry>, Codec.Error> { ViewUpTo(s.rows, s.txns, |s.rows|) }

  function EventsOf(entries: seq<Entry>): seq<Event> {
    seq(|entries|, i requires 0 <= i < |entries| => entries[i].event)
  }

  /** What Events returns: the changes a filter matches, in source order, or a refusal. */
  function Answer(s: State, f: Filter, now: int): Result<seq<Event>, ReadError> {
    var refusal := Judge(s, f, now);
    if refusal.Some? then Err(Refused(refusal.value))
    else match View(s)
      case Ok(entries) => Ok(Matching(f, EventsOf(entries)))
      case Err(e) => Err(Corrupt(e))
  }

  // ---------- Pruning ----------

  /** The retention edge at a moment, when a retention is set. */
  function Edge(s: State, now: int): Option<int> {
    if s.retention.Some? && s.retention.value > 0 then Some(now - s.retention.value) else None
  }

  function KeptTxns(txns: seq<TxnRow>, edge: int): seq<TxnRow> { Keep((t: TxnRow) => t.committedAt >= edge, txns) }

  /** Deleting a transaction deletes its rows. */
  function KeptRows(rows: seq<RowChange>, txns: seq<TxnRow>, edge: int): seq<RowChange> {
    Keep((r: RowChange) => var t := FindTxn(txns, r.txnId); t.None? || t.value.committedAt >= edge, rows)
  }

  function KeptGaps(gaps: seq<Gap>, edge: int): seq<Gap> { Keep((g: Gap) => g.to >= edge, gaps) }

  function KeptMisses(misses: seq<Instant>, edge: int): seq<Instant> { Keep((m: Instant) => m >= edge, misses) }

  /** Deletions and the lower edge move together, the edge only forwards. */
  function PruneAt(s: State, edge: int): State {
    s.(txns := KeptTxns(s.txns, edge),
       rows := KeptRows(s.rows, s.txns, edge),
       gaps := KeptGaps(s.gaps, edge),
       misses := KeptMisses(s.misses, edge),
       coverageFrom := Advance(s.coverageFrom, edge))
  }

  function Prune(s: State, now: int): State {
    if Edge(s, now).Some? then PruneAt(s, Edge(s, now).value) else s
  }

  // ---------- Integrity ----------

  datatype Problem = TransactionsWithoutRows(count: nat) | CheckpointAhead

  predicate HasRow(rows: seq<RowChange>, id: nat) { exists k :: 0 <= k < |rows| && rows[k].txnId == id }

  function Rowless(s: State): seq<TxnRow> { Keep((t: TxnRow) => !HasRow(s.rows, t.id), s.txns) }

  function Newest(txns: seq<TxnRow>): Option<int> {
    if txns == [] then None
    else
      var e := Newest(txns[..|txns| - 1]);
      var t: int := txns[|txns| - 1].committedAt;
      if e.Some? && e.value >= t then e else Some(t)
  }

  predicate Ahead(s: State) {
    s.checkpoint.Some? && Newest(s.txns).Some? && s.checkpoint.value.updatedAt > Newest(s.txns).value
  }

  /** The two invariants Integrity checks on the tables. */
  function Problems(s: State): seq<Problem> {
    (if |Rowless(s)| > 0 then [TransactionsWithoutRows(|Rowless(s)|)] else [])
      + (if Ahead(s) then [CheckpointAhead] else [])
  }
}
