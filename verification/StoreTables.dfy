/** The store as the code runs it: tables it changes in place, one store transaction
    per method (internal/store/append.go, coverage.go, prune.go, page.go, integrity.go). */
module StoreTables {
  import opened Wrappers
  import opened Change
  import Codec
  import CodecReader
  import opened Storage
  import opened Store
  import opened Paging

  /** Why a visit of the stored changes stopped early. */
  datatype Stop<E> = ReadFailed(read: ReadError) | VisitFailed(error: E)

  /** Handing the matching changes of the first n rows to a visitor, newest first. */
  function Visit<S, E>(rows: seq<RowChange>, txns: seq<TxnRow>, f: Filter, visit: (S, Event) -> Result<S, E>, s: S,
                       n: nat)
    : (S, Option<Stop<E>>)
    requires n <= |rows|
  {
    if n == 0 then (s, None)
    else
      var (next, stop) := VisitRow(rows[n - 1], txns, f, visit, s);
      if stop.Some? then (next, stop) else Visit(rows, txns, f, visit, next, n - 1)
  }

  /** A row without its transaction, or outside the filter, is passed over. */
  function VisitRow<S, E>(row: RowChange, txns: seq<TxnRow>, f: Filter, visit: (S, Event) -> Result<S, E>, s: S)
    : (S, Option<Stop<E>>)
  {
    var t := FindTxn(txns, row.txnId);
    if t.None? then (s, None)
    else match DecodeEvent(row.data, t.value.committedAt, t.value.serverId)
      case Err(e) => (s, Some(ReadFailed(Corrupt(e))))
      case Ok(ev) =>
        if !Match(f, ev) then (s, None)
        else match visit(s, ev)
          case Err(e) => (s, Some(VisitFailed(e)))
          case Ok(next) => (next, None)
  }

  /** What EachEvent leaves: nothing is visited when coverage refuses the window. */
  function Each<S, E>(state: State, f: Filter, now: int, visit: (S, Event) -> Result<S, E>, s: S): (S, Option<Stop<E>>)
  {
    var refusal := Judge(state, f, now);
    if refusal.Some? then (s, Some(ReadFailed(Refused(refusal.value))))
    else Visit(state.rows, state.txns, f, visit, s, |state.rows|)
  }

  /** A row that does not decode fails every longer read. */
  lemma {:induction false} ViewStaysBroken(rows: seq<RowChange>, txns: seq<TxnRow>, m: nat, n: nat)
    requires m <= n <= |rows| && ViewUpTo(rows, txns, m).Err?
    ensures ViewUpTo(rows, txns, n) == ViewUpTo(rows, txns, m)
    decreases n
  {
    if m < n { ViewStaysBroken(rows, txns, m, n - 1); }
  }

  lemma {:induction false} EncodingStaysBroken(events: seq<Event>, m: nat, n: nat)
    requires m <= n <= |events| && EncodeUpTo(events, m).Err?
    ensures EncodeUpTo(events, n) == EncodeUpTo(events, m)
    decreases n
  {
    if m < n { EncodingStaysBroken(events, m, n - 1); }
  }

  method EncodedImage(row: Option<Row>) returns (r: Result<Option<seq<Codec.byte>>, Codec.Error>)
    ensures r == EncodeImage(row)
  {
    if row.None? { return Ok(None); }
    var b := CodecReader.EncodeRow(row.value);
    if b.Err? { return Err(b.error); }
    return Ok(Some(b.value));
  }

  method Encoded(ev: Event) returns (r: Result<EncodedRow, Codec.Error>)
    ensures r == EncodeEvent(ev)
  {
    var columns := CodecReader.EncodeColumns(ev.columns);
    if columns.Err? { return Err(columns.error); }
    var before := EncodedImage(ev.before);
    if before.Err? { return Err(before.error); }
    var after := EncodedImage(ev.after);
    if after.Err? { return Err(after.error); }
    return Ok(EncodedRow(ev.schema, ev.table, ev.op, ev.logFile, ev.logPos,
                         if ev.query == "" then None else Some(ev.query), columns.value, before.value, after.value));
  }

  method DecodedImage(b: Option<seq<Codec.byte>>) returns (r: Result<Option<Row>, Codec.Error>)
    ensures r == DecodeImage(b)
  {
    if b.None? { return Ok(None); }
    var row := CodecReader.DecodeRow(b.value);
    if row.Err? { return Err(row.error); }
    return Ok(Some(row.value));
  }

  method Decoded(row: EncodedRow, committedAt: int, serverId: Uint32) returns (r: Result<Event, Codec.Error>)
    ensures r == DecodeEvent(row, committedAt, serverId)
  {
    var columns := CodecReader.DecodeColumns(row.columns);
    if columns.Err? { return Err(columns.error); }
    var before := DecodedImage(row.before);
    if before.Err? { return Err(before.error); }
    var after := DecodedImage(row.after);
    if after.Err? { return Err(after.error); }
    return Ok(Event(row.schema, row.table, row.op, columns.value, before.value, after.value, row.logFile, row.logPos,
                    committedAt, serverId, if row.query.Some? then row.query.value else ""));
  }

  class Tables {
    var txns: seq<TxnRow>
    var rows: seq<RowChange>
    var gaps: seq<Gap>
    var misses: seq<Instant>
    var checkpoint: Option<Checkpoint>
    var coverageFrom: Option<int>
    var coverageTo: Option<int>
    var maxStaleness: Option<int>
    var retention: Option<int>

    constructor ()
      ensures State() == EMPTY
    {
      txns, rows, gaps, misses := [], [], [], [];
      checkpoint, coverageFrom, coverageTo, maxStaleness, retention := None, None, None, None, None;
    }

    function State(): State
      reads this
    {
      Store.State(txns, rows, gaps, misses, checkpoint, coverageFrom, coverageTo, maxStaleness, retention)
    }

    /** Everything is encoded before anything is written; a failed append changes nothing. */
    method AppendTransaction(txn: Transaction, cp: Checkpoint) returns (error: Option<Codec.Error>)
      modifies this
      ensures error.None? ==> Append(old(State()), txn, cp) == Ok(State())
      ensures error.Some? ==> Append(old(State()), txn, cp) == Err(error.value) && State() == old(State())
    {
      var data: seq<EncodedRow> := [];
      for i := 0 to |txn.events|
        invariant EncodeUpTo(txn.events, i) == Ok(data)
        invariant State() == old(State())
      {
        var enc := Encoded(txn.events[i]);
        if enc.Err? {
          EncodingStaysBroken(txn.events, i + 1, |txn.events|);
          return Some(enc.error);
        }
        data := data + [enc.value];
      }
      if !HasSource(txns, txn.sourceId) {
        var id := NextTxnId(txns);
        txns := txns + [TxnRow(id, txn.sourceId, txn.committedAt, txn.serverId)];
        for i := 0 to |data|
          invariant rows == AddRows(old(rows), id, data, i)
          invariant State() == old(State()).(txns := txns, rows := rows)
          invariant txns == old(txns) + [TxnRow(id, txn.sourceId, txn.committedAt, txn.serverId)]
        {
          rows := rows + [RowChange(NextRowId(rows), id, data[i])];
        }
      }
      checkpoint := Some(cp);
      coverageTo := Advance(coverageTo, txn.committedAt);
      return None;
    }

    method MarkOpen(when: Instant)
      modifies this`coverageFrom
      ensures State() == OpenCoverage(old(State()), when)
    {
      if coverageFrom.None? { coverageFrom := Some(when); }
    }

    method SetMaxStaleness(seconds: int)
      modifies this`maxStaleness
      ensures State() == old(State()).(maxStaleness := Some(seconds))
    {
      maxStaleness := Some(seconds);
    }

    method SetRetention(seconds: int)
      modifies this`retention
      ensures State() == old(State()).(retention := Some(seconds))
    {
      retention := Some(seconds);
    }

    method AddGap(from: Instant, to: Instant)
      modifies this`gaps
      ensures State() == RecordGap(old(State()), from, to)
    {
      gaps := gaps + [Gap(from, to)];
    }

    method AddMiss(at: Instant)
      modifies this`misses
      ensures State() == RecordMiss(old(State()), at)
    {
      misses := misses + [at];
    }

    method MoveHighWater(to: Instant)
      modifies this`coverageTo
      ensures State() == AdvanceCoverage(old(State()), to)
    {
      coverageTo := Advance(coverageTo, to);
    }

    /** Deletes what has left the retention window, rows with their transactions, and
        moves the lower edge in the same step. */
    method PruneTables(now: int) returns (removed: nat)
      modifies this
      ensures State() == Prune(old(State()), now)
      ensures removed == |old(txns)| - |txns|
    {
      if retention.None? || retention.value <= 0 { return 0; }
      var edge := now - retention.value;
      var kept := KeptTxns(txns, edge);
      KeptIsShorter((t: TxnRow) => t.committedAt >= edge, txns);
      removed := |txns| - |kept|;
      rows := KeptRows(rows, txns, edge);
      txns := kept;
      gaps := KeptGaps(gaps, edge);
      misses := KeptMisses(misses, edge);
      coverageFrom := Advance(coverageFrom, edge);
    }

    /** The stored changes a filter matches, in source order. */
    method Events(f: Filter, now: int) returns (r: Result<seq<Event>, ReadError>)
      ensures r == Answer(State(), f, now)
    {
      var refusal := Judge(State(), f, now);
      if refusal.Some? { return Err(Refused(refusal.value)); }
      var out: seq<Event> := [];
      var rows, txns := rows, txns;
      for i := 0 to |rows|
        invariant ViewUpTo(rows, txns, i).Ok? && out == Matching(f, EventsOf(ViewUpTo(rows, txns, i).value))
      {
        var t := FindTxn(txns, rows[i].txnId);
        RowMatched(rows, txns, f, i);
        if t.Some? {
          var ev := Decoded(rows[i].data, t.value.committedAt, t.value.serverId);
          if ev.Err? {
            return Err(Corrupt(ev.error));
          }
          if Match(f, ev.value) { out := out + [ev.value]; }
        }
      }
      return Ok(out);
    }

    /** Hands the matching changes to a visitor, newest first, without collecting them. */
    method EachEvent<S, E>(f: Filter, now: int, visit: (S, Event) -> Result<S, E>, start: S)
      returns (s: S, stop: Option<Stop<E>>)
      ensures (s, stop) == Each(State(), f, now, visit, start)
    {
      s := start;
      var refusal := Judge(State(), f, now);
      if refusal.Some? { return s, Some(ReadFailed(Refused(refusal.value))); }
      var i := |rows|;
      while i > 0
        invariant 0 <= i <= |rows|
        invariant Visit(rows, txns, f, visit, s, i) == Visit(rows, txns, f, visit, start, |rows|)
      {
        i := i - 1;
        var t := FindTxn(txns, rows[i].txnId);
        if t.Some? {
          var ev := Decoded(rows[i].data, t.value.committedAt, t.value.serverId);
          if ev.Err? { return s, Some(ReadFailed(Corrupt(ev.error))); }
          if Match(f, ev.value) {
            match visit(s, ev.value)
            case Err(e) => return s, Some(VisitFailed(e));
            case Ok(next) => s := next;
          }
        }
      }
      return s, None;
    }

    /** Up to limit matching changes past the cursor, newest first. */
    method ReadPage(f: Filter, before: int, limit: int, now: int) returns (r: Result<seq<Entry>, ReadError>)
      ensures r == Page(State(), f, before, limit, now)
    {
      var room := limit;
      if limit <= 0 {
        room := DEFAULT_PAGE_SIZE;
      } else if limit > MAX_PAGE_SIZE {
        room := MAX_PAGE_SIZE;
      }
      var refusal := Judge(State(), f, now);
      if refusal.Some? { return Err(Refused(refusal.value)); }
      var out: seq<Entry> := [];
      var rows, txns := rows, txns;
      var i := |rows|;
      ghost var whole := PageUpTo(rows, txns, f, before, room, |rows|);
      ghost var left: nat := room;
      AlreadyRead([], whole);
      while i > 0 && |out| < room
        invariant 0 <= i <= |rows| && |out| + left == room
        invariant whole == Extended(out, PageUpTo(rows, txns, f, before, left, i))
        decreases i
      {
        i := i - 1;
        var t := FindTxn(txns, rows[i].txnId);
        PageOn(rows, txns, f, before, left, i, out, whole);
        if t.Some? && (before == 0 || rows[i].id < before) {
          var ev := Decoded(rows[i].data, t.value.committedAt, t.value.serverId);
          if ev.Err? { return Err(Corrupt(ev.error)); }
          if Match(f, ev.value) {
            out := out + [Entry(rows[i].id, ev.value)];
            left := left - 1;
          }
        }
      }
      AlreadyRead(out, Ok([]));
      return Ok(out);
    }

    /** One page of the timeline, and the cursor of the next when this one is full. */
    method Changes(f: Filter, before: int, limit: int, now: int) returns (r: Result<ChangePage, ReadError>)
      ensures r == Reply(State(), f, before, limit, now)
    {
      var entries := ReadPage(f, before, limit, now);
      if entries.Err? { return Err(entries.error); }
      var page: seq<Entry> := [];
      for i := 0 to |entries.value|
        invariant page == entries.value[..i]
      {
        page := page + [entries.value[i]];
      }
      assert page == entries.value;
      var next: Option<nat> := None;
      if |page| > 0 && |page| == EffectiveLimit(limit) { next := Some(page[|page| - 1].id); }
      return Ok(ChangePage(page, next));
    }

    method CheckIntegrity() returns (problems: seq<Problem>)
      ensures problems == Problems(State())
    {
      problems := [];
      var rowless := 0;
      var stored := rows;
      for i := 0 to |txns|
        invariant rowless == |Keep((t: TxnRow) => !HasRow(stored, t.id), txns[..i])|
      {
        assert txns[..i + 1][..i] == txns[..i];
        if !HasRow(rows, txns[i].id) { rowless := rowless + 1; }
      }
      assert txns[..|txns|] == txns;
      if rowless > 0 { problems := problems + [TransactionsWithoutRows(rowless)]; }
      if Ahead(State()) { problems := problems + [CheckpointAhead]; }
    }
  }

  lemma {:induction false} KeptIsShorter<T>(p: T -> bool, xs: seq<T>)
    ensures |Keep(p, xs)| <= |xs|
    decreases |xs|
  {
    if xs != [] { KeptIsShorter(p, xs[..|xs| - 1]); }
  }

  lemma OneMoreMatched(f: Filter, entries: seq<Entry>, e: Entry)
    ensures Matching(f, EventsOf(entries + [e])) ==
            if Match(f, e.event) then Matching(f, EventsOf(entries)) + [e.event] else Matching(f, EventsOf(entries))
  {
    assert EventsOf(entries + [e])[..|entries|] == EventsOf(entries);
  }

  /** What one more row adds to the matching changes, or that it ends the read. */
  lemma RowMatched(rows: seq<RowChange>, txns: seq<TxnRow>, f: Filter, i: nat)
    requires i < |rows| && ViewUpTo(rows, txns, i).Ok?
    ensures var t, before, now := FindTxn(txns, rows[i].txnId), ViewUpTo(rows, txns, i).value,
            ViewUpTo(rows, txns, i + 1);
            if t.None? then now == Ok(before)
            else match DecodeEvent(rows[i].data, t.value.committedAt, t.value.serverId)
              case Err(e) => ViewUpTo(rows, txns, |rows|) == Err(e)
              case Ok(ev) =>
                now.Ok? && Matching(f, EventsOf(now.value)) ==
                           if Match(f, ev) then Matching(f, EventsOf(before)) + [ev] else Matching(f, EventsOf(before))
  {
    var t := FindTxn(txns, rows[i].txnId);
    if t.Some? {
      var ev := DecodeEvent(rows[i].data, t.value.committedAt, t.value.serverId);
      if ev.Err? {
        ViewStaysBroken(rows, txns, i + 1, |rows|);
      } else {
        OneMoreMatched(f, ViewUpTo(rows, txns, i).value, Entry(rows[i].id, ev.value));
      }
    }
  }

  /** A page whose first entries are already read. */
  function Extended(out: seq<Entry>, rest: Result<seq<Entry>, ReadError>): Result<seq<Entry>, ReadError> {
    if rest.Ok? then Ok(out + rest.value) else rest
  }

  /** What one more row, read after the newer ones, adds to a page. */
  lemma PageStep(rows: seq<RowChange>, txns: seq<TxnRow>, f: Filter, before: int, room: nat, i: nat)
    requires i < |rows| && room > 0
    ensures var t, rest := FindTxn(txns, rows[i].txnId), PageUpTo(rows, txns, f, before, room, i);
            PageUpTo(rows, txns, f, before, room, i + 1) ==
            if t.None? || !PastCursor(before, rows[i].id) then rest
            else match DecodeEvent(rows[i].data, t.value.committedAt, t.value.serverId)
              case Err(e) => Err(Corrupt(e))
              case Ok(ev) =>
                if Match(f, ev) then Extended([Entry(rows[i].id, ev)], PageUpTo(rows, txns, f, before, room - 1, i))
                  else rest
  {
  }

  /** The same, for a page whose first entries are already read. */
  lemma PageOn(rows: seq<RowChange>, txns: seq<TxnRow>, f: Filter, before: int, room: nat, i: nat,
               out: seq<Entry>, whole: Result<seq<Entry>, ReadError>)
    requires i < |rows| && room > 0 && whole == Extended(out, PageUpTo(rows, txns, f, before, room, i + 1))
    ensures var t, on := FindTxn(txns, rows[i].txnId), Extended(out, PageUpTo(rows, txns, f, before, room, i));
            if t.None? || !PastCursor(before, rows[i].id) then whole == on
            else match DecodeEvent(rows[i].data, t.value.committedAt, t.value.serverId)
              case Err(e) => whole == Err(Corrupt(e))
              case Ok(ev) =>
                if Match(f, ev) then whole ==
                  Extended(out + [Entry(rows[i].id, ev)], PageUpTo(rows, txns, f, before, room - 1, i))
                else whole == on
  {
    PageStep(rows, txns, f, before, room, i);
    var t := FindTxn(txns, rows[i].txnId);
    if t.Some? {
      var ev := DecodeEvent(rows[i].data, t.value.committedAt, t.value.serverId);
      if ev.Ok? { ExtendOne(out, Entry(rows[i].id, ev.value), PageUpTo(rows, txns, f, before, room - 1, i)); }
    }
  }

  lemma AlreadyRead(out: seq<Entry>, rest: Result<seq<Entry>, ReadError>)
    ensures Extended([], rest) == rest
    ensures Extended(out, Ok([])) == Ok(out)
  {
    if rest.Ok? { assert [] + rest.value == rest.value; }
    assert out + [] == out;
  }

  lemma ExtendOne(out: seq<Entry>, e: Entry, rest: Result<seq<Entry>, ReadError>)
    ensures Extended(out, Extended([e], rest)) == Extended(out + [e], rest)
  {
    if rest.Ok? { assert out + ([e] + rest.value) == out + [e] + rest.value; }
  }
}
