/** At-least-once delivery, unique identities and an atomic checkpoint together store
    every transaction of a log prefix exactly once. */
module ExactlyOnce {
  import opened Sequences
  import opened Wrappers
  import opened Change
  import opened Binlog
  import opened StoreLog
  import opened Collector
  import Assembler
  import Store
  import StoreRuns
  import Integrity

  // ---------- What a run of the store reached ----------

  /** Of a run, what matters here: what was first delivered, the misses, the checkpoint. */
  datatype Standing = Standing(log: seq<Transaction>, misses: seq<Instant>, checkpoint: Option<Checkpoint>)

  function Stand(st: Standing, op: StoreOp): Standing {
    match op
    case AppendTxn(txn, cp) =>
      if Store.EncodeUpTo(txn.events, |txn.events|).Err? then st
      else Standing(if Delivered(st.log, txn.sourceId) then st.log else st.log + [txn], st.misses, Some(cp))
    case Missed(at) => st.(misses := st.misses + [at])
    case _ => st
  }

  function StandingOf(ops: seq<StoreOp>): Standing {
    if ops == [] then Standing([], [], None) else Stand(StandingOf(Init(ops)), Last(ops))
  }

  lemma StepStands(s: Store.State, l: Ledger, op: StoreOp)
    ensures Standing(Record(l, op).log, Record(l, op).misses, Apply(s, op).checkpoint) ==
            Stand(Standing(l.log, l.misses, s.checkpoint), op)
  {
  }

  lemma {:induction false} StandingIs(ops: seq<StoreOp>)
    ensures StandingOf(ops) == Standing(LedgerOf(ops).log, LedgerOf(ops).misses, RunOf(ops).checkpoint)
    decreases |ops|
  {
    if ops != [] {
      StandingIs(Init(ops));
      StepStands(RunOf(Init(ops)), LedgerOf(Init(ops)), Last(ops));
    }
  }

  lemma StandConcat(ops: seq<StoreOp>, op: StoreOp)
    ensures StandingOf(ops + [op]) == Stand(StandingOf(ops), op)
  {
    assert Init(ops + [op]) == ops;
  }

  /** Every append is of what some item of the log should leave. */
  ghost predicate AppendsFromLog(c: Config, ops: seq<StoreOp>) {
    forall i :: 0 <= i < |ops| && ops[i].AppendTxn? ==> FromLog(c, ops[i])
  }

  ghost predicate FromLog(c: Config, op: StoreOp)
    requires op.AppendTxn?
  {
    exists p :: 0 <= p < Length(c) && Stored(c, p) == Some(op.txn) && CheckpointAt(c, p) == op.cp
  }

  /** The checkpoint stands after one of the first m events; with none, those leave nothing. */
  ghost predicate CheckpointWithin(c: Config, cp: Option<Checkpoint>, m: nat)
    requires m <= Length(c)
  {
    if cp.None? then StoredUpTo(c, m) == []
    else exists p :: 0 <= p < m && Stored(c, p).Some? && CheckpointAt(c, p) == cp.value
  }

  /** The miss that an event reports is recorded. */
  ghost predicate Noted(c: Config, misses: seq<Instant>, p: nat)
    requires p < Length(c)
  {
    var miss := Assembler.ReportedBy(EventAt(c, p));
    miss.Some? ==> miss.value in misses
  }

  ghost predicate NotedUpTo(c: Config, misses: seq<Instant>, m: nat)
    requires m <= Length(c)
  {
    forall p :: 0 <= p < m ==> Noted(c, misses, p)
  }

  /** The store was handed exactly what the first m events leave, each once and in order,
      and every miss they report; and its checkpoint lies within them. */
  ghost predicate HandedUpTo(c: Config, ops: seq<StoreOp>, m: nat) {
    && m <= Length(c)
    && StandingOf(ops).log == StoredUpTo(c, m)
    && NotedUpTo(c, StandingOf(ops).misses, m)
    && CheckpointWithin(c, StandingOf(ops).checkpoint, m)
  }

  ghost predicate HandedSome(c: Config, ops: seq<StoreOp>) { exists m :: HandedUpTo(c, ops, m) }

  /** So it is now, and so it was after every commit since the start. */
  ghost predicate Durable(c: Config, ops: seq<StoreOp>, base: nat) {
    && base <= |ops|
    && AppendsFromLog(c, ops)
    && forall n :: base <= n <= |ops| ==> HandedSome(c, ops[..n])
  }

  ghost predicate ReadWithin(c: Config, ops: seq<StoreOp>, at: nat) { exists m :: HandedUpTo(c, ops, m) && at <= m }

  ghost predicate WorldOk(c: Config, base: nat, w: World) {
    Durable(c, w.ops, base) && (w.conn.Some? ==> ConnOk(c, w.conn.value) && ReadWithin(c, w.ops, w.conn.value.at))
  }

  // ---------- Writes that append nothing ----------

  predicate NoAppend(ops: seq<StoreOp>) { forall i :: 0 <= i < |ops| ==> !ops[i].AppendTxn? }

  lemma {:induction false} NoAppendKeeps(ops: seq<StoreOp>, more: seq<StoreOp>)
    requires NoAppend(more)
    ensures StandingOf(ops + more).log == StandingOf(ops).log
    ensures StandingOf(ops + more).checkpoint == StandingOf(ops).checkpoint
    decreases |more|
  {
    if more == [] {
      assert ops + more == ops;
    } else {
      StandConcat(ops, more[0]);
      NoAppendKeeps(ops + [more[0]], more[1..]);
      assert ops + [more[0]] + more[1..] == ops + more;
    }
  }

  /** Whatever is written, no recorded miss goes, and every one written is recorded. */
  lemma {:induction false} MissesStay(ops: seq<StoreOp>, more: seq<StoreOp>)
    ensures forall t :: t in StandingOf(ops).misses ==> t in StandingOf(ops + more).misses
    ensures forall i :: 0 <= i < |more| && more[i].Missed? ==> more[i].at in StandingOf(ops + more).misses
    decreases |more|
  {
    if more == [] {
      assert ops + more == ops;
    } else {
      var op, rest := more[0], more[1..];
      StandConcat(ops, op);
      OneMiss(StandingOf(ops), op);
      MissesStay(ops + [op], rest);
      assert ops + [op] + rest == ops + more;
      forall i | 0 <= i < |more| && more[i].Missed? ensures more[i].at in StandingOf(ops + more).misses {
        if i > 0 { assert more[i] == rest[i - 1]; }
      }
    }
  }

  lemma OneMiss(st: Standing, op: StoreOp)
    ensures forall t :: t in st.misses ==> t in Stand(st, op).misses
    ensures op.Missed? ==> op.at in Stand(st, op).misses
  {
    if op.Missed? { assert Stand(st, op).misses[|st.misses|] == op.at; }
  }

  lemma NotedStays(c: Config, ops: seq<StoreOp>, more: seq<StoreOp>, m: nat)
    requires m <= Length(c) && NotedUpTo(c, StandingOf(ops).misses, m)
    ensures NotedUpTo(c, StandingOf(ops + more).misses, m)
  {
    MissesStay(ops, more);
    forall p | 0 <= p < m ensures Noted(c, StandingOf(ops + more).misses, p) {
      assert Noted(c, StandingOf(ops).misses, p);
    }
  }

  /** One more event noted. */
  lemma NotedNext(c: Config, misses: seq<Instant>, m: nat)
    requires m < Length(c) && NotedUpTo(c, misses, m) && Noted(c, misses, m)
    ensures NotedUpTo(c, misses, m + 1)
  {
  }

  lemma StillHanded(c: Config, ops: seq<StoreOp>, more: seq<StoreOp>, m: nat)
    requires HandedUpTo(c, ops, m) && NoAppend(more)
    ensures HandedUpTo(c, ops + more, m)
  {
    NoAppendKeeps(ops, more);
    NotedStays(c, ops, more, m);
  }

  lemma HandedNow(c: Config, base: nat, ops: seq<StoreOp>) returns (m: nat)
    requires Durable(c, ops, base)
    ensures HandedUpTo(c, ops, m)
  {
    assert ops[..|ops|] == ops;
    assert HandedSome(c, ops[..|ops|]);
    m :| HandedUpTo(c, ops, m);
  }

  lemma DurableGrows(c: Config, ops: seq<StoreOp>, base: nat, more: seq<StoreOp>)
    requires Durable(c, ops, base) && NoAppend(more)
    ensures Durable(c, ops + more, base)
  {
    forall n | base <= n <= |ops + more| ensures HandedSome(c, (ops + more)[..n]) {
      if n <= |ops| {
        assert (ops + more)[..n] == ops[..n];
      } else {
        var m := HandedNow(c, base, ops);
        StillHanded(c, ops, more[..n - |ops|], m);
        assert (ops + more)[..n] == ops + more[..n - |ops|];
      }
    }
  }

  // ---------- Appends ----------

  /** Storing what an event leaves: it extends the log when it comes next, and changes
      nothing in it when it was stored before. */
  lemma OneAppend(c: Config, ops: seq<StoreOp>, m: nat, p: nat)
    requires LogOk(c) && HandedUpTo(c, ops, m) && p <= m && p < Length(c) && Stored(c, p).Some?
    requires Store.EncodeUpTo(Stored(c, p).value.events, |Stored(c, p).value.events|).Ok?
    requires Noted(c, StandingOf(ops).misses, p)
    ensures HandedUpTo(c, ops + [AppendTxn(Stored(c, p).value, CheckpointAt(c, p))], if p == m then m + 1 else m)
  {
    var op := AppendTxn(Stored(c, p).value, CheckpointAt(c, p));
    StandConcat(ops, op);
    AppendFollows(c, m, p);
    if p == m { NotedNext(c, StandingOf(ops).misses, m); }
  }

  lemma AppendFollows(c: Config, m: nat, p: nat)
    requires LogOk(c) && p <= m <= Length(c) && p < Length(c) && Stored(c, p).Some?
    ensures p < m ==> Delivered(StoredUpTo(c, m), Stored(c, p).value.sourceId)
    ensures p == m ==> !Delivered(StoredUpTo(c, m), Stored(c, p).value.sourceId)
                       && StoredUpTo(c, m + 1) == StoredUpTo(c, m) + [Stored(c, p).value]
  {
    if p == m {
      NotYetDelivered(c, m);
      OneMoreStored(c, m + 1);
    } else {
      StoredIsIn(c, m, p);
    }
  }

  lemma DurableAppends(c: Config, ops: seq<StoreOp>, base: nat, op: StoreOp)
    requires Durable(c, ops, base) && op.AppendTxn? && FromLog(c, op) && HandedSome(c, ops + [op])
    ensures Durable(c, ops + [op], base)
  {
    forall n | base <= n <= |ops + [op]| ensures HandedSome(c, (ops + [op])[..n]) {
      if n <= |ops| { assert (ops + [op])[..n] == ops[..n]; } else { assert (ops + [op])[..n] == ops + [op]; }
    }
  }

  // ---------- Reading ----------

  /** What an event writes: nothing is appended, or what it should leave is, last, under
      its checkpoint. */
  ghost predicate WritesFor(c: Config, p: nat, ops: seq<StoreOp>)
    requires p < Length(c)
  {
    if Stored(c, p).Some? then
      && ops != [] && NoAppend(Init(ops))
      && Last(ops) == AppendTxn(Stored(c, p).value, CheckpointAt(c, p))
    else NoAppend(ops)
  }

  lemma WritesShape(c: Config, p: nat, gap: seq<StoreOp>, logFile: Text, out: Assembler.Outcome)
    requires p < Length(c) && NoAppend(gap)
    requires out.txn == CommittedAt(c, p) && (out.txn.Some? ==> logFile == FileOf(c, p))
    ensures WritesFor(c, p, gap + Writes(c.src, logFile, EventAt(c, p), out))
  {
    var ops := gap + Writes(c.src, logFile, EventAt(c, p), out);
    if Stored(c, p).Some? {
      var quiet := gap + if out.miss.Some? then [Missed(out.miss.value)] else [];
      var op := AppendTxn(Stored(c, p).value, CheckpointAt(c, p));
      assert ops == quiet + [op];
      assert Init(ops) == quiet;
    }
  }

  /** How an event that is not refused is met. */
  lemma ReactsWith(src: Source, asm: Assembler.State, gap: Option<Checkpoint>, e: Assembler.BinEvent)
    requires Assembler.Handle(src.isDdl, asm, e).1.Ok?
    ensures var r := Assembler.Handle(src.isDdl, asm, e);
            React(src, asm, gap, e) == Effect(r.0, GapBefore(gap, e) + Writes(src, r.0.logFile, e, r.1.value), false)
  {
  }

  /** Reading one event: it is not refused, it writes what it should, and leaves the
      assembler where reading goes on. */
  lemma ReadsEvent(c: Config, conn: Conn, gtid: Text) returns (after: Text)
    requires LogOk(c) && conn.at < Length(c) && LeftOver(c, gtid) && conn.asm == ReadUpTo(c, conn.at, gtid)
    ensures var eff := React(c.src, conn.asm, conn.gap, EventAt(c, conn.at));
            && !eff.refused && WritesFor(c, conn.at, eff.ops) && LeftOver(c, after)
            && (conn.at + 1 < Length(c) ==> eff.asm == ReadUpTo(c, conn.at + 1, after))
  {
    after := EventReports(c, conn.at, gtid);
    ReactsWith(c.src, conn.asm, conn.gap, EventAt(c, conn.at));
    var r := Assembler.Handle(c.src.isDdl, conn.asm, EventAt(c, conn.at));
    WritesShape(c, conn.at, GapBefore(conn.gap, EventAt(c, conn.at)), r.0.logFile, r.1.value);
  }

  lemma AppendedTxnEncodes(ops: seq<StoreOp>)
    requires ops != [] && Last(ops).AppendTxn? && Encodes(ops)
    ensures Store.EncodeUpTo(Last(ops).txn.events, |Last(ops).txn.events|).Ok?
  {
    assert ops[|ops| - 1].AppendTxn?;
  }

  /** The miss that the event at p reports is among these writes. */
  predicate Notes(c: Config, p: nat, ops: seq<StoreOp>)
    requires p < Length(c)
  {
    var miss := Assembler.ReportedBy(EventAt(c, p));
    miss.Some? ==> Missed(miss.value) in ops
  }

  lemma NotesEvent(c: Config, conn: Conn)
    requires conn.at < Length(c) && !React(c.src, conn.asm, conn.gap, EventAt(c, conn.at)).refused
    ensures Notes(c, conn.at, React(c.src, conn.asm, conn.gap, EventAt(c, conn.at)).ops)
  {
    var e := EventAt(c, conn.at);
    var eff := React(c.src, conn.asm, conn.gap, e);
    Assembler.HandleReports(c.src.isDdl, conn.asm, e);
    if Assembler.ReportedBy(e).Some? {
      assert eff.ops[|GapBefore(conn.gap, e)|] == Missed(Assembler.ReportedBy(e).value);
    }
  }

  lemma NotesAreNoted(c: Config, p: nat, ops: seq<StoreOp>, more: seq<StoreOp>)
    requires p < Length(c) && Notes(c, p, more)
    ensures Noted(c, StandingOf(ops + more).misses, p)
  {
    MissesStay(ops, more);
  }

  /** An event is met as it should be: it is not refused, and writes what it should. */
  ghost predicate WellMet(c: Config, at: nat, eff: Effect)
    requires at < Length(c)
  {
    exists gtid ::
      && LeftOver(c, gtid) && (at + 1 < Length(c) ==> eff.asm == ReadUpTo(c, at + 1, gtid))
      && !eff.refused && WritesFor(c, at, eff.ops) && Notes(c, at, eff.ops)
  }

  lemma EventMet(c: Config, conn: Conn, gtid: Text)
    requires LogOk(c) && conn.at < Length(c) && LeftOver(c, gtid) && conn.asm == ReadUpTo(c, conn.at, gtid)
    ensures WellMet(c, conn.at, React(c.src, conn.asm, conn.gap, EventAt(c, conn.at)))
  {
    var after := ReadsEvent(c, conn, gtid);
    NotesEvent(c, conn);
  }

  lemma EventRead(c: Config, base: nat, ops: seq<StoreOp>, at: nat, eff: Effect, next: World)
    requires LogOk(c) && Durable(c, ops, base) && ReadWithin(c, ops, at) && at < Length(c) && WellMet(c, at, eff)
    requires next == Met(ops, at, eff)
    ensures WorldOk(c, base, next)
  {
    var m :| HandedUpTo(c, ops, m) && at <= m;
    NotesAreNoted(c, at, ops, eff.ops);
    EventWritten(c, base, ops, m, at, eff.ops);
  }

  lemma ReadingStaysOk(c: Config, base: nat, w: World, next: World)
    requires LogOk(c) && WorldOk(c, base, w) && ReadsNext(c, w, next)
    ensures WorldOk(c, base, next)
  {
    var conn := w.conn.value;
    var gtid :| LeftOver(c, gtid) && conn.asm == ReadUpTo(c, conn.at, gtid);
    EventMet(c, conn, gtid);
    EventRead(c, base, w.ops, conn.at, React(c.src, conn.asm, conn.gap, EventAt(c, conn.at)), next);
  }

  lemma EventWritten(c: Config, base: nat, ops: seq<StoreOp>, m: nat, p: nat, more: seq<StoreOp>)
    requires LogOk(c) && Durable(c, ops, base) && HandedUpTo(c, ops, m) && p <= m && p < Length(c)
    requires Noted(c, StandingOf(ops + more).misses, p) && WritesFor(c, p, more)
    ensures Encodes(more) ==> Durable(c, ops + more, base) && ReadWithin(c, ops + more, p + 1)
    ensures !Encodes(more) ==> Durable(c, ops + more[..|more| - 1], base)
  {
    if Stored(c, p).None? {
      DurableGrows(c, ops, base, more);
      StillHanded(c, ops, more, m);
      EventPassed(c, ops + more, m, p);
    } else if Encodes(more) {
      AppendedTxnEncodes(more);
      AppendItem(c, base, ops, m, p, more);
    } else {
      DurableGrows(c, ops, base, Init(more));
    }
  }

  /** Past an event that leaves nothing, or whose commit was stored already. */
  lemma EventPassed(c: Config, ops: seq<StoreOp>, m: nat, p: nat)
    requires HandedUpTo(c, ops, m) && p <= m && p < Length(c) && Stored(c, p).None?
    requires Noted(c, StandingOf(ops).misses, p)
    ensures ReadWithin(c, ops, p + 1)
  {
    if p == m {
      NotedNext(c, StandingOf(ops).misses, m);
      OneMoreStored(c, m + 1);
      CheckpointStays(c, StandingOf(ops).checkpoint, m);
      assert HandedUpTo(c, ops, m + 1);
    }
  }

  lemma CheckpointStays(c: Config, cp: Option<Checkpoint>, m: nat)
    requires m < Length(c) && CheckpointWithin(c, cp, m) && StoredUpTo(c, m + 1) == StoredUpTo(c, m)
    ensures CheckpointWithin(c, cp, m + 1)
  {
    if cp.Some? {
      var i :| 0 <= i < m && Stored(c, i).Some? && CheckpointAt(c, i) == cp.value;
    }
  }

  lemma AppendKeepsMisses(ops: seq<StoreOp>, op: StoreOp)
    requires op.AppendTxn?
    ensures StandingOf(ops + [op]).misses == StandingOf(ops).misses
  {
    StandConcat(ops, op);
  }

  lemma Quieted(c: Config, base: nat, ops: seq<StoreOp>, m: nat, quiet: seq<StoreOp>, now: seq<StoreOp>)
    requires Durable(c, ops, base) && HandedUpTo(c, ops, m) && NoAppend(quiet) && now == ops + quiet
    ensures Durable(c, now, base) && HandedUpTo(c, now, m)
  {
    DurableGrows(c, ops, base, quiet);
    StillHanded(c, ops, quiet, m);
  }

  lemma AppendItem(c: Config, base: nat, ops: seq<StoreOp>, m: nat, p: nat, more: seq<StoreOp>)
    requires LogOk(c) && Durable(c, ops, base) && HandedUpTo(c, ops, m) && p <= m && p < Length(c) && Stored(c, p).Some?
    requires Store.EncodeUpTo(Stored(c, p).value.events, |Stored(c, p).value.events|).Ok? && WritesFor(c, p, more)
    requires Noted(c, StandingOf(ops + more).misses, p)
    ensures Durable(c, ops + more, base) && ReadWithin(c, ops + more, p + 1)
  {
    var quiet, op := Init(more), Last(more);
    var now := ops + quiet;
    LastApart(ops, more);
    AppendKeepsMisses(now, op);
    Quieted(c, base, ops, m, quiet, now);
    AppendLast(c, base, now, m, p);
  }

  lemma AppendLast(c: Config, base: nat, ops: seq<StoreOp>, m: nat, p: nat)
    requires LogOk(c) && Durable(c, ops, base) && HandedUpTo(c, ops, m) && p <= m && p < Length(c) && Stored(c, p).Some?
    requires Store.EncodeUpTo(Stored(c, p).value.events, |Stored(c, p).value.events|).Ok?
    requires Noted(c, StandingOf(ops).misses, p)
    ensures var op := AppendTxn(Stored(c, p).value, CheckpointAt(c, p));
            Durable(c, ops + [op], base) && ReadWithin(c, ops + [op], p + 1)
  {
    var op := AppendTxn(Stored(c, p).value, CheckpointAt(c, p));
    OneAppend(c, ops, m, p);
    var n := if p == m then m + 1 else m;
    assert HandedUpTo(c, ops + [op], n) && p + 1 <= n;
    assert FromLog(c, op);
    DurableAppends(c, ops, base, op);
  }

  // ---------- Every step ----------

  /** Whoever resumes at or before the checkpoint resumes within what was handed over. */
  lemma ResumesWithin(c: Config, ops: seq<StoreOp>, m: nat, n: nat)
    requires LogOk(c) && HandedUpTo(c, ops, m) && StandingOf(ops).checkpoint.Some?
    requires AtOrBefore(c, n, StandingOf(ops).checkpoint.value)
    ensures n <= m
  {
    var cp := StandingOf(ops).checkpoint.value;
    var i :| 0 <= i < m && Stored(c, i).Some? && CheckpointAt(c, i) == cp;
    var p :| 0 <= p < Length(c) && Stored(c, p).Some? && CheckpointAt(c, p) == cp && n <= p + 1;
    CheckpointsDiffer(c, i, p);
  }

  lemma AttachingStaysOk(c: Config, base: nat, w: World, next: World, n: nat)
    requires LogOk(c) && WorldOk(c, base, w) && Attaches(c, w, next, n)
    ensures WorldOk(c, base, next)
  {
    var m := HandedNow(c, base, w.ops);
    StandingIs(w.ops);
    ResumesWithin(c, w.ops, m, n);
    assert HandedUpTo(c, next.ops, m) && n <= m;
  }

  lemma AttachingAnewStaysOk(c: Config, base: nat, w: World, next: World)
    requires WorldOk(c, base, w) && AttachesAnew(c, w, next)
    ensures WorldOk(c, base, next)
  {
    var m := HandedNow(c, base, w.ops);
    StartIsResumable(c);
    assert HandedUpTo(c, next.ops, m) && 0 <= m;
  }

  lemma StartIsResumable(c: Config)
    ensures Resumable(c, 0)
  {
  }

  /** Rotates and heartbeats append nothing. */
  lemma IdleWrites(c: Config, conn: Conn, e: Assembler.BinEvent)
    requires e.body.Rotate? || e.body.Other?
    ensures var eff := React(c.src, conn.asm, conn.gap, e);
            !eff.refused && NoAppend(eff.ops)
            && eff.asm == if e.body.Rotate? then conn.asm.(logFile := e.body.next) else conn.asm
  {
  }

  lemma IdleStaysOk(c: Config, base: nat, w: World, next: World, e: Assembler.BinEvent)
    requires WorldOk(c, base, w) && w.conn.Some? && next.conn.Some? && (e.body.Rotate? || e.body.Other?)
    requires next.ops == w.ops + React(c.src, w.conn.value.asm, w.conn.value.gap, e).ops
    requires next.conn.value.at == w.conn.value.at && ConnOk(c, next.conn.value)
    ensures WorldOk(c, base, next)
  {
    var eff := React(c.src, w.conn.value.asm, w.conn.value.gap, e);
    IdleWrites(c, w.conn.value, e);
    DurableGrows(c, w.ops, base, eff.ops);
    var m :| HandedUpTo(c, w.ops, m) && w.conn.value.at <= m;
    StillHanded(c, w.ops, eff.ops, m);
  }

  lemma AnnouncingStaysOk(c: Config, base: nat, w: World, next: World, h: Assembler.Header)
    requires WorldOk(c, base, w) && Announces(c, w, next, h)
    ensures WorldOk(c, base, next)
  {
    var conn := next.conn.value;
    var e := Assembler.BinEvent(h, Assembler.Rotate(FileOf(c, conn.at)));
    IdleWrites(c, w.conn.value, e);
    assert conn.asm == Rest(FileOf(c, conn.at), "");
    if conn.at < Length(c) {
      if IsBoundary(c, conn.at) { RestIsReading(c, conn.at, ""); }
      assert LeftOver(c, "") && conn.asm == ReadUpTo(c, conn.at, "");
    }
    IdleStaysOk(c, base, w, next, e);
  }

  lemma RestIsReading(c: Config, p: nat, gtid: Text)
    requires p < Length(c) && IsBoundary(c, p)
    ensures ReadUpTo(c, p, gtid) == Rest(FileOf(c, p), gtid)
  {
  }

  lemma BeatingStaysOk(c: Config, base: nat, w: World, next: World, e: Assembler.BinEvent)
    requires WorldOk(c, base, w) && Beats(c, w, next, e)
    ensures WorldOk(c, base, next)
  {
    IdleWrites(c, w.conn.value, e);
    var conn := next.conn.value;
    if conn.at < Length(c) {
      var gtid :| LeftOver(c, gtid) && w.conn.value.asm == ReadUpTo(c, conn.at, gtid);
      if e.body.Rotate? { RestIsReading(c, conn.at, gtid); }
      assert conn.asm == ReadUpTo(c, conn.at, gtid);
    }
    IdleStaysOk(c, base, w, next, e);
  }

  lemma PowerLossStaysOk(c: Config, base: nat, w: World, next: World, k: nat)
    requires WorldOk(c, base, w) && LosesPower(w, next, base, k)
    ensures WorldOk(c, base, next)
  {
    forall n | base <= n <= k ensures HandedSome(c, next.ops[..n]) {
      assert next.ops[..n] == w.ops[..n];
    }
  }

  lemma MaintenanceStaysOk(c: Config, base: nat, w: World, next: World, op: StoreOp)
    requires WorldOk(c, base, w) && Maintains(w, next, op)
    ensures WorldOk(c, base, next)
  {
    DurableGrows(c, w.ops, base, [op]);
    if w.conn.Some? {
      var m :| HandedUpTo(c, w.ops, m) && w.conn.value.at <= m;
      StillHanded(c, w.ops, [op], m);
    }
  }

  lemma StepStaysOk(c: Config, base: nat, w: World, next: World)
    requires LogOk(c) && WorldOk(c, base, w) && Step(c, base, w, next)
    ensures WorldOk(c, base, next)
  {
    if ReadsNext(c, w, next) {
      ReadingStaysOk(c, base, w, next);
    } else if n: nat :| Attaches(c, w, next, n) {
      AttachingStaysOk(c, base, w, next, n);
    } else if AttachesAnew(c, w, next) {
      AttachingAnewStaysOk(c, base, w, next);
    } else if h :| Announces(c, w, next, h) {
      AnnouncingStaysOk(c, base, w, next, h);
    } else if e :| Beats(c, w, next, e) {
      BeatingStaysOk(c, base, w, next, e);
    } else if k: nat :| LosesPower(w, next, base, k) {
      PowerLossStaysOk(c, base, w, next, k);
    } else if op :| Maintains(w, next, op) {
      MaintenanceStaysOk(c, base, w, next, op);
    }
  }

  // ---------- Whole runs ----------

  /** A start: a store handed what some first events leave, with its checkpoint among
      them if it has one, and no connection. */
  ghost predicate Starts(c: Config, w: World) {
    w.conn.None? && AppendsFromLog(c, w.ops) && HandedSome(c, w.ops)
  }

  ghost predicate StepAt(c: Config, base: nat, worlds: seq<World>, i: nat)
    requires i + 1 < |worlds|
  {
    Step(c, base, worlds[i], worlds[i + 1])
  }

  /** Worlds, each a step from the one before. */
  ghost predicate IsTrace(c: Config, base: nat, worlds: seq<World>) {
    worlds != [] && forall i :: 0 <= i < |worlds| - 1 ==> StepAt(c, base, worlds, i)
  }

  ghost predicate IsRun(c: Config, worlds: seq<World>) {
    worlds != [] && Starts(c, worlds[0]) && IsTrace(c, |worlds[0].ops|, worlds)
  }

  lemma StartIsOk(c: Config, w: World)
    requires Starts(c, w)
    ensures WorldOk(c, |w.ops|, w)
  {
    assert w.ops[..|w.ops|] == w.ops;
  }

  lemma StepOfRun(c: Config, worlds: seq<World>, i: nat)
    requires IsRun(c, worlds) && i + 1 < |worlds|
    ensures Step(c, |worlds[0].ops|, worlds[i], worlds[i + 1])
  {
    assert StepAt(c, |worlds[0].ops|, worlds, i);
  }

  lemma NextStaysOk(c: Config, worlds: seq<World>, i: nat)
    requires LogOk(c) && IsRun(c, worlds) && i + 1 < |worlds| && WorldOk(c, |worlds[0].ops|, worlds[i])
    ensures WorldOk(c, |worlds[0].ops|, worlds[i + 1])
  {
    StepOfRun(c, worlds, i);
    StepStaysOk(c, |worlds[0].ops|, worlds[i], worlds[i + 1]);
  }

  lemma {:induction false} RunStaysOk(c: Config, worlds: seq<World>, i: nat)
    requires LogOk(c) && IsRun(c, worlds) && i < |worlds|
    ensures WorldOk(c, |worlds[0].ops|, worlds[i])
    decreases i
  {
    if i == 0 {
      StartIsOk(c, worlds[0]);
    } else {
      RunStaysOk(c, worlds, i - 1);
      NextStaysOk(c, worlds, i - 1);
    }
  }

  /** What is handed over again is the same transaction. */
  lemma RedeliveryIsConsistent(c: Config, ops: seq<StoreOp>)
    requires LogOk(c) && AppendsFromLog(c, ops)
    ensures Consistent(ops)
  {
    forall i | 0 <= i < |ops| && ops[i].AppendTxn? ensures Sized(ops[i].txn) {
      var k :| 0 <= k < Length(c) && Stored(c, k) == Some(ops[i].txn) && CheckpointAt(c, k) == ops[i].cp;
      assert FitsMemory(c, k);
    }
    forall i, j | 0 <= i < j < |ops| && ops[i].AppendTxn? && ops[j].AppendTxn?
      && ops[i].txn.sourceId == ops[j].txn.sourceId
      ensures ops[i].txn == ops[j].txn
    {
      var a :| 0 <= a < Length(c) && Stored(c, a) == Some(ops[i].txn) && CheckpointAt(c, a) == ops[i].cp;
      var b :| 0 <= b < Length(c) && Stored(c, b) == Some(ops[j].txn) && CheckpointAt(c, b) == ops[j].cp;
      IdentitiesDiffer(c, a, b);
    }
  }

  /** Over every run of reads, commits, rollbacks, disconnects, lagging resumes, lost
      commits, prunes and settings, the store was handed exactly the transactions that
      some prefix of the log commits and the filter keeps, each once and in log order;
      the prefix reaches past the checkpoint and past whatever the connection has read. */
  lemma ExactlyOncePrefix(c: Config, worlds: seq<World>, i: nat) returns (m: nat)
    requires LogOk(c) && IsRun(c, worlds) && i < |worlds|
    ensures m <= Length(c) && LedgerOf(worlds[i].ops).log == StoredUpTo(c, m)
    ensures CheckpointWithin(c, RunOf(worlds[i].ops).checkpoint, m)
    ensures worlds[i].conn.Some? ==> worlds[i].conn.value.at <= m
    ensures AllDiffer(LedgerOf(worlds[i].ops).log)
    ensures Consistent(worlds[i].ops)
    ensures NotedUpTo(c, LedgerOf(worlds[i].ops).misses, m)
  {
    RunStaysOk(c, worlds, i);
    m := HandedToWorld(c, |worlds[0].ops|, worlds[i]);
    StandingIs(worlds[i].ops);
    EachOnce(c, m);
    RedeliveryIsConsistent(c, worlds[i].ops);
  }

  lemma HandedToWorld(c: Config, base: nat, w: World) returns (m: nat)
    requires WorldOk(c, base, w)
    ensures HandedUpTo(c, w.ops, m) && (w.conn.Some? ==> w.conn.value.at <= m)
  {
    if w.conn.Some? {
      m :| HandedUpTo(c, w.ops, m) && w.conn.value.at <= m;
    } else {
      m := HandedNow(c, base, w.ops);
    }
  }

  /** So an accepted window with a stated start is answered with exactly the changes of
      a log prefix that lie in it. */
  lemma AnswersAreTheLogPrefix(c: Config, worlds: seq<World>, i: nat, f: Filter, now: int) returns (m: nat)
    requires LogOk(c) && IsRun(c, worlds) && i < |worlds| && f.from.Some?
    requires Store.Judge(RunOf(worlds[i].ops), f, now).None?
    ensures m <= Length(c) && CheckpointWithin(c, RunOf(worlds[i].ops).checkpoint, m)
    ensures worlds[i].conn.Some? ==> worlds[i].conn.value.at <= m
    ensures Store.Answer(RunOf(worlds[i].ops), f, now) == Ok(Matching(f, LogEvents(StoredUpTo(c, m))))
  {
    m := ExactlyOncePrefix(c, worlds, i);
    StoreRuns.AnswerIsTheLog(worlds[i].ops, f, now);
  }

  // ---------- Changes that could not be read ----------

  /** An unreadable change of an item that reports them all. */
  predicate IsReported(item: Item, j: nat) {
    item.Txn? && (item.wrap.None? || OneMissInstant(item.middle)) && j < |item.middle| && Unreadable(item.middle[j])
  }

  /** An unreadable change of an item that was read to its end. */
  ghost predicate IsRead(c: Config, m: nat, k: nat, j: nat) {
    k < |c.items| && First(c, k + 1) <= m && IsReported(c.items[k], j)
  }

  lemma UnreadableIsRecorded(c: Config, misses: seq<Instant>, m: nat, k: nat, j: nat)
    requires LogOk(c) && m <= Length(c) && NotedUpTo(c, misses, m) && IsRead(c, m, k, j)
    ensures Assembler.When(c.items[k].middle[j].header) in misses
  {
    ItemIsOk(c, k);
    ReportsAllExactly(c.src.isDdl, c.items[k]);
    ReportedIsRecorded(c, misses, m, k, Assembler.When(c.items[k].middle[j].header));
  }

  lemma ReportedIsRecorded(c: Config, misses: seq<Instant>, m: nat, k: nat, t: Instant)
    requires k < |c.items| && First(c, k + 1) <= m <= Length(c) && NotedUpTo(c, misses, m) && Reports(c.items[k], t)
    ensures t in misses
  {
    var item := c.items[k];
    Counts(item);
    var n: nat :| n < Count(item) && Assembler.ReportedBy(ItemEvents(item)[n]) == Some(t);
    SpotIs(c, k, n, First(c, k) + n);
    assert Noted(c, misses, First(c, k) + n);
  }

  /** Of the first m events, no change reported unreadable is in the window. */
  ghost predicate ReportedOutside(c: Config, m: nat, s: Store.State, f: Filter) {
    forall k: nat, j: nat :: IsRead(c, m, k, j) ==> !Store.InWindow(s, f, Assembler.When(c.items[k].middle[j].header))
  }

  /** A window that holds no miss holds no change that is recorded as one. */
  lemma NoMissNoChange(c: Config, misses: seq<Instant>, m: nat, s: Store.State, f: Filter)
    requires LogOk(c) && m <= Length(c) && NotedUpTo(c, misses, m)
    requires forall t :: t in misses ==> !Store.InWindow(s, f, t)
    ensures ReportedOutside(c, m, s, f)
  {
    forall k: nat, j: nat | IsRead(c, m, k, j)
      ensures !Store.InWindow(s, f, Assembler.When(c.items[k].middle[j].header))
    {
      UnreadableIsRecorded(c, misses, m, k, j);
    }
  }

  /** Over every run, each unreadable change of the stored prefix, in a transaction that
      is not wrapped or whose unreadable changes stand at one instant, is recorded as a
      miss; so no accepted window holds its instant, whatever was pruned since. */
  lemma UnreadableChangesAreRefused(c: Config, worlds: seq<World>, i: nat, f: Filter, now: int) returns (m: nat)
    requires LogOk(c) && IsRun(c, worlds) && i < |worlds|
    requires Store.Judge(RunOf(worlds[i].ops), f, now).None?
    ensures m <= Length(c) && LedgerOf(worlds[i].ops).log == StoredUpTo(c, m)
    ensures CheckpointWithin(c, RunOf(worlds[i].ops).checkpoint, m)
    ensures worlds[i].conn.Some? ==> worlds[i].conn.value.at <= m
    ensures ReportedOutside(c, m, RunOf(worlds[i].ops), f)
  {
    m := ExactlyOncePrefix(c, worlds, i);
    StoreRuns.AcceptedHasNoMiss(worlds[i].ops, f, now);
    NoMissNoChange(c, LedgerOf(worlds[i].ops).misses, m, RunOf(worlds[i].ops), f);
  }

  /** Where a payload loses a miss, a window on it is answered: with both misses recorded
      the window at 10 is refused, with the one the payload reports it is accepted. */
  lemma PayloadMayHideAMiss(isDdl: Text -> bool, ev: Event)
    returns (s: Assembler.State, e: Assembler.BinEvent, both: Store.State, f: Filter)
    ensures Assembler.Handle(isDdl, s, e).1.Ok? && Assembler.Handle(isDdl, s, e).1.value.txn.Some?
    ensures both.misses == Assembler.MissesAmong(Assembler.Leaves(e))
    ensures Store.Judge(both, f, 20) == Some(Store.InsideMiss)
    ensures Assembler.Handle(isDdl, s, e).1.value.miss.Some?
    ensures Store.Judge(both.(misses := [Assembler.Handle(isDdl, s, e).1.value.miss.value]), f, 20).None?
  {
    s, e := Assembler.PayloadMayLoseAMiss(isDdl, ev);
    both := Store.EMPTY.(misses := [10, 20], coverageFrom := Some(1), coverageTo := Some(20));
    f := Filter([], Some(10), Some(10));
    assert both.misses[0] == 10;
  }

  // ---------- Gaps ----------

  /** More was written, and no gap among it. */
  ghost predicate Grows(ops: seq<StoreOp>, now: seq<StoreOp>) {
    ops <= now && forall j :: |ops| <= j < |now| ==> !now[j].Gapped?
  }

  predicate NoGap(ops: seq<StoreOp>) { forall j :: 0 <= j < |ops| ==> !ops[j].Gapped? }

  lemma NothingGrows(ops: seq<StoreOp>)
    ensures Grows(ops, ops)
  {
  }

  lemma GrowsBy(ops: seq<StoreOp>, more: seq<StoreOp>)
    requires NoGap(more)
    ensures Grows(ops, ops + more)
    ensures more != [] ==> Grows(ops, ops + more[..|more| - 1])
  {
  }

  /** With no resume point pending, or for an event that carries no time, no gap is seen. */
  lemma ReactsWithoutGap(src: Source, asm: Assembler.State, gap: Option<Checkpoint>, e: Assembler.BinEvent)
    requires gap.None? || e.header.timestamp == 0
    ensures NoGap(React(src, asm, gap, e).ops)
  {
  }

  /** A step of the connection itself. */
  ghost predicate ConnectionStep(c: Config, w: World, next: World) {
    || (exists n: nat :: Attaches(c, w, next, n)) || AttachesAnew(c, w, next) || (exists h :: Announces(c, w, next, h))
    || (exists e :: Beats(c, w, next, e)) || ReadsNext(c, w, next)
  }

  lemma GapIsForgotten(c: Config, base: nat, w: World)
    requires WorldOk(c, base, w) && w.conn.Some? && w.conn.value.announced
    ensures w.conn.value.gap.None?
  {
  }

  lemma ReadsWithoutGap(c: Config, w: World, next: World)
    requires w.conn.Some? && w.conn.value.gap.None? && ReadsNext(c, w, next)
    ensures Grows(w.ops, next.ops)
  {
    var e := EventAt(c, w.conn.value.at);
    ReactsWithoutGap(c.src, w.conn.value.asm, None, e);
    GrowsBy(w.ops, React(c.src, w.conn.value.asm, None, e).ops);
  }

  lemma StepWithoutGap(c: Config, base: nat, w: World, next: World)
    requires WorldOk(c, base, w) && ConnectionStep(c, w, next)
    ensures Grows(w.ops, next.ops)
  {
    if w.conn.Some? && w.conn.value.announced { GapIsForgotten(c, base, w); }
    if n: nat :| Attaches(c, w, next, n) {
      NothingGrows(w.ops);
    } else if AttachesAnew(c, w, next) {
      NothingGrows(w.ops);
    } else if h :| Announces(c, w, next, h) {
      var e := Assembler.BinEvent(h, Assembler.Rotate(FileOf(c, w.conn.value.at)));
      ReactsWithoutGap(c.src, w.conn.value.asm, w.conn.value.gap, e);
      GrowsBy(w.ops, React(c.src, w.conn.value.asm, w.conn.value.gap, e).ops);
    } else if e :| Beats(c, w, next, e) {
      ReactsWithoutGap(c.src, w.conn.value.asm, None, e);
      GrowsBy(w.ops, React(c.src, w.conn.value.asm, None, e).ops);
    } else {
      ReadsWithoutGap(c, w, next);
    }
  }

  /** What a connection writes never holds a gap: the first event it reads is the opening
      rotate, which carries no time, and after that the resume point is forgotten. */
  lemma NoGapIsRecorded(c: Config, worlds: seq<World>, i: nat)
    requires LogOk(c) && IsRun(c, worlds) && i + 1 < |worlds| && ConnectionStep(c, worlds[i], worlds[i + 1])
    ensures Grows(worlds[i].ops, worlds[i + 1].ops)
  {
    RunStaysOk(c, worlds, i);
    StepWithoutGap(c, |worlds[0].ops|, worlds[i], worlds[i + 1]);
  }

  // ---------- The store's own checks ----------

  /** In every state a collector reaches, Integrity's two checks report nothing and no
      row is without its transaction. */
  lemma IntegrityHoldsThroughout(c: Config, worlds: seq<World>, i: nat)
    requires LogOk(c) && IsRun(c, worlds) && i < |worlds|
    ensures Store.Problems(RunOf(worlds[i].ops)) == []
    ensures RowsJoined(RunOf(worlds[i].ops).rows, RunOf(worlds[i].ops).txns)
  {
    RunStaysOk(c, worlds, i);
    var ops := worlds[i].ops;
    RedeliveryIsConsistent(c, ops);
    forall j | 0 <= j < |ops| ensures Integrity.ByCollector(ops[j]) {
      if ops[j].AppendTxn? {
        assert FromLog(c, ops[j]);
        var k :| 0 <= k < Length(c) && Stored(c, k) == Some(ops[j].txn) && CheckpointAt(c, k) == ops[j].cp;
      }
    }
    Integrity.IntegrityNeverReports(ops);
  }

  // ---------- The tables themselves, while nothing is pruned ----------

  predicate NeverPruned(ops: seq<StoreOp>) { forall i :: 0 <= i < |ops| ==> !ops[i].Pruned? }

  /** The tables hold the log: its transactions in order, and their changes in order. */
  ghost predicate TablesHold(s: Store.State, log: seq<Transaction>) {
    && |s.txns| == |log|
    && (forall k :: 0 <= k < |log| ==>
       s.txns[k].sourceId == log[k].sourceId && s.txns[k].committedAt == log[k].committedAt)
    && Store.View(s).Ok? && Store.EventsOf(Store.View(s).value) == LogEvents(log)
  }

  lemma SameIdentities(s: Store.State, log: seq<Transaction>, id: Text)
    requires TablesHold(s, log)
    ensures Store.HasSource(s.txns, id) <==> Delivered(log, id)
  {
    if Store.HasSource(s.txns, id) {
      var k :| 0 <= k < |s.txns| && s.txns[k].sourceId == id;
      assert log[k].sourceId == id;
    }
    if Delivered(log, id) {
      var k :| 0 <= k < |log| && log[k].sourceId == id;
      assert s.txns[k].sourceId == id;
    }
  }

  lemma NewHolds(s: Store.State, l: Ledger, txn: Transaction, cp: Checkpoint)
    requires TablesOk(s) && TablesHold(s, l.log) && Sized(txn) && !Store.HasSource(s.txns, txn.sourceId)
    requires Store.EncodeUpTo(txn.events, |txn.events|).Ok?
    ensures Store.Append(s, txn, cp).Ok? && TablesHold(Store.Append(s, txn, cp).value, l.log + [txn])
  {
    AppendStores(s, txn, cp);
    NewTransaction(s, txn, cp);
    StoreRuns.LogGrows(l.log, txn);
  }

  lemma OldHolds(s: Store.State, l: Ledger, txn: Transaction, cp: Checkpoint)
    requires TablesHold(s, l.log) && Store.HasSource(s.txns, txn.sourceId)
    requires Store.EncodeUpTo(txn.events, |txn.events|).Ok?
    ensures Store.Append(s, txn, cp).Ok? && TablesHold(Store.Append(s, txn, cp).value, l.log)
  {
    AppendStores(s, txn, cp);
  }

  lemma StepHolds(s: Store.State, l: Ledger, op: StoreOp)
    requires TablesOk(s) && TablesHold(s, l.log) && !op.Pruned? && (op.AppendTxn? ==> Sized(op.txn))
    ensures TablesHold(Apply(s, op), Record(l, op).log)
  {
    if op.AppendTxn? {
      if Store.EncodeUpTo(op.txn.events, |op.txn.events|).Ok? {
        SameIdentities(s, l.log, op.txn.sourceId);
        if Store.HasSource(s.txns, op.txn.sourceId) {
          OldHolds(s, l, op.txn, op.cp);
        } else {
          NewHolds(s, l, op.txn, op.cp);
        }
      }
    }
  }

  lemma {:induction false} UnprunedTablesHold(ops: seq<StoreOp>)
    requires Consistent(ops) && NeverPruned(ops)
    ensures TablesHold(RunOf(ops), LedgerOf(ops).log)
    decreases |ops|
  {
    if ops != [] {
      UnprunedTablesHold(Init(ops));
      StoreRuns.InvAlwaysHolds(Init(ops));
      StepHolds(RunOf(Init(ops)), LedgerOf(Init(ops)), Last(ops));
    }
  }

  /** While nothing is pruned, the tables hold exactly that prefix: each transaction
      once, in log order, with its changes. */
  lemma StoreHoldsThePrefix(c: Config, worlds: seq<World>, i: nat) returns (m: nat)
    requires LogOk(c) && IsRun(c, worlds) && i < |worlds| && NeverPruned(worlds[i].ops)
    ensures m <= Length(c) && CheckpointWithin(c, RunOf(worlds[i].ops).checkpoint, m)
    ensures worlds[i].conn.Some? ==> worlds[i].conn.value.at <= m
    ensures TablesHold(RunOf(worlds[i].ops), StoredUpTo(c, m))
  {
    m := ExactlyOncePrefix(c, worlds, i);
    UnprunedTablesHold(worlds[i].ops);
  }

  lemma SetUp(setup: seq<StoreOp>, op: StoreOp)
    requires NoAppend(setup) && op.AppendTxn? && Store.EncodeUpTo(op.txn.events, |op.txn.events|).Ok?
    ensures StandingOf(setup + [op]) == Standing([op.txn], StandingOf(setup).misses, Some(op.cp))
  {
    NoAppendKeeps([], setup);
    assert [] + setup == setup;
    StandConcat(setup, op);
  }

  lemma OnlyAppend(c: Config, setup: seq<StoreOp>, op: StoreOp)
    requires NoAppend(setup) && op.AppendTxn? && FromLog(c, op)
    ensures AppendsFromLog(c, setup + [op])
  {
  }

  lemma FirstStored(c: Config, p: nat)
    requires p < Length(c) && Stored(c, p).Some? && StoredUpTo(c, p) == []
    ensures StoredUpTo(c, p + 1) == [Stored(c, p).value]
  {
    OneMoreStored(c, p + 1);
  }

  /** The first commit makes a start, whatever was set up before it: a store that holds
      only what the first events leave, under its checkpoint. */
  lemma FirstCommitStarts(c: Config, setup: seq<StoreOp>, p: nat)
    requires NoAppend(setup) && p < Length(c) && Stored(c, p).Some? && StoredUpTo(c, p) == []
    requires NotedUpTo(c, StandingOf(setup).misses, p + 1)
    requires Store.EncodeUpTo(Stored(c, p).value.events, |Stored(c, p).value.events|).Ok?
    ensures Starts(c, World(setup + [AppendTxn(Stored(c, p).value, CheckpointAt(c, p))], None))
  {
    var op := AppendTxn(Stored(c, p).value, CheckpointAt(c, p));
    SetUp(setup, op);
    FirstStored(c, p);
    assert FromLog(c, op);
    OnlyAppend(c, setup, op);
    assert HandedUpTo(c, setup + [op], p + 1);
  }

  /** So does a store that holds nothing yet: its first stream is read from the start of
      the log. */
  lemma NothingStoredStarts(c: Config, setup: seq<StoreOp>)
    requires NoAppend(setup)
    ensures Starts(c, World(setup, None))
    ensures AttachesAnew(c, World(setup, None), World(setup, Some(Conn(0, false, Rest(c.first, ""), None))))
  {
    NoAppendKeeps([], setup);
    assert [] + setup == setup;
    StandingIs(setup);
    assert HandedUpTo(c, setup, 0);
  }
}
