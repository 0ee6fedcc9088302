/** Logs, runs and databases that show what is assumed can be met, and what the code does
    where it promises less. */
module Witness {
  import opened Wrappers
  import opened Sequences
  import opened Change
  import opened Binlog
  import opened StoreLog
  import opened Collector
  import opened ExactlyOnce
  import opened Streaming
  import opened Database
  import opened Separate
  import opened Recovery
  import Assembler
  import CodecProps
  import Literal
  import StatementText
  import StoreRuns
  import ReadOnly
  import Storage
  import Store

  // ---------- A table made and filled ----------

  /** What one statement logs that makes a table and fills it: a schema change and a row
      change in one transaction. */
  function HeaderAt(pos: Uint32): Assembler.Header { Assembler.Header(1, 1, pos, 1) }

  function Made(): Assembler.BinEvent { Assembler.BinEvent(HeaderAt(1), Assembler.Query("s", "d", "")) }

  const ROW: Row := [Int(W64, 1)]

  function Filling(): Event { Event("s", "t", Op.Insert, [Column("a", true, false)], None, Some(ROW), "", 0, 1, 0, "") }

  function Filled(): Assembler.BinEvent { Assembler.BinEvent(HeaderAt(2), Assembler.Rows(Some([Filling()]))) }

  function Ended(): Assembler.BinEvent { Assembler.BinEvent(HeaderAt(3), Assembler.Xid("")) }

  const SRC := Source(q => q == "d", Filter([], None, None), map[])

  /** The schema change and the row change as they are committed under a GTID, or none. */
  function MadeTxn(gtid: Text): Transaction { SchemaAt("f", gtid, Made()) }

  function FilledTxn(gtid: Text): Transaction {
    Transaction(Identity("f", gtid, HeaderAt(3)), 1, 1, [Filling().(logFile := "f", logPos := 2, serverId := 1)])
  }

  const AFTER_MADE := Checkpoint("f", 1, "", 1)
  const AFTER_END := Checkpoint("f", 3, "", 1)

  lemma DdlIsKnown()
    ensures IsKind(SRC.isDdl, Made(), Assembler.Ddl)
  {
    assert Change.Upper("d") == "D" && Change.Trim("d") == "d";
  }

  lemma CollectsAsIs(txn: Transaction)
    ensures Collected(SRC, txn) == txn
  {
    var all := Collected(SRC, txn).events;
    forall i | 0 <= i < |txn.events| ensures all[i] == txn.events[i] {
      assert all[i].columns == txn.events[i].columns;
    }
    assert all == txn.events;
  }

  // ---------- How the code takes it ----------

  function HoldingRow(gtid: Text): Assembler.State { Partway("f", gtid, [Filled()], 1) }

  lemma MadeReacts(gtid: Text)
    ensures React(SRC, Rest("f", gtid), None, Made()) ==
            Effect(Rest("f", gtid), [AppendTxn(MadeTxn(gtid), AFTER_MADE)], false)
  {
    DdlIsKnown();
    CollectsAsIs(MadeTxn(gtid));
    assert Assembler.Handle(SRC.isDdl, Rest("f", gtid), Made()) ==
           (Rest("f", gtid), Ok(Assembler.Outcome(Some(MadeTxn(gtid)), None, 0)));
  }

  lemma FilledIs()
    ensures ChangesUpTo("f", [Filled()], 1) == [Filling().(logFile := "f", logPos := 2, serverId := 1)]
    ensures LastRows([Filled()], 1) == Some(HeaderAt(2)) && QueryAt([Filled()], 1) == ""
  {
    assert ChangesUpTo("f", [Filled()], 0) == [] && QueryAt([Filled()], 0) == "";
  }

  lemma FilledReacts(gtid: Text)
    ensures React(SRC, Rest("f", gtid), None, Filled()) == Effect(HoldingRow(gtid), [], false)
  {
    MiddleStep(SRC.isDdl, "f", gtid, [Filled()], 0);
    assert Partway("f", gtid, [Filled()], 0) == Rest("f", gtid);
    assert Assembler.Handle(SRC.isDdl, Rest("f", gtid), Filled()).1 == Ok(Assembler.NOTHING);
  }

  lemma EndReacts(gtid: Text)
    ensures React(SRC, HoldingRow(gtid), None, Ended()) ==
            Effect(Rest("f", ""), [AppendTxn(FilledTxn(gtid), AFTER_END)], false)
  {
    FilledIs();
    CollectsAsIs(FilledTxn(gtid));
    assert Assembler.Handle(SRC.isDdl, HoldingRow(gtid), Ended()) ==
           (Rest("f", ""), Ok(Assembler.Outcome(Some(FilledTxn(gtid)), None, 0)));
  }

  lemma MadeEncodes(gtid: Text)
    ensures Sized(MadeTxn(gtid)) && Store.EncodeUpTo(MadeTxn(gtid).events, |MadeTxn(gtid).events|).Ok?
  {
    assert Store.EncodeUpTo(MadeTxn(gtid).events, 0) == Ok([]);
  }

  lemma FilledEncodes(gtid: Text)
    ensures Sized(FilledTxn(gtid)) && Store.EncodeUpTo(FilledTxn(gtid).events, |FilledTxn(gtid).events|).Ok?
  {
    var ev := FilledTxn(gtid).events[0];
    CodecProps.ColumnsReadBack(ev.columns);
    CodecProps.EncodesWhatRenders(ROW);
    assert Store.EncodeUpTo(FilledTxn(gtid).events, 0) == Ok([]);
    assert Storage.EncodeEvent(ev).Ok?;
  }

  lemma FeedOne(asm: Assembler.State, es: seq<Assembler.BinEvent>)
    requires es != [] && !React(SRC, asm, None, es[0]).refused && Encodes(React(SRC, asm, None, es[0]).ops)
    ensures var eff := React(SRC, asm, None, es[0]);
            var rest := Feed(SRC, eff.asm, None, es[1..]);
            Feed(SRC, asm, None, es) == Fed(eff.ops + rest.ops, rest.end)
  {
    FeedStep(SRC, asm, None, es);
  }

  /** With a GTID in force throughout, both are handed over under it. */
  lemma BothUnderOne(gtid: Text)
    ensures Feed(SRC, Rest("f", gtid), None, [Made(), Filled(), Ended()]) ==
            Fed([AppendTxn(MadeTxn(gtid), AFTER_MADE), AppendTxn(FilledTxn(gtid), AFTER_END)], None)
  {
    MadeReacts(gtid);
    FilledReacts(gtid);
    EndReacts(gtid);
    MadeEncodes(gtid);
    FilledEncodes(gtid);
    var es := [Made(), Filled(), Ended()];
    assert es[1..] == [Filled(), Ended()] && es[1..][1..] == [Ended()] && es[1..][1..][1..] == [];
    FeedOne(Rest("f", gtid), es);
    FeedOne(Rest("f", gtid), es[1..]);
    FeedOne(HoldingRow(gtid), es[1..][1..]);
    assert Feed(SRC, Rest("f", ""), None, []) == Fed([], None);
  }

  /** Of two transactions under one identity only the first is stored; the checkpoint
      moves past both. */
  lemma SecondIsDropped(a: Transaction, cpa: Checkpoint, b: Transaction, cpb: Checkpoint)
    requires a.sourceId == b.sourceId
    requires Store.EncodeUpTo(a.events, |a.events|).Ok? && Store.EncodeUpTo(b.events, |b.events|).Ok?
    ensures var s, first := RunOf([AppendTxn(a, cpa), AppendTxn(b, cpb)]), RunOf([AppendTxn(a, cpa)]);
            && s.txns == first.txns && s.rows == first.rows && |s.txns| == 1 && s.gaps == [] && s.misses == []
            && s.checkpoint == Some(cpb)
    ensures LedgerOf([AppendTxn(a, cpa), AppendTxn(b, cpb)]).log == [a]
  {
    var one, two := [AppendTxn(a, cpa)], [AppendTxn(a, cpa), AppendTxn(b, cpb)];
    assert Init(one) == [] && Init(two) == one;
    AppendStores(Store.EMPTY, a, cpa);
    var first := RunOf(one);
    assert first == Apply(RunOf([]), AppendTxn(a, cpa)) && RunOf([]) == Store.EMPTY;
    assert !Store.HasSource(Store.EMPTY.txns, a.sourceId);
    assert first.txns[0].sourceId == a.sourceId;
    AppendStores(first, b, cpb);
    assert LedgerOf(one).log == [] + [a] == [a];
    assert LedgerOf(one).log[0].sourceId == b.sourceId;
  }

  function Announced(): Assembler.BinEvent { Assembler.BinEvent(HeaderAt(1), Assembler.Gtid(Some("g"))) }

  lemma AfterAnnounced(es: seq<Assembler.BinEvent>)
    ensures Feed(SRC, Rest("f", ""), None, [Announced()] + es) == Feed(SRC, Rest("f", "g"), None, es)
  {
    assert React(SRC, Rest("f", ""), None, Announced()) == Effect(Rest("f", "g"), [], false);
    assert ([Announced()] + es)[1..] == es;
    FeedOne(Rest("f", ""), [Announced()] + es);
    var rest := Feed(SRC, Rest("f", "g"), None, es);
    assert [] + rest.ops == rest.ops;
  }

  const HANDED := [AppendTxn(MadeTxn("g"), AFTER_MADE), AppendTxn(FilledTxn("g"), AFTER_END)]

  lemma HandedIsDropped()
    ensures LedgerOf(HANDED).log == [MadeTxn("g")] && |RunOf(HANDED).txns| == 1 && RunOf(HANDED).gaps == []
    ensures RunOf(HANDED).misses == [] && RunOf(HANDED).checkpoint == Some(AFTER_END)
  {
    MadeEncodes("g");
    FilledEncodes("g");
    SecondIsDropped(MadeTxn("g"), AFTER_MADE, FilledTxn("g"), AFTER_END);
  }

  /** A schema change inside a transaction that carries a GTID costs the rows: the schema
      change is stored, the rows are not, nothing records a gap or a miss, and the
      checkpoint stands past them. */
  lemma RowsMayBeLost()
    ensures Feed(SRC, Rest("f", ""), None, [Announced()] + [Made(), Filled(), Ended()]) == Fed(HANDED, None)
    ensures LedgerOf(HANDED).log == [MadeTxn("g")] && |RunOf(HANDED).txns| == 1 && RunOf(HANDED).gaps == []
    ensures RunOf(HANDED).misses == [] && RunOf(HANDED).checkpoint == Some(AFTER_END)
  {
    AfterAnnounced([Made(), Filled(), Ended()]);
    BothUnderOne("g");
    HandedIsDropped();
  }

  /** So does a GTID that a schema change leaves over, for the rows of an anonymous
      transaction after it. */
  lemma LeftOverGtidMayLoseRows()
    ensures var anonymous := Assembler.BinEvent(HeaderAt(1), Assembler.AnonymousGtid);
            Feed(SRC, Rest("f", ""), None, [Announced()] + [Made(), anonymous, Filled(), Ended()]) == Fed(HANDED, None)
    ensures LedgerOf(HANDED).log == [MadeTxn("g")] && |RunOf(HANDED).txns| == 1
    ensures RunOf(HANDED).checkpoint == Some(AFTER_END)
  {
    AfterAnnounced([Made(), Assembler.BinEvent(HeaderAt(1), Assembler.AnonymousGtid), Filled(), Ended()]);
    AnonymousBetween("g", HeaderAt(1));
    BothUnderOne("g");
    HandedIsDropped();
  }

  /** An announcement without a GTID changes nothing. */
  lemma AnonymousBetween(gtid: Text, h: Assembler.Header)
    ensures Feed(SRC, Rest("f", gtid), None,
            [Made(), Assembler.BinEvent(h, Assembler.AnonymousGtid), Filled(), Ended()]) ==
            Feed(SRC, Rest("f", gtid), None, [Made(), Filled(), Ended()])
  {
    var anonymous := Assembler.BinEvent(h, Assembler.AnonymousGtid);
    var es, plain := [Made(), anonymous, Filled(), Ended()], [Made(), Filled(), Ended()];
    MadeReacts(gtid);
    MadeEncodes(gtid);
    assert es[1..] == [anonymous] + plain[1..] && es[1..][1..] == plain[1..];
    FeedOne(Rest("f", gtid), es);
    FeedOne(Rest("f", gtid), plain);
    assert React(SRC, Rest("f", gtid), None, anonymous) == Effect(Rest("f", gtid), [], false);
    FeedOne(Rest("f", gtid), es[1..]);
    var rest := Feed(SRC, Rest("f", gtid), None, plain[1..]);
    assert [] + rest.ops == rest.ops;
  }

  /** A resume at a schema change loses the rows gathered before it: what is left of the
      transaction ends with nothing to commit. */
  lemma ResumeInsideMayLose()
    ensures Partway("f", "", [Filled(), Made()], 2) != Rest("f", "")
    ensures React(SRC, Partway("f", "", [Filled(), Made()], 2), None, Ended()).ops ==
            [AppendTxn(FilledTxn(""), AFTER_END)]
    ensures NoAppend(React(SRC, Rest("f", ""), None, Ended()).ops)
  {
    DdlIsKnown();
    var middle := [Filled(), Made()];
    assert ChangesUpTo("f", middle, 0) == [] && QueryAt(middle, 0) == "";
    FilledIs();
    assert ChangesUpTo("f", middle, 1) == ChangesUpTo("f", [Filled()], 1);
    assert Partway("f", "", middle, 2) == HoldingRow("");
    EndReacts("");
  }

  /** Rolling back to a savepoint is bookkeeping to the assembler: the rows before it stay
      gathered. */
  lemma RollbackToKeepsRows(h: Assembler.Header)
    ensures var e := Assembler.BinEvent(h, Assembler.Query("s", "ROLLBACK TO a", ""));
            IsKind(SRC.isDdl, e, Assembler.Session)
              && Assembler.Handle(SRC.isDdl, HoldingRow(""), e).0 == HoldingRow("")
  {
    var q := "ROLLBACK TO a";
    assert q[0] == 'R' && Change.Trim(q) == q && |Change.Upper(q)| == 13 && Change.Upper(q)[0] == 'R';
  }

  // ---------- A log and its runs ----------

  /** The same without a GTID, as a log. */
  function MadeAndFilled(): Item { Txn([], [], [Made(), Filled()], Ended(), None) }

  function OneTable(): Config { Config(SRC, "f", [MadeAndFilled()]) }

  lemma OneTableIsItem()
    ensures ItemOk(SRC.isDdl, MadeAndFilled()) && SchemaFits(SRC.isDdl, MadeAndFilled())
    ensures HoldsSchema(SRC.isDdl, MadeAndFilled())
  {
    DdlIsKnown();
    assert IsKind(SRC.isDdl, MadeAndFilled().middle[0], Assembler.Ddl);
  }

  lemma OneTableSpots()
    ensures Length(OneTable()) == 3 && forall p :: 0 <= p < 3 ==> At(OneTable(), p) == Spot(0, p)
    ensures forall p :: 0 <= p < 3 ==> FileOf(OneTable(), p) == "f" && ItemAt(OneTable(), p) == MadeAndFilled()
    ensures EventAt(OneTable(), 0) == Made() && EventAt(OneTable(), 1) == Filled() && EventAt(OneTable(), 2) == Ended()
  {
    var c := OneTable();
    NextFirst(c, 0);
    SpotIs(c, 0, 0, 0);
    SpotIs(c, 0, 1, 1);
    SpotIs(c, 0, 2, 2);
  }

  /** What it commits: the schema change where it stands, and the row with the end. */
  lemma OneTableCommits()
    ensures Length(OneTable()) == 3
    ensures Stored(OneTable(), 0) == Some(MadeTxn("")) && CommittedAt(OneTable(), 1) == None
    ensures Stored(OneTable(), 2) == Some(FilledTxn(""))
    ensures CheckpointAt(OneTable(), 0) == AFTER_MADE && CheckpointAt(OneTable(), 2) == AFTER_END
  {
    OneTableSpots();
    DdlIsKnown();
    var c, item := OneTable(), MadeAndFilled();
    FilledComesAfter();
    var all := Committed(SRC.isDdl, "f", item);
    assert all == [Some(MadeTxn("")), None, RowsOf(SRC.isDdl, "f", "", item)];
    CollectsAsIs(MadeTxn(""));
    CollectsAsIs(FilledTxn(""));
  }

  lemma FilledComesAfter()
    ensures ChangesUpTo("f", MadeAndFilled().middle, 2) == FilledTxn("").events
    ensures LastRows(MadeAndFilled().middle, 2) == Some(HeaderAt(2))
  {
    var middle := MadeAndFilled().middle;
    assert ChangesUpTo("f", middle, 0) == ChangesUpTo("f", middle, 1) == [];
    assert QueryAt(middle, 0) == QueryAt(middle, 1) == "";
    assert Assembler.Converted("f", HeaderAt(2), "", [Filling()]) == FilledTxn("").events;
    assert ChangesUpTo("f", middle, 2) == [] + FilledTxn("").events;
  }

  lemma TwoCommit(p: nat, q: nat)
    requires p < q < Length(OneTable()) && Commits(OneTable(), p) && Commits(OneTable(), q)
    ensures p == 0 && q == 2
    ensures CommitHeader(OneTable(), p).logPos != CommitHeader(OneTable(), q).logPos
    ensures EventAt(OneTable(), p).header.logPos != EventAt(OneTable(), q).header.logPos
  {
    OneTableSpots();
    OneTableCommits();
  }

  lemma OneTableIsPlaced()
    ensures Placed(OneTable())
  {
    var c := OneTable();
    forall p, q | 0 <= p < q < Length(c) ensures PlacedApart(c, p, q) {
      if Commits(c, p) && Commits(c, q) { TwoCommit(p, q); }
    }
  }

  lemma OneTableIsOk()
    ensures LogOk(OneTable())
  {
    var c := OneTable();
    OneTableIsItem();
    OneTableIsPlaced();
    forall p, q | 0 <= p < q < Length(c) ensures WrittenApart(c, p, q) {
      if Commits(c, p) && Commits(c, q) { TwoCommit(p, q); }
    }
    forall p | 0 <= p < Length(c) ensures FitsMemory(c, p) {
      if Stored(c, p).Some? { StoredIsSized(p); }
    }
  }

  lemma StoredIsSized(p: nat)
    requires p < Length(OneTable()) && Stored(OneTable(), p).Some?
    ensures Sized(Stored(OneTable(), p).value)
  {
    OneTableCommits();
    assert Stored(OneTable(), p).value == if p == 0 then MadeTxn("") else FilledTxn("");
    MadeEncodes("");
    FilledEncodes("");
  }

  /** One connection: the rotate that opens it, a heartbeat, and the whole log. */
  function Whole(): Attempt {
    var h := Assembler.Header(0, 1, 1, 1);
    Attempt(Position("f", 1), true,
            [Assembler.BinEvent(h, Assembler.Rotate("f")), Assembler.BinEvent(h, Assembler.Other), Made(), Filled(),
              Ended()], Lost, 1)
  }

  lemma WholeFollows()
    ensures FollowsLog(OneTable(), 0, Whole().events[1..])
  {
    OneTableSpots();
    var c, es := OneTable(), Whole().events[1..];
    assert es[1..] == [Made(), Filled(), Ended()] && es[1..][1..] == [Filled(), Ended()];
    assert es[1..][1..][1..] == [Ended()] && es[1..][1..][1..][1..] == [];
    assert FollowsLog(c, 3, []);
    assert IsNext(c, 2, Ended()) && FollowsLog(c, 2, [Ended()]);
    assert IsNext(c, 1, Filled()) && FollowsLog(c, 1, [Filled(), Ended()]);
    assert IsNext(c, 0, Made()) && FollowsLog(c, 0, [Made(), Filled(), Ended()]);
    assert IsIdle(c, 0, es[0]);
  }

  /** Whatever a store went through, it can be delivered the whole log again. */
  lemma WholeIsDelivered(worlds: seq<World>)
    requires IsRun(OneTable(), worlds)
    ensures Delivers(OneTable(), RunOf(Last(worlds).ops).checkpoint, Whole())
  {
    var c := OneTable();
    OneTableIsOk();
    OneTableSpots();
    OneTableCommits();
    WholeFollows();
    StartIsResumable(c);
    var m := ExactlyOncePrefix(c, worlds, |worlds| - 1);
    var cp := RunOf(Last(worlds).ops).checkpoint;
    if cp.Some? {
      var p :| 0 <= p < m && Stored(c, p).Some? && CheckpointAt(c, p) == cp.value;
      assert AtOrBefore(c, 0, cp.value);
    }
    assert DeliversFrom(c, cp, Position("f", 1), Whole().events, 0);
  }

  /** The assumptions can be met: an empty store starts a run over the log, and the loop
      may deliver the whole log twice. */
  lemma ARedeliveryExists() returns (before: seq<World>)
    ensures LogOk(OneTable()) && IsRun(OneTable(), before) && Last(before) == World([Opened(1)], None)
    ensures Faithful(OneTable(), RunOf(Last(before).ops), [Whole(), Whole()])
  {
    var c, a, w := OneTable(), Whole(), World([Opened(1)], None);
    OneTableIsOk();
    NothingStoredStarts(c, w.ops);
    before := [w];
    WholeIsDelivered(before);
    var fed := StreamOf(c.src, RunOf(w.ops).checkpoint, false, a);
    var more := StreamIsARun(c, |before[0].ops|, w, a);
    RunIsApplied(w.ops, fed.ops);
    Joined(c, |before[0].ops|, before, more);
    WholeIsDelivered(before + more);
    assert [a, a][1..] == [a];
    assert [a][1..] == [];
    assert Faithful(c, RunOf(Last(more).ops), [a]);
  }

  // ---------- From end to end ----------

  /** The two changes, as the store gives them back. */
  function TheSchemaChange(): Event { Event("s", "", Op.SchemaChange, [], None, None, "f", 1, 1, 1, "d") }

  function TheRowChange(): Event { Filling().(logFile := "f", logPos := 2, serverId := 1) }

  lemma MarksNothing(ev: Event)
    ensures ReadOnly.Mark({}, ev) == ev
  {
    var marked := ReadOnly.Mark({}, ev);
    assert marked.columns == ev.columns;
  }

  lemma RestoredOne(txn: Transaction)
    requires |txn.events| == 1
    ensures RestoredAll(txn) == [Storage.Restored(txn.events[0], txn.committedAt, txn.serverId)]
  {
    assert RestoredUpTo(txn, 0) == [];
  }

  lemma AllIsStored()
    ensures Length(OneTable()) == 3 && StoredUpTo(OneTable(), 3) == [MadeTxn(""), FilledTxn("")]
  {
    OneTableCommits();
    var c := OneTable();
    OneMoreStored(c, 1);
    OneMoreStored(c, 2);
    OneMoreStored(c, 3);
    assert StoredUpTo(c, 0) == [] && StoredUpTo(c, 1) == [] + [MadeTxn("")];
    assert StoredUpTo(c, 3) == [MadeTxn("")] + [FilledTxn("")];
  }

  lemma TheLogIs()
    ensures LogEvents([MadeTxn(""), FilledTxn("")]) == [TheSchemaChange(), TheRowChange()]
  {
    var made, filled := MadeTxn(""), FilledTxn("");
    StoreRuns.LogGrows([], made);
    StoreRuns.LogGrows([made], filled);
    assert [] + [made] == [made] && [made] + [filled] == [made, filled];
    RestoredOne(made);
    RestoredOne(filled);
    assert CodecProps.CanonRow(ROW) == ROW;
    assert Change.Trim("d") == "d";
    assert LogEvents([]) == [] && [] + [TheSchemaChange()] + [TheRowChange()] == [TheSchemaChange(), TheRowChange()];
  }

  lemma EverythingIs()
    ensures Everything(OneTable(), {}) == [TheSchemaChange(), TheRowChange()]
  {
    AllIsStored();
    TheLogIs();
    MarksNothing(TheSchemaChange());
    MarksNothing(TheRowChange());
  }

  const TABLE := TableName("s", "t")
  const DEF := TableDef([Column("a", true, false)], (r: Row, i: nat) => Null)
  const DEFS: Defs := map[TABLE := DEF]
  const BEFORE: Db := map[TABLE := multiset{}]
  const AFTER: Db := map[TABLE := multiset{ROW}]

  lemma RowFits()
    ensures DefOk(DEF) && RowOk(DEF, ROW)
  {
    assert !DEF.columns[0].readOnly;
    assert Recompute(DEF, ROW) == ROW;
  }

  /** The source goes from an empty table to one with the row. */
  lemma TheRunIs()
    ensures Run(DEFS, [BEFORE, BEFORE, AFTER], [TheSchemaChange(), TheRowChange()])
  {
    RowFits();
    var dbs, events := [BEFORE, BEFORE, AFTER], [TheSchemaChange(), TheRowChange()];
    assert TableOk(DEF, BEFORE[TABLE]) && TableOk(DEF, AFTER[TABLE]);
    assert Applies(DEF, BEFORE[TABLE], TheRowChange(), AFTER[TABLE]);
    assert AFTER == BEFORE[TABLE := AFTER[TABLE]];
    assert Database.Step(DEFS, BEFORE, TheRowChange(), AFTER);
    forall i | 0 <= i < |dbs| ensures DbOk(DEFS, dbs[i]) {}
    forall i | 0 <= i < |events| ensures Database.Step(DEFS, dbs[i], events[i], dbs[i + 1]) {}
  }

  lemma AServerTakesThem(fmt: Literal.Format) returns (read: Reading)
    requires Literal.Sound(fmt) && Literal.TellsApart(fmt)
    ensures AllReadable(read, fmt, [TheSchemaChange(), TheRowChange()])
  {
    var events := [TheSchemaChange(), TheRowChange()];
    forall t, col, v | InColumn(events, t, col, v) ensures v == Int(W64, 1) {
      var i :| 0 <= i < |events| && NameOf(events[i]) == t && HoldsAt(events[i], col, v);
    }
    assert StatementText.FiniteEvent(TheSchemaChange()) && StatementText.FiniteEvent(TheRowChange());
    read := AServerReads(fmt, events);
  }

  const BOTH := [AppendTxn(MadeTxn(""), AFTER_MADE), AppendTxn(FilledTxn(""), AFTER_END)]

  /** What one connection writes. */
  lemma WholeWrites()
    ensures StreamOf(SRC, None, false, Whole()).ops == [Advanced(1), Advanced(1)] + BOTH
  {
    var es := Whole().events;
    var rest := [Made(), Filled(), Ended()];
    var h := Assembler.Header(0, 1, 1, 1);
    var a, b := Assembler.BinEvent(h, Assembler.Rotate("f")), Assembler.BinEvent(h, Assembler.Other);
    assert es == [a] + ([b] + rest);
    IdleFeeds(b, rest);
    IdleFeeds(a, [b] + rest);
    BothUnderOne("");
    assert [Advanced(1)] + ([Advanced(1)] + BOTH) == [Advanced(1), Advanced(1)] + BOTH;
  }

  lemma IdleFeeds(e: Assembler.BinEvent, rest: seq<Assembler.BinEvent>)
    requires e.header == Assembler.Header(0, 1, 1, 1) && (e.body == Assembler.Rotate("f") || e.body.Other?)
    ensures Feed(SRC, Rest("f", ""), None, [e] + rest).ops == [Advanced(1)] + Feed(SRC, Rest("f", ""), None, rest).ops
  {
    assert React(SRC, Rest("f", ""), None, e) == Effect(Rest("f", ""), [Advanced(1)], false);
    assert ([e] + rest)[1..] == rest;
    FeedOne(Rest("f", ""), [e] + rest);
  }

  /** A store that covers this one moment, without a hole. */
  predicate CoversNow(s: Store.State) {
    && s.coverageFrom == Some(1) && s.coverageTo == Some(1) && s.gaps == [] && s.misses == []
    && s.maxStaleness == None
  }

  /** What a store that was just opened comes to with it. */
  lemma WholeIsStored()
    ensures CoversNow(RunOf([Opened(1)] + StreamOf(SRC, None, false, Whole()).ops))
  {
    WholeWrites();
    OpenAndAdvance();
    BothOn([Opened(1), Advanced(1), Advanced(1)], BOTH[0], BOTH[1]);
    AllTogether(Opened(1), Advanced(1), BOTH[0], BOTH[1]);
  }

  lemma AllTogether<T>(a: T, b: T, x: T, y: T)
    ensures [a] + ([b, b] + [x, y]) == [a, b, b] + [x] + [y]
  {
  }

  lemma BothOn(ops: seq<StoreOp>, x: StoreOp, y: StoreOp)
    requires CoversNow(RunOf(ops)) && x.AppendTxn? && x.txn.committedAt == 1 && y.AppendTxn? && y.txn.committedAt == 1
    ensures CoversNow(RunOf(ops + [x] + [y]))
  {
    AppendsOn(ops, x);
    AppendsOn(ops + [x], y);
  }

  lemma OpenAndAdvance()
    ensures CoversNow(RunOf([Opened(1), Advanced(1), Advanced(1)]))
  {
    var ops := [Opened(1), Advanced(1), Advanced(1)];
    assert Init(ops) == [Opened(1), Advanced(1)] && Init(Init(ops)) == [Opened(1)] && Init([Opened(1)]) == [];
    assert RunOf([]) == Store.EMPTY;
  }

  /** Storing a transaction of that moment moves neither edge and records no hole. */
  lemma AppendsOn(ops: seq<StoreOp>, op: StoreOp)
    requires op.AppendTxn? && op.txn.committedAt == 1 && CoversNow(RunOf(ops))
    ensures CoversNow(RunOf(ops + [op]))
  {
    RunConcat(ops, op);
  }

  const WINDOW := Filter([], Some(1), None)

  lemma NowIsAnswered(s: Store.State)
    requires CoversNow(s)
    ensures Store.Judge(s, WINDOW, 1).None?
  {
  }

  /** One connection to a store that was just opened is a run. */
  lemma WholeIsARun() returns (worlds: seq<World>)
    ensures LogOk(OneTable()) && IsRun(OneTable(), worlds)
    ensures Last(worlds).ops == [Opened(1)] + StreamOf(SRC, None, false, Whole()).ops
  {
    var c, w := OneTable(), World([Opened(1)], None);
    OneTableIsOk();
    NothingStoredStarts(c, w.ops);
    WholeIsDelivered([w]);
    OpenedHasNone();
    worlds := StreamIsARun(c, |w.ops|, w, Whole());
  }

  /** A run over the log whose window of everything is accepted. */
  lemma ARunIsAnswered() returns (worlds: seq<World>)
    ensures LogOk(OneTable()) && IsRun(OneTable(), worlds) && Store.Judge(RunOf(Last(worlds).ops), WINDOW, 1).None?
  {
    worlds := WholeIsARun();
    WholeIsStored();
    NowIsAnswered(RunOf(Last(worlds).ops));
  }

  lemma OpenedHasNone()
    ensures RunOf([Opened(1)]).checkpoint == None
  {
    assert Init([Opened(1)]) == [] && RunOf([]) == Store.EMPTY;
  }

  /** A source went through the log's changes, and a server takes their literals for what
      they were printed from. */
  lemma ItsChangesAreRecorded(fmt: Literal.Format) returns (read: Reading, dbs: seq<Db>)
    requires Literal.Sound(fmt) && Literal.TellsApart(fmt)
    ensures Recorded(DEFS, read, fmt, dbs, Everything(OneTable(), {})) && dbs == [BEFORE, BEFORE, AFTER]
    ensures Reaches(WINDOW, Everything(OneTable(), {}), 0) && KeepsApart(WINDOW, Everything(OneTable(), {}))
  {
    EverythingIs();
    TheRunIs();
    dbs := [BEFORE, BEFORE, AFTER];
    read := AServerTakesThem(fmt);
  }

  /** Everything that the guarantee from end to end assumes can be met at once, by a log
      with a schema change and a row change in one transaction. */
  lemma TheGuaranteeApplies(fmt: Literal.Format) returns (worlds: seq<World>, read: Reading, dbs: seq<Db>)
    requires Literal.Sound(fmt) && Literal.TellsApart(fmt)
    ensures LogOk(OneTable()) && IsRun(OneTable(), worlds) && Store.Judge(RunOf(Last(worlds).ops), WINDOW, 1).None?
    ensures Recorded(DEFS, read, fmt, dbs, Everything(OneTable(), {})) && dbs == [BEFORE, BEFORE, AFTER]
    ensures Reaches(WINDOW, Everything(OneTable(), {}), 0) && KeepsApart(WINDOW, Everything(OneTable(), {}))
  {
    worlds := ARunIsAnswered();
    read, dbs := ItsChangesAreRecorded(fmt);
  }
}
