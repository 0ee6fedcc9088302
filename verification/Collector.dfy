/** Following a server's log into a store, over disconnects, lagging resumes and lost
    commits (internal/source/mysql/source.go). */
module Collector {
  import opened Wrappers
  import opened Sequences
  import opened Change
  import Assembler
  import opened Binlog
  import opened StoreLog
  import Store
  import ReadOnly

  // ---------- What one event makes of the store ----------

  /** What a collector was told: which statements are schema changes, which tables to
      keep, and which columns the server computes. */
  datatype Source = Source(isDdl: Text -> bool, collect: Filter, generated: map<Text, seq<Text>>)

  predicate Wants(src: Source, ev: Event) { ev.IsSchemaChange() || Match(src.collect, ev) }

  function Asked(src: Source, events: seq<Event>): seq<Event> {
    if src.collect.tables == [] then events else Store.Keep(ev => Wants(src, ev), events)
  }

  function Marked(src: Source, events: seq<Event>): seq<Event> {
    seq(|events|, i requires 0 <= i < |events| => ReadOnly.MarkComputed(src.generated, events[i]))
  }

  /** A transaction as it is stored: only what was asked for, computed columns marked. */
  function Collected(src: Source, txn: Transaction): Transaction {
    txn.(events := Marked(src, Asked(src, txn.events)))
  }

  /** The executed GTID set a commit event carries. */
  function ExecutedBy(e: Assembler.BinEvent): Text {
    match e.body
    case Xid(executed) => executed
    case Query(_, _, executed) => executed
    case _ => ""
  }

  function CheckpointAfter(logFile: Text, e: Assembler.BinEvent, txn: Transaction): Checkpoint {
    Checkpoint(logFile, e.header.logPos, ExecutedBy(e), txn.committedAt)
  }

  /** The gap that the first event after a resume reveals. */
  function GapBefore(gap: Option<Checkpoint>, e: Assembler.BinEvent): seq<StoreOp> {
    if gap.Some? && e.header.timestamp > gap.value.updatedAt + 1
      then [Gapped(gap.value.updatedAt, e.header.timestamp)] else []
  }

  /** What the outcome of an event writes. */
  function Writes(src: Source, logFile: Text, e: Assembler.BinEvent, out: Assembler.Outcome): seq<StoreOp> {
    (if out.miss.Some? then [Missed(out.miss.value)] else [])
    + if out.txn.Some? then
        var txn := Collected(src, out.txn.value);
        if txn.events == [] then [Advanced(txn.committedAt)] else [AppendTxn(txn, CheckpointAfter(logFile, e, txn))]
      else if out.advance > 0 then [Advanced(out.advance)] else []
  }

  /** How one event is met: the new assembler, what is written, and whether it is refused. */
  datatype Effect = Effect(asm: Assembler.State, ops: seq<StoreOp>, refused: bool)

  function React(src: Source, asm: Assembler.State, gap: Option<Checkpoint>, e: Assembler.BinEvent): Effect {
    var r := Assembler.Handle(src.isDdl, asm, e);
    if r.1.Err? then Effect(r.0, GapBefore(gap, e), true)
    else Effect(r.0, GapBefore(gap, e) + Writes(src, r.0.logFile, e, r.1.value), false)
  }

  // ---------- The collector over a log ----------

  datatype Config = Config(src: Source, first: Text, items: seq<Item>)

  /** The file the k-th item stands in. */
  function FileAt(c: Config, k: nat): Text
    requires k <= |c.items|
  {
    if k == 0 then c.first else FileAfter(FileAt(c, k - 1), c.items[k - 1])
  }

  // ---------- The log, event by event ----------

  /** Where an event stands: its item, and how many of the item's events come before it. */
  datatype Spot = Spot(item: nat, fed: nat)

  /** How many events come before the k-th item. */
  function First(c: Config, k: nat): nat
    requires k <= |c.items|
  {
    if k == 0 then 0 else First(c, k - 1) + Count(c.items[k - 1])
  }

  function Length(c: Config): nat { First(c, |c.items|) }

  /** The spot of the p-th event, within the first k items. */
  function SpotIn(c: Config, k: nat, p: nat): (s: Spot)
    requires k <= |c.items| && p < First(c, k)
    ensures s.item < k && s.fed < Count(c.items[s.item]) && p == First(c, s.item) + s.fed
  {
    if p < First(c, k - 1) then SpotIn(c, k - 1, p) else Spot(k - 1, p - First(c, k - 1))
  }

  function At(c: Config, p: nat): (s: Spot)
    requires p < Length(c)
    ensures s.item < |c.items| && s.fed < Count(c.items[s.item]) && p == First(c, s.item) + s.fed
  {
    SpotIn(c, |c.items|, p)
  }

  function ItemAt(c: Config, p: nat): Item
    requires p < Length(c)
  {
    c.items[At(c, p).item]
  }

  function EventAt(c: Config, p: nat): Assembler.BinEvent
    requires p < Length(c)
  {
    Counts(ItemAt(c, p));
    ItemEvents(ItemAt(c, p))[At(c, p).fed]
  }

  /** The file a place in the log stands in. */
  function FileOf(c: Config, p: nat): Text
    requires p <= Length(c)
  {
    FileAt(c, if p < Length(c) then At(c, p).item else |c.items|)
  }

  lemma {:induction false} FirstGrows(c: Config, j: nat, k: nat)
    requires j <= k <= |c.items|
    ensures First(c, j) <= First(c, k)
    decreases k
  {
    if j < k { FirstGrows(c, j, k - 1); }
  }

  /** Each spot is that of one event. */
  lemma {:induction false} SpotInIs(c: Config, n: nat, k: nat, j: nat, p: nat)
    requires k < n <= |c.items| && j < Count(c.items[k]) && p == First(c, k) + j
    ensures p < First(c, n) && SpotIn(c, n, p) == Spot(k, j)
    decreases n
  {
    if k < n - 1 { SpotInIs(c, n - 1, k, j, p); }
  }

  lemma SpotIs(c: Config, k: nat, j: nat, p: nat)
    requires k < |c.items| && j < Count(c.items[k]) && p == First(c, k) + j
    ensures p < First(c, k + 1) <= Length(c) && At(c, p) == Spot(k, j)
  {
    FirstGrows(c, k + 1, |c.items|);
    SpotInIs(c, |c.items|, k, j, p);
  }

  lemma NextFirst(c: Config, k: nat)
    requires k < |c.items|
    ensures First(c, k + 1) == First(c, k) + Count(c.items[k])
  {
  }

  /** Where the event after the one at a spot stands. */
  function NextOf(c: Config, s: Spot): Option<Spot>
    requires s.item < |c.items| && s.fed < Count(c.items[s.item])
  {
    if s.fed + 1 < Count(c.items[s.item]) then Some(Spot(s.item, s.fed + 1))
    else if s.item + 1 < |c.items| then Some(Spot(s.item + 1, 0))
    else None
  }

  /** After an event comes the next one of its item, or the first of the next item. */
  lemma NextSpot(c: Config, p: nat)
    requires p < Length(c)
    ensures var next := NextOf(c, At(c, p));
            if next.None? then p + 1 == Length(c) else p + 1 < Length(c) && At(c, p + 1) == next.value
  {
    var s := At(c, p);
    var n := Count(c.items[s.item]);
    NextFirst(c, s.item);
    if s.fed + 1 < n { SpotIs(c, s.item, s.fed + 1, p + 1); } else { NextItem(c, s.item + 1, p + 1); }
  }

  /** Where one item's events end the next item's begin. */
  lemma NextItem(c: Config, k: nat, p: nat)
    requires k <= |c.items| && p == First(c, k)
    ensures if k == |c.items| then p == Length(c) else p < Length(c) && At(c, p) == Spot(k, 0)
  {
    if k < |c.items| {
      NextFirst(c, k);
      SpotIs(c, k, 0, p);
    }
  }

  /** What the event at p should leave in the store. */
  function Stored(c: Config, p: nat): Option<Transaction>
    requires p < Length(c)
  {
    var txn := CommittedAt(c, p);
    if txn.None? || Collected(c.src, txn.value).events == [] then None else Some(Collected(c.src, txn.value))
  }

  function CommittedAt(c: Config, p: nat): Option<Transaction>
    requires p < Length(c)
  {
    Committed(c.src.isDdl, FileOf(c, p), ItemAt(c, p))[At(c, p).fed]
  }

  function CheckpointAt(c: Config, p: nat): Checkpoint
    requires p < Length(c) && Stored(c, p).Some?
  {
    CheckpointAfter(FileOf(c, p), EventAt(c, p), Stored(c, p).value)
  }

  /** What the store should hold of the first m events. */
  function StoredUpTo(c: Config, m: nat): seq<Transaction>
    requires m <= Length(c)
  {
    Somes(StoredEach(c, m))
  }

  function StoredEach(c: Config, m: nat): (each: seq<Option<Transaction>>)
    requires m <= Length(c)
    ensures |each| == m
  {
    seq(m, p requires 0 <= p < m && m <= Length(c) => Stored(c, p))
  }

  // ---------- Connections ----------

  /** A connection: how far into the log it has read, whether the opening rotate has
      been read, and the resume point still to be compared with the first event. */
  datatype Conn = Conn(at: nat, announced: bool, asm: Assembler.State, gap: Option<Checkpoint>)

  /** The store, by what was committed to it, and the connection while there is one. */
  datatype World = World(ops: seq<StoreOp>, conn: Option<Conn>)

  predicate IsZero(cp: Checkpoint) { cp.logFile == "" && cp.gtid == "" }

  predicate IsBoundary(c: Config, p: nat)
    requires p <= Length(c)
  {
    p == Length(c) || At(c, p).fed == 0
  }

  /** The assembler after some of an item's events, having come to the item at rest. */
  function ReadUpTo(c: Config, p: nat, gtid: Text): Assembler.State
    requires p < Length(c)
  {
    Counts(ItemAt(c, p));
    Assembler.OneByOne(c.src.isDdl, Rest(FileOf(c, p), gtid), ItemEvents(ItemAt(c, p)), At(c, p).fed).0
  }

  /** A place from which a stream can be read as if from the start: between items, or
      inside one of which nothing was gathered so far. */
  predicate Resumable(c: Config, p: nat)
    requires p <= Length(c)
  {
    IsBoundary(c, p) || ReadUpTo(c, p, "") == Rest(FileOf(c, p), "")
  }

  /** A place in the log at or before a checkpoint. */
  ghost predicate AtOrBefore(c: Config, n: nat, cp: Checkpoint) {
    && n <= Length(c) && Resumable(c, n)
    && exists p :: 0 <= p < Length(c) && Stored(c, p).Some? && CheckpointAt(c, p) == cp && n <= p + 1
  }

  /** Attach at or before the durable checkpoint. */
  ghost predicate Attaches(c: Config, w: World, next: World, n: nat) {
    var cp := RunOf(w.ops).checkpoint;
    && w.conn.None? && cp.Some? && !IsZero(cp.value) && AtOrBefore(c, n, cp.value)
    && next == World(w.ops, Some(Conn(n, false, Rest(cp.value.logFile, ""), cp)))
  }

  /** Attach with nothing stored yet: the log is what the server writes from there on. */
  ghost predicate AttachesAnew(c: Config, w: World, next: World) {
    && w.conn.None? && RunOf(w.ops).checkpoint.None?
    && next == World(w.ops, Some(Conn(0, false, Rest(c.first, ""), None)))
  }

  /** A stream opens with a rotate that names the file it starts in. */
  ghost predicate Announces(c: Config, w: World, next: World, h: Assembler.Header) {
    && w.conn.Some? && !w.conn.value.announced && w.conn.value.at <= Length(c) && h.timestamp == 0
    && var conn := w.conn.value;
       var eff := React(c.src, conn.asm, conn.gap, Assembler.BinEvent(h, Assembler.Rotate(FileOf(c, conn.at))));
       next == World(w.ops + eff.ops, Some(conn.(announced := true, asm := eff.asm, gap := None)))
  }

  /** What a server sends beside its log: heartbeats, format descriptions and other
      bookkeeping at any moment, and between items a rotate that names the file again. */
  predicate IsIdle(c: Config, at: nat, e: Assembler.BinEvent) {
    e.body.Other? || (at <= Length(c) && IsBoundary(c, at) && e.body == Assembler.Rotate(FileOf(c, at)))
  }

  /** A server says that it is still there. */
  ghost predicate Beats(c: Config, w: World, next: World, e: Assembler.BinEvent) {
    && w.conn.Some? && w.conn.value.announced && IsIdle(c, w.conn.value.at, e)
    && var conn := w.conn.value;
       var eff := React(c.src, conn.asm, conn.gap, e);
       next == World(w.ops + eff.ops, Some(conn.(asm := eff.asm, gap := None)))
  }

  predicate Encodes(ops: seq<StoreOp>) {
    forall i :: 0 <= i < |ops| && ops[i].AppendTxn? ==> Store.EncodeUpTo(ops[i].txn.events, |ops[i].txn.events|).Ok?
  }

  /** Read the next event of the log. */
  ghost predicate ReadsNext(c: Config, w: World, next: World) {
    && w.conn.Some? && w.conn.value.announced && w.conn.value.at < Length(c)
    && var conn := w.conn.value;
       next == Met(w.ops, conn.at, React(c.src, conn.asm, conn.gap, EventAt(c, conn.at)))
  }

  /** The world once an event was met. A refusal, or a change that cannot be stored, ends
      the connection. */
  function Met(ops: seq<StoreOp>, at: nat, eff: Effect): World {
    if eff.refused then World(ops + eff.ops, None)
    else if !Encodes(eff.ops) then World(ops + eff.ops[..|eff.ops| - 1], None)
    else World(ops + eff.ops, Some(Conn(at + 1, true, eff.asm, None)))
  }

  ghost predicate Disconnects(w: World, next: World) { next == World(w.ops, None) }

  /** A power failure takes the latest commits with it, but none from before the start. */
  ghost predicate LosesPower(w: World, next: World, base: nat, k: nat) {
    base <= k <= |w.ops| && next == World(w.ops[..k], None)
  }

  /** Anything else done to the store: opening, pruning, settings. */
  ghost predicate Maintains(w: World, next: World, op: StoreOp) { !op.AppendTxn? && next == w.(ops := w.ops + [op]) }

  ghost predicate Step(c: Config, base: nat, w: World, next: World) {
    || (exists n: nat :: Attaches(c, w, next, n))
    || AttachesAnew(c, w, next)
    || (exists h :: Announces(c, w, next, h))
    || (exists e :: Beats(c, w, next, e))
    || ReadsNext(c, w, next)
    || Disconnects(w, next)
    || (exists k: nat :: LosesPower(w, next, base, k))
    || (exists op :: Maintains(w, next, op))
  }

  // ---------- What is assumed of the log ----------

  function EndHeader(item: Item): Assembler.Header {
    match item
    case Txn(_, _, _, end, _) => end.header
    case SchemaItem(_, ddl) => ddl.header
    case Quiet(_, event) => event.header
  }

  /** The header the identity of a commit is built from: that of the commit itself, in a
      payload or not. */
  function CommitHeader(c: Config, p: nat): Assembler.Header
    requires p < Length(c)
  {
    if At(c, p).fed + 1 == Count(ItemAt(c, p)) then EndHeader(ItemAt(c, p)) else EventAt(c, p).header
  }

  predicate HasId(c: Config, k: nat)
    requires k < |c.items|
  {
    c.items[k].Quiet? || IdOf(c.items[k].intro) != ""
  }

  predicate OwnIds(c: Config, j: nat, k: nat)
    requires j < |c.items| && k < |c.items|
  {
    c.items[j].Quiet? || c.items[k].Quiet? || IdOf(c.items[j].intro) != IdOf(c.items[k].intro)
  }

  /** Every transaction carries its own GTID. */
  predicate Identified(c: Config) {
    && (forall k :: 0 <= k < |c.items| ==> HasId(c, k))
    && (forall j, k :: 0 <= j < k < |c.items| ==> OwnIds(c, j, k))
  }

  predicate Anonymous(c: Config, k: nat)
    requires k < |c.items|
  {
    IdOf(c.items[k].intro) == ""
  }

  predicate Commits(c: Config, p: nat)
    requires p < Length(c)
  {
    CommittedAt(c, p).Some?
  }

  /** Two commits are announced at different places. */
  predicate PlacedApart(c: Config, p: nat, q: nat)
    requires p < Length(c) && q < Length(c)
  {
    Commits(c, p) && Commits(c, q) ==>
      FileOf(c, p) != FileOf(c, q) || CommitHeader(c, p).logPos != CommitHeader(c, q).logPos
  }

  /** Two commits are written at different places. */
  predicate WrittenApart(c: Config, p: nat, q: nat)
    requires p < Length(c) && q < Length(c)
  {
    Commits(c, p) && Commits(c, q) ==>
      FileOf(c, p) != FileOf(c, q) || EventAt(c, p).header.logPos != EventAt(c, q).header.logPos
  }

  /** No transaction carries a GTID, and each commit stands at a place of its own. */
  predicate Placed(c: Config) {
    && (forall k :: 0 <= k < |c.items| ==> Anonymous(c, k))
    && (forall p, q :: 0 <= p < q < Length(c) ==> PlacedApart(c, p, q))
  }

  predicate FitsMemory(c: Config, p: nat)
    requires p < Length(c)
  {
    Stored(c, p).Some? ==> Sized(Stored(c, p).value)
  }

  predicate ItemFits(c: Config, k: nat)
    requires k < |c.items|
  {
    ItemOk(c.src.isDdl, c.items[k]) && SchemaFits(c.src.isDdl, c.items[k])
  }

  /** The log is made of items; what holds a schema change inside carries no GTID and is
      not wrapped; commits have identities and places of their own, and fit in memory. */
  ghost predicate LogOk(c: Config) {
    && (forall k :: 0 <= k < |c.items| ==> ItemFits(c, k))
    && (Identified(c) || Placed(c))
    && (forall p, q :: 0 <= p < q < Length(c) ==> WrittenApart(c, p, q))
    && (forall p :: 0 <= p < Length(c) ==> FitsMemory(c, p))
  }

  predicate SchemaFits(isDdl: Text -> bool, item: Item) {
    HoldsSchema(isDdl, item) ==> IdOf(item.intro) == "" && item.wrap.None?
  }

  // ---------- Identities ----------

  /** What an event of an item commits has the item's identity, and under a GTID only the
      last event commits. */
  lemma CommitIdentity(isDdl: Text -> bool, file: Text, item: Item, j: nat)
    requires ItemOk(isDdl, item) && SchemaFits(isDdl, item) && j < Count(item)
    requires Committed(isDdl, file, item)[j].Some?
    ensures !item.Quiet?
    ensures var h := if j + 1 == Count(item) then EndHeader(item) else ItemEvents(item)[j].header;
            Committed(isDdl, file, item)[j].value.sourceId == Identity(file, IdOf(item.intro), h)
    ensures IdOf(item.intro) != "" ==> j + 1 == Count(item)
  {
    var gtid := IdOf(item.intro);
    assert Committed(isDdl, file, item)[j] == CoreCommits(isDdl, file, gtid, item)[j - |item.intro|];
    if item.Txn? {
      var plain := PlainCommits(isDdl, file, gtid, item);
      if item.wrap.Some? {
        NoSchemaInside(isDdl, file, gtid, item);
        OnlyTheLast(plain);
      } else if j + 1 < Count(item) {
        var i := j - |item.intro| - |item.begin|;
        assert plain[j - |item.intro|] == InsideUpTo(isDdl, file, gtid, item.middle, |item.middle|)[i];
        assert IsKind(isDdl, item.middle[i], Assembler.Ddl);
      }
    }
  }

  lemma NoSchemaInside(isDdl: Text -> bool, file: Text, gtid: Text, item: Item)
    requires item.Txn? && !HoldsSchema(isDdl, item)
    ensures var plain := PlainCommits(isDdl, file, gtid, item); forall i :: 0 <= i < |plain| - 1 ==> plain[i].None?
  {
  }

  lemma {:induction false} OnlyTheLast(txns: seq<Option<Transaction>>)
    requires txns != [] && forall i :: 0 <= i < |txns| - 1 ==> txns[i].None?
    ensures LastOf(txns) == txns[|txns| - 1]
  {
    if txns[|txns| - 1].None? { NoneIsLast(txns[..|txns| - 1]); }
  }

  lemma {:induction false} NoneIsLast(txns: seq<Option<Transaction>>)
    requires forall i :: 0 <= i < |txns| ==> txns[i].None?
    ensures LastOf(txns) == None
    decreases |txns|
  {
    if txns != [] { NoneIsLast(txns[..|txns| - 1]); }
  }

  lemma StoredIdentity(c: Config, p: nat)
    requires LogOk(c) && p < Length(c) && Stored(c, p).Some?
    ensures !ItemAt(c, p).Quiet? && Commits(c, p)
    ensures Stored(c, p).value.sourceId == Identity(FileOf(c, p), IdOf(ItemAt(c, p).intro), CommitHeader(c, p))
    ensures IdOf(ItemAt(c, p).intro) != "" ==> At(c, p).fed + 1 == Count(ItemAt(c, p))
  {
    ItemIsOk(c, At(c, p).item);
    CommitIdentity(c.src.isDdl, FileOf(c, p), ItemAt(c, p), At(c, p).fed);
  }

  lemma ItemIsOk(c: Config, k: nat)
    requires LogOk(c) && k < |c.items|
    ensures ItemOk(c.src.isDdl, c.items[k]) && SchemaFits(c.src.isDdl, c.items[k])
  {
    assert ItemFits(c, k);
  }

  /** Places of one commit in the log are one place. */
  lemma SameCommit(c: Config, p: nat, q: nat)
    requires LogOk(c) && p < Length(c) && q < Length(c) && Commits(c, p) && Commits(c, q)
    requires FileOf(c, p) == FileOf(c, q)
    ensures EventAt(c, p).header.logPos == EventAt(c, q).header.logPos ==> p == q
    ensures !Identified(c) && CommitHeader(c, p).logPos == CommitHeader(c, q).logPos ==> p == q
  {
    if p != q {
      var i, j := if p < q then p else q, if p < q then q else p;
      assert WrittenApart(c, i, j);
      assert !Identified(c) ==> PlacedApart(c, i, j);
    }
  }

  /** Different events never leave transactions under one identity. */
  lemma IdentitiesDiffer(c: Config, p: nat, q: nat)
    requires LogOk(c) && p < Length(c) && q < Length(c) && Stored(c, p).Some? && Stored(c, q).Some?
    requires Stored(c, p).value.sourceId == Stored(c, q).value.sourceId
    ensures p == q
  {
    StoredIdentity(c, p);
    StoredIdentity(c, q);
    if Identified(c) {
      OneItem(c, At(c, p).item, At(c, q).item);
    } else {
      PlacedHasNoId(c, p);
      PlacedHasNoId(c, q);
      Assembler.PlaceTellsApart(FileOf(c, p), CommitHeader(c, p).logPos, FileOf(c, q), CommitHeader(c, q).logPos);
      SameCommit(c, p, q);
    }
  }

  lemma OneItem(c: Config, j: nat, k: nat)
    requires Identified(c) && j < |c.items| && k < |c.items| && !c.items[j].Quiet? && !c.items[k].Quiet?
    ensures IdOf(c.items[j].intro) != "" && IdOf(c.items[k].intro) != ""
    ensures IdOf(c.items[j].intro) == IdOf(c.items[k].intro) ==> j == k
  {
    assert HasId(c, j) && HasId(c, k);
    assert j < k ==> OwnIds(c, j, k);
    assert k < j ==> OwnIds(c, k, j);
  }

  lemma PlacedHasNoId(c: Config, p: nat)
    requires LogOk(c) && !Identified(c) && p < Length(c)
    ensures IdOf(ItemAt(c, p).intro) == ""
  {
    assert Anonymous(c, At(c, p).item);
  }

  lemma CheckpointsDiffer(c: Config, p: nat, q: nat)
    requires LogOk(c) && p < Length(c) && q < Length(c) && Stored(c, p).Some? && Stored(c, q).Some?
    requires CheckpointAt(c, p) == CheckpointAt(c, q)
    ensures p == q
  {
    StoredIdentity(c, p);
    StoredIdentity(c, q);
    SameCommit(c, p, q);
  }

  lemma SomeIsDelivered(each: seq<Option<Transaction>>, k: nat, txn: Transaction)
    requires k < |each| && each[k] == Some(txn)
    ensures Delivered(Somes(each), txn.sourceId)
  {
    SomesAre(each, txn);
  }

  lemma StoredIsIn(c: Config, m: nat, k: nat)
    requires k < m <= Length(c) && Stored(c, k).Some?
    ensures Delivered(StoredUpTo(c, m), Stored(c, k).value.sourceId)
  {
    SomeIsDelivered(StoredEach(c, m), k, Stored(c, k).value);
  }

  lemma OneMoreStored(c: Config, m: nat)
    requires 0 < m <= Length(c)
    ensures StoredUpTo(c, m) == if Stored(c, m - 1).Some? then StoredUpTo(c, m - 1) + [Stored(c, m - 1).value]
            else StoredUpTo(c, m - 1)
  {
    OneMoreOf(StoredEach(c, m), StoredEach(c, m - 1), Stored(c, m - 1));
    OneMoreSome(StoredEach(c, m - 1), Stored(c, m - 1));
  }

  lemma StoredComeFrom(c: Config, m: nat, i: nat) returns (k: nat)
    requires m <= Length(c) && i < |StoredUpTo(c, m)|
    ensures k < m && Stored(c, k).Some? && Stored(c, k).value == StoredUpTo(c, m)[i]
  {
    var each, txn := StoredEach(c, m), StoredUpTo(c, m)[i];
    SomesAre(each, txn);
    k :| k < |each| && each[k] == Some(txn);
  }

  lemma NotYetDelivered(c: Config, m: nat)
    requires LogOk(c) && m < Length(c) && Stored(c, m).Some?
    ensures !Delivered(StoredUpTo(c, m), Stored(c, m).value.sourceId)
  {
    if Delivered(StoredUpTo(c, m), Stored(c, m).value.sourceId) {
      var i :| 0 <= i < |StoredUpTo(c, m)| && StoredUpTo(c, m)[i].sourceId == Stored(c, m).value.sourceId;
      var k := StoredComeFrom(c, m, i);
      IdentitiesDiffer(c, k, m);
    }
  }

  predicate AllDiffer(log: seq<Transaction>)
    { forall i, j :: 0 <= i < j < |log| ==> log[i].sourceId != log[j].sourceId }

  lemma MoreDiffer(log: seq<Transaction>, txn: Option<Transaction>, more: seq<Transaction>)
    requires AllDiffer(log) && (txn.Some? ==> !Delivered(log, txn.value.sourceId))
    requires more == if txn.Some? then log + [txn.value] else log
    ensures AllDiffer(more)
  {
  }

  /** Each once: no identity appears twice in what should be stored. */
  lemma {:induction false} EachOnce(c: Config, m: nat)
    requires LogOk(c) && m <= Length(c)
    ensures AllDiffer(StoredUpTo(c, m))
    decreases m
  {
    if m > 0 {
      EachOnce(c, m - 1);
      NextDiffers(c, m);
    }
  }

  lemma NextDiffers(c: Config, m: nat)
    requires LogOk(c) && 0 < m <= Length(c) && AllDiffer(StoredUpTo(c, m - 1))
    ensures AllDiffer(StoredUpTo(c, m))
  {
    var last, log, more := Stored(c, m - 1), StoredUpTo(c, m - 1), StoredUpTo(c, m);
    OneMoreStored(c, m);
    if last.Some? { NotYetDelivered(c, m - 1); }
    MoreDiffer(log, last, more);
  }

  // ---------- Reading an item ----------

  /** A GTID left over between items is only there when every transaction has its own. */
  ghost predicate LeftOver(c: Config, gtid: Text) { Identified(c) || gtid == "" }

  /** A connection's assembler is where reading the log leaves it. */
  ghost predicate ConnOk(c: Config, conn: Conn) {
    && conn.at <= Length(c)
    && (conn.announced ==> conn.gap.None?)
    && if !conn.announced then Resumable(c, conn.at) && exists file :: conn.asm == Rest(file, "")
       else conn.at < Length(c) ==> exists gtid :: LeftOver(c, gtid) && conn.asm == ReadUpTo(c, conn.at, gtid)
  }

  lemma {:induction false} OkUpTo(isDdl: Text -> bool, s: Assembler.State, es: seq<Assembler.BinEvent>, m: nat, n: nat)
    requires m <= n <= |es| && Assembler.OneByOne(isDdl, s, es, n).1.Ok?
    requires |Assembler.OneByOne(isDdl, s, es, n).1.value| == n
    ensures var r, all := Assembler.OneByOne(isDdl, s, es, m), Assembler.OneByOne(isDdl, s, es, n);
            r.1.Ok? && |r.1.value| == m && r.1.value == all.1.value[..m]
    decreases n
  {
    if m < n {
      OkUpTo(isDdl, s, es, m, n - 1);
    } else {
      var all := Assembler.OneByOne(isDdl, s, es, n);
      assert all.1.value[..n] == all.1.value;
    }
  }

  /** Of events that yield transactions, the one at j yields its own. */
  lemma YieldsAt(isDdl: Text -> bool, s: Assembler.State, es: seq<Assembler.BinEvent>, txns: seq<Option<Transaction>>,
                 after: Assembler.State, j: nat)
    requires Yields(isDdl, s, es, txns, after) && j < |es|
    ensures var before, now := Assembler.OneByOne(isDdl, s, es, j), Assembler.OneByOne(isDdl, s, es, j + 1);
            var r := Assembler.Handle(isDdl, before.0, es[j]);
            && r.1.Ok? && now.0 == r.0 && r.1.value.txn == txns[j]
            && (j + 1 == |es| ==> r.0 == after)
  {
    OkUpTo(isDdl, s, es, j, |es|);
    OkUpTo(isDdl, s, es, j + 1, |es|);
    var all, now := Assembler.OneByOne(isDdl, s, es, |es|), Assembler.OneByOne(isDdl, s, es, j + 1);
    assert now.1.value[j] == all.1.value[j];
  }

  /** What an event of an item does to the assembler that read the item so far. */
  lemma ItemReports(isDdl: Text -> bool, file: Text, gtid: Text, item: Item, j: nat)
    requires ItemOk(isDdl, item) && SchemaFits(isDdl, item) && GtidFits(gtid, item) && j < Count(item)
    ensures var s, es := Rest(file, gtid), ItemEvents(item);
            var before, now := Assembler.OneByOne(isDdl, s, es, j), Assembler.OneByOne(isDdl, s, es, j + 1);
            var r := Assembler.Handle(isDdl, before.0, es[j]);
            && r.1.Ok? && now.0 == r.0 && r.1.value.txn == Committed(isDdl, file, item)[j]
            && (r.1.value.txn.Some? ==> r.0.logFile == file)
            && (j + 1 == |es| ==> r.0 == Rest(FileAfter(file, item), LeftBehind(gtid, item)))
  {
    var s, es := Rest(file, gtid), ItemEvents(item);
    ItemYields(isDdl, file, gtid, item);
    FittingIsOwn(isDdl, file, gtid, item);
    YieldsAt(isDdl, s, es, Committed(isDdl, file, item), Rest(FileAfter(file, item), LeftBehind(gtid, item)), j);
    if Committed(isDdl, file, item)[j].Some? { CommitKeepsFile(isDdl, s, file, item, j); }
  }

  lemma CommitKeepsFile(isDdl: Text -> bool, s: Assembler.State, file: Text, item: Item, j: nat)
    requires ItemOk(isDdl, item) && SchemaFits(isDdl, item) && j < Count(item)
    requires Committed(isDdl, file, item)[j].Some?
    ensures Assembler.OneByOne(isDdl, s, ItemEvents(item), j + 1).0.logFile == s.logFile
  {
    CommitIdentity(isDdl, file, item, j);
    ItemKeepsFile(isDdl, s, item, j + 1);
  }

  /** What the event at p does to the assembler that read the log so far. */
  lemma EventReports(c: Config, p: nat, gtid: Text) returns (after: Text)
    requires LogOk(c) && p < Length(c) && LeftOver(c, gtid)
    ensures LeftOver(c, after)
    ensures var r := Assembler.Handle(c.src.isDdl, ReadUpTo(c, p, gtid), EventAt(c, p));
            && r.1.Ok? && r.1.value.txn == CommittedAt(c, p)
            && (r.1.value.txn.Some? ==> r.0.logFile == FileOf(c, p))
            && (p + 1 < Length(c) ==> r.0 == ReadUpTo(c, p + 1, after))
  {
    var k, item := At(c, p).item, ItemAt(c, p);
    ItemIsOk(c, k);
    LeftOverFits(c, gtid, item, k);
    ItemReports(c.src.isDdl, FileOf(c, p), gtid, item, At(c, p).fed);
    after := if At(c, p).fed + 1 < Count(item) then gtid else LeftBehind(gtid, item);
    if p + 1 < Length(c) { ReadingNext(c, p, gtid); }
  }

  /** Where reading goes on: further into the item, or at rest before the next. */
  lemma ReadingNext(c: Config, p: nat, gtid: Text)
    requires p + 1 < Length(c)
    ensures var k, j, item := At(c, p).item, At(c, p).fed, ItemAt(c, p);
            if j + 1 < Count(item) then
              ReadUpTo(c, p + 1, gtid) == Assembler.OneByOne(c.src.isDdl, Rest(FileOf(c, p), gtid), ItemEvents(item),
                j + 1).0
            else forall id :: ReadUpTo(c, p + 1, id) == Rest(FileAfter(FileOf(c, p), item), id)
  {
    NextSpot(c, p);
  }

  lemma LeftOverFits(c: Config, gtid: Text, item: Item, k: nat)
    requires LogOk(c) && LeftOver(c, gtid) && k < |c.items| && item == c.items[k] && IntroOk(item.intro)
    ensures GtidFits(gtid, item) && LeftOver(c, LeftBehind(gtid, item))
  {
    if item.intro != [] { assert item.intro[0] in item.intro; }
    assert if Identified(c) then HasId(c, k) else Anonymous(c, k);
  }

  lemma {:induction false} ItemKeepsFile(isDdl: Text -> bool, s: Assembler.State, item: Item, n: nat)
    requires ItemOk(isDdl, item) && !item.Quiet? && n <= Count(item)
    ensures Assembler.OneByOne(isDdl, s, ItemEvents(item), n).0.logFile == s.logFile
    decreases n
  {
    if n > 0 {
      ItemKeepsFile(isDdl, s, item, n - 1);
      ItemHasNoRotate(isDdl, item, n - 1);
      Assembler.KeepsFile(isDdl, Assembler.OneByOne(isDdl, s, ItemEvents(item), n - 1).0, ItemEvents(item)[n - 1]);
    }
  }

  lemma ItemHasNoRotate(isDdl: Text -> bool, item: Item, j: nat)
    requires ItemOk(isDdl, item) && !item.Quiet? && j < Count(item)
    ensures Assembler.HasNoRotate(ItemEvents(item)[j])
  {
    if j < |item.intro| {
      assert item.intro[j] in item.intro;
    } else if item.Txn? {
      forall i | 0 <= i < |Plain(item)| ensures Assembler.HasNoRotate(Plain(item)[i]) {
        if i < |item.begin| { assert item.begin[i] in item.begin; }
      }
    }
  }
}
