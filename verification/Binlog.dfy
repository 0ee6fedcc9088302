/** What a server's log commits, said of the log itself, and that the assembler
    reports exactly that (internal/source/mysql/assemble.go). */
module Binlog {
  import opened Wrappers
  import opened Sequences
  import opened Change
  import opened Assembler

  // ---------- The log ----------

  /** What a log is made of. A transaction is announced, perhaps begun, and ended by a
      commit or a rollback; a compressed one arrives in a payload. A schema change stands
      alone or inside a transaction, as CREATE TABLE ... SELECT is logged; everything else
      is bookkeeping. */
  datatype Item =
    | Txn(intro: seq<BinEvent>, begin: seq<BinEvent>, middle: seq<BinEvent>, end: BinEvent, wrap: Option<Header>)
    | SchemaItem(intro: seq<BinEvent>, ddl: BinEvent)
    | Quiet(intro: seq<BinEvent>, event: BinEvent)

  predicate IsKind(isDdl: Text -> bool, e: BinEvent, kind: QueryKind) {
    e.body.Query? && KindOf(isDdl, e.body.query) == kind
  }

  predicate IsIntro(e: BinEvent) { (e.body.Gtid? && e.body.id.Some?) || e.body.MariadbGtid? || e.body.AnonymousGtid? }

  predicate IsMiddle(isDdl: Text -> bool, e: BinEvent) {
    e.body.Annotation? || e.body.Rows? || e.body.Other? || IsKind(isDdl, e, Session) || IsKind(isDdl, e, Ddl)
  }

  predicate RollsBack(isDdl: Text -> bool, e: BinEvent) { IsKind(isDdl, e, Rollback) }

  predicate IsEnd(isDdl: Text -> bool, e: BinEvent) { e.body.Xid? || IsKind(isDdl, e, Commit) || RollsBack(isDdl, e) }

  predicate IsQuiet(isDdl: Text -> bool, e: BinEvent) { e.body.Rotate? || e.body.Other? || IsKind(isDdl, e, Session) }

  predicate IntroOk(intro: seq<BinEvent>) { |intro| <= 1 && forall e :: e in intro ==> IsIntro(e) }

  /** Changes and commits carry a timestamp, so a log reads the same at any time. */
  predicate ItemOk(isDdl: Text -> bool, item: Item) {
    && IntroOk(item.intro)
    && match item
       case Txn(_, begin, middle, end, _) =>
         && |begin| <= 1 && (forall e :: e in begin ==> IsKind(isDdl, e, Begin))
         && (forall i :: 0 <= i < |middle| ==>
               IsMiddle(isDdl, middle[i])
                 && (middle[i].body.Rows? || IsKind(isDdl, middle[i], Ddl) ==> middle[i].header.timestamp > 0))
         && IsEnd(isDdl, end) && end.header.timestamp > 0
       case SchemaItem(_, ddl) => IsKind(isDdl, ddl, Ddl) && ddl.header.timestamp > 0
       case Quiet(_, event) => IsQuiet(isDdl, event)
  }

  function Plain(item: Item): seq<BinEvent>
    requires item.Txn?
  {
    item.begin + item.middle + [item.end]
  }

  /** The events a stream delivers for an item. */
  function Core(item: Item): seq<BinEvent> {
    match item
    case Txn(_, _, _, _, wrap) => if wrap.Some? then [BinEvent(wrap.value, Payload(Plain(item)))] else Plain(item)
    case SchemaItem(_, ddl) => [ddl]
    case Quiet(_, event) => [event]
  }

  function ItemEvents(item: Item): seq<BinEvent> { item.intro + Core(item) }

  /** How many there are. */
  function Count(item: Item): nat {
    match item
    case Txn(_, begin, middle, _, wrap) => |item.intro| + if wrap.Some? then 1 else |begin| + |middle| + 1
    case SchemaItem(_, _) => |item.intro| + 1
    case Quiet(_, _) => |item.intro| + 1
  }

  lemma Counts(item: Item)
    ensures |ItemEvents(item)| == Count(item) > 0
  {
  }

  // ---------- What it commits ----------

  function IdOf(intro: seq<BinEvent>): Text {
    if intro == [] then ""
    else match intro[0].body
      case Gtid(id) => if id.Some? then id.value else ""
      case MariadbGtid(triple) => triple
      case _ => ""
  }

  /** The annotation in force before an event: the last one, unless changes were read
      since. A rows event that could not be read leaves it in force. */
  function QueryAt(middle: seq<BinEvent>, i: nat): Text
    requires i <= |middle|
  {
    if i == 0 then ""
    else match middle[i - 1].body
      case Annotation(query) => query
      case Rows(changes) => if changes.Some? then "" else QueryAt(middle, i - 1)
      case _ => QueryAt(middle, i - 1)
  }

  predicate Unreadable(e: BinEvent) { e.body.Rows? && e.body.changes.None? }

  predicate HasChanges(e: BinEvent) { e.body.Rows? && e.body.changes.Some? }

  /** The changes of the readable rows events, in order, each with its statement. */
  function ChangesUpTo(file: Text, middle: seq<BinEvent>, n: nat): seq<Event>
    requires n <= |middle|
  {
    if n == 0 then []
    else ChangesUpTo(file, middle, n - 1) +
         if HasChanges(middle[n - 1])
         then Converted(file, middle[n - 1].header, QueryAt(middle, n - 1), middle[n - 1].body.changes.value)
         else []
  }

  /** The last readable rows event. */
  function LastRows(middle: seq<BinEvent>, n: nat): Option<Header>
    requires n <= |middle|
  {
    if n == 0 then None
    else if HasChanges(middle[n - 1]) then Some(middle[n - 1].header)
    else LastRows(middle, n - 1)
  }

  lemma {:induction false} ChangesHaveRows(file: Text, middle: seq<BinEvent>, n: nat)
    requires n <= |middle| && ChangesUpTo(file, middle, n) != []
    ensures LastRows(middle, n).Some?
    decreases n
  {
    if !HasChanges(middle[n - 1]) { ChangesHaveRows(file, middle, n - 1); }
  }

  /** A transaction's identity: the GTID it was announced with, or where it commits. */
  function Identity(file: Text, gtid: Text, h: Header): Text { if gtid != "" then gtid else Place(file, h.logPos) }

  /** What a schema change commits. */
  function SchemaAt(file: Text, gtid: Text, e: BinEvent): Transaction
    requires e.body.Query?
  {
    var h := e.header;
    Transaction(Identity(file, gtid, h), When(h), h.serverId,
      [Event(e.body.schema, "", Op.SchemaChange, [], None, None, file, h.logPos, When(h), h.serverId,
        Trim(e.body.query))])
  }

  /** What the end of a transaction commits, if it commits any change. */
  function RowsOf(isDdl: Text -> bool, file: Text, gtid: Text, item: Item): Option<Transaction>
    requires item.Txn?
  {
    var changes, rows := ChangesUpTo(file, item.middle, |item.middle|), LastRows(item.middle, |item.middle|);
    if RollsBack(isDdl, item.end) || changes == [] || rows.None? then None
    else Some(Transaction(Identity(file, gtid, item.end.header), When(rows.value),
                          if rows.value.serverId == 0 then item.end.header.serverId else rows.value.serverId, changes))
  }

  function Nones(n: nat): (txns: seq<Option<Transaction>>)
    ensures |txns| == n && forall i :: 0 <= i < n ==> txns[i] == None
  {
    seq(n, i => None)
  }

  /** What each of the first n events inside a transaction commits: a schema change
      commits on its own. */
  function InsideUpTo(isDdl: Text -> bool, file: Text, gtid: Text, middle: seq<BinEvent>, n: nat)
    : seq<Option<Transaction>>
    requires n <= |middle|
  {
    seq(n, i requires 0 <= i < n =>
      if IsKind(isDdl, middle[i], Ddl) then Some(SchemaAt(file, gtid, middle[i])) else None)
  }

  /** What each event of a transaction commits. */
  function PlainCommits(isDdl: Text -> bool, file: Text, gtid: Text, item: Item): seq<Option<Transaction>>
    requires item.Txn?
  {
    Nones(|item.begin|) + InsideUpTo(isDdl, file, gtid, item.middle, |item.middle|) + [RowsOf(isDdl, file, gtid, item)]
  }

  function LastOf(txns: seq<Option<Transaction>>): Option<Transaction> {
    if txns == [] then None
    else if txns[|txns| - 1].Some? then txns[|txns| - 1]
    else LastOf(txns[..|txns| - 1])
  }

  function CoreCommits(isDdl: Text -> bool, file: Text, gtid: Text, item: Item): seq<Option<Transaction>> {
    match item
    case Txn(_, _, _, _, wrap) =>
      if wrap.Some? then [LastOf(PlainCommits(isDdl, file, gtid, item))] else PlainCommits(isDdl, file, gtid, item)
    case SchemaItem(_, ddl) => [if ddl.body.Query? then Some(SchemaAt(file, gtid, ddl)) else None]
    case Quiet(_, _) => [None]
  }

  /** What each event of an item leaves when this GTID is in force: a payload leaves only
      the last of what its events commit. */
  function Reported(isDdl: Text -> bool, file: Text, gtid: Text, item: Item): (txns: seq<Option<Transaction>>)
    ensures |txns| == Count(item)
  {
    Nones(|item.intro|) + CoreCommits(isDdl, file, gtid, item)
  }

  /** What each event of an item should leave, under the item's own identity. */
  function Committed(isDdl: Text -> bool, file: Text, item: Item): (txns: seq<Option<Transaction>>)
    ensures |txns| == Count(item)
  {
    Reported(isDdl, file, IdOf(item.intro), item)
  }

  /** A schema change stands inside the transaction. */
  predicate HoldsSchema(isDdl: Text -> bool, item: Item) {
    item.Txn? && exists j :: 0 <= j < |item.middle| && IsKind(isDdl, item.middle[j], Ddl)
  }

  /** The file the log stands in after an item. */
  function FileAfter(file: Text, item: Item): Text {
    if item.Quiet? && item.event.body.Rotate? then item.event.body.next else file
  }

  // ---------- The assembler reports it ----------

  /** The assembler between items; a GTID may be left over from a schema change. */
  function Rest(file: Text, gtid: Text): State { State(file, gtid, "", [], 0, 0) }

  /** Events of which each completes exactly this. */
  ghost predicate Yields(isDdl: Text -> bool, s: State, es: seq<BinEvent>, txns: seq<Option<Transaction>>, after: State)
  {
    var r := OneByOne(isDdl, s, es, |es|);
    && r.0 == after && r.1.Ok? && |r.1.value| == |es| == |txns|
    && forall i :: 0 <= i < |es| ==> r.1.value[i].txn == txns[i]
  }

  lemma YieldsOn(isDdl: Text -> bool, s: State, a: seq<BinEvent>, ta: seq<Option<Transaction>>, mid: State,
                 b: seq<BinEvent>, tb: seq<Option<Transaction>>, after: State)
    requires Yields(isDdl, s, a, ta, mid) && Yields(isDdl, mid, b, tb, after)
    ensures Yields(isDdl, s, a + b, ta + tb, after)
  {
    OneByOneConcat(isDdl, s, a, b, |b|);
  }

  lemma OneYields(isDdl: Text -> bool, s: State, e: BinEvent)
    requires Handle(isDdl, s, e).1.Ok?
    ensures Yields(isDdl, s, [e], [Handle(isDdl, s, e).1.value.txn], Handle(isDdl, s, e).0)
  {
    assert OneByOne(isDdl, s, [e], 0) == (s, Ok([]));
    assert [] + [Handle(isDdl, s, e).1.value] == [Handle(isDdl, s, e).1.value];
  }

  lemma NoneYields(isDdl: Text -> bool, s: State)
    ensures Yields(isDdl, s, [], [], s)
  {
  }

  /** The state partway through a transaction, in the log's own terms. */
  function Partway(file: Text, gtid: Text, middle: seq<BinEvent>, n: nat): State
    requires n <= |middle|
  {
    var rows := LastRows(middle, n);
    State(file, gtid, QueryAt(middle, n), ChangesUpTo(file, middle, n),
          if rows.Some? then When(rows.value) else 0, if rows.Some? then rows.value.serverId else 0)
  }

  lemma MiddleStep(isDdl: Text -> bool, file: Text, gtid: Text, middle: seq<BinEvent>, n: nat)
    requires n < |middle| && IsMiddle(isDdl, middle[n])
    ensures Handle(isDdl, Partway(file, gtid, middle, n), middle[n]).0 == Partway(file, gtid, middle, n + 1)
    ensures var r := Handle(isDdl, Partway(file, gtid, middle, n), middle[n]).1;
            r.Ok? && r.value.txn == if IsKind(isDdl, middle[n], Ddl) then Some(SchemaAt(file, gtid, middle[n]))
              else None
  {
    var changes := ChangesUpTo(file, middle, n);
    assert changes + [] == changes;
  }

  /** Partway through a transaction the assembler holds the changes so far, and has
      reported the schema changes. */
  lemma {:induction false} MiddleYields(isDdl: Text -> bool, file: Text, gtid: Text, middle: seq<BinEvent>, n: nat)
    requires n <= |middle| && forall i :: 0 <= i < |middle| ==> IsMiddle(isDdl, middle[i])
    ensures Yields(isDdl, Rest(file, gtid), middle[..n], InsideUpTo(isDdl, file, gtid, middle, n),
            Partway(file, gtid, middle, n))
    decreases n
  {
    if n == 0 {
      NoneYields(isDdl, Rest(file, gtid));
    } else {
      MiddleYields(isDdl, file, gtid, middle, n - 1);
      MiddleStep(isDdl, file, gtid, middle, n - 1);
      var s, e := Partway(file, gtid, middle, n - 1), middle[n - 1];
      OneYields(isDdl, s, e);
      assert middle[..n] == middle[..n - 1] + [e];
      assert InsideUpTo(isDdl, file, gtid, middle, n) ==
             InsideUpTo(isDdl, file, gtid, middle, n - 1) + [Handle(isDdl, s, e).1.value.txn];
      YieldsOn(isDdl, Rest(file, gtid), middle[..n - 1], InsideUpTo(isDdl, file, gtid, middle, n - 1), s,
        [e], [Handle(isDdl, s, e).1.value.txn], Partway(file, gtid, middle, n));
    }
  }

  lemma BeginYields(isDdl: Text -> bool, file: Text, gtid: Text, begin: seq<BinEvent>)
    requires |begin| <= 1 && forall e :: e in begin ==> IsKind(isDdl, e, Begin)
    ensures Yields(isDdl, Rest(file, gtid), begin, Nones(|begin|), Rest(file, gtid))
  {
    if begin == [] {
      NoneYields(isDdl, Rest(file, gtid));
    } else {
      assert begin == [begin[0]] && begin[0] in begin;
      OneYields(isDdl, Rest(file, gtid), begin[0]);
    }
  }

  predicate CarriesId(intro: seq<BinEvent>) { intro != [] && !intro[0].body.AnonymousGtid? }

  /** The GTID in force once an item is announced: its own, or one left over. */
  function InForce(gtid: Text, intro: seq<BinEvent>): Text { if CarriesId(intro) then IdOf(intro) else gtid }

  lemma IntroYields(isDdl: Text -> bool, file: Text, gtid: Text, intro: seq<BinEvent>)
    requires IntroOk(intro)
    ensures Yields(isDdl, Rest(file, gtid), intro, Nones(|intro|), Rest(file, InForce(gtid, intro)))
  {
    if intro == [] {
      NoneYields(isDdl, Rest(file, gtid));
    } else {
      assert intro == [intro[0]] && intro[0] in intro;
      OneYields(isDdl, Rest(file, gtid), intro[0]);
    }
  }

  lemma EndYields(isDdl: Text -> bool, file: Text, gtid: Text, item: Item)
    requires item.Txn? && ItemOk(isDdl, item)
    ensures Yields(isDdl, Partway(file, gtid, item.middle, |item.middle|), [item.end],
            [RowsOf(isDdl, file, gtid, item)], Rest(file, ""))
  {
    var s := Partway(file, gtid, item.middle, |item.middle|);
    if s.events != [] { ChangesHaveRows(file, item.middle, |item.middle|); }
    OneYields(isDdl, s, item.end);
  }

  lemma PlainYields(isDdl: Text -> bool, file: Text, gtid: Text, item: Item)
    requires item.Txn? && ItemOk(isDdl, item)
    ensures Yields(isDdl, Rest(file, gtid), Plain(item), PlainCommits(isDdl, file, gtid, item), Rest(file, ""))
  {
    var s, m := Rest(file, gtid), |item.middle|;
    var inside, mid := InsideUpTo(isDdl, file, gtid, item.middle, m), Partway(file, gtid, item.middle, m);
    BeginYields(isDdl, file, gtid, item.begin);
    MiddleYields(isDdl, file, gtid, item.middle, m);
    assert item.middle[..m] == item.middle;
    YieldsOn(isDdl, s, item.begin, Nones(|item.begin|), s, item.middle, inside, mid);
    EndYields(isDdl, file, gtid, item);
    YieldsOn(isDdl, s, item.begin + item.middle, Nones(|item.begin|) + inside, mid,
      [item.end], [RowsOf(isDdl, file, gtid, item)], Rest(file, ""));
  }

  lemma {:induction false} MergedIsLast(outcomes: seq<Outcome>, txns: seq<Option<Transaction>>)
    requires |outcomes| == |txns| && forall i :: 0 <= i < |txns| ==> outcomes[i].txn == txns[i]
    ensures MergedAll(outcomes).txn == LastOf(txns)
    decreases |txns|
  {
    if txns != [] { MergedIsLast(outcomes[..|txns| - 1], txns[..|txns| - 1]); }
  }

  /** A payload leaves the state its events would, and reports the last of what they do. */
  lemma WrappedYields(isDdl: Text -> bool, s: State, h: Header, es: seq<BinEvent>, txns: seq<Option<Transaction>>,
                      after: State)
    requires Yields(isDdl, s, es, txns, after) && forall i :: 0 <= i < |es| ==> !es[i].body.Payload?
    ensures Yields(isDdl, s, [BinEvent(h, Payload(es))], [LastOf(txns)], after)
  {
    PlainLeaves(es, |es|);
    assert es[..|es|] == es;
    PayloadIsItsLeaves(isDdl, s, es, |es|);
    MergedIsLast(OneByOne(isDdl, s, es, |es|).1.value, txns);
    OneYields(isDdl, s, BinEvent(h, Payload(es)));
  }

  lemma PlainHasNoPayload(isDdl: Text -> bool, item: Item)
    requires item.Txn? && ItemOk(isDdl, item)
    ensures forall i :: 0 <= i < |Plain(item)| ==> !Plain(item)[i].body.Payload?
  {
    forall i | 0 <= i < |Plain(item)| ensures !Plain(item)[i].body.Payload? {
      if i < |item.begin| { assert item.begin[i] in item.begin; }
    }
  }

  /** The GTID left over after an item: a schema change that stands alone leaves its own. */
  function LeftBehind(gtid: Text, item: Item): Text { if item.Txn? then "" else InForce(gtid, item.intro) }

  lemma CoreYields(isDdl: Text -> bool, file: Text, gtid: Text, item: Item)
    requires ItemOk(isDdl, item)
    ensures Yields(isDdl, Rest(file, gtid), Core(item), CoreCommits(isDdl, file, gtid, item),
                   Rest(FileAfter(file, item), if item.Txn? then "" else gtid))
  {
    match item
    case Txn(_, _, _, _, wrap) =>
      PlainYields(isDdl, file, gtid, item);
      if wrap.Some? {
        PlainHasNoPayload(isDdl, item);
        WrappedYields(isDdl, Rest(file, gtid), wrap.value, Plain(item), PlainCommits(isDdl, file, gtid, item),
          Rest(file, ""));
      }
    case SchemaItem(_, ddl) => OneYields(isDdl, Rest(file, gtid), ddl);
    case Quiet(_, event) => OneYields(isDdl, Rest(file, gtid), event);
  }

  /** Reading an item from rest, the assembler reports with each event exactly what that
      commits under the GTID in force, and comes to rest again. */
  lemma ItemYields(isDdl: Text -> bool, file: Text, gtid: Text, item: Item)
    requires ItemOk(isDdl, item)
    ensures Yields(isDdl, Rest(file, gtid), ItemEvents(item), Reported(isDdl, file, InForce(gtid, item.intro), item),
                   Rest(FileAfter(file, item), LeftBehind(gtid, item)))
  {
    var id := InForce(gtid, item.intro);
    IntroYields(isDdl, file, gtid, item.intro);
    CoreYields(isDdl, file, id, item);
    YieldsOn(isDdl, Rest(file, gtid), item.intro, Nones(|item.intro|), Rest(file, id), Core(item),
      CoreCommits(isDdl, file, id, item), Rest(FileAfter(file, item), LeftBehind(gtid, item)));
  }

  // ---------- Whose identity ----------

  /** No GTID is left over that the item does not replace by its own. */
  predicate GtidFits(gtid: Text, item: Item) { CarriesId(item.intro) || gtid == "" || item.Quiet? }

  lemma FittingIsOwn(isDdl: Text -> bool, file: Text, gtid: Text, item: Item)
    requires ItemOk(isDdl, item) && GtidFits(gtid, item)
    ensures Reported(isDdl, file, InForce(gtid, item.intro), item) == Committed(isDdl, file, item)
  {
    if !item.Quiet? && !CarriesId(item.intro) { assert IdOf(item.intro) == ""; }
  }

  /** A commit goes under the item's own identity if and only if no other GTID is left
      over, or the one that is happens to read as the very place of the commit. */
  lemma OwnIdentityExactly(file: Text, gtid: Text, intro: seq<BinEvent>, h: Header)
    ensures SourceId(Rest(file, InForce(gtid, intro)), h) == Identity(file, IdOf(intro), h) <==>
            CarriesId(intro) || gtid == "" || gtid == Place(file, h.logPos)
  {
    if !CarriesId(intro) { assert IdOf(intro) == ""; }
  }

  /** So the rows of a transaction are reported under its own identity exactly then. */
  lemma RowsAreOwnExactly(isDdl: Text -> bool, file: Text, gtid: Text, item: Item)
    requires item.Txn? && ItemOk(isDdl, item) && RowsOf(isDdl, file, IdOf(item.intro), item).Some?
    ensures RowsOf(isDdl, file, InForce(gtid, item.intro), item) == RowsOf(isDdl, file, IdOf(item.intro), item) <==>
            GtidFits(gtid, item) || gtid == Place(file, item.end.header.logPos)
  {
    OwnIdentityExactly(file, gtid, item.intro, item.end.header);
  }

  /** Inside a transaction, the schema change at j and the rows go under one identity if
      and only if a GTID is in force or both commit at one position. */
  lemma SharedIdentityExactly(file: Text, gtid: Text, middle: seq<BinEvent>, j: nat, end: Header)
    requires j < |middle|
    ensures SourceId(Partway(file, gtid, middle, j), middle[j].header) ==
            SourceId(Partway(file, gtid, middle, |middle|), end) <==>
            gtid != "" || middle[j].header.logPos == end.logPos
  {
    if gtid == "" && Place(file, middle[j].header.logPos) == Place(file, end.logPos) {
      PlaceTellsApart(file, middle[j].header.logPos, file, end.logPos);
    }
  }

  /** Of a transaction, everything it commits is reported if and only if it is not
      wrapped or commits once at most. */
  lemma AllIsReportedExactly(isDdl: Text -> bool, file: Text, item: Item)
    requires item.Txn?
    ensures var gtid := IdOf(item.intro);
            Somes(Committed(isDdl, file, item)) == Somes(PlainCommits(isDdl, file, gtid, item)) <==>
            item.wrap.None? || |Somes(PlainCommits(isDdl, file, gtid, item))| <= 1
  {
    var gtid := IdOf(item.intro);
    NonesAreNothing(|item.intro|, CoreCommits(isDdl, file, gtid, item));
    if item.wrap.Some? { OnlyOneIsAll(PlainCommits(isDdl, file, gtid, item)); }
  }

  /** The last alone is all if and only if there is one at most. */
  lemma OnlyOneIsAll(txns: seq<Option<Transaction>>)
    ensures Somes([LastOf(txns)]) == Somes(txns) <==> |Somes(txns)| <= 1
  {
    LastOfIsLast(txns);
    OneMoreSome([], LastOf(txns));
    assert [] + [LastOf(txns)] == [LastOf(txns)];
  }

  lemma {:induction false} NonesAreNothing(n: nat, txns: seq<Option<Transaction>>)
    ensures Somes(Nones(n) + txns) == Somes(txns)
    decreases |txns|, n
  {
    var all := Nones(n) + txns;
    if txns != [] {
      assert all[..|all| - 1] == Nones(n) + txns[..|txns| - 1];
      NonesAreNothing(n, txns[..|txns| - 1]);
    } else if n > 0 {
      assert all[..|all| - 1] == Nones(n - 1) + txns;
      NonesAreNothing(n - 1, txns);
    }
  }

  lemma {:induction false} LastOfIsLast(txns: seq<Option<Transaction>>)
    ensures LastOf(txns) == if Somes(txns) == [] then None else Some(Last(Somes(txns)))
    decreases |txns|
  {
    if txns != [] { LastOfIsLast(txns[..|txns| - 1]); }
  }

  // ---------- The statement of a change ----------

  /** The annotation since the last rows event of any kind: the statement whose rows
      come next. */
  function OwnAt(middle: seq<BinEvent>, i: nat): Text
    requires i <= |middle|
  {
    if i == 0 then ""
    else match middle[i - 1].body
      case Annotation(query) => query
      case Rows(_) => ""
      case _ => OwnAt(middle, i - 1)
  }

  /** The statement of an unreadable rows event at u is still in force at i. */
  predicate Lingers(middle: seq<BinEvent>, u: nat, i: nat)
    requires i <= |middle|
  {
    && u < i && Unreadable(middle[u]) && QueryAt(middle, u) != ""
    && forall k :: u < k < i ==> !middle[k].body.Annotation? && !HasChanges(middle[k])
  }

  lemma {:induction false} LingeringStays(middle: seq<BinEvent>, u: nat, i: nat)
    requires i <= |middle| && Lingers(middle, u, i)
    ensures QueryAt(middle, i) == QueryAt(middle, u)
    decreases i
  {
    if u < i - 1 { LingeringStays(middle, u, i - 1); }
  }

  /** Only an annotation or a readable rows event ends it. */
  lemma LingersPast(middle: seq<BinEvent>, u: nat, i: nat)
    requires 0 < i <= |middle| && !Unreadable(middle[i - 1])
    ensures Lingers(middle, u, i) <==>
            !middle[i - 1].body.Annotation? && !HasChanges(middle[i - 1]) && Lingers(middle, u, i - 1)
  {
    if Lingers(middle, u, i) { assert u != i - 1; }
  }

  lemma {:induction false} OwnUnlessLingering(middle: seq<BinEvent>, i: nat)
    requires i <= |middle|
    ensures QueryAt(middle, i) == OwnAt(middle, i) <==> !exists u :: Lingers(middle, u, i)
    decreases i
  {
    if i > 0 {
      OwnUnlessLingering(middle, i - 1);
      var e := middle[i - 1];
      if Unreadable(e) {
        if QueryAt(middle, i - 1) != "" { assert Lingers(middle, i - 1, i); }
        forall u | Lingers(middle, u, i) ensures QueryAt(middle, i) != "" { LingeringStays(middle, u, i); }
      } else if !e.body.Annotation? && !HasChanges(e) {
        assert QueryAt(middle, i) == QueryAt(middle, i - 1) && OwnAt(middle, i) == OwnAt(middle, i - 1);
        if u: nat :| Lingers(middle, u, i) {
          LingersPast(middle, u, i);
          assert Lingers(middle, u, i - 1);
        }
        var before := i - 1;
        if u: nat :| Lingers(middle, u, before) {
          LingersPast(middle, u, i);
          assert Lingers(middle, u, i);
        }
      } else {
        assert QueryAt(middle, i) == OwnAt(middle, i);
        forall u: nat ensures !Lingers(middle, u, i) { LingersPast(middle, u, i); }
      }
    }
  }

  /** An unreadable rows event under an annotation, and a readable one before the next
      annotation. */
  predicate Overtaken(middle: seq<BinEvent>, u: nat, i: nat) {
    && u < i < |middle| && Unreadable(middle[u]) && QueryAt(middle, u) != "" && HasChanges(middle[i])
    && forall k :: u < k < i ==> !middle[k].body.Annotation?
  }

  /** The changes at i carry the statement that produced them. */
  predicate IsOwn(middle: seq<BinEvent>, i: nat)
    requires i < |middle|
  {
    HasChanges(middle[i]) ==> QueryAt(middle, i) == OwnAt(middle, i)
  }

  /** Every change carries the statement that produced it if and only if no unreadable
      rows event under an annotation is followed by a readable one before the next
      annotation. */
  lemma StatementsAreOwnExactly(middle: seq<BinEvent>)
    ensures (forall i :: 0 <= i < |middle| ==> IsOwn(middle, i)) <==> !exists u, i :: Overtaken(middle, u, i)
  {
    forall i | 0 <= i < |middle| && !IsOwn(middle, i) ensures exists u :: Overtaken(middle, u, i) {
      OwnUnlessLingering(middle, i);
      var u :| Lingers(middle, u, i);
      assert Overtaken(middle, u, i);
    }
    if u, i :| Overtaken(middle, u, i) {
      var k := OvertakenIsNotOwn(middle, u, i);
    }
  }

  lemma OvertakenIsNotOwn(middle: seq<BinEvent>, u: nat, i: nat) returns (k: nat)
    requires Overtaken(middle, u, i)
    ensures k < |middle| && !IsOwn(middle, k)
  {
    k := FirstReadable(middle, u, i);
    assert Lingers(middle, u, k);
    OwnUnlessLingering(middle, k);
  }

  lemma {:induction false} FirstReadable(middle: seq<BinEvent>, u: nat, i: nat) returns (k: nat)
    requires u < i < |middle| && HasChanges(middle[i])
    ensures u < k <= i && HasChanges(middle[k]) && forall j :: u < j < k ==> !HasChanges(middle[j])
    decreases i
  {
    if j :| u < j < i && HasChanges(middle[j]) { k := FirstReadable(middle, u, j); } else { k := i; }
  }

  /** The condition is not empty: the rows of a later statement carry the text of the one
      whose rows could not be read. */
  lemma StatementMayBeAnothers(ev: Event) returns (middle: seq<BinEvent>)
    ensures |middle| == 3 && HasChanges(middle[2]) && OwnAt(middle, 2) == "" && QueryAt(middle, 2) == "DELETE"
    ensures ChangesUpTo("f", middle, 3) == Converted("f", middle[2].header, "DELETE", [ev])
  {
    var h := Header(1, 1, 1, 1);
    middle := [BinEvent(h, Annotation("DELETE")), BinEvent(h, Rows(None)), BinEvent(h, Rows(Some([ev])))];
    assert QueryAt(middle, 1) == "DELETE";
    assert ChangesUpTo("f", middle, 0) == ChangesUpTo("f", middle, 1) == ChangesUpTo("f", middle, 2) == [];
    assert ChangesUpTo("f", middle, 3) == [] + Converted("f", h, "DELETE", [ev]);
  }

  // ---------- Changes that could not be read ----------

  /** An item reports a miss at an instant with one of its events. */
  predicate Reports(item: Item, t: Instant) {
    Counts(item);
    exists j :: 0 <= j < Count(item) && ReportedBy(ItemEvents(item)[j]) == Some(t)
  }

  /** Every unreadable change of a transaction is reported at its own instant. */
  predicate ReportsAll(item: Item)
    requires item.Txn?
  {
    forall i :: 0 <= i < |item.middle| && Unreadable(item.middle[i]) ==> Reports(item, When(item.middle[i].header))
  }

  /** No two unreadable changes stand at different instants. */
  predicate OneMissInstant(middle: seq<BinEvent>) {
    forall i, j :: 0 <= i < j < |middle| && Unreadable(middle[i]) && Unreadable(middle[j]) ==>
      When(middle[i].header) == When(middle[j].header)
  }

  lemma PlainReports(item: Item, i: nat)
    requires item.Txn? && item.wrap.None? && i < |item.middle| && Unreadable(item.middle[i])
    ensures Reports(item, When(item.middle[i].header))
  {
    var j := |item.intro| + |item.begin| + i;
    assert ItemEvents(item)[j] == item.middle[i];
  }

  /** Among the events of a transaction only its middle can hold unreadable changes. */
  lemma {:induction false} QuietMisses(es: seq<BinEvent>)
    requires forall i :: 0 <= i < |es| ==> !Unreadable(es[i])
    ensures MissesAmong(es) == []
    decreases |es|
  {
    if es != [] { QuietMisses(es[..|es| - 1]); }
  }

  lemma {:induction false} MissesAre(es: seq<BinEvent>)
    ensures forall t :: t in MissesAmong(es) <==>
            exists i :: 0 <= i < |es| && Unreadable(es[i]) && When(es[i].header) == t
    decreases |es|
  {
    if es != [] {
      var init, last := es[..|es| - 1], es[|es| - 1];
      MissesAre(init);
      forall t | t in MissesAmong(es)
        ensures exists i :: 0 <= i < |es| && Unreadable(es[i]) && When(es[i].header) == t {
        if t in MissesAmong(init) {
          var i :| 0 <= i < |init| && Unreadable(init[i]) && When(init[i].header) == t;
          assert es[i] == init[i];
        } else {
          assert es[|es| - 1] == last;
        }
      }
      forall i | 0 <= i < |es| && Unreadable(es[i]) ensures When(es[i].header) in MissesAmong(es) {
        if i < |init| { assert init[i] == es[i]; }
      }
    }
  }

  lemma PlainHasMiddleMisses(isDdl: Text -> bool, item: Item)
    requires item.Txn? && ItemOk(isDdl, item)
    ensures MissesAmong(Plain(item)) == MissesAmong(item.middle)
  {
    forall i | 0 <= i < |item.begin| ensures !Unreadable(item.begin[i]) { assert item.begin[i] in item.begin; }
    QuietMisses(item.begin);
    QuietMisses([item.end]);
    MissesConcat(item.begin, item.middle);
    MissesConcat(item.begin + item.middle, [item.end]);
    assert [] + MissesAmong(item.middle) == MissesAmong(item.middle);
    assert MissesAmong(item.middle) + [] == MissesAmong(item.middle);
  }

  lemma PayloadReportsLast(isDdl: Text -> bool, item: Item)
    requires item.Txn? && ItemOk(isDdl, item) && item.wrap.Some?
    ensures ReportedBy(BinEvent(item.wrap.value, Payload(Plain(item)))) == LastMiss(MissesAmong(item.middle))
  {
    PlainHasNoPayload(isDdl, item);
    PlainLeaves(Plain(item), |Plain(item)|);
    assert Plain(item)[..|Plain(item)|] == Plain(item);
    LastMissWins(BinEvent(item.wrap.value, Payload(Plain(item))));
    PlainHasMiddleMisses(isDdl, item);
  }

  lemma WrappedReports(isDdl: Text -> bool, item: Item, t: Instant)
    requires item.Txn? && ItemOk(isDdl, item) && item.wrap.Some?
    ensures Reports(item, t) <==> LastMiss(MissesAmong(item.middle)) == Some(t)
  {
    var e := BinEvent(item.wrap.value, Payload(Plain(item)));
    PayloadReportsLast(isDdl, item);
    assert ItemEvents(item)[|item.intro|] == e;
    forall j | 0 <= j < |item.intro| ensures ReportedBy(ItemEvents(item)[j]).None? {
      assert item.intro[j] in item.intro;
    }
  }

  /** Exactly when a transaction reports every unreadable change at its instant: it is
      not wrapped, or its unreadable changes all stand at one instant. */
  lemma ReportsAllExactly(isDdl: Text -> bool, item: Item)
    requires item.Txn? && ItemOk(isDdl, item)
    ensures ReportsAll(item) <==> item.wrap.None? || OneMissInstant(item.middle)
  {
    if item.wrap.None? {
      forall i | 0 <= i < |item.middle| && Unreadable(item.middle[i])
        ensures Reports(item, When(item.middle[i].header)) {
        PlainReports(item, i);
      }
    } else {
      var misses := MissesAmong(item.middle);
      MissesAre(item.middle);
      forall i | 0 <= i < |item.middle| && Unreadable(item.middle[i])
        ensures Reports(item, When(item.middle[i].header)) <==> LastMiss(misses) == Some(When(item.middle[i].header))
        ensures When(item.middle[i].header) in misses
      {
        WrappedReports(isDdl, item, When(item.middle[i].header));
      }
      if misses != [] {
        var last := misses[|misses| - 1];
        assert last in misses;
        var k :| 0 <= k < |item.middle| && Unreadable(item.middle[k]) && When(item.middle[k].header) == last;
      }
    }
  }
}
