/** Following a timeline page by page while the collector keeps appending
    (internal/store/page.go, internal/api/changes.go). */
module Paging {
  import opened Sequences
  import opened Wrappers
  import opened Change
  import opened Storage
  import opened Store
  import opened StoreLog
  import opened StoreRuns

  const DEFAULT_PAGE_SIZE := 100
  const MAX_PAGE_SIZE := 1000

  /** What a limit asked for comes to. */
  function EffectiveLimit(limit: int): (n: nat)
    ensures 0 < n <= MAX_PAGE_SIZE
    ensures 0 < limit <= MAX_PAGE_SIZE ==> n == limit
    ensures limit <= 0 ==> n == DEFAULT_PAGE_SIZE
    ensures limit > MAX_PAGE_SIZE ==> n == MAX_PAGE_SIZE
  {
    if limit <= 0 then DEFAULT_PAGE_SIZE else if limit > MAX_PAGE_SIZE then MAX_PAGE_SIZE else limit
  }

  /** A cursor of 0 starts at the newest change. */
  predicate PastCursor(before: int, id: nat) { before == 0 || id < before }

  /** The last matching changes of the first n rows, newest first; rows past the
      page are never read. */
  function PageUpTo(rows: seq<RowChange>, txns: seq<TxnRow>, f: Filter, before: int, room: nat, n: nat)
    : Result<seq<Entry>, ReadError>
    requires n <= |rows|
  {
    if n == 0 || room == 0 then Ok([])
    else
      var row := rows[n - 1];
      var t := FindTxn(txns, row.txnId);
      if t.None? || !PastCursor(before, row.id) then PageUpTo(rows, txns, f, before, room, n - 1)
      else match DecodeEvent(row.data, t.value.committedAt, t.value.serverId)
        case Err(e) => Err(Corrupt(e))
        case Ok(ev) =>
          if !Match(f, ev) then PageUpTo(rows, txns, f, before, room, n - 1)
          else
            var rest :- PageUpTo(rows, txns, f, before, room - 1, n - 1);
            Ok([Entry(row.id, ev)] + rest)
  }

  function Page(s: State, f: Filter, before: int, limit: int, now: int): Result<seq<Entry>, ReadError> {
    var refusal := Judge(s, f, now);
    if refusal.Some? then Err(Refused(refusal.value))
    else PageUpTo(s.rows, s.txns, f, before, EffectiveLimit(limit), |s.rows|)
  }

  /** One reply: a page, and where the next one starts when this one came back full. */
  datatype ChangePage = ChangePage(entries: seq<Entry>, next: Option<nat>)

  function Reply(s: State, f: Filter, before: int, limit: int, now: int): Result<ChangePage, ReadError> {
    var entries :- Page(s, f, before, limit, now);
    Ok(ChangePage(entries,
                  if |entries| > 0 && |entries| == EffectiveLimit(limit) then Some(entries[|entries| - 1].id)
                    else None))
  }

  // ---------- A page is a piece of the window, newest first ----------

  /** The entries a filter keeps past a cursor, newest first. */
  function NewestFirst(f: Filter, before: int, entries: seq<Entry>): seq<Entry> {
    if entries == [] then []
    else
      var last, rest := entries[|entries| - 1], NewestFirst(f, before, entries[..|entries| - 1]);
      if PastCursor(before, last.id) && Match(f, last.event) then [last] + rest else rest
  }

  function Upto<T>(n: nat, xs: seq<T>): seq<T> { if n <= |xs| then xs[..n] else xs }

  lemma NewestRow(rows: seq<RowChange>, txns: seq<TxnRow>, f: Filter, before: int, room: nat, n: nat, e: Entry,
                  view: seq<Entry>)
    requires 0 < n <= |rows| && room > 0 && ReadsAs(rows[n - 1], FindTxn(txns, rows[n - 1].txnId), e)
    requires var left := if PastCursor(before, e.id) && Match(f, e.event) then room - 1 else room;
             PageUpTo(rows, txns, f, before, left, n - 1) == Ok(Upto(left, NewestFirst(f, before, view)))
    ensures PageUpTo(rows, txns, f, before, room, n) == Ok(Upto(room, NewestFirst(f, before, view + [e])))
  {
    NewestFirstStep(f, before, view, e);
    UptoStep(room, e, NewestFirst(f, before, view));
  }

  lemma {:induction false} PageIsNewestFirst(rows: seq<RowChange>, txns: seq<TxnRow>, f: Filter, before: int,
                                             room: nat, n: nat)
    requires n <= |rows| && ViewUpTo(rows, txns, n).Ok?
    ensures PageUpTo(rows, txns, f, before, room, n) ==
            Ok(Upto(room, NewestFirst(f, before, ViewUpTo(rows, txns, n).value)))
    decreases n
  {
    if n > 0 && room > 0 {
      if FindTxn(txns, rows[n - 1].txnId).None? {
        PageIsNewestFirst(rows, txns, f, before, room, n - 1);
      } else {
        var e := ViewStep(rows, txns, n);
        var left := if PastCursor(before, e.id) && Match(f, e.event) then room - 1 else room;
        PageIsNewestFirst(rows, txns, f, before, left, n - 1);
        NewestRow(rows, txns, f, before, room, n, e, ViewUpTo(rows, txns, n - 1).value);
      }
    }
  }

  lemma UptoStep<T>(n: nat, x: T, xs: seq<T>)
    requires n > 0
    ensures Upto(n, [x] + xs) == [x] + Upto(n - 1, xs)
  {
  }

  lemma NewestFirstStep(f: Filter, before: int, entries: seq<Entry>, e: Entry)
    ensures NewestFirst(f, before, entries + [e]) ==
            (if PastCursor(before, e.id) && Match(f, e.event) then [e] else []) + NewestFirst(f, before, entries)
  {
    assert (entries + [e])[..|entries|] == entries;
    var rest := NewestFirst(f, before, entries);
    assert [] + rest == rest;
  }

  function Reversed<T>(xs: seq<T>): (r: seq<T>)
    ensures |r| == |xs| && forall i :: 0 <= i < |xs| ==> r[i] == xs[|xs| - 1 - i]
  {
    seq(|xs|, i requires 0 <= i < |xs| => xs[|xs| - 1 - i])
  }

  /** With no cursor, the changes newest first are what Events returns, reversed. */
  lemma {:induction false} NewestFirstReversesEvents(f: Filter, entries: seq<Entry>)
    ensures EventsOf(NewestFirst(f, 0, entries)) == Reversed(Matching(f, EventsOf(entries)))
    decreases |entries|
  {
    if entries != [] {
      var n := |entries| - 1;
      NewestFirstReversesEvents(f, entries[..n]);
      assert EventsOf(entries)[..n] == EventsOf(entries[..n]);
      var rest, kept := NewestFirst(f, 0, entries[..n]), Matching(f, EventsOf(entries[..n]));
      if Match(f, entries[n].event) {
        assert EventsOf([entries[n]] + rest) == [entries[n].event] + EventsOf(rest);
        assert Reversed(kept + [entries[n].event]) == [entries[n].event] + Reversed(kept);
      }
    }
  }

  // ---------- Cursors ----------

  /** Row identities: positive, and growing with every change stored. */
  ghost predicate IdsOk(entries: seq<Entry>) {
    && (forall i :: 0 <= i < |entries| ==> entries[i].id > 0)
    && (forall i, j :: 0 <= i < j < |entries| ==> entries[i].id < entries[j].id)
  }

  /** A listing past a cursor: entries of the view, the newest first. */
  ghost predicate Listing(before: int, r: seq<Entry>, entries: seq<Entry>) {
    && (forall i :: 0 <= i < |r| ==> r[i] in entries && PastCursor(before, r[i].id))
    && (forall i, j :: 0 <= i < j < |r| ==> r[i].id > r[j].id)
  }

  lemma ListingStep(before: int, rest: seq<Entry>, entries: seq<Entry>, last: Entry)
    requires Listing(before, rest, entries) && IdsOk(entries + [last])
    ensures Listing(before, rest, entries + [last])
    ensures PastCursor(before, last.id) ==> Listing(before, [last] + rest, entries + [last])
  {
    forall i | 0 <= i < |rest| ensures rest[i].id < last.id {
      var k :| 0 <= k < |entries| && entries[k] == rest[i];
      assert (entries + [last])[k] == entries[k] && (entries + [last])[|entries|] == last;
    }
  }

  lemma {:induction false} NewestFirstIs(f: Filter, before: int, entries: seq<Entry>)
    requires IdsOk(entries)
    ensures Listing(before, NewestFirst(f, before, entries), entries)
    decreases |entries|
  {
    if entries != [] {
      var n := |entries| - 1;
      NewestFirstIs(f, before, entries[..n]);
      assert entries[..n] + [entries[n]] == entries;
      ListingStep(before, NewestFirst(f, before, entries[..n]), entries[..n], entries[n]);
    }
  }

  /** Entries at or past the cursor add nothing. */
  lemma {:induction false} NothingNewer(f: Filter, before: int, entries: seq<Entry>, more: seq<Entry>)
    requires before > 0 && forall i :: 0 <= i < |more| ==> more[i].id >= before
    ensures NewestFirst(f, before, entries + more) == NewestFirst(f, before, entries)
    decreases |more|
  {
    if more == [] {
      assert entries + more == entries;
    } else {
      var n := |more| - 1;
      NothingNewer(f, before, entries, more[..n]);
      assert entries + more == (entries + more[..n]) + [more[n]];
      NewestFirstStep(f, before, entries + more[..n], more[n]);
    }
  }

  /** The cursor is the place in the window: past the k-th change come the ones after it. */
  lemma {:induction false} CursorDropsTaken(f: Filter, entries: seq<Entry>, k: nat)
    requires IdsOk(entries) && k < |NewestFirst(f, 0, entries)|
    ensures var all := NewestFirst(f, 0, entries); NewestFirst(f, all[k].id, entries) == all[k + 1..]
    decreases |entries|
  {
    var n := |entries| - 1;
    var rest, last := NewestFirst(f, 0, entries[..n]), entries[n];
    if !Match(f, last.event) {
      CursorDropsTaken(f, entries[..n], k);
    } else if k == 0 {
      AllPast(f, last.id, entries[..n]);
      assert NewestFirst(f, 0, entries)[1..] == rest;
    } else {
      CursorDropsTaken(f, entries[..n], k - 1);
      NewestFirstIs(f, 0, entries[..n]);
      assert NewestFirst(f, 0, entries) == [last] + rest;
      var i :| 0 <= i < n && entries[i] == rest[k - 1];
      assert NewestFirst(f, 0, entries)[k + 1..] == rest[k..];
    }
  }

  lemma {:induction false} AllPast(f: Filter, before: int, entries: seq<Entry>)
    requires before > 0 && forall i :: 0 <= i < |entries| ==> entries[i].id < before
    ensures NewestFirst(f, before, entries) == NewestFirst(f, 0, entries)
    decreases |entries|
  {
    if entries != [] { AllPast(f, before, entries[..|entries| - 1]); }
  }

  // ---------- Following the cursor ----------

  /** A client following the cursor: request i is answered by the state after the
      first at[i] operations of one run. */
  ghost predicate Answered(ops: seq<StoreOp>, at: nat, now: int, pages: seq<ChangePage>, f: Filter, limit: int, i: nat)
    requires at <= |ops| && i < |pages|
  {
    && (i > 0 ==> pages[i - 1].next.Some?)
    && Reply(RunOf(ops[..at]), f, if i == 0 then 0 else pages[i - 1].next.value, limit, now) == Ok(pages[i])
  }

  ghost predicate Followed(ops: seq<StoreOp>, at: seq<nat>, nows: seq<int>, pages: seq<ChangePage>, f: Filter,
                           limit: int) {
    && |pages| == |at| == |nows|
    && (forall i :: 0 <= i < |at| ==> at[i] <= |ops|)
    && (forall i, j :: 0 <= i < j < |at| ==> at[i] <= at[j])
    && (forall i :: 0 <= i < |pages| ==> Answered(ops, at[i], nows[i], pages, f, limit, i))
  }

  /** No pruning from operation n on. */
  predicate NothingPruned(ops: seq<StoreOp>, n: nat) { forall k :: n <= k < |ops| ==> !ops[k].Pruned? }

  function Gathered(pages: seq<ChangePage>): seq<Entry> {
    if pages == [] then [] else Gathered(Init(pages)) + Last(pages).entries
  }

  /** What the store holds in view. */
  ghost function Seen(ops: seq<StoreOp>): seq<Entry>
    requires Consistent(ops)
  {
    InvAlwaysHolds(ops);
    View(RunOf(ops)).value
  }

  ghost predicate SameIds(view: seq<Entry>, rows: seq<RowChange>, n: nat) {
    |view| == n <= |rows| && forall i :: 0 <= i < n ==> view[i].id == rows[i].id
  }

  lemma ViewHasRowIds(rows: seq<RowChange>, txns: seq<TxnRow>)
    requires RowsJoined(rows, txns) && ViewUpTo(rows, txns, |rows|).Ok?
    ensures SameIds(ViewUpTo(rows, txns, |rows|).value, rows, |rows|)
  {
    forall i: nat | i < |rows| ensures HasTxn(rows, txns, i) { RowIsJoined(rows, txns, i); }
    ViewHasIdsUpTo(rows, txns, |rows|);
  }

  ghost predicate HasTxn(rows: seq<RowChange>, txns: seq<TxnRow>, i: nat)
    requires i < |rows|
  {
    FindTxn(txns, rows[i].txnId).Some?
  }

  lemma {:induction false} ViewHasIdsUpTo(rows: seq<RowChange>, txns: seq<TxnRow>, n: nat)
    requires n <= |rows| && ViewUpTo(rows, txns, n).Ok?
    requires forall i: nat {:trigger HasTxn(rows, txns, i)} :: i < |rows| ==> HasTxn(rows, txns, i)
    ensures SameIds(ViewUpTo(rows, txns, n).value, rows, n)
    decreases n
  {
    if n > 0 {
      assert HasTxn(rows, txns, n - 1);
      var e := ViewStep(rows, txns, n);
      ViewHasIdsUpTo(rows, txns, n - 1);
      SameIdsStep(ViewUpTo(rows, txns, n - 1).value, rows, n - 1, e);
    }
  }

  lemma SameIdsStep(view: seq<Entry>, rows: seq<RowChange>, n: nat, e: Entry)
    requires n < |rows| && SameIds(view, rows, n) && e.id == rows[n].id
    ensures SameIds(view + [e], rows, n + 1)
  {
  }

  ghost predicate IdsPositive(rows: seq<RowChange>) { forall i :: 0 <= i < |rows| ==> rows[i].id > 0 }

  lemma OneMorePositive(rows: seq<RowChange>, r: RowChange)
    requires IdsPositive(rows) && r.id > 0
    ensures IdsPositive(rows + [r])
  {
  }

  lemma {:induction false} AddedIdsPositive(rows: seq<RowChange>, txnId: nat, data: seq<EncodedRow>, n: nat)
    requires n <= |data| && IdsPositive(rows)
    ensures IdsPositive(AddRows(rows, txnId, data, n))
    decreases n
  {
    if n > 0 {
      AddedIdsPositive(rows, txnId, data, n - 1);
      var before := AddRows(rows, txnId, data, n - 1);
      OneMorePositive(before, RowChange(NextRowId(before), txnId, data[n - 1]));
    }
  }

  lemma KeptIdsPositive(s: State, edge: int)
    requires IdsPositive(s.rows)
    ensures IdsPositive(KeptRows(s.rows, s.txns, edge))
  {
    KeepIs((r: RowChange) => var t := FindTxn(s.txns, r.txnId); t.None? || t.value.committedAt >= edge, s.rows);
  }

  lemma {:induction false} IdsArePositive(ops: seq<StoreOp>)
    ensures IdsPositive(RunOf(ops).rows)
    decreases |ops|
  {
    if ops != [] {
      var s, op := RunOf(Init(ops)), Last(ops);
      IdsArePositive(Init(ops));
      match op
      case AppendTxn(txn, cp) =>
        var data := EncodeUpTo(txn.events, |txn.events|);
        if data.Ok? { AddedIdsPositive(s.rows, NextTxnId(s.txns), data.value, |data.value|); }
      case Pruned(now) => if Edge(s, now).Some? { KeptIdsPositive(s, Edge(s, now).value); }
      case _ =>
    }
  }

  lemma SeenIds(ops: seq<StoreOp>)
    requires Consistent(ops)
    ensures IdsOk(Seen(ops))
  {
    InvAlwaysHolds(ops);
    IdsArePositive(ops);
    var s := RunOf(ops);
    ViewHasRowIds(s.rows, s.txns);
  }

  lemma StepKeepsSeen(s: State, l: Ledger, op: StoreOp)
    requires Inv(s, l) && OpOk(l, op) && !op.Pruned?
    ensures View(Apply(s, op)).Ok? && View(s).value <= View(Apply(s, op)).value
  {
    if op.AppendTxn? && EncodeUpTo(op.txn.events, |op.txn.events|).Ok? {
      AppendStores(s, op.txn, op.cp);
      if !HasSource(s.txns, op.txn.sourceId) { NewTransaction(s, op.txn, op.cp); }
    }
  }

  /** Whatever happens but a prune, changes in view stay where they are. */
  lemma {:induction false} SeenGrows(ops: seq<StoreOp>, i: nat, j: nat)
    requires Consistent(ops) && i <= j <= |ops| && NothingPruned(ops, i)
    ensures Seen(ops[..i]) <= Seen(ops[..j])
    decreases j
  {
    if i < j {
      SeenGrows(ops, i, j - 1);
      assert Init(ops[..j]) == ops[..j - 1];
      InvAlwaysHolds(ops[..j - 1]);
      LastIsOk(ops[..j]);
      StepKeepsSeen(RunOf(ops[..j - 1]), LedgerOf(ops[..j - 1]), ops[j - 1]);
    }
  }

  lemma ReplyShape(ops: seq<StoreOp>, f: Filter, before: int, limit: int, now: int)
    requires Consistent(ops) && Reply(RunOf(ops), f, before, limit, now).Ok?
    ensures var page, n := Reply(RunOf(ops), f, before, limit, now).value, EffectiveLimit(limit);
            && page.entries == Upto(n, NewestFirst(f, before, Seen(ops)))
            && (page.next.Some? <==> |page.entries| == n)
            && (page.next.Some? ==> page.next.value == page.entries[n - 1].id)
  {
    InvAlwaysHolds(ops);
    var s := RunOf(ops);
    PageIsNewestFirst(s.rows, s.txns, f, before, EffectiveLimit(limit), |s.rows|);
  }

  /** What lies past a cursor inside the first view is the same in every later view. */
  lemma LaterPage(f: Filter, first: seq<Entry>, later: seq<Entry>, k: nat)
    requires IdsOk(first) && IdsOk(later) && first <= later && k < |NewestFirst(f, 0, first)|
    ensures var all := NewestFirst(f, 0, first); all[k].id > 0 && NewestFirst(f, all[k].id, later) == all[k + 1..]
  {
    var all, more := NewestFirst(f, 0, first), later[|first|..];
    NewestFirstIs(f, 0, first);
    var i :| 0 <= i < |first| && first[i] == all[k];
    assert later == first + more;
    assert forall j :: 0 <= j < |more| ==> more[j].id == later[|first| + j].id && first[i].id == later[i].id;
    NothingNewer(f, all[k].id, first, more);
    CursorDropsTaken(f, first, k);
  }

  /** The first m pages make up the first part of the window, in full pages but for the last. */
  ghost predicate PagesHold(pages: seq<ChangePage>, m: nat, all: seq<Entry>, n: nat, upto: nat) {
    && 0 < m <= |pages| && 0 < upto
    && Gathered(pages[..m]) == Upto(upto, all)
    && (pages[m - 1].next.Some? <==> upto <= |all|)
    && (pages[m - 1].next.Some? ==> pages[m - 1].next.value == all[upto - 1].id)
  }

  lemma FirstPage(pages: seq<ChangePage>, all: seq<Entry>, n: nat)
    requires pages != [] && n > 0 && pages[0].entries == Upto(n, all)
    requires pages[0].next.Some? <==> |pages[0].entries| == n
    requires pages[0].next.Some? ==> pages[0].next.value == pages[0].entries[n - 1].id
    ensures PagesHold(pages, 1, all, n, n)
  {
    assert Init(pages[..1]) == [] && Last(pages[..1]) == pages[0];
    assert [] + pages[0].entries == pages[0].entries;
  }

  lemma OneMorePage(pages: seq<ChangePage>, m: nat, all: seq<Entry>, n: nat, upto: nat)
    requires 0 < m < |pages| && n > 0 && PagesHold(pages, m, all, n, upto) && upto <= |all|
    requires pages[m].entries == Upto(n, all[upto..])
    requires pages[m].next.Some? <==> |pages[m].entries| == n
    requires pages[m].next.Some? ==> pages[m].next.value == pages[m].entries[n - 1].id
    ensures PagesHold(pages, m + 1, all, n, upto + n)
  {
    assert Init(pages[..m + 1]) == pages[..m] && Last(pages[..m + 1]) == pages[m];
    UptoMore(all, upto, n, upto + n);
  }

  /** The (m + 1)-st request is answered with what lies past the m-th page's cursor. */
  lemma LaterReply(ops: seq<StoreOp>, at: seq<nat>, nows: seq<int>, pages: seq<ChangePage>, f: Filter, limit: int,
                   m: nat)
    returns (later: seq<Entry>)
    requires Consistent(ops) && Followed(ops, at, nows, pages, f, limit) && 0 < m < |pages|
    ensures later == Seen(ops[..at[m]]) && pages[m - 1].next.Some?
    ensures var n := EffectiveLimit(limit);
            && pages[m].entries == Upto(n, NewestFirst(f, pages[m - 1].next.value, later))
            && (pages[m].next.Some? <==> |pages[m].entries| == n)
            && (pages[m].next.Some? ==> pages[m].next.value == pages[m].entries[n - 1].id)
  {
    later := Seen(ops[..at[m]]);
    assert Answered(ops, at[m], nows[m], pages, f, limit, m);
    ReplyShape(ops[..at[m]], f, pages[m - 1].next.value, limit, nows[m]);
  }

  lemma ViewsGrow(ops: seq<StoreOp>, i: nat, j: nat)
    requires Consistent(ops) && i <= j <= |ops| && NothingPruned(ops, i)
    ensures IdsOk(Seen(ops[..i])) && IdsOk(Seen(ops[..j])) && Seen(ops[..i]) <= Seen(ops[..j])
  {
    SeenGrows(ops, i, j);
    SeenIds(ops[..i]);
    SeenIds(ops[..j]);
  }

  lemma NextHolds(pages: seq<ChangePage>, m: nat, first: seq<Entry>, later: seq<Entry>, f: Filter, n: nat, upto: nat)
    requires 0 < m < |pages| && n > 0 && IdsOk(first) && IdsOk(later) && first <= later
    requires PagesHold(pages, m, NewestFirst(f, 0, first), n, upto) && pages[m - 1].next.Some?
    requires pages[m].entries == Upto(n, NewestFirst(f, pages[m - 1].next.value, later))
    requires pages[m].next.Some? <==> |pages[m].entries| == n
    requires pages[m].next.Some? ==> pages[m].next.value == pages[m].entries[n - 1].id
    ensures PagesHold(pages, m + 1, NewestFirst(f, 0, first), n, upto + n)
  {
    LaterPage(f, first, later, upto - 1);
    OneMorePage(pages, m, NewestFirst(f, 0, first), n, upto);
  }

  lemma StatesInOrder(ops: seq<StoreOp>, at: seq<nat>, nows: seq<int>, pages: seq<ChangePage>, f: Filter, limit: int,
                      m: nat)
    requires Followed(ops, at, nows, pages, f, limit) && m < |pages|
    ensures at[0] <= at[m] <= |ops|
  {
  }

  lemma ViewsInOrder(ops: seq<StoreOp>, at: seq<nat>, nows: seq<int>, pages: seq<ChangePage>, f: Filter, limit: int,
                     m: nat,
                     later: seq<Entry>) returns (first: seq<Entry>)
    requires Consistent(ops) && Followed(ops, at, nows, pages, f, limit) && m < |pages| && NothingPruned(ops, at[0])
    requires later == Seen(ops[..at[m]])
    ensures first == Seen(ops[..at[0]]) && IdsOk(first) && IdsOk(later) && first <= later
  {
    StatesInOrder(ops, at, nows, pages, f, limit, m);
    ViewsGrow(ops, at[0], at[m]);
    first := Seen(ops[..at[0]]);
  }

  lemma NextPage(ops: seq<StoreOp>, at: seq<nat>, nows: seq<int>, pages: seq<ChangePage>, f: Filter, limit: int,
                 m: nat, upto: nat)
    requires Consistent(ops) && Followed(ops, at, nows, pages, f, limit) && 0 < m < |pages|
    requires NothingPruned(ops, at[0])
    requires PagesHold(pages, m, NewestFirst(f, 0, Seen(ops[..at[0]])), EffectiveLimit(limit), upto)
    ensures PagesHold(pages, m + 1, NewestFirst(f, 0, Seen(ops[..at[0]])), EffectiveLimit(limit),
                      upto + EffectiveLimit(limit))
  {
    var n := EffectiveLimit(limit);
    var later := LaterReply(ops, at, nows, pages, f, limit, m);
    var first := ViewsInOrder(ops, at, nows, pages, f, limit, m, later);
    NextHolds(pages, m, first, later, f, n, upto);
  }

  /** After m pages the client holds the first m pages' worth of the window. */
  lemma OneMoreTimes(m: nat, n: nat)
    requires m > 0
    ensures (m - 1) * n + n == m * n
  {
  }

  lemma OpeningPage(ops: seq<StoreOp>, at: seq<nat>, nows: seq<int>, pages: seq<ChangePage>, f: Filter, limit: int)
    requires Consistent(ops) && Followed(ops, at, nows, pages, f, limit) && pages != []
    ensures PagesHold(pages, 1, NewestFirst(f, 0, Seen(ops[..at[0]])), EffectiveLimit(limit), EffectiveLimit(limit))
  {
    assert Answered(ops, at[0], nows[0], pages, f, limit, 0);
    ReplyShape(ops[..at[0]], f, 0, limit, nows[0]);
    FirstPage(pages, NewestFirst(f, 0, Seen(ops[..at[0]])), EffectiveLimit(limit));
  }

  lemma {:induction false} PagesSoFar(ops: seq<StoreOp>, at: seq<nat>, nows: seq<int>, pages: seq<ChangePage>,
                                      f: Filter, limit: int, m: nat)
    requires Consistent(ops) && Followed(ops, at, nows, pages, f, limit) && 0 < m <= |pages|
    requires NothingPruned(ops, at[0])
    ensures PagesHold(pages, m, NewestFirst(f, 0, Seen(ops[..at[0]])), EffectiveLimit(limit), m * EffectiveLimit(limit))
    decreases m
  {
    var n := EffectiveLimit(limit);
    if m == 1 {
      OpeningPage(ops, at, nows, pages, f, limit);
    } else {
      PagesSoFar(ops, at, nows, pages, f, limit, m - 1);
      NextPage(ops, at, nows, pages, f, limit, m - 1, (m - 1) * n);
      OneMoreTimes(m, n);
    }
  }

  lemma UptoMore<T>(xs: seq<T>, a: nat, n: nat, b: nat)
    requires a <= |xs| && b == a + n
    ensures Upto(a, xs) + Upto(n, xs[a..]) == Upto(b, xs)
    ensures |Upto(n, xs[a..])| == n <==> b <= |xs|
    ensures b <= |xs| && n > 0 ==> Upto(n, xs[a..])[n - 1] == xs[b - 1]
  {
  }

  /** Following the cursor ends: no more pages than one past the full ones. */
  lemma FollowingEnds(ops: seq<StoreOp>, at: seq<nat>, nows: seq<int>, pages: seq<ChangePage>, f: Filter, limit: int)
    requires Consistent(ops) && Followed(ops, at, nows, pages, f, limit) && pages != []
    requires NothingPruned(ops, at[0])
    ensures (|pages| - 1) * EffectiveLimit(limit) <= |NewestFirst(f, 0, Seen(ops[..at[0]]))|
  {
    if |pages| > 1 {
      PagesSoFar(ops, at, nows, pages, f, limit, |pages| - 1);
      assert Answered(ops, at[|pages| - 1], nows[|pages| - 1], pages, f, limit, |pages| - 1);
    }
  }

  /** Followed until no next page is offered, with anything but prunes in between, the
      pages hold exactly what Events returned at the first page, newest first: each
      change once, under strictly decreasing ids. */
  lemma FollowingReadsTheWindow(ops: seq<StoreOp>, at: seq<nat>, nows: seq<int>, pages: seq<ChangePage>, f: Filter,
                                limit: int)
    requires Consistent(ops) && Followed(ops, at, nows, pages, f, limit) && pages != []
    requires NothingPruned(ops, at[0])
    requires Last(pages).next.None?
    ensures Answer(RunOf(ops[..at[0]]), f, nows[0]).Ok?
    ensures EventsOf(Gathered(pages)) == Reversed(Answer(RunOf(ops[..at[0]]), f, nows[0]).value)
    ensures forall i, j :: 0 <= i < j < |Gathered(pages)| ==> Gathered(pages)[i].id > Gathered(pages)[j].id
  {
    var first := ops[..at[0]];
    PagesSoFar(ops, at, nows, pages, f, limit, |pages|);
    assert pages[..|pages|] == pages;
    assert Answered(ops, at[0], nows[0], pages, f, limit, 0);
    SeenIds(first);
    NewestFirstIs(f, 0, Seen(first));
    WindowIs(first, f, nows[0]);
  }

  lemma WindowIs(ops: seq<StoreOp>, f: Filter, now: int)
    requires Consistent(ops) && Judge(RunOf(ops), f, now).None?
    ensures Answer(RunOf(ops), f, now).Ok?
    ensures EventsOf(NewestFirst(f, 0, Seen(ops))) == Reversed(Answer(RunOf(ops), f, now).value)
  {
    InvAlwaysHolds(ops);
    NewestFirstReversesEvents(f, Seen(ops));
  }
}
