/** Turning binlog events into whole transactions (internal/source/mysql/assemble.go). */
module Assembler {
  import opened Wrappers
  import opened Change
  import opened Numbers

  // ---------- Events ----------

  /** An event's header, and what the clock shows when the event is handled. */
  datatype Header = Header(timestamp: Uint32, serverId: Uint32, logPos: Uint32, clock: Instant)

  /** The event types the assembler tells apart. The changes of a rows event are what
      binlog.Convert makes of it, or None when it cannot. A commit carries the executed
      GTID set the library stamps on it. */
  datatype Body =
    | Rotate(next: Text)
    | Annotation(query: Text)
    | AnonymousGtid
    | Gtid(id: Option<Text>)
    | MariadbGtid(triple: Text)
    | Rows(changes: Option<seq<Event>>)
    | Xid(executed: Text)
    | Payload(inner: seq<BinEvent>)
    | Query(schema: Text, query: Text, executed: Text)
    | XaPrepare
    | Other

  datatype BinEvent = BinEvent(header: Header, body: Body)

  datatype QueryKind = Xa | Begin | Commit | Rollback | Ddl | Session

  /** What a statement in the log is to the assembler; isDdl is change.IsDDL. */
  function KindOf(isDdl: Text -> bool, query: Text): QueryKind {
    var stmt := Trim(query);
    var upper := Upper(stmt);
    if "XA " <= upper then Xa
    else if upper == "BEGIN" then Begin
    else if upper == "COMMIT" then Commit
    else if upper == "ROLLBACK" then Rollback
    else if isDdl(stmt) then Ddl
    else Session
  }

  // ---------- The state machine ----------

  /** The assembler's fields; at is 0 when no rows were read. */
  datatype State = State(logFile: Text, gtid: Text, query: Text, events: seq<Event>, at: int, server: Uint32)

  /** What one event did; advance is 0 when it says nothing about time. */
  datatype Outcome = Outcome(txn: Option<Transaction>, miss: Option<Instant>, advance: nat)

  datatype Refusal = UnreadableGtid | XaTransaction

  const NOTHING := Outcome(None, None, 0)

  function Advancing(when: Instant): Outcome { Outcome(None, None, when) }

  /** The moment an event stands for: its timestamp, or the clock when it has none. */
  function When(h: Header): Instant { if h.timestamp == 0 then h.clock else h.timestamp }

  /** The changes of a rows event, stamped with where it stands in the log. */
  function Converted(logFile: Text, h: Header, query: Text, changes: seq<Event>): seq<Event> {
    seq(|changes|, i requires 0 <= i < |changes| =>
      changes[i].(logFile := logFile, logPos := h.logPos, at := h.timestamp, serverId := h.serverId, query := query))
  }

  function Place(logFile: Text, logPos: Uint32): Text { logFile + (":" + Decimal(logPos)) }

  /** A transaction's identity: its GTID when it has one, else where its commit stands. */
  function SourceId(s: State, h: Header): Text { if s.gtid != "" then s.gtid else Place(s.logFile, h.logPos) }

  function Reset(s: State): State { State(s.logFile, "", "", [], 0, 0) }

  function AfterRows(s: State, h: Header, changes: Option<seq<Event>>): (State, Outcome) {
    if changes.None? then (s, Outcome(None, Some(When(h)), 0))
    else
      var events := s.events + Converted(s.logFile, h, s.query, changes.value);
      (s.(query := "", events := events, at := When(h), server := h.serverId), NOTHING)
  }

  function AfterCommit(s: State, h: Header): (State, Outcome) {
    if s.events == [] then (Reset(s), Advancing(When(h)))
    else
      var at: Instant := if s.at > 0 then s.at else When(h);
      var server := if s.server == 0 then h.serverId else s.server;
      (Reset(s), Outcome(Some(Transaction(SourceId(s, h), at, server, s.events)), None, 0))
  }

  /** A schema change commits on its own; nothing else of the state moves. */
  function SchemaChangeOf(s: State, h: Header, schema: Text, query: Text): Transaction {
    Transaction(SourceId(s, h), When(h), h.serverId,
      [Event(schema, "", Op.SchemaChange, [], None, None, s.logFile, h.logPos, When(h), h.serverId, Trim(query))])
  }

  function AfterQuery(isDdl: Text -> bool, s: State, h: Header, schema: Text, query: Text)
    : (State, Result<Outcome, Refusal>)
  {
    match KindOf(isDdl, query)
    case Xa => (s, Err(XaTransaction))
    case Begin => (s.(events := [], query := ""), Ok(NOTHING))
    case Commit => var r := AfterCommit(s, h); (r.0, Ok(r.1))
    case Rollback => (Reset(s), Ok(Advancing(When(h))))
    case Ddl => (s, Ok(Outcome(Some(SchemaChangeOf(s, h, schema, query)), None, 0)))
    case Session => (s, Ok(Advancing(When(h))))
  }

  /** The outcomes of a payload's events so far, and one more. */
  function Merged(out: Outcome, res: Outcome): Outcome {
    Outcome(if res.txn.Some? then res.txn else out.txn,
            if res.miss.Some? then res.miss else out.miss,
            if out.advance < res.advance then res.advance else out.advance)
  }

  function Handle(isDdl: Text -> bool, s: State, e: BinEvent): (State, Result<Outcome, Refusal>)
    decreases e, 0
  {
    var h := e.header;
    match e.body
    case Rotate(next) => (s.(logFile := next), Ok(Advancing(When(h))))
    case Annotation(query) => (s.(query := query), Ok(NOTHING))
    case AnonymousGtid => (s, Ok(NOTHING))
    case Gtid(id) => if id.None? then (s, Err(UnreadableGtid)) else (s.(gtid := id.value), Ok(NOTHING))
    case MariadbGtid(id) => (s.(gtid := id), Ok(NOTHING))
    case Rows(changes) => var r := AfterRows(s, h, changes); (r.0, Ok(r.1))
    case Xid(_) => var r := AfterCommit(s, h); (r.0, Ok(r.1))
    case Payload(inner) => HandleUpTo(isDdl, s, inner, |inner|)
    case Query(schema, query, _) => AfterQuery(isDdl, s, h, schema, query)
    case XaPrepare => (s, Err(XaTransaction))
    case Other => (s, Ok(Advancing(When(h))))
  }

  /** The first n events of a payload; the first refusal ends it. */
  function HandleUpTo(isDdl: Text -> bool, s: State, inner: seq<BinEvent>, n: nat): (State, Result<Outcome, Refusal>)
    requires n <= |inner|
    decreases inner, n
  {
    if n == 0 then (s, Ok(NOTHING))
    else
      var before := HandleUpTo(isDdl, s, inner, n - 1);
      if before.1.Err? then before
      else
        var after := Handle(isDdl, before.0, inner[n - 1]);
        (after.0, if after.1.Err? then after.1 else Ok(Merged(before.1.value, after.1.value)))
  }

  // ---------- As the code runs it ----------

  class Assembler {
    const isDdl: Text -> bool
    var logFile: Text
    var gtid: Text
    var query: Text
    var events: seq<Event>
    var at: int
    var server: Uint32

    constructor (isDdl: Text -> bool, logFile: Text)
      ensures this.isDdl == isDdl && Now() == State(logFile, "", "", [], 0, 0)
    {
      this.isDdl, this.logFile := isDdl, logFile;
      gtid, query, events, at, server := "", "", [], 0, 0;
    }

    function Now(): State
      reads this
    {
      State(logFile, gtid, query, events, at, server)
    }

    method Clear()
      modifies this
      ensures Now() == Reset(old(Now()))
    {
      events, query, gtid, at, server := [], "", "", 0, 0;
    }

    method AppendRows(h: Header, changes: Option<seq<Event>>) returns (r: Outcome)
      modifies this
      ensures (Now(), r) == AfterRows(old(Now()), h, changes)
    {
      if changes.None? {
        return Outcome(None, Some(When(h)), 0);
      }
      events := events + Converted(logFile, h, query, changes.value);
      query := "";
      at := When(h);
      server := h.serverId;
      return NOTHING;
    }

    method CommitRows(h: Header) returns (r: Outcome)
      modifies this
      ensures (Now(), r) == AfterCommit(old(Now()), h)
    {
      if |events| == 0 {
        Clear();
        return Advancing(When(h));
      }
      if at <= 0 { at := When(h); }
      if server == 0 { server := h.serverId; }
      r := Outcome(Some(Transaction(SourceId(Now(), h), at, server, events)), None, 0);
      Clear();
    }

    method HandleQuery(h: Header, schema: Text, text: Text) returns (r: Result<Outcome, Refusal>)
      modifies this
      ensures (Now(), r) == AfterQuery(isDdl, old(Now()), h, schema, text)
    {
      match KindOf(isDdl, text)
      case Xa =>
        return Err(XaTransaction);
      case Begin =>
        events := [];
        query := "";
        return Ok(NOTHING);
      case Commit =>
        var out := CommitRows(h);
        return Ok(out);
      case Rollback =>
        Clear();
        return Ok(Advancing(When(h)));
      case Ddl =>
        return Ok(Outcome(Some(SchemaChangeOf(Now(), h, schema, text)), None, 0));
      case Session =>
        return Ok(Advancing(When(h)));
    }

    method HandleEvent(e: BinEvent) returns (r: Result<Outcome, Refusal>)
      modifies this
      ensures (Now(), r) == Handle(isDdl, old(Now()), e)
      decreases e, 0
    {
      match e.body
      case Rotate(next) =>
        logFile := next;
        return Ok(Advancing(When(e.header)));
      case Annotation(text) =>
        query := text;
        return Ok(NOTHING);
      case AnonymousGtid =>
        return Ok(NOTHING);
      case Gtid(id) =>
        if id.None? { return Err(UnreadableGtid); }
        gtid := id.value;
        return Ok(NOTHING);
      case MariadbGtid(id) =>
        gtid := id;
        return Ok(NOTHING);
      case Rows(changes) =>
        var out := AppendRows(e.header, changes);
        return Ok(out);
      case Xid(_) =>
        var out := CommitRows(e.header);
        return Ok(out);
      case Payload(inner) =>
        r := Unwrap(inner);
      case Query(schema, text, _) =>
        r := HandleQuery(e.header, schema, text);
      case XaPrepare =>
        return Err(XaTransaction);
      case Other =>
        return Ok(Advancing(When(e.header)));
    }

    method Unwrap(inner: seq<BinEvent>) returns (r: Result<Outcome, Refusal>)
      modifies this
      ensures (Now(), r) == HandleUpTo(isDdl, old(Now()), inner, |inner|)
      decreases inner, |inner|
    {
      var out := NOTHING;
      for i := 0 to |inner|
        invariant (Now(), Result<Outcome, Refusal>.Ok(out)) == HandleUpTo(isDdl, old(Now()), inner, i)
      {
        var res := HandleEvent(inner[i]);
        if res.Err? {
          RefusalEnds(isDdl, old(Now()), inner, i + 1, |inner|);
          return res;
        }
        if res.value.txn.Some? { out := out.(txn := res.value.txn); }
        if res.value.miss.Some? { out := out.(miss := res.value.miss); }
        if out.advance < res.value.advance { out := out.(advance := res.value.advance); }
      }
      return Ok(out);
    }
  }

  lemma {:induction false} RefusalEnds(isDdl: Text -> bool, s: State, inner: seq<BinEvent>, m: nat, n: nat)
    requires m <= n <= |inner| && HandleUpTo(isDdl, s, inner, m).1.Err?
    ensures HandleUpTo(isDdl, s, inner, n) == HandleUpTo(isDdl, s, inner, m)
    decreases n
  {
    if m < n { RefusalEnds(isDdl, s, inner, m, n - 1); }
  }

  // ---------- Identities ----------

  /** An identity built from a file and a position determines both. */
  lemma PlaceTellsApart(f: Text, p: Uint32, g: Text, q: Uint32)
    requires Place(f, p) == Place(g, q)
    ensures f == g && p == q
  {
    var s, a, b := Place(f, p), Decimal(p), Decimal(q);
    var n := |s|;
    assert s[n - |a| - 1] == ':' && s[n - |a|..] == a && s[..n - |a| - 1] == f;
    assert s[n - |b| - 1] == ':' && s[n - |b|..] == b && s[..n - |b| - 1] == g;
    assert forall i :: n - |a| <= i < n ==> IsDigit(s[i]) by {
      assert forall i :: n - |a| <= i < n ==> s[i] == a[i - (n - |a|)];
    }
    assert forall i :: n - |b| <= i < n ==> IsDigit(s[i]) by {
      assert forall i :: n - |b| <= i < n ==> s[i] == b[i - (n - |b|)];
    }
    assert |a| == |b|;
    DecimalReadsBack(p);
    DecimalReadsBack(q);
  }

  // ---------- Payloads ----------

  /** The events that reach the assembler when payloads are opened. */
  function Leaves(e: BinEvent): (es: seq<BinEvent>)
    decreases e, 0
  {
    if e.body.Payload? then AllLeaves(e.body.inner, |e.body.inner|) else [e]
  }

  function AllLeaves(inner: seq<BinEvent>, n: nat): seq<BinEvent>
    requires n <= |inner|
    decreases inner, n
  {
    if n == 0 then [] else AllLeaves(inner, n - 1) + Leaves(inner[n - 1])
  }

  /** Handling plain events one by one: the state they leave, and what each one did. */
  function OneByOne(isDdl: Text -> bool, s: State, es: seq<BinEvent>, n: nat): (State, Result<seq<Outcome>, Refusal>)
    requires n <= |es|
    decreases n
  {
    if n == 0 then (s, Ok([]))
    else
      var before := OneByOne(isDdl, s, es, n - 1);
      if before.1.Err? then before
      else
        var after := Handle(isDdl, before.0, es[n - 1]);
        (after.0, if after.1.Err? then Err(after.1.error) else Ok(before.1.value + [after.1.value]))
  }

  function MergedAll(outcomes: seq<Outcome>): Outcome {
    if outcomes == [] then NOTHING else Merged(MergedAll(outcomes[..|outcomes| - 1]), outcomes[|outcomes| - 1])
  }

  /** What a payload reports for what its events did. */
  function Summary(r: Result<seq<Outcome>, Refusal>): Result<Outcome, Refusal> {
    if r.Ok? then Ok(MergedAll(r.value)) else Err(r.error)
  }

  lemma {:induction false} MergedConcat(a: seq<Outcome>, b: seq<Outcome>)
    ensures MergedAll(a + b) == Merged(MergedAll(a), MergedAll(b))
    decreases |b|
  {
    if b == [] {
      assert a + b == a;
    } else {
      assert (a + b)[..|a + b| - 1] == a + b[..|b| - 1];
      MergedConcat(a, b[..|b| - 1]);
    }
  }

  /** Events one after another: the rest continue from what the first leave. */
  lemma {:induction false} OneByOneConcat(isDdl: Text -> bool, s: State, a: seq<BinEvent>, b: seq<BinEvent>, n: nat)
    requires n <= |b|
    ensures var r, mid := OneByOne(isDdl, s, a + b, |a| + n), OneByOne(isDdl, s, a, |a|);
            if mid.1.Err? then r == mid
            else
              var more := OneByOne(isDdl, mid.0, b, n);
              r == (more.0, if more.1.Err? then more.1 else Ok(mid.1.value + more.1.value))
    decreases n
  {
    if n == 0 {
      OneByOnePrefix(isDdl, s, a, b, |a|);
      var mid := OneByOne(isDdl, s, a, |a|);
      if mid.1.Ok? { assert mid.1.value + [] == mid.1.value; }
    } else {
      OneByOneConcat(isDdl, s, a, b, n - 1);
      assert (a + b)[|a| + n - 1] == b[n - 1];
      var mid := OneByOne(isDdl, s, a, |a|);
      if mid.1.Ok? {
        var more := OneByOne(isDdl, mid.0, b, n - 1);
        if more.1.Ok? {
          var last := Handle(isDdl, more.0, b[n - 1]);
          if last.1.Ok? {
            assert mid.1.value + (more.1.value + [last.1.value]) == mid.1.value + more.1.value + [last.1.value];
          }
        }
      }
    }
  }

  lemma {:induction false} OneByOnePrefix(isDdl: Text -> bool, s: State, a: seq<BinEvent>, b: seq<BinEvent>, n: nat)
    requires n <= |a|
    ensures OneByOne(isDdl, s, a + b, n) == OneByOne(isDdl, s, a, n)
    decreases n
  {
    if n > 0 { OneByOnePrefix(isDdl, s, a, b, n - 1); }
  }

  /** One leaf, alone. */
  lemma LeafAlone(isDdl: Text -> bool, s: State, e: BinEvent)
    ensures var r, h := OneByOne(isDdl, s, [e], 1), Handle(isDdl, s, e); r.0 == h.0 && Summary(r.1) == h.1
  {
    assert OneByOne(isDdl, s, [e], 0) == (s, Ok([]));
    var h := Handle(isDdl, s, e);
    if h.1.Ok? {
      assert [] + [h.1.value] == [h.1.value];
      assert MergedAll([h.1.value]) == Merged(NOTHING, h.1.value);
    }
  }

  /** Handling an event, payloads nested to any depth, is handling its leaves one by
      one: the same state, the same refusal, and the outcomes merged. */
  lemma {:induction false} EventIsItsLeaves(isDdl: Text -> bool, s: State, e: BinEvent)
    ensures var es := Leaves(e);
            var r, h := OneByOne(isDdl, s, es, |es|), Handle(isDdl, s, e);
            r.0 == h.0 && Summary(r.1) == h.1
    decreases e, 0
  {
    if e.body.Payload? {
      PayloadIsItsLeaves(isDdl, s, e.body.inner, |e.body.inner|);
    } else {
      LeafAlone(isDdl, s, e);
    }
  }

  lemma {:induction false} PayloadIsItsLeaves(isDdl: Text -> bool, s: State, inner: seq<BinEvent>, n: nat)
    requires n <= |inner|
    ensures var es := AllLeaves(inner, n);
            var r, h := OneByOne(isDdl, s, es, |es|), HandleUpTo(isDdl, s, inner, n);
            r.0 == h.0 && Summary(r.1) == h.1
    decreases inner, n
  {
    if n > 0 {
      var a, b := AllLeaves(inner, n - 1), Leaves(inner[n - 1]);
      PayloadIsItsLeaves(isDdl, s, inner, n - 1);
      OneByOneConcat(isDdl, s, a, b, |b|);
      var mid := OneByOne(isDdl, s, a, |a|);
      if mid.1.Ok? {
        EventIsItsLeaves(isDdl, mid.0, inner[n - 1]);
        var more := OneByOne(isDdl, mid.0, b, |b|);
        if more.1.Ok? { MergedConcat(mid.1.value, more.1.value); }
      }
    }
  }

  /** The transaction a payload reports is the last one its events completed. */
  lemma {:induction false} LastTransactionWins(outcomes: seq<Outcome>, k: nat)
    requires k < |outcomes| && forall i :: k < i < |outcomes| ==> outcomes[i].txn.None?
    requires outcomes[k].txn.Some? || forall i :: 0 <= i < k ==> outcomes[i].txn.None?
    ensures MergedAll(outcomes).txn == outcomes[k].txn
    decreases |outcomes|
  {
    var init := outcomes[..|outcomes| - 1];
    if k < |init| {
      LastTransactionWins(init, k);
    } else if outcomes[k].txn.None? {
      if init != [] { LastTransactionWins(init, |init| - 1); }
    }
  }

  // ---------- The file ----------

  predicate HasNoRotate(e: BinEvent)
    decreases e, 0
  {
    !e.body.Rotate? && (e.body.Payload? ==> forall i :: 0 <= i < |e.body.inner| ==> HasNoRotate(e.body.inner[i]))
  }

  /** Only a rotate moves on to another file. */
  lemma {:induction false} KeepsFile(isDdl: Text -> bool, s: State, e: BinEvent)
    requires HasNoRotate(e)
    ensures Handle(isDdl, s, e).0.logFile == s.logFile
    decreases e, 0
  {
    if e.body.Payload? { PayloadKeepsFile(isDdl, s, e.body.inner, |e.body.inner|); }
  }

  lemma {:induction false} PayloadKeepsFile(isDdl: Text -> bool, s: State, inner: seq<BinEvent>, n: nat)
    requires n <= |inner| && forall i :: 0 <= i < |inner| ==> HasNoRotate(inner[i])
    ensures HandleUpTo(isDdl, s, inner, n).0.logFile == s.logFile
    decreases inner, n
  {
    if n > 0 {
      PayloadKeepsFile(isDdl, s, inner, n - 1);
      KeepsFile(isDdl, HandleUpTo(isDdl, s, inner, n - 1).0, inner[n - 1]);
    }
  }

  // ---------- Misses ----------

  /** The miss an event reports: that of an unreadable rows event, and of a payload the
      last one inside. */
  function ReportedBy(e: BinEvent): Option<Instant>
    decreases e, 0
  {
    match e.body
    case Rows(changes) => if changes.None? then Some(When(e.header)) else None
    case Payload(inner) => LastReported(inner, |inner|)
    case _ => None
  }

  function LastReported(inner: seq<BinEvent>, n: nat): Option<Instant>
    requires n <= |inner|
    decreases inner, n
  {
    if n == 0 then None
    else if ReportedBy(inner[n - 1]).Some? then ReportedBy(inner[n - 1])
    else LastReported(inner, n - 1)
  }

  /** What is reported depends on the event alone. */
  lemma {:induction false} HandleReports(isDdl: Text -> bool, s: State, e: BinEvent)
    requires Handle(isDdl, s, e).1.Ok?
    ensures Handle(isDdl, s, e).1.value.miss == ReportedBy(e)
    decreases e, 0
  {
    if e.body.Payload? { PayloadReports(isDdl, s, e.body.inner, |e.body.inner|); }
  }

  lemma {:induction false} PayloadReports(isDdl: Text -> bool, s: State, inner: seq<BinEvent>, n: nat)
    requires n <= |inner| && HandleUpTo(isDdl, s, inner, n).1.Ok?
    ensures HandleUpTo(isDdl, s, inner, n).1.value.miss == LastReported(inner, n)
    decreases inner, n
  {
    if n > 0 {
      PayloadReports(isDdl, s, inner, n - 1);
      HandleReports(isDdl, HandleUpTo(isDdl, s, inner, n - 1).0, inner[n - 1]);
    }
  }

  /** The instants of the unreadable rows events among plain events, in order. */
  function MissesAmong(es: seq<BinEvent>): seq<Instant> {
    if es == [] then []
    else MissesAmong(es[..|es| - 1]) +
         var e := es[|es| - 1];
         if e.body.Rows? && e.body.changes.None? then [When(e.header)] else []
  }

  lemma {:induction false} MissesConcat(a: seq<BinEvent>, b: seq<BinEvent>)
    ensures MissesAmong(a + b) == MissesAmong(a) + MissesAmong(b)
    decreases |b|
  {
    if b == [] {
      assert a + b == a;
    } else {
      assert (a + b)[..|a + b| - 1] == a + b[..|b| - 1];
      MissesConcat(a, b[..|b| - 1]);
    }
  }

  function LastMiss(misses: seq<Instant>): Option<Instant> {
    if misses == [] then None else Some(misses[|misses| - 1])
  }

  /** Of the misses inside an event, payloads nested to any depth, the last is reported. */
  lemma {:induction false} LastMissWins(e: BinEvent)
    ensures ReportedBy(e) == LastMiss(MissesAmong(Leaves(e)))
    decreases e, 0
  {
    if e.body.Payload? {
      LastMissOfPayload(e.body.inner, |e.body.inner|);
    } else {
      assert [e][..0] == [];
    }
  }

  lemma {:induction false} LastMissOfPayload(inner: seq<BinEvent>, n: nat)
    requires n <= |inner|
    ensures LastReported(inner, n) == LastMiss(MissesAmong(AllLeaves(inner, n)))
    decreases inner, n
  {
    if n > 0 {
      LastMissOfPayload(inner, n - 1);
      LastMissWins(inner[n - 1]);
      MissesConcat(AllLeaves(inner, n - 1), Leaves(inner[n - 1]));
    }
  }

  /** Exactly when an event's report covers every miss inside it: no miss is followed by
      a later one at another instant. */
  lemma MissesAreCoveredExactly(e: BinEvent)
    ensures var misses := MissesAmong(Leaves(e));
            (forall t :: t in misses ==> ReportedBy(e) == Some(t)) <==>
            (forall i, j :: 0 <= i < j < |misses| ==> misses[i] == misses[j])
  {
    LastMissWins(e);
    var misses := MissesAmong(Leaves(e));
    if forall t :: t in misses ==> ReportedBy(e) == Some(t) {
      forall i, j | 0 <= i < j < |misses| ensures misses[i] == misses[j] {
        assert misses[i] in misses && misses[j] in misses;
      }
    }
  }

  /** A compressed payload whose events complete one transaction reports exactly that
      transaction, leaves the assembler as its events handled one by one would, and
      reports the last of the misses they would. */
  lemma CompressedIsPlain(isDdl: Text -> bool, s: State, h: Header, inner: seq<BinEvent>, k: nat)
    requires var es := AllLeaves(inner, |inner|);
             var r := OneByOne(isDdl, s, es, |es|);
             && r.1.Ok? && k < |r.1.value| && r.1.value[k].txn.Some?
             && forall i :: 0 <= i < |r.1.value| && i != k ==> r.1.value[i].txn.None?
    ensures var es := AllLeaves(inner, |inner|);
            var r, p := OneByOne(isDdl, s, es, |es|), Handle(isDdl, s, BinEvent(h, Payload(inner)));
            p.0 == r.0 && p.1.Ok? && p.1.value.txn == r.1.value[k].txn && p.1.value.miss == LastMiss(MissesAmong(es))
  {
    PayloadIsItsLeaves(isDdl, s, inner, |inner|);
    HandleReports(isDdl, s, BinEvent(h, Payload(inner)));
    LastMissWins(BinEvent(h, Payload(inner)));
    var es := AllLeaves(inner, |inner|);
    LastTransactionWins(OneByOne(isDdl, s, es, |es|).1.value, k);
  }

  /** A transaction with two unreadable changes, as the events of a payload. */
  function LosingEvents(ev: Event): seq<BinEvent> {
    [BinEvent(Header(10, 1, 1, 1), Rows(None)), BinEvent(Header(20, 1, 2, 1), Rows(None)),
     BinEvent(Header(20, 1, 2, 1), Rows(Some([ev]))), BinEvent(Header(30, 1, 3, 1), Xid(""))]
  }

  lemma LosingMisses(ev: Event)
    ensures MissesAmong(LosingEvents(ev)) == [10, 20]
  {
    var es := LosingEvents(ev);
    assert es[..0] == [] && es[..4] == es;
    MissesStep(es, 0);
    MissesStep(es, 1);
    MissesStep(es, 2);
    MissesStep(es, 3);
  }

  lemma MissesStep(es: seq<BinEvent>, n: nat)
    requires n < |es|
    ensures MissesAmong(es[..n + 1]) == MissesAmong(es[..n]) + if es[n].body.Rows? && es[n].body.changes.None?
            then [When(es[n].header)] else []
  {
    assert es[..n + 1][..n] == es[..n];
  }

  /** Earlier misses are lost: a payload with unreadable rows events at 10 and at 20 and
      one transaction reports the transaction and the second miss alone. */
  lemma PayloadMayLoseAMiss(isDdl: Text -> bool, ev: Event) returns (s: State, e: BinEvent)
    ensures Handle(isDdl, s, e).1.Ok? && Handle(isDdl, s, e).1.value.txn.Some?
    ensures Handle(isDdl, s, e).1.value.miss == Some(20) && MissesAmong(Leaves(e)) == [10, 20]
  {
    var inner := LosingEvents(ev);
    s, e := State("f", "", "", [], 0, 0), BinEvent(Header(30, 1, 3, 1), Payload(inner));
    assert HandleUpTo(isDdl, s, inner, 1) == (s, Ok(Outcome(None, Some(10), 0)));
    assert HandleUpTo(isDdl, s, inner, 2) == (s, Ok(Outcome(None, Some(20), 0)));
    var held := AfterRows(s, inner[2].header, Some([ev])).0;
    assert Handle(isDdl, s, inner[2]) == (held, Ok(NOTHING));
    assert HandleUpTo(isDdl, s, inner, 3) == (held, Ok(Outcome(None, Some(20), 0)));
    assert |held.events| == 1 && Handle(isDdl, held, inner[3]).1.value.txn.Some?;
    assert HandleUpTo(isDdl, s, inner, 4).1.Ok?;
    PlainLeaves(inner, 4);
    assert inner[..4] == inner;
    LosingMisses(ev);
  }

  lemma {:induction false} PlainLeaves(es: seq<BinEvent>, n: nat)
    requires n <= |es| && forall i :: 0 <= i < |es| ==> !es[i].body.Payload?
    ensures AllLeaves(es, n) == es[..n]
    decreases n
  {
    if n > 0 {
      PlainLeaves(es, n - 1);
      assert es[..n] == es[..n - 1] + [es[n - 1]];
    }
  }
}
