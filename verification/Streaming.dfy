/** The collector's loops as the code runs them, and that every stream is a run of the
    steps proved about (internal/source/mysql/source.go). */
module Streaming {
  import opened Sequences
  import opened Wrappers
  import opened Change
  import opened StoreLog
  import opened Collector
  import Assembler
  import Binlog
  import Store
  import StoreTables
  import ReadOnly
  import opened ExactlyOnce

  // ---------- Filtering and marking in place ----------

  lemma KeepStep<T>(p: T -> bool, xs: seq<T>, n: nat)
    requires n < |xs|
    ensures Store.Keep(p, xs[..n + 1]) == Store.Keep(p, xs[..n]) + if p(xs[n]) then [xs[n]] else []
  {
    assert xs[..n + 1][..n] == xs[..n];
    assert Store.Keep(p, xs[..n]) + [] == Store.Keep(p, xs[..n]);
  }

  /** Moves the changes asked for to the front, over the ones that were not. */
  method KeepWanted(src: Source, events: array<Event>) returns (n: nat)
    modifies events
    ensures n <= events.Length && events[..n] == Asked(src, old(events[..]))
  {
    if |src.collect.tables| == 0 {
      return events.Length;
    }
    ghost var was, p := events[..], (ev: Event) => Wants(src, ev);
    n := 0;
    for i := 0 to events.Length
      invariant n <= i
      invariant events[..n] == Store.Keep(p, was[..i])
      invariant forall k :: i <= k < events.Length ==> events[k] == was[k]
    {
      KeepStep(p, was, i);
      if Wants(src, events[i]) {
        events[n] := events[i];
        n := n + 1;
      }
    }
    assert was[..events.Length] == was;
  }

  method MarkComputedColumns(src: Source, events: array<Event>, n: nat)
    requires n <= events.Length
    modifies events
    ensures events[..n] == Marked(src, old(events[..n])) && events[n..] == old(events[n..])
  {
    for i := 0 to n
      invariant forall k :: 0 <= k < i ==> events[k] == ReadOnly.MarkComputed(src.generated, old(events[k]))
      invariant forall k :: i <= k < events.Length ==> events[k] == old(events[k])
    {
      events[i] := ReadOnly.MarkComputed(src.generated, events[i]);
    }
  }

  method CollectTransaction(src: Source, txn: Transaction) returns (r: Transaction)
    ensures r == Collected(src, txn)
  {
    var events := new Event[|txn.events|](k requires 0 <= k < |txn.events| => txn.events[k]);
    assert events[..] == txn.events;
    var n := KeepWanted(src, events);
    MarkComputedColumns(src, events, n);
    r := txn.(events := events[..n]);
  }

  // ---------- One stream ----------

  /** Where the server is writing now, and where a stream starts. */
  datatype Position = Position(file: Text, pos: Uint32)

  /** How a connection attempt comes out: where the server stands, what it delivers, and
      how reading ends. A failed attach delivers nothing. */
  datatype Ending = Cancelled | Purged | Lost
  datatype Attempt = Attempt(current: Position, attached: bool, events: seq<Assembler.BinEvent>, ending: Ending,
    until: Instant)

  /** What stream returns to Run. */
  datatype StreamEnd = Stopped | Refused | Unresumable(from: Instant) | Broken

  function ApplyAll(s: Store.State, ops: seq<StoreOp>): Store.State {
    if ops == [] then s else Apply(ApplyAll(s, Init(ops)), Last(ops))
  }

  /** What feeding events writes, and whether all of them were taken in. */
  datatype Fed = Fed(ops: seq<StoreOp>, end: Option<StreamEnd>)

  function Feed(src: Source, asm: Assembler.State, gap: Option<Checkpoint>, es: seq<Assembler.BinEvent>): Fed
    decreases |es|
  {
    if es == [] then Fed([], None)
    else
      var eff := React(src, asm, gap, es[0]);
      if eff.refused then Fed(eff.ops, Some(Refused))
      else if !Encodes(eff.ops) then Fed(eff.ops[..|eff.ops| - 1], Some(Broken))
      else
        var rest := Feed(src, eff.asm, None, es[1..]);
        Fed(eff.ops + rest.ops, rest.end)
  }

  /** The checkpoint a stream resumes from, if there is one to resume from. */
  function ResumePoint(cp: Option<Checkpoint>, anew: bool): Option<Checkpoint> {
    if anew || cp.None? || IsZero(cp.value) then None else cp
  }

  function StreamOf(src: Source, cp: Option<Checkpoint>, anew: bool, a: Attempt): Fed {
    var resume := ResumePoint(cp, anew);
    var lost := if a.ending.Cancelled? then Stopped
                else if a.ending.Purged? && resume.Some? then Unresumable(resume.value.updatedAt) else Broken;
    if !a.attached then Fed([], Some(lost))
    else
      var file := if resume.Some? then resume.value.logFile else a.current.file;
      var fed := Feed(src, Binlog.Rest(file, ""), resume, a.events);
      if fed.end.Some? then fed else Fed(fed.ops, Some(lost))
  }

  /** What Run leaves: the store after every attempt, and whether it gave up. */
  function RunWith(src: Source, s: Store.State, anew: bool, attempts: seq<Attempt>): (Store.State, bool)
    decreases |attempts|
  {
    if attempts == [] then (s, false)
    else
      var fed := StreamOf(src, s.checkpoint, anew, attempts[0]);
      var now := ApplyAll(s, fed.ops);
      match fed.end
      case Some(Stopped) => (now, false)
      case Some(Refused) => (now, true)
      case Some(Unresumable(from)) => RunWith(src, Store.RecordGap(now, from, attempts[0].until), true, attempts[1..])
      case _ => RunWith(src, now, false, attempts[1..])
  }

  lemma {:induction false} ApplyConcat(s: Store.State, a: seq<StoreOp>, b: seq<StoreOp>)
    ensures ApplyAll(s, a + b) == ApplyAll(ApplyAll(s, a), b)
    decreases |b|
  {
    if b == [] {
      assert a + b == a;
    } else {
      ApplyConcat(s, a, Init(b));
      assert Init(a + b) == a + Init(b);
    }
  }

  lemma ApplyOne(s: Store.State, op: StoreOp)
    ensures ApplyAll(s, [op]) == Apply(s, op)
  {
    assert Init([op]) == [];
  }

  /** The collector's loop: its settings, and whether to ignore the stored checkpoint. */
  class Follower {
    const src: Source
    var startFresh: bool

    constructor (src: Source)
      ensures this.src == src && !startFresh
    {
      this.src := src;
      startFresh := false;
    }

    /** The gap that the first event reveals, when it came later than the checkpoint. */
    method NoteGap(db: StoreTables.Tables, gap: Option<Checkpoint>, e: Assembler.BinEvent)
      modifies db
      ensures db.State() == ApplyAll(old(db.State()), GapBefore(gap, e))
    {
      if gap.Some? && e.header.timestamp > gap.value.updatedAt + 1 {
        db.AddGap(gap.value.updatedAt, e.header.timestamp);
        ApplyOne(old(db.State()), Gapped(gap.value.updatedAt, e.header.timestamp));
      }
    }

    /** Writes what an event did; false when the store could not take it. */
    method Write(db: StoreTables.Tables, logFile: Text, e: Assembler.BinEvent, out: Assembler.Outcome)
      returns (ok: bool)
      modifies db
      ensures ok <==> Encodes(Writes(src, logFile, e, out))
      ensures var ops := Writes(src, logFile, e, out);
              db.State() == ApplyAll(old(db.State()), if ok then ops else ops[..|ops| - 1])
    {
      ghost var was := db.State();
      ghost var missed: seq<StoreOp> := [];
      if out.miss.Some? {
        db.AddMiss(out.miss.value);
        missed := [Missed(out.miss.value)];
        ApplyOne(was, missed[0]);
      }
      if out.txn.Some? {
        var txn := CollectTransaction(src, out.txn.value);
        if |txn.events| == 0 {
          db.MoveHighWater(txn.committedAt);
          ApplyMore(was, missed, Advanced(txn.committedAt));
          return true;
        }
        var next := CheckpointAfter(logFile, e, txn);
        ghost var op := AppendTxn(txn, next);
        var error := db.AppendTransaction(txn, next);
        ApplyMore(was, missed, op);
        assert Writes(src, logFile, e, out) == missed + [op];
        assert (missed + [op])[|missed|] == op;
        return error.None?;
      }
      if out.advance > 0 {
        db.MoveHighWater(out.advance);
        ApplyMore(was, missed, Advanced(out.advance));
      } else {
        assert missed + [] == missed;
      }
      return true;
    }

    /** Takes in one event: the gap it reveals, what the assembler makes of it, and what
        that writes. */
    method Take(db: StoreTables.Tables, asm: Assembler.Assembler, gap: Option<Checkpoint>, e: Assembler.BinEvent)
      returns (end: Option<StreamEnd>)
      requires asm.isDdl == src.isDdl
      modifies db, asm
      ensures var eff := React(src, old(asm.Now()), gap, e);
              && asm.Now() == eff.asm
              && end == (if eff.refused then Some(Refused) else if !Encodes(eff.ops) then Some(Broken) else None)
              && db.State() == ApplyAll(old(db.State()), if end == Some(Broken) then eff.ops[..|eff.ops| - 1]
                 else eff.ops)
    {
      ghost var was := db.State();
      ghost var gapOps := GapBefore(gap, e);
      NoteGap(db, gap, e);
      var r := asm.HandleEvent(e);
      if r.Err? {
        return Some(Refused);
      }
      ghost var ops := Writes(src, asm.logFile, e, r.value);
      var ok := Write(db, asm.logFile, e, r.value);
      AfterGap(was, gapOps, ops);
      return if ok then None else Some(Broken);
    }

    /** The loop over what a connection delivers; the resume point is compared with the
        first event alone. */
    method Follow(db: StoreTables.Tables, asm: Assembler.Assembler, gap: Option<Checkpoint>,
                  es: seq<Assembler.BinEvent>)
      returns (end: Option<StreamEnd>)
      requires asm.isDdl == src.isDdl
      modifies db, asm
      ensures var fed := Feed(src, old(asm.Now()), gap, es);
              db.State() == ApplyAll(old(db.State()), fed.ops) && end == fed.end
    {
      ghost var was, whole := db.State(), Feed(src, asm.Now(), gap, es);
      ghost var done: seq<StoreOp> := [];
      var pendingGap := gap;
      var i := 0;
      while i < |es|
        invariant 0 <= i <= |es|
        invariant db.State() == ApplyAll(was, done)
        invariant Resumed(whole, done, Feed(src, asm.Now(), pendingGap, es[i..]))
        decreases |es| - i
      {
        ghost var eff := React(src, asm.Now(), pendingGap, es[i]);
        FeedOn(src, whole, done, asm.Now(), pendingGap, es, i);
        ApplyOn(was, done, eff.ops);
        end := Take(db, asm, pendingGap, es[i]);
        pendingGap := None;
        if end.Some? {
          return end;
        }
        done := done + eff.ops;
        i := i + 1;
      }
      assert done + [] == done;
      return None;
    }

    method Stream(db: StoreTables.Tables, a: Attempt) returns (end: StreamEnd)
      modifies this, db
      ensures !startFresh
      ensures var fed := StreamOf(src, old(db.State()).checkpoint, old(startFresh), a);
              db.State() == ApplyAll(old(db.State()), fed.ops) && fed.end == Some(end)
    {
      var cp := db.checkpoint;
      if startFresh {
        cp := None;
        startFresh := false;
      }
      var resumed := cp.Some? && !IsZero(cp.value);
      var lost := if a.ending.Cancelled? then Stopped
                  else if a.ending.Purged? && resumed then Unresumable(cp.value.updatedAt) else Broken;
      if !a.attached {
        return lost;
      }
      var asm := new Assembler.Assembler(src.isDdl, if resumed then cp.value.logFile else a.current.file);
      var pendingGap: Option<Checkpoint> := None;
      if resumed {
        pendingGap := cp;
      }
      var refused := Follow(db, asm, pendingGap, a.events);
      return if refused.Some? then refused.value else lost;
    }

    /** Reconnects until it is stopped, a refusal ends it, or there are no more attempts;
        a resume point that is gone becomes a gap and a fresh start. */
    method Run(db: StoreTables.Tables, attempts: seq<Attempt>) returns (refused: bool)
      modifies this, db
      ensures (db.State(), refused) == RunWith(src, old(db.State()), old(startFresh), attempts)
    {
      for i := 0 to |attempts|
        invariant RunWith(src, db.State(), startFresh, attempts[i..]) ==
                  RunWith(src, old(db.State()), old(startFresh), attempts)
      {
        assert attempts[i..][1..] == attempts[i + 1..];
        var end := Stream(db, attempts[i]);
        match end
        case Stopped =>
          return false;
        case Refused =>
          return true;
        case Unresumable(from) =>
          db.AddGap(from, attempts[i].until);
          startFresh := true;
        case Broken =>
      }
      return false;
    }
  }

  lemma ApplyMore(s: Store.State, ops: seq<StoreOp>, op: StoreOp)
    ensures ApplyAll(s, ops + [op]) == Apply(ApplyAll(s, ops), op)
  {
    ApplyConcat(s, ops, [op]);
    ApplyOne(ApplyAll(s, ops), op);
  }

  /** The whole feed is what was done and then the rest. */
  ghost predicate Resumed(whole: Fed, done: seq<StoreOp>, rest: Fed) { whole == Fed(done + rest.ops, rest.end) }

  /** Taking in one event ends the feed, or moves on to the rest of it. */
  lemma FeedOn(src: Source, whole: Fed, done: seq<StoreOp>, asm: Assembler.State, gap: Option<Checkpoint>,
               es: seq<Assembler.BinEvent>, i: nat)
    requires i < |es| && Resumed(whole, done, Feed(src, asm, gap, es[i..]))
    ensures var eff := React(src, asm, gap, es[i]);
            if eff.refused then whole == Fed(done + eff.ops, Some(Refused))
            else if !Encodes(eff.ops) then whole == Fed(done + eff.ops[..|eff.ops| - 1], Some(Broken))
            else Resumed(whole, done + eff.ops, Feed(src, eff.asm, None, es[i + 1..]))
  {
    var eff := React(src, asm, gap, es[i]);
    FeedStep(src, asm, gap, es[i..]);
    assert es[i..][1..] == es[i + 1..];
    if !eff.refused && Encodes(eff.ops) {
      ResumeOn(whole, done, eff.ops, Feed(src, eff.asm, None, es[i + 1..]));
    }
  }

  lemma ApplyOn(s: Store.State, done: seq<StoreOp>, ops: seq<StoreOp>)
    ensures ApplyAll(s, done + ops) == ApplyAll(ApplyAll(s, done), ops)
    ensures ops != [] ==> ApplyAll(s, done + ops[..|ops| - 1]) == ApplyAll(ApplyAll(s, done), ops[..|ops| - 1])
  {
    ApplyConcat(s, done, ops);
    if ops != [] { ApplyConcat(s, done, ops[..|ops| - 1]); }
  }

  lemma ResumeOn(whole: Fed, done: seq<StoreOp>, ops: seq<StoreOp>, rest: Fed)
    requires Resumed(whole, done, Fed(ops + rest.ops, rest.end))
    ensures Resumed(whole, done + ops, rest)
  {
    assert done + (ops + rest.ops) == done + ops + rest.ops;
  }

  lemma FeedStep(src: Source, asm: Assembler.State, gap: Option<Checkpoint>, es: seq<Assembler.BinEvent>)
    requires es != []
    ensures var eff := React(src, asm, gap, es[0]);
            Feed(src, asm, gap, es) ==
            if eff.refused then Fed(eff.ops, Some(Refused))
            else if !Encodes(eff.ops) then Fed(eff.ops[..|eff.ops| - 1], Some(Broken))
            else
              var rest := Feed(src, eff.asm, None, es[1..]);
              Fed(eff.ops + rest.ops, rest.end)
  {
  }

  /** The gap written first, then the rest, with or without its last write. */
  lemma AfterGap(s: Store.State, gap: seq<StoreOp>, ops: seq<StoreOp>)
    requires forall i :: 0 <= i < |gap| ==> !gap[i].AppendTxn?
    ensures Encodes(gap + ops) <==> Encodes(ops)
    ensures ApplyAll(ApplyAll(s, gap), ops) == ApplyAll(s, gap + ops)
    ensures ops != [] ==> ApplyAll(ApplyAll(s, gap), ops[..|ops| - 1]) == ApplyAll(s, (gap + ops)[..|gap + ops| - 1])
  {
    EncodesAfterGap(gap, ops);
    ApplyConcat(s, gap, ops);
    if ops != [] {
      ApplyConcat(s, gap, ops[..|ops| - 1]);
      assert (gap + ops)[..|gap + ops| - 1] == gap + ops[..|ops| - 1];
    }
  }

  lemma EncodesAfterGap(gap: seq<StoreOp>, ops: seq<StoreOp>)
    requires forall i :: 0 <= i < |gap| ==> !gap[i].AppendTxn?
    ensures Encodes(gap + ops) <==> Encodes(ops)
  {
    if Encodes(gap + ops) {
      forall i | 0 <= i < |ops| && ops[i].AppendTxn?
        ensures Store.EncodeUpTo(ops[i].txn.events, |ops[i].txn.events|).Ok?
      {
        assert (gap + ops)[|gap| + i] == ops[i];
      }
    }
  }

  // ---------- A stream is a run of the steps ----------

  /** Events as the log delivers them from a place on, among what else a server sends. */
  ghost predicate FollowsLog(c: Config, at: nat, es: seq<Assembler.BinEvent>)
    decreases |es|
  {
    || es == []
    || (IsIdle(c, at, es[0]) && FollowsLog(c, at, es[1..]))
    || (IsNext(c, at, es[0]) && FollowsLog(c, at + 1, es[1..]))
  }

  ghost predicate IsNext(c: Config, at: nat, e: Assembler.BinEvent) { at < Length(c) && e == EventAt(c, at) }

  lemma OneMoreWorld(c: Config, base: nat, w: World, worlds: seq<World>)
    requires IsTrace(c, base, worlds) && Step(c, base, w, worlds[0])
    ensures IsTrace(c, base, [w] + worlds) && Last([w] + worlds) == Last(worlds)
  {
    var all := [w] + worlds;
    forall i | 0 <= i < |all| - 1 ensures StepAt(c, base, all, i) {
      StepOfTwo(c, base, w, worlds, all, i);
    }
  }

  lemma StepOfTwo(c: Config, base: nat, w: World, worlds: seq<World>, all: seq<World>, i: nat)
    requires IsTrace(c, base, worlds) && Step(c, base, w, worlds[0]) && all == [w] + worlds && i + 1 < |all|
    ensures StepAt(c, base, all, i)
  {
    if i == 0 {
      assert all[0] == w && all[1] == worlds[0];
    } else {
      assert StepAt(c, base, worlds, i - 1);
      assert all[i] == worlds[i - 1] && all[i + 1] == worlds[i];
    }
  }

  /** What will have been written once the events are fed. */
  function Total(src: Source, w: World, es: seq<Assembler.BinEvent>): seq<StoreOp> {
    if w.conn.None? then w.ops else w.ops + Feed(src, w.conn.value.asm, w.conn.value.gap, es).ops
  }

  /** The connection will be delivered these events next. */
  ghost predicate Expects(c: Config, w: World, es: seq<Assembler.BinEvent>) {
    w.conn.Some? ==> w.conn.value.announced && FollowsLog(c, w.conn.value.at, es)
  }

  /** Reading one event is a step, and leaves the rest to come to the same. */
  lemma FeedingOne(c: Config, base: nat, w: World, es: seq<Assembler.BinEvent>) returns (next: World)
    requires w.conn.Some? && es != [] && Expects(c, w, es)
    ensures Step(c, base, w, next) && Expects(c, next, es[1..])
    ensures Total(c.src, next, es[1..]) == Total(c.src, w, es)
  {
    var conn := w.conn.value;
    if IsIdle(c, conn.at, es[0]) && FollowsLog(c, conn.at, es[1..]) {
      next := IdleWorld(c, base, w, es[0]);
    } else {
      next := NextWorld(c, base, w, es[0]);
    }
    TotalStays(c.src, w, es, next);
  }

  lemma TotalStays(src: Source, w: World, es: seq<Assembler.BinEvent>, next: World)
    requires w.conn.Some? && es != []
    requires var eff := React(src, w.conn.value.asm, w.conn.value.gap, es[0]);
             if eff.refused then next == World(w.ops + eff.ops, None)
             else if !Encodes(eff.ops) then next == World(w.ops + eff.ops[..|eff.ops| - 1], None)
             else
               && next.ops == w.ops + eff.ops && next.conn.Some?
               && next.conn.value.asm == eff.asm && next.conn.value.gap == None
    ensures Total(src, next, es[1..]) == Total(src, w, es)
  {
    var eff := React(src, w.conn.value.asm, w.conn.value.gap, es[0]);
    FeedStep(src, w.conn.value.asm, w.conn.value.gap, es);
    Regroup(w.ops, eff.ops, Feed(src, eff.asm, None, es[1..]).ops);
  }

  /** So is hearing that the server is still there. */
  lemma IdleWorld(c: Config, base: nat, w: World, e: Assembler.BinEvent) returns (next: World)
    requires w.conn.Some? && w.conn.value.announced && IsIdle(c, w.conn.value.at, e)
    ensures Step(c, base, w, next)
    ensures var eff := React(c.src, w.conn.value.asm, w.conn.value.gap, e);
            && !eff.refused && Encodes(eff.ops)
            && next == World(w.ops + eff.ops, Some(w.conn.value.(asm := eff.asm, gap := None)))
  {
    var conn := w.conn.value;
    var eff := React(c.src, conn.asm, conn.gap, e);
    IdleWrites(c, conn, e);
    next := World(w.ops + eff.ops, Some(conn.(asm := eff.asm, gap := None)));
    assert Beats(c, w, next, e);
  }

  lemma {:induction false} FeedingIsStepping(c: Config, base: nat, w: World, es: seq<Assembler.BinEvent>)
    returns (worlds: seq<World>)
    requires Expects(c, w, es)
    ensures IsTrace(c, base, worlds) && worlds[0] == w
    ensures Last(worlds).ops == Total(c.src, w, es)
    decreases |es|
  {
    if w.conn.None? || es == [] {
      worlds := [w];
      assert w.ops + [] == w.ops;
    } else {
      var next := FeedingOne(c, base, w, es);
      var more := FeedingIsStepping(c, base, next, es[1..]);
      worlds := [w] + more;
      OneMoreWorld(c, base, w, more);
    }
  }

  /** Reading the next event is a step, and writes what feeding it does. */
  lemma NextWorld(c: Config, base: nat, w: World, e: Assembler.BinEvent) returns (next: World)
    requires w.conn.Some? && w.conn.value.announced && IsNext(c, w.conn.value.at, e)
    ensures Step(c, base, w, next)
    ensures var conn := w.conn.value;
            var eff := React(c.src, conn.asm, conn.gap, e);
            if eff.refused then next == World(w.ops + eff.ops, None)
            else if !Encodes(eff.ops) then next == World(w.ops + eff.ops[..|eff.ops| - 1], None)
            else next == World(w.ops + eff.ops, Some(Conn(conn.at + 1, true, eff.asm, None)))
  {
    var conn := w.conn.value;
    var eff := React(c.src, conn.asm, conn.gap, e);
    next := if eff.refused then World(w.ops + eff.ops, None)
            else if !Encodes(eff.ops) then World(w.ops + eff.ops[..|eff.ops| - 1], None)
            else World(w.ops + eff.ops, Some(Conn(conn.at + 1, true, eff.asm, None)));
    assert ReadsNext(c, w, next);
  }

  lemma {:induction false} RunIsAll(ops: seq<StoreOp>)
    ensures RunOf(ops) == ApplyAll(Store.EMPTY, ops)
    decreases |ops|
  {
    if ops != [] { RunIsAll(Init(ops)); }
  }

  lemma RunIsApplied(ops: seq<StoreOp>, more: seq<StoreOp>)
    ensures RunOf(ops + more) == ApplyAll(RunOf(ops), more)
  {
    RunIsAll(ops);
    RunIsAll(ops + more);
    ApplyConcat(Store.EMPTY, ops, more);
  }

  /** Where a stream starts to be read: at or before the checkpoint, or with nothing
      stored yet at the start of the log. */
  ghost predicate StartsAt(c: Config, cp: Option<Checkpoint>, current: Position, n: nat) {
    if cp.None? then n == 0 && current.file == c.first else !IsZero(cp.value) && AtOrBefore(c, n, cp.value)
  }

  /** The assembler a stream starts with, and the resume point it compares with. */
  function StartAsm(cp: Option<Checkpoint>, current: Position): Assembler.State {
    Binlog.Rest(if cp.Some? then cp.value.logFile else current.file, "")
  }

  /** Attaching and reading the opening rotate are two steps. */
  lemma Opens(c: Config, base: nat, w: World, n: nat, current: Position, h: Assembler.Header)
    returns (attached: World, told: World)
    requires w.conn.None? && StartsAt(c, RunOf(w.ops).checkpoint, current, n) && n <= Length(c) && h.timestamp == 0
    ensures Step(c, base, w, attached) && Step(c, base, attached, told)
    ensures var cp := RunOf(w.ops).checkpoint;
            var eff := React(c.src, StartAsm(cp, current), cp, Assembler.BinEvent(h, Assembler.Rotate(FileOf(c, n))));
            !eff.refused && Encodes(eff.ops) && told == World(w.ops + eff.ops, Some(Conn(n, true, eff.asm, None)))
  {
    var cp := RunOf(w.ops).checkpoint;
    attached := World(w.ops, Some(Conn(n, false, StartAsm(cp, current), cp)));
    if cp.Some? { assert Attaches(c, w, attached, n); } else { assert AttachesAnew(c, w, attached); }
    var e := Assembler.BinEvent(h, Assembler.Rotate(FileOf(c, n)));
    var eff := React(c.src, attached.conn.value.asm, cp, e);
    told := World(w.ops + eff.ops, Some(attached.conn.value.(announced := true, asm := eff.asm, gap := None)));
    IdleWrites(c, attached.conn.value, e);
    assert Announces(c, attached, told, h);
  }

  /** What a stream may deliver: nothing, or the rotate that names the file it starts in
      and then the log, from where it starts to be read. */
  ghost predicate Delivers(c: Config, cp: Option<Checkpoint>, a: Attempt) {
    && !a.ending.Purged?
    && (a.attached && a.events != [] ==> exists n: nat :: DeliversFrom(c, cp, a.current, a.events, n))
  }

  ghost predicate DeliversFrom(c: Config, cp: Option<Checkpoint>, current: Position, es: seq<Assembler.BinEvent>,
                               n: nat)
    requires es != []
  {
    && n <= Length(c) && StartsAt(c, cp, current, n)
    && es[0].header.timestamp == 0 && es[0].body == Assembler.Rotate(FileOf(c, n))
    && FollowsLog(c, n, es[1..])
  }

  /** Such a stream writes what a run of the steps does. */
  lemma StreamIsARun(c: Config, base: nat, w: World, a: Attempt) returns (worlds: seq<World>)
    requires w.conn.None? && Delivers(c, RunOf(w.ops).checkpoint, a)
    ensures IsTrace(c, base, worlds) && worlds[0] == w
    ensures Last(worlds).ops == w.ops + StreamOf(c.src, RunOf(w.ops).checkpoint, false, a).ops
  {
    var cp := RunOf(w.ops).checkpoint;
    if a.attached && a.events != [] {
      var n: nat :| DeliversFrom(c, cp, a.current, a.events, n);
      worlds := LogIsARun(c, base, w, n, a.current, a.events);
      StreamStarts(c.src, cp, a);
    } else {
      worlds := [w];
      assert w.ops + [] == w.ops;
    }
  }

  lemma LogIsARun(c: Config, base: nat, w: World, n: nat, current: Position, es: seq<Assembler.BinEvent>)
    returns (worlds: seq<World>)
    requires w.conn.None? && es != [] && DeliversFrom(c, RunOf(w.ops).checkpoint, current, es, n)
    ensures IsTrace(c, base, worlds) && worlds[0] == w
    ensures var cp := RunOf(w.ops).checkpoint;
            Last(worlds).ops == w.ops + Feed(c.src, StartAsm(cp, current), cp, es).ops
  {
    var cp := RunOf(w.ops).checkpoint;
    var asm := StartAsm(cp, current);
    var attached, told := Opens(c, base, w, n, current, es[0].header);
    var more := FeedingIsStepping(c, base, told, es[1..]);
    worlds := [w] + ([attached] + more);
    OneMoreWorld(c, base, attached, more);
    OneMoreWorld(c, base, w, [attached] + more);
    FeedStep(c.src, asm, cp, es);
    var eff := React(c.src, asm, cp, es[0]);
    Regroup(w.ops, eff.ops, Feed(c.src, eff.asm, None, es[1..]).ops);
  }

  lemma StreamStarts(src: Source, cp: Option<Checkpoint>, a: Attempt)
    requires a.attached && (cp.Some? ==> !IsZero(cp.value))
    ensures StreamOf(src, cp, false, a).ops == Feed(src, StartAsm(cp, a.current), cp, a.events).ops
  {
  }

  // ---------- The loop is a run of the steps ----------

  /** Attempts that each deliver the log from a place at or before the checkpoint that is
      then stored, as long as the loop goes on. */
  ghost predicate Faithful(c: Config, s: Store.State, attempts: seq<Attempt>)
    decreases |attempts|
  {
    attempts == [] ||
    (&& Delivers(c, s.checkpoint, attempts[0])
     && var fed := StreamOf(c.src, s.checkpoint, false, attempts[0]);
        (fed.end == Some(Broken) ==> Faithful(c, ApplyAll(s, fed.ops), attempts[1..])))
  }

  lemma {:induction false} FeedNeverStops(src: Source, asm: Assembler.State, gap: Option<Checkpoint>,
                                          es: seq<Assembler.BinEvent>)
    ensures Feed(src, asm, gap, es).end in {None, Some(Refused), Some(Broken)}
    decreases |es|
  {
    if es != [] { FeedNeverStops(src, React(src, asm, gap, es[0]).asm, None, es[1..]); }
  }

  lemma HowStreamsEnd(src: Source, cp: Option<Checkpoint>, a: Attempt)
    requires !a.ending.Purged?
    ensures StreamOf(src, cp, false, a).end in {Some(Stopped), Some(Refused), Some(Broken)}
  {
    var resume := ResumePoint(cp, false);
    FeedNeverStops(src, Binlog.Rest(if resume.Some? then resume.value.logFile else a.current.file, ""), resume,
      a.events);
  }

  /** Two traces, the second begun where a disconnect leaves the first. */
  lemma Joined(c: Config, base: nat, a: seq<World>, b: seq<World>)
    requires IsTrace(c, base, a) && IsTrace(c, base, b) && b[0] == World(Last(a).ops, None)
    ensures IsTrace(c, base, a + b) && (a + b)[0] == a[0] && Last(a + b) == Last(b)
  {
    var all := a + b;
    forall i | 0 <= i < |all| - 1 ensures StepAt(c, base, all, i) {
      if i + 1 < |a| {
        assert StepAt(c, base, a, i);
      } else if i + 1 == |a| {
        assert Disconnects(all[i], all[i + 1]);
      } else {
        assert StepAt(c, base, b, i - |a|);
      }
    }
  }

  lemma RunStep(src: Source, s: Store.State, attempts: seq<Attempt>)
    requires attempts != [] && !attempts[0].ending.Purged?
    ensures var fed := StreamOf(src, s.checkpoint, false, attempts[0]);
            RunWith(src, s, false, attempts) ==
            if fed.end == Some(Broken) then RunWith(src, ApplyAll(s, fed.ops), false, attempts[1..])
            else (ApplyAll(s, fed.ops), fed.end == Some(Refused))
  {
    HowStreamsEnd(src, s.checkpoint, attempts[0]);
  }

  /** Reconnecting, again and again, leaves the store as some run of the steps does. */
  lemma {:induction false} LoopIsARun(c: Config, base: nat, w: World, attempts: seq<Attempt>)
    returns (worlds: seq<World>)
    requires w.conn.None? && Faithful(c, RunOf(w.ops), attempts)
    ensures IsTrace(c, base, worlds) && worlds[0] == w
    ensures RunOf(Last(worlds).ops) == RunWith(c.src, RunOf(w.ops), false, attempts).0
    decreases |attempts|
  {
    if attempts == [] {
      worlds := [w];
    } else {
      var fed := StreamOf(c.src, RunOf(w.ops).checkpoint, false, attempts[0]);
      worlds := StreamIsARun(c, base, w, attempts[0]);
      RunStep(c.src, RunOf(w.ops), attempts);
      RunIsApplied(w.ops, fed.ops);
      if fed.end == Some(Broken) {
        var more := LoopIsARun(c, base, World(Last(worlds).ops, None), attempts[1..]);
        Joined(c, base, worlds, more);
        worlds := worlds + more;
      }
    }
  }

  /** So whatever the store went through before, once the loop returns it was handed
      exactly a prefix of the log, each transaction once, past its checkpoint. */
  lemma LoopKeepsThePrefix(c: Config, before: seq<World>, attempts: seq<Attempt>) returns (worlds: seq<World>, m: nat)
    requires LogOk(c) && IsRun(c, before) && Faithful(c, RunOf(Last(before).ops), attempts)
    ensures IsRun(c, worlds) && RunOf(Last(worlds).ops) == RunWith(c.src, RunOf(Last(before).ops), false, attempts).0
    ensures m <= Length(c) && LedgerOf(Last(worlds).ops).log == StoredUpTo(c, m)
    ensures CheckpointWithin(c, RunWith(c.src, RunOf(Last(before).ops), false, attempts).0.checkpoint, m)
    ensures Last(worlds).conn.Some? ==> Last(worlds).conn.value.at <= m
    ensures AllDiffer(LedgerOf(Last(worlds).ops).log)
  {
    var more := LoopIsARun(c, |before[0].ops|, World(Last(before).ops, None), attempts);
    Joined(c, |before[0].ops|, before, more);
    worlds := before + more;
    m := ExactlyOncePrefix(c, worlds, |worlds| - 1);
  }

  lemma RunAnswersThePrefix(c: Config, worlds: seq<World>, s: Store.State, f: Filter, now: int) returns (m: nat)
    requires LogOk(c) && IsRun(c, worlds) && s == RunOf(Last(worlds).ops) && f.from.Some?
    requires Store.Judge(s, f, now).None?
    ensures m <= Length(c) && CheckpointWithin(c, s.checkpoint, m)
    ensures Store.Answer(s, f, now) == Ok(Matching(f, LogEvents(StoredUpTo(c, m))))
  {
    m := AnswersAreTheLogPrefix(c, worlds, |worlds| - 1, f, now);
  }

  /** And what it answers after the loop is that prefix. */
  lemma LoopAnswersThePrefix(c: Config, before: seq<World>, attempts: seq<Attempt>, f: Filter, now: int)
    returns (m: nat)
    requires LogOk(c) && IsRun(c, before) && Faithful(c, RunOf(Last(before).ops), attempts) && f.from.Some?
    requires Store.Judge(RunWith(c.src, RunOf(Last(before).ops), false, attempts).0, f, now).None?
    ensures var s := RunWith(c.src, RunOf(Last(before).ops), false, attempts).0;
            && m <= Length(c) && CheckpointWithin(c, s.checkpoint, m)
            && Store.Answer(s, f, now) == Ok(Matching(f, LogEvents(StoredUpTo(c, m))))
  {
    var worlds, _ := LoopKeepsThePrefix(c, before, attempts);
    m := RunAnswersThePrefix(c, worlds, RunWith(c.src, RunOf(Last(before).ops), false, attempts).0, f, now);
  }
}
