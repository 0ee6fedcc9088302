/** Schema changes inside transactions: when the rows beside them are stored, and where a
    resume inside is read as if from the start. */
module SchemaInside {
  import opened Wrappers
  import opened Sequences
  import opened Change
  import opened Binlog
  import opened StoreLog
  import opened Collector
  import opened ExactlyOnce
  import Assembler
  import Store

  // ---------- Transactions handed over one after another ----------

  function Appends(txns: seq<Transaction>, cps: seq<Checkpoint>): seq<StoreOp>
    requires |txns| == |cps|
  {
    seq(|txns|, i requires 0 <= i < |txns| => AppendTxn(txns[i], cps[i]))
  }

  predicate EncodesAll(txns: seq<Transaction>) {
    forall i :: 0 <= i < |txns| ==> Store.EncodeUpTo(txns[i].events, |txns[i].events|).Ok?
  }

  predicate IdIn(txns: seq<Transaction>, id: Text) { exists i :: 0 <= i < |txns| && txns[i].sourceId == id }

  lemma AppendsApart(ops: seq<StoreOp>, txns: seq<Transaction>, cps: seq<Checkpoint>)
    requires txns != [] && |txns| == |cps|
    ensures ops + Appends(txns, cps) == ops + Appends(Init(txns), Init(cps)) + [AppendTxn(Last(txns), Last(cps))]
  {
  }

  lemma IdInMore(txns: seq<Transaction>, txn: Transaction, id: Text)
    ensures IdIn(txns + [txn], id) <==> IdIn(txns, id) || txn.sourceId == id
  {
    if IdIn(txns, id) {
      var i :| 0 <= i < |txns| && txns[i].sourceId == id;
      assert (txns + [txn])[i].sourceId == id;
    }
    if txn.sourceId == id { assert (txns + [txn])[|txns|].sourceId == id; }
  }

  /** What was delivered is what was there and what was handed over. */
  lemma {:induction false} DeliveredAfter(ops: seq<StoreOp>, txns: seq<Transaction>, cps: seq<Checkpoint>, id: Text)
    requires |txns| == |cps| && EncodesAll(txns)
    ensures Delivered(StandingOf(ops + Appends(txns, cps)).log, id) <==>
            Delivered(StandingOf(ops).log, id) || IdIn(txns, id)
    decreases |txns|
  {
    if txns == [] {
      assert ops + Appends(txns, cps) == ops;
    } else {
      var before, last := ops + Appends(Init(txns), Init(cps)), Last(txns);
      DeliveredAfter(ops, Init(txns), Init(cps), id);
      AppendsApart(ops, txns, cps);
      StandConcat(before, AppendTxn(last, Last(cps)));
      assert Init(txns) + [last] == txns;
      IdInMore(Init(txns), last, id);
      IdInMore(StandingOf(before).log, last, id);
      assert Delivered(StandingOf(before).log, id) <==> IdIn(StandingOf(before).log, id);
    }
  }

  /** Of transactions handed over one after another, the last is stored if and only if no
      earlier one has its identity. */
  lemma LastIsStoredExactly(ops: seq<StoreOp>, txns: seq<Transaction>, cps: seq<Checkpoint>)
    requires txns != [] && |txns| == |cps| && EncodesAll(txns) && !Delivered(StandingOf(ops).log, Last(txns).sourceId)
    ensures var before, after := ops + Appends(Init(txns), Init(cps)), ops + Appends(txns, cps);
            StandingOf(after).log ==
            StandingOf(before).log + if IdIn(Init(txns), Last(txns).sourceId) then [] else [Last(txns)]
    ensures StandingOf(ops + Appends(txns, cps)).checkpoint == Some(Last(cps))
  {
    var before := ops + Appends(Init(txns), Init(cps));
    DeliveredAfter(ops, Init(txns), Init(cps), Last(txns).sourceId);
    AppendsApart(ops, txns, cps);
    StandConcat(before, AppendTxn(Last(txns), Last(cps)));
    assert StandingOf(before).log + [] == StandingOf(before).log;
  }

  // ---------- The rows beside a schema change ----------

  /** What the events of a transaction that is not wrapped hand over, all of it wanted. */
  function Handed(src: Source, file: Text, item: Item): seq<Transaction>
    requires item.Txn?
  {
    CollectedAll(src, Somes(PlainCommits(src.isDdl, file, IdOf(item.intro), item)))
  }

  function CollectedAll(src: Source, txns: seq<Transaction>): seq<Transaction> {
    seq(|txns|, i requires 0 <= i < |txns| => Collected(src, txns[i]))
  }

  /** An identity among what is committed before the end: that of a schema change. */
  lemma EarlierIds(isDdl: Text -> bool, file: Text, gtid: Text, item: Item, id: Text)
    requires item.Txn?
    ensures var inside := Somes(Init(PlainCommits(isDdl, file, gtid, item)));
            IdIn(inside, id) <==>
            exists j :: 0 <= j < |item.middle| && IsKind(isDdl, item.middle[j], Assembler.Ddl)
                        && Identity(file, gtid, item.middle[j].header) == id
  {
    var all, n, m := PlainCommits(isDdl, file, gtid, item), |item.begin|, |item.middle|;
    var inside := InsideUpTo(isDdl, file, gtid, item.middle, m);
    assert Init(all) == Nones(n) + inside;
    NonesAreNothing(n, inside);
    if IdIn(Somes(inside), id) {
      var i :| 0 <= i < |Somes(inside)| && Somes(inside)[i].sourceId == id;
      SomesAre(inside, Somes(inside)[i]);
      var j :| 0 <= j < |inside| && inside[j] == Some(Somes(inside)[i]);
      assert IsKind(isDdl, item.middle[j], Assembler.Ddl);
    }
    if j :| 0 <= j < m && IsKind(isDdl, item.middle[j], Assembler.Ddl)
            && Identity(file, gtid, item.middle[j].header) == id
    {
      var t := SchemaAt(file, gtid, item.middle[j]);
      assert inside[j] == Some(t);
      SomesAre(inside, t);
      var i :| 0 <= i < |Somes(inside)| && Somes(inside)[i] == t;
    }
  }

  lemma CollectedKeepsIds(src: Source, txns: seq<Transaction>, id: Text)
    ensures IdIn(CollectedAll(src, txns), id) <==> IdIn(txns, id)
  {
    if IdIn(txns, id) {
      var i :| 0 <= i < |txns| && txns[i].sourceId == id;
      assert CollectedAll(src, txns)[i].sourceId == id;
    }
    if IdIn(CollectedAll(src, txns), id) {
      var i :| 0 <= i < |txns| && CollectedAll(src, txns)[i].sourceId == id;
      assert txns[i].sourceId == id;
    }
  }

  /** The transaction holds no schema change, or carries no GTID and none of its schema
      changes commits at the position where it ends. */
  predicate RowsKept(isDdl: Text -> bool, item: Item)
    requires item.Txn?
  {
    forall j :: 0 <= j < |item.middle| && IsKind(isDdl, item.middle[j], Assembler.Ddl) ==>
      IdOf(item.intro) == "" && item.middle[j].header.logPos != item.end.header.logPos
  }

  /** The rows of a transaction are stored if and only if it holds no schema change before
      its end or carries no GTID; else they are taken for a transaction already stored,
      and the checkpoint moves past them all the same. */
  lemma RowsAreStoredExactly(src: Source, file: Text, item: Item, ops: seq<StoreOp>, cps: seq<Checkpoint>)
    requires item.Txn? && item.wrap.None? && RowsOf(src.isDdl, file, IdOf(item.intro), item).Some?
    requires var txns := Handed(src, file, item); |cps| == |txns| && EncodesAll(txns)
    requires !Delivered(StandingOf(ops).log, Identity(file, IdOf(item.intro), item.end.header))
    ensures var rows := Collected(src, RowsOf(src.isDdl, file, IdOf(item.intro), item).value);
            var txns := Handed(src, file, item);
            && txns != [] && Last(txns) == rows
            && StandingOf(ops + Appends(txns, cps)).log ==
               StandingOf(ops + Appends(Init(txns), Init(cps))).log + (if RowsKept(src.isDdl, item) then [rows] else [])
            && StandingOf(ops + Appends(txns, cps)).checkpoint == Some(Last(cps))
  {
    var gtid := IdOf(item.intro);
    var all, id := PlainCommits(src.isDdl, file, gtid, item), Identity(file, gtid, item.end.header);
    var txns := Handed(src, file, item);
    assert Last(all) == RowsOf(src.isDdl, file, gtid, item);
    assert Somes(all) == Somes(Init(all)) + [Last(all).value];
    assert Init(txns) == CollectedAll(src, Somes(Init(all)));
    LastIsStoredExactly(ops, txns, cps);
    CollectedKeepsIds(src, Somes(Init(all)), id);
    EarlierIds(src.isDdl, file, gtid, item, id);
    forall j | 0 <= j < |item.middle|
      ensures Identity(file, gtid, item.middle[j].header) == id <==>
              gtid != "" || item.middle[j].header.logPos == item.end.header.logPos
    {
      SharedIdentityExactly(file, gtid, item.middle, j, item.end.header);
    }
  }

  // ---------- Resuming inside ----------

  /** Partway through a transaction without a GTID the assembler is as at rest if and only
      if nothing was gathered: no readable rows event, and no annotation in force. */
  lemma AtRestExactly(file: Text, middle: seq<Assembler.BinEvent>, n: nat)
    requires n <= |middle|
    ensures Partway(file, "", middle, n) == Rest(file, "") <==>
            QueryAt(middle, n) == "" && forall i :: 0 <= i < n ==> !HasChanges(middle[i])
  {
    RowsSoFar(file, middle, n);
  }

  lemma {:induction false} RowsSoFar(file: Text, middle: seq<Assembler.BinEvent>, n: nat)
    requires n <= |middle|
    ensures LastRows(middle, n).None? <==> forall i :: 0 <= i < n ==> !HasChanges(middle[i])
    ensures LastRows(middle, n).None? ==> ChangesUpTo(file, middle, n) == []
    decreases n
  {
    if n > 0 { RowsSoFar(file, middle, n - 1); }
  }

  /** How many events of a transaction come before the n-th inside it. */
  function InsideAt(item: Item, n: nat): nat
    requires item.Txn?
  {
    |item.intro| + |item.begin| + n
  }

  lemma StartYields(isDdl: Text -> bool, file: Text, item: Item)
    requires item.Txn? && ItemOk(isDdl, item) && IdOf(item.intro) == ""
    ensures Yields(isDdl, Rest(file, ""), item.intro + item.begin, Nones(|item.intro|)
            + Nones(|item.begin|), Rest(file, ""))
  {
    var a, b := item.intro, item.begin;
    IntroYields(isDdl, file, "", a);
    BeginYields(isDdl, file, "", b);
    YieldsOn(isDdl, Rest(file, ""), a, Nones(|a|), Rest(file, ""), b, Nones(|b|), Rest(file, ""));
  }

  lemma PartwayReads(isDdl: Text -> bool, file: Text, item: Item, n: nat)
    requires item.Txn? && item.wrap.None? && ItemOk(isDdl, item) && IdOf(item.intro) == "" && n <= |item.middle|
    ensures var es, j := ItemEvents(item), InsideAt(item, n);
            j < |es| && Assembler.OneByOne(isDdl, Rest(file, ""), es, j).0 == Partway(file, "", item.middle, n)
  {
    var start, m, rest := item.intro + item.begin, item.middle[..n], item.middle[n..] + [item.end];
    StartYields(isDdl, file, item);
    MiddleYields(isDdl, file, "", item.middle, n);
    YieldsOn(isDdl, Rest(file, ""), start, Nones(|item.intro|) + Nones(|item.begin|), Rest(file, ""),
      m, InsideUpTo(isDdl, file, "", item.middle, n), Partway(file, "", item.middle, n));
    EventsApart(item, n);
    Assembler.OneByOnePrefix(isDdl, Rest(file, ""), start + m, rest, |start + m|);
  }

  lemma EventsApart(item: Item, n: nat)
    requires item.Txn? && item.wrap.None? && n <= |item.middle|
    ensures ItemEvents(item) == (item.intro + item.begin + item.middle[..n]) + (item.middle[n..] + [item.end])
  {
    assert item.middle == item.middle[..n] + item.middle[n..];
  }

  lemma InsideReads(c: Config, p: nat, k: nat, n: nat)
    requires k < |c.items| && c.items[k].Txn? && c.items[k].wrap.None? && ItemOk(c.src.isDdl, c.items[k])
    requires IdOf(c.items[k].intro) == "" && n <= |c.items[k].middle|
    requires p < Length(c) && At(c, p) == Spot(k, InsideAt(c.items[k], n))
    ensures FileOf(c, p) == FileAt(c, k) && ReadUpTo(c, p, "") == Partway(FileAt(c, k), "", c.items[k].middle, n)
  {
    PartwayReads(c.src.isDdl, FileAt(c, k), c.items[k], n);
    SpotReads(c, p, k, InsideAt(c.items[k], n));
  }

  lemma SpotReads(c: Config, p: nat, k: nat, j: nat)
    requires p < Length(c) && At(c, p) == Spot(k, j)
    ensures k < |c.items| && j < |ItemEvents(c.items[k])| && FileOf(c, p) == FileAt(c, k)
    ensures ReadUpTo(c, p, "") == Assembler.OneByOne(c.src.isDdl, Rest(FileAt(c, k), ""), ItemEvents(c.items[k]), j).0
  {
  }

  /** A place inside a transaction can be resumed from as if from the start if and only if
      nothing was gathered before it. */
  lemma ResumableExactly(c: Config, p: nat, k: nat, n: nat)
    requires k < |c.items| && c.items[k].Txn? && c.items[k].wrap.None? && ItemOk(c.src.isDdl, c.items[k])
    requires IdOf(c.items[k].intro) == "" && 0 < n <= |c.items[k].middle|
    requires p < Length(c) && At(c, p) == Spot(k, InsideAt(c.items[k], n))
    ensures Resumable(c, p) <==>
            QueryAt(c.items[k].middle, n) == "" && forall i :: 0 <= i < n ==> !HasChanges(c.items[k].middle[i])
  {
    InsideReads(c, p, k, n);
    AtRestExactly(FileAt(c, k), c.items[k].middle, n);
  }
}
