/** The printed inverse of a change, read by the server, is that inverse. */
module StatementText {
  import opened Wrappers
  import opened Change
  import opened Sql
  import opened SqlReading
  import opened Literal
  import opened Reverse

  predicate FiniteRow(row: Row) { forall v :: v in row ==> Finite(v) }

  predicate FiniteEvent(ev: Event) { FiniteRow(Image(ev.before)) && FiniteRow(Image(ev.after)) }

  predicate Printable(v: Value) { Renderable(v) && Finite(v) }

  predicate PrintablePred(p: Pred<Value>) { p.Equals? ==> Printable(p.val) }

  /** A statement a change can call for: every value prints and no list is empty. */
  predicate PrintableStmt(s: Stmt<Value>) {
    match s
    case Delete(_, _, where) => where != [] && forall p :: p in where ==> PrintablePred(p)
    case Update(_, _, sets, where) =>
      && sets != [] && (forall a :: a in sets ==> Printable(a.val))
      && where != [] && forall p :: p in where ==> PrintablePred(p)
    case Insert(_, _, cols, vals) => cols != [] && |vals| == |cols| && forall v :: v in vals ==> Printable(v)
    case _ => false
  }

  lemma {:induction false} WhereIsPrintable(cols: seq<Column>, row: Row, idx: seq<nat>, n: nat)
    requires |row| == |cols| && n <= |idx| && forall k :: 0 <= k < |idx| ==> idx[k] < |cols|
    requires FiniteRow(row) && WhereUpTo(cols, row, idx, n).Ok?
    ensures |WhereUpTo(cols, row, idx, n).value| == n
    ensures forall p :: p in WhereUpTo(cols, row, idx, n).value ==> PrintablePred(p)
  {
    if n > 0 {
      WhereIsPrintable(cols, row, idx, n - 1);
    }
  }

  lemma {:induction false} SetsArePrintable(cols: seq<Column>, before: Row, after: Row, n: nat)
    requires |before| == |after| == |cols| && n <= |cols|
    requires FiniteRow(before) && SetsUpTo(cols, before, after, n).Ok?
    ensures forall a :: a in SetsUpTo(cols, before, after, n).value ==> Printable(a.val)
  {
    if n > 0 {
      SetsArePrintable(cols, before, after, n - 1);
    }
  }

  lemma {:induction false} AssignableArePrintable(cols: seq<Column>, row: Row, n: nat)
    requires |row| == |cols| && n <= |cols|
    requires FiniteRow(row) && AssignableUpTo(cols, row, n).Ok?
    ensures forall v :: v in AssignableUpTo(cols, row, n).value.1 ==> Printable(v)
  {
    if n > 0 {
      AssignableArePrintable(cols, row, n - 1);
    }
  }

  lemma InverseIsPrintable(ev: Event)
    requires FiniteEvent(ev) && Inverse(ev).Ok?
    ensures PrintableStmt(Inverse(ev).value)
  {
    var cols, idx := ev.columns, WhereIndexes(ev.columns);
    match ev.op
    case Insert => WhereIsPrintable(cols, Image(ev.after), idx, |idx|);
    case Update =>
      SetsArePrintable(cols, Image(ev.before), Image(ev.after), |cols|);
      WhereIsPrintable(cols, Image(ev.after), idx, |idx|);
    case Delete => AssignableArePrintable(cols, Image(ev.before), |cols|);
  }

  /** What the text of each value denotes. */
  function Meaning(fmt: Format): Value -> Lit {
    v => if Renderable(v) then Denotes(fmt, v) else NullLit
  }

  /** The statement the server is meant to read. */
  function Intended(fmt: Format, s: Stmt<Value>): Stmt<Lit> { MapStmt(Meaning(fmt), s) }

  lemma MeaningIsWritten(fmt: Format, v: Value)
    requires Sound(fmt) && Printable(v)
    ensures Writable(Meaning(fmt)(v)) && LitText(Meaning(fmt)(v)) == TextOf(fmt)(v)
  {
    LiteralDenotes(fmt, v);
  }

  lemma PredsAreWritten(fmt: Format, ps: seq<Pred<Value>>)
    requires Sound(fmt) && forall p :: p in ps ==> PrintablePred(p)
    ensures MapPreds(LitText, MapPreds(Meaning(fmt), ps)) == MapPreds(TextOf(fmt), ps)
    ensures forall p :: p in MapPreds(Meaning(fmt), ps) ==> WritablePred(p)
  {
    forall i | 0 <= i < |ps|
      ensures MapPred(LitText, MapPred(Meaning(fmt), ps[i])) == MapPred(TextOf(fmt), ps[i])
      ensures WritablePred(MapPred(Meaning(fmt), ps[i]))
    {
      assert PrintablePred(ps[i]);
      if ps[i].Equals? { MeaningIsWritten(fmt, ps[i].val); }
    }
  }

  lemma AssignsAreWritten(fmt: Format, sets: seq<Assign<Value>>)
    requires Sound(fmt) && forall a :: a in sets ==> Printable(a.val)
    ensures MapAssigns(LitText, MapAssigns(Meaning(fmt), sets)) == MapAssigns(TextOf(fmt), sets)
    ensures forall a :: a in MapAssigns(Meaning(fmt), sets) ==> WritableAssign(a)
  {
    forall i | 0 <= i < |sets|
      ensures LitText(Meaning(fmt)(sets[i].val)) == TextOf(fmt)(sets[i].val)
      ensures Writable(Meaning(fmt)(sets[i].val))
    {
      assert sets[i] in sets;
      MeaningIsWritten(fmt, sets[i].val);
    }
  }

  lemma ValsAreWritten(fmt: Format, vals: seq<Value>)
    requires Sound(fmt) && forall v :: v in vals ==> Printable(v)
    ensures MapVals(LitText, MapVals(Meaning(fmt), vals)) == MapVals(TextOf(fmt), vals)
    ensures forall v :: v in MapVals(Meaning(fmt), vals) ==> Writable(v)
  {
    forall i | 0 <= i < |vals|
      ensures LitText(Meaning(fmt)(vals[i])) == TextOf(fmt)(vals[i])
      ensures Writable(Meaning(fmt)(vals[i]))
    {
      assert vals[i] in vals;
      MeaningIsWritten(fmt, vals[i]);
    }
  }

  lemma PrintedIsWritten(fmt: Format, s: Stmt<Value>)
    requires Sound(fmt) && PrintableStmt(s)
    ensures WritableStmt(Intended(fmt, s))
    ensures Printed(fmt, s) == Written(Intended(fmt, s))
  {
    match s
    case Delete(_, _, where) => PredsAreWritten(fmt, where);
    case Update(_, _, sets, where) =>
      AssignsAreWritten(fmt, sets);
      PredsAreWritten(fmt, where);
    case Insert(_, _, _, vals) => ValsAreWritten(fmt, vals);
  }

  /** For all names and values, and under both settings of NO_BACKSLASH_ESCAPES, the
      text of a reversal is read as exactly one statement: the inverse of the
      change, with each literal denoting the value it was printed from. */
  lemma ReversalReadsBack(fmt: Format, nb: bool, ev: Event)
    requires Sound(fmt) && FiniteEvent(ev) && StatementOf(fmt, ev).Ok?
    ensures ReadScript(nb, StatementOf(fmt, ev).value) == Some([Intended(fmt, Inverse(ev).value)])
  {
    InverseIsPrintable(ev);
    PrintedIsWritten(fmt, Inverse(ev).value);
    StatementReadsBack(nb, Intended(fmt, Inverse(ev).value));
  }
}
