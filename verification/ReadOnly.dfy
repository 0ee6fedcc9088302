/** Marking the columns a database computes for itself (internal/change/readonly.go,
    internal/source/mysql/source.go). Changes decoded from one table map share a
    column slice, so the slices are arrays here and sharing is real. */
module ReadOnly {
  import opened Change

  /** A change whose columns are a slice that other changes may share. */
  datatype Held = Held(event: Event, columns: array<Column>)

  /** The change as a value: its columns are what the slice holds. */
  ghost function ValueOf(h: Held): Event
    reads h.columns
  {
    h.event.(columns := h.columns[..])
  }

  // ---------- What marking means ----------

  function Flagged(c: Column, flag: bool): Column { if flag then c.(readOnly := true) else c }

  /** A column named bare, by its table, or by its schema and table. */
  predicate Named(want: set<Text>, ev: Event, name: Text) {
    || Lower(name) in want
    || Lower(ev.table + "." + name) in want
    || Lower(ev.schema + "." + ev.table + "." + name) in want
  }

  /** Exactly the named columns gain the flag; nothing else of the change differs. */
  ghost predicate MarkedAs(want: set<Text>, ev: Event, marked: Event) {
    && marked == ev.(columns := marked.columns)
    && |marked.columns| == |ev.columns|
    && forall c :: 0 <= c < |ev.columns| ==>
         marked.columns[c] == Flagged(ev.columns[c], Named(want, ev, ev.columns[c].name))
  }

  /** Marking one change by itself. */
  function Mark(want: set<Text>, ev: Event): (marked: Event)
    ensures MarkedAs(want, ev, marked)
  {
    ev.(columns := seq(|ev.columns|, c requires 0 <= c < |ev.columns| =>
      Flagged(ev.columns[c], Named(want, ev, ev.columns[c].name))))
  }

  /** Marking by one list and then by another is marking by both: marks add up, in any
      order, and none is ever taken away. */
  lemma MarkingsAdd(want: set<Text>, more: set<Text>, ev: Event)
    ensures Mark(more, Mark(want, ev)) == Mark(want + more, ev) == Mark(want, Mark(more, ev))
    ensures forall c :: 0 <= c < |ev.columns| && ev.columns[c].readOnly ==> Mark(want, ev).columns[c].readOnly
  {
    assert Mark(more, Mark(want, ev)).columns == Mark(want + more, ev).columns;
    assert Mark(want, Mark(more, ev)).columns == Mark(want + more, ev).columns;
  }

  /** The names asked for, trimmed and lower-cased; blank ones count for nothing. */
  function Wanted(names: seq<Text>): set<Text> {
    set k | 0 <= k < |names| && Trim(names[k]) != "" :: Lower(Trim(names[k]))
  }

  // ---------- Copy on write ----------

  method MarkOne(want: set<Text>, h: Held) returns (marked: Held)
    ensures marked.event == h.event
    ensures ValueOf(marked) == Mark(want, ValueOf(h))
    ensures marked.columns == h.columns || fresh(marked.columns)
  {
    var columns := h.columns;
    var copied := false;
    for j := 0 to h.columns.Length
      invariant copied ==> fresh(columns) && columns != h.columns
      invariant !copied ==> columns == h.columns
      invariant columns.Length == h.columns.Length
      invariant forall k :: 0 <= k < j ==>
        columns[k] == Flagged(h.columns[k], Named(want, h.event, h.columns[k].name))
      invariant forall k :: j <= k < columns.Length ==> columns[k] == h.columns[k]
    {
      var name := h.columns[j].name;
      if Lower(name) in want || Lower(h.event.table + "." + name) in want
         || Lower(h.event.schema + "." + h.event.table + "." + name) in want
      {
        if !copied {
          columns := new Column[h.columns.Length](k requires 0 <= k < h.columns.Length reads h.columns => h.columns[k]);
          copied := true;
        }
        columns[j] := columns[j].(readOnly := true);
      }
    }
    marked := Held(h.event, columns);
    assert ValueOf(marked).columns == Mark(want, ValueOf(h)).columns;
  }

  method WantedNames(names: seq<Text>) returns (want: set<Text>)
    ensures want == Wanted(names)
  {
    want := {};
    for k := 0 to |names|
      invariant want == Wanted(names[..k])
    {
      var name := Trim(names[k]);
      assert names[..k + 1] == names[..k] + [names[k]];
      if name != "" { want := want + {Lower(name)}; }
    }
    assert names[..|names|] == names;
  }

  /** Marks every change as if it were alone: no slice that existed before is written,
      so nothing outside this call can see a mark. */
  method MarkReadOnly(events: array<Held>, names: seq<Text>)
    modifies events
    ensures forall k :: 0 <= k < events.Length ==>
      && events[k].event == old(events[k].event)
      && ValueOf(events[k]) == Mark(Wanted(names), old(ValueOf(events[k])))
  {
    var want := WantedNames(names);
    if want == {} {
      forall k | 0 <= k < events.Length ensures ValueOf(events[k]) == Mark(want, ValueOf(events[k])) {
        assert Mark(want, ValueOf(events[k])).columns == ValueOf(events[k]).columns;
      }
      return;
    }
    for i := 0 to events.Length
      invariant forall k :: 0 <= k < i ==>
        && events[k].event == old(events[k].event)
        && ValueOf(events[k]) == Mark(want, old(ValueOf(events[k])))
      invariant forall k :: i <= k < events.Length ==> events[k] == old(events[k])
    {
      events[i] := MarkOne(want, events[i]);
    }
  }

  // ---------- In place, over shared slices ----------

  predicate Computed(names: seq<Text>, name: Text) { exists n :: 0 <= n < |names| && EqualFold(name, names[n]) }

  /** The columns a server said it computes, by "schema.table". */
  function NamesFor(generated: map<Text, seq<Text>>, ev: Event): seq<Text> {
    var key := ev.schema + "." + ev.table;
    if key in generated then generated[key] else []
  }

  /** Marking the computed columns of one change by itself. */
  function MarkComputed(generated: map<Text, seq<Text>>, ev: Event): Event {
    ev.(columns := seq(|ev.columns|, c requires 0 <= c < |ev.columns| =>
      Flagged(ev.columns[c], Computed(NamesFor(generated, ev), ev.columns[c].name))))
  }

  method MarkColumns(columns: array<Column>, names: seq<Text>)
    modifies columns
    ensures forall c :: 0 <= c < columns.Length ==>
      columns[c] == Flagged(old(columns[c]), Computed(names, old(columns[c].name)))
  {
    for n := 0 to |names|
      invariant forall c :: 0 <= c < columns.Length ==>
        columns[c] == Flagged(old(columns[c]), Computed(names[..n], old(columns[c].name)))
    {
      for c := 0 to columns.Length
        invariant forall k :: 0 <= k < c ==>
          columns[k] == Flagged(old(columns[k]), Computed(names[..n + 1], old(columns[k].name)))
        invariant forall k :: c <= k < columns.Length ==>
          columns[k] == Flagged(old(columns[k]), Computed(names[..n], old(columns[k].name)))
      {
        OneMoreName(names, n, columns[c].name);
        if EqualFold(columns[c].name, names[n]) { columns[c] := columns[c].(readOnly := true); }
      }
    }
    assert names[..|names|] == names;
  }

  lemma OneMoreName(names: seq<Text>, n: nat, name: Text)
    requires n < |names|
    ensures Computed(names[..n + 1], name) <==> Computed(names[..n], name) || EqualFold(name, names[n])
  {
    if Computed(names[..n], name) {
      var k :| 0 <= k < n && EqualFold(name, names[..n][k]);
      assert names[..n + 1][k] == names[k];
    }
    if EqualFold(name, names[n]) { assert names[..n + 1][n] == names[n]; }
  }

  /** Whether one of the first n changes over a slice has the column computed. */
  ghost predicate Reached(generated: map<Text, seq<Text>>, events: seq<Held>, n: nat, columns: array<Column>,
                          name: Text)
    requires n <= |events|
  {
    exists j :: 0 <= j < n && events[j].columns == columns && Computed(NamesFor(generated, events[j].event), name)
  }

  /** A mark reaches every change that shares the slice: a column ends up flagged
      exactly when it was, or when some change over the same slice has it computed. */
  method MarkGenerated(events: seq<Held>, generated: map<Text, seq<Text>>)
    modifies set k | 0 <= k < |events| :: events[k].columns
    ensures forall k, c :: 0 <= k < |events| && 0 <= c < events[k].columns.Length ==>
      events[k].columns[c] == Flagged(old(events[k].columns[c]),
        Reached(generated, events, |events|, events[k].columns, old(events[k].columns[c].name)))
  {
    for i := 0 to |events|
      invariant forall k, c :: 0 <= k < |events| && 0 <= c < events[k].columns.Length ==>
        events[k].columns[c] == Flagged(old(events[k].columns[c]),
          Reached(generated, events, i, events[k].columns, old(events[k].columns[c].name)))
    {
      MarkColumns(events[i].columns, NamesFor(generated, events[i].event));
    }
  }

  /** Changes that share a slice are changes of one table. */
  ghost predicate SharedByTable(events: seq<Held>) {
    forall i, j :: 0 <= i < |events| && 0 <= j < |events| && events[i].columns == events[j].columns ==>
      events[i].event.schema == events[j].event.schema && events[i].event.table == events[j].event.table
  }

  lemma ReachedByOwnTable(generated: map<Text, seq<Text>>, events: seq<Held>, k: nat, name: Text)
    requires k < |events| && SharedByTable(events)
    ensures Reached(generated, events, |events|, events[k].columns, name) <==>
            Computed(NamesFor(generated, events[k].event), name)
  {
    if Computed(NamesFor(generated, events[k].event), name) { assert events[k].columns == events[k].columns; }
  }

  /** When sharing follows tables, marking in place gives each change the flags it
      would get marked by itself. */
  method MarkGeneratedByTable(events: seq<Held>, generated: map<Text, seq<Text>>)
    requires SharedByTable(events)
    modifies set k | 0 <= k < |events| :: events[k].columns
    ensures forall k :: 0 <= k < |events| ==> ValueOf(events[k]) == MarkComputed(generated, old(ValueOf(events[k])))
  {
    MarkGenerated(events, generated);
    forall k | 0 <= k < |events| ensures ValueOf(events[k]) == MarkComputed(generated, old(ValueOf(events[k]))) {
      forall c | 0 <= c < events[k].columns.Length
        ensures events[k].columns[c] == Flagged(old(events[k].columns[c]),
          Computed(NamesFor(generated, events[k].event), old(events[k].columns[c].name)))
      {
        ReachedByOwnTable(generated, events, k, old(events[k].columns[c].name));
      }
      assert NamesFor(generated, old(ValueOf(events[k]))) == NamesFor(generated, events[k].event);
      assert ValueOf(events[k]).columns == MarkComputed(generated, old(ValueOf(events[k]))).columns;
    }
  }
}
