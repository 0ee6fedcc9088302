/** The normalized row change that a source emits and the reverse engine consumes
    (internal/change). Go strings and byte slices are sequences of bytes, here
    characters below 256. */
module Change {
  import opened Wrappers

  type Byte = c: char | c as int < 256
  type Text = seq<Byte>

  /** Whole seconds since the Unix epoch. Go's zero time is modelled as an absent instant. */
  type Instant = t: int | t > 0 witness 1

  type Int64 = i: int | -0x8000_0000_0000_0000 <= i < 0x8000_0000_0000_0000
  type Uint64 = u: int | 0 <= u < 0x1_0000_0000_0000_0000
  type Uint32 = u: int | 0 <= u < 0x1_0000_0000
  type Nanos = n: int | 0 <= n <= 999_999_999

  /** The Go integer type a value arrived as. */
  datatype Width = W8 | W16 | W32 | W64 | Native

  /** The dynamic types a column value can have. Floats are kept as their bit
      patterns and a time as an instant read in some zone, zone 0 being UTC. */
  datatype Value =
    | Null
    | Bool(b: bool)
    | Int(iw: Width, i: Int64)
    | Uint(uw: Width, u: Uint64)
    | Float32(f32: Uint32)
    | Float64(f64: Uint64)
    | Str(s: Text)
    | Bytes(bs: Text)
    | Time(sec: Int64, nsec: Nanos, zone: nat)
    | Raw(raw: Text)
    | Unsupported(kind: nat)

  type Row = seq<Value>

  predicate IsNaN32(x: Uint32) { (x / 0x80_0000) % 0x100 == 0xFF && x % 0x80_0000 != 0 }
  predicate IsNaN64(x: Uint64) { (x / 0x10_0000_0000_0000) % 0x800 == 0x7FF && x % 0x10_0000_0000_0000 != 0 }
  predicate IsZero32(x: Uint32) { x % 0x8000_0000 == 0 }
  predicate IsZero64(x: Uint64) { x % 0x8000_0000_0000_0000 == 0 }
  predicate IsFinite32(x: Uint32) { (x / 0x80_0000) % 0x100 != 0xFF }
  predicate IsFinite64(x: Uint64) { (x / 0x10_0000_0000_0000) % 0x800 != 0x7FF }

  datatype Op = Insert | Update | Delete | SchemaChange | OtherOp(code: nat)

  datatype Column = Column(name: Text, primaryKey: bool, readOnly: bool)

  /** One row modification. A nil image is None. */
  datatype Event = Event(
    schema: Text,
    table: Text,
    op: Op,
    columns: seq<Column>,
    before: Option<Row>,
    after: Option<Row>,
    logFile: Text,
    logPos: Uint32,
    at: int,
    serverId: Uint32,
    query: Text)
  {
    predicate IsSchemaChange() { op == SchemaChange }
  }

  datatype Transaction = Transaction(sourceId: Text, committedAt: Instant, serverId: Uint32, events: seq<Event>)

  datatype Checkpoint = Checkpoint(logFile: Text, logPos: Uint32, gtid: Text, updatedAt: Instant)

  /** Which events an operator asked about; an unset bound or an empty table list widens it. */
  datatype Filter = Filter(tables: seq<Text>, from: Option<Instant>, to: Option<Instant>)

  function LowerByte(c: Byte): Byte {
    if 'A' <= c <= 'Z' then (c as int + 32) as char else c
  }

  function Lower(s: Text): Text {
    seq(|s|, i requires 0 <= i < |s| => LowerByte(s[i]))
  }

  function UpperByte(c: Byte): Byte {
    if 'a' <= c <= 'z' then (c as int - 32) as char else c
  }

  function Upper(s: Text): Text {
    seq(|s|, i requires 0 <= i < |s| => UpperByte(s[i]))
  }

  predicate IsSpace(c: char) { c == ' ' || c == '\t' || c == '\n' || c == '\r' || c == 11 as char || c == 12 as char }

  /** strings.TrimSpace on ASCII text. */
  function Trim(s: Text): Text {
    if s == "" then ""
    else if IsSpace(s[0]) then Trim(s[1..])
    else if IsSpace(s[|s| - 1]) then Trim(s[..|s| - 1])
    else s
  }

  predicate EqualFold(a: Text, b: Text) { Lower(a) == Lower(b) }

  predicate MatchesTable(f: Filter, schema: Text, table: Text) {
    |f.tables| == 0 ||
    exists k :: 0 <= k < |f.tables| && (EqualFold(f.tables[k], table) || EqualFold(f.tables[k], schema + "." + table))
  }

  predicate Match(f: Filter, ev: Event) {
    && (ev.IsSchemaChange() || MatchesTable(f, ev.schema, ev.table))
    && (f.from.Some? ==> ev.at >= f.from.value)
    && (f.to.Some? ==> ev.at <= f.to.value)
  }

  /** The events of a sequence that a filter keeps, in order. */
  function Matching(f: Filter, events: seq<Event>): seq<Event> {
    if events == [] then []
    else
      var rest := Matching(f, events[..|events| - 1]);
      var last := events[|events| - 1];
      if Match(f, last) then rest + [last] else rest
  }

  lemma MatchingOneMore(f: Filter, evs: seq<Event>, ev: Event)
    ensures Matching(f, evs + [ev]) == if Match(f, ev) then Matching(f, evs) + [ev] else Matching(f, evs)
  {
    assert (evs + [ev])[..|evs|] == evs;
  }

  /** reflect.DeepEqual on column values: floats compare as numbers, so a NaN
      differs from itself and the two zeros are equal. */
  predicate EqualValue(a: Value, b: Value) {
    if a.Float32? && b.Float32? then
      !IsNaN32(a.f32) && !IsNaN32(b.f32) && (a.f32 == b.f32 || (IsZero32(a.f32) && IsZero32(b.f32)))
    else if a.Float64? && b.Float64? then
      !IsNaN64(a.f64) && !IsNaN64(b.f64) && (a.f64 == b.f64 || (IsZero64(a.f64) && IsZero64(b.f64)))
    else
      a == b
  }

  /** A value that equals only itself: no NaN and no negative zero. MySQL stores
      neither a NaN nor an infinity. */
  predicate Exact(v: Value) {
    && (v.Float32? ==> IsFinite32(v.f32) && v.f32 != 0x8000_0000)
    && (v.Float64? ==> IsFinite64(v.f64) && v.f64 != 0x8000_0000_0000_0000)
  }

  lemma ExactEquality(a: Value, b: Value)
    requires Exact(a) && Exact(b)
    ensures EqualValue(a, b) <==> a == b
  {
  }
}
