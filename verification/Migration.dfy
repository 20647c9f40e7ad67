/** The database a migration moves, the units it runs, and what running them means when
    nothing goes wrong. `Resume` and `Apply` are proved against this. */
module Migration {
  import opened Wrappers
  import opened Sequences

  // ---------- the database ----------------------------------------------------------

  datatype Value = Null | Int(int) | Text(string)
  type Row = map<string, Value>
  type Rows = map<nat, Row>            // row identity to row
  type Data = map<string, Rows>        // the user's tables
  type Key = seq<int>                  // a walk key, one entry per key column

  /** Where an interrupted run stopped. */
  datatype Progress = Progress(hash: string, segment: nat, cursor: Option<Key>, rows: nat)

  /** Everything a commit makes durable. */
  datatype State = State(data: Data, ledger: map<string, string>, progress: map<string, Progress>)

  // ---------- the walk-key order ----------------------------------------------------

  /** Row-value comparison: lexicographic over the key columns. */
  predicate Less(a: Key, b: Key) {
    b != [] && (a == [] || a[0] < b[0] || (a[0] == b[0] && Less(a[1..], b[1..])))
  }

  lemma {:induction false} LessTransitive(a: Key, b: Key, c: Key)
    requires Less(a, b) && Less(b, c)
    ensures Less(a, c)
  {
    if a != [] && a[0] == b[0] == c[0] {
      LessTransitive(a[1..], b[1..], c[1..]);
    }
  }

  lemma {:induction false} LessTotal(a: Key, b: Key)
    ensures !(Less(a, b) && Less(b, a))
    ensures Less(a, b) || Less(b, a) || a == b
  {
    if a != [] && b != [] && a[0] == b[0] {
      LessTotal(a[1..], b[1..]);
      assert a == [a[0]] + a[1..] && b == [b[0]] + b[1..];
    }
  }

  /** `key > cursor`, with no cursor admitting every key. */
  predicate After(cursor: Option<Key>, key: Key) {
    cursor.None? || Less(cursor.value, key)
  }

  // ---------- chunked steps ---------------------------------------------------------

  /** A chunked step as the rows of its table see it, with what it reads of other rows fixed. `write`
      gives the row's new value, or None to delete it. */
  datatype Walk = Walk(size: nat, keyOf: Row -> Key, filter: Row -> bool, write: Row -> Option<Row>)
  {
    ghost predicate Checked() {
      size >= 1 && KeepsKeys()
    }

    ghost predicate KeepsKeys() {
      forall r: Row :: write(r).Some? ==> keyOf(write(r).value) == keyOf(r)
    }

    /** The rows the step still has to visit past `cursor`. */
    function Pending(rows: Rows, cursor: Option<Key>): set<nat> {
      set id | id in rows && filter(rows[id]) && After(cursor, keyOf(rows[id]))
    }

    /** The write over `(cursor, upto]`. */
    function Write(rows: Rows, cursor: Option<Key>, upto: Option<Key>): Rows {
      map id | id in rows && (Hit(rows[id], cursor, upto) ==> write(rows[id]).Some?) ::
        if Hit(rows[id], cursor, upto) then write(rows[id]).value else rows[id]
    }

    predicate Hit(row: Row, cursor: Option<Key>, upto: Option<Key>) {
      filter(row) && After(cursor, keyOf(row)) && (upto.None? || !Less(upto.value, keyOf(row)))
    }

    /** What the batch select returns: the first `size` pending rows in key order. */
    predicate IsBatch(rows: Rows, cursor: Option<Key>, ids: seq<nat>) {
      && (forall i | 0 <= i < |ids| :: ids[i] in Pending(rows, cursor))
      && (forall i, j | 0 <= i < j < |ids| ::
            ids[i] != ids[j] && !Less(keyOf(rows[ids[j]]), keyOf(rows[ids[i]])))
      && |ids| == (if |Pending(rows, cursor)| < size then |Pending(rows, cursor)| else size)
      && (forall id, i | id in Pending(rows, cursor) && id !in ids && 0 <= i < |ids| ::
            !Less(keyOf(rows[id]), keyOf(rows[ids[i]])))
    }

    /** No two rows share a walk key (an indexed, non-unique walk column breaks this). */
    predicate DistinctKeys(rows: Rows) {
      forall a, b | a in rows && b in rows && a != b :: keyOf(rows[a]) != keyOf(rows[b])
    }
  }

  /** One batch followed by everything above it is everything above the old cursor. */
  lemma BatchThenRest(walk: Walk, rows: Rows, cursor: Option<Key>, upto: Key)
    requires walk.KeepsKeys() && After(cursor, upto)
    ensures var next := walk.Write(rows, cursor, Some(upto));
            walk.Write(next, Some(upto), None) == walk.Write(rows, cursor, None)
  {
    var next := walk.Write(rows, cursor, Some(upto));
    forall id | id in rows
      ensures walk.Hit(rows[id], cursor, None) <==>
              walk.Hit(rows[id], cursor, Some(upto)) || walk.Hit(rows[id], Some(upto), None)
      ensures !(walk.Hit(rows[id], cursor, Some(upto)) && walk.Hit(rows[id], Some(upto), None))
    {
      if cursor.Some? && Less(upto, walk.keyOf(rows[id])) {
        LessTransitive(cursor.value, upto, walk.keyOf(rows[id]));
      }
    }
    assert forall id | id in next && walk.Hit(rows[id], cursor, Some(upto)) ::
        walk.keyOf(next[id]) == walk.keyOf(rows[id]);
  }

  /** A batch removes exactly the rows at or below its last key from the pending set. */
  lemma BatchShrinks(walk: Walk, rows: Rows, cursor: Option<Key>, upto: Key)
    requires walk.KeepsKeys() && After(cursor, upto)
    ensures walk.Pending(walk.Write(rows, cursor, Some(upto)), Some(upto)) ==
            set id | id in walk.Pending(rows, cursor) && Less(upto, walk.keyOf(rows[id]))
  {
    var next := walk.Write(rows, cursor, Some(upto));
    forall id | id in rows && Less(upto, walk.keyOf(rows[id]))
      ensures After(cursor, walk.keyOf(rows[id]))
    {
      if cursor.Some? {
        LessTransitive(cursor.value, upto, walk.keyOf(rows[id]));
      }
    }
    assert forall id | id in next && walk.Hit(rows[id], cursor, Some(upto)) ::
        walk.keyOf(next[id]) == walk.keyOf(rows[id]);
  }

  /** Every row left after a batch was pending and not fetched; with distinct walk keys
      nothing else is written unfetched. */
  lemma LeftIsUnfetched(walk: Walk, rows: Rows, cursor: Option<Key>, ids: seq<nat>, upto: Key)
    requires walk.KeepsKeys() && walk.IsBatch(rows, cursor, ids) && ids != []
    requires upto == walk.keyOf(rows[ids[|ids| - 1]])
    ensures var left := walk.Pending(walk.Write(rows, cursor, Some(upto)), Some(upto));
            && (forall id | id in left :: id in walk.Pending(rows, cursor) && id !in ids)
            && (walk.DistinctKeys(rows) ==> forall id | id in walk.Pending(rows, cursor) && id !in ids :: id in left)
  {
    BatchShrinks(walk, rows, cursor, upto);
    var last := ids[|ids| - 1];
    forall i | 0 <= i < |ids| ensures !Less(upto, walk.keyOf(rows[ids[i]])) {
      LessTotal(upto, upto);
    }
    if walk.DistinctKeys(rows) {
      forall id | id in walk.Pending(rows, cursor) && id !in ids ensures Less(upto, walk.keyOf(rows[id])) {
        LessTotal(upto, walk.keyOf(rows[id]));
        assert id != last && last in walk.Pending(rows, cursor);
      }
    }
  }

  /** A batch's fetched rows and the rows it leaves pending never exceed what was pending. */
  lemma BatchCountsItsRows(walk: Walk, rows: Rows, cursor: Option<Key>, ids: seq<nat>, upto: Key)
    requires walk.KeepsKeys() && walk.IsBatch(rows, cursor, ids) && ids != []
    requires upto == walk.keyOf(rows[ids[|ids| - 1]])
    ensures var left := walk.Pending(walk.Write(rows, cursor, Some(upto)), Some(upto));
            |left| + |ids| <= |walk.Pending(rows, cursor)|
  {
    var left := walk.Pending(walk.Write(rows, cursor, Some(upto)), Some(upto));
    LeftIsUnfetched(walk, rows, cursor, ids, upto);
    DistinctCount(ids);
    SplitCount(walk.Pending(rows, cursor), Elements(ids), left);
  }

  lemma SplitCount(whole: set<nat>, fetched: set<nat>, left: set<nat>)
    requires fetched <= whole && left <= whole - fetched
    ensures |left| + |fetched| <= |whole|
  {
    assert whole == fetched + left + (whole - fetched - left);
  }

  lemma {:induction false} DistinctCount(ids: seq<nat>)
    requires forall i, j | 0 <= i < j < |ids| :: ids[i] != ids[j]
    ensures |Elements(ids)| == |ids|
  {
    if ids != [] {
      var init := ids[..|ids| - 1];
      DistinctCount(init);
      assert Elements(ids) == Elements(init) + {ids[|ids| - 1]};
    }
  }

  /** Every pending set has a batch, so a select that succeeds has something to return. */
  lemma BatchExists(walk: Walk, rows: Rows, cursor: Option<Key>) returns (ids: seq<nat>)
    ensures walk.IsBatch(rows, cursor, ids)
  {
    ids := Smallest(walk, rows, walk.Pending(rows, cursor), walk.size);
  }

  lemma {:induction false} Smallest(walk: Walk, rows: Rows, from: set<nat>, n: nat) returns (ids: seq<nat>)
    requires from <= rows.Keys
    ensures |ids| == if |from| < n then |from| else n
    ensures forall i | 0 <= i < |ids| :: ids[i] in from
    ensures forall i, j | 0 <= i < j < |ids| ::
              ids[i] != ids[j] && !Less(walk.keyOf(rows[ids[j]]), walk.keyOf(rows[ids[i]]))
    ensures forall id, i | id in from && id !in ids && 0 <= i < |ids| ::
              !Less(walk.keyOf(rows[id]), walk.keyOf(rows[ids[i]]))
    decreases |from|
  {
    ids := [];
    if n > 0 && from != {} {
      var first := Least(walk, rows, from);
      var rest := Smallest(walk, rows, from - {first}, n - 1);
      ids := [first] + rest;
    }
  }

  lemma {:induction false} Least(walk: Walk, rows: Rows, from: set<nat>) returns (least: nat)
    requires from != {} && from <= rows.Keys
    ensures least in from && forall id | id in from :: !Less(walk.keyOf(rows[id]), walk.keyOf(rows[least]))
    decreases |from|
  {
    var some :| some in from;
    least := some;
    LessTotal(walk.keyOf(rows[some]), walk.keyOf(rows[some]));
    if from != {some} {
      var other := Least(walk, rows, from - {some});
      LessTotal(walk.keyOf(rows[some]), walk.keyOf(rows[other]));
      if !Less(walk.keyOf(rows[some]), walk.keyOf(rows[other])) {
        least := other;
      } else {
        forall id | id in from ensures !Less(walk.keyOf(rows[id]), walk.keyOf(rows[some])) {
          if Less(walk.keyOf(rows[id]), walk.keyOf(rows[some])) {
            LessTransitive(walk.keyOf(rows[id]), walk.keyOf(rows[some]), walk.keyOf(rows[other]));
          }
        }
      }
    }
  }

  lemma SomeBatch(walk: Walk, rows: Rows, cursor: Option<Key>)
    ensures exists ids :: walk.IsBatch(rows, cursor, ids)
  {
    var ids := BatchExists(walk, rows, cursor);
  }

  // ---------- walking a table -------------------------------------------------------

  /** A chunked `update` or `delete`. Its filter and its new values may test other rows with `.any`,
      those of the table it walks included, so they read the whole database. */
  datatype ChunkPlan = ChunkPlan(table: string, size: nat, keyOf: Row -> Key,
                                 filter: (Data, Row) -> bool, write: (Data, Row) -> Option<Row>)
  {
    /** The step as one batch sees it. */
    function On(d: Data): Walk { Walk(size, keyOf, (r: Row) => filter(d, r), (r: Row) => write(d, r)) }

    /** Checked when the migration is planned: a batch holds at least one row, and an update
        does not assign a column it walks by. */
    ghost predicate Checked() { size >= 1 && KeepsKeys() }

    ghost predicate KeepsKeys() {
      forall d, r: Row :: write(d, r).Some? ==> keyOf(write(d, r).value) == keyOf(r)
    }

    /** The write over `(cursor, upto]`. */
    function Batch(d: Data, cursor: Option<Key>, upto: Option<Key>): Data
      requires table in d
    {
      d[table := On(d).Write(d[table], cursor, upto)]
    }

    function Above(rows: Rows, cursor: Option<Key>): set<nat> {
      set id | id in rows && After(cursor, keyOf(rows[id]))
    }
  }

  lemma KeysKept(plan: ChunkPlan, d: Data)
    ensures plan.KeepsKeys() ==> plan.On(d).KeepsKeys()
    ensures plan.Checked() ==> plan.On(d).Checked()
  {
  }

  /** A batch leaves fewer rows above it, whatever becomes pending meanwhile. */
  lemma BatchPasses(plan: ChunkPlan, d: Data, cursor: Option<Key>, ids: seq<nat>)
    requires plan.KeepsKeys() && plan.table in d && plan.On(d).IsBatch(d[plan.table], cursor, ids) && ids != []
    ensures var last := ids[|ids| - 1];
            && last in d[plan.table] && After(cursor, plan.keyOf(d[plan.table][last]))
            && var upto := Some(plan.keyOf(d[plan.table][last]));
               |plan.Above(plan.Batch(d, cursor, upto)[plan.table], upto)| < |plan.Above(d[plan.table], cursor)|
  {
    var rows, last := d[plan.table], ids[|ids| - 1];
    assert last in plan.On(d).Pending(rows, cursor);
    var upto := plan.keyOf(rows[last]);
    var next := plan.Batch(d, cursor, Some(upto))[plan.table];
    assert forall id | id in next :: id in rows && plan.keyOf(next[id]) == plan.keyOf(rows[id]);
    LessTotal(upto, upto);
    forall id | id in plan.Above(next, Some(upto))
      ensures id in plan.Above(rows, cursor) - {last}
    {
      if cursor.Some? {
        LessTransitive(cursor.value, upto, plan.keyOf(rows[id]));
      }
    }
    SubsetSize(plan.Above(next, Some(upto)), plan.Above(rows, cursor) - {last});
  }

  /** The walk past `cursor`, batch after batch until none is left: the data it leaves, and how many
      rows it fetched. (A step that assigns its walk key is refused, and walks nothing.) */
  ghost function Walked(plan: ChunkPlan, cursor: Option<Key>, d: Data): (Data, nat)
    decreases if plan.table in d then |plan.Above(d[plan.table], cursor)| else 0
  {
    if plan.table !in d || !plan.KeepsKeys() then (d, 0)
    else
      SomeBatch(plan.On(d), d[plan.table], cursor);
      var ids :| plan.On(d).IsBatch(d[plan.table], cursor, ids);
      if ids == [] then (d, 0)
      else
        BatchPasses(plan, d, cursor, ids);
        var upto := Some(plan.keyOf(d[plan.table][ids[|ids| - 1]]));
        var rest := Walked(plan, upto, plan.Batch(d, cursor, upto));
        (rest.0, |ids| + rest.1)
  }

  // ---------- units and segments ----------------------------------------------------

  /** A plain statement (None: it fails on that data), or a chunked step. */
  datatype PlanUnit = Sql(exec: Data -> Option<Data>) | Chunked(plan: ChunkPlan)

  datatype Segment = Plain(units: seq<PlanUnit>) | Chunk(plan: ChunkPlan)

  function PlainPrefix(units: seq<PlanUnit>): (n: nat)
    ensures n <= |units|
    ensures forall i | 0 <= i < n :: units[i].Sql?
    ensures n < |units| ==> units[n].Chunked?
  {
    if units == [] || units[0].Chunked? then 0 else 1 + PlainPrefix(units[1..])
  }

  /** Consecutive plain statements share a segment; a chunked step is one on its own. */
  function Segments(units: seq<PlanUnit>): seq<Segment> {
    if units == [] then []
    else if units[0].Chunked? then [Chunk(units[0].plan)] + Segments(units[1..])
    else var n := PlainPrefix(units); [Plain(units[..n])] + Segments(units[n..])
  }

  function UnitsOf(seg: Segment): seq<PlanUnit> {
    match seg
    case Plain(units) => units
    case Chunk(plan) => [Chunked(plan)]
  }

  function Concat(segs: seq<Segment>): seq<PlanUnit> {
    if segs == [] then [] else UnitsOf(segs[0]) + Concat(segs[1..])
  }

  lemma ConcatCons(first: Segment, rest: seq<Segment>)
    ensures Concat([first] + rest) == UnitsOf(first) + Concat(rest)
  {
    assert ([first] + rest)[1..] == rest;
  }

  predicate PlainRun(seg: Segment) {
    seg.Plain? ==> seg.units != [] && forall j | 0 <= j < |seg.units| :: seg.units[j].Sql?
  }

  /** No segment is empty or mixed, and no two neighbours could be one. */
  predicate Maximal(segs: seq<Segment>) {
    && (forall i | 0 <= i < |segs| :: PlainRun(segs[i]))
    && (forall i | 0 <= i < |segs| - 1 :: segs[i].Chunk? || segs[i + 1].Chunk?)
  }

  /** The segments lose and reorder nothing. */
  lemma {:induction false} SegmentsConcat(units: seq<PlanUnit>)
    ensures Concat(Segments(units)) == units
    decreases |units|
  {
    if units != [] {
      var n := if units[0].Chunked? then 1 else PlainPrefix(units);
      var first := if units[0].Chunked? then Chunk(units[0].plan) else Plain(units[..n]);
      SegmentsConcat(units[n..]);
      assert Segments(units) == [first] + Segments(units[n..]);
      hide Segments, PlainPrefix;
      ConcatCons(first, Segments(units[n..]));
      assert UnitsOf(first) == units[..n];
    }
  }

  lemma {:induction false} SegmentsMaximal(units: seq<PlanUnit>)
    ensures Maximal(Segments(units))
    ensures units != [] ==> Segments(units) != [] && (Segments(units)[0].Chunk? <==> units[0].Chunked?)
    decreases |units|
  {
    if units != [] {
      var n := if units[0].Chunked? then 1 else PlainPrefix(units);
      var first := if units[0].Chunked? then Chunk(units[0].plan) else Plain(units[..n]);
      SegmentsMaximal(units[n..]);
      MaximalCons(first, Segments(units[n..]));
      assert Segments(units) == [first] + Segments(units[n..]);
    }
  }

  lemma MaximalCons(first: Segment, rest: seq<Segment>)
    requires PlainRun(first) && Maximal(rest)
    requires rest != [] ==> first.Chunk? || rest[0].Chunk?
    ensures Maximal([first] + rest)
  {
    var segs := [first] + rest;
    assert forall i | 1 <= i < |segs| :: segs[i] == rest[i - 1];
  }

  // ---------- what running means ----------------------------------------------------

  ghost function RunPlain(units: seq<PlanUnit>, d: Data): Option<Data> {
    if units == [] then Some(d)
    else match RunUnit(units[0], d)
      case None => None
      case Some(next) => RunPlain(units[1..], next)
  }

  /** A chunked step past `cursor`. */
  ghost function RunChunk(plan: ChunkPlan, cursor: Option<Key>, d: Data): Option<Data> {
    if plan.table !in d then None else Some(Walked(plan, cursor, d).0)
  }

  ghost function RunUnit(unit: PlanUnit, d: Data): Option<Data> {
    match unit
    case Sql(exec) => exec(d)
    case Chunked(plan) => RunChunk(plan, None, d)
  }

  /** The segments from `i` on, the first of them starting past `cursor` if it is chunked. */
  ghost function RunFrom(segs: seq<Segment>, i: nat, cursor: Option<Key>, d: Data): Option<Data>
    decreases |segs| - i
  {
    if i >= |segs| then Some(d)
    else
      var here := match segs[i]
        case Plain(units) => RunPlain(units, d)
        case Chunk(plan) => RunChunk(plan, cursor, d);
      match here
      case None => None
      case Some(next) => RunFrom(segs, i + 1, None, next)
  }

  lemma {:induction false} RunPlainConcat(a: seq<PlanUnit>, b: seq<PlanUnit>, d: Data)
    ensures RunPlain(a + b, d) ==
            match RunPlain(a, d) case None => None case Some(next) => RunPlain(b, next)
  {
    if a == [] {
      assert a + b == b;
    } else {
      assert (a + b)[1..] == a[1..] + b;
      match RunUnit(a[0], d)
      case None =>
      case Some(next) => RunPlainConcat(a[1..], b, next);
    }
  }

  /** Segment by segment is unit by unit. */
  lemma {:induction false} SegmentsRunTheUnits(segs: seq<Segment>, i: nat, d: Data)
    requires i <= |segs|
    ensures RunFrom(segs, i, None, d) == RunPlain(Concat(segs[i..]), d)
    decreases |segs| - i
  {
    if i < |segs| {
      assert segs[i..][1..] == segs[i + 1..];
      RunPlainConcat(UnitsOf(segs[i]), Concat(segs[i + 1..]), d);
      var here := match segs[i]
        case Plain(units) => RunPlain(units, d)
        case Chunk(plan) => RunChunk(plan, None, d);
      assert here == RunPlain(UnitsOf(segs[i]), d);
      if here.Some? {
        SegmentsRunTheUnits(segs, i + 1, here.value);
      }
    }
  }

  // ---------- runs ------------------------------------------------------------------

  /** What `Apply` runs: a migration's units, forward or back. */
  datatype Run = Run(id: string, hash: string, down: bool, units: seq<PlanUnit>) {
    /** Each direction has its own saved position. */
    function ProgressKey(): string { if down then id + ":down" else id }

    predicate Resumable() { exists i :: 0 <= i < |units| && units[i].Chunked? }

    ghost predicate Checked() {
      forall i | 0 <= i < |units| && units[i].Chunked? :: units[i].plan.Checked()
    }

    function Saved(s: State): Option<Progress> {
      if ProgressKey() in s.progress then Some(s.progress[ProgressKey()]) else None
    }

    function SegmentAt(s: State): nat {
      if Saved(s).Some? then Saved(s).value.segment else 0
    }

    function CursorAt(s: State): Option<Key> {
      if Saved(s).Some? then Saved(s).value.cursor else None
    }

    /** The ledger write that ends the run; inserting an id twice violates its primary key. */
    function Ledger(s: State): Option<State> {
      if down then Some(s.(ledger := s.ledger - {id}))
      else if id in s.ledger then None
      else Some(s.(ledger := s.ledger[id := hash]))
    }

    /** The state an undisturbed run of what is left would end in (None: it cannot end). */
    ghost function Finish(s: State): Option<State> {
      if Resumable() then FinishResumable(s)
      else match RunPlain(units, s.data)
        case None => None
        case Some(d) => Ledger(s.(data := d))
    }

    ghost function FinishResumable(s: State): Option<State> {
      if Saved(s).Some? && Saved(s).value.hash != hash then None
      else if SegmentAt(s) >= |Segments(units)| then Some(s)
      else match RunFrom(Segments(units), SegmentAt(s), CursorAt(s), s.data)
        case None => None
        case Some(d) => Ledger(s.(data := d, progress := s.progress - {ProgressKey()}))
    }

    /** A saved position inside this run's units. */
    predicate Fits(s: State) {
      Saved(s).Some? && Saved(s).value.hash == hash ==> SegmentAt(s) < |Segments(units)|
    }
  }

  /** With nothing saved, finishing is running every unit once, in order, and one ledger write. */
  lemma FreshRunIsEveryUnitOnce(run: Run, s: State)
    requires run.ProgressKey() !in s.progress
    ensures run.Finish(s) ==
            match RunPlain(run.units, s.data)
            case None => None
            case Some(d) => run.Ledger(s.(data := d))
  {
    RunsFromTheStart(run.units, s.data);
    hide RunFrom, RunPlain, Segments;
    if run.Resumable() {
      assert s.progress - {run.ProgressKey()} == s.progress;
    }
  }

  lemma RunsFromTheStart(units: seq<PlanUnit>, data: Data)
    ensures RunFrom(Segments(units), 0, None, data) == RunPlain(units, data)
    ensures units != [] ==> Segments(units) != []
  {
    hide Segments, RunFrom, RunPlain;
    SegmentsConcat(units);
    SegmentsMaximal(units);
    SegmentsRunTheUnits(Segments(units), 0, data);
    assert Segments(units)[0..] == Segments(units);
  }
}
