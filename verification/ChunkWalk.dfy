/** A chunked step beside the same step without `chunk`: when batch after batch comes to the one
    statement, and what it does when it does not. */
module ChunkWalk {
  import opened Wrappers
  import opened Migration
  import opened ChunkCount

  // ---------- one batch -------------------------------------------------------------

  /** The walk goes on from any batch the select may return. */
  lemma WalkedAfterBatch(plan: ChunkPlan, cursor: Option<Key>, d: Data, ids: seq<nat>)
    requires plan.KeepsKeys() && plan.table in d && plan.On(d).IsBatch(d[plan.table], cursor, ids)
    ensures ids == [] ==> Walked(plan, cursor, d) == (d, 0)
    ensures ids != [] ==>
              && ids[|ids| - 1] in d[plan.table]
              && var upto := Some(plan.keyOf(d[plan.table][ids[|ids| - 1]]));
                 var rest := Walked(plan, upto, plan.Batch(d, cursor, upto));
                 Walked(plan, cursor, d) == (rest.0, |ids| + rest.1)
  {
    hide Walk.Write, Walk.IsBatch, ChunkPlan.KeepsKeys, ChunkPlan.Above, ChunkPlan.Batch, After;
    var walk, rows := plan.On(d), d[plan.table];
    SomeBatch(walk, rows, cursor);
    SameSize(walk, rows, cursor, ids);
    if ids != [] {
      BatchPasses(plan, d, cursor, ids);
      forall other | walk.IsBatch(rows, cursor, other)
        ensures |other| == |ids| && other[|other| - 1] in rows
        ensures plan.keyOf(rows[other[|other| - 1]]) == plan.keyOf(rows[ids[|ids| - 1]])
      {
        BatchPasses(plan, d, cursor, other);
        BatchKeyIsUnique(walk, rows, cursor, ids, other);
      }
    }
  }

  /** A drained walk has nothing left to write. */
  lemma DrainedWritesNothing(walk: Walk, rows: Rows, cursor: Option<Key>)
    requires walk.Pending(rows, cursor) == {}
    ensures walk.Write(rows, cursor, None) == rows
  {
    forall id | id in rows ensures !walk.Hit(rows[id], cursor, None) {
      assert id !in walk.Pending(rows, cursor);
    }
  }

  /** What the step makes of a row: its new value, or None when it is deleted. */
  function Outcome(plan: ChunkPlan, d: Data, row: Row): Option<Row> {
    if plan.filter(d, row) then plan.write(d, row) else Some(row)
  }

  predicate InRange(key: Key, cursor: Option<Key>, upto: Option<Key>) {
    After(cursor, key) && (upto.None? || !Less(upto.value, key))
  }

  /** A batch decides the rows in its range and leaves the others. */
  lemma BatchAt(plan: ChunkPlan, d: Data, cursor: Option<Key>, upto: Option<Key>, id: nat)
    requires plan.table in d
    ensures var rows, next := d[plan.table], plan.Batch(d, cursor, upto)[plan.table];
            && (id in next ==> id in rows)
            && (id in rows && InRange(plan.keyOf(rows[id]), cursor, upto) ==>
                  (if id in next then Some(next[id]) else None) == Outcome(plan, d, rows[id]))
            && (id in rows && !InRange(plan.keyOf(rows[id]), cursor, upto) ==> id in next && next[id] == rows[id])
  {
  }

  /** Every row above the batch is to the step what it was before the batch was written. */
  ghost predicate SameAbove(plan: ChunkPlan, d: Data, cursor: Option<Key>, upto: Key)
    requires plan.table in d
  {
    forall id | id in d[plan.table] && Less(upto, plan.keyOf(d[plan.table][id])) ::
      Outcome(plan, plan.Batch(d, cursor, Some(upto)), d[plan.table][id]) == Outcome(plan, d, d[plan.table][id])
  }

  /** One batch followed by the rest as one statement is the whole as one statement exactly when the
      batch changes nothing for the rows above it. */
  lemma BatchThenRestExactly(plan: ChunkPlan, d: Data, cursor: Option<Key>, upto: Key)
    requires plan.KeepsKeys() && plan.table in d && After(cursor, upto)
    ensures plan.Batch(plan.Batch(d, cursor, Some(upto)), Some(upto), None) == plan.Batch(d, cursor, None) <==>
            SameAbove(plan, d, cursor, upto)
  {
    hide Outcome, Walk.Write, Less, After, ChunkPlan.KeepsKeys;
    var next, rows := plan.Batch(d, cursor, Some(upto)), d[plan.table];
    var apart, whole := plan.Batch(next, Some(upto), None)[plan.table], plan.Batch(d, cursor, None)[plan.table];
    forall id
      ensures id in apart || id in whole ==> id in rows
      ensures id in rows ==> (Less(upto, plan.keyOf(rows[id])) ==> SameAt(apart, whole, id) == (Outcome(plan, next, rows[id]) == Outcome(plan, d, rows[id])))
      ensures id in rows ==> Less(upto, plan.keyOf(rows[id])) || SameAt(apart, whole, id)
    {
      BatchAt(plan, d, cursor, Some(upto), id);
      BatchAt(plan, d, cursor, None, id);
      BatchAt(plan, next, Some(upto), None, id);
      if id in rows {
        RowApart(plan, d, cursor, upto, id);
      }
    }
    assert next[plan.table := apart] == d[plan.table := apart];
    SameRows(rows, apart, whole);
    assert d[plan.table := apart][plan.table] == apart && d[plan.table := whole][plan.table] == whole;
  }

  predicate SameAt(a: Rows, b: Rows, id: nat) {
    (id in a <==> id in b) && (id in a ==> a[id] == b[id])
  }

  lemma SameRows(rows: Rows, a: Rows, b: Rows)
    requires forall id :: id in a || id in b ==> id in rows
    ensures a == b <==> forall id | id in rows :: SameAt(a, b, id)
  {
    if forall id | id in rows :: SameAt(a, b, id) {
      assert forall id :: id in a <==> id in b;
    }
  }

  lemma RowApart(plan: ChunkPlan, d: Data, cursor: Option<Key>, upto: Key, id: nat)
    requires plan.KeepsKeys() && plan.table in d && After(cursor, upto) && id in d[plan.table]
    ensures var next, row := plan.Batch(d, cursor, Some(upto)), d[plan.table][id];
            var apart, whole := plan.Batch(next, Some(upto), None)[plan.table], plan.Batch(d, cursor, None)[plan.table];
            && (Less(upto, plan.keyOf(row)) ==>
                  && (if id in apart then Some(apart[id]) else None) == Outcome(plan, next, row)
                  && (if id in whole then Some(whole[id]) else None) == Outcome(plan, d, row))
            && (!Less(upto, plan.keyOf(row)) ==>
                  (id in apart <==> id in whole) && (id in whole ==> apart[id] == whole[id]))
  {
    var next := plan.Batch(d, cursor, Some(upto));
    var key := plan.keyOf(d[plan.table][id]);
    BatchAt(plan, d, cursor, Some(upto), id);
    BatchAt(plan, d, cursor, None, id);
    BatchAt(plan, next, Some(upto), None, id);
    if cursor.Some? && Less(upto, key) {
      LessTransitive(cursor.value, upto, key);
    }
    if id in next[plan.table] {
      assert plan.keyOf(next[plan.table][id]) == key;
    }
    hide Walk.Write;
  }

  // ---------- the whole walk --------------------------------------------------------

  /** `chunk` may be dropped: whatever the data and the cursor, the walk is the one statement. */
  ghost predicate WalksAsOne(plan: ChunkPlan) {
    forall d: Data, cursor | plan.table in d :: Walked(plan, cursor, d).0 == plan.Batch(d, cursor, None)
  }

  /** No batch changes anything for the rows above it. */
  ghost predicate Undisturbed(plan: ChunkPlan) {
    forall d: Data, cursor, ids: seq<nat> | plan.table in d && ids != [] && plan.On(d).IsBatch(d[plan.table], cursor, ids) ::
      ids[|ids| - 1] in d[plan.table] && SameAbove(plan, d, cursor, plan.keyOf(d[plan.table][ids[|ids| - 1]]))
  }

  /** The data `d` differs from `e` in the walked table at most. */
  predicate SameElsewhere(plan: ChunkPlan, d: Data, e: Data) { d - {plan.table} == e - {plan.table} }

  /** The step reads no row of the table it walks: no `.any` in it names that table. */
  ghost predicate ReadsElsewhere(plan: ChunkPlan) {
    forall d: Data, e: Data, row: Row | SameElsewhere(plan, d, e) ::
      plan.filter(d, row) == plan.filter(e, row) && plan.write(d, row) == plan.write(e, row)
  }

  lemma {:induction false} WalkIsStatement(plan: ChunkPlan, cursor: Option<Key>, d: Data)
    requires plan.Checked() && plan.table in d && Undisturbed(plan)
    ensures Walked(plan, cursor, d).0 == plan.Batch(d, cursor, None)
    decreases |plan.Above(d[plan.table], cursor)|
  {
    hide Walked, Undisturbed, SameAbove;
    var walk, rows := plan.On(d), d[plan.table];
    var ids := BatchExists(walk, rows, cursor);
    WalkedAfterBatch(plan, cursor, d, ids);
    if ids == [] {
      NothingPending(walk, rows, cursor);
      DrainedWritesNothing(walk, rows, cursor);
      assert d[plan.table := rows] == d;
    } else {
      BatchPasses(plan, d, cursor, ids);
      hide ChunkPlan.KeepsKeys, Walk.Write, Walk.IsBatch, ChunkPlan.Above;
      var upto := plan.keyOf(rows[ids[|ids| - 1]]);
      WalkIsStatement(plan, Some(upto), plan.Batch(d, cursor, Some(upto)));
      UndisturbedBy(plan, d, cursor, ids);
      BatchThenRestExactly(plan, d, cursor, upto);
    }
  }

  lemma NothingPending(walk: Walk, rows: Rows, cursor: Option<Key>)
    requires walk.size >= 1 && walk.IsBatch(rows, cursor, [])
    ensures walk.Pending(rows, cursor) == {}
  {
  }

  lemma UndisturbedBy(plan: ChunkPlan, d: Data, cursor: Option<Key>, ids: seq<nat>)
    requires Undisturbed(plan) && plan.table in d && ids != [] && plan.On(d).IsBatch(d[plan.table], cursor, ids)
    ensures ids[|ids| - 1] in d[plan.table] && SameAbove(plan, d, cursor, plan.keyOf(d[plan.table][ids[|ids| - 1]]))
  {
    hide Walk.IsBatch, SameAbove;
  }

  /** A walk comes to the one statement, whatever the data and the cursor, exactly when no batch
      changes anything for the rows above it. */
  lemma WalksAsOneExactly(plan: ChunkPlan)
    requires plan.Checked()
    ensures WalksAsOne(plan) <==> Undisturbed(plan)
  {
    hide Walked, ChunkPlan.Batch, SameAbove, Walk.IsBatch;
    if Undisturbed(plan) {
      forall d: Data, cursor | plan.table in d
        ensures Walked(plan, cursor, d).0 == plan.Batch(d, cursor, None)
      {
        WalkIsStatement(plan, cursor, d);
      }
    }
    if WalksAsOne(plan) {
      forall d: Data, cursor, ids: seq<nat> | plan.table in d && ids != [] && plan.On(d).IsBatch(d[plan.table], cursor, ids)
        ensures ids[|ids| - 1] in d[plan.table] && SameAbove(plan, d, cursor, plan.keyOf(d[plan.table][ids[|ids| - 1]]))
      {
        OneBatchAsOne(plan, d, cursor, ids);
      }
    }
  }

  lemma OneBatchAsOne(plan: ChunkPlan, d: Data, cursor: Option<Key>, ids: seq<nat>)
    requires plan.Checked() && WalksAsOne(plan) && plan.table in d && ids != [] && plan.On(d).IsBatch(d[plan.table], cursor, ids)
    ensures ids[|ids| - 1] in d[plan.table] && SameAbove(plan, d, cursor, plan.keyOf(d[plan.table][ids[|ids| - 1]]))
  {
    hide Walked, SameAbove;
    BatchPasses(plan, d, cursor, ids);
    WalkedAfterBatch(plan, cursor, d, ids);
    hide Walk.IsBatch, Walk.Write;
    var upto := plan.keyOf(d[plan.table][ids[|ids| - 1]]);
    var next := plan.Batch(d, cursor, Some(upto));
    assert Walked(plan, Some(upto), next).0 == plan.Batch(next, Some(upto), None);
    BatchThenRestExactly(plan, d, cursor, upto);
  }

  /** A step that reads no row of its own table is undisturbed, so `chunk` may be dropped. */
  lemma ReadingElsewhereIsEnough(plan: ChunkPlan)
    requires plan.Checked() && ReadsElsewhere(plan)
    ensures WalksAsOne(plan)
  {
    WalksAsOneExactly(plan);
    hide Walked, SameAbove, Walk.IsBatch, ReadsElsewhere, ChunkPlan.KeepsKeys, WalksAsOne;
    forall d: Data, cursor, ids: seq<nat> | plan.table in d && ids != [] && plan.On(d).IsBatch(d[plan.table], cursor, ids)
      ensures ids[|ids| - 1] in d[plan.table] && SameAbove(plan, d, cursor, plan.keyOf(d[plan.table][ids[|ids| - 1]]))
    {
      BatchPasses(plan, d, cursor, ids);
      NotRead(plan, d, cursor, plan.keyOf(d[plan.table][ids[|ids| - 1]]));
    }
  }

  lemma NotRead(plan: ChunkPlan, d: Data, cursor: Option<Key>, upto: Key)
    requires ReadsElsewhere(plan) && plan.table in d
    ensures SameAbove(plan, d, cursor, upto)
  {
    hide Walk.Write;
    assert SameElsewhere(plan, plan.Batch(d, cursor, Some(upto)), d);
  }

  /** A walk touches no other table. */
  lemma {:induction false} WalkStaysInTable(plan: ChunkPlan, cursor: Option<Key>, d: Data)
    ensures SameElsewhere(plan, Walked(plan, cursor, d).0, d) && Walked(plan, cursor, d).0.Keys == d.Keys
    decreases if plan.table in d then |plan.Above(d[plan.table], cursor)| else 0
  {
    if plan.table in d && plan.KeepsKeys() {
      var ids := BatchExists(plan.On(d), d[plan.table], cursor);
      hide Walked, Walk.IsBatch, Walk.Write, ChunkPlan.KeepsKeys, ChunkPlan.Above;
      WalkedAfterBatch(plan, cursor, d, ids);
      if ids != [] {
        BatchPasses(plan, d, cursor, ids);
        var upto := Some(plan.keyOf(d[plan.table][ids[|ids| - 1]]));
        var next := plan.Batch(d, cursor, upto);
        WalkStaysInTable(plan, upto, next);
        assert SameElsewhere(plan, next, d) && next.Keys == d.Keys;
      }
    }
  }

  // ---------- the count -------------------------------------------------------------

  lemma SameStep(plan: ChunkPlan, d: Data, e: Data, cursor: Option<Key>)
    requires ReadsElsewhere(plan) && plan.table in d && SameElsewhere(plan, d, e)
    ensures forall upto :: plan.On(e).Write(d[plan.table], cursor, upto) == plan.On(d).Write(d[plan.table], cursor, upto)
    ensures forall ids :: plan.On(d).IsBatch(d[plan.table], cursor, ids) ==> plan.On(e).IsBatch(d[plan.table], cursor, ids)
  {
    var rows := d[plan.table];
    assert forall row :: plan.filter(d, row) == plan.filter(e, row) && plan.write(d, row) == plan.write(e, row);
    assert plan.On(e).Pending(rows, cursor) == plan.On(d).Pending(rows, cursor);
    forall upto
      ensures plan.On(e).Write(rows, cursor, upto) == plan.On(d).Write(rows, cursor, upto)
    {
      assert forall id | id in rows :: plan.On(e).Hit(rows[id], cursor, upto) == plan.On(d).Hit(rows[id], cursor, upto);
    }
  }

  /** The walk of such a step reports the count of its batches, so `ReportedExactly` says when that
      is the number of rows. */
  lemma {:induction false} CountIsReported(plan: ChunkPlan, e: Data, cursor: Option<Key>, d: Data)
    requires plan.Checked() && ReadsElsewhere(plan) && plan.table in d && SameElsewhere(plan, d, e) && plan.On(e).Checked()
    ensures Walked(plan, cursor, d).1 == Reported(plan.On(e), d[plan.table], cursor)
    decreases |plan.Above(d[plan.table], cursor)|
  {
    hide Walked, ReadsElsewhere, Reported;
    var rows := d[plan.table];
    var ids := BatchExists(plan.On(d), rows, cursor);
    WalkedAfterBatch(plan, cursor, d, ids);
    SameStep(plan, d, e, cursor);
    ReportedAfterBatch(plan.On(e), rows, cursor, ids);
    if ids != [] {
      BatchPasses(plan, d, cursor, ids);
      hide ChunkPlan.KeepsKeys, Walk.KeepsKeys, Walk.Write, Walk.IsBatch, ChunkPlan.Above;
      var upto := Some(plan.keyOf(rows[ids[|ids| - 1]]));
      var next := plan.Batch(d, cursor, upto);
      assert SameElsewhere(plan, next, d);
      CountIsReported(plan, e, upto, next);
    }
  }

  /** The count of such a step is never too high, and is the number of rows it writes exactly when no
      group of equal keys straddles a batch boundary. */
  lemma WalkCountsExactly(plan: ChunkPlan, cursor: Option<Key>, d: Data)
    requires plan.Checked() && ReadsElsewhere(plan) && plan.table in d
    ensures Walked(plan, cursor, d).1 <= |plan.On(d).Pending(d[plan.table], cursor)|
    ensures Walked(plan, cursor, d).1 == |plan.On(d).Pending(d[plan.table], cursor)| <==> EvenlyKeyed(plan.On(d), d[plan.table], cursor)
  {
    KeysKept(plan, d);
    hide Walked, ReadsElsewhere, Reported, EvenlyKeyed, ChunkPlan.Checked, Walk.Checked;
    CountIsReported(plan, d, cursor, d);
    ReportedExactly(plan.On(d), d[plan.table], cursor);
  }

  // ---------- runs whose steps may drop `chunk` -------------------------------------

  /** A chunked step past `cursor`, written without `chunk`. */
  function AsStatement(plan: ChunkPlan, cursor: Option<Key>): PlanUnit {
    Sql((d: Data) => if plan.table in d then Some(plan.Batch(d, cursor, None)) else None)
  }

  function Unchunked(units: seq<PlanUnit>): seq<PlanUnit> {
    seq(|units|, i requires 0 <= i < |units| => if units[i].Chunked? then AsStatement(units[i].plan, None) else units[i])
  }

  ghost predicate AllWalkAsOne(units: seq<PlanUnit>) {
    forall i | 0 <= i < |units| && units[i].Chunked? :: WalksAsOne(units[i].plan)
  }

  lemma WalkedAsStatement(plan: ChunkPlan, cursor: Option<Key>, d: Data)
    requires WalksAsOne(plan)
    ensures RunChunk(plan, cursor, d) == RunUnit(AsStatement(plan, cursor), d)
    ensures RunPlain([AsStatement(plan, cursor)], d) == RunUnit(AsStatement(plan, cursor), d)
  {
    hide Walked, ChunkPlan.Batch;
    assert [AsStatement(plan, cursor)][1..] == [];
  }

  /** Dropping every `chunk` from a script leaves what it does. */
  lemma {:induction false} ChunkMayBeDropped(units: seq<PlanUnit>, d: Data)
    requires AllWalkAsOne(units)
    ensures RunPlain(Unchunked(units), d) == RunPlain(units, d)
  {
    hide WalksAsOne, AsStatement;
    if units != [] {
      assert Unchunked(units)[1..] == Unchunked(units[1..]);
      if units[0].Chunked? {
        WalkedAsStatement(units[0].plan, None, d);
      }
      if RunUnit(units[0], d).Some? {
        ChunkMayBeDropped(units[1..], RunUnit(units[0], d).value);
      }
    }
  }

  /** The segments from `i` on, written without `chunk`. */
  function Remaining(segs: seq<Segment>, i: nat, cursor: Option<Key>): seq<PlanUnit>
    decreases |segs| - i
  {
    if i >= |segs| then []
    else
      var here := match segs[i]
        case Plain(units) => units
        case Chunk(plan) => [AsStatement(plan, cursor)];
      here + Remaining(segs, i + 1, None)
  }

  lemma {:induction false} RemainingIsStatements(segs: seq<Segment>, i: nat, cursor: Option<Key>, d: Data)
    requires forall j | 0 <= j < |segs| && segs[j].Chunk? :: WalksAsOne(segs[j].plan)
    ensures RunFrom(segs, i, cursor, d) == RunPlain(Remaining(segs, i, cursor), d)
    decreases |segs| - i
  {
    hide WalksAsOne, AsStatement, RunChunk;
    if i < |segs| {
      var here := match segs[i] case Plain(units) => units case Chunk(plan) => [AsStatement(plan, cursor)];
      RunPlainConcat(here, Remaining(segs, i + 1, None), d);
      if segs[i].Chunk? {
        WalkedAsStatement(segs[i].plan, cursor, d);
      }
      hide RunPlain;
      if RunPlain(here, d).Some? {
        RemainingIsStatements(segs, i + 1, None, RunPlain(here, d).value);
      }
    }
  }

  /** What is left of a run from its saved position, done as single statements. */
  ghost function FinishUnchunked(run: Run, s: State): Option<State> {
    if run.Saved(s).Some? && run.Saved(s).value.hash != run.hash then None
    else if run.SegmentAt(s) >= |Segments(run.units)| then Some(s)
    else match RunPlain(Remaining(Segments(run.units), run.SegmentAt(s), run.CursorAt(s)), s.data)
      case None => None
      case Some(d) => run.Ledger(s.(data := d, progress := s.progress - {run.ProgressKey()}))
  }

  /** From any saved position, batches come to the statements that are left. */
  lemma FinishIsStatements(run: Run, s: State)
    requires run.Resumable() && AllWalkAsOne(run.units)
    ensures run.Finish(s) == FinishUnchunked(run, s)
  {
    hide WalksAsOne, RunFrom, Segments, Remaining, RunPlain;
    SegmentsKeep(run.units);
    RemainingIsStatements(Segments(run.units), run.SegmentAt(s), run.CursorAt(s), s.data);
  }

  /** Every plan of the segments is a plan of the units. */
  lemma {:induction false} SegmentsKeep(units: seq<PlanUnit>)
    ensures forall j | 0 <= j < |Segments(units)| && Segments(units)[j].Chunk? :: Chunked(Segments(units)[j].plan) in units
    decreases |units|
  {
    if units != [] {
      SegmentsKeep(units[if units[0].Chunked? then 1 else PlainPrefix(units)..]);
    }
  }

  /** With nothing saved that is the run of the script without `chunk`. */
  lemma FreshRunIsUnchunked(run: Run, s: State)
    requires run.ProgressKey() !in s.progress && AllWalkAsOne(run.units)
    ensures run.Finish(s) == run.(units := Unchunked(run.units)).Finish(s)
  {
    hide WalksAsOne, RunPlain, Run.Finish;
    FreshRunIsEveryUnitOnce(run, s);
    FreshRunIsEveryUnitOnce(run.(units := Unchunked(run.units)), s);
    ChunkMayBeDropped(run.units, s.data);
  }

  // ---------- which tables a step reads ---------------------------------------------

  /** A condition of the script, in SQL's three values: a test of the row itself, `.any` over a child
      table, or conditions combined. */
  datatype Test =
    | Here(holds: Row -> Option<bool>)
    | Any(child: string, joins: (Row, Row) -> bool, inner: Test)
    | Combined(op: (Option<bool>, Option<bool>) -> Option<bool>, a: Test, b: Test)
  {
    function Value(d: Data, r: Row): Option<bool> {
      match this
      case Here(holds) => holds(r)
      case Any(child, joins, inner) =>
        Some(child in d && exists id :: id in d[child] && joins(r, d[child][id]) && inner.Value(d, d[child][id]) == Some(true))
      case Combined(op, a, b) => op(a.Value(d, r), b.Value(d, r))
    }

    /** The tables it names, at any depth. */
    function Named(): set<string> {
      match this
      case Here(_) => {}
      case Any(child, _, inner) => {child} + inner.Named()
      case Combined(_, a, b) => a.Named() + b.Named()
    }
  }

  lemma {:induction false} ReadsWhatItNames(test: Test, table: string, d: Data, e: Data, r: Row)
    requires table !in test.Named() && d - {table} == e - {table}
    ensures test.Value(d, r) == test.Value(e, r)
  {
    match test
    case Here(_) =>
    case Any(child, joins, inner) =>
      assert child in d - {table} <==> child in d;
      assert child in e - {table} <==> child in e;
      if child in d {
        assert d[child] == (d - {table})[child] == (e - {table})[child] == e[child];
        forall id | id in d[child]
          ensures inner.Value(d, d[child][id]) == inner.Value(e, d[child][id])
        {
          ReadsWhatItNames(inner, table, d, e, d[child][id]);
        }
      }
    case Combined(_, a, b) =>
      ReadsWhatItNames(a, table, d, e, r);
      ReadsWhatItNames(b, table, d, e, r);
  }

  /** A new value: that of the first arm of a `case` whose condition is true, or the last one. */
  datatype Arm = Arm(when_: Test, value: Row -> Option<Row>)

  function Chosen(arms: seq<Arm>, last: Row -> Option<Row>, d: Data, r: Row): Option<Row> {
    if arms == [] then last(r)
    else if arms[0].when_.Value(d, r) == Some(true) then arms[0].value(r)
    else Chosen(arms[1..], last, d, r)
  }

  lemma {:induction false} ChosenReadsWhatItNames(arms: seq<Arm>, last: Row -> Option<Row>, table: string, d: Data, e: Data, r: Row)
    requires (forall i | 0 <= i < |arms| :: table !in arms[i].when_.Named()) && d - {table} == e - {table}
    ensures Chosen(arms, last, d, r) == Chosen(arms, last, e, r)
  {
    if arms != [] {
      ReadsWhatItNames(arms[0].when_, table, d, e, r);
      ChosenReadsWhatItNames(arms[1..], last, table, d, e, r);
    }
  }

  /** A chunked step as the script writes it. */
  function Script(table: string, size: nat, keyOf: Row -> Key, where_: Test, arms: seq<Arm>, last: Row -> Option<Row>): ChunkPlan {
    ChunkPlan(table, size, keyOf, (d: Data, r: Row) => where_.Value(d, r) == Some(true), (d: Data, r: Row) => Chosen(arms, last, d, r))
  }

  /** A step in which no `.any` names the table it walks, in its filter or in its values, reads no row
      of that table. */
  lemma ScriptReadsElsewhere(table: string, size: nat, keyOf: Row -> Key, where_: Test, arms: seq<Arm>, last: Row -> Option<Row>)
    requires table !in where_.Named() && forall i | 0 <= i < |arms| :: table !in arms[i].when_.Named()
    ensures ReadsElsewhere(Script(table, size, keyOf, where_, arms, last))
  {
    var plan := Script(table, size, keyOf, where_, arms, last);
    forall d: Data, e: Data, row: Row | SameElsewhere(plan, d, e)
      ensures plan.filter(d, row) == plan.filter(e, row) && plan.write(d, row) == plan.write(e, row)
    {
      ReadsWhatItNames(where_, table, d, e, row);
      ChosenReadsWhatItNames(arms, last, table, d, e, row);
    }
  }

  // ---------- a step that reads its own table ---------------------------------------

  function Cell(r: Row, column: string): Value { if column in r then r[column] else Null }

  function IdKey(r: Row): Key { match Cell(r, "id") case Int(n) => [n] case _ => [] }

  predicate HasChildOn(d: Data, r: Row) {
    && "node" in d && Cell(r, "id") != Null
    && exists id :: id in d["node"] && Cell(d["node"][id], "parent") == Cell(r, "id") && Cell(d["node"][id], "on") == Int(1)
  }

  /** `update node where (node.any(on = 1)) { on = 1 } chunk <size>`, each node naming its parent. */
  function Spread(size: nat): ChunkPlan {
    ChunkPlan("node", size, IdKey, (d: Data, r: Row) => HasChildOn(d, r), (d: Data, r: Row) => Some(r["on" := Int(1)]))
  }

  function Node(id: int, parent: Value, on: int): Row { map["id" := Int(id), "parent" := parent, "on" := Int(on)] }

  /** A chain of three nodes, 1 under 2 under 3, with those of `on` turned on. */
  function Chain(two: int, three: int): Data {
    map["node" := map[1 := Node(1, Int(2), 1), 2 := Node(2, Int(3), two), 3 := Node(3, Null, three)]]
  }

  lemma OnlyOne(plan: ChunkPlan, d: Data, cursor: Option<Key>, id: nat)
    requires plan.size >= 1 && plan.table in d && plan.On(d).Pending(d[plan.table], cursor) == {id}
    ensures plan.On(d).IsBatch(d[plan.table], cursor, [id])
  {
    var walk, rows := plan.On(d), d[plan.table];
    LessTotal(walk.keyOf(rows[id]), walk.keyOf(rows[id]));
    assert id in walk.Pending(rows, cursor) && |walk.Pending(rows, cursor)| == 1;
    assert forall i :: 0 <= i < |[id]| ==> [id][i] == id;
  }

  lemma ChainRows(two: int, three: int)
    ensures var d := Chain(two, three);
            && d["node"].Keys == {1, 2, 3}
            && IdKey(d["node"][1]) == [1] && IdKey(d["node"][2]) == [2] && IdKey(d["node"][3]) == [3]
            && !HasChildOn(d, d["node"][1]) && HasChildOn(d, d["node"][2])
            && (HasChildOn(d, d["node"][3]) <==> two == 1)
  {
    var d := Chain(two, three);
    assert Cell(d["node"][1], "parent") == Int(2) && Cell(d["node"][2], "parent") == Int(3) && Cell(d["node"][3], "parent") == Null;
    assert d["node"][1]["on"] == Int(1) && d["node"][2]["on"] == Int(two) && d["node"][3]["on"] == Int(three);
  }

  lemma SpreadPending(size: nat, two: int, three: int, cursor: Option<Key>, id: nat)
    ensures id in Spread(size).On(Chain(two, three)).Pending(Chain(two, three)["node"], cursor) <==>
            (id == 2 && After(cursor, [2])) || (id == 3 && two == 1 && After(cursor, [3]))
  {
    ChainRows(two, three);
    hide HasChildOn, IdKey;
  }

  /** The chain after a write over a range. */
  function Turned(two: int, three: int, cursor: Option<Key>, upto: Option<Key>): Data {
    Chain(if InRange([2], cursor, upto) then 1 else two, if two == 1 && InRange([3], cursor, upto) then 1 else three)
  }

  lemma SpreadWrites(size: nat, two: int, three: int, cursor: Option<Key>, upto: Option<Key>)
    ensures Spread(size).Batch(Chain(two, three), cursor, upto) == Turned(two, three, cursor, upto)
  {
    hide Walk.Write, Node, HasChildOn, IdKey, InRange;
    var next := Spread(size).Batch(Chain(two, three), cursor, upto);
    forall id
      ensures id in next["node"] <==> id in {1, 2, 3}
      ensures id in next["node"] ==> next["node"][id] == Turned(two, three, cursor, upto)["node"][id]
    {
      SpreadAt(size, two, three, cursor, upto, id);
    }
    assert next["node"] == Turned(two, three, cursor, upto)["node"];
    assert next.Keys == {"node"};
  }

  lemma SpreadAt(size: nat, two: int, three: int, cursor: Option<Key>, upto: Option<Key>, id: nat)
    ensures var next := Spread(size).Batch(Chain(two, three), cursor, upto)["node"];
            && (id in next <==> id in {1, 2, 3})
            && (id in next ==> next[id] == Turned(two, three, cursor, upto)["node"][id])
  {
    hide Walk.Write, HasChildOn, Outcome, InRange;
    ChainRows(two, three);
    BatchAt(Spread(size), Chain(two, three), cursor, upto, id);
    if id in {1, 2, 3} {
      SpreadOutcome(size, two, three, id);
    }
    hide IdKey, Node;
  }

  lemma SpreadOutcome(size: nat, two: int, three: int, id: nat)
    requires id in {1, 2, 3}
    ensures Outcome(Spread(size), Chain(two, three), Chain(two, three)["node"][id]) ==
            Some(Chain(if id == 2 then 1 else two, if id == 3 && two == 1 then 1 else three)["node"][id])
  {
    ChainRows(two, three);
    hide HasChildOn, IdKey;
    assert Node(2, Int(3), two)["on" := Int(1)] == Node(2, Int(3), 1) && Node(3, Null, three)["on" := Int(1)] == Node(3, Null, 1);
  }

  /** One batch of the walk, when one row is pending. */
  lemma OneRowBatch(plan: ChunkPlan, cursor: Option<Key>, d: Data, id: nat)
    requires plan.Checked() && plan.table in d && plan.On(d).Pending(d[plan.table], cursor) == {id}
    ensures id in d[plan.table]
    ensures var upto := Some(plan.keyOf(d[plan.table][id]));
            var rest := Walked(plan, upto, plan.Batch(d, cursor, upto));
            Walked(plan, cursor, d) == (rest.0, 1 + rest.1)
  {
    hide Walked, Walk.IsBatch, Walk.Pending, Walk.Write, ChunkPlan.KeepsKeys, ChunkPlan.Batch;
    OnlyOne(plan, d, cursor, id);
    var ids := [id];
    assert ids[|ids| - 1] == id;
    WalkedAfterBatch(plan, cursor, d, ids);
  }

  lemma NoRowBatch(plan: ChunkPlan, cursor: Option<Key>, d: Data)
    requires plan.Checked() && plan.table in d && plan.On(d).Pending(d[plan.table], cursor) == {}
    ensures Walked(plan, cursor, d) == (d, 0)
  {
    WalkedAfterBatch(plan, cursor, d, []);
  }

  /** Whatever the batch size, the walk turns on the top of the chain too, as the batch below has just
      made it pending, and reports two rows; the one statement turns on one. */
  lemma SelfReferenceWritesMore(size: nat)
    requires size >= 1
    ensures var plan := Spread(size);
            && plan.Checked() && plan.On(Chain(0, 0)).Pending(Chain(0, 0)["node"], None) == {2}
            && plan.Batch(Chain(0, 0), None, None) == Chain(1, 0)
            && Walked(plan, None, Chain(0, 0)) == (Chain(1, 1), 2)
            && !WalksAsOne(plan)
  {
    var plan := Spread(size);
    SpreadIsChecked(size);
    hide Walked, ChunkPlan.Batch, ChunkPlan.Checked, ChunkPlan.On, Walk.Pending, Chain, WalksAsOne;
    SpreadBatches(size);
    SpreadPendings(size);
    SpreadWalks(size);
  }

  lemma SpreadBatches(size: nat)
    ensures Spread(size).Batch(Chain(0, 0), None, Some([2])) == Chain(1, 0)
    ensures Spread(size).Batch(Chain(1, 0), Some([2]), Some([3])) == Chain(1, 1)
    ensures Spread(size).Batch(Chain(0, 0), None, None) == Chain(1, 0)
  {
    hide ChunkPlan.Batch, Chain;
    SpreadWrites(size, 0, 0, None, None);
    SpreadWrites(size, 0, 0, None, Some([2]));
    SpreadWrites(size, 1, 0, Some([2]), Some([3]));
    Keys();
    hide Less;
  }

  lemma SpreadPendings(size: nat)
    ensures Spread(size).On(Chain(0, 0)).Pending(Chain(0, 0)["node"], None) == {2}
    ensures Spread(size).On(Chain(1, 0)).Pending(Chain(1, 0)["node"], Some([2])) == {3}
    ensures Spread(size).On(Chain(1, 1)).Pending(Chain(1, 1)["node"], Some([3])) == {}
  {
    hide ChunkPlan.On, Walk.Pending;
    Keys();
    forall id
      ensures id in Spread(size).On(Chain(0, 0)).Pending(Chain(0, 0)["node"], None) <==> id == 2
      ensures id in Spread(size).On(Chain(1, 0)).Pending(Chain(1, 0)["node"], Some([2])) <==> id == 3
      ensures id !in Spread(size).On(Chain(1, 1)).Pending(Chain(1, 1)["node"], Some([3]))
    {
      SpreadPending(size, 0, 0, None, id);
      SpreadPending(size, 1, 0, Some([2]), id);
      SpreadPending(size, 1, 1, Some([3]), id);
    }
  }

  lemma SpreadWalks(size: nat)
    requires Spread(size).Checked()
    requires Spread(size).Batch(Chain(0, 0), None, Some([2])) == Chain(1, 0)
    requires Spread(size).Batch(Chain(1, 0), Some([2]), Some([3])) == Chain(1, 1)
    requires Spread(size).Batch(Chain(0, 0), None, None) == Chain(1, 0)
    requires Spread(size).On(Chain(0, 0)).Pending(Chain(0, 0)["node"], None) == {2}
    requires Spread(size).On(Chain(1, 0)).Pending(Chain(1, 0)["node"], Some([2])) == {3}
    requires Spread(size).On(Chain(1, 1)).Pending(Chain(1, 1)["node"], Some([3])) == {}
    ensures Walked(Spread(size), None, Chain(0, 0)) == (Chain(1, 1), 2) && !WalksAsOne(Spread(size))
  {
    hide Walked, ChunkPlan.Batch, ChunkPlan.Checked, HasChildOn, Walk.Pending;
    ChainRows(0, 0);
    ChainRows(1, 0);
    OneRowBatch(Spread(size), None, Chain(0, 0), 2);
    OneRowBatch(Spread(size), Some([2]), Chain(1, 0), 3);
    NoRowBatch(Spread(size), Some([3]), Chain(1, 1));
    assert Chain(1, 1)["node"][3]["on"] != Chain(1, 0)["node"][3]["on"];
  }

  lemma Keys()
    ensures Less([2], [3]) && !Less([2], [2]) && !Less([3], [3]) && !Less([3], [2])
  {
  }

  lemma SpreadIsChecked(size: nat)
    requires size >= 1
    ensures Spread(size).Checked()
  {
  }
}
