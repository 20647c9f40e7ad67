/** A run that can be taken up where it stopped: every commit carries the position it reached. Any
    call may fail, and a commit may take effect although it fails; a crash is a failure with nothing
    after it. */
module Resume {
  import opened Wrappers
  import opened Migration
  import opened ChunkCount
  import opened ChunkWalk

  datatype Outcome = Done | Failed(stage: string) | Tamper(id: string, applied: string, current: string)

  /** The refusal to resume a run saved under another hash names both. */
  predicate TamperOf(run: Run, s: State, r: Outcome) {
    run.Saved(s).Some? && run.Saved(s).value.hash != run.hash && r == Tamper(run.id, run.Saved(s).value.hash, run.hash)
  }

  // ---------- the writes that go with a commit --------------------------------------

  function ClearProgress(run: Run, tx: State): State {
    tx.(progress := tx.progress - {run.ProgressKey()})
  }

  function SaveProgress(run: Run, tx: State, segment: nat, cursor: Option<Key>, rows: nat): State {
    var cleared := ClearProgress(run, tx);
    cleared.(progress := cleared.progress[run.ProgressKey() := Progress(run.hash, segment, cursor, rows)])
  }

  /** What a segment's commit adds: its place in the run, or at the end the ledger row. */
  function FinishSegment(run: Run, tx: State, i: nat, last: bool): Option<State> {
    if !last then Some(SaveProgress(run, tx, i + 1, None, 0))
    else run.Ledger(ClearProgress(run, tx))
  }

  /** The segment's data and its close, as one commit. */
  function EndSegment(run: Run, s: State, d: Option<Data>, i: nat, last: bool): Option<State> {
    if d.None? then None else FinishSegment(run, s.(data := d.value), i, last)
  }

  /** The state a batch commits. */
  function BatchState(run: Run, plan: ChunkPlan, s: State, i: nat, cursor: Option<Key>, upto: Key, walked: nat): State
    requires plan.table in s.data
  {
    SaveProgress(run, s.(data := plan.Batch(s.data, cursor, Some(upto))), i, Some(upto), walked)
  }

  // ---------- positions -------------------------------------------------------------

  /** The database's saved position is segment `i` past `cursor`. */
  predicate At(run: Run, s: State, i: nat, cursor: Option<Key>) {
    && run.SegmentAt(s) == i
    && run.CursorAt(s) == cursor
    && (run.Saved(s).Some? ==> run.Saved(s).value.hash == run.hash)
  }

  /** The rows counted by the saved position. */
  function CountAt(run: Run, s: State): nat {
    if run.Saved(s).Some? then run.Saved(s).value.rows else 0
  }

  /** The run is under way: the ledger is untouched, the same final state is ahead, and whatever
      has changed has left a saved position. */
  ghost predicate UnderWay(run: Run, s: State, t: State) {
    t.ledger == s.ledger && run.Finish(t) == run.Finish(s) && (t == s || run.ProgressKey() in t.progress)
  }

  /** What a failed attempt may leave of `s`: the run under way, or complete without the caller
      knowing it. */
  ghost predicate Kept(run: Run, s: State, t: State) {
    UnderWay(run, s, t) || run.Finish(s) == Some(t)
  }

  /** Only the run's own ledger and progress rows may differ. */
  predicate Elsewhere(run: Run, s: State, t: State) {
    && s.progress - {run.ProgressKey()} == t.progress - {run.ProgressKey()}
    && s.ledger - {run.id} == t.ledger - {run.id}
  }

  lemma ClosedElsewhere(run: Run, tx: State, i: nat, last: bool)
    ensures var closed := FinishSegment(run, tx, i, last);
            closed.Some? ==> Elsewhere(run, tx, closed.value)
  {
    assert ClearProgress(run, tx).progress == tx.progress - {run.ProgressKey()};
    assert tx.ledger[run.id := run.hash] - {run.id} == tx.ledger - {run.id};
    assert tx.ledger - {run.id} - {run.id} == tx.ledger - {run.id};
    var saved := SaveProgress(run, tx, i + 1, None, 0);
    assert saved.progress - {run.ProgressKey()} == tx.progress - {run.ProgressKey()};
  }

  /** A saved position past the last segment: the run reports success and does nothing. */
  lemma PastTheEndDoesNothing(run: Run, s: State)
    requires run.Resumable() && run.Saved(s).Some? && run.Saved(s).value.hash == run.hash
    requires !run.Fits(s)
    ensures run.Finish(s) == Some(s)
  {
  }

  /** Closing the segment the database is at loses nothing of what is left. */
  lemma CloseKeepsFinish(run: Run, s: State, i: nat, d: Data)
    requires run.Resumable() && i < |Segments(run.units)| && At(run, s, i, run.CursorAt(s))
    requires Some(d) == match Segments(run.units)[i]
                        case Plain(units) => RunPlain(units, s.data)
                        case Chunk(plan) => RunChunk(plan, run.CursorAt(s), s.data)
    ensures var last := i == |Segments(run.units)| - 1;
            var closed := FinishSegment(run, s.(data := d), i, last);
            && (last ==> run.Finish(s) == closed)
            && (!last ==> closed.Some? && run.Finish(closed.value) == run.Finish(s)
                          && At(run, closed.value, i + 1, None))
            && (closed.Some? ==> Elsewhere(run, s, closed.value) && run.Fits(closed.value))
  {
    var segs := Segments(run.units);
    ClosedElsewhere(run, s.(data := d), i, i == |segs| - 1);
    if i == |segs| - 1 {
      assert RunFrom(segs, i + 1, None, d) == Some(d);
    } else {
      var closed := FinishSegment(run, s.(data := d), i, false).value;
      assert closed.progress - {run.ProgressKey()} == s.progress - {run.ProgressKey()};
    }
  }

  /** A batch and its progress row lose nothing of what is left. */
  lemma BatchKeepsFinish(run: Run, s: State, i: nat, cursor: Option<Key>, ids: seq<nat>, rows: nat)
    requires run.Resumable() && i < |Segments(run.units)| && At(run, s, i, cursor)
    requires Segments(run.units)[i].Chunk? && Segments(run.units)[i].plan.Checked()
    requires var plan := Segments(run.units)[i].plan;
             plan.table in s.data && plan.On(s.data).IsBatch(s.data[plan.table], cursor, ids) && ids != []
    ensures var plan := Segments(run.units)[i].plan;
            && ids[|ids| - 1] in s.data[plan.table]
            && var upto := plan.keyOf(s.data[plan.table][ids[|ids| - 1]]);
               var t := BatchState(run, plan, s, i, cursor, upto, rows);
               run.Finish(t) == run.Finish(s) && At(run, t, i, Some(upto))
  {
    hide Walked, ChunkPlan.Batch, Walk.IsBatch;
    var plan := Segments(run.units)[i].plan;
    WalkedAfterBatch(plan, cursor, s.data, ids);
    var upto := plan.keyOf(s.data[plan.table][ids[|ids| - 1]]);
    var t := BatchState(run, plan, s, i, cursor, upto, rows);
    assert plan.table in t.data by {
      BatchKeepsTables(plan, s.data, cursor, Some(upto));
    }
    assert t.progress - {run.ProgressKey()} == s.progress - {run.ProgressKey()};
  }

  lemma BatchKeepsTables(plan: ChunkPlan, d: Data, cursor: Option<Key>, upto: Option<Key>)
    requires plan.table in d
    ensures plan.Batch(d, cursor, upto).Keys == d.Keys
  {
  }

  lemma {:induction false} SegmentsChecked(units: seq<PlanUnit>)
    requires forall i | 0 <= i < |units| && units[i].Chunked? :: units[i].plan.Checked()
    ensures forall i | 0 <= i < |Segments(units)| && Segments(units)[i].Chunk? :: Segments(units)[i].plan.Checked()
    decreases |units|
  {
    if units != [] {
      SegmentsChecked(units[if units[0].Chunked? then 1 else PlainPrefix(units)..]);
    }
  }

  // ---------- the walk --------------------------------------------------------------

  /** The rows counted so far and those the rest of the walk will count come to the same total. */
  ghost predicate SameTotal(plan: ChunkPlan, s: State, from: Option<Key>, rows: nat, t: State, cursor: Option<Key>, walked: nat) {
    && (plan.table in t.data <==> plan.table in s.data)
    && walked + Walked(plan, cursor, t.data).1 == rows + Walked(plan, from, s.data).1
  }

  /** A walk that began in `s` past `from` has come to `t` past `cursor` with `walked` rows counted:
      nothing of the run is lost, and the count is saved. */
  ghost predicate Walking(run: Run, plan: ChunkPlan, i: nat, s: State, from: Option<Key>, t: State, cursor: Option<Key>, walked: nat) {
    && At(run, t, i, cursor) && UnderWay(run, s, t) && Elsewhere(run, s, t) && CountAt(run, t) == walked
    && SameTotal(plan, s, from, CountAt(run, s), t, cursor, walked)
  }

  lemma BatchSameTotal(run: Run, plan: ChunkPlan, i: nat, s: State, from: Option<Key>, rows: nat,
                       t: State, cursor: Option<Key>, walked: nat, ids: seq<nat>)
    requires plan.Checked() && SameTotal(plan, s, from, rows, t, cursor, walked)
    requires plan.table in t.data && plan.On(t.data).IsBatch(t.data[plan.table], cursor, ids) && ids != []
    ensures ids[|ids| - 1] in t.data[plan.table]
    ensures var upto := plan.keyOf(t.data[plan.table][ids[|ids| - 1]]);
            var next := BatchState(run, plan, t, i, cursor, upto, walked + |ids|);
            && plan.table in next.data && SameTotal(plan, s, from, rows, next, Some(upto), walked + |ids|)
            && |plan.Above(next.data[plan.table], Some(upto))| < |plan.Above(t.data[plan.table], cursor)|
  {
    WalkedAfterBatch(plan, cursor, t.data, ids);
    BatchPasses(plan, t.data, cursor, ids);
    hide Walked, ChunkPlan.Batch, Walk.IsBatch, ChunkPlan.KeepsKeys, ChunkPlan.Above;
    BatchKeepsTables(plan, t.data, cursor, Some(plan.keyOf(t.data[plan.table][ids[|ids| - 1]])));
  }

  lemma BatchWalks(run: Run, plan: ChunkPlan, i: nat, s: State, from: Option<Key>,
                   t: State, cursor: Option<Key>, walked: nat, ids: seq<nat>, upto: Key, counted: nat)
    requires run.Resumable() && i < |Segments(run.units)| && Segments(run.units)[i] == Chunk(plan) && plan.Checked()
    requires Walking(run, plan, i, s, from, t, cursor, walked) && plan.table in t.data
    requires plan.On(t.data).IsBatch(t.data[plan.table], cursor, ids) && ids != []
    requires ids[|ids| - 1] in t.data[plan.table] && upto == plan.keyOf(t.data[plan.table][ids[|ids| - 1]])
    requires SameTotal(plan, s, from, CountAt(run, s), BatchState(run, plan, t, i, cursor, upto, counted), Some(upto), counted)
    ensures Walking(run, plan, i, s, from, BatchState(run, plan, t, i, cursor, upto, counted), Some(upto), counted)
  {
    hide Run.Finish, Walked, ChunkPlan.Checked, SameTotal, At, Elsewhere, BatchState, Segments, Walk.IsBatch;
    BatchKeepsFinish(run, t, i, cursor, ids, counted);
    BatchSaves(run, plan, t, i, cursor, upto, counted);
    ElsewhereJoins(run, s, t, BatchState(run, plan, t, i, cursor, upto, counted));
  }

  lemma BatchSaves(run: Run, plan: ChunkPlan, t: State, i: nat, cursor: Option<Key>, upto: Key, walked: nat)
    requires plan.table in t.data
    ensures var next := BatchState(run, plan, t, i, cursor, upto, walked);
            && next.ledger == t.ledger && run.ProgressKey() in next.progress && CountAt(run, next) == walked
            && Elsewhere(run, t, next)
  {
    hide Walk.Write;
    var next := BatchState(run, plan, t, i, cursor, upto, walked);
    assert next.progress - {run.ProgressKey()} == t.progress - {run.ProgressKey()};
  }

  lemma ElsewhereJoins(run: Run, a: State, b: State, c: State)
    requires Elsewhere(run, a, b) && Elsewhere(run, b, c)
    ensures Elsewhere(run, a, c)
  {
  }

  lemma WalkStarts(run: Run, plan: ChunkPlan, i: nat, s: State, from: Option<Key>)
    requires At(run, s, i, from)
    ensures Walking(run, plan, i, s, from, s, from, CountAt(run, s))
  {
    hide Walked, Run.Finish;
  }

  /** A saved count is the one a later walk completes. */
  ghost predicate CountSaved(run: Run, i: nat, plan: ChunkPlan, s: State, from: Option<Key>, t: State) {
    run.Saved(t).Some? && run.SegmentAt(t) == i ==> SameTotal(plan, s, from, CountAt(run, s), t, run.CursorAt(t), CountAt(run, t))
  }

  lemma WalkHolds(run: Run, plan: ChunkPlan, i: nat, s: State, from: Option<Key>, t: State, cursor: Option<Key>, walked: nat)
    requires i < |Segments(run.units)|
    requires Walking(run, plan, i, s, from, t, cursor, walked)
    ensures At(run, t, i, cursor) && UnderWay(run, s, t) && Elsewhere(run, s, t) && run.Fits(t)
    ensures SameTotal(plan, s, from, CountAt(run, s), t, cursor, walked)
    ensures CountSaved(run, i, plan, s, from, t)
    ensures plan.table in t.data <==> plan.table in s.data
  {
    hide Walked, Run.Finish;
  }

  /** When nothing is left, closing the segment ends the walk with the whole count. */
  lemma WalkEnds(run: Run, plan: ChunkPlan, i: nat, s: State, from: Option<Key>, t: State, cursor: Option<Key>, walked: nat)
    requires run.Resumable() && i < |Segments(run.units)| && Segments(run.units)[i] == Chunk(plan) && plan.Checked()
    requires Walking(run, plan, i, s, from, t, cursor, walked)
    requires plan.table in t.data && plan.On(t.data).IsBatch(t.data[plan.table], cursor, [])
    ensures plan.table in s.data && walked == CountAt(run, s) + Walked(plan, from, s.data).1
    ensures var last := i == |Segments(run.units)| - 1;
            var closed := FinishSegment(run, t, i, last);
            && (last ==> run.Finish(s) == closed)
            && (closed.Some? ==> Elsewhere(run, s, closed.value) && run.Fits(closed.value)
                                 && CountSaved(run, i, plan, s, from, closed.value))
            && (!last ==> closed.Some? && At(run, closed.value, i + 1, None) && CountAt(run, closed.value) == 0
                          && UnderWay(run, s, closed.value))
  {
    WalkedAfterBatch(plan, cursor, t.data, []);
    hide Walked, Walk.IsBatch, ChunkPlan.KeepsKeys, Run.Finish;
    CloseKeepsFinish(run, t, i, t.data);
    assert t.(data := t.data) == t;
  }

  /** A walk whose table is gone cannot end. */
  lemma NoTable(run: Run, plan: ChunkPlan, i: nat, s: State, t: State, cursor: Option<Key>)
    requires run.Resumable() && i < |Segments(run.units)| && Segments(run.units)[i] == Chunk(plan)
    requires At(run, t, i, cursor) && UnderWay(run, s, t)
    ensures plan.table !in t.data ==> run.Finish(s).None?
  {
  }

  lemma AtCursor(run: Run, s: State, i: nat)
    ensures At(run, s, i, None) ==> run.CursorAt(s) == None
  {
  }

  lemma StartsAt(run: Run, s: State)
    requires run.Saved(s).Some? ==> run.Saved(s).value.hash == run.hash
    ensures At(run, s, run.SegmentAt(s), run.CursorAt(s)) && UnderWay(run, s, s) && Elsewhere(run, s, s)
    ensures run.CursorAt(s) == if run.Saved(s).Some? then run.Saved(s).value.cursor else None
    ensures CountAt(run, s) == if run.Saved(s).Some? then run.Saved(s).value.rows else 0
  {
    hide Run.Finish;
  }

  /** What closing a plain segment does for the run. */
  lemma PlainCloses(run: Run, units: seq<PlanUnit>, i: nat, s: State)
    requires run.Resumable() && i < |Segments(run.units)| && Segments(run.units)[i] == Plain(units) && At(run, s, i, run.CursorAt(s))
    ensures UnderWay(run, s, s) && Elsewhere(run, s, s)
    ensures var last := i == |Segments(run.units)| - 1;
            var closed := EndSegment(run, s, RunPlain(units, s.data), i, last);
            (closed.None? ==> run.Finish(s).None?) &&
            (closed.Some? ==>
              && Elsewhere(run, s, closed.value) && run.Fits(closed.value)
              && (last ==> run.Finish(s) == closed)
              && (!last ==> At(run, closed.value, i + 1, None) && CountAt(run, closed.value) == 0 && UnderWay(run, s, closed.value)))
  {
    if RunPlain(units, s.data).Some? {
      CloseKeepsFinish(run, s, i, RunPlain(units, s.data).value);
    }
    hide Run.Finish, RunPlain, Segments, Run.Ledger;
  }

  /** A run goes on being under way, and ends where it was to end. */
  lemma KeptJoins(run: Run, a: State, b: State, c: State)
    requires UnderWay(run, a, b) && Elsewhere(run, a, b) && Elsewhere(run, b, c)
    ensures Elsewhere(run, a, c)
    ensures UnderWay(run, b, c) ==> UnderWay(run, a, c)
    ensures Kept(run, b, c) ==> Kept(run, a, c)
    ensures run.Finish(b) == run.Finish(a)
    ensures run.Finish(b) == Some(c) ==> run.Finish(a) == Some(c)
  {
    hide Run.Finish;
  }

  class Backend {
    /** What the database has durably committed. */
    var db: State
    /** How many database calls have failed. */
    var failures: nat

    constructor (s: State)
      ensures db == s && failures == 0
    {
      db, failures := s, 0;
    }

    /** The environment decides whether a database call fails. */
    method Faulty() returns (fault: bool)
      modifies this`failures
      ensures failures == old(failures) + if fault then 1 else 0
    {
      fault := *;
      if fault {
        failures := failures + 1;
      }
    }

    /** A failed commit may still have taken effect. */
    method Commit(tx: State) returns (ok: bool)
      modifies this
      ensures failures == old(failures) + if ok then 0 else 1
      ensures ok ==> db == tx
      ensures !ok ==> db == old(db) || db == tx
    {
      var refused: bool := *;
      if !refused {
        db := tx;
      }
      var fault := Faulty();
      if refused && !fault {
        failures := failures + 1;
      }
      ok := !refused && !fault;
    }

    /** The batch select: it fails, or returns the first `size` pending rows in key order. */
    method FetchBatch(walk: Walk, rows: Rows, cursor: Option<Key>) returns (ok: bool, ids: seq<nat>)
      modifies this`failures
      ensures failures == old(failures) + if ok then 0 else 1
      ensures ok ==> walk.IsBatch(rows, cursor, ids)
    {
      ids := *;
      ok := walk.IsBatch(rows, cursor, ids);
      var fault := Faulty();
      if !ok && !fault {
        failures := failures + 1;
      }
      ok := ok && !fault;
    }

    /** The segment's last writes and its commit. */
    method Finish(run: Run, tx: State, i: nat, last: bool) returns (r: Outcome)
      modifies this
      ensures !r.Tamper? && failures >= old(failures)
      ensures r.Done? <==> failures == old(failures) && FinishSegment(run, tx, i, last).Some?
      ensures r.Done? ==> FinishSegment(run, tx, i, last) == Some(db)
      ensures r.Failed? ==> db == old(db) || FinishSegment(run, tx, i, last) == Some(db)
    {
      var fault := Faulty();
      var closed := FinishSegment(run, tx, i, last);
      if fault || closed.None? {
        return Failed("progress update");
      }
      var ok := Commit(closed.value);
      return if ok then Done else Failed("commit");
    }

    /** All of a plain segment, and the move past it, or nothing. */
    method Statements(run: Run, units: seq<PlanUnit>, i: nat, last: bool) returns (r: Outcome)
      requires run.Resumable() && i < |Segments(run.units)| && Segments(run.units)[i] == Plain(units)
      requires last == (i == |Segments(run.units)| - 1) && At(run, db, i, run.CursorAt(db))
      modifies this
      ensures !r.Tamper? && failures >= old(failures)
      ensures r.Done? ==> failures == old(failures)
      ensures failures == old(failures) && run.Finish(old(db)).Some? ==> r.Done?
      ensures r.Done? ==> EndSegment(run, old(db), RunPlain(units, old(db).data), i, last) == Some(db)
      ensures r.Failed? ==>
                db == old(db) || EndSegment(run, old(db), RunPlain(units, old(db).data), i, last) == Some(db)
      ensures Kept(run, old(db), db) && Elsewhere(run, old(db), db) && (run.Fits(old(db)) ==> run.Fits(db))
      ensures r.Done? && last ==> run.Finish(old(db)) == Some(db)
      ensures r.Done? && !last ==> At(run, db, i + 1, None) && CountAt(run, db) == 0 && UnderWay(run, old(db), db)
    {
      PlainCloses(run, units, i, db);
      SegmentsMaximal(run.units);
      assert PlainRun(Segments(run.units)[i]);
      hide Run.Finish, Run.Ledger, FinishSegment, Elsewhere, At, UnderWay, Segments, Run.Fits;
      var fault := Faulty();
      if fault {
        return Failed("begin");
      }
      var tx := db;
      var n := 0;
      while n < |units|
        invariant n <= |units| && db == old(db) && failures == old(failures)
        invariant tx == db.(data := tx.data)
        invariant RunPlain(units[n..], tx.data) == RunPlain(units, db.data)
      {
        fault := Faulty();
        var result := units[n].exec(tx.data);
        if fault || result.None? {
          return Failed("statement");
        }
        assert units[n..][1..] == units[n + 1..];
        tx := tx.(data := result.value);
        n := n + 1;
      }
      r := Finish(run, tx, i, last);
    }

    /** Batch after batch past `from`, each with its own commit, until none is left. `walked` is
        the count reported. */
    method Chunks(run: Run, plan: ChunkPlan, i: nat, from: Option<Key>, rows: nat) returns (r: Outcome, walked: nat)
      requires run.Resumable() && i < |Segments(run.units)| && Segments(run.units)[i] == Chunk(plan)
      requires plan.Checked() && At(run, db, i, from) && rows == CountAt(run, db)
      modifies this
      ensures !r.Tamper? && failures >= old(failures)
      ensures r.Done? ==> failures == old(failures)
      ensures failures == old(failures) && run.Finish(old(db)).Some? ==> r.Done?
      ensures Kept(run, old(db), db) && Elsewhere(run, old(db), db) && run.Fits(db)
      ensures r.Done? && i == |Segments(run.units)| - 1 ==> run.Finish(old(db)) == Some(db)
      ensures r.Done? && i < |Segments(run.units)| - 1 ==>
                At(run, db, i + 1, None) && CountAt(run, db) == 0 && UnderWay(run, old(db), db)
      // The count is that of the walk: see `WalkCountsExactly` for when it is the number of rows.
      ensures r.Done? ==> plan.table in old(db).data && walked == rows + Walked(plan, from, old(db).data).1
      ensures CountSaved(run, i, plan, old(db), from, db)
    {
      hide Run.Finish, Run.Ledger, ChunkPlan.Batch, Walking, Elsewhere, Run.Fits, CountSaved, SaveProgress, FinishSegment;
      hide ChunkPlan.KeepsKeys, Walk.IsBatch, ChunkPlan.Above, Walked, At, UnderWay;
      WalkStarts(run, plan, i, db, from);
      var cursor := from;
      walked := rows;
      while true
        invariant Walking(run, plan, i, old(db), from, db, cursor, walked) && failures == old(failures)
        decreases if plan.table in db.data then |plan.Above(db.data[plan.table], cursor)| else 0
      {
        WalkHolds(run, plan, i, old(db), from, db, cursor, walked);
        var fault := Faulty();
        if fault || plan.table !in db.data {
          NoTable(run, plan, i, old(db), db, cursor);
          return Failed("begin"), walked;
        }
        var tx := db;
        var table := tx.data[plan.table];
        var ok, ids := FetchBatch(plan.On(tx.data), table, cursor);
        if !ok {
          return Failed("batch select"), walked;
        }
        if ids == [] {
          WalkEnds(run, plan, i, old(db), from, db, cursor, walked);
          r := Finish(run, tx, i, i == |Segments(run.units)| - 1);
          return;
        }
        fault := Faulty();
        if fault {
          return Failed("batch write"), walked;
        }
        BatchSameTotal(run, plan, i, old(db), from, rows, db, cursor, walked, ids);
        var upto := plan.keyOf(table[ids[|ids| - 1]]);
        BatchWalks(run, plan, i, old(db), from, db, cursor, walked, ids, upto, walked + |ids|);
        walked := walked + |ids|;
        tx := BatchState(run, plan, tx, i, cursor, upto, walked);
        WalkHolds(run, plan, i, old(db), from, tx, Some(upto), walked);
        fault := Faulty();
        if fault {
          return Failed("progress update"), walked;
        }
        ok := Commit(tx);
        if !ok {
          return Failed("commit"), walked;
        }
        cursor := Some(upto);
      }
    }

    /** The segments from the saved position on; a position saved under another hash is refused. When
        no call fails, it ends if it can: what an interrupted run has left is taken up. */
    method RunResumable(run: Run) returns (r: Outcome)
      requires run.Resumable() && run.Checked()
      modifies this
      ensures failures >= old(failures)
      ensures r.Done? <==> failures == old(failures) && run.Finish(old(db)).Some?
      ensures failures == old(failures) && run.Saved(old(db)).Some? && run.Saved(old(db)).value.hash != run.hash ==> r.Tamper?
      ensures r.Done? ==> run.Finish(old(db)) == Some(db)
      // Where no batch disturbs the rows above it, that is what is left of the script without `chunk`.
      ensures r.Done? && AllWalkAsOne(run.units) ==> FinishUnchunked(run, old(db)) == Some(db)
      ensures !r.Done? ==> Kept(run, old(db), db)
      ensures r.Tamper? ==> db == old(db) && TamperOf(run, db, r)
      ensures Elsewhere(run, old(db), db)
      ensures run.Fits(old(db)) ==> run.Fits(db)
    {
      if AllWalkAsOne(run.units) {
        FinishIsStatements(run, db);
      }
      hide Run.FinishResumable, RunFrom, RunPlain, FinishSegment, EndSegment, AllWalkAsOne, FinishUnchunked;
      var fault := Faulty();
      if fault {
        return Failed("checkout");
      }
      var saved := run.Saved(db);
      if saved.Some? && saved.value.hash != run.hash {
        return Tamper(run.id, saved.value.hash, run.hash);
      }
      var segs := Segments(run.units);
      SegmentsChecked(run.units);
      SegmentsMaximal(run.units);
      if !run.Fits(db) {
        PastTheEndDoesNothing(run, db);
      }
      var last := if |segs| == 0 then 0 else |segs| - 1;
      var i := if saved.Some? then saved.value.segment else 0;
      ghost var start := i;
      hide Run.Finish, Run.Fits, At, UnderWay, Kept, Elsewhere, CountAt, Run.CursorAt;
      StartsAt(run, db);
      while i < |segs|
        invariant start <= i && failures == old(failures) && Elsewhere(run, old(db), db) && (run.Fits(old(db)) ==> run.Fits(db))
        invariant i == start ==> db == old(db)
        invariant start < i < |segs| ==> run.CursorAt(db).None? && CountAt(run, db) == 0
        invariant i < |segs| ==> At(run, db, i, run.CursorAt(db)) && UnderWay(run, old(db), db)
        invariant i >= |segs| ==> run.Finish(old(db)) == Some(db)
        decreases |segs| - i
      {
        ghost var before := db;
        match segs[i] {
        case Plain(units) =>
          r := Statements(run, units, i, i == last);
        case Chunk(plan) =>
          var resumed := saved.Some? && saved.value.segment == i;
          var cursor := if resumed then saved.value.cursor else None;
          var walked;
          r, walked := Chunks(run, plan, i, cursor, if resumed then saved.value.rows else 0);
        }
        KeptJoins(run, old(db), before, db);
        if !r.Done? {
          return;
        }
        AtCursor(run, db, i + 1);
        i := i + 1;
      }
      return Done;
    }

    /** The whole run or nothing. */
    method RunInTx(run: Run) returns (r: Outcome)
      requires !run.Resumable()
      modifies this
      ensures !r.Tamper? && failures >= old(failures)
      ensures r.Done? <==> failures == old(failures) && run.Finish(old(db)).Some?
      ensures r.Done? ==> run.Finish(old(db)) == Some(db)
      ensures r.Failed? ==> db == old(db) || run.Finish(old(db)) == Some(db)
    {
      var fault := Faulty();
      if fault {
        return Failed("begin");
      }
      var tx := db;
      var n := 0;
      while n < |run.units|
        invariant n <= |run.units| && db == old(db) && failures == old(failures)
        invariant tx == db.(data := tx.data)
        invariant RunPlain(run.units[n..], tx.data) == RunPlain(run.units, db.data)
      {
        fault := Faulty();
        var result := run.units[n].exec(tx.data);
        if fault || result.None? {
          return Failed("statement");
        }
        assert run.units[n..][1..] == run.units[n + 1..];
        tx := tx.(data := result.value);
        n := n + 1;
      }
      fault := Faulty();
      var closed := run.Ledger(tx);
      if fault || closed.None? {
        return Failed("ledger update");
      }
      var ok := Commit(closed.value);
      return if ok then Done else Failed("commit");
    }

    /** A run with a chunked step is resumable; any other is all or nothing. */
    method RunMigration(run: Run) returns (r: Outcome)
      requires run.Checked()
      modifies this
      ensures failures >= old(failures)
      ensures r.Done? <==> failures == old(failures) && run.Finish(old(db)).Some?
      ensures r.Done? ==> run.Finish(old(db)) == Some(db)
      ensures r.Done? && run.Resumable() && AllWalkAsOne(run.units) ==> FinishUnchunked(run, old(db)) == Some(db)
      ensures r.Tamper? ==> db == old(db) && TamperOf(run, db, r)
      ensures Kept(run, old(db), db)
      ensures Elsewhere(run, old(db), db)
      ensures run.Fits(old(db)) ==> run.Fits(db)
    {
      if run.Resumable() {
        r := RunResumable(run);
      } else {
        r := RunInTx(run);
        assert db.ledger[run.id := run.hash] - {run.id} == db.ledger - {run.id};
      }
    }
  }

  // ---------- what the hash does not guard ------------------------------------------

  /** Finishing a run moves its ledger row exactly when the saved position lies inside its units. */
  lemma FinishMovesTheLedgerRow(run: Run, s: State)
    requires run.Finish(s).Some?
    requires run.down ==> run.id in s.ledger
    ensures (run.Resumable() ==> run.Fits(s)) <==>
            run.Finish(s).value.ledger == (if run.down then s.ledger - {run.id} else s.ledger[run.id := run.hash])
                                          && run.Finish(s).value.ledger != s.ledger
  {
    if !run.down && run.Finish(s).value.ledger == s.ledger[run.id := run.hash] {
      assert run.id in run.Finish(s).value.ledger;
    }
  }

  /** A rollback is saved under the hash of `up.mig`, so an edited `down.mig` is not noticed:
      shortened after an interruption, it reports success with the migration still applied. */
  lemma EditedDownScriptIsNotNoticed(plan: ChunkPlan, s: State)
    returns (before: Run, after: Run, saved: State)
    requires "0001_a" in s.ledger && plan.table in s.data && plan.On(s.data).Pending(s.data[plan.table], None) == {}
    ensures before.hash == after.hash && before.id == after.id && before.down && after.down
    ensures FinishSegment(before, s, 0, false) == Some(saved) && before.Fits(saved)
    ensures after.Finish(saved) == Some(saved) && "0001_a" in saved.ledger
  {
    before := Run("0001_a", "h", true, [Chunked(plan), Chunked(plan)]);
    after := Run("0001_a", "h", true, [Chunked(plan)]);
    saved := FinishSegment(before, s, 0, false).value;
    assert after.units[0].Chunked? && before.units[0].Chunked?;
    assert Segments(after.units[1..]) == [];
    assert Segments(before.units[1..]) == [Chunk(plan)] + Segments(before.units[1..][1..]);
  }
}
