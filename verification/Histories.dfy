/** Whole histories of `Apply`: what any sequence of interrupted and repeated attempts adds up to, and
    when it adds up to nothing but whole migrations. */
module Histories {
  import opened Wrappers
  import Digits
  import opened Sequences
  import opened Migration
  import opened ChunkWalk
  import opened Resume
  import opened Apply

  // ---------- repeating one command -------------------------------------------------

  /** Any number of failed, crashed or unacknowledged attempts at `Up` or `To`, retried until one
      reports success, end where one undisturbed attempt would have; the ledger is a prefix throughout. */
  lemma {:induction false} RetriesReachTheGoal(migs: seq<Planned>, dir: Direction, allowDestructive: bool,
                                               states: seq<State>, results: seq<ApplyResult>)
    requires !dir.Down? && |states| == |results| + 1 && Prefix(states[0].ledger, migs)
    requires forall i | 0 <= i < |results| ::
               Attempted(migs, dir, allowDestructive, states[i], states[i + 1], results[i])
    ensures forall i | 0 <= i < |states| :: Prefix(states[i].ledger, migs)
    ensures results != [] && results[|results| - 1].Ok? ==>
              Goal(migs, KeepMax(dir, migs, 0), states[0]) == Some(states[|results|])
  {
    hide Goal, Prefix, Told;
    if results != [] {
      RetriesReachTheGoal(migs, dir, allowDestructive, states[1..], results[1..]);
      assert forall i | 1 <= i < |states| :: states[i] == states[1..][i - 1];
      assert Attempted(migs, dir, allowDestructive, states[0], states[1], results[0]);
      if |results| > 1 {
        assert results[1..][|results| - 2] == results[|results| - 1];
      }
    }
  }

  /** The up units of migrations `from` to `to`, in order. */
  function UpUnits(migs: seq<Planned>, from: nat, to: nat): seq<PlanUnit>
    requires from <= to <= |migs|
    decreases Distance(from, to)
  {
    if from == to then [] else migs[from].up + UpUnits(migs, from + 1, to)
  }

  /** When no migration to come has a saved position, going forward is running every pending unit
      once, in order, and recording each migration. */
  lemma {:induction false} GoalIsEveryUnitOnce(migs: seq<Planned>, keep: nat, s: State)
    requires GapFree(migs) && Prefix(s.ledger, migs) && |s.ledger| <= keep <= |migs|
    requires forall i | |s.ledger| <= i < keep :: migs[i].UpRun().ProgressKey() !in s.progress
    ensures Goal(migs, keep, s) ==
            match RunPlain(UpUnits(migs, |s.ledger|, keep), s.data)
            case None => None
            case Some(d) => Some(State(d, LedgerOf(migs, keep), s.progress))
    decreases Distance(|s.ledger|, keep)
  {
    hide Number, Run.Finish;
    var k := |s.ledger|;
    if k < keep {
      var run := migs[k].UpRun();
      FreshRunIsEveryUnitOnce(run, s);
      LedgerOfRows(migs, k);
      LedgerOfRows(migs, k + 1);
      RunPlainConcat(migs[k].up, UpUnits(migs, k + 1, keep), s.data);
      match RunPlain(migs[k].up, s.data)
      case None =>
      case Some(d) =>
        var t := State(d, LedgerOf(migs, k + 1), s.progress);
        assert run.Ledger(s.(data := d)) == Some(t);
        GoalIsEveryUnitOnce(migs, keep, t);
    }
  }

  /** Where no batch disturbs the rows above it, that is running the scripts without `chunk`. */
  lemma GoalIsUnchunked(migs: seq<Planned>, keep: nat, s: State)
    requires GapFree(migs) && Prefix(s.ledger, migs) && |s.ledger| <= keep <= |migs|
    requires forall i | |s.ledger| <= i < keep :: migs[i].UpRun().ProgressKey() !in s.progress
    requires AllWalkAsOne(UpUnits(migs, |s.ledger|, keep))
    ensures Goal(migs, keep, s) ==
            match RunPlain(Unchunked(UpUnits(migs, |s.ledger|, keep)), s.data)
            case None => None
            case Some(d) => Some(State(d, LedgerOf(migs, keep), s.progress))
  {
    hide AllWalkAsOne, RunPlain, Goal, GapFree, Prefix;
    GoalIsEveryUnitOnce(migs, keep, s);
    ChunkMayBeDropped(UpUnits(migs, |s.ledger|, keep), s.data);
  }

  // ---------- `Down`, and its retry -------------------------------------------------

  lemma FinishedElsewhere(run: Run, s: State)
    requires run.Fits(s) && run.Finish(s).Some?
    ensures Elsewhere(run, s, run.Finish(s).value) && run.Fits(run.Finish(s).value)
  {
    var t := run.Finish(s).value;
    assert s.ledger[run.id := run.hash] - {run.id} == s.ledger - {run.id};
    assert s.ledger - {run.id} - {run.id} == s.ledger - {run.id};
    assert s.progress - {run.ProgressKey()} - {run.ProgressKey()} == s.progress - {run.ProgressKey()};
  }

  /** Being on the way is what a failed attempt may leave; being at the end, what a successful one does. */
  lemma FailedOnTheWay(migs: seq<Planned>, dir: Direction, allowDestructive: bool, s: State, t: State, stage: string)
    requires OnTheWay(migs, KeepMax(dir, migs, |s.ledger|), s, t)
    requires forall i | |s.ledger| <= i < |t.ledger| && i < |migs| :: !migs[i].destructive
    ensures Attempted(migs, dir, allowDestructive, s, t, Err(Execution(stage)))
  {
    WayIsPrefix(migs, KeepMax(dir, migs, |s.ledger|), s, t);
    hide OnTheWay, Prefix, Goal;
  }

  lemma DoneOnTheWay(migs: seq<Planned>, dir: Direction, allowDestructive: bool, s: State, t: State)
    requires OnTheWay(migs, KeepMax(dir, migs, |s.ledger|), s, t) && Goal(migs, KeepMax(dir, migs, |s.ledger|), s) == Some(t)
    requires var keep := KeepMax(dir, migs, |s.ledger|); |t.ledger| == if keep < |migs| then keep else |migs|
    requires forall i | |s.ledger| <= i < |t.ledger| && i < |migs| :: !migs[i].destructive
    ensures Attempted(migs, dir, allowDestructive, s, t, Ok(Moved(migs, |s.ledger|, |t.ledger|)))
  {
    WayIsPrefix(migs, KeepMax(dir, migs, |s.ledger|), s, t);
    hide OnTheWay, Prefix, Goal, Moved;
  }

  lemma WayIsPrefix(migs: seq<Planned>, keep: nat, s: State, t: State)
    requires OnTheWay(migs, keep, s, t)
    ensures Prefix(s.ledger, migs)
  {
    hide Prefix, Goal, AllFit, Reaches;
  }

  /** `Down` may fail although its rollback has taken effect: the acknowledgement was lost. */
  lemma DownMayHaveMoved(migs: seq<Planned>, allowDestructive: bool, s: State)
    requires GapFree(migs) && Prefix(s.ledger, migs) && AllFit(s, migs) && s.ledger != map[]
    requires migs[|s.ledger| - 1].down.Some? && migs[|s.ledger| - 1].DownRun().Finish(s).Some?
    ensures var t := migs[|s.ledger| - 1].DownRun().Finish(s).value;
            |t.ledger| == |s.ledger| - 1 && Attempted(migs, Down, allowDestructive, s, t, Err(Execution("down")))
  {
    var k := |s.ledger|;
    var run := migs[k - 1].DownRun();
    var t := run.Finish(s).value;
    FinishedElsewhere(run, s);
    StandStill(migs, k - 1, s);
    hide Run.Finish, Number, LedgerOf, AllFit, OnTheWay, Goal, GapFree, Elsewhere, Run.Fits, Prefix, Attempted, Reaches;
    Proceed(migs, k - 1, run, s, s, t);
    FailedOnTheWay(migs, Down, allowDestructive, s, t, "down");
  }

  /** The retry of such a `Down` ends elsewhere than the attempt was to, unless nothing had moved or
      there was only one migration to roll back: it takes back one more. */
  lemma DownRetriesTwice(migs: seq<Planned>, s: State, t: State)
    requires GapFree(migs) && OnTheWay(migs, KeepMax(Down, migs, |s.ledger|), s, t)
    requires Goal(migs, KeepMax(Down, migs, |s.ledger|), s).Some?
    ensures Goal(migs, KeepMax(Down, migs, |t.ledger|), t) == Goal(migs, KeepMax(Down, migs, |s.ledger|), s) <==>
            |t.ledger| == |s.ledger| || |s.ledger| == 1
    ensures |t.ledger| < |s.ledger| && Goal(migs, KeepMax(Down, migs, |t.ledger|), t).Some? && t.ledger != map[] ==>
              |Goal(migs, KeepMax(Down, migs, |t.ledger|), t).value.ledger| == |t.ledger| - 1
  {
    hide Run.Finish, Number, LedgerOf, Reaches;
    if |t.ledger| < |s.ledger| && t.ledger != map[] {
      var run := migs[|t.ledger| - 1];
      if run.down.Some? {
        StandStillHere(migs, t);
        GoalStep(migs, |t.ledger| - 1, run.DownRun(), t, t);
        if run.DownRun().Finish(t).Some? {
          NextPrefix(migs, run.DownRun(), t);
        }
      }
    }
  }

  // ---------- when a saved position may be taken up ---------------------------------

  /** A run's own statements from the beginning, whatever has been saved. */
  ghost function RunWhole(run: Run, s: State): Option<State> {
    match RunPlain(run.units, s.data)
    case None => None
    case Some(d) => run.Ledger(s.(data := d))
  }

  /** Taking the run up ends with the tables and the ledger that running all of it gives. */
  ghost predicate AsWhole(id: string, hash: string, down: bool, units: seq<PlanUnit>, s: State, data: Data) {
    var run := Run(id, hash, down, units);
    match (run.Finish(s.(data := data)), RunWhole(run, s.(data := data)))
    case (None, None) => true
    case (Some(t), Some(u)) => t.data == u.data && t.ledger == u.ledger
    case _ => false
  }

  predicate AtTheStart(p: Progress, hash: string) { p.hash == hash && p.segment == 0 && p.cursor.None? }

  /** Where a run of the migration in that direction is saved. */
  function KeyFor(id: string, down: bool): string { Run(id, "", down, []).ProgressKey() }

  /** The saved position of a run that may come next (forward of a pending migration, back of an
      applied one) is harmless, whatever its units and the tables are, exactly when there is none or
      it is at the very start. Nothing else may be left behind: not by another script either. */
  lemma SavedPositionMatters(id: string, hash: string, down: bool, s: State)
    requires down <==> id in s.ledger
    ensures (forall units, data :: AsWhole(id, hash, down, units, s, data)) <==>
            (KeyFor(id, down) in s.progress ==> AtTheStart(s.progress[KeyFor(id, down)], hash))
  {
    if KeyFor(id, down) in s.progress ==> AtTheStart(s.progress[KeyFor(id, down)], hash) {
      forall units, data
        ensures AsWhole(id, hash, down, units, s, data)
      {
        StartIsWhole(id, hash, down, units, s, data);
      }
    } else {
      var units, data := Skipped(id, hash, down, s);
      assert !AsWhole(id, hash, down, units, s, data);
    }
  }

  lemma StartIsWhole(id: string, hash: string, down: bool, units: seq<PlanUnit>, s: State, data: Data)
    requires KeyFor(id, down) in s.progress ==> AtTheStart(s.progress[KeyFor(id, down)], hash)
    ensures AsWhole(id, hash, down, units, s, data)
  {
    RunsFromTheStart(units, data);
    hide Segments, RunFrom, RunPlain;
  }

  /** A chunked step that deletes everything, and a table with one row. */
  lemma Skipped(id: string, hash: string, down: bool, s: State) returns (units: seq<PlanUnit>, data: Data)
    requires (down <==> id in s.ledger) && KeyFor(id, down) in s.progress && !AtTheStart(s.progress[KeyFor(id, down)], hash)
    ensures !AsWhole(id, hash, down, units, s, data)
  {
    units, data := [Chunked(DeleteAll())], ONE_ROW;
    DeleterWhole();
    var p := s.progress[KeyFor(id, down)];
    if p.hash == hash && p.segment == 0 {
      DeleterResumed(p.cursor.value);
    }
    hide DeleteAll, RunFrom, RunPlain, Segments, ONE_ROW;
    assert units[0].Chunked?;
    var run := Run(id, hash, down, units);
    var emptied: Data := map["t" := map[]];
    var ledger := if down then s.ledger - {id} else s.ledger[id := hash];
    assert RunWhole(run, s.(data := data)) == Some(State(emptied, ledger, s.progress));
    OneIsNotNone();
  }

  lemma OneIsNotNone()
    ensures ONE_ROW != map["t" := map[]]
  {
    assert 0 in ONE_ROW["t"];
  }

  function DeleteAll(): ChunkPlan { ChunkPlan("t", 1, (_: Row) => [], (_: Data, _: Row) => true, (_: Data, _: Row) => None) }

  const ONE_ROW: Data := map["t" := map[0 := map[]]]

  lemma DeleterWhole()
    ensures RunPlain([Chunked(DeleteAll())], ONE_ROW) == Some(map["t" := map[]])
    ensures Segments([Chunked(DeleteAll())]) == [Chunk(DeleteAll())]
  {
    var units := [Chunked(DeleteAll())];
    var emptied: Data := map["t" := map[]];
    assert units[1..] == [] && Segments(units[1..]) == [];
    assert DeleteAll().On(ONE_ROW).Write(ONE_ROW["t"], None, None) == map[];
    assert ONE_ROW["t" := map[]] == emptied;
    hide Walked;
    ReadingElsewhereIsEnough(DeleteAll());
    assert RunUnit(units[0], ONE_ROW) == Some(emptied);
    assert RunPlain(units[1..], emptied) == Some(emptied);
  }

  lemma DeleterResumed(cursor: Key)
    ensures RunFrom([Chunk(DeleteAll())], 0, Some(cursor), ONE_ROW) == Some(ONE_ROW)
  {
    assert DeleteAll().On(ONE_ROW).Write(ONE_ROW["t"], Some(cursor), None) == ONE_ROW["t"];
    assert ONE_ROW["t" := ONE_ROW["t"]] == ONE_ROW;
    hide Walked;
    ReadingElsewhereIsEnough(DeleteAll());
    assert RunFrom([Chunk(DeleteAll())], 1, None, ONE_ROW) == Some(ONE_ROW);
  }

  // ---------- any mix of directions -------------------------------------------------

  /** No migration has a saved position. */
  predicate NothingSaved(migs: seq<Planned>, s: State) {
    forall i | 0 <= i < |migs| :: migs[i].id !in s.progress && migs[i].id + ":down" !in s.progress
  }

  /** One whole migration, forward or back, to `p` applied. */
  ghost function MoveTo(migs: seq<Planned>, p: nat, s: State): Option<State> {
    var a := |s.ledger|;
    if p == a + 1 && p <= |migs| then RunWhole(migs[a].UpRun(), s)
    else if a == p + 1 && a <= |migs| && migs[p].down.Some? then RunWhole(migs[p].DownRun(), s)
    else None
  }

  /** Whole migrations, one after the other; `path` is how many are applied after each. */
  ghost function Whole(migs: seq<Planned>, path: seq<nat>, s: State): Option<State> {
    if path == [] then Some(s)
    else match Whole(migs, path[..|path| - 1], s)
      case None => None
      case Some(u) => MoveTo(migs, path[|path| - 1], u)
  }

  lemma {:induction false} WholeJoins(migs: seq<Planned>, a: seq<nat>, b: seq<nat>, s: State)
    ensures Whole(migs, a + b, s) == match Whole(migs, a, s) case None => None case Some(u) => Whole(migs, b, u)
    decreases |b|
  {
    if b == [] {
      assert a + b == a;
    } else {
      assert (a + b)[..|a + b| - 1] == a + b[..|b| - 1];
      WholeJoins(migs, a, b[..|b| - 1], s);
    }
  }

  /** A run that may come next when the first `a` are applied. */
  ghost predicate Neighbour(migs: seq<Planned>, a: nat, run: Run) {
    || (a < |migs| && run == migs[a].UpRun())
    || (0 < a <= |migs| && migs[a - 1].down.Some? && run == migs[a - 1].DownRun())
  }

  /** With nothing saved, finishing a run is running all of it. */
  lemma FinishIsWhole(migs: seq<Planned>, run: Run, s: State)
    requires GapFree(migs) && Prefix(s.ledger, migs) && NothingSaved(migs, s) && Neighbour(migs, |s.ledger|, run)
    ensures run.Finish(s) == RunWhole(run, s) && run.Fits(s)
    ensures run.Finish(s).Some? ==>
              var t := run.Finish(s).value;
              && Prefix(t.ledger, migs) && NothingSaved(migs, t) && |t.ledger| == |s.ledger| + (if run.down then -1 else 1)
              && MoveTo(migs, |t.ledger|, s) == Some(t)
  {
    hide Run.Finish, LedgerOf, GapFree, Prefix;
    NeighbourIsFresh(migs, run, s);
    if run.Finish(s).Some? {
      PrefixFits(migs, s.ledger);
      NextPrefix(migs, run, s);
      WholeKeepsProgress(run, s);
    }
  }

  lemma PrefixFits(migs: seq<Planned>, ledger: map<string, string>)
    requires Prefix(ledger, migs)
    ensures |ledger| <= |migs|
  {
  }

  lemma NeighbourIsFresh(migs: seq<Planned>, run: Run, s: State)
    requires NothingSaved(migs, s) && Neighbour(migs, |s.ledger|, run)
    ensures run.Finish(s) == RunWhole(run, s) && run.Fits(s)
  {
    FreshRunIsEveryUnitOnce(run, s);
    hide Run.Finish;
  }

  lemma WholeKeepsProgress(run: Run, s: State)
    ensures RunWhole(run, s).Some? ==> RunWhole(run, s).value.progress == s.progress
  {
  }

  /** From where nothing is saved, whatever an undisturbed apply reaches is whole migrations. */
  lemma {:induction false} GoalIsWhole(migs: seq<Planned>, a: nat, s: State) returns (path: seq<nat>)
    requires GapFree(migs) && Prefix(s.ledger, migs) && NothingSaved(migs, s) && a <= |migs| && Goal(migs, a, s).Some?
    ensures Whole(migs, path, s) == Goal(migs, a, s)
    ensures var t := Goal(migs, a, s).value; Prefix(t.ledger, migs) && NothingSaved(migs, t) && |t.ledger| == a
    decreases Distance(|s.ledger|, a)
  {
    hide Run.Finish, LedgerOf, GapFree, Whole, MoveTo;
    var k := |s.ledger|;
    if k == a {
      path := [];
      WholeNothing(migs, s);
    } else {
      var run := if k > a then migs[k - 1].DownRun() else migs[k].UpRun();
      FinishIsWhole(migs, run, s);
      var t := run.Finish(s).value;
      var rest := GoalIsWhole(migs, a, t);
      path := [|t.ledger|] + rest;
      WholeOne(migs, |t.ledger|, s);
      WholeJoins(migs, [|t.ledger|], rest, s);
    }
  }

  lemma WholeNothing(migs: seq<Planned>, s: State)
    ensures Whole(migs, [], s) == Some(s)
  {
  }

  lemma WholeOne(migs: seq<Planned>, p: nat, s: State)
    ensures Whole(migs, [p], s) == MoveTo(migs, p, s)
  {
    assert [p][..0] == [];
  }

  /** `t` is what the whole migrations `path` lead to from `s`, with at most one more under way. */
  ghost predicate Stands(migs: seq<Planned>, path: seq<nat>, s: State, u: State, t: State) {
    && Whole(migs, path, s) == Some(u) && Prefix(u.ledger, migs) && NothingSaved(migs, u)
    && (t == u || exists run :: Neighbour(migs, |u.ledger|, run) && Partial(run, u, t))
  }

  ghost predicate Partial(run: Run, u: State, t: State) { UnderWay(run, u, t) && Elsewhere(run, u, t) }

  /** Every saved position belongs to what the attempt runs first, unless it runs nothing. */
  ghost predicate TakesUpWhatIsSaved(migs: seq<Planned>, keep: nat, s: State) {
    forall run | Neighbour(migs, |s.ledger|, run) && run.ProgressKey() in s.progress ::
      NextRun(migs, |s.ledger|, keep) in {Some(run), None}
  }

  predicate RunsSomething(migs: seq<Planned>, dir: Direction, s: State) {
    NextRun(migs, |s.ledger|, KeepMax(dir, migs, |s.ledger|)).Some?
  }

  lemma PartialJoins(run: Run, u: State, s: State, t: State)
    requires Partial(run, u, s) && (t == s || Partial(run, s, t))
    ensures Partial(run, u, t)
  {
    hide Run.Finish;
  }

  /** An attempt that moved: it took up what was under way, and went on by whole migrations. */
  lemma SameGoal(migs: seq<Planned>, keep: nat, a: nat, u: State, s: State)
    requires GapFree(migs) && Prefix(u.ledger, migs) && s.ledger == u.ledger && a != |u.ledger|
    requires if |u.ledger| > keep then keep <= a < |u.ledger| else |u.ledger| < a <= keep && a <= |migs|
    requires s == u || exists run :: NextRun(migs, |u.ledger|, keep) == Some(run) && Partial(run, u, s)
    ensures Goal(migs, a, s) == Goal(migs, a, u)
  {
    hide Run.Finish, LedgerOf, GapFree;
  }

  /** What stands is whole migrations alone exactly when nothing is saved. */
  lemma StandsWhole(migs: seq<Planned>, path: seq<nat>, start: State, u: State, s: State)
    requires Stands(migs, path, start, u, s)
    ensures NothingSaved(migs, s) <==> s == u
  {
    hide Run.Finish, Whole, Prefix;
    if s != u {
      var run :| Neighbour(migs, |u.ledger|, run) && Partial(run, u, s);
      assert run.ProgressKey() in s.progress;
    }
  }

  /** One more attempt, in any direction. A reported success is whole migrations exactly when nothing
      was saved before it or it had something to run. */
  lemma StillStands(migs: seq<Planned>, dir: Direction, allowDestructive: bool, r: ApplyResult,
                    path: seq<nat>, start: State, u: State, s: State, t: State)
    returns (path': seq<nat>, u': State)
    requires GapFree(migs) && Stands(migs, path, start, u, s) && Attempted(migs, dir, allowDestructive, s, t, r)
    requires TakesUpWhatIsSaved(migs, KeepMax(dir, migs, |s.ledger|), s)
    ensures Stands(migs, path', start, u', t)
    ensures r.Ok? ==> (t == u' <==> s == u || NextRun(migs, |s.ledger|, KeepMax(dir, migs, |s.ledger|)).Some?)
  {
    hide Run.Finish, LedgerOf, GapFree, Goal, AllFit, Told, Whole, NothingSaved, Elsewhere;
    var keep := KeepMax(dir, migs, |s.ledger|);
    assert s.ledger == u.ledger;
    var a := |t.ledger|;
    var v := Goal(migs, a, s).value;
    if s != u {
      var run :| Neighbour(migs, |u.ledger|, run) && Partial(run, u, s);
      assert NextRun(migs, |s.ledger|, keep) in {Some(run), None};
      if a == |s.ledger| {
        StandStillHere(migs, s);
        if t != s {
          PartialJoins(run, u, s, t);
        }
        path', u' := path, u;
        return;
      }
    }
    if a == |s.ledger| {
      StandStillHere(migs, s);
      path', u' := path, u;
      NextIsNeighbour(migs, a, keep);
    } else {
      MovesNext(migs, a, keep, s);
      SameGoal(migs, keep, a, u, s);
      var more := GoalIsWhole(migs, a, u);
      WholeJoins(migs, path, more, start);
      path', u' := path + more, v;
      NextIsNeighbour(migs, a, keep);
    }
  }

  lemma StandStillHere(migs: seq<Planned>, s: State)
    requires Prefix(s.ledger, migs)
    ensures Goal(migs, |s.ledger|, s) == Some(s)
  {
  }

  lemma NextIsNeighbour(migs: seq<Planned>, a: nat, keep: nat)
    ensures NextRun(migs, a, keep).Some? ==> Neighbour(migs, a, NextRun(migs, a, keep).value)
  {
  }

  /** What is reached by moving had something to run first. */
  lemma MovesNext(migs: seq<Planned>, a: nat, keep: nat, s: State)
    requires Prefix(s.ledger, migs) && Goal(migs, a, s).Some? && a != |s.ledger| && a <= |migs|
    requires if |s.ledger| > keep then keep <= a < |s.ledger| else |s.ledger| < a <= keep
    ensures NextRun(migs, |s.ledger|, keep).Some?
  {
  }

  /** Any mix of directions, each attempt interrupted anywhere or not: as long as no attempt turns
      away from a saved position, the database is where whole migrations lead, with at most one
      more under way, and exactly there once nothing is saved. A final reported success leaves
      nothing saved exactly when nothing was saved before that attempt or it had something to run. */
  lemma {:induction false} MixedHistories(migs: seq<Planned>, dirs: seq<Direction>, allowDestructive: bool,
                                          states: seq<State>, results: seq<ApplyResult>)
    returns (path: seq<nat>, u: State)
    requires GapFree(migs) && |dirs| == |results| && |states| == |results| + 1
    requires Prefix(states[0].ledger, migs) && NothingSaved(migs, states[0])
    requires forall i | 0 <= i < |results| ::
               && Attempted(migs, dirs[i], allowDestructive, states[i], states[i + 1], results[i])
               && TakesUpWhatIsSaved(migs, KeepMax(dirs[i], migs, |states[i].ledger|), states[i])
    ensures Stands(migs, path, states[0], u, states[|results|])
    ensures NothingSaved(migs, states[|results|]) <==> u == states[|results|]
    ensures NothingSaved(migs, states[|results|]) ==> Whole(migs, path, states[0]) == Some(states[|results|])
    ensures results != [] && results[|results| - 1].Ok? ==>
              (NothingSaved(migs, states[|results|]) <==>
                 NothingSaved(migs, states[|results| - 1]) || RunsSomething(migs, dirs[|results| - 1], states[|results| - 1]))
    decreases |results|
  {
    hide GapFree, Prefix, NothingSaved, Attempted, TakesUpWhatIsSaved, Stands;
    var n := |results|;
    if n == 0 {
      path, u := [], states[0];
      StandsAtFirst(migs, u);
    } else {
      path, u := MixedHistories(migs, dirs[..n - 1], allowDestructive, states[..n], results[..n - 1]);
      ghost var path0, u0 := path, u;
      path, u := StillStands(migs, dirs[n - 1], allowDestructive, results[n - 1], path, states[0], u, states[n - 1], states[n]);
      StandsWhole(migs, path0, states[0], u0, states[n - 1]);
    }
    StandsWhole(migs, path, states[0], u, states[n]);
    StandsExactly(migs, path, states[0], u, states[n]);
  }

  lemma StandsAtFirst(migs: seq<Planned>, s: State)
    requires Prefix(s.ledger, migs) && NothingSaved(migs, s)
    ensures Stands(migs, [], s, s, s)
  {
  }

  lemma StandsExactly(migs: seq<Planned>, path: seq<nat>, s: State, u: State, t: State)
    requires Stands(migs, path, s, u, t)
    ensures NothingSaved(migs, t) ==> Whole(migs, path, s) == Some(t)
  {
  }

  // ---------- turning away from a saved position ------------------------------------

  const FIRST_UP: seq<PlanUnit> := [Sql((d: Data) => Some(d))]
  const FIRST_DOWN: seq<PlanUnit> := [Sql((d: Data) => Some(d - {"x"}))]

  function AddThenWalk(plan: ChunkPlan): seq<PlanUnit> {
    [Sql((d: Data) => Some(d["x" := map[]])), Chunked(plan)]
  }

  /** The second migration adds a table and then walks another one; rolling the first one back
      takes the table away. */
  function TwoMigrations(plan: ChunkPlan): (migs: seq<Planned>)
    ensures |migs| == 2 && GapFree(migs)
  {
    NumberedOne();
    NumberedTwo();
    hide Number;
    [FirstMigration(), SecondMigration(plan)]
  }

  function FirstMigration(): Planned { Planned(1, "0001_a", FIRST_UP, "h1", false, Some(FIRST_DOWN)) }

  function SecondMigration(plan: ChunkPlan): Planned { Planned(2, "0002_b", AddThenWalk(plan), "h2", false, None) }

  lemma NumberedOne()
    ensures Number("0001_a") == Some(1)
  {
    FourDigits("0001_a", 1);
  }

  lemma NumberedTwo()
    ensures Number("0002_b") == Some(2)
  {
    FourDigits("0002_b", 2);
  }

  lemma FourDigits(id: string, n: nat)
    requires |id| == 6 && id[..3] == "000" && '0' <= id[3] <= '9' && id[4] == '_' && n == id[3] as int - '0' as int
    ensures Number(id) == Some(n)
  {
    assert id[..3][0] == id[0] && id[..3][1] == id[1] && id[..3][2] == id[2];
    assert IndexOf(id, '_') == 4 by {
      var at := IndexOf(id, '_');
      assert id[4] in id[..5] && id[4] in id[..6] && (id[..3] == "000" ==> '_' !in id[..3]);
    }
    var digits := id[..4];
    assert digits[..3] == "000";
    assert digits[..3][..2] == digits[..2] == "00" && digits[..2][..1] == digits[..1] == "0" && digits[..1][..0] == "";
    assert digits[..3] == id[..3];
    assert Digits.AllDigits(digits);
    assert Digits.Value(digits[..1]) == 0;
    assert digits[..2][1] == '0' && Digits.Value(digits[..2]) == 10 * Digits.Value(digits[..2][..1]) + 0;
    assert digits[..3][2] == '0' && Digits.Value(digits[..3]) == 10 * Digits.Value(digits[..3][..2]) + 0;
  }

  /** What a run does to data, when it is whole. */
  lemma SecondIsWhole(plan: ChunkPlan, d: Data)
    requires plan.table in d && plan.table != "x"
    ensures RunPlain(AddThenWalk(plan), d).Some? && "x" in RunPlain(AddThenWalk(plan), d).value
  {
    var units := AddThenWalk(plan);
    var added := d["x" := map[]];
    assert units[1..][0] == Chunked(plan) && units[1..][1..] == [];
    assert RunPlain(units, d) == RunPlain(units[1..], added);
    assert RunPlain(units[1..], added) == RunChunk(plan, None, added);
    WalkStaysInTable(plan, None, added);
  }

  /** The segments of the second migration: its statement, then its walk. */
  lemma SecondSegments(plan: ChunkPlan)
    ensures Segments(AddThenWalk(plan)) == [Plain(AddThenWalk(plan)[..1]), Chunk(plan)]
  {
    var units := AddThenWalk(plan);
    assert units[1..][0] == Chunked(plan) && units[1..][1..] == [];
    assert PlainPrefix(units[1..]) == 0 && PlainPrefix(units) == 1;
    assert Segments(units[1..]) == [Chunk(plan)] + Segments(units[1..][1..]);
    assert Segments(units[1..][1..]) == [];
  }

  /** The second migration interrupted after its first segment; what was saved. */
  function Interrupted(plan: ChunkPlan, d: Data): State {
    State(d["x" := map[]], map["0001_a" := "h1"], map["0002_b" := Progress("h2", 1, None, 0)])
  }

  /** The first migration rolled back from there: the saved position of the second stays. */
  function TurnedAway(plan: ChunkPlan, d: Data): State {
    State(d - {"x"}, map[], map["0002_b" := Progress("h2", 1, None, 0)])
  }

  ghost function ReportedDone(plan: ChunkPlan, d: Data): State
    requires plan.table in d && plan.table != "x"
  {
    var rest := d - {"x"};
    State(RunChunk(plan, None, rest).value, map["0001_a" := "h1", "0002_b" := "h2"], map[])
  }

  lemma InterruptedUp(plan: ChunkPlan, d: Data)
    requires plan.table in d && plan.table != "x"
    ensures var s := State(d, map["0001_a" := "h1"], map[]);
            Kept(TwoMigrations(plan)[1].UpRun(), s, Interrupted(plan, d)) && Elsewhere(TwoMigrations(plan)[1].UpRun(), s, Interrupted(plan, d))
  {
    var s := State(d, map["0001_a" := "h1"], map[]);
    var run := TwoMigrations(plan)[1].UpRun();
    var added := d["x" := map[]];
    SecondSegments(plan);
    assert run.units[1].Chunked?;
    assert AddThenWalk(plan)[..1][1..] == [];
    assert RunPlain(AddThenWalk(plan)[..1], d) == RunPlain(AddThenWalk(plan)[..1][1..], added) == Some(added);
    CloseKeepsFinish(run, s, 0, added);
    assert FinishSegment(run, s.(data := added), 0, false) == Some(Interrupted(plan, d)) by {
      assert s.progress - {run.ProgressKey()} == map[];
    }
    hide Run.Finish;
  }

  lemma RolledBackFirst(plan: ChunkPlan, d: Data)
    ensures TwoMigrations(plan)[0].DownRun().Finish(Interrupted(plan, d)) == Some(TurnedAway(plan, d))
  {
    var added := d["x" := map[]];
    assert FIRST_DOWN[1..] == [];
    assert RunPlain(FIRST_DOWN, added) == RunPlain(FIRST_DOWN[1..], added - {"x"});
    assert added - {"x"} == d - {"x"};
    assert map["0001_a" := "h1"] - {"0001_a"} == map[];
  }

  lemma UpAgain(plan: ChunkPlan, d: Data)
    requires plan.table in d && plan.table != "x"
    ensures var between := TurnedAway(plan, d).(ledger := map["0001_a" := "h1"]);
            && TwoMigrations(plan)[0].UpRun().Finish(TurnedAway(plan, d)) == Some(between)
            && TwoMigrations(plan)[1].UpRun().Finish(between) == Some(ReportedDone(plan, d))
  {
    FirstAgain(plan, d);
    SecondAgain(plan, d);
    hide Run.Finish;
  }

  lemma FirstAgain(plan: ChunkPlan, d: Data)
    ensures TwoMigrations(plan)[0].UpRun().Finish(TurnedAway(plan, d)) == Some(TurnedAway(plan, d).(ledger := map["0001_a" := "h1"]))
  {
    hide GapFree;
    assert FIRST_UP[1..] == [];
    assert RunPlain(FIRST_UP, d - {"x"}) == RunPlain(FIRST_UP[1..], d - {"x"});
  }

  lemma SecondAgain(plan: ChunkPlan, d: Data)
    requires plan.table in d && plan.table != "x"
    ensures TwoMigrations(plan)[1].UpRun().Finish(TurnedAway(plan, d).(ledger := map["0001_a" := "h1"])) == Some(ReportedDone(plan, d))
  {
    hide GapFree;
    var run := TwoMigrations(plan)[1].UpRun();
    var rest := d - {"x"};
    var written := RunChunk(plan, None, rest).value;
    SecondSegments(plan);
    assert run.units[1].Chunked?;
    ChunkFromOne(AddThenWalk(plan)[..1], plan, rest, written);
    hide RunFrom, Segments, AddThenWalk;
    assert map["0002_b" := Progress("h2", 1, None, 0)] - {"0002_b"} == map[];
  }

  lemma ChunkFromOne(units: seq<PlanUnit>, plan: ChunkPlan, d: Data, written: Data)
    requires RunChunk(plan, None, d) == Some(written)
    ensures RunFrom([Plain(units), Chunk(plan)], 1, None, d) == Some(written)
  {
    assert RunFrom([Plain(units), Chunk(plan)], 2, None, written) == Some(written);
  }

  lemma TwoLedgers(plan: ChunkPlan)
    ensures var migs := TwoMigrations(plan);
            && LedgerOf(migs, 0) == map[] && LedgerOf(migs, 1) == map["0001_a" := "h1"]
            && LedgerOf(migs, 2) == map["0001_a" := "h1", "0002_b" := "h2"]
            && |LedgerOf(migs, 0)| == 0 && |LedgerOf(migs, 1)| == 1 && |LedgerOf(migs, 2)| == 2
  {
    var migs := TwoMigrations(plan);
    LedgerSize(migs, 1);
    LedgerSize(migs, 2);
    hide GapFree;
    assert LedgerOf(migs, 1) == LedgerOf(migs, 0)["0001_a" := "h1"];
    assert LedgerOf(migs, 2) == LedgerOf(migs, 1)["0002_b" := "h2"];
  }

  lemma TwoIds(plan: ChunkPlan)
    ensures var migs := TwoMigrations(plan);
            Moved(migs, 1, 0) == Report([], ["0001_a"]) && Moved(migs, 0, 2) == Report(["0001_a", "0002_b"], [])
  {
  }

  /** Turning away from a saved position: Up stops after the second migration's first segment, the
      first migration is rolled back, and Up reports success with both recorded, although the table
      the second one's first segment adds is gone. */
  lemma StalePositionSkipsASegment(plan: ChunkPlan, d: Data, allowDestructive: bool)
    requires plan.table in d && plan.table != "x"
    ensures var migs := TwoMigrations(plan);
            var start := State(d, map["0001_a" := "h1"], map[]);
            && Attempted(migs, Up, allowDestructive, start, Interrupted(plan, d), Err(Execution("up")))
            && Attempted(migs, To(0), allowDestructive, Interrupted(plan, d), TurnedAway(plan, d), Ok(Report([], ["0001_a"])))
            && Attempted(migs, Up, allowDestructive, TurnedAway(plan, d), ReportedDone(plan, d), Ok(Report(["0001_a", "0002_b"], [])))
            && !TakesUpWhatIsSaved(migs, 0, Interrupted(plan, d))
    ensures "x" !in ReportedDone(plan, d).data && "0002_b" in ReportedDone(plan, d).ledger
    ensures var whole := RunPlain(AddThenWalk(plan), TurnedAway(plan, d).data); whole.Some? && "x" in whole.value
  {
    var migs := TwoMigrations(plan);
    var start := State(d, map["0001_a" := "h1"], map[]);
    var one, back, done := Interrupted(plan, d), TurnedAway(plan, d), ReportedDone(plan, d);
    TwoLedgers(plan);
    TwoIds(plan);
    SecondIsWhole(plan, back.data);
    DoneWithoutX(plan, d);
    FirstAttempt(plan, d, allowDestructive);
    SecondAttempt(plan, d, allowDestructive);
    ThirdAttempt(plan, d, allowDestructive);
    TurnsAway(plan, d);
    hide Attempted, TakesUpWhatIsSaved, TwoMigrations, Moved, ReportedDone, RunPlain;
  }

  lemma DoneWithoutX(plan: ChunkPlan, d: Data)
    requires plan.table in d && plan.table != "x"
    ensures "x" !in ReportedDone(plan, d).data && "0002_b" in ReportedDone(plan, d).ledger
  {
    WalkStaysInTable(plan, None, d - {"x"});
    hide Walked;
  }

  lemma TurnsAway(plan: ChunkPlan, d: Data)
    ensures !TakesUpWhatIsSaved(TwoMigrations(plan), 0, Interrupted(plan, d))
  {
    var migs := TwoMigrations(plan);
    hide GapFree;
    assert Neighbour(migs, 1, migs[1].UpRun()) && migs[1].UpRun().ProgressKey() in Interrupted(plan, d).progress;
    assert NextRun(migs, 1, 0) == Some(migs[0].DownRun());
    assert migs[1].UpRun().down != migs[0].DownRun().down;
  }

  lemma SecondFits(plan: ChunkPlan, s: State)
    requires s.progress == map[] || s.progress == map["0002_b" := Progress("h2", 1, None, 0)]
    ensures AllFit(s, TwoMigrations(plan))
  {
    SecondSegments(plan);
    hide Segments, GapFree, AddThenWalk, FIRST_UP, FIRST_DOWN;
    assert FirstMigration().UpRun().Fits(s) && FirstMigration().DownRun().Fits(s) && SecondMigration(plan).UpRun().Fits(s);
    hide Run.Fits;
  }

  lemma FirstAttempt(plan: ChunkPlan, d: Data, allowDestructive: bool)
    requires plan.table in d && plan.table != "x"
    ensures Attempted(TwoMigrations(plan), Up, allowDestructive, State(d, map["0001_a" := "h1"], map[]), Interrupted(plan, d), Err(Execution("up")))
  {
    var migs := TwoMigrations(plan);
    var start := State(d, map["0001_a" := "h1"], map[]);
    TwoLedgers(plan);
    SecondFits(plan, start);
    SecondFits(plan, Interrupted(plan, d));
    InterruptedUp(plan, d);
    assert Interrupted(plan, d).ledger == start.ledger;
    FitsOne(plan, 1, Interrupted(plan, d));
    assert |migs| == 2 && NextRun(migs, 1, 2) == Some(migs[1].UpRun());
    hide AllFit, LedgerOf, Kept, Elsewhere, Run.Finish, Run.Fits, Goal, Reaches, TwoMigrations, NextRun, Interrupted;
    StandStill(migs, 2, start);
    Proceed(migs, 2, migs[1].UpRun(), start, start, Interrupted(plan, d));
    FailedOnTheWay(migs, Up, allowDestructive, start, Interrupted(plan, d), "up");
  }

  lemma FitsOne(plan: ChunkPlan, i: nat, s: State)
    requires i < 2 && AllFit(s, TwoMigrations(plan))
    ensures TwoMigrations(plan)[i].UpRun().Fits(s)
    ensures i == 0 ==> TwoMigrations(plan)[i].DownRun().Fits(s)
  {
  }

  lemma SecondAttempt(plan: ChunkPlan, d: Data, allowDestructive: bool)
    ensures Attempted(TwoMigrations(plan), To(0), allowDestructive, Interrupted(plan, d), TurnedAway(plan, d), Ok(Report([], ["0001_a"])))
  {
    var migs := TwoMigrations(plan);
    var one, back := Interrupted(plan, d), TurnedAway(plan, d);
    TwoLedgers(plan);
    TwoIds(plan);
    SecondFits(plan, one);
    FitsOne(plan, 0, one);
    RolledBackFirst(plan, d);
    FinishedElsewhere(migs[0].DownRun(), one);
    assert NextRun(migs, 1, 0) == Some(migs[0].DownRun());
    assert |one.ledger| == 1 && |back.ledger| == 0;
    hide AllFit, LedgerOf, Elsewhere, Run.Finish, Run.Fits, Goal, Reaches, Moved, OnTheWay, TwoMigrations, Attempted, NextRun;
    StandStill(migs, 0, one);
    Proceed(migs, 0, migs[0].DownRun(), one, one, back);
    DoneOnTheWay(migs, To(0), allowDestructive, one, back);
  }

  /** A run that finishes is kept, and touches only its own rows. */
  lemma FinishedIsKept(run: Run, s: State)
    requires run.Fits(s) && run.Finish(s).Some?
    ensures Kept(run, s, run.Finish(s).value) && Elsewhere(run, s, run.Finish(s).value) && run.Fits(run.Finish(s).value)
  {
    FinishedElsewhere(run, s);
    hide Run.Finish, Run.Fits, Elsewhere;
  }

  lemma ThirdSteps(plan: ChunkPlan, d: Data)
    requires plan.table in d && plan.table != "x"
    ensures var migs := TwoMigrations(plan);
            var back, between, done := TurnedAway(plan, d), TurnedAway(plan, d).(ledger := map["0001_a" := "h1"]), ReportedDone(plan, d);
            && AllFit(back, migs) && |migs| == 2 && !migs[0].destructive && !migs[1].destructive
            && Kept(migs[0].UpRun(), back, between) && Elsewhere(migs[0].UpRun(), back, between) && migs[0].UpRun().Fits(between)
            && Kept(migs[1].UpRun(), between, done) && Elsewhere(migs[1].UpRun(), between, done) && migs[1].UpRun().Fits(done)
            && migs[0].UpRun().Finish(back) == Some(between) && migs[1].UpRun().Finish(between) == Some(done)
            && NextRun(migs, 0, 2) == Some(migs[0].UpRun()) && NextRun(migs, 1, 2) == Some(migs[1].UpRun())
  {
    var migs := TwoMigrations(plan);
    var back, between := TurnedAway(plan, d), TurnedAway(plan, d).(ledger := map["0001_a" := "h1"]);
    SecondFits(plan, back);
    SecondFits(plan, between);
    FitsOne(plan, 0, back);
    FitsOne(plan, 1, between);
    UpAgain(plan, d);
    assert NextRun(migs, 0, 2) == Some(migs[0].UpRun()) && NextRun(migs, 1, 2) == Some(migs[1].UpRun()) && |migs| == 2;
    assert !migs[0].destructive && !migs[1].destructive;
    hide AllFit, Run.Finish, Run.Fits, Kept, Elsewhere, TwoMigrations, NextRun, TurnedAway, ReportedDone;
    FinishedIsKept(migs[0].UpRun(), back);
    FinishedIsKept(migs[1].UpRun(), between);
  }

  lemma TwoUps(migs: seq<Planned>, first: Run, second: Run, a: State, b: State, c: State)
    requires GapFree(migs) && |migs| == 2 && Prefix(a.ledger, migs) && AllFit(a, migs) && a.ledger == map[]
    requires NextRun(migs, 0, 2) == Some(first) && NextRun(migs, 1, 2) == Some(second)
    requires first.Finish(a) == Some(b) && second.Finish(b) == Some(c)
    requires Kept(first, a, b) && Elsewhere(first, a, b) && first.Fits(b)
    requires Kept(second, b, c) && Elsewhere(second, b, c) && second.Fits(c)
    ensures |c.ledger| == 2 && OnTheWay(migs, 2, a, c) && Goal(migs, 2, a) == Some(c)
  {
    UpIsUp(migs, 0, 2);
    UpIsUp(migs, 1, 2);
    hide AllFit, LedgerOf, Elsewhere, Run.Finish, Run.Fits, Goal, OnTheWay, NextRun, Kept, GapFree, Prefix;
    StandStill(migs, 2, a);
    Proceed(migs, 2, first, a, a, b);
    Proceed(migs, 2, second, a, b, c);
  }

  lemma UpIsUp(migs: seq<Planned>, a: nat, keep: nat)
    requires a < keep && NextRun(migs, a, keep).Some?
    ensures !NextRun(migs, a, keep).value.down
  {
  }

  lemma BackIsEmpty(plan: ChunkPlan, d: Data)
    ensures Prefix(TurnedAway(plan, d).ledger, TwoMigrations(plan)) && TurnedAway(plan, d).ledger == map[]
  {
    TwoLedgers(plan);
  }

  lemma ThirdAttempt(plan: ChunkPlan, d: Data, allowDestructive: bool)
    requires plan.table in d && plan.table != "x"
    ensures Attempted(TwoMigrations(plan), Up, allowDestructive, TurnedAway(plan, d), ReportedDone(plan, d), Ok(Report(["0001_a", "0002_b"], [])))
  {
    hide AllFit, LedgerOf, Elsewhere, Run.Finish, Run.Fits, Goal, Moved, OnTheWay, TwoMigrations, Attempted, NextRun, Kept, GapFree,
      Prefix, TurnedAway, ReportedDone, Planned.UpRun;
    var migs := TwoMigrations(plan);
    BackIsEmpty(plan, d);
    ThirdSteps(plan, d);
    TwoIds(plan);
    TwoUps(migs, migs[0].UpRun(), migs[1].UpRun(), TurnedAway(plan, d), TurnedAway(plan, d).(ledger := map["0001_a" := "h1"]), ReportedDone(plan, d));
    DoneOnTheWay(migs, Up, allowDestructive, TurnedAway(plan, d), ReportedDone(plan, d));
  }

  /** Success with nothing to run: Up stops inside the second migration, and moving to 1 reports
      success at once, although the second one's first segment is in the tables and its position saved. */
  lemma SuccessLeavesHalfAMigration(plan: ChunkPlan, d: Data, allowDestructive: bool)
    requires plan.table in d && plan.table != "x"
    ensures var migs := TwoMigrations(plan);
            var start, half := State(d, map["0001_a" := "h1"], map[]), Interrupted(plan, d);
            && Attempted(migs, Up, allowDestructive, start, half, Err(Execution("up")))
            && TakesUpWhatIsSaved(migs, 1, half) && !RunsSomething(migs, To(1), half)
            && Attempted(migs, To(1), allowDestructive, half, half, Ok(Report([], [])))
            && !NothingSaved(migs, half) && "x" in half.data && half.ledger == start.ledger
  {
    var migs := TwoMigrations(plan);
    var half := Interrupted(plan, d);
    FirstAttempt(plan, d, allowDestructive);
    TwoLedgers(plan);
    SecondFits(plan, half);
    assert migs[1].id in half.progress;
    assert |half.ledger| == 1 && NextRun(migs, 1, 1) == None;
    assert Moved(migs, 1, 1) == Report([], []) by {
      NothingMoved(migs, 1);
    }
    hide AllFit, LedgerOf, Goal, OnTheWay, TwoMigrations, Attempted, NextRun, Moved, Interrupted;
    StandStill(migs, 1, half);
    DoneOnTheWay(migs, To(1), allowDestructive, half, half);
  }

  lemma NothingMoved(migs: seq<Planned>, a: nat)
    requires a <= |migs|
    ensures Moved(migs, a, a) == Report([], [])
  {
  }
}
