/** Reconciling the ledger with the numbered migrations on disk. */
module Apply {
  import opened Wrappers
  import Digits
  import opened Sequences
  import opened Migration
  import opened Resume

  // ---------- numbered migrations ---------------------------------------------------

  /** A 32-bit unsigned parse: an optional `+`, then digits within range. */
  function ParseU32(s: string): Option<nat> {
    var digits := if s != "" && s[0] == '+' then s[1..] else s;
    if digits == "" || !Digits.AllDigits(digits) then None
    else if Digits.Value(digits) >= 0x1_0000_0000 then None
    else Some(Digits.Value(digits))
  }

  /** The number before an id's first underscore. */
  function Number(id: string): Option<nat> {
    var at := IndexOf(id, '_');
    if at == |id| then None else ParseU32(id[..at])
  }

  lemma {:induction false} IndexOfPrefix(s: string, t: string, c: char)
    requires IndexOf(s, c) < |s|
    ensures IndexOf(s + t, c) == IndexOf(s, c)
  {
    if s[0] != c {
      assert (s + t)[1..] == s[1..] + t;
      IndexOfPrefix(s[1..], t, c);
    }
  }

  lemma SuffixKeepsNumber(id: string, suffix: string)
    requires Number(id).Some?
    ensures Number(id + suffix) == Number(id)
  {
    IndexOfPrefix(id, suffix, '_');
    var at := IndexOf(id, '_');
    assert (id + suffix)[..at] == id[..at];
  }

  /** Only the same migration in the same direction shares a progress row. */
  lemma ProgressKeysNeverClash(a: Run, b: Run)
    requires Number(a.id).Some? && Number(b.id).Some?
    requires a.id == b.id || Number(a.id) != Number(b.id)
    ensures a.ProgressKey() == b.ProgressKey() <==> a.id == b.id && a.down == b.down
  {
    SuffixKeepsNumber(a.id, ":down");
    SuffixKeepsNumber(b.id, ":down");
    if a.down && b.down && a.id + ":down" == b.id + ":down" {
      assert (a.id + ":down")[..|a.id|] == a.id;
      assert (b.id + ":down")[..|b.id|] == b.id;
    }
  }

  datatype Planned = Planned(number: nat, id: string, up: seq<PlanUnit>, upHash: string,
                             destructive: bool, down: Option<seq<PlanUnit>>)
  {
    function UpRun(): Run { Run(id, upHash, false, up) }

    function DownRun(): Run
      requires down.Some?
    {
      Run(id, upHash, true, down.value)
    }
  }

  /** What loading guarantees: the ids number a gap-free sequence from 1. */
  predicate GapFree(migs: seq<Planned>) {
    forall i | 0 <= i < |migs| :: migs[i].number == i + 1 && Number(migs[i].id) == Some(i + 1)
  }

  ghost predicate Checked(migs: seq<Planned>) {
    forall i | 0 <= i < |migs| :: migs[i].UpRun().Checked() && (migs[i].down.Some? ==> migs[i].DownRun().Checked())
  }

  /** Every saved position lies inside the units it was saved for. */
  predicate AllFit(s: State, migs: seq<Planned>) {
    forall i | 0 <= i < |migs| :: migs[i].UpRun().Fits(s) && (migs[i].down.Some? ==> migs[i].DownRun().Fits(s))
  }

  // ---------- numbering check -------------------------------------------------------

  type Numbered = (nat, string)

  /** The stable sort by number. */
  function Insert(x: Numbered, sorted: seq<Numbered>): seq<Numbered> {
    if sorted == [] || x.0 <= sorted[0].0 then [x] + sorted else [sorted[0]] + Insert(x, sorted[1..])
  }

  function SortByNumber(xs: seq<Numbered>): seq<Numbered> {
    if xs == [] then [] else Insert(xs[0], SortByNumber(xs[1..]))
  }

  predicate Sorted(xs: seq<Numbered>) {
    forall i, j | 0 <= i < j < |xs| :: xs[i].0 <= xs[j].0
  }

  lemma {:induction false} InsertPermutes(x: Numbered, xs: seq<Numbered>)
    ensures multiset(Insert(x, xs)) == multiset(xs) + multiset{x}
  {
    if xs != [] {
      assert xs == [xs[0]] + xs[1..];
      if x.0 > xs[0].0 {
        InsertPermutes(x, xs[1..]);
      }
    }
  }

  /** What was inserted, and what was there, is all there is. */
  lemma {:induction false} InsertHolds(x: Numbered, xs: seq<Numbered>, i: nat)
    requires i < |Insert(x, xs)|
    ensures Insert(x, xs)[i] == x || Insert(x, xs)[i] in xs
  {
    if xs != [] && x.0 > xs[0].0 && i > 0 {
      InsertHolds(x, xs[1..], i - 1);
    }
  }

  lemma {:induction false} InsertSorts(x: Numbered, xs: seq<Numbered>)
    requires Sorted(xs)
    ensures Sorted(Insert(x, xs))
  {
    if xs != [] && x.0 > xs[0].0 {
      var rest := Insert(x, xs[1..]);
      InsertSorts(x, xs[1..]);
      forall i | 0 <= i < |rest| ensures xs[0].0 <= rest[i].0 {
        InsertHolds(x, xs[1..], i);
      }
    }
  }

  lemma {:induction false} SortByNumberSorts(xs: seq<Numbered>)
    ensures Sorted(SortByNumber(xs)) && multiset(SortByNumber(xs)) == multiset(xs)
  {
    if xs != [] {
      SortByNumberSorts(xs[1..]);
      InsertSorts(xs[0], SortByNumber(xs[1..]));
      InsertPermutes(xs[0], SortByNumber(xs[1..]));
      assert xs == [xs[0]] + xs[1..];
    }
  }

  /** The ids numbered 1, 2, 3 … in order. */
  predicate Sequence(xs: seq<Numbered>) {
    forall i | 0 <= i < |xs| :: xs[i].0 == i + 1
  }

  /** An arrangement numbered 1, 2, 3 … is the sorted one. */
  lemma {:induction false} OnlyArrangement(xs: seq<Numbered>, ys: seq<Numbered>)
    requires Sorted(xs) && Sequence(ys) && multiset(xs) == multiset(ys)
    ensures xs == ys
  {
    assert |multiset(xs)| == |xs| && |multiset(ys)| == |ys|;
    if xs != [] {
      var n := |ys| - 1;
      SameLast(xs, ys);
      assert xs == xs[..n] + [xs[n]] && ys == ys[..n] + [ys[n]];
      assert multiset(xs[..n]) == multiset(ys[..n]) by {
        hide Sorted, Sequence;
        Cancel(multiset(xs[..n]), multiset(ys[..n]), multiset{xs[n]});
      }
      OnlyArrangement(xs[..n], ys[..n]);
    }
  }

  lemma Cancel(a: multiset<Numbered>, b: multiset<Numbered>, c: multiset<Numbered>)
    requires a + c == b + c
    ensures a == b
  {
    assert forall x :: a[x] == (a + c)[x] - c[x];
  }

  lemma SameLast(xs: seq<Numbered>, ys: seq<Numbered>)
    requires Sorted(xs) && Sequence(ys) && multiset(xs) == multiset(ys) && |xs| == |ys| > 0
    ensures xs[|xs| - 1] == ys[|ys| - 1]
  {
    var n := |ys| - 1;
    assert ys[n] in multiset(xs) && xs[n] in multiset(ys);
    var i :| 0 <= i < |xs| && xs[i] == ys[n];
    var j :| 0 <= j < |ys| && ys[j] == xs[n];
  }

  /** Each id with its number, unless one has none. */
  function Tag(ids: seq<string>): Option<seq<Numbered>> {
    if ids == [] then Some([])
    else match Number(ids[0])
      case None => None
      case Some(n) =>
        match Tag(ids[1..])
        case None => None
        case Some(rest) => Some([(n, ids[0])] + rest)
  }

  ghost predicate Arranges(ys: seq<Numbered>, ids: seq<string>) {
    Tag(ids).Some? && multiset(ys) == multiset(Tag(ids).value) && Sequence(ys)
  }

  lemma NoNumber(ids: seq<string>)
    ensures Tag(ids).None? ==> forall ys :: !Arranges(ys, ids)
  {
  }

  lemma Numbering(numbered: seq<Numbered>, ids: seq<string>)
    requires Tag(ids).Some? && multiset(numbered) == multiset(Tag(ids).value) && Sequence(numbered)
    ensures Arranges(numbered, ids)
  {
  }

  lemma Misnumbered(numbered: seq<Numbered>, ids: seq<string>, i: nat)
    requires Sorted(numbered) && Tag(ids).Some? && multiset(numbered) == multiset(Tag(ids).value)
    requires i < |numbered| && numbered[i].0 != i + 1
    ensures forall ys :: !Arranges(ys, ids)
  {
    hide Sorted;
    forall ys | Arranges(ys, ids) ensures false {
      OnlyArrangement(numbered, ys);
    }
  }

  /** The ids are accepted exactly when some arrangement of them is numbered 1, 2, 3 …, and that
      arrangement is the order they are applied in. */
  method FromSources(ids: seq<string>) returns (out: Option<seq<Numbered>>)
    ensures out.Some? ==> Arranges(out.value, ids)
    ensures out.None? ==> forall ys :: !Arranges(ys, ids)
  {
    hide Sorted, SortByNumber, Tag, Arranges;
    var tagged := Tag(ids);
    NoNumber(ids);
    if tagged.None? {
      return None;
    }
    var numbered := SortByNumber(tagged.value);
    SortByNumberSorts(tagged.value);
    var i := 0;
    while i < |numbered|
      invariant i <= |numbered|
      invariant forall j | 0 <= j < i :: numbered[j].0 == j + 1
    {
      if numbered[i].0 != i + 1 {
        Misnumbered(numbered, ids, i);
        return None;
      }
      i := i + 1;
    }
    Numbering(numbered, ids);
    return Some(numbered);
  }

  // ---------- the ledger as a prefix ------------------------------------------------

  /** The ledger after the first `k` migrations. */
  function LedgerOf(migs: seq<Planned>, k: nat): map<string, string>
    requires k <= |migs|
  {
    if k == 0 then map[] else LedgerOf(migs, k - 1)[migs[k - 1].id := migs[k - 1].upHash]
  }

  /** The ledger records exactly the first `|ledger|` migrations, as they are on disk. */
  predicate Prefix(ledger: map<string, string>, migs: seq<Planned>) {
    |ledger| <= |migs| && ledger == LedgerOf(migs, |ledger|)
  }

  lemma IdsDiffer(migs: seq<Planned>, i: nat, j: nat)
    requires GapFree(migs) && i < |migs| && j < |migs| && i != j
    ensures migs[i].id != migs[j].id
  {
    assert Number(migs[i].id) == Some(i + 1) && Number(migs[j].id) == Some(j + 1);
  }

  lemma {:induction false} LedgerRowsOnDisk(migs: seq<Planned>, k: nat)
    requires k <= |migs|
    ensures forall id | id in LedgerOf(migs, k) :: exists i: nat :: OnDisk(migs, id, LedgerOf(migs, k)[id], i) && i < k
  {
    if k > 0 {
      LedgerRowsOnDisk(migs, k - 1);
      var before, now := LedgerOf(migs, k - 1), LedgerOf(migs, k);
      forall id | id in now ensures exists i: nat :: OnDisk(migs, id, now[id], i) && i < k {
        if id == migs[k - 1].id {
          assert OnDisk(migs, id, now[id], k - 1);
        } else {
          var i: nat :| OnDisk(migs, id, before[id], i) && i < k - 1;
          assert OnDisk(migs, id, now[id], i);
        }
      }
    }
  }

  lemma {:induction false} LedgerMembers(migs: seq<Planned>, k: nat)
    requires GapFree(migs) && k <= |migs|
    ensures forall i | 0 <= i < |migs| :: migs[i].id in LedgerOf(migs, k) <==> i < k
  {
    hide Number;
    if k > 0 {
      LedgerMembers(migs, k - 1);
      forall i | 0 <= i < |migs| && i != k - 1 ensures migs[i].id != migs[k - 1].id {
        IdsDiffer(migs, i, k - 1);
      }
    }
  }

  lemma {:induction false} LedgerSize(migs: seq<Planned>, k: nat)
    requires GapFree(migs) && k <= |migs|
    ensures |LedgerOf(migs, k)| == k
  {
    hide GapFree;
    if k > 0 {
      LedgerSize(migs, k - 1);
      LedgerMembers(migs, k - 1);
      assert LedgerOf(migs, k).Keys == LedgerOf(migs, k - 1).Keys + {migs[k - 1].id};
    }
  }

  lemma LedgerOfRows(migs: seq<Planned>, k: nat)
    requires GapFree(migs) && k <= |migs|
    ensures |LedgerOf(migs, k)| == k
    ensures forall id | id in LedgerOf(migs, k) :: exists i: nat :: OnDisk(migs, id, LedgerOf(migs, k)[id], i) && i < k
    ensures forall i | 0 <= i < |migs| :: migs[i].id in LedgerOf(migs, k) <==> i < k
  {
    hide GapFree, OnDisk;
    LedgerRowsOnDisk(migs, k);
    LedgerMembers(migs, k);
    LedgerSize(migs, k);
  }

  /** One more migration in the ledger, and one less. */
  lemma LedgerStep(migs: seq<Planned>, k: nat)
    requires GapFree(migs) && k < |migs|
    ensures |LedgerOf(migs, k)| == k && |LedgerOf(migs, k + 1)| == k + 1
    ensures LedgerOf(migs, k + 1) == LedgerOf(migs, k)[migs[k].id := migs[k].upHash]
    ensures LedgerOf(migs, k + 1) - {migs[k].id} == LedgerOf(migs, k)
  {
    hide GapFree;
    LedgerSize(migs, k);
    LedgerSize(migs, k + 1);
    LedgerMembers(migs, k);
  }

  ghost predicate Matched(migs: seq<Planned>, id: string, hash: string) {
    exists i: nat :: OnDisk(migs, id, hash, i)
  }

  predicate OnDisk(migs: seq<Planned>, id: string, hash: string, i: nat) {
    i < |migs| && migs[i].id == id && migs[i].upHash == hash
  }

  /** What the guards establish row by row: every recorded id is on disk with the same hash, and
      every migration below a recorded one is recorded. */
  ghost predicate Guarded(ledger: map<string, string>, migs: seq<Planned>) {
    && (forall id | id in ledger :: Matched(migs, id, ledger[id]))
    && (forall i, j | 0 <= i < j < |migs| && migs[j].id in ledger :: migs[i].id in ledger)
  }

  /** The guards accept exactly the prefixes. */
  lemma GuardedIsPrefix(ledger: map<string, string>, migs: seq<Planned>)
    requires GapFree(migs)
    ensures Guarded(ledger, migs) <==> Prefix(ledger, migs)
  {
    hide Number, LedgerOf;
    if Prefix(ledger, migs) {
      LedgerOfRows(migs, |ledger|);
    }
    if Guarded(ledger, migs) {
      var k := Recorded(ledger, migs, |migs|);
      GuardedRows(ledger, migs, k);
    }
  }

  lemma GuardedRows(ledger: map<string, string>, migs: seq<Planned>, k: nat)
    requires GapFree(migs) && Guarded(ledger, migs)
    requires k <= |migs| && forall i | 0 <= i < |migs| :: migs[i].id in ledger <==> i < k
    ensures |ledger| == k && ledger == LedgerOf(migs, k)
  {
    hide GapFree, LedgerOf;
    LedgerOfRows(migs, k);
    var prefix := LedgerOf(migs, k);
    forall id | id in ledger ensures id in prefix && ledger[id] == prefix[id] {
      var i: nat :| OnDisk(migs, id, ledger[id], i);
      var j: nat :| OnDisk(migs, id, prefix[id], j) && j < k;
      if i != j {
        IdsDiffer(migs, i, j);
      }
    }
    forall id | id in prefix ensures id in ledger {
      var j: nat :| OnDisk(migs, id, prefix[id], j) && j < k;
    }
    assert ledger == prefix;
  }

  lemma {:induction false} Recorded(ledger: map<string, string>, migs: seq<Planned>, n: nat) returns (k: nat)
    requires n <= |migs| && Guarded(ledger, migs)
    requires forall i | n <= i < |migs| :: migs[i].id !in ledger
    ensures k <= |migs| && forall i | 0 <= i < |migs| :: migs[i].id in ledger <==> i < k
  {
    if n == 0 || migs[n - 1].id in ledger {
      k := n;
    } else {
      k := Recorded(ledger, migs, n - 1);
    }
  }

  // ---------- what reconciling means ------------------------------------------------

  datatype Direction = Up | To(n: nat) | Down

  /** With the first `k` applied, the number of migrations that should remain applied. */
  function KeepMax(dir: Direction, migs: seq<Planned>, k: nat): nat {
    match dir
    case Up => |migs|
    case To(n) => n
    case Down => if k == 0 then 0 else k - 1
  }

  function Distance(a: nat, b: nat): nat { if a < b then b - a else a - b }

  /** From the first `k` applied: roll back to `keep` newest first, or forward to it oldest first. */
  ghost function Reconcile(migs: seq<Planned>, k: nat, keep: nat, s: State): Option<State>
    requires k <= |migs|
    decreases Distance(k, if keep < |migs| then keep else |migs|)
  {
    if k > keep then
      if migs[k - 1].down.None? then None
      else match migs[k - 1].DownRun().Finish(s)
        case None => None
        case Some(t) => Reconcile(migs, k - 1, keep, t)
    else if k < keep && k < |migs| then
      match migs[k].UpRun().Finish(s)
      case None => None
      case Some(t) => Reconcile(migs, k + 1, keep, t)
    else Some(s)
  }

  /** The state an undisturbed apply ends in. */
  ghost function Goal(migs: seq<Planned>, keep: nat, s: State): Option<State> {
    if |s.ledger| > |migs| then None else Reconcile(migs, |s.ledger|, keep, s)
  }

  /** Finishing a run that fits moves exactly its own ledger row. */
  lemma FinishedLedger(run: Run, s: State)
    requires run.Fits(s) && run.Finish(s).Some?
    ensures run.Finish(s).value.ledger == if run.down then s.ledger - {run.id} else s.ledger[run.id := run.hash]
  {
  }

  /** A run of one migration leaves every other run's saved position where it was. */
  lemma OthersStillFit(migs: seq<Planned>, i: nat, run: Run, s: State, t: State)
    requires GapFree(migs) && AllFit(s, migs) && i < |migs| && run.id == migs[i].id
    requires run == migs[i].UpRun() || (migs[i].down.Some? && run == migs[i].DownRun())
    requires Elsewhere(run, s, t) && run.Fits(t)
    ensures AllFit(t, migs)
  {
    forall j | 0 <= j < |migs|
      ensures migs[j].UpRun().Fits(t) && (migs[j].down.Some? ==> migs[j].DownRun().Fits(t))
    {
      assert Number(migs[i].id) == Some(i + 1) && Number(migs[j].id) == Some(j + 1);
      if run != migs[j].UpRun() {
        SavedElsewhere(run, migs[j].UpRun(), s, t);
      }
      if migs[j].down.Some? && run != migs[j].DownRun() {
        SavedElsewhere(run, migs[j].DownRun(), s, t);
      }
    }
  }

  lemma SavedElsewhere(run: Run, other: Run, s: State, t: State)
    requires Number(run.id).Some? && Number(other.id).Some?
    requires run.id == other.id || Number(run.id) != Number(other.id)
    requires Elsewhere(run, s, t) && !(run.id == other.id && run.down == other.down)
    ensures other.Saved(s) == other.Saved(t)
  {
    ProgressKeysNeverClash(run, other);
    var key := other.ProgressKey();
    assert key in s.progress <==> key in s.progress - {run.ProgressKey()};
    assert key in t.progress <==> key in t.progress - {run.ProgressKey()};
    if key in s.progress {
      assert (s.progress - {run.ProgressKey()})[key] == s.progress[key];
    }
  }

  /** One migration forward or back takes a prefix to the neighbouring prefix. */
  lemma NextPrefix(migs: seq<Planned>, run: Run, s: State)
    requires GapFree(migs) && Prefix(s.ledger, migs) && run.Fits(s) && run.Finish(s).Some?
    requires if run.down
             then |s.ledger| > 0 && migs[|s.ledger| - 1].down.Some? && run == migs[|s.ledger| - 1].DownRun()
             else |s.ledger| < |migs| && run == migs[|s.ledger|].UpRun()
    ensures var t := run.Finish(s).value;
            Prefix(t.ledger, migs) && |t.ledger| == |s.ledger| + (if run.down then -1 else 1)
  {
    hide Run.Finish, GapFree, LedgerOf;
    var k := |s.ledger|;
    FinishedLedger(run, s);
    LedgerStep(migs, if run.down then k - 1 else k);
  }

  // ---------- apply -----------------------------------------------------------------

  datatype Report = Report(applied: seq<string>, rolledBack: seq<string>)

  datatype Error =
    | Db
    | Execution(stage: string)
    | Tampered(id: string, recorded: string, current: string)
    | Destructive(id: string, applied: seq<string>)
    | NoDown(id: string)
    | Order(id: string)

  datatype ApplyResult = Ok(report: Report) | Err(error: Error)

  /** The first migration with this id. */
  function Find(migs: seq<Planned>, id: string): (i: Option<nat>)
    ensures i.Some? ==> i.value < |migs| && migs[i.value].id == id
    ensures i.None? ==> forall j | 0 <= j < |migs| :: migs[j].id != id
  {
    if migs == [] then None
    else if migs[0].id == id then Some(0)
    else match Find(migs[1..], id)
      case None => None
      case Some(i) => Some(i + 1)
  }

  /** The highest applied number below `below`, or 0 when there is none (numbers start at 1). */
  function MaxApplied(migs: seq<Planned>, applied: set<string>, below: nat): nat {
    if migs == [] then 0
    else
      var rest := MaxApplied(migs[1..], applied, below);
      if migs[0].id in applied && migs[0].number < below && migs[0].number > rest then migs[0].number else rest
  }

  lemma {:induction false} MaxAppliedIsMax(migs: seq<Planned>, applied: set<string>, below: nat)
    ensures var top := MaxApplied(migs, applied, below);
            && (forall i | 0 <= i < |migs| && migs[i].id in applied && migs[i].number < below :: migs[i].number <= top)
            && (top > 0 ==> exists i :: 0 <= i < |migs| && migs[i].id in applied && migs[i].number == top < below)
  {
    if migs != [] {
      MaxAppliedIsMax(migs[1..], applied, below);
      var rest := MaxApplied(migs[1..], applied, below);
      assert forall i | 1 <= i < |migs| :: migs[i] == migs[1..][i - 1];
      if rest > 0 {
        var i :| 0 <= i < |migs[1..]| && migs[1..][i].id in applied && migs[1..][i].number == rest < below;
        assert migs[i + 1].id in applied && migs[i + 1].number == rest;
      }
    }
  }

  /** In a prefix, the highest applied number below a bound is read off the length. */
  lemma MaxAppliedOfPrefix(migs: seq<Planned>, ledger: map<string, string>, below: nat)
    requires GapFree(migs) && Prefix(ledger, migs)
    ensures MaxApplied(migs, ledger.Keys, below) ==
            if below == 0 then 0 else if |ledger| < below then |ledger| else below - 1
  {
    hide Number;
    LedgerOfRows(migs, |ledger|);
    MaxAppliedIsMax(migs, ledger.Keys, below);
    var n := if below == 0 then 0 else if |ledger| < below then |ledger| else below - 1;
    if n > 0 {
      assert migs[n - 1].id in ledger && migs[n - 1].number == n;
    }
  }

  /** The ledger's rows, in some order. */
  predicate RowsOf(rows: seq<(string, string)>, ledger: map<string, string>) {
    && (forall i | 0 <= i < |rows| :: rows[i].0 in ledger && ledger[rows[i].0] == rows[i].1)
    && (forall id | id in ledger :: exists i :: 0 <= i < |rows| && rows[i].0 == id)
  }

  method ReadLedger(backend: Backend) returns (ok: bool, rows: seq<(string, string)>)
    modifies backend`failures
    ensures backend.failures == old(backend.failures) + if ok then 0 else 1
    ensures ok ==> RowsOf(rows, backend.db.ledger)
  {
    rows := *;
    ok := RowsOf(rows, backend.db.ledger);
    var fault := backend.Faulty();
    if !ok && !fault {
      backend.failures := backend.failures + 1;
    }
    ok := ok && !fault;
  }

  lemma MatchedHere(migs: seq<Planned>, id: string, hash: string, i: nat)
    requires GapFree(migs) && i < |migs| && migs[i].id == id
    ensures Matched(migs, id, hash) <==> migs[i].upHash == hash
  {
    hide GapFree;
    if migs[i].upHash == hash {
      assert OnDisk(migs, id, hash, i);
    }
    forall n: nat | OnDisk(migs, id, hash, n) ensures n == i {
      if n != i {
        IdsDiffer(migs, n, i);
      }
    }
  }

  lemma NotMatched(migs: seq<Planned>, id: string, hash: string)
    requires forall j | 0 <= j < |migs| :: migs[j].id != id
    ensures !Matched(migs, id, hash)
    ensures forall ledger: map<string, string> :: id in ledger ==> OutOfOrder(migs, ledger, Order(id))
  {
  }

  lemma ListedHere(migs: seq<Planned>, ledger: map<string, string>, i: nat)
    requires i < |migs| && migs[i].id in ledger && ledger[migs[i].id] != migs[i].upHash
    ensures TamperListed(migs, ledger, Tampered(migs[i].id, ledger[migs[i].id], migs[i].upHash))
  {
  }

  lemma RowsListed(migs: seq<Planned>, rows: seq<(string, string)>, ledger: map<string, string>)
    requires RowsOf(rows, ledger) && forall j | 0 <= j < |rows| :: Matched(migs, rows[j].0, rows[j].1)
    ensures forall id | id in ledger :: Matched(migs, id, ledger[id])
  {
    hide Matched;
    forall id | id in ledger ensures Matched(migs, id, ledger[id]) {
      var j :| 0 <= j < |rows| && rows[j].0 == id;
    }
  }

  /** The database has the migration under this hash: in the ledger, or in a saved position. */
  predicate HasHash(m: Planned, s: State, hash: string) {
    || (m.id in s.ledger && s.ledger[m.id] == hash)
    || (m.id in s.progress && s.progress[m.id].hash == hash)
    || (m.id + ":down" in s.progress && s.progress[m.id + ":down"].hash == hash)
  }

  /** The error names a migration, its hash on disk and another one that the database has for it. */
  predicate TamperSeen(migs: seq<Planned>, s: State, error: Error)
    requires error.Tampered?
  {
    && error.recorded != error.current
    && exists i :: 0 <= i < |migs| && migs[i].id == error.id && migs[i].upHash == error.current && HasHash(migs[i], s, error.recorded)
  }

  predicate TamperListed(migs: seq<Planned>, ledger: map<string, string>, error: Error)
    requires error.Tampered?
  {
    && error.recorded != error.current && error.id in ledger && ledger[error.id] == error.recorded
    && exists i :: 0 <= i < |migs| && migs[i].id == error.id && migs[i].upHash == error.current
  }

  lemma ListedIsSeen(migs: seq<Planned>, s: State, error: Error)
    requires error.Tampered? && TamperListed(migs, s.ledger, error)
    ensures TamperSeen(migs, s, error)
  {
    var i :| 0 <= i < |migs| && migs[i].id == error.id && migs[i].upHash == error.current;
    assert HasHash(migs[i], s, error.recorded);
  }

  /** The error names a recorded migration that is not on disk, or one passed over: not recorded,
      although a later one is. */
  predicate OutOfOrder(migs: seq<Planned>, ledger: map<string, string>, error: Error)
    requires error.Order?
  {
    || (error.id in ledger && forall i | 0 <= i < |migs| :: migs[i].id != error.id)
    || exists i, j :: 0 <= i < j < |migs| && migs[i].id == error.id && error.id !in ledger && migs[j].id in ledger
  }

  /** Whether the ledger is what the files say it may be. */
  method Guard(migs: seq<Planned>, rows: seq<(string, string)>, ghost ledger: map<string, string>)
    returns (error: Option<Error>)
    requires GapFree(migs) && RowsOf(rows, ledger)
    ensures error.None? <==> Prefix(ledger, migs)
    ensures error.Some? ==> error.value.Tampered? || error.value.Order?
    ensures error.Some? && error.value.Tampered? ==> TamperListed(migs, ledger, error.value)
    ensures error.Some? && error.value.Order? ==> OutOfOrder(migs, ledger, error.value)
  {
    hide Number, LedgerOf, Matched, OnDisk, MaxApplied, OutOfOrder, TamperListed, Prefix;
    GuardedIsPrefix(ledger, migs);
    var applied := set r | r in rows :: r.0;
    assert applied == ledger.Keys;
    var i := 0;
    while i < |rows|
      invariant i <= |rows|
      invariant forall j | 0 <= j < i :: Matched(migs, rows[j].0, rows[j].1)
    {
      var found := Find(migs, rows[i].0);
      if found.None? {
        NotMatched(migs, rows[i].0, rows[i].1);
        return Some(Order(rows[i].0));
      }
      if migs[found.value].upHash != rows[i].1 {
        MatchedHere(migs, rows[i].0, rows[i].1, found.value);
        ListedHere(migs, ledger, found.value);
        return Some(Tampered(rows[i].0, rows[i].1, migs[found.value].upHash));
      }
      MatchedHere(migs, rows[i].0, rows[i].1, found.value);
      i := i + 1;
    }
    RowsListed(migs, rows, ledger);
    var top := MaxApplied(migs, applied, |migs| + 1);
    MaxAppliedIsMax(migs, applied, |migs| + 1);
    i := 0;
    while i < |migs|
      invariant 0 <= i <= |migs|
      invariant forall j | 0 <= j < i && migs[j].number < top :: migs[j].id in ledger
    {
      if migs[i].number < top && migs[i].id !in applied {
        PassedOver(migs, ledger, i, top);
        return Some(Order(migs[i].id));
      }
      i := i + 1;
    }
    return None;
  }

  lemma PassedOver(migs: seq<Planned>, ledger: map<string, string>, i: nat, top: nat)
    requires GapFree(migs) && i < |migs| && migs[i].id !in ledger && migs[i].number < top
    requires exists j :: 0 <= j < |migs| && migs[j].id in ledger && migs[j].number == top
    ensures OutOfOrder(migs, ledger, Order(migs[i].id))
  {
    var j :| 0 <= j < |migs| && migs[j].id in ledger && migs[j].number == top;
    assert i < j;
  }

  function IdsUp(migs: seq<Planned>, from: nat, to: nat): seq<string>
    requires from <= to <= |migs|
  {
    seq(to - from, i requires 0 <= i < to - from => migs[from + i].id)
  }

  function IdsDown(migs: seq<Planned>, from: nat, to: nat): seq<string>
    requires to <= from <= |migs|
  {
    seq(from - to, i requires 0 <= i < from - to => migs[from - 1 - i].id)
  }

  /** The report of moving from the first `from` applied to the first `to`. */
  function Moved(migs: seq<Planned>, from: nat, to: nat): Report {
    if from <= to <= |migs| then Report(IdsUp(migs, from, to), [])
    else if to <= from <= |migs| then Report([], IdsDown(migs, from, to))
    else Report([], [])
  }

  /** What an apply towards `keep` runs first when the first `a` are applied. */
  function NextRun(migs: seq<Planned>, a: nat, keep: nat): Option<Run> {
    if a > |migs| then None
    else if a > keep then (if migs[a - 1].down.Some? then Some(migs[a - 1].DownRun()) else None)
    else if a < keep && a < |migs| then Some(migs[a].UpRun())
    else None
  }

  /** `t` is what whole migrations from `s` lead to, with at most the next one under way. */
  ghost predicate Reaches(migs: seq<Planned>, keep: nat, s: State, t: State) {
    match Goal(migs, |t.ledger|, s)
    case None => false
    case Some(u) =>
      t == u || match NextRun(migs, |t.ledger|, keep)
                case None => false
                case Some(run) => UnderWay(run, u, t) && Elsewhere(run, u, t)
  }

  /** What an attempt from `s` leaves in `t`: still a prefix, on the way to `keep` and not past it,
      reached by whole migrations, with the same state ahead. */
  ghost predicate OnTheWay(migs: seq<Planned>, keep: nat, s: State, t: State) {
    && Prefix(s.ledger, migs) && Prefix(t.ledger, migs) && AllFit(t, migs)
    && (|s.ledger| > keep ==> keep <= |t.ledger| <= |s.ledger|)
    && (|s.ledger| <= keep ==> |s.ledger| <= |t.ledger| <= keep)
    && Goal(migs, keep, t) == Goal(migs, keep, s) && Reaches(migs, keep, s, t)
  }

  /** Going one migration further goes on from where the shorter way ends. */
  lemma {:induction false} ReconcileUp(migs: seq<Planned>, k: nat, a: nat, s: State)
    requires k <= a < |migs|
    ensures Reconcile(migs, k, a + 1, s) ==
            match Reconcile(migs, k, a, s) case None => None case Some(u) => migs[a].UpRun().Finish(u)
    decreases Distance(k, a)
  {
    hide Run.Finish;
    if k < a && migs[k].UpRun().Finish(s).Some? {
      ReconcileUp(migs, k + 1, a, migs[k].UpRun().Finish(s).value);
    }
  }

  lemma {:induction false} ReconcileDown(migs: seq<Planned>, k: nat, a: nat, s: State)
    requires 0 < a <= k <= |migs|
    ensures Reconcile(migs, k, a - 1, s) ==
            if migs[a - 1].down.None? then (match Reconcile(migs, k, a, s) case None => None case Some(u) => None)
            else match Reconcile(migs, k, a, s) case None => None case Some(u) => migs[a - 1].DownRun().Finish(u)
    decreases Distance(k, a)
  {
    hide Run.Finish;
    if k > a && migs[k - 1].down.Some? && migs[k - 1].DownRun().Finish(s).Some? {
      ReconcileDown(migs, k - 1, a, migs[k - 1].DownRun().Finish(s).value);
    }
  }

  /** What a migration run to completion or interrupted leaves of the state it started in. */
  lemma StepKeepsGoal(migs: seq<Planned>, keep: nat, run: Run, s: State, t: State)
    requires GapFree(migs) && Prefix(s.ledger, migs) && AllFit(s, migs)
    requires NextRun(migs, |s.ledger|, keep) == Some(run)
    requires Kept(run, s, t) && Elsewhere(run, s, t) && (run.Fits(s) ==> run.Fits(t))
    ensures Prefix(t.ledger, migs) && AllFit(t, migs) && Goal(migs, keep, t) == Goal(migs, keep, s)
    ensures run.Finish(s) == Some(t) ==> |t.ledger| == |s.ledger| + (if run.down then -1 else 1)
    ensures run.Finish(s) != Some(t) ==> UnderWay(run, s, t)
  {
    hide Run.Finish, Number, LedgerOf;
    OthersStillFit(migs, if run.down then |s.ledger| - 1 else |s.ledger|, run, s, t);
    if run.Finish(s) == Some(t) {
      NextPrefix(migs, run, s);
    }
  }

  lemma GoalStep(migs: seq<Planned>, keep: nat, run: Run, start: State, s: State)
    requires |start.ledger| <= |migs| && Goal(migs, |s.ledger|, start) == Some(s)
    requires NextRun(migs, |s.ledger|, keep) == Some(run)
    requires if run.down then |s.ledger| <= |start.ledger| else |start.ledger| <= |s.ledger|
    ensures run.down ==> |s.ledger| > 0 && Goal(migs, |s.ledger| - 1, start) == run.Finish(s)
    ensures !run.down ==> Goal(migs, |s.ledger| + 1, start) == run.Finish(s)
  {
    hide Run.Finish, Reconcile;
    if run.down {
      ReconcileDown(migs, |start.ledger|, |s.ledger|, start);
    } else {
      ReconcileUp(migs, |start.ledger|, |s.ledger|, start);
    }
  }

  /** One more migration, from where whole migrations have led. */
  lemma Proceed(migs: seq<Planned>, keep: nat, run: Run, start: State, s: State, t: State)
    requires GapFree(migs) && OnTheWay(migs, keep, start, s) && Goal(migs, |s.ledger|, start) == Some(s)
    requires |s.ledger| <= |migs| && |start.ledger| <= |migs| && NextRun(migs, |s.ledger|, keep) == Some(run)
    requires Kept(run, s, t) && Elsewhere(run, s, t) && (run.Fits(s) ==> run.Fits(t))
    ensures OnTheWay(migs, keep, start, t)
    ensures run.Finish(s) == Some(t) ==>
              |t.ledger| == |s.ledger| + (if run.down then -1 else 1) && Goal(migs, |t.ledger|, start) == Some(t)
    ensures run.Finish(s) != Some(t) ==> t.ledger == s.ledger
  {
    hide AllFit, Prefix, Run.Fits, Reconcile, Goal, GapFree, Run.Finish, Elsewhere, OnTheWay;
    WayKept(migs, keep, start, s);
    StepKeepsGoal(migs, keep, run, s, t);
    GoalStep(migs, keep, run, start, s);
    if run.Finish(s) != Some(t) {
      SameLedger(run, s, t);
      ReachesUnderWay(migs, keep, run, start, s, t);
    }
    NowOnTheWay(migs, keep, start, s, t, run.down);
  }

  lemma WayKept(migs: seq<Planned>, keep: nat, start: State, s: State)
    requires OnTheWay(migs, keep, start, s)
    ensures Prefix(s.ledger, migs) && AllFit(s, migs)
    ensures if |start.ledger| > keep then keep <= |s.ledger| <= |start.ledger| else |start.ledger| <= |s.ledger| <= keep
  {
    hide Prefix, AllFit, Goal, Reaches;
  }

  lemma ReachesUnderWay(migs: seq<Planned>, keep: nat, run: Run, start: State, s: State, t: State)
    requires Goal(migs, |s.ledger|, start) == Some(s) && NextRun(migs, |s.ledger|, keep) == Some(run)
    requires t.ledger == s.ledger && UnderWay(run, s, t) && Elsewhere(run, s, t)
    ensures Reaches(migs, keep, start, t)
  {
    hide Goal, UnderWay, Elsewhere;
  }

  lemma NowOnTheWay(migs: seq<Planned>, keep: nat, start: State, s: State, t: State, down: bool)
    requires OnTheWay(migs, keep, start, s) && Prefix(t.ledger, migs) && AllFit(t, migs)
    requires Goal(migs, keep, t) == Goal(migs, keep, s)
    requires Reaches(migs, keep, start, t) || Goal(migs, |t.ledger|, start) == Some(t)
    requires if down then |s.ledger| > keep else |s.ledger| < keep
    requires |t.ledger| == |s.ledger| || |t.ledger| == |s.ledger| + (if down then -1 else 1)
    ensures OnTheWay(migs, keep, start, t)
  {
    hide Goal, Prefix, AllFit;
  }

  /** Having done nothing is being on the way. */
  lemma StandStill(migs: seq<Planned>, keep: nat, s: State)
    requires Prefix(s.ledger, migs) && AllFit(s, migs)
    ensures OnTheWay(migs, keep, s, s) && Goal(migs, |s.ledger|, s) == Some(s) && |s.ledger| <= |migs|
  {
    hide AllFit, LedgerOf;
  }

  /** An attempt whose next run cannot end has no end. */
  lemma Stuck(migs: seq<Planned>, keep: nat, start: State, s: State)
    requires OnTheWay(migs, keep, start, s) && 0 < |s.ledger| + 1 <= |migs| + 1
    ensures |s.ledger| > keep && migs[|s.ledger| - 1].down.None? ==> Goal(migs, keep, start).None?
    ensures NextRun(migs, |s.ledger|, keep).Some? && NextRun(migs, |s.ledger|, keep).value.Finish(s).None? ==>
              Goal(migs, keep, start).None?
  {
    hide Run.Finish, Prefix, AllFit, Reaches;
  }

  lemma SameLedger(run: Run, s: State, t: State)
    requires UnderWay(run, s, t)
    ensures t.ledger == s.ledger
  {
  }

  lemma PrefixIndexes(migs: seq<Planned>, ledger: map<string, string>)
    requires GapFree(migs) && Prefix(ledger, migs)
    ensures |ledger| <= |migs| && forall i | 0 <= i < |migs| :: migs[i].id in ledger <==> i < |ledger|
  {
    LedgerOfRows(migs, |ledger|);
  }

  lemma GoalReached(migs: seq<Planned>, keep: nat, s: State)
    requires |s.ledger| == if keep < |migs| then keep else |migs|
    ensures Goal(migs, keep, s) == Some(s)
  {
  }

  lemma SavedTamper(migs: seq<Planned>, i: nat, run: Run, s: State, r: Outcome)
    requires i < |migs| && (run == migs[i].UpRun() || (migs[i].down.Some? && run == migs[i].DownRun()))
    requires TamperOf(run, s, r)
    ensures TamperSeen(migs, s, Tampered(r.id, r.applied, r.current))
  {
    assert HasHash(migs[i], s, r.applied);
  }

  /** Back to `keep`, the last applied first. */
  method RollBack(backend: Backend, migs: seq<Planned>, applied: set<string>, keep: nat)
    returns (error: Option<Error>, rolledBack: seq<string>)
    requires GapFree(migs) && Checked(migs) && AllFit(backend.db, migs)
    requires Prefix(backend.db.ledger, migs) && applied == backend.db.ledger.Keys
    modifies backend
    ensures error.None? <==> backend.failures == old(backend.failures) && |backend.db.ledger| <= keep
    ensures backend.failures == old(backend.failures) && Goal(migs, keep, old(backend.db)).Some? ==> error.None?
    ensures backend.failures >= old(backend.failures)
    ensures OnTheWay(migs, keep, old(backend.db), backend.db) && |backend.db.ledger| <= |old(backend.db).ledger| <= |migs|
    ensures |old(backend.db).ledger| <= keep ==> backend.db == old(backend.db)
    ensures rolledBack == IdsDown(migs, |old(backend.db).ledger|, |backend.db.ledger|) || error.Some?
    ensures error.None? ==> |backend.db.ledger| <= keep
    ensures error.Some? && error.value.NoDown? ==>
              && 0 < |backend.db.ledger| <= |migs|
              && migs[|backend.db.ledger| - 1].down.None? && error.value.id == migs[|backend.db.ledger| - 1].id
    ensures error.Some? ==> error.value.NoDown? || error.value.Execution? || error.value.Tampered?
    ensures error.Some? && error.value.Tampered? ==> TamperSeen(migs, backend.db, error.value)
  {
    hide Run.Finish, Number, LedgerOf, AllFit, Goal, Prefix, Run.Fits, Kept, Elsewhere, OnTheWay, Reaches;
    PrefixIndexes(migs, backend.db.ledger);
    StandStill(migs, keep, backend.db);
    ghost var start := backend.db;
    ghost var k := |start.ledger|;
    rolledBack := [];
    var i := |migs|;
    while i > 0
      invariant 0 <= i <= |migs|
      invariant OnTheWay(migs, keep, start, backend.db) && Goal(migs, |backend.db.ledger|, start) == Some(backend.db)
      invariant |backend.db.ledger| == if k <= keep then k else if i < keep then keep else if i < k then i else k
      invariant rolledBack == IdsDown(migs, k, |backend.db.ledger|) && backend.failures == old(backend.failures)
    {
      i := i - 1;
      var m := migs[i];
      if m.id in applied && m.number > keep {
        Stuck(migs, keep, start, backend.db);
        if m.down.None? {
          return Some(NoDown(m.id)), rolledBack;
        }
        ghost var before := backend.db;
        var outcome := backend.RunMigration(m.DownRun());
        Proceed(migs, keep, m.DownRun(), start, before, backend.db);
        if outcome.Tamper? {
          SavedTamper(migs, i, m.DownRun(), backend.db, outcome);
          return Some(Tampered(outcome.id, outcome.applied, outcome.current)), rolledBack;
        }
        if outcome.Failed? {
          return Some(Execution("down")), rolledBack;
        }
        rolledBack := rolledBack + [m.id];
      }
    }
    error := None;
  }

  lemma NoIdsYet(migs: seq<Planned>, k: nat)
    requires k <= |migs|
    ensures IdsUp(migs, k, k) == []
  {
  }

  lemma NextUp(migs: seq<Planned>, i: nat, keep: nat, k: nat)
    requires Checked(migs) && k <= i < |migs| && i < keep
    ensures migs[i].UpRun().Checked() && NextRun(migs, i, keep) == Some(migs[i].UpRun()) && !migs[i].UpRun().down
    ensures IdsUp(migs, k, i + 1) == IdsUp(migs, k, i) + [migs[i].id]
  {
  }

  /** Nothing to move forward over is destructive. */
  predicate NoneDestructive(migs: seq<Planned>, from: nat, keep: nat) {
    forall i | from <= i < keep && i < |migs| :: !migs[i].destructive
  }

  /** On to `keep`, in order of number. */
  method RollForward(backend: Backend, migs: seq<Planned>, applied: set<string>, keep: nat, allowDestructive: bool)
    returns (error: Option<Error>, moved: seq<string>)
    requires GapFree(migs) && Checked(migs) && AllFit(backend.db, migs) && Prefix(backend.db.ledger, migs)
    requires forall i | 0 <= i < |migs| && migs[i].number <= keep :: migs[i].id in applied <==> i < |backend.db.ledger|
    requires |backend.db.ledger| <= keep
    modifies backend
    ensures error.None? ==> backend.failures == old(backend.failures)
    ensures && backend.failures == old(backend.failures) && Goal(migs, keep, old(backend.db)).Some?
            && (allowDestructive || NoneDestructive(migs, |old(backend.db).ledger|, keep))
            ==> error.None?
    ensures backend.failures >= old(backend.failures)
    ensures OnTheWay(migs, keep, old(backend.db), backend.db) && |old(backend.db).ledger| <= |backend.db.ledger| <= |migs|
    ensures |old(backend.db).ledger| == keep ==> backend.db == old(backend.db)
    ensures error.None? || error.value.Destructive? ==> moved == IdsUp(migs, |old(backend.db).ledger|, |backend.db.ledger|)
    ensures error.None? ==> |backend.db.ledger| == if keep < |migs| then keep else |migs|
    ensures !allowDestructive ==> forall i | |old(backend.db).ledger| <= i < |backend.db.ledger| :: !migs[i].destructive
    ensures error.Some? && error.value.Destructive? ==>
              && |backend.db.ledger| < |migs| && |backend.db.ledger| < keep && migs[|backend.db.ledger|].destructive
              && error.value == Destructive(migs[|backend.db.ledger|].id, moved)
    ensures error.Some? ==> error.value.Destructive? || error.value.Execution? || error.value.Tampered?
    ensures error.Some? && error.value.Tampered? ==> TamperSeen(migs, backend.db, error.value)
  {
    hide Run.Finish, Number, LedgerOf, AllFit, Goal, Prefix, Run.Fits, Kept, Elsewhere, OnTheWay, Reaches, Checked, Run.Checked, NextRun, IdsUp, Planned.UpRun;
    PrefixIndexes(migs, backend.db.ledger);
    StandStill(migs, keep, backend.db);
    ghost var start := backend.db;
    ghost var k := |start.ledger|;
    moved := [];
    NoIdsYet(migs, k);
    var i := 0;
    while i < |migs|
      invariant 0 <= i <= |migs|
      invariant OnTheWay(migs, keep, start, backend.db) && Goal(migs, |backend.db.ledger|, start) == Some(backend.db)
      invariant |backend.db.ledger| == if i <= k then k else if i <= keep then i else keep
      invariant moved == IdsUp(migs, k, |backend.db.ledger|) && backend.failures == old(backend.failures)
      invariant !allowDestructive ==> forall j | k <= j < |backend.db.ledger| :: !migs[j].destructive
    {
      var m := migs[i];
      if m.id !in applied && m.number <= keep {
        if m.destructive && !allowDestructive {
          return Some(Destructive(m.id, moved)), moved;
        }
        ghost var before := backend.db;
        NextUp(migs, i, keep, k);
        Stuck(migs, keep, start, backend.db);
        var outcome := backend.RunMigration(m.UpRun());
        Proceed(migs, keep, m.UpRun(), start, before, backend.db);
        if outcome.Tamper? {
          SavedTamper(migs, i, m.UpRun(), backend.db, outcome);
          return Some(Tampered(outcome.id, outcome.applied, outcome.current)), moved;
        }
        if outcome.Failed? {
          return Some(Execution("up")), moved;
        }
        moved := moved + [m.id];
      }
      i := i + 1;
    }
    error := None;
  }

  /** What a result says about a move from the first `from` applied to the first `to`: the report
      lists what moved in order, an unacknowledged destructive migration never went forward, and a
      refusal names the migration it stopped at. */
  predicate Told(migs: seq<Planned>, allowDestructive: bool, from: nat, to: nat, r: ApplyResult) {
    && (!allowDestructive ==> forall i | from <= i < to && i < |migs| :: !migs[i].destructive)
    && (r.Ok? ==> r.report == Moved(migs, from, to))
    && (r.Err? && r.error.Destructive? ==>
          from <= to < |migs| && migs[to].destructive && r.error == Destructive(migs[to].id, IdsUp(migs, from, to)))
    && (r.Err? && r.error.NoDown? ==>
          0 < to <= from && to <= |migs| && migs[to - 1].down.None? && r.error == NoDown(migs[to - 1].id))
  }

  /** One attempt at `dir` from `s`, ending in `t` with result `r`. */
  ghost predicate Attempted(migs: seq<Planned>, dir: Direction, allowDestructive: bool, s: State, t: State, r: ApplyResult) {
    var keep := KeepMax(dir, migs, |s.ledger|);
    && (!Prefix(s.ledger, migs) ==> r.Err? && t == s)
    && (Prefix(s.ledger, migs) ==> OnTheWay(migs, keep, s, t))
    && (r.Ok? ==> Goal(migs, keep, s) == Some(t) && |t.ledger| == if keep < |migs| then keep else |migs|)
    && Told(migs, allowDestructive, |s.ledger|, |t.ledger|, r)
    && (r.Err? && r.error.Tampered? ==> TamperSeen(migs, t, r.error))
    && (r.Err? && r.error.Order? ==> OutOfOrder(migs, s.ledger, r.error))
  }

  /** Where an attempt ends: `Up` with every migration applied, `To(n)` with the first `n` or all there
      are, `Down` with one fewer than before; and a failed one between there and where it started. */
  lemma EndsAtItsTarget(migs: seq<Planned>, dir: Direction, allowDestructive: bool, s: State, t: State, r: ApplyResult)
    requires Attempted(migs, dir, allowDestructive, s, t, r)
    ensures r.Ok? ==>
              t.ledger == LedgerOf(migs, match dir
                                         case Up => |migs|
                                         case To(n) => if n < |migs| then n else |migs|
                                         case Down => if s.ledger == map[] then 0 else |s.ledger| - 1)
    ensures r.Err? && !Prefix(s.ledger, migs) ==> t == s
    ensures r.Err? && Prefix(s.ledger, migs) ==>
              && |t.ledger| <= |migs| && t.ledger == LedgerOf(migs, |t.ledger|)
              && match dir
                 case Up => |s.ledger| <= |t.ledger|
                 case To(n) => if n < |s.ledger| then n <= |t.ledger| <= |s.ledger| else |s.ledger| <= |t.ledger| <= n
                 case Down => |s.ledger| - 1 <= |t.ledger| <= |s.ledger|
  {
    hide Told, Goal, Reaches, AllFit;
    if r.Ok? {
      assert Prefix(t.ledger, migs);
    }
  }

  lemma ToldOfNothing(migs: seq<Planned>, allowDestructive: bool, at: nat)
    ensures forall e: Error :: !e.Destructive? && !e.NoDown? ==> Told(migs, allowDestructive, at, at, Err(e))
  {
  }

  lemma ToldOfRollBack(migs: seq<Planned>, allowDestructive: bool, from: nat, to: nat, error: Error)
    requires to <= from <= |migs| && (error.NoDown? || error.Execution? || error.Tampered?)
    requires error.NoDown? ==> 0 < to && migs[to - 1].down.None? && error.id == migs[to - 1].id
    ensures Told(migs, allowDestructive, from, to, Err(error))
  {
  }

  lemma ToldOfRollForward(migs: seq<Planned>, allowDestructive: bool, keep: nat, from: nat, between: nat, to: nat,
                          rolledBack: seq<string>, moved: seq<string>, error: Option<Error>)
    requires between <= to <= |migs| && between <= from <= |migs| && between <= keep
    requires from > keep ==> between == keep == to
    requires from <= keep ==> between == from
    requires rolledBack == IdsDown(migs, from, between)
    requires error.None? || error.value.Destructive? ==> moved == IdsUp(migs, between, to)
    requires !allowDestructive ==> forall i | between <= i < to :: !migs[i].destructive
    requires error.Some? ==> error.value.Destructive? || error.value.Execution? || error.value.Tampered?
    requires error.Some? && error.value.Destructive? ==>
               to < |migs| && to < keep && migs[to].destructive && error.value == Destructive(migs[to].id, moved)
    ensures Told(migs, allowDestructive, from, to, if error.Some? then Err(error.value) else Ok(Report(moved, rolledBack)))
  {
  }

  /** Read and guard the ledger, and settle the highest number to keep. */
  method Target(backend: Backend, migs: seq<Planned>, dir: Direction)
    returns (refused: Option<Error>, applied: set<string>, keep: nat)
    requires GapFree(migs)
    modifies backend`failures
    ensures backend.failures == old(backend.failures) + if refused == Some(Db) then 1 else 0
    ensures refused.Some? && refused.value.Order? ==> OutOfOrder(migs, backend.db.ledger, refused.value)
    ensures refused.Some? ==> !refused.value.Destructive? && !refused.value.NoDown?
    ensures refused.Some? && refused.value.Tampered? ==> TamperSeen(migs, backend.db, refused.value)
    ensures refused.Some? && Prefix(backend.db.ledger, migs) ==> refused.value == Db
    ensures refused.None? ==> Prefix(backend.db.ledger, migs)
    ensures refused.None? ==> applied == backend.db.ledger.Keys && keep == KeepMax(dir, migs, |backend.db.ledger|)
    ensures refused.None? ==>
              |backend.db.ledger| <= |migs| && forall i | 0 <= i < |migs| :: migs[i].id in applied <==> i < |backend.db.ledger|
  {
    hide Number, LedgerOf, Prefix, MaxApplied;
    applied, keep := {}, 0;
    var ok, rows := ReadLedger(backend);
    if !ok {
      refused := Some(Db);
      return;
    }
    refused := Guard(migs, rows, backend.db.ledger);
    if refused.Some? {
      if refused.value.Tampered? {
        ListedIsSeen(migs, backend.db, refused.value);
      }
      return;
    }
    applied := set row | row in rows :: row.0;
    assert applied == backend.db.ledger.Keys;
    var latest := MaxApplied(migs, applied, |migs| + 1);
    MaxAppliedOfPrefix(migs, backend.db.ledger, |migs| + 1);
    MaxAppliedOfPrefix(migs, backend.db.ledger, latest);
    PrefixIndexes(migs, backend.db.ledger);
    match dir {
      case Up => keep := if migs == [] then 0 else migs[|migs| - 1].number;
      case To(n) => keep := n;
      case Down => keep := MaxApplied(migs, applied, latest);
    }
  }

  /** Move the database to `dir`'s target, one migration at a time. */
  method Apply(backend: Backend, migs: seq<Planned>, dir: Direction, allowDestructive: bool)
    returns (r: ApplyResult)
    requires GapFree(migs) && Checked(migs) && AllFit(backend.db, migs)
    modifies backend
    ensures Attempted(migs, dir, allowDestructive, old(backend.db), backend.db, r)
    // It succeeds exactly when no call fails and nothing stands in the way.
    ensures r.Ok? <==>
              && backend.failures == old(backend.failures) && Prefix(old(backend.db).ledger, migs)
              && var keep := KeepMax(dir, migs, |old(backend.db).ledger|);
                 && Goal(migs, keep, old(backend.db)).Some?
                 && (allowDestructive || NoneDestructive(migs, |old(backend.db).ledger|, keep))
  {
    hide Run.Finish, Number, LedgerOf, AllFit, Goal, Prefix, Run.Fits, Told;
    ToldOfNothing(migs, allowDestructive, |backend.db.ledger|);
    if Prefix(backend.db.ledger, migs) {
      StandStill(migs, KeepMax(dir, migs, |backend.db.ledger|), backend.db);
    }
    var refused, applied, keep := Target(backend, migs, dir);
    if refused.Some? {
      return Err(refused.value);
    }
    var failed, rolledBack := RollBack(backend, migs, applied, keep);
    if failed.Some? {
      ToldOfRollBack(migs, allowDestructive, |old(backend.db).ledger|, |backend.db.ledger|, failed.value);
      return Err(failed.value);
    }
    ghost var between := backend.db;
    var moved;
    failed, moved := RollForward(backend, migs, applied, keep, allowDestructive);
    ToldOfRollForward(migs, allowDestructive, keep, |old(backend.db).ledger|, |between.ledger|, |backend.db.ledger|,
                      rolledBack, moved, failed);
    if failed.Some? {
      return Err(failed.value);
    }
    GoalReached(migs, keep, backend.db);
    return Ok(Report(moved, rolledBack));
  }
}
