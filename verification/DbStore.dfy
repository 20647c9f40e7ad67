/** The durable idempotency store: a key and the writes it guards stand or fall by one commit, and
    attempts on the same key meet at its unique index. */
module DbStore {
  import opened Wrappers

  type Slot = (string, string)  // (callable, key)

  /** A keyed mutation request; `fingerprint` hashes its arguments and context. */
  datatype Request = Request(slot: Slot, fingerprint: nat)

  /** A row of the key table; `response` is NULL until recorded. */
  datatype Row = Row(fingerprint: nat, response: Option<string>)

  /** A committed write body: which attempt ran it, and what it answered. */
  datatype Effect = Effect(attempt: nat, slot: Slot, response: string)

  datatype Outcome = Done(response: string) | Replayed(response: string) | Mismatch | NotFound | Failed

  /** Where one transaction attempt is. Past `Open` it holds its slot's index entry. */
  datatype Phase = Idle | Open | Claimed | Wrote(response: string) | Recorded(response: string) | Ended(outcome: Outcome)
  {
    predicate Holding() { Claimed? || Wrote? || Recorded? }
  }

  /** The committed tables, the index entries of open transactions, and every attempt's phase. */
  datatype State = State(phases: seq<Phase>, rows: map<Slot, Row>, holders: map<Slot, nat>, effects: seq<Effect>)

  // ---------- steps -----------------------------------------------------------------

  /** How a commit call ends: acknowledged, applied without the acknowledgement, or not applied. */
  datatype Fate = Acknowledged | Unacknowledged | Refused

  datatype Action =
    | Begin(a: nat)
    | Claim(a: nat)
    | Write(a: nat, response: string)
    | Miss(a: nat)
    | Record(a: nat)
    | Commit(a: nat, fate: Fate)
    | Abort(a: nat, retry: bool)

  function Release(s: State, slot: Slot, a: nat): map<Slot, nat> {
    if slot in s.holders && s.holders[slot] == a then s.holders - {slot} else s.holders
  }

  /** Insert-or-ignore, then read the row a conflict left. An index entry held by another open
      transaction blocks the insert: no step. */
  function ClaimStep(s: State, a: nat, r: Request): Option<State>
    requires a < |s.phases|
  {
    if r.slot in s.holders then None
    else if r.slot !in s.rows then
      Some(s.(phases := s.phases[a := Claimed], holders := s.holders[r.slot := a]))
    else
      var row := s.rows[r.slot];
      var outcome := if row.fingerprint != r.fingerprint then Mismatch
        else match row.response
          case Some(response) => Replayed(response)
          case None => Failed;
      Some(s.(phases := s.phases[a := Ended(outcome)]))
  }

  /** One step of one attempt; None is a step it cannot take now. */
  function Next(requests: seq<Request>, s: State, action: Action): Option<State>
    requires |requests| == |s.phases|
  {
    if action.a >= |requests| then None
    else
      var a, r := action.a, requests[action.a];
      match (action, s.phases[a])
      case (Begin(_), Idle) => Some(s.(phases := s.phases[a := Open]))
      case (Claim(_), Open) => ClaimStep(s, a, r)
      case (Write(_, response), Claimed) => Some(s.(phases := s.phases[a := Wrote(response)]))
      case (Miss(_), Claimed) => Some(s.(phases := s.phases[a := Ended(NotFound)], holders := Release(s, r.slot, a)))
      case (Record(_), Wrote(response)) => Some(s.(phases := s.phases[a := Recorded(response)]))
      case (Commit(_, fate), Recorded(response)) =>
        var ended := s.(holders := Release(s, r.slot, a),
                        phases := s.phases[a := Ended(if fate.Acknowledged? then Done(response) else Failed)]);
        if fate.Refused? then Some(ended)
        else Some(ended.(rows := s.rows[r.slot := Row(r.fingerprint, Some(response))],
                         effects := s.effects + [Effect(a, r.slot, response)]))
      case (Abort(_, retry), phase) =>
        if phase.Idle? || phase.Ended? then None
        else Some(s.(phases := s.phases[a := if retry then Idle else Ended(Failed)], holders := Release(s, r.slot, a)))
      case _ => None
  }

  function Exec(requests: seq<Request>, s: State, actions: seq<Action>): Option<State>
    requires |requests| == |s.phases|
  {
    if actions == [] then Some(s)
    else match Exec(requests, s, actions[..|actions| - 1])
      case None => None
      case Some(t) => if |t.phases| == |requests| then Next(requests, t, actions[|actions| - 1]) else None
  }

  function Initial(requests: seq<Request>): State {
    State(seq(|requests|, _ => Idle), map[], map[], [])
  }

  // ---------- the invariant ---------------------------------------------------------

  /** Exactly the open claims hold index entries, and a held slot has no committed row. */
  predicate HoldersExact(requests: seq<Request>, s: State)
    requires |requests| == |s.phases|
  {
    && (forall slot | slot in s.holders ::
          && s.holders[slot] < |requests| && requests[s.holders[slot]].slot == slot
          && s.phases[s.holders[slot]].Holding() && slot !in s.rows)
    && (forall a | 0 <= a < |requests| && s.phases[a].Holding() ::
          requests[a].slot in s.holders && s.holders[requests[a].slot] == a)
  }

  /** Committed rows and committed effects match one to one, and each row carries its response. */
  predicate RowsExact(requests: seq<Request>, s: State) {
    && (forall i | 0 <= i < |s.effects| ::
          && s.effects[i].attempt < |requests| && requests[s.effects[i].attempt].slot == s.effects[i].slot
          && s.effects[i].slot in s.rows
          && s.rows[s.effects[i].slot] == Row(requests[s.effects[i].attempt].fingerprint, Some(s.effects[i].response)))
    && (forall i, j | 0 <= i < j < |s.effects| :: s.effects[i].slot != s.effects[j].slot)
    && (forall slot | slot in s.rows :: exists i :: 0 <= i < |s.effects| && s.effects[i].slot == slot)
  }

  /** What an attempt was told is what the committed row says. */
  predicate Told(requests: seq<Request>, s: State, a: nat)
    requires |requests| == |s.phases| && a < |requests|
  {
    match s.phases[a]
    case Ended(Done(response)) =>
      requests[a].slot in s.rows && s.rows[requests[a].slot] == Row(requests[a].fingerprint, Some(response))
    case Ended(Replayed(response)) =>
      requests[a].slot in s.rows && s.rows[requests[a].slot] == Row(requests[a].fingerprint, Some(response))
    case Ended(Mismatch) =>
      requests[a].slot in s.rows && s.rows[requests[a].slot].fingerprint != requests[a].fingerprint
    case _ => true
  }

  /** The attempt whose effects were committed has ended, acknowledged or not. */
  predicate Ran(s: State) {
    forall i | 0 <= i < |s.effects| ::
      && s.effects[i].attempt < |s.phases|
      && (s.phases[s.effects[i].attempt] == Ended(Done(s.effects[i].response)) ||
          s.phases[s.effects[i].attempt] == Ended(Failed))
  }

  predicate Inv(requests: seq<Request>, s: State) {
    && |s.phases| == |requests|
    && HoldersExact(requests, s)
    && RowsExact(requests, s)
    && Ran(s)
    && forall a | 0 <= a < |requests| :: Told(requests, s, a)
  }

  /** Committed rows and effects are only ever added to. */
  predicate Grows(s: State, t: State) {
    && (forall slot | slot in s.rows :: slot in t.rows && t.rows[slot] == s.rows[slot])
    && s.effects <= t.effects
  }

  /** A step touches its own attempt, at most its own slot's index entry, and commits only a
      recorded response. */
  lemma StepShape(requests: seq<Request>, s: State, action: Action)
    requires Inv(requests, s) && Next(requests, s, action).Some?
    ensures var t := Next(requests, s, action).value;
            var a := action.a;
            && a < |requests| && |t.phases| == |s.phases|
            && (forall b | 0 <= b < |requests| && b != a :: t.phases[b] == s.phases[b])
            && !(s.phases[a].Ended?)
            && (if t.phases[a].Holding() && !s.phases[a].Holding()
                then requests[a].slot !in s.holders && requests[a].slot !in s.rows
                     && t.holders == s.holders[requests[a].slot := a]
                else if !t.phases[a].Holding() && s.phases[a].Holding()
                then t.holders == s.holders - {requests[a].slot}
                else t.holders == s.holders)
            && ((t.rows == s.rows && t.effects == s.effects && !(t.phases[a].Ended? && t.phases[a].outcome.Done?)) ||
                Commits(requests[a], a, s, t))
  {
    var t := Next(requests, s, action).value;
    var a := action.a;
    if s.phases[a].Holding() {
      assert Release(s, requests[a].slot, a) == s.holders - {requests[a].slot};
    } else {
      assert Release(s, requests[a].slot, a) == s.holders;
    }
  }

  predicate Commits(r: Request, a: nat, s: State, t: State) {
    && a < |s.phases| && a < |t.phases| && s.phases[a].Recorded?
    && t.rows == s.rows[r.slot := Row(r.fingerprint, Some(s.phases[a].response))]
    && t.effects == s.effects + [Effect(a, r.slot, s.phases[a].response)]
    && (t.phases[a] == Ended(Done(s.phases[a].response)) || t.phases[a] == Ended(Failed))
  }

  lemma StepKeepsHolders(requests: seq<Request>, s: State, action: Action)
    requires Inv(requests, s) && Next(requests, s, action).Some?
    ensures var t := Next(requests, s, action).value;
            |t.phases| == |requests| && HoldersExact(requests, t)
  {
    StepShape(requests, s, action);
    hide Next, RowsExact, Ran, Told;
    var t := Next(requests, s, action).value;
    var a := action.a;
    assert forall slot | slot in t.rows :: slot in s.rows || (slot == requests[a].slot && !t.phases[a].Holding() && s.phases[a].Holding());
    HoldersFollow(requests, s, t, a);
  }

  /** One attempt's phase and its own index entry change together. */
  lemma HoldersFollow(requests: seq<Request>, s: State, t: State, a: nat)
    requires |s.phases| == |requests| == |t.phases| && a < |requests| && HoldersExact(requests, s)
    requires forall b | 0 <= b < |requests| && b != a :: t.phases[b] == s.phases[b]
    requires if t.phases[a].Holding() && !s.phases[a].Holding()
             then requests[a].slot !in s.holders && requests[a].slot !in s.rows && t.holders == s.holders[requests[a].slot := a]
             else if !t.phases[a].Holding() && s.phases[a].Holding() then t.holders == s.holders - {requests[a].slot}
             else t.holders == s.holders
    requires forall slot | slot in t.rows :: slot in s.rows || (slot == requests[a].slot && !t.phases[a].Holding() && s.phases[a].Holding())
    ensures HoldersExact(requests, t)
  {
  }

  lemma StepGrows(requests: seq<Request>, s: State, action: Action)
    requires Inv(requests, s) && Next(requests, s, action).Some?
    ensures Grows(s, Next(requests, s, action).value)
  {
    hide Next, RowsExact, Ran, Told;
    StepShape(requests, s, action);
    if s.phases[action.a].Holding() {
      assert requests[action.a].slot !in s.rows;
    }
  }

  lemma StepKeepsRows(requests: seq<Request>, s: State, action: Action)
    requires Inv(requests, s) && Next(requests, s, action).Some?
    ensures var t := Next(requests, s, action).value; RowsExact(requests, t)
  {
    hide Next, Ran, Told, RowsExact;
    StepShape(requests, s, action);
    var t := Next(requests, s, action).value;
    if t.rows == s.rows && t.effects == s.effects {
      SameRows(requests, s, t);
    } else {
      var e := t.effects[|s.effects|];
      assert requests[action.a].slot in s.holders && requests[action.a].slot !in s.rows;
      RowAdded(requests, s, t, e);
    }
  }

  lemma SameRows(requests: seq<Request>, s: State, t: State)
    requires RowsExact(requests, s) && t.rows == s.rows && t.effects == s.effects
    ensures RowsExact(requests, t)
  {
  }

  /** A row committed with its effect keeps rows and effects in step. */
  lemma RowAdded(requests: seq<Request>, s: State, t: State, e: Effect)
    requires RowsExact(requests, s) && t.effects == s.effects + [e] && e.slot !in s.rows
    requires e.attempt < |requests| && requests[e.attempt].slot == e.slot
    requires t.rows == s.rows[e.slot := Row(requests[e.attempt].fingerprint, Some(e.response))]
    ensures RowsExact(requests, t)
  {
    forall slot | slot in t.rows
      ensures exists i :: 0 <= i < |t.effects| && t.effects[i].slot == slot
    {
      if slot in s.rows {
        var i :| 0 <= i < |s.effects| && s.effects[i].slot == slot;
        assert t.effects[i].slot == slot;
      } else {
        assert t.effects[|s.effects|].slot == slot;
      }
    }
  }

  lemma StepKeepsRan(requests: seq<Request>, s: State, action: Action)
    requires Inv(requests, s) && Next(requests, s, action).Some?
    ensures Ran(Next(requests, s, action).value)
  {
    hide Next, RowsExact, HoldersExact, Told;
    StepShape(requests, s, action);
  }

  lemma StepKeepsTold(requests: seq<Request>, s: State, action: Action)
    requires Inv(requests, s) && Next(requests, s, action).Some?
    ensures var t := Next(requests, s, action).value;
            |t.phases| == |requests| && forall a | 0 <= a < |requests| :: Told(requests, t, a)
  {
    hide HoldersExact, RowsExact, Ran;
    StepGrows(requests, s, action);
    StepShape(requests, s, action);
    var t := Next(requests, s, action).value;
    forall a | 0 <= a < |requests| ensures Told(requests, t, a) {
      assert Told(requests, s, a);
    }
  }

  lemma StepKeepsInv(requests: seq<Request>, s: State, action: Action)
    requires Inv(requests, s) && Next(requests, s, action).Some?
    ensures Inv(requests, Next(requests, s, action).value)
  {
    hide Next, HoldersExact, RowsExact, Ran, Told;
    StepKeepsHolders(requests, s, action);
    StepKeepsRows(requests, s, action);
    StepKeepsRan(requests, s, action);
    StepKeepsTold(requests, s, action);
  }

  /** Every interleaving of attempts keeps the invariant. */
  lemma {:induction false} RunsKeepInv(requests: seq<Request>, actions: seq<Action>)
    ensures var t := Exec(requests, Initial(requests), actions); t.Some? ==> Inv(requests, t.value)
  {
    if actions != [] {
      RunsKeepInv(requests, actions[..|actions| - 1]);
      var s := Exec(requests, Initial(requests), actions[..|actions| - 1]);
      if s.Some? && Next(requests, s.value, actions[|actions| - 1]).Some? {
        StepKeepsInv(requests, s.value, actions[|actions| - 1]);
      }
    }
  }

  // ---------- what callers see ------------------------------------------------------

  function Answered(p: Phase): Option<string> {
    match p
    case Ended(Done(response)) => Some(response)
    case Ended(Replayed(response)) => Some(response)
    case _ => None
  }

  /** In any interleaving: a key's effects commit at most once, every committed key carries its
      response, attempts that succeed under one key asked the same request and got the same
      response, and an attempt refused, missed or replayed has committed nothing. */
  lemma AtMostOnce(requests: seq<Request>, actions: seq<Action>)
    requires Exec(requests, Initial(requests), actions).Some?
    ensures var s := Exec(requests, Initial(requests), actions).value;
            && |s.phases| == |requests|
            && (forall i, j | 0 <= i < j < |s.effects| :: s.effects[i].slot != s.effects[j].slot)
            && (forall slot | slot in s.rows :: s.rows[slot].response.Some?)
            && (forall a, b | 0 <= a < |requests| && 0 <= b < |requests| && requests[a].slot == requests[b].slot
                  && Answered(s.phases[a]).Some? && Answered(s.phases[b]).Some? ::
                  requests[a].fingerprint == requests[b].fingerprint && Answered(s.phases[a]) == Answered(s.phases[b]))
            && (forall a | 0 <= a < |requests| && s.phases[a].Ended? && !s.phases[a].outcome.Done? && !s.phases[a].outcome.Failed? ::
                  forall i | 0 <= i < |s.effects| :: s.effects[i].attempt != a)
  {
    RunsKeepInv(requests, actions);
    var s := Exec(requests, Initial(requests), actions).value;
    forall slot | slot in s.rows ensures s.rows[slot].response.Some? {
      var i :| 0 <= i < |s.effects| && s.effects[i].slot == slot;
    }
    forall a, b | 0 <= a < |requests| && 0 <= b < |requests| && requests[a].slot == requests[b].slot
        && Answered(s.phases[a]).Some? && Answered(s.phases[b]).Some?
      ensures requests[a].fingerprint == requests[b].fingerprint && Answered(s.phases[a]) == Answered(s.phases[b])
    {
      assert Told(requests, s, a) && Told(requests, s, b);
    }
  }

  /** Block and replay: once a key has committed, a claim on it is never blocked, and it replays
      the committed response exactly when the request is the same one. */
  lemma CommittedKeyReplays(requests: seq<Request>, actions: seq<Action>, a: nat)
    requires Exec(requests, Initial(requests), actions).Some?
    requires var s := Exec(requests, Initial(requests), actions).value;
             |s.phases| == |requests| && a < |requests| && s.phases[a].Open? && requests[a].slot in s.rows
    ensures var s := Exec(requests, Initial(requests), actions).value;
            var row := s.rows[requests[a].slot];
            && row.response.Some?
            && Next(requests, s, Claim(a)) ==
               Some(s.(phases := s.phases[a := Ended(
                 if row.fingerprint == requests[a].fingerprint then Replayed(row.response.value) else Mismatch)]))
  {
    RunsKeepInv(requests, actions);
    var s := Exec(requests, Initial(requests), actions).value;
    var i :| 0 <= i < |s.effects| && s.effects[i].slot == requests[a].slot;
  }

  // ---------- what an attempt was told, and why -------------------------------------

  /** The state before step `i`. */
  function Before(requests: seq<Request>, actions: seq<Action>, i: nat): Option<State>
    requires i <= |actions|
  {
    Exec(requests, Initial(requests), actions[..i])
  }

  /** Step `i` commits attempt `a` with this response and this fate. */
  predicate CommitsAt(requests: seq<Request>, actions: seq<Action>, i: nat, a: nat, response: string, fate: Fate) {
    && i < |actions| && actions[i] == Commit(a, fate) && Before(requests, actions, i).Some?
    && var s := Before(requests, actions, i).value; a < |s.phases| && s.phases[a] == Recorded(response)
  }

  ghost predicate CommitOccurred(requests: seq<Request>, actions: seq<Action>, a: nat, response: string, fate: Fate) {
    exists i :: CommitsAt(requests, actions, i, a, response, fate)
  }

  lemma OneMoreStep(requests: seq<Request>, actions: seq<Action>, a: nat, response: string, fate: Fate)
    requires actions != []
    ensures CommitOccurred(requests, actions, a, response, fate) <==>
            || CommitOccurred(requests, actions[..|actions| - 1], a, response, fate)
            || CommitsAt(requests, actions, |actions| - 1, a, response, fate)
  {
    var init := actions[..|actions| - 1];
    forall i: nat | i < |init|
      ensures CommitsAt(requests, actions, i, a, response, fate) <==> CommitsAt(requests, init, i, a, response, fate)
    {
      assert init[..i] == actions[..i];
    }
    hide Exec;
    if CommitOccurred(requests, actions, a, response, fate) {
      var i: nat :| CommitsAt(requests, actions, i, a, response, fate);
      assert i < |init| ==> CommitsAt(requests, init, i, a, response, fate);
    }
    if CommitOccurred(requests, init, a, response, fate) {
      var i: nat :| CommitsAt(requests, init, i, a, response, fate);
      assert CommitsAt(requests, actions, i, a, response, fate);
    }
  }

  /** The response was written by the attempt itself. */
  ghost predicate WroteIt(actions: seq<Action>, a: nat, response: string) { Write(a, response) in actions }

  lemma {:induction false} PhasesKept(requests: seq<Request>, actions: seq<Action>)
    ensures var t := Exec(requests, Initial(requests), actions); t.Some? ==> |t.value.phases| == |requests|
  {
    RunsKeepInv(requests, actions);
  }

  /** In every interleaving an attempt is told Done with a response exactly when its commit of that
      response was acknowledged, and the response is one it wrote. */
  lemma {:induction false} DoneMeansAcknowledged(requests: seq<Request>, actions: seq<Action>, a: nat, response: string)
    requires Exec(requests, Initial(requests), actions).Some? && a < |requests|
    ensures var s := Exec(requests, Initial(requests), actions).value;
            && |s.phases| == |requests|
            && (s.phases[a] == Ended(Done(response)) <==> CommitOccurred(requests, actions, a, response, Acknowledged))
            && (s.phases[a] in {Wrote(response), Recorded(response), Ended(Done(response))} ==> WroteIt(actions, a, response))
    decreases |actions|
  {
    PhasesKept(requests, actions);
    if actions != [] {
      var init := actions[..|actions| - 1];
      PhasesKept(requests, init);
      DoneMeansAcknowledged(requests, init, a, response);
      OneMoreStep(requests, actions, a, response, Acknowledged);
      assert Before(requests, actions, |actions| - 1) == Exec(requests, Initial(requests), init);
      hide CommitOccurred, Exec;
    }
  }

  /** The effects committed are those of the commits that took effect, acknowledged or not. */
  lemma {:induction false} EffectsAreCommits(requests: seq<Request>, actions: seq<Action>, a: nat, response: string)
    requires Exec(requests, Initial(requests), actions).Some? && a < |requests|
    ensures var s := Exec(requests, Initial(requests), actions).value;
            Effect(a, requests[a].slot, response) in s.effects <==>
              || CommitOccurred(requests, actions, a, response, Acknowledged)
              || CommitOccurred(requests, actions, a, response, Unacknowledged)
    decreases |actions|
  {
    if actions != [] {
      var init := actions[..|actions| - 1];
      PhasesKept(requests, init);
      EffectsAreCommits(requests, init, a, response);
      OneMoreStep(requests, actions, a, response, Acknowledged);
      OneMoreStep(requests, actions, a, response, Unacknowledged);
      assert Before(requests, actions, |actions| - 1) == Exec(requests, Initial(requests), init);
      hide CommitOccurred, Exec;
    }
  }

  /** On a free key an attempt can go all the way: the commit leaves its row and its effect unless it
      is refused, the caller is told so only when it is acknowledged, and the key is free again. */
  lemma WholeAttempt(requests: seq<Request>, s: State, a: nat, response: string, fate: Fate)
    requires |s.phases| == |requests| && a < |requests| && s.phases[a].Idle?
    requires requests[a].slot !in s.holders && requests[a].slot !in s.rows
    ensures var r := requests[a];
            Exec(requests, s, [Begin(a), Claim(a), Write(a, response), Record(a), Commit(a, fate)]) ==
            Some(State(s.phases[a := Ended(if fate.Acknowledged? then Done(response) else Failed)],
                       if fate.Refused? then s.rows else s.rows[r.slot := Row(r.fingerprint, Some(response))],
                       s.holders,
                       if fate.Refused? then s.effects else s.effects + [Effect(a, r.slot, response)]))
  {
    var slot := requests[a].slot;
    var actions := [Begin(a), Claim(a), Write(a, response), Record(a), Commit(a, fate)];
    assert actions[..4][..3] == actions[..3] && actions[..3][..2] == actions[..2] && actions[..2][..1] == actions[..1] && actions[..1][..0] == [];
    var one := s.(phases := s.phases[a := Open]);
    var two := one.(phases := one.phases[a := Claimed], holders := s.holders[slot := a]);
    var three := two.(phases := two.phases[a := Wrote(response)]);
    var four := three.(phases := three.phases[a := Recorded(response)]);
    assert Exec(requests, s, actions[..1]) == Some(one);
    assert Exec(requests, s, actions[..2]) == Some(two);
    assert Exec(requests, s, actions[..3]) == Some(three);
    assert Exec(requests, s, actions[..4]) == Some(four);
    assert Release(four, slot, a) == s.holders;
    assert four.phases[a := Ended(Failed)] == s.phases[a := Ended(Failed)];
    assert four.phases[a := Ended(Done(response))] == s.phases[a := Ended(Done(response))];
  }

  /** A write that finds no row leaves nothing, and an attempt given up may start over. */
  lemma MissOrAbort(requests: seq<Request>, s: State, a: nat, retry: bool)
    requires |s.phases| == |requests| && a < |requests| && s.phases[a].Idle?
    requires requests[a].slot !in s.holders && requests[a].slot !in s.rows
    ensures Exec(requests, s, [Begin(a), Claim(a), Miss(a)]) == Some(s.(phases := s.phases[a := Ended(NotFound)]))
    ensures Exec(requests, s, [Begin(a), Claim(a), Abort(a, retry)]) ==
            Some(if retry then s else s.(phases := s.phases[a := Ended(Failed)]))
  {
    var slot := requests[a].slot;
    var one := s.(phases := s.phases[a := Open]);
    var two := one.(phases := one.phases[a := Claimed], holders := s.holders[slot := a]);
    assert Release(two, slot, a) == s.holders;
    assert two.phases[a := Idle] == s.phases && two.phases[a := Ended(NotFound)] == s.phases[a := Ended(NotFound)];
    assert two.phases[a := Ended(Failed)] == s.phases[a := Ended(Failed)];
    forall last: Action
      ensures Exec(requests, s, [Begin(a), Claim(a), last]) == Next(requests, two, last)
    {
      var actions := [Begin(a), Claim(a), last];
      assert actions[..2][..1] == actions[..1] && actions[..1][..0] == [];
      assert Exec(requests, s, actions[..1]) == Some(one);
      assert Exec(requests, s, actions[..2]) == Some(two);
    }
  }
}
