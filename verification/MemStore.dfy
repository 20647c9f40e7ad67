/** The in-process idempotency store: a map of claims with a time to live, swept at most once
    per interval. */
module MemStore {
  import opened Wrappers

  const MAX_FINGERPRINT: nat := 0xffff_ffff_ffff_ffff

  type Slot = (string, string)  // (callable, key)

  datatype Outcome = InFlight | Done(response: string)
  datatype Entry = Entry(fingerprint: nat, outcome: Outcome, expiresAt: int)
  type Entries = map<Slot, Entry>

  datatype KeyState = Fresh | Replay(response: string) | Busy | Mismatch

  // ---------- one store call, without sweeping --------------------------------------

  function Answer(entries: Entries, slot: Slot, fingerprint: nat, now: int): KeyState {
    if slot !in entries || entries[slot].expiresAt <= now then Fresh
    else if entries[slot].fingerprint != fingerprint then Mismatch
    else match entries[slot].outcome
      case InFlight => Busy
      case Done(response) => Replay(response)
  }

  datatype Op = Begin(fingerprint: nat) | Record(response: string, holder: nat) | Abandon(holder: nat)

  /** A store call at a clock reading. `holder` names the event whose Fresh claim is settled. */
  datatype Event = Event(slot: Slot, op: Op, now: int)

  function Apply(entries: Entries, e: Event, ttl: int): Entries {
    match e.op
    case Begin(fingerprint) =>
      if Answer(entries, e.slot, fingerprint, e.now) == Fresh
      then entries[e.slot := Entry(fingerprint, InFlight, e.now + ttl)] else entries
    case Record(response, _) =>
      var fingerprint := if e.slot in entries then entries[e.slot].fingerprint else MAX_FINGERPRINT;
      entries[e.slot := Entry(fingerprint, Done(response), e.now + ttl)]
    case Abandon(_) => entries - {e.slot}
  }

  // ---------- the store as it is ----------------------------------------------------

  function Unexpired(entries: Entries, now: int): Entries {
    map slot | slot in entries && entries[slot].expiresAt > now :: entries[slot]
  }

  /** `swept` is `full` without some entries that had expired by `now`. */
  predicate Agrees(swept: Entries, full: Entries, now: int) {
    && (forall slot | slot in swept :: slot in full && swept[slot] == full[slot])
    && (forall slot | slot in full && slot !in swept :: full[slot].expiresAt <= now)
  }

  /** No entry outlived a due sweep. */
  predicate Bounded(entries: Entries, nextSweep: int, ttl: int) {
    forall slot | slot in entries :: entries[slot].expiresAt > nextSweep - ttl
  }

  class Store {
    var entries: Entries
    var nextSweep: int
    const ttl: int

    constructor (now: int, ttl: int)
      ensures entries == map[] && nextSweep == now + ttl && this.ttl == ttl
    {
      entries, nextSweep, this.ttl := map[], now + ttl, ttl;
    }

    method SweepIfDue(now: int)
      modifies this
      ensures entries == if now >= old(nextSweep) then Unexpired(old(entries), now) else old(entries)
      ensures nextSweep == if now >= old(nextSweep) then now + ttl else old(nextSweep)
      ensures Agrees(entries, old(entries), now)
    {
      if now >= nextSweep {
        entries := Unexpired(entries, now);
        nextSweep := now + ttl;
      }
    }

    method BeginClaim(slot: Slot, fingerprint: nat, now: int) returns (r: KeyState)
      modifies this
      ensures r == Answer(old(entries), slot, fingerprint, now)
      ensures (entries, nextSweep) == Swept(old(entries), old(nextSweep), Event(slot, Begin(fingerprint), now), ttl)
    {
      SweepIfDue(now);
      if slot in entries && entries[slot].expiresAt > now {
        var e := entries[slot];
        r := if e.fingerprint != fingerprint then Mismatch
             else if e.outcome.InFlight? then Busy
             else Replay(e.outcome.response);
      } else {
        entries := entries[slot := Entry(fingerprint, InFlight, now + ttl)];
        r := Fresh;
      }
    }

    method RecordResponse(slot: Slot, response: string, holder: nat, now: int)
      modifies this
      ensures (entries, nextSweep) == Swept(old(entries), old(nextSweep), Event(slot, Record(response, holder), now), ttl)
    {
      var fingerprint := if slot in entries then entries[slot].fingerprint else MAX_FINGERPRINT;
      entries := entries[slot := Entry(fingerprint, Done(response), now + ttl)];
    }

    method AbandonClaim(slot: Slot, holder: nat, now: int)
      modifies this
      ensures (entries, nextSweep) == Swept(old(entries), old(nextSweep), Event(slot, Abandon(holder), now), ttl)
    {
      entries := entries - {slot};
    }
  }

  /** The store's step: only `Begin` sweeps. */
  function Swept(entries: Entries, nextSweep: int, e: Event, ttl: int): (Entries, int) {
    if e.op.Begin? && e.now >= nextSweep
    then (Apply(Unexpired(entries, e.now), e, ttl), e.now + ttl)
    else (Apply(entries, e, ttl), nextSweep)
  }

  // ---------- runs ------------------------------------------------------------------

  type History = seq<Event>

  /** The entries after `h` in a store that never sweeps. */
  function After(h: History, ttl: int): Entries {
    if h == [] then map[] else Apply(After(h[..|h| - 1], ttl), h[|h| - 1], ttl)
  }

  /** What `h[i]`, a begin, was answered. */
  function AnswerAt(h: History, i: nat, ttl: int): KeyState
    requires i < |h| && h[i].op.Begin?
  {
    Answer(After(h[..i], ttl), h[i].slot, h[i].op.fingerprint, h[i].now)
  }

  /** The real store after `h`, created at `start`. */
  function SweptAfter(h: History, start: int, ttl: int): (Entries, int) {
    if h == [] then (map[], start + ttl)
    else var (entries, nextSweep) := SweptAfter(h[..|h| - 1], start, ttl); Swept(entries, nextSweep, h[|h| - 1], ttl)
  }

  function SweptAnswerAt(h: History, i: nat, start: int, ttl: int): KeyState
    requires i < |h| && h[i].op.Begin?
  {
    Answer(SweptAfter(h[..i], start, ttl).0, h[i].slot, h[i].op.fingerprint, h[i].now)
  }

  predicate Clocked(h: History) {
    forall i, j | 0 <= i < j < |h| :: h[i].now <= h[j].now
  }

  predicate FreshAt(h: History, i: nat, slot: Slot, ttl: int) {
    i < |h| && h[i].op.Begin? && h[i].slot == slot && AnswerAt(h, i, ttl) == Fresh
  }

  predicate AbandonedBetween(h: History, i: nat, n: nat, slot: Slot) {
    exists k :: i < k < n && k < |h| && h[k].op.Abandon? && h[k].slot == slot
  }

  /** Only the holder of a Fresh claim records, while that claim is unexpired and not abandoned. */
  predicate OwnRecords(h: History, ttl: int) {
    forall j | 0 <= j < |h| && h[j].op.Record? ::
      && h[j].op.holder < j && FreshAt(h, h[j].op.holder, h[j].slot, ttl)
      && h[j].now < h[h[j].op.holder].now + ttl
      && !AbandonedBetween(h, h[j].op.holder, j, h[j].slot)
  }

  /** `h[k]` records or abandons for the claim `i` on `slot`. */
  predicate Settles(h: History, k: int, i: nat, slot: Slot) {
    0 <= k < |h| && !h[k].op.Begin? && h[k].op.holder == i && h[k].slot == slot
  }

  predicate SettledBetween(h: History, i: nat, n: nat, slot: Slot) {
    exists k :: i < k < n && Settles(h, k, i, slot)
  }

  predicate AbandonedByHolder(h: History, i: nat, n: nat, slot: Slot) {
    exists k :: i < k < n && Settles(h, k, i, slot) && h[k].op.Abandon?
  }

  /** Whoever is handed a key records or abandons on it at most once, before the claim expires, and
      nobody else does. */
  predicate Disciplined(h: History, ttl: int) {
    forall j | 0 <= j < |h| && !h[j].op.Begin? ::
      && h[j].op.holder < j && FreshAt(h, h[j].op.holder, h[j].slot, ttl)
      && h[j].now < h[h[j].op.holder].now + ttl
      && !SettledBetween(h, h[j].op.holder, j, h[j].slot)
  }

  lemma PrefixRun(h: History, n: nat, ttl: int)
    requires n <= |h|
    ensures forall i | 0 <= i < n && h[i].op.Begin? :: AnswerAt(h[..n], i, ttl) == AnswerAt(h, i, ttl)
    ensures Clocked(h) ==> Clocked(h[..n])
    ensures OwnRecords(h, ttl) ==> OwnRecords(h[..n], ttl)
  {
    forall i | 0 <= i < n ensures h[..n][..i] == h[..i] { }
    if OwnRecords(h, ttl) {
      forall j | 0 <= j < n && h[j].op.Record?
        ensures !AbandonedBetween(h[..n], h[j].op.holder, j, h[j].slot)
      {
        assert forall k | h[j].op.holder < k < j :: h[..n][k] == h[k];
      }
    }
  }

  /** A claim stays in place, under its own fingerprint, until it is abandoned or its time is up. */
  lemma {:induction false} ClaimStays(h: History, i: nat, slot: Slot, n: nat, ttl: int)
    requires Clocked(h) && FreshAt(h, i, slot, ttl) && i < n <= |h|
    requires !AbandonedBetween(h, i, n, slot) && h[n - 1].now < h[i].now + ttl
    ensures slot in After(h[..n], ttl)
    ensures After(h[..n], ttl)[slot].fingerprint == h[i].op.fingerprint
    ensures After(h[..n], ttl)[slot].expiresAt >= h[i].now + ttl
    decreases n
  {
    assert h[..n][..n - 1] == h[..n - 1];
    if n - 1 > i {
      assert !AbandonedBetween(h, i, n - 1, slot);
      ClaimStays(h, i, slot, n - 1, ttl);
    }
  }

  /** In any run, a key is handed out twice only if somebody abandoned it or the first claim
      outlived its time. */
  lemma NoSecondFreshUndisturbed(h: History, i: nat, n: nat, slot: Slot, ttl: int)
    requires Clocked(h) && i < n && FreshAt(h, i, slot, ttl) && FreshAt(h, n, slot, ttl)
    ensures AbandonedBetween(h, i, n, slot) || h[n].now >= h[i].now + ttl
  {
    if !AbandonedBetween(h, i, n, slot) && h[n].now < h[i].now + ttl {
      ClaimStays(h, i, slot, n, ttl);
    }
  }

  // ---------- runs in which every holder keeps the discipline -----------------------

  /** Nobody but its holder settles a claim that is neither abandoned by it nor expired. */
  lemma {:induction false} OnlyOwnSettles(h: History, i: nat, n: nat, slot: Slot, ttl: int)
    requires Clocked(h) && Disciplined(h, ttl) && FreshAt(h, i, slot, ttl) && i < n <= |h|
    requires !AbandonedByHolder(h, i, n, slot) && h[n - 1].now < h[i].now + ttl
    ensures forall j | i < j < n && !h[j].op.Begin? && h[j].slot == slot :: h[j].op.holder == i
    ensures !AbandonedBetween(h, i, n, slot)
    decreases n, 0
  {
    hide AnswerAt;
    forall j | i < j < n && !h[j].op.Begin? && h[j].slot == slot
      ensures h[j].op.holder == i
    {
      var other := h[j].op.holder;
      if other < i {
        StandingClaim(h, other, i, slot, ttl);
      } else if i < other {
        StandingClaim(h, i, other, slot, ttl);
      }
    }
  }

  /** A begin on a key whose claim is neither abandoned by its holder nor expired is not handed it. */
  lemma {:induction false} StandingClaim(h: History, i: nat, n: nat, slot: Slot, ttl: int)
    requires Clocked(h) && Disciplined(h, ttl) && FreshAt(h, i, slot, ttl) && i < n < |h|
    requires !AbandonedByHolder(h, i, n, slot) && h[n].now < h[i].now + ttl
    ensures !FreshAt(h, n, slot, ttl)
    decreases n, 1
  {
    OnlyOwnSettles(h, i, n, slot, ttl);
    ClaimStays(h, i, slot, n, ttl);
  }

  /** A response recorded for a claim answers until its own time is up. */
  lemma {:induction false} RecordStays(h: History, i: nat, j: nat, n: nat, slot: Slot, ttl: int)
    requires Clocked(h) && Disciplined(h, ttl) && j < n <= |h|
    requires Settles(h, j, i, slot) && h[j].op.Record? && h[n - 1].now < h[j].now + ttl
    ensures slot in After(h[..n], ttl)
    ensures After(h[..n], ttl)[slot] == Entry(h[i].op.fingerprint, Done(h[j].op.response), h[j].now + ttl)
    decreases n
  {
    var m := n - 1;
    assert h[..n][..m] == h[..m];
    if m == j {
      OnlyOwnSettles(h, i, j, slot, ttl);
      ClaimStays(h, i, slot, j, ttl);
    } else {
      RecordStays(h, i, j, m, slot, ttl);
      if !h[m].op.Begin? && h[m].slot == slot {
        StrangerIsRefused(h, i, j, m, slot, ttl);
      }
    }
  }

  /** No call settles a key after a record on it, while that record answers. */
  lemma {:induction false} StrangerIsRefused(h: History, i: nat, j: nat, m: nat, slot: Slot, ttl: int)
    requires Clocked(h) && Disciplined(h, ttl) && j < m < |h|
    requires Settles(h, j, i, slot) && h[j].op.Record? && h[m].now < h[j].now + ttl
    ensures !(!h[m].op.Begin? && h[m].slot == slot)
    decreases m
  {
    if !h[m].op.Begin? && h[m].slot == slot {
      var other := h[m].op.holder;
      if other < i {
        StandingClaim(h, other, i, slot, ttl);
      } else if i < other < j {
        StandingClaim(h, i, other, slot, ttl);
      } else if j < other {
        RecordStays(h, i, j, other, slot, ttl);
      }
    }
  }

  /** A key is handed out twice only if the first holder abandoned it, or its claim's time and that
      of any response it recorded are up. */
  lemma NoSecondFresh(h: History, i: nat, n: nat, slot: Slot, ttl: int)
    requires Clocked(h) && Disciplined(h, ttl) && i < n && FreshAt(h, i, slot, ttl) && FreshAt(h, n, slot, ttl)
    ensures || AbandonedByHolder(h, i, n, slot)
            || (h[n].now >= h[i].now + ttl && forall j | i < j < n && Settles(h, j, i, slot) :: h[n].now >= h[j].now + ttl)
  {
    if !AbandonedByHolder(h, i, n, slot) {
      if h[n].now < h[i].now + ttl {
        StandingClaim(h, i, n, slot, ttl);
      }
      forall j | i < j < n && Settles(h, j, i, slot)
        ensures h[n].now >= h[j].now + ttl
      {
        if h[n].now < h[j].now + ttl {
          RecordStays(h, i, j, n, slot, ttl);
        }
      }
    }
  }

  /** A recorded response is what a repeat of its request is answered, and another request is
      refused, until the record's time is up. */
  lemma RecordedIsReplayed(h: History, j: nat, n: nat, ttl: int)
    requires Clocked(h) && Disciplined(h, ttl) && j < n < |h|
    requires h[j].op.Record? && h[n].op.Begin? && h[n].slot == h[j].slot && h[n].now < h[j].now + ttl
    ensures AnswerAt(h, n, ttl) ==
            if h[n].op.fingerprint == h[h[j].op.holder].op.fingerprint then Replay(h[j].op.response) else Mismatch
  {
    RecordStays(h, h[j].op.holder, j, n, h[j].slot, ttl);
  }

  /** The last begin among the first `n` events that was handed the key. */
  predicate LastFresh(h: History, k: nat, n: nat, slot: Slot, ttl: int) {
    && k < n <= |h| && FreshAt(h, k, slot, ttl)
    && forall l | k < l < n :: !FreshAt(h, l, slot, ttl)
  }

  /** The holder of a claim under `fingerprint` left its slot so. */
  predicate LeftBy(entries: Entries, settling: Event, fingerprint: nat, ttl: int)
    requires !settling.op.Begin?
  {
    if settling.op.Abandon? then settling.slot !in entries
    else settling.slot in entries && entries[settling.slot] == Entry(fingerprint, Done(settling.op.response), settling.now + ttl)
  }

  /** A call that is neither handed the key nor settles it leaves the slot as it is. */
  lemma SlotUntouched(h: History, m: nat, slot: Slot, ttl: int)
    requires m < |h| && !FreshAt(h, m, slot, ttl) && (h[m].slot == slot ==> h[m].op.Begin?)
    ensures slot in After(h[..m + 1], ttl) <==> slot in After(h[..m], ttl)
    ensures slot in After(h[..m], ttl) ==> After(h[..m + 1], ttl)[slot] == After(h[..m], ttl)[slot]
  {
    assert h[..m + 1][..m] == h[..m];
  }

  /** The slot holds what the holder of claim `k` made of it. */
  ghost predicate HeldFor(h: History, k: nat, n: nat, slot: Slot, ttl: int)
    requires k < n <= |h| && h[k].op.Begin?
  {
    var entries := After(h[..n], ttl);
    && (!SettledBetween(h, k, n, slot) ==> slot in entries && entries[slot] == Entry(h[k].op.fingerprint, InFlight, h[k].now + ttl))
    && forall j | k < j < n && Settles(h, j, k, slot) :: LeftBy(entries, h[j], h[k].op.fingerprint, ttl)
  }

  lemma HeldNext(h: History, k: nat, m: nat, slot: Slot, ttl: int)
    requires k < m < |h| && h[k].op.Begin? && HeldFor(h, k, m, slot, ttl) && !FreshAt(h, m, slot, ttl)
    requires h[m].slot == slot && !h[m].op.Begin? ==> h[m].op.holder == k && !SettledBetween(h, k, m, slot)
    ensures HeldFor(h, k, m + 1, slot, ttl)
  {
    assert h[..m + 1][..m] == h[..m];
    if h[m].slot == slot && !h[m].op.Begin? {
      assert Settles(h, m, k, slot);
    } else {
      SlotUntouched(h, m, slot, ttl);
      hide After;
      assert !Settles(h, m, k, slot);
      assert SettledBetween(h, k, m, slot) ==> SettledBetween(h, k, m + 1, slot);
    }
  }

  lemma HeldFirst(h: History, k: nat, slot: Slot, ttl: int)
    requires FreshAt(h, k, slot, ttl)
    ensures HeldFor(h, k, k + 1, slot, ttl)
  {
    assert h[..k + 1][..k] == h[..k];
  }

  /** After a claim, until the next one, the slot holds what its holder made of it. */
  lemma {:induction false} HeldForTheLast(h: History, k: nat, n: nat, slot: Slot, ttl: int)
    requires Clocked(h) && Disciplined(h, ttl) && LastFresh(h, k, n, slot, ttl)
    ensures forall j | k < j < n && !h[j].op.Begin? && h[j].slot == slot :: h[j].op.holder == k
    ensures HeldFor(h, k, n, slot, ttl)
    decreases n
  {
    hide HeldFor, AnswerAt;
    var m := n - 1;
    if m == k {
      HeldFirst(h, k, slot, ttl);
    } else {
      HeldForTheLast(h, k, m, slot, ttl);
      if !h[m].op.Begin? && h[m].slot == slot && h[m].op.holder < k {
        StandingClaim(h, h[m].op.holder, k, slot, ttl);
      }
      HeldNext(h, k, m, slot, ttl);
    }
  }

  /** What a begin is answered is decided by the last request handed the key and by what that one
      did since. */
  lemma AnsweredExactly(h: History, k: nat, n: nat, ttl: int)
    requires Clocked(h) && Disciplined(h, ttl)
    requires n < |h| && h[n].op.Begin? && LastFresh(h, k, n, h[n].slot, ttl)
    ensures AnswerAt(h, n, ttl) == Fresh <==>
            || AbandonedByHolder(h, k, n, h[n].slot)
            || (h[n].now >= h[k].now + ttl && !exists j :: k < j < n && Settles(h, j, k, h[n].slot))
            || exists j :: k < j < n && Settles(h, j, k, h[n].slot) && h[n].now >= h[j].now + ttl
    ensures AnswerAt(h, n, ttl) == Busy <==>
            && !SettledBetween(h, k, n, h[n].slot) && h[n].now < h[k].now + ttl
            && h[n].op.fingerprint == h[k].op.fingerprint
    ensures forall response :: AnswerAt(h, n, ttl) == Replay(response) <==>
            && h[n].op.fingerprint == h[k].op.fingerprint
            && exists j :: k < j < n && Settles(h, j, k, h[n].slot) && h[j].op == Record(response, k) && h[n].now < h[j].now + ttl
  {
    var slot := h[n].slot;
    HeldForTheLast(h, k, n, slot, ttl);
  }

  /** A run that keeps the discipline has only its holders' own records, each before the claim it
      answers for is gone. */
  lemma DisciplinedRecordsOwn(h: History, ttl: int)
    requires Clocked(h) && Disciplined(h, ttl)
    ensures OwnRecords(h, ttl)
  {
    forall j | 0 <= j < |h| && h[j].op.Record?
      ensures !AbandonedBetween(h, h[j].op.holder, j, h[j].slot)
    {
      OnlyOwnSettles(h, h[j].op.holder, j, h[j].slot, ttl);
    }
  }

  /** The record `j` that left a done entry: no later call changed the slot. */
  lemma {:induction false} DoneWasRecorded(h: History, slot: Slot, ttl: int) returns (j: nat)
    requires slot in After(h, ttl) && After(h, ttl)[slot].outcome.Done?
    ensures j < |h| && h[j].slot == slot && h[j].op.Record?
    ensures h[j].op.response == After(h, ttl)[slot].outcome.response
    ensures After(h, ttl)[slot] == After(h[..j + 1], ttl)[slot]
    ensures slot in After(h[..j + 1], ttl)
  {
    var n := |h| - 1;
    if h[n].slot == slot && h[n].op.Record? {
      j := n;
      assert h[..n + 1] == h;
    } else {
      j := DoneWasRecorded(h[..n], slot, ttl);
      assert h[..n][..j + 1] == h[..j + 1];
    }
  }

  lemma RecordKeepsFingerprint(h: History, j: nat, ttl: int)
    requires j < |h| && h[j].op.Record? && h[j].slot in After(h[..j], ttl)
    ensures h[j].slot in After(h[..j + 1], ttl)
    ensures After(h[..j + 1], ttl)[h[j].slot].fingerprint == After(h[..j], ttl)[h[j].slot].fingerprint
  {
    assert h[..j + 1][..j] == h[..j];
  }

  /** A replay answers with a response recorded by a claim made under the same fingerprint. */
  lemma ReplayIsTheRecordedResponse(h: History, n: nat, ttl: int) returns (i: nat, j: nat)
    requires Clocked(h) && OwnRecords(h, ttl)
    requires n < |h| && h[n].op.Begin? && AnswerAt(h, n, ttl).Replay?
    ensures i < j < n && FreshAt(h, i, h[n].slot, ttl) && h[i].op.fingerprint == h[n].op.fingerprint
    ensures h[j].slot == h[n].slot && h[j].op == Record(AnswerAt(h, n, ttl).response, i)
  {
    hide After, Apply;
    var slot := h[n].slot;
    j := DoneWasRecorded(h[..n], slot, ttl);
    assert h[..n][..j + 1] == h[..j + 1];
    i := h[j].op.holder;
    ClaimStays(h, i, slot, j, ttl);
    RecordKeepsFingerprint(h, j, ttl);
  }

  // ---------- sweeping --------------------------------------------------------------

  /** A step keeps the agreement unless it records over an entry that was swept away. */
  lemma StepAgrees(swept: Entries, full: Entries, nextSweep: int, e: Event, before: int, ttl: int)
    requires Agrees(swept, full, before) && before <= e.now
    requires e.op.Record? ==> (e.slot in full ==> e.slot in swept)
    ensures Agrees(Swept(swept, nextSweep, e, ttl).0, Apply(full, e, ttl), e.now)
    ensures e.op.Begin? ==> Answer(swept, e.slot, e.op.fingerprint, e.now) == Answer(full, e.slot, e.op.fingerprint, e.now)
  {
  }

  /** Recording agrees exactly when the claim had not been swept (or was made under MAX itself). */
  lemma RecordAgreesExactly(swept: Entries, full: Entries, nextSweep: int, e: Event, before: int, ttl: int)
    requires Agrees(swept, full, before) && before <= e.now && e.op.Record?
    ensures Agrees(Swept(swept, nextSweep, e, ttl).0, Apply(full, e, ttl), e.now) <==>
            (e.slot in full && e.slot !in swept ==> full[e.slot].fingerprint == MAX_FINGERPRINT)
  {
    var entries := Swept(swept, nextSweep, e, ttl).0;
    assert e.slot in entries && e.slot in Apply(full, e, ttl);
  }

  /** A holder's record finds its claim, unexpired. */
  lemma RecordFindsClaim(h: History, n: nat, ttl: int)
    requires Clocked(h) && OwnRecords(h, ttl) && n < |h| && h[n].op.Record?
    ensures h[n].slot in After(h[..n], ttl) && After(h[..n], ttl)[h[n].slot].expiresAt > h[n].now
  {
    hide After;
    ClaimStays(h, h[n].op.holder, h[n].slot, n, ttl);
  }

  /** The time of the last event. */
  function Latest(h: History, start: int): int { if h == [] then start else h[|h| - 1].now }

  lemma {:induction false} SweptAgrees(h: History, start: int, ttl: int)
    requires Clocked(h) && OwnRecords(h, ttl) && (h != [] ==> start <= h[0].now)
    ensures Agrees(SweptAfter(h, start, ttl).0, After(h, ttl), Latest(h, start))
    decreases |h|
  {
    if h != [] {
      var n := |h| - 1;
      PrefixRun(h, n, ttl);
      SweptAgrees(h[..n], start, ttl);
      if h[n].op.Record? {
        RecordFindsClaim(h, n, ttl);
      }
      hide Clocked, OwnRecords, Swept, Apply;
      var (swept, nextSweep) := SweptAfter(h[..n], start, ttl);
      StepAgrees(swept, After(h[..n], ttl), nextSweep, h[n], Latest(h[..n], start), ttl);
    }
  }

  /** Sweeping is invisible: every begin is answered as by a store that never sweeps. */
  lemma SweepingIsInvisible(h: History, start: int, ttl: int)
    requires Clocked(h) && OwnRecords(h, ttl) && (h != [] ==> start <= h[0].now)
    ensures Agrees(SweptAfter(h, start, ttl).0, After(h, ttl), Latest(h, start))
    ensures forall i | 0 <= i < |h| && h[i].op.Begin? :: SweptAnswerAt(h, i, start, ttl) == AnswerAt(h, i, ttl)
  {
    SweptAgrees(h, start, ttl);
    hide SweptAfter, After, Swept, Apply;
    forall i | 0 <= i < |h| && h[i].op.Begin?
      ensures SweptAnswerAt(h, i, start, ttl) == AnswerAt(h, i, ttl)
    {
      PrefixRun(h, i, ttl);
      SweptAgrees(h[..i], start, ttl);
      var (swept, nextSweep) := SweptAfter(h[..i], start, ttl);
      StepAgrees(swept, After(h[..i], ttl), nextSweep, h[i], Latest(h[..i], start), ttl);
    }
  }

  /** Memory stays bounded: with a steady clock, after a begin at time t every entry still held
      expires later than t - ttl. */
  lemma {:induction false} HeldEntriesAreRecent(h: History, start: int, ttl: int)
    requires Clocked(h) && ttl > 0 && (h != [] ==> start <= h[0].now)
    ensures var (entries, nextSweep) := SweptAfter(h, start, ttl);
            var now := if h == [] then start else h[|h| - 1].now;
            && Bounded(entries, nextSweep, ttl) && nextSweep <= now + ttl
            && (h != [] && h[|h| - 1].op.Begin? ==> forall slot | slot in entries :: entries[slot].expiresAt > now - ttl)
    decreases |h|
  {
    if h != [] {
      HeldEntriesAreRecent(h[..|h| - 1], start, ttl);
    }
  }

  // ---------- records that come too late --------------------------------------------

  /** In a run of the real store, the begin `k` was handed the key. */
  predicate ClaimedAt(h: History, k: nat, slot: Slot, start: int, ttl: int) {
    k < |h| && h[k].op.Begin? && h[k].slot == slot && SweptAnswerAt(h, k, start, ttl) == Fresh
  }

  /** The last begin among the first `n` events that was handed the key. */
  predicate LastClaim(h: History, k: nat, n: nat, slot: Slot, start: int, ttl: int) {
    && k < n <= |h| && ClaimedAt(h, k, slot, start, ttl)
    && forall l | k < l < n :: !ClaimedAt(h, l, slot, start, ttl)
  }

  /** An entry carries the fingerprint of the last request handed its key, or MAX when a record
      found the slot empty. */
  lemma {:induction false} HeldUnderLastClaim(h: History, k: nat, n: nat, slot: Slot, start: int, ttl: int)
    requires LastClaim(h, k, n, slot, start, ttl)
    ensures var entries := SweptAfter(h[..n], start, ttl).0;
            slot in entries ==> entries[slot].fingerprint in {h[k].op.fingerprint, MAX_FINGERPRINT}
    decreases n
  {
    var before := h[..n - 1];
    assert h[..n][..n - 1] == before;
    if n - 1 > k {
      HeldUnderLastClaim(h, k, n - 1, slot, start, ttl);
      assert !ClaimedAt(h, n - 1, slot, start, ttl);
    }
  }

  /** The state a record leaves its slot in answers no request but the holder's own. */
  ghost predicate OnlyOwnReplays(entries: Entries, slot: Slot, own: nat) {
    forall fingerprint, now | fingerprint != MAX_FINGERPRINT && Answer(entries, slot, fingerprint, now).Replay? :: fingerprint == own
  }

  /** Whatever happened before, a record by the holder of claim `i` is replayed to no other request
      exactly when it finds the slot empty, or under MAX, or the last request handed the key since
      then was the same one. */
  lemma RecordStaysOwnExactly(h: History, i: nat, k: nat, j: nat, start: int, ttl: int)
    requires j < |h| && h[j].op.Record? && h[j].op.holder == i < j
    requires ClaimedAt(h, i, h[j].slot, start, ttl) && LastClaim(h, k, j, h[j].slot, start, ttl)
    ensures i <= k
    ensures var entries := SweptAfter(h[..j], start, ttl).0;
            OnlyOwnReplays(SweptAfter(h[..j + 1], start, ttl).0, h[j].slot, h[i].op.fingerprint) <==>
              || h[j].slot !in entries || entries[h[j].slot].fingerprint == MAX_FINGERPRINT
              || h[k].op.fingerprint == h[i].op.fingerprint
  {
    var slot := h[j].slot;
    var entries := SweptAfter(h[..j], start, ttl).0;
    var after := SweptAfter(h[..j + 1], start, ttl).0;
    assert h[..j + 1][..j] == h[..j];
    HeldUnderLastClaim(h, k, j, slot, start, ttl);
    assert slot in after && after[slot].outcome.Done? && after[slot].expiresAt == h[j].now + ttl;
    assert Answer(after, slot, after[slot].fingerprint, h[j].now + ttl - 1).Replay?;
  }

  /** A record that finds its slot empty is stored for nobody: every real request on the key is
      refused as a different one until the entry's time is up. */
  lemma EmptySlotRecordIsLost(entries: Entries, e: Event, fingerprint: nat, now: int, ttl: int)
    requires e.op.Record? && e.slot !in entries && fingerprint != MAX_FINGERPRINT
    ensures Answer(Apply(entries, e, ttl), e.slot, fingerprint, now) == if e.now + ttl <= now then Fresh else Mismatch
  {
  }

  /** Such a record in a whole run: the retry that a store without sweeping would answer is refused
      as a different request. */
  lemma RecordAfterSweepIsLost(ttl: int)
    requires ttl > 0
    ensures var a, b := ("m", "a"), ("m", "b");
            var h := [Event(a, Begin(7), 0), Event(b, Begin(7), ttl), Event(a, Record("r", 0), ttl), Event(a, Begin(7), ttl)];
            Clocked(h) && SweptAnswerAt(h, 3, 0, ttl) == Mismatch && AnswerAt(h, 3, ttl) == Replay("r")
  {
    var a, b := ("m", "a"), ("m", "b");
    var h := [Event(a, Begin(7), 0), Event(b, Begin(7), ttl), Event(a, Record("r", 0), ttl), Event(a, Begin(7), ttl)];
    assert a != b;
    assert h[..3][..2] == h[..2] && h[..2][..1] == h[..1] && h[..1][..0] == [];
    assert After(h[..1], ttl) == map[a := Entry(7, InFlight, ttl)];
    assert SweptAfter(h[..1], 0, ttl).0 == map[a := Entry(7, InFlight, ttl)];
    assert SweptAfter(h[..2], 0, ttl).0 == map[b := Entry(7, InFlight, ttl + ttl)];
    assert a in After(h[..2], ttl) && After(h[..2], ttl)[a].fingerprint == 7;
    assert After(h[..3], ttl)[a] == Entry(7, Done("r"), ttl + ttl);
    assert SweptAfter(h[..3], 0, ttl).0[a] == Entry(MAX_FINGERPRINT, Done("r"), ttl + ttl);
  }

  /** A record whose slot was claimed again meanwhile answers the other request: 9 is replayed the
      response that 7 produced, with or without sweeping. */
  lemma RecordAfterReclaimAnswersAnother(ttl: int)
    requires ttl > 0
    ensures var a := ("m", "a");
            var h := [Event(a, Begin(7), 0), Event(a, Begin(9), ttl), Event(a, Record("r7", 0), ttl), Event(a, Begin(9), ttl)];
            && Clocked(h) && ClaimedAt(h, 0, a, 0, ttl) && ClaimedAt(h, 1, a, 0, ttl)
            && SweptAnswerAt(h, 3, 0, ttl) == Replay("r7") == AnswerAt(h, 3, ttl)
  {
    var a := ("m", "a");
    var h := [Event(a, Begin(7), 0), Event(a, Begin(9), ttl), Event(a, Record("r7", 0), ttl), Event(a, Begin(9), ttl)];
    assert h[..3][..2] == h[..2] && h[..2][..1] == h[..1] && h[..1][..0] == [] && h[..0] == [];
    assert After(h[..0], ttl) == map[] && SweptAfter(h[..0], 0, ttl) == (map[], ttl);
    assert After(h[..1], ttl) == map[a := Entry(7, InFlight, ttl)];
    assert SweptAfter(h[..1], 0, ttl).0 == map[a := Entry(7, InFlight, ttl)];
    assert After(h[..2], ttl) == map[a := Entry(9, InFlight, ttl + ttl)];
    assert SweptAfter(h[..2], 0, ttl).0 == map[a := Entry(9, InFlight, ttl + ttl)];
    assert After(h[..3], ttl)[a] == Entry(9, Done("r7"), ttl + ttl) == SweptAfter(h[..3], 0, ttl).0[a];
  }

  // ---------- abandons that come too late -------------------------------------------

  /** No request from `now` on is answered otherwise. */
  ghost predicate SameAnswers(before: Entries, after: Entries, slot: Slot, now: int) {
    forall fingerprint, later | later >= now :: Answer(after, slot, fingerprint, later) == Answer(before, slot, fingerprint, later)
  }

  /** The claim a slot's entry goes back to, if it is no stray record's. */
  function ClaimIn(h: History, n: nat, slot: Slot, start: int, ttl: int): Option<nat>
    requires n <= |h|
    decreases n
  {
    if n == 0 || slot !in SweptAfter(h[..n], start, ttl).0 then None
    else if ClaimedAt(h, n - 1, slot, start, ttl) then Some(n - 1)
    else if slot in SweptAfter(h[..n - 1], start, ttl).0 then ClaimIn(h, n - 1, slot, start, ttl)
    else None
  }

  /** That is the last claim, under its own fingerprint; a stray record's entry is under MAX. */
  lemma {:induction false} ClaimInIsLast(h: History, n: nat, slot: Slot, start: int, ttl: int)
    requires n <= |h|
    ensures var entries, claim := SweptAfter(h[..n], start, ttl).0, ClaimIn(h, n, slot, start, ttl);
            && (claim.Some? ==> slot in entries && LastClaim(h, claim.value, n, slot, start, ttl)
                                && entries[slot].fingerprint == h[claim.value].op.fingerprint)
            && (claim.None? && slot in entries ==> entries[slot].fingerprint == MAX_FINGERPRINT && entries[slot].outcome.Done?)
    decreases n
  {
    if n > 0 {
      assert h[..n][..n - 1] == h[..n - 1];
      ClaimInIsLast(h, n - 1, slot, start, ttl);
    }
  }

  /** The abandon `j` ends the claim `c`, or the answer it left, before its time. */
  predicate Frees(h: History, c: nat, j: nat, start: int, ttl: int)
    requires j < |h|
  {
    var entries := SweptAfter(h[..j], start, ttl).0;
    ClaimIn(h, j, h[j].slot, start, ttl) == Some(c) && h[j].slot in entries && entries[h[j].slot].expiresAt > h[j].now
  }

  /** Whatever happened before, an abandon by the holder of claim `i` changes what some later request
      is answered exactly when it finds an unexpired entry. Unless that is a stray record's, it frees
      its own claim exactly when the key was not handed out since, and another's when it was. */
  lemma AbandonFreesOwnExactly(h: History, i: nat, k: nat, j: nat, start: int, ttl: int)
    requires j < |h| && h[j].op.Abandon? && h[j].op.holder == i < j
    requires ClaimedAt(h, i, h[j].slot, start, ttl) && LastClaim(h, k, j, h[j].slot, start, ttl)
    ensures i <= k
    ensures var entries, after := SweptAfter(h[..j], start, ttl).0, SweptAfter(h[..j + 1], start, ttl).0;
            var same, stray := SameAnswers(entries, after, h[j].slot, h[j].now), ClaimIn(h, j, h[j].slot, start, ttl).None?;
            && (same <==> h[j].slot !in entries || entries[h[j].slot].expiresAt <= h[j].now)
            && (Frees(h, i, j, start, ttl) <==> !same && !stray && i == k)
            && ((exists c :: c != i && Frees(h, c, j, start, ttl)) <==> !same && !stray && i < k)
  {
    var slot := h[j].slot;
    var entries := SweptAfter(h[..j], start, ttl).0;
    var after := SweptAfter(h[..j + 1], start, ttl).0;
    assert h[..j + 1][..j] == h[..j];
    assert after == entries - {slot};
    ClaimInIsLast(h, j, slot, start, ttl);
    if slot in entries && entries[slot].expiresAt > h[j].now {
      assert Answer(after, slot, 0, h[j].now) == Fresh != Answer(entries, slot, 0, h[j].now);
      assert ClaimIn(h, j, slot, start, ttl).Some? ==> Frees(h, k, j, start, ttl);
    }
    hide SweptAfter, Apply, ClaimIn;
  }

  /** A late abandon in a whole run: request 9 is handed the key twice, although its first claim
      was neither abandoned by it nor expired. */
  lemma LateAbandonFreesAnother(ttl: int)
    requires ttl > 0
    ensures var a := ("m", "a");
            var h := [Event(a, Begin(7), 0), Event(a, Begin(9), ttl), Event(a, Abandon(0), ttl), Event(a, Begin(9), ttl)];
            && Clocked(h) && OwnRecords(h, ttl) && !AbandonedByHolder(h, 1, 3, a)
            && ClaimedAt(h, 1, a, 0, ttl) && ClaimedAt(h, 3, a, 0, ttl) && h[3].now < h[1].now + ttl
            && FreshAt(h, 1, a, ttl) && FreshAt(h, 3, a, ttl)
  {
    var a := ("m", "a");
    var h := [Event(a, Begin(7), 0), Event(a, Begin(9), ttl), Event(a, Abandon(0), ttl), Event(a, Begin(9), ttl)];
    assert h[..3][..2] == h[..2] && h[..2][..1] == h[..1] && h[..1][..0] == [] && h[..0] == [];
    assert After(h[..1], ttl) == map[a := Entry(7, InFlight, ttl)] == SweptAfter(h[..1], 0, ttl).0;
    assert a !in After(h[..3], ttl) && a !in SweptAfter(h[..3], 0, ttl).0;
  }

  // ---------- readings that reach the store out of order ----------------------------

  /** A begin is answered as by a store that never sweeps exactly when the entry swept away from its
      slot, if any, is expired by the begin's own reading. */
  lemma AnswersAgreeExactly(swept: Entries, full: Entries, before: int, slot: Slot, fingerprint: nat, now: int)
    requires Agrees(swept, full, before)
    ensures Answer(swept, slot, fingerprint, now) == Answer(full, slot, fingerprint, now) <==>
            (slot in full && slot !in swept ==> full[slot].expiresAt <= now)
  {
  }

  /** Such a reading in a whole run: swept by a call that read the clock later, a claim is handed
      out again before its time is up. */
  lemma LateReadingIsHandedTheKey(ttl: int)
    requires ttl > 0
    ensures var a, b := ("m", "a"), ("m", "b");
            var h := [Event(a, Begin(7), 0), Event(b, Begin(7), ttl), Event(a, Begin(7), ttl - 1)];
            OwnRecords(h, ttl) && !Clocked(h) && SweptAnswerAt(h, 2, 0, ttl) == Fresh && AnswerAt(h, 2, ttl) == Busy
  {
    var a, b := ("m", "a"), ("m", "b");
    var h := [Event(a, Begin(7), 0), Event(b, Begin(7), ttl), Event(a, Begin(7), ttl - 1)];
    assert a != b && h[2].now < h[1].now;
    assert h[..2][..1] == h[..1] && h[..1][..0] == [] && h[..0] == [];
    assert After(h[..1], ttl) == map[a := Entry(7, InFlight, ttl)] == SweptAfter(h[..1], 0, ttl).0;
    assert a in After(h[..2], ttl) && After(h[..2], ttl)[a] == Entry(7, InFlight, ttl);
    assert SweptAfter(h[..2], 0, ttl).0 == map[b := Entry(7, InFlight, ttl + ttl)];
  }
}
