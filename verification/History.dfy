/**
 The bi-temporal reads of the claim table (`timePredicate`), and what `as_of` says about the
 past of a run of gate steps and closings.
 */
module History {
  import opened JsonText
  import opened Gate
  import opened GateSafety

  datatype TimeSpec = Current | AsOf(at: int) | During(from: int, to: int)

  /** The WHERE clause of a time mode. `[)` ranges; an empty window overlaps nothing. */
  predicate Selects(time: TimeSpec, claim: Claim) {
    match time
    case Current => claim.validTo.None? && claim.status.Accepted?
    case AsOf(at) =>
      && claim.recordedAt <= at
      && (claim.validTo.None? || claim.validTo.value > at)
      && (claim.status.Accepted? || claim.status.Superseded? || claim.status.Expired?)
    case During(from, to) =>
      from < to && claim.validFrom < to && (claim.validTo.None? || claim.validTo.value > from)
  }

  predicate ValidAt(claim: Claim, t: int) {
    claim.validFrom <= t && (claim.validTo.None? || t < claim.validTo.value)
  }

  /** What the query answers about a claim; None where it fails: a range cannot end before it
      begins. */
  function Answer(time: TimeSpec, claim: Claim): Option<bool> {
    if time.During? && time.to < time.from then None else Some(Selects(time, claim))
  }

  /** `during` finds a claim with a proper interval exactly when it was valid at some moment of
      the window, whatever its status. */
  lemma DuringIsOverlap(claim: Claim, from: int, to: int)
    requires claim.validTo.Some? ==> claim.validFrom < claim.validTo.value
    ensures Answer(During(from, to), claim) ==
      if to < from then None else Some(exists t :: from <= t < to && ValidAt(claim, t))
  {
    if Selects(During(from, to), claim) {
      var t := if from < claim.validFrom then claim.validFrom else from;
      assert from <= t < to && ValidAt(claim, t);
    }
  }

  // ----- history

  ghost predicate Clocked(actions: seq<Action>) {
    forall i, j :: 0 <= i < j < |actions| ==> actions[i].now <= actions[j].now
  }

  /** An accepting step that closes some claim. */
  ghost predicate Supplants(env: Env, s: Store, a: Action) {
    && Accepts(env, s, a)
    && exists i :: 0 <= i < |s.claims| &&
         Closes(Conflicts(env, s.claims, a.candidate, a.picked), i, s.claims[i], ValidFrom(a.candidate, a.now))
  }

  /** Where the step closes a claim, it closes it as of its own clock. */
  ghost predicate Prompt(env: Env, s: Store, a: Action) {
    match a
    case Evaluate(c, _, now, _) => Supplants(env, s, a) ==> ValidFrom(c, now) == now
    case ApplyStatus(_, _, validTo, now) => validTo.None? || validTo == Some(now)
  }

  ghost predicate PromptRun(env: Env, actions: seq<Action>)
    decreases |actions|
  {
    actions != [] ==>
      var before := actions[..|actions| - 1];
      PromptRun(env, before) && Prompt(env, Run(env, before), actions[|actions| - 1])
  }

  /** The tables after the last step at or before t. */
  ghost function StateAt(env: Env, actions: seq<Action>, t: int): Store
    decreases |actions|
  {
    if actions == [] then EMPTY_STORE
    else if actions[|actions| - 1].now <= t then Run(env, actions)
    else StateAt(env, actions[..|actions| - 1], t)
  }

  ghost predicate Believed(s: Store, i: nat) {
    i < |s.claims| && Open(s.claims[i])
  }

  ghost predicate Shown(s: Store, t: int, i: nat) {
    i < |s.claims| && Selects(AsOf(t), s.claims[i])
  }

  /** What an ordinary step does to one claim. */
  lemma ClaimStep(env: Env, s: Store, a: Action, i: nat)
    requires StatusOk(s) && IntervalsOk(s) && Ordinary(s, a) && i < |s.claims|
    ensures i < |Step(env, s, a).claims| && SameIdentity(s.claims[i], Step(env, s, a).claims[i])
    ensures !Open(s.claims[i]) ==> Step(env, s, a).claims[i] == s.claims[i]
    ensures Open(s.claims[i]) ==> !Step(env, s, a).claims[i].status.Proposed?
  {
    if a.Evaluate? && RowsRead(s.claims, a.candidate, a.picked) &&
       a.candidate.requestedScope.Some? && a.candidate.eventScope.Some? {
      var c, from := a.candidate, ValidFrom(a.candidate, a.now);
      if Closes(Conflicts(env, s.claims, c, a.picked), i, s.claims[i], from) {
        HitsWereOpen(env, s, c, a.picked, i, from);
      }
    }
  }

  lemma NewClaimStep(env: Env, s: Store, a: Action)
    requires |Step(env, s, a).claims| > |s.claims|
    ensures var claims := Step(env, s, a).claims;
      && |claims| == |s.claims| + 1 && claims[|s.claims|].recordedAt == a.now && claims[|s.claims|].validTo.None?
      && (claims[|s.claims|].status.Accepted? || claims[|s.claims|].status.Proposed?)
  {
  }

  /** The clock of the step that ended the belief in claim i. */
  ghost function ClosedAt(env: Env, actions: seq<Action>, i: nat): Option<int>
    decreases |actions|
  {
    if actions == [] then None
    else
      var before, a := actions[..|actions| - 1], actions[|actions| - 1];
      if ClosedAt(env, before, i).Some? then ClosedAt(env, before, i)
      else if Believed(Run(env, before), i) && !Believed(Run(env, actions), i) then Some(a.now)
      else None
  }

  /** The story of one claim: recorded by some step, and either never believed, or still
      believed, or closed by a later step. */
  ghost predicate Story(s: Store, closedAt: Option<int>, now: int, i: nat) {
    if i >= |s.claims| then closedAt.None?
    else
      var claim := s.claims[i];
      && claim.recordedAt <= now
      && (closedAt.None? <==> Open(claim) || claim.status.Proposed?)
      && (closedAt.Some? ==> claim.recordedAt <= closedAt.value <= now && claim.validTo.Some?)
  }

  lemma StoryGoesOn(env: Env, s: Store, a: Action, closedAt: Option<int>, i: nat)
    requires StatusOk(s) && IntervalsOk(s) && StatusOk(Step(env, s, a)) && Ordinary(s, a) &&
      Story(s, closedAt, a.now, i)
    ensures var closed := Believed(s, i) && !Believed(Step(env, s, a), i);
      Story(Step(env, s, a), if closedAt.None? && closed then Some(a.now) else closedAt, a.now, i)
  {
    if i < |s.claims| {
      ClaimStep(env, s, a, i);
    } else if i < |Step(env, s, a).claims| {
      NewClaimStep(env, s, a);
    }
  }

  lemma {:induction false} ClaimStory(env: Env, actions: seq<Action>, now: int, i: nat)
    requires OrdinaryRun(env, actions) && Clocked(actions)
    requires actions != [] ==> actions[|actions| - 1].now <= now
    ensures Story(Run(env, actions), ClosedAt(env, actions, i), now, i)
    decreases |actions|
  {
    if actions != [] {
      var before, a := actions[..|actions| - 1], actions[|actions| - 1];
      ClaimStory(env, before, a.now, i);
      HistoryKept(env, before);
      HistoryKept(env, actions);
      StoryGoesOn(env, Run(env, before), a, ClosedAt(env, before, i), i);
    }
  }

  /** When the system held claim i: from its recording to the step that closed it. */
  lemma {:induction false} BelievedSpan(env: Env, actions: seq<Action>, t: int, i: nat)
    requires OrdinaryRun(env, actions) && Clocked(actions)
    ensures Believed(StateAt(env, actions, t), i) <==>
      && i < |Run(env, actions).claims| && !Run(env, actions).claims[i].status.Proposed?
      && Run(env, actions).claims[i].recordedAt <= t
      && (ClosedAt(env, actions, i).Some? ==> t < ClosedAt(env, actions, i).value)
    decreases |actions|
  {
    if actions != [] {
      var before, a := actions[..|actions| - 1], actions[|actions| - 1];
      var s := Run(env, before);
      if a.now <= t {
        ClaimStory(env, actions, a.now, i);
      } else {
        BelievedSpan(env, before, t, i);
        HistoryKept(env, before);
        if i < |s.claims| {
          ClaimStep(env, s, a, i);
        } else if i < |Step(env, s, a).claims| {
          NewClaimStep(env, s, a);
        }
      }
    }
  }

  function Max(a: int, b: int): int {
    if a < b then b else a
  }

  /** Claim i was closed as of the clock of the step that closed it. The one other way is a
      claim closed within the moment it was recorded, which no time shows. */
  ghost predicate ClosedOnTime(env: Env, actions: seq<Action>, i: nat) {
    i < |Run(env, actions).claims| && ClosedAt(env, actions, i).Some? ==>
      var claim := Run(env, actions).claims[i];
      claim.validTo.Some? && Max(claim.validTo.value, claim.recordedAt) == ClosedAt(env, actions, i).value
  }

  /** `as_of` on the final tables tells, at every time, whether claim i was believed then. */
  ghost predicate ToldOf(env: Env, actions: seq<Action>, i: nat) {
    forall t :: Shown(Run(env, actions), t, i) <==> Believed(StateAt(env, actions, t), i)
  }

  lemma ShownSpan(s: Store, i: nat, t: int)
    requires StatusOk(s) && i < |s.claims| && s.claims[i].validTo.Some?
    ensures Shown(s, t, i) <==> InSpan(s.claims[i].recordedAt, s.claims[i].validTo.value, t)
  {
  }

  lemma ClosedTold(env: Env, actions: seq<Action>, i: nat)
    requires OrdinaryRun(env, actions) && Clocked(actions)
    requires i < |Run(env, actions).claims| && ClosedAt(env, actions, i).Some?
    ensures ToldOf(env, actions, i) <==> ClosedOnTime(env, actions, i)
  {
    var s, closed := Run(env, actions), ClosedAt(env, actions, i).value;
    HistoryKept(env, actions);
    ClaimStory(env, actions, actions[|actions| - 1].now, i);
    var from, to := s.claims[i].recordedAt, s.claims[i].validTo.value;
    forall t
      ensures Shown(s, t, i) <==> InSpan(from, to, t)
      ensures Believed(StateAt(env, actions, t), i) <==> InSpan(from, closed, t)
    {
      ShownSpan(s, i, t);
      BelievedSpan(env, actions, t, i);
    }
    SpansEqual(from, to, closed);
    if ToldOf(env, actions, i) {
      forall t ensures InSpan(from, to, t) <==> InSpan(from, closed, t) {
        assert Shown(s, t, i) <==> Believed(StateAt(env, actions, t), i);
      }
    }
  }

  lemma ClaimTold(env: Env, actions: seq<Action>, i: nat)
    requires OrdinaryRun(env, actions) && Clocked(actions)
    ensures ToldOf(env, actions, i) <==> ClosedOnTime(env, actions, i)
  {
    if i < |Run(env, actions).claims| && ClosedAt(env, actions, i).Some? {
      ClosedTold(env, actions, i);
    } else {
      HistoryKept(env, actions);
      ClaimStory(env, actions, if actions == [] then 0 else actions[|actions| - 1].now, i);
      forall t ensures Shown(Run(env, actions), t, i) <==> Believed(StateAt(env, actions, t), i) {
        BelievedSpan(env, actions, t, i);
      }
    }
  }

  ghost predicate InSpan(from: int, to: int, t: int) {
    from <= t < to
  }

  lemma SpansEqual(from: int, to: int, other: int)
    requires from <= other
    ensures (forall t :: InSpan(from, to, t) <==> InSpan(from, other, t)) <==> Max(to, from) == other
  {
    if Max(to, from) < other {
      assert InSpan(from, other, other - 1) && !InSpan(from, to, other - 1);
    } else if other < Max(to, from) {
      assert InSpan(from, to, to - 1) && !InSpan(from, other, to - 1);
    }
  }

  /** The history theorem, exactly. On a run of gate steps and closings with a clock that does
      not go back, `as_of t` on the final tables selects, for every t, the claims accepted and
      open after the last step at or before t, if and only if every closed claim was closed as
      of the clock of the step that closed it. */
  lemma AsOfExact(env: Env, actions: seq<Action>)
    requires OrdinaryRun(env, actions) && Clocked(actions)
    ensures (forall i: nat :: ToldOf(env, actions, i)) <==> forall i: nat :: ClosedOnTime(env, actions, i)
  {
    forall i: nat ensures ToldOf(env, actions, i) <==> ClosedOnTime(env, actions, i) {
      ClaimTold(env, actions, i);
    }
  }

  lemma {:induction false} PromptOnTime(env: Env, actions: seq<Action>, i: nat)
    requires OrdinaryRun(env, actions) && PromptRun(env, actions) && Clocked(actions)
    ensures ClosedOnTime(env, actions, i)
    decreases |actions|
  {
    if actions != [] {
      var before, a := actions[..|actions| - 1], actions[|actions| - 1];
      var s := Run(env, before);
      PromptOnTime(env, before, i);
      HistoryKept(env, before);
      ClaimStory(env, before, a.now, i);
      if i < |s.claims| {
        ClaimStep(env, s, a, i);
        if Open(s.claims[i]) && !Open(Step(env, s, a).claims[i]) {
          ClosesPromptly(env, s, a, i);
        }
      } else if i < |Step(env, s, a).claims| {
        NewClaimStep(env, s, a);
      }
    }
  }

  lemma ClosesPromptly(env: Env, s: Store, a: Action, i: nat)
    requires Ordinary(s, a) && Prompt(env, s, a)
    requires i < |s.claims| && i < |Step(env, s, a).claims| && Open(s.claims[i]) && !Open(Step(env, s, a).claims[i])
    ensures Step(env, s, a).claims[i].validTo == Some(a.now)
  {
    if a.Evaluate? {
      assert Closes(Conflicts(env, s.claims, a.candidate, a.picked), i, s.claims[i], ValidFrom(a.candidate, a.now));
    }
  }

  /** So it does on every prompt run; events may be as late as they like where they close nothing. */
  lemma AsOfTellsHistory(env: Env, actions: seq<Action>, t: int, i: nat)
    requires OrdinaryRun(env, actions) && PromptRun(env, actions) && Clocked(actions)
    ensures Shown(Run(env, actions), t, i) <==> Believed(StateAt(env, actions, t), i)
  {
    PromptOnTime(env, actions, i);
    ClaimTold(env, actions, i);
  }

  /** `current` on the final tables is belief now: at or after the last step it is the same as
      asking for the claims then accepted and open. */
  lemma CurrentIsBelief(env: Env, actions: seq<Action>, t: int, i: nat)
    requires OrdinaryRun(env, actions) && Clocked(actions)
    requires actions != [] ==> actions[|actions| - 1].now <= t
    ensures i < |Run(env, actions).claims| ==>
      (Selects(Current, Run(env, actions).claims[i]) <==> Believed(StateAt(env, actions, t), i))
    ensures i < |Run(env, actions).claims| ==>
      (Selects(Current, Run(env, actions).claims[i]) <==>
        Shown(Run(env, actions), t, i) && Run(env, actions).claims[i].validTo.None?)
  {
    HistoryKept(env, actions);
    ClaimStory(env, actions, t, i);
  }

  // ----- outside prompt runs

  /** A gate step at `now` that closes a claim keeps what `as_of` says about that claim right
      at every time exactly when the superseding event's time is the step's own: a late event
      ends the belief before the system stopped holding it, an event from the future after. */
  lemma ClosingTellsHistoryIff(env: Env, s: Store, a: Action, j: nat)
    requires Accepts(env, s, a) && j < |s.claims| && s.claims[j].recordedAt < a.now
    requires Open(s.claims[j]) && !Open(Step(env, s, a).claims[j])
    ensures (forall t :: Shown(Step(env, s, a), t, j) <==> t < a.now && Shown(s, t, j)) <==>
      ValidFrom(a.candidate, a.now) == a.now
  {
    var s', from := Step(env, s, a), ValidFrom(a.candidate, a.now);
    assert s'.claims[j] == Closed(s.claims[j], from);
    forall t ensures Shown(s', t, j) <==> s.claims[j].recordedAt <= t < from {
    }
    forall t ensures Shown(s, t, j) <==> s.claims[j].recordedAt <= t {
    }
    if from < a.now {
      var t := if from < s.claims[j].recordedAt then s.claims[j].recordedAt else from;
      assert !Shown(s', t, j) && t < a.now && Shown(s, t, j);
    } else if from > a.now {
      assert Shown(s', a.now, j);
    }
  }

  /** A late event: at times between its own and the step that processed it, `as_of` denies a
      belief that the system held. */
  lemma LateArrivalDeniesBelief(env: Env, s: Store, a: Action, j: nat, t: int)
    requires Accepts(env, s, a) && j < |s.claims| && Open(s.claims[j]) && !Open(Step(env, s, a).claims[j])
    requires ValidFrom(a.candidate, a.now) <= t < a.now && s.claims[j].recordedAt <= t
    ensures Believed(s, j) && Shown(s, t, j) && !Shown(Step(env, s, a), t, j)
  {
  }

  predicate Reported(status: Status) {
    status.Accepted? || status.Superseded? || status.Expired?
  }

  /** The decision recorded for a lifecycle write: an accept exactly for the statuses that `as_of`
      reports, a revocation or rejection for those, and a review for the undecided. */
  lemma OutcomesForStatuses(status: Status)
    ensures OutcomeForStatus(status).Accept? <==> Reported(status)
    ensures OutcomeForStatus(status).Revoke? <==> status.Revoked?
    ensures OutcomeForStatus(status).Reject? <==> status.Rejected?
    ensures OutcomeForStatus(status).NeedsReview? <==> status.Disputed? || status.Proposed?
  {
  }

  /** What one lifecycle write does: the claim's status and end change, unless that would leave
      an interval that does not begin before it ends; a decision about the claim is recorded. */
  lemma StatusStepExact(s: Store, id: nat, status: Status, validTo: Option<int>, now: int)
    ensures id >= |s.claims| ==> StatusStep(s, id, status, validTo, now) == s
    ensures id < |s.claims| ==>
      var was, s' := s.claims[id], StatusStep(s, id, status, validTo, now);
      var ends := validTo.None? && was.validTo.None? && (status.Superseded? || status.Revoked? || status.Expired?);
      var to := if validTo.Some? then validTo else if ends then Some(now) else was.validTo;
      if to.Some? && to.value <= was.validFrom then s' == s
      else
        && s'.claims == s.claims[id := was.(status := status, validTo := to)] && s'.relations == s.relations
        && |s'.decisions| == |s.decisions| + 1 && s'.decisions[..|s.decisions|] == s.decisions
        && var d := s'.decisions[|s.decisions|];
           d.StatusRecord? && d.claim_ == id && (d.outcome.Accept? <==> Reported(status))
  {
  }

  /** Where an interval that may be open ends, seen from before `now`. */
  function EndBefore(validTo: Option<int>, now: int): int {
    if validTo.Some? && validTo.value < now then validTo.value else now
  }

  /** `as_of` reports the claim at some time before `now`. */
  ghost predicate SeenBefore(claim: Claim, now: int) {
    Reported(claim.status) && claim.recordedAt < EndBefore(claim.validTo, now)
  }

  lemma SeenSpan(claim: Claim, now: int)
    ensures forall t :: t < now ==>
      (Selects(AsOf(t), claim) <==>
        Reported(claim.status) && InSpan(claim.recordedAt, EndBefore(claim.validTo, now), t))
  {
  }

  /** Two states of one claim that `as_of` reports at the same times before `now`. */
  lemma SamePast(was: Claim, next: Claim, now: int)
    requires was.recordedAt == next.recordedAt
    ensures (forall t :: t < now ==> (Selects(AsOf(t), next) <==> Selects(AsOf(t), was))) <==>
      if SeenBefore(was, now) then Reported(next.status) && EndBefore(next.validTo, now) == EndBefore(was.validTo, now)
      else !SeenBefore(next, now)
  {
    SeenSpan(was, now);
    SeenSpan(next, now);
    var r, e, f := was.recordedAt, EndBefore(was.validTo, now), EndBefore(next.validTo, now);
    if SeenBefore(was, now) {
      assert Selects(AsOf(r), was) && r < now;
      assert Selects(AsOf(e - 1), was) && e - 1 < now;
      assert r < f && Reported(next.status) ==> Selects(AsOf(f - 1), next) && f - 1 < now;
    } else if SeenBefore(next, now) {
      assert Selects(AsOf(r), next) && r < now && !Selects(AsOf(r), was);
    }
  }

  /** When a lifecycle write leaves the past as `as_of` tells it, for every claim, status and
      end: exactly when it is undone, or nothing was and nothing becomes visible before `now`,
      or what was visible stays so with the same end. */
  lemma StatusKeepsPastIff(s: Store, id: nat, status: Status, validTo: Option<int>, now: int)
    requires id < |s.claims|
    ensures var was, s' := s.claims[id], StatusStep(s, id, status, validTo, now);
      var to := NewValidTo(was, status, validTo, now);
      (forall t :: t < now ==> (Shown(s', t, id) <==> Shown(s, t, id))) <==>
        || (to.Some? && to.value <= was.validFrom)
        || (if SeenBefore(was, now) then Reported(status) && EndBefore(to, now) == EndBefore(was.validTo, now)
            else !SeenBefore(was.(status := status, validTo := to), now))
  {
    var was, s' := s.claims[id], StatusStep(s, id, status, validTo, now);
    var to := NewValidTo(was, status, validTo, now);
    if !(to.Some? && to.value <= was.validFrom) {
      SamePast(was, was.(status := status, validTo := to), now);
      assert forall t :: Shown(s', t, id) <==> Selects(AsOf(t), was.(status := status, validTo := to));
    }
  }

  /** So for a claim without an end that became valid and was recorded before `now`, the past
      stays exactly when both statuses are reported or neither is. Expiring a claim that was
      only proposed makes `as_of` report it as once believed; revoking a believed claim removes
      it from every past. */
  lemma StatusesThatRewriteThePast(s: Store, id: nat, status: Status, now: int)
    requires id < |s.claims| && s.claims[id].validTo.None? && s.claims[id].validFrom < now
    requires s.claims[id].recordedAt < now
    ensures var s' := StatusStep(s, id, status, None, now);
      (forall t :: t < now ==> (Shown(s', t, id) <==> Shown(s, t, id))) <==>
        (Reported(status) <==> Reported(s.claims[id].status))
  {
    StatusKeepsPastIff(s, id, status, None, now);
  }
}
