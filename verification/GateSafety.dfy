/**
 What holds in every state that serial gate steps, and closings of open claims, reach.
 */
module GateSafety {
  import opened Utf16
  import opened JsonText
  import opened Scope
  import opened Conflict
  import opened Gate

  /** A lifecycle write that ends an open claim by supersession or expiry. */
  ghost predicate Closing(s: Store, a: Action) {
    && a.ApplyStatus? && (a.status.Superseded? || a.status.Expired?)
    && a.claim < |s.claims| && Open(s.claims[a.claim])
  }

  ghost predicate Ordinary(s: Store, a: Action) {
    a.Evaluate? || Closing(s, a)
  }

  /** Every lifecycle write of the run closes an open claim. */
  ghost predicate OrdinaryRun(env: Env, actions: seq<Action>)
    decreases |actions|
  {
    actions != [] ==>
      var before := actions[..|actions| - 1];
      OrdinaryRun(env, before) && Ordinary(Run(env, before), actions[|actions| - 1])
  }

  // ----- history is kept

  ghost predicate SameIdentity(a: Claim, b: Claim) {
    b == a.(status := b.status, validTo := b.validTo)
  }

  ghost predicate Kept(a: Claim, b: Claim) {
    && SameIdentity(a, b)
    && (a.validTo.Some? ==> b.validTo == a.validTo)
    && (Open(b) ==> Open(a))
  }

  /** No claim is deleted or rewritten, no closed interval moves, no open status comes back. */
  ghost predicate Extends(s: Store, s': Store) {
    && |s.claims| <= |s'.claims|
    && s.relations <= s'.relations && s.decisions <= s'.decisions
    && forall i :: 0 <= i < |s.claims| ==> Kept(s.claims[i], s'.claims[i])
  }

  ghost predicate IntervalOk(claim: Claim) {
    claim.validTo.Some? ==> claim.validFrom < claim.validTo.value
  }

  ghost predicate IntervalsOk(s: Store) {
    forall i :: 0 <= i < |s.claims| ==> IntervalOk(s.claims[i])
  }

  /** While a claim is open-ended it is accepted or proposed; once closed it is not believed. */
  ghost predicate ClaimStatusOk(claim: Claim) {
    if claim.validTo.None? then claim.status.Accepted? || claim.status.Proposed?
    else claim.status.Superseded? || claim.status.Expired?
  }

  ghost predicate StatusOk(s: Store) {
    forall i :: 0 <= i < |s.claims| ==> ClaimStatusOk(s.claims[i])
  }

  lemma HitsWereOpen(env: Env, s: Store, c: Candidate, picked: seq<nat>, i: nat, from: int)
    requires RowsRead(s.claims, c, picked) && i < |s.claims|
    requires Closes(Conflicts(env, s.claims, c, picked), i, s.claims[i], from)
    ensures SameKey(s.claims[i], c) && Open(s.claims[i])
  {
    var hits := Conflicts(env, s.claims, c, picked);
    var h :| h in hits && h.claim == i;
    assert Bearing(env, s.claims, c, picked, h.claim, h.rel);
    var k :| 0 <= k < |picked| && picked[k] == i;
  }

  lemma CloseAllKeeps(claims: seq<Claim>, hits: seq<Hit>, from: int, i: nat)
    requires i < |claims| && IntervalsOk(Store(claims, [], [])) && StatusOk(Store(claims, [], []))
    requires Closes(hits, i, claims[i], from) ==> Open(claims[i])
    ensures Kept(claims[i], CloseAll(claims, hits, from)[i])
    ensures IntervalOk(CloseAll(claims, hits, from)[i]) && ClaimStatusOk(CloseAll(claims, hits, from)[i])
  {
  }

  /** A table whose rows were kept, and one row more, extends the old one. */
  lemma TableGrows(s: Store, claims: seq<Claim>, claim: Claim, relations: seq<Relation>, decisions: seq<Record>)
    requires |claims| == |s.claims| && IntervalOk(claim) && ClaimStatusOk(claim)
    requires forall i :: 0 <= i < |claims| ==>
      Kept(s.claims[i], claims[i]) && IntervalOk(claims[i]) && ClaimStatusOk(claims[i])
    ensures var s' := Store(claims + [claim], s.relations + relations, s.decisions + decisions);
      Extends(s, s') && IntervalsOk(s') && StatusOk(s')
  {
  }

  /** The claims that a gate step starts its new table from. */
  ghost function Standing(s: Store, outcome: Outcome, hits: seq<Hit>, from: int): seq<Claim> {
    if HoldsBelief(outcome) then CloseAll(s.claims, hits, from) else s.claims
  }

  lemma StandingKept(env: Env, s: Store, c: Candidate, now: int, picked: seq<nat>, outcome: Outcome, i: nat)
    requires IntervalsOk(s) && StatusOk(s) && RowsRead(s.claims, c, picked) && i < |s.claims|
    ensures var claims := Standing(s, outcome, Conflicts(env, s.claims, c, picked), ValidFrom(c, now));
      |claims| == |s.claims| && Kept(s.claims[i], claims[i]) && IntervalOk(claims[i]) && ClaimStatusOk(claims[i])
  {
    var hits, from := Conflicts(env, s.claims, c, picked), ValidFrom(c, now);
    if Closes(hits, i, s.claims[i], from) {
      HitsWereOpen(env, s, c, picked, i, from);
    }
    CloseAllKeeps(s.claims, hits, from, i);
  }

  lemma GateKeepsHistory(env: Env, s: Store, c: Candidate, verdict: Verdict, now: int, picked: seq<nat>)
    requires IntervalsOk(s) && StatusOk(s) && RowsRead(s.claims, c, picked)
    ensures var s' := GateStep(env, s, c, verdict, now, picked); Extends(s, s') && IntervalsOk(s') && StatusOk(s')
  {
    if c.requestedScope.Some? && c.eventScope.Some? {
      var hits, from := Conflicts(env, s.claims, c, picked), ValidFrom(c, now);
      var outcome, id := OutcomeOf(env, s, c, verdict, picked), |s.claims|;
      if !outcome.Reject? {
        var claims := Standing(s, outcome, hits, from);
        forall i | 0 <= i < |s.claims|
          ensures |claims| == |s.claims| && Kept(s.claims[i], claims[i]) && IntervalOk(claims[i]) &&
            ClaimStatusOk(claims[i])
        {
          StandingKept(env, s, c, now, picked, outcome, i);
        }
        TableGrows(s, claims, NewClaim(c, AcceptedScope(c, outcome), StatusFor(outcome), from, now),
                   RelationsFrom(id, hits), [GateRecord(c, verdict, outcome, Some(id))]);
      }
    }
  }

  lemma ClosingKeepsHistory(s: Store, id: nat, status: Status, validTo: Option<int>, now: int)
    requires IntervalsOk(s) && StatusOk(s) && Closing(s, ApplyStatus(id, status, validTo, now))
    ensures var s' := StatusStep(s, id, status, validTo, now); Extends(s, s') && IntervalsOk(s') && StatusOk(s')
  {
  }

  lemma StepKeepsHistory(env: Env, s: Store, a: Action)
    requires IntervalsOk(s) && StatusOk(s) && Ordinary(s, a)
    ensures var s' := Step(env, s, a); Extends(s, s') && IntervalsOk(s') && StatusOk(s')
  {
    match a
    case Evaluate(c, verdict, now, picked) =>
      if RowsRead(s.claims, c, picked) {
        GateKeepsHistory(env, s, c, verdict, now, picked);
      }
    case ApplyStatus(id, status, validTo, now) => ClosingKeepsHistory(s, id, status, validTo, now);
  }

  /** In every reachable state closed intervals are proper and only open claims are believed;
      and every step only extends the tables. */
  lemma {:induction false} HistoryKept(env: Env, actions: seq<Action>)
    requires OrdinaryRun(env, actions)
    ensures IntervalsOk(Run(env, actions)) && StatusOk(Run(env, actions))
    ensures actions != [] ==> Extends(Run(env, actions[..|actions| - 1]), Run(env, actions))
    decreases |actions|
  {
    if actions != [] {
      var before := actions[..|actions| - 1];
      HistoryKept(env, before);
      StepKeepsHistory(env, Run(env, before), actions[|actions| - 1]);
    }
  }

  // ----- no believed contradiction

  ghost predicate Contradictory(env: Env, a: Claim, b: Claim) {
    && a.tenant == b.tenant && a.subject == b.subject && a.relation == b.relation
    && Classify(env.js, NormalizeObject(env.js, a.value), NormalizeObject(env.js, b.value)) == Some(Contradicts)
  }

  ghost predicate Consistent(env: Env, s: Store) {
    forall i, j :: 0 <= i < j < |s.claims| && Open(s.claims[i]) && Open(s.claims[j]) ==>
      !Contradictory(env, s.claims[i], s.claims[j])
  }

  ghost function OpenOf(claims: seq<Claim>, c: Candidate): set<nat> {
    set i | 0 <= i < |claims| && claims[i].tenant == c.tenant && claims[i].subject == c.subject
            && claims[i].relation == c.relation && claims[i].status.Accepted? && claims[i].validTo.None?
  }

  ghost predicate Accepts(env: Env, s: Store, a: Action) {
    && a.Evaluate? && RowsRead(s.claims, a.candidate, a.picked)
    && a.candidate.requestedScope.Some? && a.candidate.eventScope.Some?
    && HoldsBelief(OutcomeOf(env, s, a.candidate, a.verdict, a.picked))
  }

  /** An open claim of the candidate's key that contradicts it and that the query left out. */
  ghost predicate Overlooked(env: Env, s: Store, c: Candidate, picked: seq<nat>, i: nat) {
    && i < |s.claims| && i !in picked
    && SameKey(s.claims[i], c) && Open(s.claims[i]) && RelTo(env, s.claims[i], c) == Some(Contradicts)
  }

  lemma NoneReadContradicts(env: Env, s: Store, a: Action)
    requires Accepts(env, s, a)
    ensures forall i :: i in a.picked && i < |s.claims| ==> RelTo(env, s.claims[i], a.candidate) != Some(Contradicts)
  {
    var hits := Conflicts(env, s.claims, a.candidate, a.picked);
    forall i | i in a.picked && i < |s.claims| ensures RelTo(env, s.claims[i], a.candidate) != Some(Contradicts) {
      assert Hit(i, Contradicts) in hits <==> Bearing(env, s.claims, a.candidate, a.picked, i, Contradicts);
    }
  }

  /** What an accepting step does to a claim that was there: nothing that matters here, unless
      it was read and closed; a row that was not read stays as it is. */
  lemma UnreadStays(env: Env, s: Store, a: Action, i: nat)
    requires Accepts(env, s, a) && i < |s.claims|
    ensures SameIdentity(s.claims[i], Step(env, s, a).claims[i])
    ensures Open(Step(env, s, a).claims[i]) ==> Open(s.claims[i])
    ensures i !in a.picked ==> Step(env, s, a).claims[i] == s.claims[i]
  {
    var c, from := a.candidate, ValidFrom(a.candidate, a.now);
    if Closes(Conflicts(env, s.claims, c, a.picked), i, s.claims[i], from) {
      HitsWereOpen(env, s, c, a.picked, i, from);
    }
  }

  /** An accepting step keeps belief consistent exactly when the query left no contradicting
      claim out, which is known before the step. */
  lemma AcceptConsistentIff(env: Env, s: Store, a: Action)
    requires Consistent(env, s) && Accepts(env, s, a)
    ensures Consistent(env, Step(env, s, a)) <==> !exists i :: Overlooked(env, s, a.candidate, a.picked, i)
  {
    var s', c, n := Step(env, s, a), a.candidate, |s.claims|;
    NoneReadContradicts(env, s, a);
    assert Open(s'.claims[n]) && s'.claims[n].value == c.value && SameKey(s'.claims[n], c);
    forall i | 0 <= i < n
      ensures Open(s'.claims[i]) && Contradictory(env, s'.claims[i], s'.claims[n]) <==>
        Overlooked(env, s, c, a.picked, i)
    {
      UnreadStays(env, s, a, i);
      assert i in a.picked ==> RelTo(env, s.claims[i], c) != Some(Contradicts);
    }
    forall i, j | 0 <= i < j < n && Open(s'.claims[i]) && Open(s'.claims[j])
      ensures !Contradictory(env, s'.claims[i], s'.claims[j])
    {
      UnreadStays(env, s, a, i);
      UnreadStays(env, s, a, j);
    }
  }

  /** With at most 64 open claims under the key, the query returns all of them. */
  lemma AllRowsRead(claims: seq<Claim>, c: Candidate, picked: seq<nat>, i: nat)
    requires RowsRead(claims, c, picked) && |OpenOf(claims, c)| <= ROW_LIMIT && i in OpenOf(claims, c)
    ensures i in picked
  {
    var read := Members(picked);
    DistinctSize(picked);
    assert read <= OpenOf(claims, c) by {
      forall k | k in read ensures k in OpenOf(claims, c) {
        var m :| 0 <= m < |picked| && picked[m] == k;
      }
    }
    SubsetSize(read, OpenOf(claims, c));
  }

  lemma {:induction false} SomeOf(s: set<nat>, n: nat) returns (picked: seq<nat>)
    requires n <= |s|
    ensures |picked| == n && forall k :: 0 <= k < n ==> picked[k] in s
    ensures forall j, k :: 0 <= j < k < n ==> picked[j] != picked[k]
    decreases n
  {
    if n == 0 {
      picked := [];
    } else {
      var x :| x in s;
      var rest := SomeOf(s - {x}, n - 1);
      picked := [x] + rest;
    }
  }

  lemma CrowdLeavesOut(claims: seq<Claim>, c: Candidate) returns (picked: seq<nat>, i: nat)
    requires |OpenOf(claims, c)| > ROW_LIMIT
    ensures RowsRead(claims, c, picked) && i in OpenOf(claims, c) && i !in picked
  {
    picked := SomeOf(OpenOf(claims, c), ROW_LIMIT);
    DistinctSize(picked);
    if OpenOf(claims, c) <= Members(picked) {
      SubsetSize(OpenOf(claims, c), Members(picked));
    }
    i :| i in OpenOf(claims, c) && i !in Members(picked);
  }

  /** Whatever rows the query picks, it reads every open claim of the key exactly when there
      are at most 64 of them. */
  lemma AllRowsReadIff(claims: seq<Claim>, c: Candidate)
    ensures (forall picked, i :: RowsRead(claims, c, picked) && i in OpenOf(claims, c) ==> i in picked) <==>
      |OpenOf(claims, c)| <= 64
  {
    if |OpenOf(claims, c)| <= ROW_LIMIT {
      forall picked, i | RowsRead(claims, c, picked) && i in OpenOf(claims, c) ensures i in picked {
        AllRowsRead(claims, c, picked, i);
      }
    } else {
      var picked, i := CrowdLeavesOut(claims, c);
      assert RowsRead(claims, c, picked) && i in OpenOf(claims, c);
    }
  }

  ghost function Members(picked: seq<nat>): set<nat> {
    set k | k in picked
  }

  lemma {:induction false} DistinctSize(picked: seq<nat>)
    requires forall m, n :: 0 <= m < n < |picked| ==> picked[m] != picked[n]
    ensures |Members(picked)| == |picked|
  {
    if picked != [] {
      var front, last := picked[..|picked| - 1], picked[|picked| - 1];
      DistinctSize(front);
      assert picked == front + [last];
      assert Members(picked) == Members(front) + {last};
      assert last !in front;
    }
  }

  lemma {:induction false} SubsetSize(a: set<nat>, b: set<nat>)
    requires a <= b
    ensures |a| <= |b| && (|a| == |b| ==> a == b)
    decreases |b|
  {
    if x :| x in a {
      SubsetSize(a - {x}, b - {x});
      assert |a - {x}| == |a| - 1 && |b - {x}| == |b| - 1;
      if |a| == |b| {
        assert a == (a - {x}) + {x} == (b - {x}) + {x} == b;
      }
    }
  }

  ghost predicate Uncrowded(s: Store, a: Action) {
    a.Evaluate? ==> |OpenOf(s.claims, a.candidate)| <= ROW_LIMIT
  }

  ghost predicate UncrowdedRun(env: Env, actions: seq<Action>)
    decreases |actions|
  {
    actions != [] ==>
      var before := actions[..|actions| - 1];
      UncrowdedRun(env, before) && Uncrowded(Run(env, before), actions[|actions| - 1])
  }

  lemma StepKeepsConsistent(env: Env, s: Store, a: Action)
    requires IntervalsOk(s) && StatusOk(s) && Ordinary(s, a) && Uncrowded(s, a) && Consistent(env, s)
    ensures Consistent(env, Step(env, s, a))
  {
    var s' := Step(env, s, a);
    if Accepts(env, s, a) {
      AcceptConsistentIff(env, s, a);
      forall i ensures !Overlooked(env, s, a.candidate, a.picked, i) {
        if Overlooked(env, s, a.candidate, a.picked, i) {
          assert i in OpenOf(s.claims, a.candidate);
          AllRowsRead(s.claims, a.candidate, a.picked, i);
        }
      }
    } else {
      StepKeepsHistory(env, s, a);
      forall i, j | 0 <= i < j < |s'.claims| && Open(s'.claims[i]) && Open(s'.claims[j])
        ensures !Contradictory(env, s'.claims[i], s'.claims[j])
      {
        assert j < |s.claims|;
        assert Kept(s.claims[i], s'.claims[i]) && Kept(s.claims[j], s'.claims[j]);
      }
    }
  }

  // ----- the query has no order

  lemma SameHits(env: Env, s: Store, c: Candidate, picked: seq<nat>, other: seq<nat>)
    requires RowsRead(s.claims, c, picked) && RowsRead(s.claims, c, other) && |OpenOf(s.claims, c)| <= ROW_LIMIT
    ensures forall h :: h in Conflicts(env, s.claims, c, picked) <==> h in Conflicts(env, s.claims, c, other)
  {
    forall i ensures i in picked <==> i in other {
      if i in picked {
        var k :| 0 <= k < |picked| && picked[k] == i;
        AllRowsRead(s.claims, c, other, i);
      }
      if i in other {
        var k :| 0 <= k < |other| && other[k] == i;
        AllRowsRead(s.claims, c, picked, i);
      }
    }
    forall h ensures h in Conflicts(env, s.claims, c, picked) <==> h in Conflicts(env, s.claims, c, other) {
      assert Bearing(env, s.claims, c, picked, h.claim, h.rel) <==> Bearing(env, s.claims, c, other, h.claim, h.rel);
    }
  }

  /** Which claims are closed does not depend on the order of the hits, and closing again
      changes nothing. */
  lemma ClosingOrderless(claims: seq<Claim>, hits: seq<Hit>, other: seq<Hit>, from: int)
    requires forall h :: h in hits <==> h in other
    ensures CloseAll(claims, hits, from) == CloseAll(claims, other, from)
    ensures CloseAll(CloseAll(claims, hits, from), hits, from) == CloseAll(claims, hits, from)
  {
  }

  /** The query has no ORDER BY. Within the limit that is harmless: whatever order the rows come
      in, the outcome, the claims and the decision are the same. */
  lemma QueryOrderIrrelevant(env: Env, s: Store, c: Candidate, verdict: Verdict, now: int, picked: seq<nat>,
      other: seq<nat>)
    requires RowsRead(s.claims, c, picked) && RowsRead(s.claims, c, other) && |OpenOf(s.claims, c)| <= ROW_LIMIT
    ensures var s1, s2 := GateStep(env, s, c, verdict, now, picked), GateStep(env, s, c, verdict, now, other);
      s1.claims == s2.claims && s1.decisions == s2.decisions
  {
    SameHits(env, s, c, picked, other);
    ClosingOrderless(s.claims, Conflicts(env, s.claims, c, picked), Conflicts(env, s.claims, c, other),
      ValidFrom(c, now));
    assert Contradicted(Conflicts(env, s.claims, c, picked)) <==> Contradicted(Conflicts(env, s.claims, c, other));
  }

  /** No believed contradiction: on every run in which no key ever had more than 64 open
      claims at a step, no two open accepted claims of one key contradict each other, in
      either order. */
  lemma {:induction false} NoBelievedContradiction(env: Env, actions: seq<Action>)
    requires OrdinaryRun(env, actions) && UncrowdedRun(env, actions)
    ensures var s := Run(env, actions);
      forall i, j :: 0 <= i < |s.claims| && 0 <= j < |s.claims| && i != j && Open(s.claims[i]) && Open(s.claims[j]) ==>
        !Contradictory(env, s.claims[i], s.claims[j])
    decreases |actions|
  {
    ConsistentRun(env, actions);
    var s := Run(env, actions);
    forall i, j | 0 <= i < |s.claims| && 0 <= j < |s.claims| && i != j && Open(s.claims[i]) && Open(s.claims[j])
      ensures !Contradictory(env, s.claims[i], s.claims[j])
    {
      ContradictionSymmetric(env.js, NormalizeObject(env.js, s.claims[i].value),
        NormalizeObject(env.js, s.claims[j].value));
      assert if i < j then !Contradictory(env, s.claims[i], s.claims[j])
        else !Contradictory(env, s.claims[j], s.claims[i]);
    }
  }

  lemma {:induction false} ConsistentRun(env: Env, actions: seq<Action>)
    requires OrdinaryRun(env, actions) && UncrowdedRun(env, actions)
    ensures Consistent(env, Run(env, actions))
    decreases |actions|
  {
    if actions != [] {
      var before := actions[..|actions| - 1];
      ConsistentRun(env, before);
      HistoryKept(env, before);
      StepKeepsConsistent(env, Run(env, before), actions[|actions| - 1]);
    }
  }

  // ----- belief is earned

  /** All that auto-acceptance asks of a candidate and its verdict. */
  ghost predicate Earned(env: Env, c: Candidate, verdict: Verdict) {
    && IntegrityOk(env, c)
    && verdict.result.Entailed? && verdict.score >= env.policy.entailmentFloor
    && c.authority in env.policy.autoAcceptAuthorities
    && c.kind !in env.policy.quarantineKinds && c.sensitivity != Lit("high")
    && !(c.instructionLike && (c.origin.Document? || c.origin.Database?))
  }

  /** The claim says what the candidate proposed. */
  predicate Says(claim: Claim, c: Candidate) {
    && claim.tenant == c.tenant && claim.subject == c.subject && claim.relation == c.relation
    && claim.value == c.value && claim.kind == c.kind && claim.authority == c.authority
  }

  ghost predicate Warrants(env: Env, d: Record, id: nat, claim: Claim) {
    && d.GateRecord? && d.claim == Some(id) && (d.outcome.Accept? || d.outcome.AcceptLimitedScope?)
    && Earned(env, d.candidate, d.verdict) && Says(claim, d.candidate)
    && d.candidate.requestedScope.Some? && d.candidate.eventScope.Some?
    && var requested, event := d.candidate.requestedScope.value, d.candidate.eventScope.value;
       && Contained(claim.scope, event)
       && claim.scope == (if Contained(requested, event) then requested else event)
  }

  ghost predicate AllEarned(env: Env, s: Store) {
    forall i :: 0 <= i < |s.claims| && !s.claims[i].status.Proposed? ==>
      exists d :: d in s.decisions && Warrants(env, d, i, s.claims[i])
  }

  /** The gate believes exactly what is earned, consistent with what it read, and containable. */
  lemma BelievesIff(env: Env, c: Candidate, requested: ScopeRow, eventScope: ScopeRow, verdict: Verdict,
      contradicted: bool)
    ensures HoldsBelief(Decide(env, c, requested, eventScope, verdict, contradicted)) <==>
      && Earned(env, c, verdict) && !contradicted
      && (Contained(requested, eventScope) || requested.tenant == eventScope.tenant)
  {
    var supporting := Supporting(c.spans);
    var usable := Usable(env.sha, supporting);
    assert |supporting| > 0 <==> exists e :: e in c.spans && e.role.Supports? by {
      if |supporting| > 0 {
        assert supporting[0] in supporting;
      }
    }
    assert |supporting| > 0 && |usable| == |supporting| <==> IntegrityOk(env, c);
  }

  /** A span verifies exactly when the event is there, unredacted and long enough, and the bytes
      now under the span are the ones that were cited. */
  lemma QuoteUnchanged(sha: Text -> Text, cited: Text, start: nat, end: nat, event: Option<Payload>)
    requires (forall x, y :: sha(x) == sha(y) ==> x == y)
    ensures VerifySpan(sha, SpanRecord(start, end, sha(cited)), event).SpanOk? <==>
      && event.Some? && !event.value.redacted && event.value.content.Some?
      && end <= |event.value.content.value|
      && (if start <= end then event.value.content.value[start..end] else []) == cited
  {
    if event.Some? && event.value.content.Some? && end <= |event.value.content.value| {
      var now := Slice(event.value.content.value, start, end);
      assert sha(now) == sha(cited) <==> now == cited;
    }
  }

  ghost predicate SomeSupport(env: Env, c: Candidate) {
    exists e :: e in c.spans && e.role.Supports? && VerifySpan(env.sha, e.span, e.event).SpanOk?
  }

  predicate Withheld(env: Env, c: Candidate) {
    || c.kind in env.policy.quarantineKinds || c.sensitivity == Lit("high")
    || (c.instructionLike && (c.origin.Document? || c.origin.Database?))
  }

  /** When each outcome is reached: rejection only of what has no verified support or is
      contradicted by it; quarantine of what is left and must not be believed unseen; the
      narrowed acceptance only where nothing but the scope stands in the way. */
  lemma OutcomeExact(env: Env, c: Candidate, requested: ScopeRow, eventScope: ScopeRow, verdict: Verdict,
      contradicted: bool)
    ensures var o := Decide(env, c, requested, eventScope, verdict, contradicted);
      && (o.Reject? <==> !SomeSupport(env, c) || verdict.result.Contradiction?)
      && (o.Quarantine? <==> SomeSupport(env, c) && !verdict.result.Contradiction? && Withheld(env, c))
      && (o.Accept? <==> Earned(env, c, verdict) && !contradicted && Contained(requested, eventScope))
      && (o.AcceptLimitedScope? <==>
           Earned(env, c, verdict) && !contradicted && !Contained(requested, eventScope) &&
             requested.tenant == eventScope.tenant)
      && !o.Revoke?
  {
    BelievesIff(env, c, requested, eventScope, verdict, contradicted);
    var usable := Usable(env.sha, Supporting(c.spans));
    if |usable| > 0 {
      assert usable[0] in usable;
    }
    assert |usable| > 0 <==> SomeSupport(env, c);
  }

  lemma ScopeStaysWithin(scope: ScopeRow)
    ensures Contained(scope, scope)
  {
  }

  lemma NewBeliefEarned(env: Env, s: Store, a: Action)
    requires Accepts(env, s, a)
    ensures var s', n := Step(env, s, a), |s.claims|;
      exists d :: d in s'.decisions && Warrants(env, d, n, s'.claims[n])
  {
    var s', c, n := Step(env, s, a), a.candidate, |s.claims|;
    var hits := Conflicts(env, s.claims, c, a.picked);
    var outcome := OutcomeOf(env, s, c, a.verdict, a.picked);
    BelievesIff(env, c, c.requestedScope.value, c.eventScope.value, a.verdict, Contradicted(hits));
    ScopeStaysWithin(c.eventScope.value);
    var d := GateRecord(c, a.verdict, outcome, Some(n));
    assert d in s'.decisions && Warrants(env, d, n, s'.claims[n]);
  }

  lemma OldBeliefEarned(env: Env, s: Store, s': Store, i: nat)
    requires i < |s.claims| && i < |s'.claims| && SameIdentity(s.claims[i], s'.claims[i]) && s.decisions <= s'.decisions
    requires exists d :: d in s.decisions && Warrants(env, d, i, s.claims[i])
    ensures exists d :: d in s'.decisions && Warrants(env, d, i, s'.claims[i])
  {
    var d :| d in s.decisions && Warrants(env, d, i, s.claims[i]);
    assert d in s'.decisions && Warrants(env, d, i, s'.claims[i]);
  }

  /** A claim that is only proposed stays so: gate steps and closings touch open claims. */
  lemma ProposedStays(env: Env, s: Store, a: Action, i: nat)
    requires Ordinary(s, a) && i < |s.claims| && s.claims[i].status.Proposed?
    ensures Step(env, s, a).claims[i] == s.claims[i]
  {
    if a.Evaluate? && RowsRead(s.claims, a.candidate, a.picked) &&
       a.candidate.requestedScope.Some? && a.candidate.eventScope.Some? {
      var c := a.candidate;
      if Closes(Conflicts(env, s.claims, c, a.picked), i, s.claims[i], ValidFrom(c, a.now)) {
        HitsWereOpen(env, s, c, a.picked, i, ValidFrom(c, a.now));
      }
    }
  }

  lemma StepKeepsEarned(env: Env, s: Store, a: Action)
    requires IntervalsOk(s) && StatusOk(s) && Ordinary(s, a) && AllEarned(env, s)
    ensures AllEarned(env, Step(env, s, a))
  {
    var s' := Step(env, s, a);
    StepKeepsHistory(env, s, a);
    forall i | 0 <= i < |s'.claims| && !s'.claims[i].status.Proposed?
      ensures exists d :: d in s'.decisions && Warrants(env, d, i, s'.claims[i])
    {
      if i == |s.claims| {
        NewBeliefEarned(env, s, a);
      } else {
        if s.claims[i].status.Proposed? {
          ProposedStays(env, s, a, i);
        }
        OldBeliefEarned(env, s, s', i);
      }
    }
  }

  /** Belief is always earned: in every reachable state each claim that is or was believed has
      a decision of the gate on it, whose candidate had supporting spans that all verified,
      entailment at or above the floor, a strong authority, no quarantined kind, no high
      sensitivity and no instruction from an external origin; and the scope it is stored
      under lies within the scope of its event. */
  lemma {:induction false} BeliefIsEarned(env: Env, actions: seq<Action>)
    requires OrdinaryRun(env, actions)
    ensures AllEarned(env, Run(env, actions))
    decreases |actions|
  {
    if actions != [] {
      var before := actions[..|actions| - 1];
      BeliefIsEarned(env, before);
      HistoryKept(env, before);
      StepKeepsEarned(env, Run(env, before), actions[|actions| - 1]);
    }
  }

  /** And each such claim holds exactly where its candidate asked for it, if that lay within the
      event's scope, and exactly where the event did otherwise: never anywhere else. */
  lemma BeliefCoversRequest(env: Env, actions: seq<Action>, i: nat)
    requires OrdinaryRun(env, actions)
    requires i < |Run(env, actions).claims| && !Run(env, actions).claims[i].status.Proposed?
    ensures var s, claim := Run(env, actions), Run(env, actions).claims[i];
      exists d :: d in s.decisions && d.GateRecord? && d.claim == Some(i) && Says(claim, d.candidate)
        && d.candidate.requestedScope.Some? && d.candidate.eventScope.Some?
        && CoversAsAsked(claim.scope, d.candidate.requestedScope.value, d.candidate.eventScope.value)
  {
    BeliefIsEarned(env, actions);
    var s := Run(env, actions);
    var d :| d in s.decisions && Warrants(env, d, i, s.claims[i]);
    AskedScope(s.claims[i].scope, d.candidate.requestedScope.value, d.candidate.eventScope.value);
  }

  ghost predicate CoversAsAsked(scope: ScopeRow, requested: ScopeRow, event: ScopeRow) {
    && Includes(event, scope)
    && (requested.purpose != [] && Includes(event, requested) ==> forall p :: Covers(scope, p) <==>
      Covers(requested, p))
    && (!Includes(event, requested) ==> forall p :: Covers(scope, p) <==> Covers(event, p))
  }

  lemma AskedScope(scope: ScopeRow, requested: ScopeRow, event: ScopeRow)
    requires Contained(scope, event) && scope == (if Contained(requested, event) then requested else event)
    ensures CoversAsAsked(scope, requested, event)
  {
    ContainedIncludes(scope, event);
    ContainmentIsInclusion(requested, event);
  }

  // ----- one open claim per key

  ghost predicate ScalarKey(env: Env, s: Store, c: Candidate) {
    && !LooksStructured(NormalizeObject(env.js, c.value))
    && forall i :: 0 <= i < |s.claims| && SameKey(s.claims[i], c) && Open(s.claims[i]) ==>
         !LooksStructured(NormalizeObject(env.js, s.claims[i].value))
  }

  ghost predicate AtMostOneOpen(s: Store, c: Candidate) {
    forall i, j :: 0 <= i < j < |s.claims| && SameKey(s.claims[i], c) && SameKey(s.claims[j], c) ==>
      !(Open(s.claims[i]) && Open(s.claims[j]))
  }

  ghost predicate LaterThanOpen(s: Store, c: Candidate, from: int) {
    forall i :: 0 <= i < |s.claims| && SameKey(s.claims[i], c) && Open(s.claims[i]) ==> s.claims[i].validFrom < from
  }

  /** On scalar objects an accepted claim replaces the open claim of its key exactly when it
      became true strictly later; an equal or earlier `valid_from` leaves both open. */
  lemma ReplacesIffLater(env: Env, s: Store, a: Action)
    requires Accepts(env, s, a) && ScalarKey(env, s, a.candidate) && AtMostOneOpen(s, a.candidate)
    ensures AtMostOneOpen(Step(env, s, a), a.candidate) <==>
      LaterThanOpen(s, a.candidate, ValidFrom(a.candidate, a.now))
  {
    var s', c, n, from := Step(env, s, a), a.candidate, |s.claims|, ValidFrom(a.candidate, a.now);
    var hits := Conflicts(env, s.claims, c, a.picked);
    assert Open(s'.claims[n]) && SameKey(s'.claims[n], c);
    FewOpen(s, c, a.picked);
    forall i | 0 <= i < n && SameKey(s.claims[i], c) && Open(s.claims[i])
      ensures Open(s'.claims[i]) <==> !(s.claims[i].validFrom < from)
    {
      ScalarPartition(env.js, NormalizeObject(env.js, s.claims[i].value), NormalizeObject(env.js, c.value), []);
      assert Hit(i, Contradicts) in hits <==> Bearing(env, s.claims, c, a.picked, i, Contradicts);
      assert Hit(i, Duplicates) in hits <==> Bearing(env, s.claims, c, a.picked, i, Duplicates);
    }
  }

  lemma TwoOpen(s: Store, c: Candidate, picked: seq<nat>)
    requires RowsRead(s.claims, c, picked) && |picked| >= 2
    ensures !AtMostOneOpen(s, c)
  {
    assert picked[0] != picked[1];
  }

  lemma FewOpen(s: Store, c: Candidate, picked: seq<nat>)
    requires AtMostOneOpen(s, c) && RowsRead(s.claims, c, picked)
    ensures forall i :: 0 <= i < |s.claims| && SameKey(s.claims[i], c) && Open(s.claims[i]) ==> i in picked
  {
    if |picked| >= 2 {
      TwoOpen(s, c, picked);
    }
  }

  // ----- runs with one open claim per key

  /** Every accept finds scalars under its key, all of which became true before it. */
  ghost predicate ReplacingRun(env: Env, actions: seq<Action>)
    decreases |actions|
  {
    actions != [] ==>
      var before, a := actions[..|actions| - 1], actions[|actions| - 1];
      && ReplacingRun(env, before)
      && (Accepts(env, Run(env, before), a) ==>
           && ScalarKey(env, Run(env, before), a.candidate)
           && LaterThanOpen(Run(env, before), a.candidate, ValidFrom(a.candidate, a.now)))
  }

  lemma StepKeepsOne(env: Env, s: Store, a: Action, c: Candidate)
    requires IntervalsOk(s) && StatusOk(s) && Ordinary(s, a) && AtMostOneOpen(s, c)
    requires Accepts(env, s, a) && a.candidate.tenant == c.tenant && a.candidate.subject == c.subject &&
             a.candidate.relation == c.relation ==>
               ScalarKey(env, s, a.candidate) && LaterThanOpen(s, a.candidate, ValidFrom(a.candidate, a.now))
    ensures AtMostOneOpen(Step(env, s, a), c)
  {
    var s' := Step(env, s, a);
    StepKeepsHistory(env, s, a);
    if Accepts(env, s, a) && a.candidate.tenant == c.tenant && a.candidate.subject == c.subject &&
       a.candidate.relation == c.relation {
      assert AtMostOneOpen(s, a.candidate) by {
        assert forall i :: 0 <= i < |s.claims| ==> (SameKey(s.claims[i], c) <==> SameKey(s.claims[i], a.candidate));
      }
      ReplacesIffLater(env, s, a);
      assert forall i :: 0 <= i < |s'.claims| ==> (SameKey(s'.claims[i], c) <==> SameKey(s'.claims[i], a.candidate));
    } else {
      forall i, j | 0 <= i < j < |s'.claims| && SameKey(s'.claims[i], c) && SameKey(s'.claims[j], c)
        ensures !(Open(s'.claims[i]) && Open(s'.claims[j]))
      {
        if j < |s.claims| {
          assert SameIdentity(s.claims[i], s'.claims[i]) && SameIdentity(s.claims[j], s'.claims[j]);
        }
      }
    }
  }

  /** On runs whose accepts on a key have scalar objects and strictly increasing valid-from,
      at most one claim of the key is open in every reachable state. */
  lemma {:induction false} OneOpenPerKey(env: Env, actions: seq<Action>, c: Candidate)
    requires OrdinaryRun(env, actions) && ReplacingRun(env, actions)
    ensures AtMostOneOpen(Run(env, actions), c)
    decreases |actions|
  {
    if actions != [] {
      var before := actions[..|actions| - 1];
      OneOpenPerKey(env, before, c);
      HistoryKept(env, before);
      StepKeepsOne(env, Run(env, before), actions[|actions| - 1], c);
    }
  }
}
