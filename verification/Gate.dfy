/**
 The commit gate: one `evaluate` over the claims, relations and decisions tables, and the
 lifecycle write `applyStatus`. Steps are serial. Times are milliseconds.
 */
module Gate {
  import opened Utf16
  import opened JsonText
  import opened Canonical
  import opened Scope
  import opened Conflict

  datatype Status = Proposed | Accepted | Disputed | Superseded | Rejected | Revoked | Expired

  datatype ClaimKind = Observation | UserSelfReport | Preference | Event | Decision | Plan
                     | Hypothesis | Procedure | Permission | DerivedSummary

  datatype AuthorityClass = VerifiedRecord | ObservedFact | SelfReport | Hearsay | Inference

  datatype Origin = User | Agent | Tool | Document | Database | ModelInference

  datatype EntailmentResult = Entailed | Neutral | Contradiction | Unknown

  datatype Verdict = Verdict(result: EntailmentResult, score: real)

  datatype Outcome = Accept | AcceptLimitedScope | NeedsReview | Quarantine | Reject | Revoke

  datatype CommitPolicy = CommitPolicy(quarantineKinds: seq<ClaimKind>, autoAcceptAuthorities: seq<AuthorityClass>,
                                       entailmentFloor: real)

  const DEFAULT_COMMIT_POLICY :=
    CommitPolicy([Procedure, Permission], [VerifiedRecord, ObservedFact, SelfReport], 0.5)

  // ----- evidence

  datatype Role = Supports | Refutes

  datatype SpanRecord = SpanRecord(start: nat, end: nat, digest: Text)

  /** Payload bytes as the ledger returns them now. */
  datatype Payload = Payload(content: Option<Text>, redacted: bool)

  datatype SpanEntry = SpanEntry(span: SpanRecord, role: Role, event: Option<Payload>)

  datatype SpanStatus = SpanOk | SpanRedacted | DigestMismatch | OutOfBounds | SpanMissing

  function Slice(bytes: Text, start: nat, end: nat): Text
    requires end <= |bytes|
  {
    if start <= end then bytes[start..end] else []
  }

  /** `Ledger.verifySpan` */
  function VerifySpan(sha: Text -> Text, span: SpanRecord, event: Option<Payload>): SpanStatus {
    if event.None? then SpanMissing
    else if event.value.redacted || event.value.content.None? then SpanRedacted
    else
      var bytes := event.value.content.value;
      if span.end > |bytes| then OutOfBounds
      else if sha(Slice(bytes, span.start, span.end)) != span.digest then DigestMismatch
      else SpanOk
  }

  function Supporting(spans: seq<SpanEntry>): (r: seq<SpanEntry>)
    ensures forall e :: e in r <==> e in spans && e.role.Supports?
  {
    if spans == [] then []
    else (if spans[0].role.Supports? then [spans[0]] else []) + Supporting(spans[1..])
  }

  function Usable(sha: Text -> Text, spans: seq<SpanEntry>): (r: seq<SpanEntry>)
    ensures forall e :: e in r <==> e in spans && VerifySpan(sha, e.span, e.event).SpanOk?
    ensures |r| <= |spans|
    ensures |r| == |spans| <==> forall e :: e in spans ==> VerifySpan(sha, e.span, e.event).SpanOk?
  {
    if spans == [] then []
    else
      assert spans == [spans[0]] + spans[1..];
      (if VerifySpan(sha, spans[0].span, spans[0].event).SpanOk? then [spans[0]] else []) + Usable(sha, spans[1..])
  }

  // ----- tables

  datatype Candidate = Candidate(
    tenant: Text, subject: Text, relation: Text, value: Value, kind: ClaimKind, sensitivity: Text,
    authority: AuthorityClass, origin: Origin,
    requestedScope: Option<ScopeRow>, eventScope: Option<ScopeRow>,   // None: no such scope row
    spans: seq<SpanEntry>,
    instructionLike: bool,           // scan of the event's content; false where it is null
    occurredAt: Option<int>)         // of the source event; None where there is no such row

  datatype Claim = Claim(
    tenant: Text, subject: Text, relation: Text, value: Value, kind: ClaimKind, scope: ScopeRow,
    authority: AuthorityClass, status: Status, validFrom: int, validTo: Option<int>, recordedAt: int)

  datatype Hit = Hit(claim: nat, rel: Rel)

  datatype Relation = Relation(from: nat, to: nat, rel: Rel)

  datatype Record =
    | GateRecord(candidate: Candidate, verdict: Verdict, outcome: Outcome, claim: Option<nat>)
    | StatusRecord(claim_: nat, outcome: Outcome)

  /** Claims are named by their place in the table; nothing is ever deleted from it. */
  datatype Store = Store(claims: seq<Claim>, relations: seq<Relation>, decisions: seq<Record>)

  const EMPTY_STORE := Store([], [], [])

  datatype Env = Env(sha: Text -> Text, js: Runtime, policy: CommitPolicy)

  const ROW_LIMIT: nat := 64

  // ----- conflicts

  predicate SameKey(claim: Claim, c: Candidate) {
    claim.tenant == c.tenant && claim.subject == c.subject && claim.relation == c.relation
  }

  predicate Open(claim: Claim) {
    claim.status.Accepted? && claim.validTo.None?
  }

  /** What `SELECT ... LIMIT 64`, without an order, may return. */
  ghost predicate RowsRead(claims: seq<Claim>, c: Candidate, picked: seq<nat>) {
    && (forall k :: 0 <= k < |picked| ==>
         picked[k] < |claims| && SameKey(claims[picked[k]], c) && Open(claims[picked[k]]))
    && (forall m, n :: 0 <= m < n < |picked| ==> picked[m] != picked[n])
    && |picked| <= ROW_LIMIT
    && (|picked| < ROW_LIMIT ==> forall i :: 0 <= i < |claims| && SameKey(claims[i], c) && Open(claims[i]) ==>
      i in picked)
  }

  ghost function RelTo(env: Env, claim: Claim, c: Candidate): Option<Rel> {
    Classify(env.js, NormalizeObject(env.js, claim.value), NormalizeObject(env.js, c.value))
  }

  ghost predicate Bearing(env: Env, claims: seq<Claim>, c: Candidate, picked: seq<nat>, i: nat, rel: Rel) {
    i in picked && i < |claims| && RelTo(env, claims[i], c) == Some(rel)
  }

  ghost function Conflicts(env: Env, claims: seq<Claim>, c: Candidate, picked: seq<nat>): (hits: seq<Hit>)
    requires forall k :: 0 <= k < |picked| ==> picked[k] < |claims|
    ensures forall h :: h in hits <==> Bearing(env, claims, c, picked, h.claim, h.rel)
    decreases |picked|
  {
    if picked == [] then []
    else
      var n := |picked| - 1;
      var before := Conflicts(env, claims, c, picked[..n]);
      assert picked == picked[..n] + [picked[n]];
      match RelTo(env, claims[picked[n]], c)
      case None => before
      case Some(rel) => before + [Hit(picked[n], rel)]
  }

  // ----- the decision

  function Aggregate(usable: seq<SpanEntry>, verdict: Verdict): EntailmentResult {
    if |usable| > 0 then verdict.result else Unknown
  }

  ghost predicate IntegrityOk(env: Env, c: Candidate) {
    (exists e :: e in c.spans && e.role.Supports?) &&
    forall e :: e in c.spans && e.role.Supports? ==> VerifySpan(env.sha, e.span, e.event).SpanOk?
  }

  predicate ExternalInstruction(c: Candidate) {
    c.instructionLike && (c.origin.Document? || c.origin.Database?)
  }

  function Decide(env: Env, c: Candidate, requested: ScopeRow, eventScope: ScopeRow, verdict: Verdict,
                  contradicted: bool): Outcome
  {
    var supporting := Supporting(c.spans);
    var usable := Usable(env.sha, supporting);
    var aggregate := Aggregate(usable, verdict);
    var integrityOk := |supporting| > 0 && |usable| == |supporting|;
    var entailmentOk := aggregate.Entailed? && !(verdict.score < env.policy.entailmentFloor);
    var eligible := integrityOk && entailmentOk && c.authority in env.policy.autoAcceptAuthorities && !contradicted;
    if |usable| == 0 || aggregate.Contradiction? then Reject
    else if c.kind in env.policy.quarantineKinds || c.sensitivity == Lit("high") || ExternalInstruction(c)
      then Quarantine
    else if eligible && Contained(requested, eventScope) then Accept
    else if eligible && requested.tenant == eventScope.tenant then AcceptLimitedScope
    else NeedsReview
  }

  predicate HoldsBelief(o: Outcome) {
    o.Accept? || o.AcceptLimitedScope?
  }

  ghost predicate Contradicted(hits: seq<Hit>) {
    exists h :: h in hits && h.rel.Contradicts?
  }

  // ----- one evaluate

  function NewClaim(c: Candidate, scope: ScopeRow, status: Status, validFrom: int, recordedAt: int): Claim {
    Claim(c.tenant, c.subject, c.relation, c.value, c.kind, scope, c.authority, status, validFrom, None, recordedAt)
  }

  ghost predicate Closes(hits: seq<Hit>, i: nat, claim: Claim, validFrom: int) {
    && (Hit(i, Supersedes) in hits || Hit(i, Duplicates) in hits)
    && claim.validTo.None? && claim.validFrom < validFrom
  }

  function Closed(claim: Claim, at: int): Claim {
    claim.(status := Superseded, validTo := Some(at))
  }

  ghost function CloseAll(claims: seq<Claim>, hits: seq<Hit>, validFrom: int): (r: seq<Claim>)
    ensures |r| == |claims|
    ensures forall i :: 0 <= i < |claims| ==>
      r[i] == if Closes(hits, i, claims[i], validFrom) then Closed(claims[i], validFrom) else claims[i]
  {
    seq(|claims|, i requires 0 <= i < |claims| =>
      if Closes(hits, i, claims[i], validFrom) then Closed(claims[i], validFrom) else claims[i])
  }

  function RelationsFrom(id: nat, hits: seq<Hit>): seq<Relation> {
    seq(|hits|, i requires 0 <= i < |hits| => Relation(id, hits[i].claim, hits[i].rel))
  }

  function ValidFrom(c: Candidate, now: int): int {
    if c.occurredAt.Some? then c.occurredAt.value else now
  }

  ghost function OutcomeOf(env: Env, s: Store, c: Candidate, verdict: Verdict, picked: seq<nat>): Outcome
    requires c.requestedScope.Some? && c.eventScope.Some? && RowsRead(s.claims, c, picked)
  {
    Decide(env, c, c.requestedScope.value, c.eventScope.value, verdict,
      Contradicted(Conflicts(env, s.claims, c, picked)))
  }

  function AcceptedScope(c: Candidate, outcome: Outcome): ScopeRow
    requires c.requestedScope.Some? && c.eventScope.Some?
  {
    if outcome.AcceptLimitedScope? then c.eventScope.value else c.requestedScope.value
  }

  function StatusFor(outcome: Outcome): Status {
    if HoldsBelief(outcome) then Accepted else Proposed
  }

  /** The tables after one `evaluate`. A missing scope throws and nothing is written. */
  ghost function GateStep(env: Env, s: Store, c: Candidate, verdict: Verdict, now: int, picked: seq<nat>): Store
    requires RowsRead(s.claims, c, picked)
  {
    if c.requestedScope.None? || c.eventScope.None? then s
    else
      var hits := Conflicts(env, s.claims, c, picked);
      var outcome := OutcomeOf(env, s, c, verdict, picked);
      var from, id := ValidFrom(c, now), |s.claims|;
      if outcome.Reject? then
        s.(decisions := s.decisions + [GateRecord(c, verdict, outcome, None)])
      else
        Store(
          (if HoldsBelief(outcome) then CloseAll(s.claims, hits, from) else s.claims) +
            [NewClaim(c, AcceptedScope(c, outcome), StatusFor(outcome), from, now)],
          s.relations + RelationsFrom(id, hits),
          s.decisions + [GateRecord(c, verdict, outcome, Some(id))])
  }

  // ----- lifecycle writes

  function OutcomeForStatus(status: Status): Outcome {
    match status
    case Accepted => Accept
    case Revoked => Revoke
    case Rejected => Reject
    case Superseded => Accept
    case Disputed => NeedsReview
    case Expired => Accept
    case Proposed => NeedsReview
  }

  function NewValidTo(claim: Claim, status: Status, validTo: Option<int>, now: int): Option<int> {
    if validTo.Some? then validTo
    else if (status.Superseded? || status.Revoked? || status.Expired?) && claim.validTo.None? then Some(now)
    else claim.validTo
  }

  /** `applyStatus`. The table's CHECK (valid_to > valid_from) undoes the whole write. */
  function StatusStep(s: Store, id: nat, status: Status, validTo: Option<int>, now: int): Store {
    if id >= |s.claims| then s
    else
      var to := NewValidTo(s.claims[id], status, validTo, now);
      if to.Some? && to.value <= s.claims[id].validFrom then s
      else s.(claims := s.claims[id := s.claims[id].(status := status, validTo := to)],
              decisions := s.decisions + [StatusRecord(id, OutcomeForStatus(status))])
  }

  // ----- runs

  datatype Action =
    | Evaluate(candidate: Candidate, verdict: Verdict, now: int, picked: seq<nat>)
    | ApplyStatus(claim: nat, status: Status, validTo: Option<int>, now: int)

  /** An `Evaluate` whose rows the query could not have returned is no step. */
  ghost function Step(env: Env, s: Store, a: Action): Store {
    match a
    case Evaluate(c, verdict, now, picked) =>
      if RowsRead(s.claims, c, picked) then GateStep(env, s, c, verdict, now, picked) else s
    case ApplyStatus(id, status, validTo, now) => StatusStep(s, id, status, validTo, now)
  }

  ghost function Run(env: Env, actions: seq<Action>): Store
    decreases |actions|
  {
    if actions == [] then EMPTY_STORE
    else Step(env, Run(env, actions[..|actions| - 1]), actions[|actions| - 1])
  }

  // ----- the gate as it runs, over tables updated in place

  class CommitGate {
    var claims: seq<Claim>
    var relations: seq<Relation>
    var decisions: seq<Record>
    const env: Env

    constructor (env: Env)
      ensures this.env == env && Tables() == EMPTY_STORE
    {
      this.env := env;
      claims, relations, decisions := [], [], [];
    }

    ghost function Tables(): Store
      reads this
    {
      Store(claims, relations, decisions)
    }

    method FindConflicts(c: Candidate, picked: seq<nat>) returns (hits: seq<Hit>)
      requires RowsRead(claims, c, picked)
      ensures hits == Conflicts(env, claims, c, picked)
    {
      hits := [];
      assert forall k :: 0 <= k < |picked| ==> picked[k] in picked;
      for k := 0 to |picked|
        invariant hits == Conflicts(env, claims, c, picked[..k])
      {
        assert picked[..k + 1][..k] == picked[..k];
        assert picked[k] in picked;
        var rel := ClassifyConflict(env.js, NormalizeObject(env.js, claims[picked[k]].value),
          NormalizeObject(env.js, c.value));
        if rel.Some? {
          hits := hits + [Hit(picked[k], rel.value)];
        }
      }
      assert picked[..|picked|] == picked;
    }

    /** `evaluate`; `picked` is the answer of the conflict query. Returns None where a scope
        row is missing and the source throws. */
    method EvaluateCandidate(c: Candidate, verdict: Verdict, now: int, picked: seq<nat>)
        returns (r: Option<(Outcome, Option<nat>)>)
      requires RowsRead(claims, c, picked)
      modifies this
      ensures Tables() == GateStep(env, old(Tables()), c, verdict, now, picked)
      ensures r.None? <==> c.requestedScope.None? || c.eventScope.None?
      ensures r.Some? ==> r.value.0 == OutcomeOf(env, old(Tables()), c, verdict, picked)
      ensures r.Some? ==> r.value.1 == if r.value.0.Reject? then None else Some(|old(claims)|)
    {
      if c.requestedScope.None? || c.eventScope.None? {
        return None;
      }
      var hits := FindConflicts(c, picked);
      var contradicted := AnyContradicts(hits);
      var outcome := Decide(env, c, c.requestedScope.value, c.eventScope.value, verdict, contradicted);
      var id: Option<nat> := None;
      if !outcome.Reject? {
        id := Some(|claims|);
        InsertClaim(c, AcceptedScope(c, outcome), hits, ValidFrom(c, now), now, StatusFor(outcome),
          HoldsBelief(outcome));
      }
      decisions := decisions + [GateRecord(c, verdict, outcome, id)];
      r := Some((outcome, id));
    }

    static method AnyContradicts(hits: seq<Hit>) returns (found: bool)
      ensures found <==> Contradicted(hits)
    {
      for k := 0 to |hits|
        invariant forall n :: 0 <= n < k ==> !hits[n].rel.Contradicts?
      {
        if hits[k].rel.Contradicts? {
          assert hits[k] in hits;
          return true;
        }
      }
      return false;
    }

    method InsertClaim(c: Candidate, scope: ScopeRow, hits: seq<Hit>, validFrom: int, recordedAt: int,
                       status: Status, holdsBelief: bool)
      requires forall h :: h in hits ==> h.claim < |claims|
      modifies this`claims, this`relations
      ensures claims == (if holdsBelief then CloseAll(old(claims), hits, validFrom) else old(claims))
                        + [NewClaim(c, scope, status, validFrom, recordedAt)]
      ensures relations == old(relations) + RelationsFrom(|old(claims)|, hits)
    {
      var id := |claims|;
      ghost var before := claims;
      claims := claims + [NewClaim(c, scope, status, validFrom, recordedAt)];
      for k := 0 to |hits|
        invariant relations == old(relations) + RelationsFrom(id, hits[..k])
        invariant claims == before + [NewClaim(c, scope, status, validFrom, recordedAt)]
      {
        relations := relations + [Relation(id, hits[k].claim, hits[k].rel)];
      }
      assert hits[..|hits|] == hits;
      for k := 0 to |hits|
        invariant |claims| == id + 1 && claims[id] == NewClaim(c, scope, status, validFrom, recordedAt)
        invariant relations == old(relations) + RelationsFrom(id, hits)
        invariant forall i :: 0 <= i < id ==>
            claims[i] == (if holdsBelief && Closes(hits[..k], i, before[i], validFrom)
              then Closed(before[i], validFrom) else before[i])
      {
        assert hits[..k + 1] == hits[..k] + [hits[k]];
        var hit := hits[k];
        assert hit in hits;
        if !holdsBelief {
          continue;
        }
        if !hit.rel.Supersedes? && !hit.rel.Duplicates? {
          continue;
        }
        var target := claims[hit.claim];
        if target.validTo.None? && hit.claim != id && target.validFrom < validFrom {
          claims := claims[hit.claim := Closed(target, validFrom)];
        }
      }
      assert hits[..|hits|] == hits;
    }

    /** `applyStatus`; false where the write is undone or there is no such claim. */
    method SetStatus(id: nat, status: Status, validTo: Option<int>, now: int) returns (done: bool)
      modifies this
      ensures Tables() == StatusStep(old(Tables()), id, status, validTo, now)
      ensures !done ==> Tables() == old(Tables())
    {
      if id >= |claims| {
        return false;
      }
      var to := NewValidTo(claims[id], status, validTo, now);
      if to.Some? && to.value <= claims[id].validFrom {
        return false;
      }
      decisions := decisions + [StatusRecord(id, OutcomeForStatus(status))];
      claims := claims[id := claims[id].(status := status, validTo := to)];
      return true;
    }
  }
}
