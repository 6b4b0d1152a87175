/**
 What one gate step writes, row by row and field by field.
 */
module GateExact {
  import opened Utf16
  import opened JsonText
  import opened Canonical
  import opened Scope
  import opened Conflict
  import opened ConflictLaws
  import opened Gate
  import opened GateSafety

  /** A row that was read and stands in this relation to the candidate. */
  ghost predicate Related(env: Env, s: Store, c: Candidate, picked: seq<nat>, i: nat, rel: Rel) {
    && i in picked && i < |s.claims|
    && Classify(env.js, NormalizeObject(env.js, s.claims[i].value), NormalizeObject(env.js, c.value)) == Some(rel)
  }

  /** The candidate is believed: it has earned it, nothing read contradicts it, and its scope
      lies within the event's or can be narrowed to it. */
  ghost predicate Believable(env: Env, s: Store, c: Candidate, verdict: Verdict, picked: seq<nat>)
    requires c.requestedScope.Some? && c.eventScope.Some?
  {
    && Earned(env, c, verdict) && (forall i :: !Related(env, s, c, picked, i, Contradicts))
    && (Contained(c.requestedScope.value, c.eventScope.value)
        || c.requestedScope.value.tenant == c.eventScope.value.tenant)
  }

  ghost predicate Rejected(env: Env, c: Candidate, verdict: Verdict) {
    !SomeSupport(env, c) || verdict.result.Contradiction?
  }

  lemma ContradictedIff(env: Env, s: Store, c: Candidate, picked: seq<nat>)
    requires RowsRead(s.claims, c, picked)
    ensures Contradicted(Conflicts(env, s.claims, c, picked)) <==>
      exists i :: Related(env, s, c, picked, i, Contradicts)
  {
    var hits := Conflicts(env, s.claims, c, picked);
    if h :| h in hits && h.rel.Contradicts? {
      assert Bearing(env, s.claims, c, picked, h.claim, h.rel);
      assert Related(env, s, c, picked, h.claim, Contradicts);
    }
    if i :| Related(env, s, c, picked, i, Contradicts) {
      assert Hit(i, Contradicts) in hits <==> Bearing(env, s.claims, c, picked, i, Contradicts);
    }
  }

  /** The step's outcome in these terms. */
  lemma StepOutcome(env: Env, s: Store, c: Candidate, verdict: Verdict, picked: seq<nat>)
    requires RowsRead(s.claims, c, picked) && c.requestedScope.Some? && c.eventScope.Some?
    ensures var o := OutcomeOf(env, s, c, verdict, picked);
      && (o.Reject? <==> Rejected(env, c, verdict))
      && (HoldsBelief(o) <==> Believable(env, s, c, verdict, picked))
      && (o.AcceptLimitedScope? <==> Believable(env, s, c, verdict, picked)
                                     && !Contained(c.requestedScope.value, c.eventScope.value))
  {
    ContradictedIff(env, s, c, picked);
    OutcomeExact(env, c, c.requestedScope.value, c.eventScope.value, verdict,
      Contradicted(Conflicts(env, s.claims, c, picked)));
  }

  /** A step without a scope row writes nothing, and a rejected candidate only its decision. */
  lemma RejectionWrites(env: Env, s: Store, c: Candidate, verdict: Verdict, now: int, picked: seq<nat>)
    requires RowsRead(s.claims, c, picked)
    ensures var s' := GateStep(env, s, c, verdict, now, picked);
      && (c.requestedScope.None? || c.eventScope.None? ==> s' == s)
      && (c.requestedScope.Some? && c.eventScope.Some? && Rejected(env, c, verdict) ==>
           s' == s.(decisions := s.decisions + [GateRecord(c, verdict, Reject, None)]))
  {
    if c.requestedScope.Some? && c.eventScope.Some? {
      StepOutcome(env, s, c, verdict, picked);
    }
  }

  /** The one new row of every other step, and its decision: what the candidate said, open, from
      the time of its event, recorded now; believed or only proposed; under the scope that was
      asked for, and under the event's exactly where it is believed and asked for more. */
  lemma NewRowExact(env: Env, s: Store, c: Candidate, verdict: Verdict, now: int, picked: seq<nat>)
    requires RowsRead(s.claims, c, picked) && c.requestedScope.Some? && c.eventScope.Some? && !Rejected(env, c, verdict)
    ensures var s', n := GateStep(env, s, c, verdict, now, picked), |s.claims|;
      var believed := Believable(env, s, c, verdict, picked);
      && |s'.claims| == n + 1
      && var claim := s'.claims[n];
         && claim.tenant == c.tenant && claim.subject == c.subject && claim.relation == c.relation
         && claim.value == c.value && claim.kind == c.kind && claim.authority == c.authority
         && claim.validTo == None && claim.recordedAt == now
         && claim.validFrom == (match c.occurredAt case Some(t) => t case None => now)
         && claim.status == (if believed then Accepted else Proposed)
         && claim.scope == (if believed && !Contained(c.requestedScope.value, c.eventScope.value)
                            then c.eventScope.value else c.requestedScope.value)
    ensures var s', n := GateStep(env, s, c, verdict, now, picked), |s.claims|;
      && |s'.decisions| == |s.decisions| + 1 && s'.decisions[..|s.decisions|] == s.decisions
      && var d := s'.decisions[|s.decisions|];
         d.GateRecord? && d.candidate == c && d.verdict == verdict && d.claim == Some(n)
         && d.outcome == OutcomeOf(env, s, c, verdict, picked)
  {
    StepOutcome(env, s, c, verdict, picked);
  }

  /** Asked within the event's scope, a claim is stored under the very scope it asked for. */
  lemma ScopeWritten(env: Env, s: Store, c: Candidate, verdict: Verdict, now: int, picked: seq<nat>)
    requires RowsRead(s.claims, c, picked) && c.requestedScope.Some? && c.eventScope.Some? && !Rejected(env, c, verdict)
    ensures var s', n := GateStep(env, s, c, verdict, now, picked), |s.claims|;
      var requested, event := c.requestedScope.value, c.eventScope.value;
      && |s'.claims| == n + 1
      && (Contained(requested, event) || s'.claims[n].status.Proposed? ==> s'.claims[n].scope == requested)
      && (s'.claims[n].scope == event <==>
           requested == event || (s'.claims[n].status.Accepted? && !Contained(requested, event)))
  {
    NewRowExact(env, s, c, verdict, now, picked);
  }

  lemma HitRelated(env: Env, s: Store, c: Candidate, picked: seq<nat>, i: nat, rel: Rel)
    requires RowsRead(s.claims, c, picked)
    ensures Hit(i, rel) in Conflicts(env, s.claims, c, picked) <==> Related(env, s, c, picked, i, rel)
  {
    assert Hit(i, rel) in Conflicts(env, s.claims, c, picked) <==> Bearing(env, s.claims, c, picked, i, rel);
  }

  lemma TableAfter(env: Env, s: Store, c: Candidate, verdict: Verdict, now: int, picked: seq<nat>, i: nat)
    requires RowsRead(s.claims, c, picked) && c.requestedScope.Some? && c.eventScope.Some? && i < |s.claims|
    ensures var s', from := GateStep(env, s, c, verdict, now, picked), ValidFrom(c, now);
      i < |s'.claims| && s'.claims[i] ==
        if HoldsBelief(OutcomeOf(env, s, c, verdict, picked))
           && Closes(Conflicts(env, s.claims, c, picked), i, s.claims[i], from)
        then Closed(s.claims[i], from) else s.claims[i]
  {
  }

  /** What happens to the rows that were there: a believed candidate closes, at its own
      valid_from, exactly the open-ended earlier rows that it supersedes or duplicates; all
      else stays. */
  lemma OldRowExact(env: Env, s: Store, c: Candidate, verdict: Verdict, now: int, picked: seq<nat>, i: nat)
    requires RowsRead(s.claims, c, picked) && c.requestedScope.Some? && c.eventScope.Some? && i < |s.claims|
    ensures var s' := GateStep(env, s, c, verdict, now, picked);
      var from := match c.occurredAt case Some(t) => t case None => now;
      i < |s'.claims| && s'.claims[i] ==
        if Believable(env, s, c, verdict, picked)
           && (Related(env, s, c, picked, i, Supersedes) || Related(env, s, c, picked, i, Duplicates))
           && s.claims[i].validTo.None? && s.claims[i].validFrom < from
        then s.claims[i].(status := Superseded, validTo := Some(from)) else s.claims[i]
  {
    StepOutcome(env, s, c, verdict, picked);
    TableAfter(env, s, c, verdict, now, picked, i);
    HitRelated(env, s, c, picked, i, Supersedes);
    HitRelated(env, s, c, picked, i, Duplicates);
  }

  lemma RelationAdded(id: nat, hits: seq<Hit>, r: Relation)
    ensures r in RelationsFrom(id, hits) <==> r.from == id && Hit(r.to, r.rel) in hits
  {
    var added := RelationsFrom(id, hits);
    if r in added {
      var k :| 0 <= k < |hits| && added[k] == r;
      assert hits[k] == Hit(r.to, r.rel);
    }
    if r.from == id && Hit(r.to, r.rel) in hits {
      var k :| 0 <= k < |hits| && hits[k] == Hit(r.to, r.rel);
      assert added[k] == r;
    }
  }

  /** The relations recorded: from the new claim to each row read that bears one, none else. */
  lemma RelationsExact(env: Env, s: Store, c: Candidate, verdict: Verdict, now: int, picked: seq<nat>, r: Relation)
    requires RowsRead(s.claims, c, picked) && c.requestedScope.Some? && c.eventScope.Some? && !Rejected(env, c, verdict)
    ensures var s' := GateStep(env, s, c, verdict, now, picked);
      && s.relations <= s'.relations
      && (r in s'.relations[|s.relations|..] <==>
           (r.from == |s.claims| && Related(env, s, c, picked, r.to, r.rel)))
  {
    StepOutcome(env, s, c, verdict, picked);
    var s', hits := GateStep(env, s, c, verdict, now, picked), Conflicts(env, s.claims, c, picked);
    assert s'.relations[|s.relations|..] == RelationsFrom(|s.claims|, hits);
    RelationAdded(|s.claims|, hits, r);
    HitRelated(env, s, c, picked, r.to, r.rel);
  }

  // ----- extensions and restrictions

  /** An accepted claim that extends an earlier open one closes it; an accepted claim that leaves
      members out does not. */
  lemma ExtensionCloses(env: Env, s: Store, a: Action, i: nat, f: seq<Field>, g: seq<Field>)
    requires Accepts(env, s, a) && i in a.picked && i < |s.claims| && Open(s.claims[i])
    requires s.claims[i].value == Record(f) && a.candidate.value == Record(g)
    requires Carried(env.js, f) && Carried(env.js, g)
    ensures var s', from := Step(env, s, a), ValidFrom(a.candidate, a.now);
      && i < |s'.claims|
      && (Extension(f, g) && s.claims[i].validFrom < from ==>
           s'.claims[i] == s.claims[i].(status := Superseded, validTo := Some(from)))
      && (Extension(f, g) && !(s.claims[i].validFrom < from) ==> s'.claims[i] == s.claims[i])
      && (Extension(g, f) ==> s'.claims[i] == s.claims[i])
  {
    var c := a.candidate;
    StepOutcome(env, s, c, a.verdict, a.picked);
    OldRowExact(env, s, c, a.verdict, a.now, a.picked, i);
    if Extension(f, g) {
      ExtensionRelated(env.js, f, g);
    } else if Extension(g, f) {
      ExtensionRelated(env.js, g, f);
    }
  }

  // ----- constants and spans

  /** What the default policy keeps from automatic belief. */
  lemma DefaultPolicyExact(env: Env, c: Candidate, verdict: Verdict)
    requires env.policy == DEFAULT_COMMIT_POLICY
    ensures Earned(env, c, verdict) <==>
      && IntegrityOk(env, c) && verdict.result.Entailed? && verdict.score >= 0.5
      && c.authority != Hearsay && c.authority != Inference
      && c.kind != Procedure && c.kind != Permission && c.sensitivity != Lit("high")
      && !(c.instructionLike && (c.origin.Document? || c.origin.Database?))
  {
  }

  function Cited(bytes: Text, start: nat, end: nat): Text
    requires end <= |bytes|
  {
    if start <= end then bytes[start..end] else []
  }

  /** Every answer of the span check. */
  lemma SpanStatuses(sha: Text -> Text, span: SpanRecord, event: Option<Payload>)
    ensures var status := VerifySpan(sha, span, event);
      && (status.SpanMissing? <==> event.None?)
      && (status.SpanRedacted? <==> event.Some? && (event.value.redacted || event.value.content.None?))
      && (status.OutOfBounds? <==>
           event.Some? && !event.value.redacted && event.value.content.Some? && span.end > |event.value.content.value|)
      && (status.SpanOk? || status.DigestMismatch? <==>
           event.Some? && !event.value.redacted && event.value.content.Some? && span.end <= |event.value.content.value|)
      && (status.SpanOk? ==> span.digest == sha(Cited(event.value.content.value, span.start, span.end)))
  {
  }
}
