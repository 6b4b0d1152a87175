/**
 Runs of the gate that show the conditions of the run theorems are needed: a 65th open claim
 of one key, and an event that arrives late.
 */
module GateWitness {
  import opened Utf16
  import opened JsonText
  import opened Canonical
  import opened Scope
  import opened Conflict
  import opened Gate
  import opened GateSafety
  import opened History

  const SCOPE := ScopeRow([], Some([]), None, None, None, [[]])

  const ONE := Number(Lit("1"))
  const TWO := Number(Lit("2"))
  const BOX := Record([])

  /** A well-evidenced observation of a user, for one fixed key. */
  function Ready(env: Env, value: Value, occurredAt: int): Candidate {
    Candidate([], [], [], value, Observation, Lit("normal"), ObservedFact, User, Some(SCOPE), Some(SCOPE),
              [SpanEntry(SpanRecord(0, 1, env.sha([0])), Supports, Some(Payload(Some([0]), false)))], false,
                Some(occurredAt))
  }

  const YES := Verdict(Entailed, 1.0)

  function ReadyClaim(value: Value, occurredAt: int, now: int): Claim {
    Claim([], [], [], value, Observation, SCOPE, ObservedFact, Accepted, occurredAt, None, now)
  }

  lemma Then(env: Env, actions: seq<Action>, a: Action) returns (more: seq<Action>)
    ensures more == actions + [a] && Run(env, more) == Step(env, Run(env, actions), a)
    ensures OrdinaryRun(env, actions) && Ordinary(Run(env, actions), a) ==> OrdinaryRun(env, more)
  {
    more := actions + [a];
    assert more[..|more| - 1] == actions;
  }

  /** A ready candidate is accepted unless a row read contradicts it. */
  lemma ReadyAccepted(env: Env, s: Store, value: Value, occurredAt: int, now: int, picked: seq<nat>)
    requires env.policy == DEFAULT_COMMIT_POLICY
    requires var c := Ready(env, value, occurredAt);
      RowsRead(s.claims, c, picked) && !Contradicted(Conflicts(env, s.claims, c, picked))
    ensures var a := Evaluate(Ready(env, value, occurredAt), YES, now, picked);
      && Accepts(env, s, a)
      && Step(env, s, a).claims == CloseAll(s.claims, Conflicts(env, s.claims, a.candidate, picked), occurredAt)
           + [ReadyClaim(value, occurredAt, now)]
  {
    var c := Ready(env, value, occurredAt);
    var e := c.spans[0];
    assert VerifySpan(env.sha, e.span, e.event).SpanOk? by {
      assert Slice([0], 0, 1) == [0];
    }
    assert c.sensitivity[0] != Lit("high")[0];
    assert Earned(env, c, YES) by {
      assert e in c.spans;
      assert ObservedFact in DEFAULT_COMMIT_POLICY.autoAcceptAuthorities;
    }
    BelievesIff(env, c, SCOPE, SCOPE, YES, false);
    assert Contained(SCOPE, SCOPE);
  }

  lemma Normals(js: Runtime)
    ensures NormalizeObject(js, ONE) == Lit("1") && NormalizeObject(js, TWO) == Lit("2")
    ensures NormalizeObject(js, BOX) == [OPEN_BRACE, CLOSE_BRACE]
    ensures Lit("1") != Lit("2") && !LooksStructured(Lit("1")) && !LooksStructured(Lit("2"))
  {
    assert Lit("1")[0] == 0x31 && Lit("2")[0] == 0x32;
    assert Sort(Keys([])) == [];
    assert Order(BOX) == Some(Obj([]));
  }

  // ----- more than 64 open claims

  function UpTo(from: nat, n: nat): seq<nat> {
    seq(n, i requires 0 <= i < n => from + i)
  }

  ghost predicate Crowd(claims: seq<Claim>, n: nat) {
    && |claims| == n + 1 && claims[0] == ReadyClaim(ONE, 0, 0)
    && forall i :: 1 <= i <= n ==> claims[i] == ReadyClaim(BOX, 0, 0)
  }

  lemma CrowdRels(env: Env, claims: seq<Claim>, n: nat, i: nat)
    requires Crowd(claims, n) && i <= n
    ensures RelTo(env, claims[i], Ready(env, BOX, 0)) == if i == 0 then None else Some(Duplicates)
    ensures i > 0 ==> RelTo(env, claims[i], Ready(env, TWO, 0)) == None
    ensures i == 0 && !NumericEqual(env.js, Lit("1"), Lit("2")) ==>
      RelTo(env, claims[i], Ready(env, TWO, 0)) == Some(Contradicts)
  {
    Normals(env.js);
  }

  lemma NoneContradicts(env: Env, claims: seq<Claim>, c: Candidate, picked: seq<nat>)
    requires forall k :: 0 <= k < |picked| ==> picked[k] < |claims|
    requires forall i :: i in picked && i < |claims| ==> RelTo(env, claims[i], c) != Some(Contradicts)
    ensures !Contradicted(Conflicts(env, claims, c, picked))
  {
  }

  lemma CrowdRead(env: Env, claims: seq<Claim>, n: nat)
    requires Crowd(claims, n) && n < ROW_LIMIT
    ensures RowsRead(claims, Ready(env, BOX, 0), UpTo(0, n + 1))
  {
    var picked := UpTo(0, n + 1);
    forall i | 0 <= i < |claims| ensures i in picked {
      assert picked[i] == i;
    }
  }

  lemma NothingEarlier(claims: seq<Claim>, hits: seq<Hit>, n: nat)
    requires Crowd(claims, n)
    ensures CloseAll(claims, hits, 0) == claims
  {
    forall i | 0 <= i < |claims| ensures claims[i].validFrom == 0 {
    }
  }

  lemma CrowdGrows(env: Env, s: Store, n: nat) returns (a: Action)
    requires env.policy == DEFAULT_COMMIT_POLICY && Crowd(s.claims, n) && n < ROW_LIMIT
    ensures a.Evaluate? && Crowd(Step(env, s, a).claims, n + 1)
  {
    var c, picked := Ready(env, BOX, 0), UpTo(0, n + 1);
    CrowdRead(env, s.claims, n);
    forall i | i in picked && i < |s.claims| ensures RelTo(env, s.claims[i], c) != Some(Contradicts) {
      CrowdRels(env, s.claims, n, i);
    }
    NoneContradicts(env, s.claims, c, picked);
    ReadyAccepted(env, s, BOX, 0, 0, picked);
    NothingEarlier(s.claims, Conflicts(env, s.claims, c, picked), n);
    a := Evaluate(c, YES, 0, picked);
  }

  lemma {:induction false} CrowdRun(env: Env, n: nat) returns (actions: seq<Action>)
    requires env.policy == DEFAULT_COMMIT_POLICY && n <= ROW_LIMIT
    ensures OrdinaryRun(env, actions) && Crowd(Run(env, actions).claims, n)
  {
    if n == 0 {
      var c := Ready(env, ONE, 0);
      NoneContradicts(env, [], c, []);
      ReadyAccepted(env, EMPTY_STORE, ONE, 0, 0, []);
      actions := Then(env, [], Evaluate(c, YES, 0, []));
    } else {
      actions := CrowdRun(env, n - 1);
      var a := CrowdGrows(env, Run(env, actions), n - 1);
      actions := Then(env, actions, a);
    }
  }

  /** With 65 open claims under one key the query may leave out the one that matters: a run
      of gate steps ends with two open accepted claims that contradict each other. */
  lemma CrowdHidesContradiction(env: Env) returns (actions: seq<Action>)
    requires env.policy == DEFAULT_COMMIT_POLICY && !NumericEqual(env.js, Lit("1"), Lit("2"))
    ensures OrdinaryRun(env, actions)
    ensures var claims := Run(env, actions).claims;
      |claims| == 66 && Open(claims[0]) && Open(claims[65]) && Contradictory(env, claims[0], claims[65])
  {
    actions := CrowdRun(env, ROW_LIMIT);
    var s := Run(env, actions);
    var c, picked := Ready(env, TWO, 0), UpTo(1, ROW_LIMIT);
    assert RowsRead(s.claims, c, picked);
    forall i | i in picked && i < |s.claims| ensures RelTo(env, s.claims[i], c) != Some(Contradicts) {
      CrowdRels(env, s.claims, ROW_LIMIT, i);
    }
    NoneContradicts(env, s.claims, c, picked);
    ReadyAccepted(env, s, TWO, 0, 0, picked);
    actions := Then(env, actions, Evaluate(c, YES, 0, picked));
    CrowdRels(env, s.claims, ROW_LIMIT, 0);
  }

  // ----- a late event

  lemma FirstReport(env: Env) returns (actions: seq<Action>)
    requires env.policy == DEFAULT_COMMIT_POLICY
    ensures actions == [Evaluate(Ready(env, ONE, 10), YES, 10, [])] && OrdinaryRun(env, actions)
    ensures Run(env, actions).claims == [ReadyClaim(ONE, 10, 10)]
  {
    NoneContradicts(env, [], Ready(env, ONE, 10), []);
    ReadyAccepted(env, EMPTY_STORE, ONE, 10, 10, []);
    actions := Then(env, [], Evaluate(Ready(env, ONE, 10), YES, 10, []));
  }

  lemma LateReport(env: Env, s: Store)
    requires env.policy == DEFAULT_COMMIT_POLICY && s.claims == [ReadyClaim(ONE, 10, 10)]
    ensures Step(env, s, Evaluate(Ready(env, ONE, 12), YES, 20, [0])).claims
         == [Closed(ReadyClaim(ONE, 10, 10), 12), ReadyClaim(ONE, 12, 20)]
  {
    var d := Ready(env, ONE, 12);
    assert RowsRead(s.claims, d, [0]);
    SelfDuplicates(env.js, NormalizeObject(env.js, ONE));
    NoneContradicts(env, s.claims, d, [0]);
    ReadyAccepted(env, s, ONE, 12, 20, [0]);
    assert Hit(0, Duplicates) in Conflicts(env, s.claims, d, [0]) by {
      assert Bearing(env, s.claims, d, [0], 0, Duplicates);
    }
  }

  /** Two reports of the same fact: one at time 10, processed at once; one from time 12,
      processed at 20. Between 12 and 20 the system held the first; `as_of` denies it. */
  lemma LateEventRun(env: Env) returns (actions: seq<Action>)
    requires env.policy == DEFAULT_COMMIT_POLICY
    ensures OrdinaryRun(env, actions) && Clocked(actions)
    ensures Believed(StateAt(env, actions, 15), 0) && !Shown(Run(env, actions), 15, 0)
  {
    var first := FirstReport(env);
    LateReport(env, Run(env, first));
    actions := Then(env, first, Evaluate(Ready(env, ONE, 12), YES, 20, [0]));
    assert actions[..1] == first;
  }
}
