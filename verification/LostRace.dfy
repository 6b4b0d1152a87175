/**
 What a lost idempotency race does: it commits the stream's new `last_seq` without an event.
 The hole is never filled, and the next event after it breaks the chain for good.
 */
module LostRace {
  import opened Utf16
  import opened JsonText
  import opened Chain
  import opened ChainCheck
  import opened Append
  import opened AppendSafety
  import opened AppendTheorems
  import opened SerialAppend

  /** A number that was allocated but that no event carries. */
  ghost predicate Hole(s: Ledger, tenant: Text, stream: Text, at: nat) {
    && 1 <= at <= LastSeq(s, tenant, stream)
    && forall e :: e in s.events && InStream(e, tenant, stream) ==> e.seqNo != at
  }

  lemma HoleStays(sha: Text -> Text, s: Ledger, a: Action, tenant: Text, stream: Text, at: nat)
    requires Inv(sha, s) && Hole(s, tenant, stream, at)
    ensures Hole(Step(sha, s, a), tenant, stream, at)
  {
    if a.Commit? && a.txn < |s.txns| {
      assert TxnOk(sha, s, s.txns[a.txn]);
    }
  }

  lemma {:induction false} HoleIsForever(sha: Text -> Text, actions: seq<Action>, later: seq<Action>,
                                         tenant: Text, stream: Text, at: nat)
    requires Hole(Run(sha, actions), tenant, stream, at)
    ensures Hole(Run(sha, actions + later), tenant, stream, at)
    decreases |later|
  {
    if later == [] {
      assert actions + later == actions;
    } else {
      var front := later[..|later| - 1];
      HoleIsForever(sha, actions, front, tenant, stream, at);
      RunKeeps(sha, actions + front);
      HoleStays(sha, Run(sha, actions + front), later[|later| - 1], tenant, stream, at);
      assert (actions + later)[..|actions + later| - 1] == actions + front;
    }
  }

  /** In every reachable state `verifyChain` from the start fails on a stream exactly when
      some hole has events on both sides; a hole being forever, so is the failure. */
  lemma HolesBreakTheChain(sha: Text -> Text, actions: seq<Action>, tenant: Text, stream: Text)
    ensures var s := Run(sha, actions);
      var rows := StreamRows(s.events, tenant, stream, 1, None);
      !ChainHolds(sha, 1, rows) <==> exists at: nat :: Hole(s, tenant, stream, at) && Between(rows, at)
  {
    var s := Run(sha, actions);
    var rows := StreamRows(s.events, tenant, stream, 1, None);
    ReachableChain(sha, actions, tenant, stream, None);
    RunKeeps(sha, actions);
    if i: nat :| 0 < i < |rows| && !Adjacent(rows, i) {
      HoleFound(s, rows, tenant, stream, i);
    }
    forall at: nat | Hole(s, tenant, stream, at) && Between(rows, at)
      ensures exists i :: 0 < i < |rows| && !Adjacent(rows, i)
    {
      if forall i :: 0 < i < |rows| ==> Adjacent(rows, i) {
        HoleContradiction(rows, at);
        assert false;
      }
    }
  }

  lemma HoleFound(s: Ledger, rows: seq<Event>, tenant: Text, stream: Text, i: nat)
    requires SeqsBounded(s) && rows == StreamRows(s.events, tenant, stream, 1, None) && Ascending(rows)
    requires 0 < i < |rows| && !Adjacent(rows, i)
    ensures var at := rows[i - 1].seqNo + 1; Hole(s, tenant, stream, at) && Between(rows, at)
  {
    var at := rows[i - 1].seqNo + 1;
    assert rows[i - 1] in rows && rows[i] in rows && rows[i - 1].seqNo < at < rows[i].seqNo;
    forall e | e in s.events && InStream(e, tenant, stream) ensures e.seqNo != at {
      assert e in rows;
      var k :| 0 <= k < |rows| && rows[k] == e;
      if k < i - 1 {
        assert rows[k].seqNo < rows[i - 1].seqNo;
      } else if k > i {
        assert rows[i].seqNo < rows[k].seqNo;
      }
    }
  }

  ghost predicate Between(rows: seq<Event>, at: nat) {
    exists e, f :: e in rows && f in rows && e.seqNo < at < f.seqNo
  }

  /** Rows without a gap between neighbours have no gap at all. */
  lemma HoleContradiction(rows: seq<Event>, at: nat)
    requires Ascending(rows) && Between(rows, at)
    requires forall i :: 0 < i < |rows| ==> Adjacent(rows, i)
    ensures exists e :: e in rows && e.seqNo == at
  {
    var e, f :| e in rows && f in rows && e.seqNo < at < f.seqNo;
    var m :| 0 <= m < |rows| && rows[m] == e;
    var n :| 0 <= n < |rows| && rows[n] == f;
    assert m < n;
    var k := m;
    while rows[k].seqNo < at
      invariant m <= k < n && rows[k].seqNo <= at
      decreases at - rows[k].seqNo
    {
      assert Adjacent(rows, k + 1);
      k := k + 1;
      assert k != n;
    }
    assert rows[k] in rows;
  }

  // ----- a run that loses a race

  ghost predicate Reachable(sha: Text -> Text, s: Ledger) {
    exists actions :: Run(sha, actions) == s
  }

  lemma StepReachable(sha: Text -> Text, s: Ledger, a: Action)
    requires Reachable(sha, s)
    ensures Reachable(sha, Step(sha, s, a))
  {
    var actions :| Run(sha, actions) == s;
    var more := actions + [a];
    assert more[..|more| - 1] == actions;
    assert Run(sha, more) == Step(sha, s, a);
  }

  lemma ReachableInv(sha: Text -> Text, s: Ledger)
    requires Reachable(sha, s)
    ensures Inv(sha, s)
  {
    var actions :| Run(sha, actions) == s;
    RunKeeps(sha, actions);
  }

  lemma CallReachable(sha: Text -> Text, s: Ledger, req: Request)
    requires Reachable(sha, s)
    ensures Reachable(sha, Call(sha, s, req))
  {
    var n := |s.txns|;
    StepReachable(sha, s, Begin(req));
    var s1 := Step(sha, s, Begin(req));
    StepReachable(sha, s1, LookUp(n));
    var s2 := Step(sha, s1, LookUp(n));
    StepReachable(sha, s2, Allocate(n));
    var s3 := Step(sha, s2, Allocate(n));
    StepReachable(sha, s3, InsertRow(n));
    StepReachable(sha, Step(sha, s3, InsertRow(n)), Commit(n));
  }

  /** A request that a race can be run with: any content, any key, two streams. */
  predicate Racy(req: Request, other: Text) {
    req.content != [] && req.occurredAt.Some? && req.expectedSeq.None? && Keyed(req) && other != req.stream
  }

  /** All transactions so far were answered. */
  ghost predicate Answered(s: Ledger) {
    forall i :: 0 <= i < |s.txns| ==> s.txns[i].phase.Done?
  }

  /** The request's stream has one more event, at its next number; nothing else is new. */
  ghost predicate Grew(s: Ledger, s': Ledger, req: Request) {
    && |s'.events| == |s.events| + 1 && s'.events[..|s.events|] == s.events
    && var row := s'.events[|s.events|];
       && InStream(row, req.tenant, req.stream) && row.seqNo == LastSeq(s, req.tenant, req.stream) + 1
       && row.key == req.key
       && s'.streams == s.streams[(req.tenant, req.stream) := row.seqNo]
  }

  /** A request whose key is free adds an event at its stream's next number. */
  lemma AppendAlone(sha: Text -> Text, s: Ledger, req: Request) returns (s': Ledger)
    requires Reachable(sha, s) && Quiet(s) && !Used(s, req)
    requires req.content != [] && req.occurredAt.Some? && req.expectedSeq.None?
    ensures Reachable(sha, s') && Grew(s, s', req)
    ensures |s'.txns| == |s.txns| + 1 && s'.txns[..|s.txns|] == s.txns && s'.txns[|s.txns|].phase.Done?
    ensures s'.events[|s.events|].contentHash == ContentHash(sha, req.content)
  {
    ReachableInv(sha, s);
    s' := Call(sha, s, req);
    CallExact(sha, s, req);
    CallReachable(sha, s, req);
  }

  lemma LosesPhase(sha: Text -> Text, s: Ledger, req: Request, at: nat)
    requires Reachable(sha, s) && Keyed(req) && req.occurredAt.Some? && UsedFor(sha, s, req)
    ensures InsertPhase(sha, s, req, at).LostRace? && InsertPhase(sha, s, req, at).at == at
  {
    ReachableInv(sha, s);
    var e :| e in s.events && Clashes(e, req.tenant, req.key) && e.contentHash == ContentHash(sha, req.content);
    OneKeyOneEvent(s.events, req.tenant, req.key, e);
  }

  lemma MovesTo(s: Ledger, n: nat, phase: Phase, next: Phase)
    requires n < |s.txns|
    ensures SetPhase(SetPhase(s, n, phase), n, next) == SetPhase(s, n, next)
  {
    assert SetPhase(SetPhase(s, n, phase), n, next).txns == SetPhase(s, n, next).txns;
  }

  lemma Unhindered(s: Ledger, n: nat, at: nat)
    requires Quiet(s) && n < |s.txns|
    ensures !Locked(s, s.txns[n].req.tenant, s.txns[n].req.stream)
    ensures !KeyPending(SetPhase(s, n, Allocated(at)), s.txns[n].req.tenant, s.txns[n].req.key)
  {
  }

  /** The loser: it looked its key up before the winner wrote, and finds it taken only now. */
  lemma Loses(sha: Text -> Text, s: Ledger, n: nat) returns (s': Ledger)
    requires Reachable(sha, s) && Quiet(s) && n < |s.txns| && s.txns[n].phase.LookedUp?
    requires var req := s.txns[n].req;
      Keyed(req) && req.occurredAt.Some? && req.expectedSeq.None? && UsedFor(sha, s, req)
    ensures Reachable(sha, s') && s'.events == s.events
    ensures |s'.txns| == |s.txns| && s'.txns[n].phase.Done?
    ensures forall i :: 0 <= i < |s.txns| && i != n ==> s'.txns[i] == s.txns[i]
    ensures var req := s.txns[n].req;
      s'.streams == s.streams[(req.tenant, req.stream) := LastSeq(s, req.tenant, req.stream) + 1]
  {
    var req := s.txns[n].req;
    var at := LastSeq(s, req.tenant, req.stream) + 1;
    var s1 := Allocates(sha, s, n);
    LosesPhase(sha, s, req, at);
    var s2 := FindsWinner(sha, s, s1, n, at);
    StepReachable(sha, s2, Commit(n));
    s' := CommitTxn(s2, n);
  }

  lemma Allocates(sha: Text -> Text, s: Ledger, n: nat) returns (s': Ledger)
    requires Reachable(sha, s) && Quiet(s) && n < |s.txns| && s.txns[n].phase.LookedUp? &&
      s.txns[n].req.expectedSeq.None?
    ensures Reachable(sha, s')
    ensures s' == SetPhase(s, n, Allocated(LastSeq(s, s.txns[n].req.tenant, s.txns[n].req.stream) + 1))
  {
    Unhindered(s, n, 0);
    StepReachable(sha, s, Allocate(n));
    s' := Step(sha, s, Allocate(n));
  }

  lemma FindsWinner(sha: Text -> Text, s: Ledger, s1: Ledger, n: nat, at: nat) returns (s2: Ledger)
    requires Quiet(s) && n < |s.txns| && Reachable(sha, s1) && s1 == SetPhase(s, n, Allocated(at))
    ensures Reachable(sha, s2)
    ensures s2 == SetPhase(s, n, InsertPhase(sha, s, s.txns[n].req, at)).(nextId := s.nextId + 1)
  {
    Unhindered(s, n, at);
    StepReachable(sha, s1, InsertRow(n));
    MovesTo(s, n, Allocated(at), InsertPhase(sha, s, s.txns[n].req, at));
    s2 := Step(sha, s1, InsertRow(n));
  }

  lemma LooksUp(sha: Text -> Text, s: Ledger, req: Request) returns (s': Ledger)
    requires Reachable(sha, s) && !Used(s, req) && req.content != []
    ensures Reachable(sha, s') && s' == WithPhase(s, req, LookedUp)
  {
    StepReachable(sha, s, Begin(req));
    assert Step(sha, s, Begin(req)) == WithPhase(s, req, Begun);
    StepReachable(sha, WithPhase(s, req, Begun), LookUp(|s.txns|));
    LookedUpPhase(sha, s, req);
    s' := WithPhase(s, req, LookUpPhase(sha, s, req));
  }

  lemma WinnerHolds(sha: Text -> Text, s: Ledger, s': Ledger, req: Request, other: Text)
    requires Keyed(req) && Grew(s, s', req.(stream := other))
    requires s'.events[|s.events|].contentHash == ContentHash(sha, req.content)
    ensures UsedFor(sha, s', req)
  {
    assert s'.events[|s.events|] in s'.events;
  }

  /** One transaction stands after its lookup; all others were answered. */
  ghost predicate OneLookedUp(s: Ledger, n: nat, req: Request) {
    && n < |s.txns| && s.txns[n] == Txn(req, LookedUp)
    && forall i :: 0 <= i < |s.txns| && i != n ==> s.txns[i].phase.Done?
  }

  /** The first transaction looks its key up, then the second writes under that key. */
  lemma Overtaken(sha: Text -> Text, s: Ledger, req: Request, other: Text) returns (s': Ledger)
    requires Reachable(sha, s) && Answered(s) && !Used(s, req) && Racy(req, other)
    ensures Reachable(sha, s') && OneLookedUp(s', |s.txns|, req)
    ensures UsedFor(sha, s', req) && Grew(s, s', req.(stream := other))
  {
    var s1 := LooksUp(sha, s, req);
    assert OneLookedUp(s1, |s.txns|, req);
    s' := AppendAlone(sha, s1, req.(stream := other));
    WinnerHolds(sha, s1, s', req, other);
    FirstStays(s1.txns, s'.txns);
  }

  /** Two transactions with one key on two streams, one of which looks it up before the other
      has written: both are answered, and its stream's `last_seq` moves without an event. */
  lemma Race(sha: Text -> Text, s: Ledger, req: Request, other: Text) returns (s': Ledger)
    requires Reachable(sha, s) && Answered(s) && !Used(s, req) && Racy(req, other)
    ensures Reachable(sha, s') && Answered(s')
    ensures |s'.events| == |s.events| + 1 && s'.events[..|s.events|] == s.events
    ensures InStream(s'.events[|s.events|], req.tenant, other)
    ensures LastSeq(s', req.tenant, req.stream) == LastSeq(s, req.tenant, req.stream) + 1
  {
    var s2 := Overtaken(sha, s, req, other);
    s' := Loses(sha, s2, |s.txns|);
    RaceTables(s, s2, s', req, other);
  }

  lemma FirstStays(txns: seq<Txn>, more: seq<Txn>)
    requires |txns| <= |more| && more[..|txns|] == txns
    ensures forall i :: 0 <= i < |txns| ==> more[i] == txns[i]
  {
    forall i | 0 <= i < |txns| ensures more[i] == txns[i] {
      assert more[..|txns|][i] == more[i];
    }
  }

  lemma RaceTables(s: Ledger, s2: Ledger, s': Ledger, req: Request, other: Text)
    requires Grew(s, s2, req.(stream := other)) && other != req.stream && s'.events == s2.events
    requires s'.streams == s2.streams[(req.tenant, req.stream) := LastSeq(s2, req.tenant, req.stream) + 1]
    ensures InStream(s'.events[|s.events|], req.tenant, other)
    ensures LastSeq(s', req.tenant, req.stream) == LastSeq(s, req.tenant, req.stream) + 1
  {
  }

  /** For any request with a key and any other stream there is a run of answered transactions,
      an event, a lost race, another event, after which the loser's number is a hole and
      `verifyChain` reports the stream broken. */
  lemma RaceThenBroken(sha: Text -> Text, req: Request, other: Text) returns (actions: seq<Action>)
    requires Racy(req, other)
    ensures var s := Run(sha, actions);
      && Answered(s) && LostRaces(s.txns, req.tenant, req.stream) == 1
      && !ChainHolds(sha, 1, StreamRows(s.events, req.tenant, req.stream, 1, None))
  {
    var s := Raced(sha, req, other);
    actions :| Run(sha, actions) == s;
    OneNumberMissing(sha, actions, req.tenant, req.stream);
  }

  ghost predicate NumberMissing(s: Ledger, tenant: Text, stream: Text) {
    && |s.events| == 3 && InStream(s.events[0], tenant, stream) && s.events[0].seqNo == 1
    && !InStream(s.events[1], tenant, stream) && InStream(s.events[2], tenant, stream)
    && s.events[2].seqNo == 3 == LastSeq(s, tenant, stream)
  }

  lemma Raced(sha: Text -> Text, req: Request, other: Text) returns (s: Ledger)
    requires Racy(req, other)
    ensures Reachable(sha, s) && Answered(s) && NumberMissing(s, req.tenant, req.stream)
  {
    var bare := req.(key := None);
    assert Run(sha, []) == EMPTY;
    var s1 := AppendAlone(sha, EMPTY, bare);
    assert s1.events == [s1.events[0]] && s1.txns == [s1.txns[0]];
    var s2 := Race(sha, s1, req, other);
    s := AppendAlone(sha, s2, bare);
    AnsweredStays(s2, s);
    assert s.events[..2][0] == s.events[0] && s.events[..2][1] == s.events[1];
    assert s2.events[..1][0] == s2.events[0];
  }

  lemma AnsweredStays(s: Ledger, s': Ledger)
    requires Answered(s) && |s'.txns| == |s.txns| + 1 && s'.txns[..|s.txns|] == s.txns && s'.txns[|s.txns|].phase.Done?
    ensures Answered(s')
  {
    forall i | 0 <= i < |s.txns| ensures s'.txns[i] == s.txns[i] {
      assert s'.txns[..|s.txns|][i] == s'.txns[i];
    }
  }

  lemma OneNumberMissing(sha: Text -> Text, actions: seq<Action>, tenant: Text, stream: Text)
    requires NumberMissing(Run(sha, actions), tenant, stream)
    ensures var s := Run(sha, actions);
      && LostRaces(s.txns, tenant, stream) == 1
      && !ChainHolds(sha, 1, StreamRows(s.events, tenant, stream, 1, None))
  {
    ThreeRows(Run(sha, actions).events, tenant, stream);
    SequencesConserved(sha, actions, tenant, stream);
    ReachableChain(sha, actions, tenant, stream, None);
    assert !Adjacent(StreamRows(Run(sha, actions).events, tenant, stream, 1, None), 1);
  }

  lemma ThreeRows(events: seq<Event>, tenant: Text, stream: Text)
    requires |events| == 3 && InStream(events[0], tenant, stream) && events[0].seqNo >= 1
    requires !InStream(events[1], tenant, stream) && InStream(events[2], tenant, stream) && events[2].seqNo >= 1
    ensures StreamRows(events, tenant, stream, 1, None) == [events[0], events[2]]
  {
    var one, two := events[..1], events[..2];
    assert one[..0] == [] && two[..1] == one && events[..2] == two;
    assert StreamRows(one, tenant, stream, 1, None) == [events[0]];
    assert StreamRows(two, tenant, stream, 1, None) == [events[0]];
  }
}
