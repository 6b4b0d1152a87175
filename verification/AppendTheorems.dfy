/**
 What appending promises, for every interleaving: exactly-once per idempotency key, and a
 chain that `verifyChain` accepts unless a lost idempotency race left a hole in it.
 */
module AppendTheorems {
  import opened Utf16
  import opened JsonText
  import opened Chain
  import opened ChainCheck
  import opened Append
  import opened AppendSafety

  ghost predicate OneKey(t: Txn, u: Txn) {
    && t.req.key.Some? && t.req.key.value != []
    && t.req.tenant == u.req.tenant && t.req.key == u.req.key
  }

  ghost predicate SameEvent(r: Receipt, q: Receipt) {
    r.event == q.event && r.seqNo == q.seqNo && r.contentHash == q.contentHash
  }

  /** Exactly once, in every reachable state: one event at most per tenant and key; every
      answer names an event of its tenant, with that event's number and hashes, that holds its
      content and, where it gave a key, its key; all answers for one key name one event; and the
      outbox holds one row for each event, none for anything else. */
  lemma ExactlyOnce(sha: Text -> Text, actions: seq<Action>)
    ensures KeysUnique(Run(sha, actions).events)
    ensures OutboxMatches(Run(sha, actions))
    ensures var s := Run(sha, actions);
      forall t :: t in s.txns && t.phase.Done? ==> AnsweredRightly(sha, s.events, t)
    ensures var s := Run(sha, actions);
      forall t, u :: t in s.txns && u in s.txns && t.phase.Done? && u.phase.Done? && OneKey(t, u) ==>
        SameEvent(t.phase.receipt, u.phase.receipt) &&
          ContentHash(sha, t.req.content) == ContentHash(sha, u.req.content)
  {
    RunKeeps(sha, actions);
    var s := Run(sha, actions);
    forall t | t in s.txns && t.phase.Done? ensures AnsweredRightly(sha, s.events, t) {
      assert TxnOk(sha, s, t);
    }
    forall t, u | t in s.txns && u in s.txns && t.phase.Done? && u.phase.Done? && OneKey(t, u)
      ensures SameEvent(t.phase.receipt, u.phase.receipt) &&
        ContentHash(sha, t.req.content) == ContentHash(sha, u.req.content)
    {
      OneAnswer(sha, s, t, u);
    }
  }

  ghost predicate AnsweredRightly(sha: Text -> Text, events: seq<Event>, t: Txn)
    requires t.phase.Done?
  {
    var r := t.phase.receipt;
    exists e :: e in events
      && r.event == e.id && r.seqNo == e.seqNo && r.contentHash == e.contentHash && r.prevHash == e.prevHash
      && e.tenant == t.req.tenant && e.contentHash == sha(Repaired(t.req.content))
      && (t.req.key.Some? && t.req.key.value != [] ==> e.key == t.req.key)
      && (!r.deduplicated ==> e.stream == t.req.stream && e.key == t.req.key && r.extractionQueued)
  }

  lemma OneEventPerKey(events: seq<Event>, e: Event, f: Event)
    requires KeysUnique(events) && e in events && f in events && Clashes(e, f.tenant, f.key)
    ensures e == f
  {
    var m :| 0 <= m < |events| && events[m] == e;
    var n :| 0 <= n < |events| && events[n] == f;
    assert Clashes(f, e.tenant, e.key);
    assert m == n;
  }

  lemma OneAnswer(sha: Text -> Text, s: Ledger, t: Txn, u: Txn)
    requires Inv(sha, s) && t.phase.Done? && u.phase.Done? && t in s.txns && u in s.txns
    requires OneKey(t, u)
    ensures exists e ::
      e in s.events && Answers(sha, e, t.req, t.phase.receipt) && Answers(sha, e, u.req, u.phase.receipt)
  {
    assert TxnOk(sha, s, t) && TxnOk(sha, s, u);
    var e :| e in s.events && Answers(sha, e, t.req, t.phase.receipt);
    var f :| f in s.events && Answers(sha, f, u.req, u.phase.receipt);
    OneEventPerKey(s.events, e, f);
  }

  /** Different content under a used key is refused: all transactions answered for a key, in
      any interleaving, carried the same UTF-8 bytes. */
  lemma OtherContentRefused(sha: Text -> Text, actions: seq<Action>, t: Txn, u: Txn)
    requires Injective(sha)
    requires t in Run(sha, actions).txns && u in Run(sha, actions).txns
    requires OneKey(t, u) && t.phase.Done?
    ensures Repaired(t.req.content) != Repaired(u.req.content) ==> !u.phase.Done?
  {
    ExactlyOnce(sha, actions);
  }

  // ----- who waits

  /** A transaction past its lookup waits for its number exactly while another one that has a
      number in the same stream is still open; streams and tenants do not wait for each other. */
  lemma AllocationWaits(sha: Text -> Text, s: Ledger, i: nat)
    requires i < |s.txns| && s.txns[i].phase.LookedUp?
    ensures Step(sha, s, Allocate(i)) == s <==>
      exists j :: 0 <= j < |s.txns|
        && s.txns[j].req.tenant == s.txns[i].req.tenant && s.txns[j].req.stream == s.txns[i].req.stream
        && (s.txns[j].phase.Allocated? || s.txns[j].phase.Written? || s.txns[j].phase.LostRace?)
  {
    var req := s.txns[i].req;
    if Locked(s, req.tenant, req.stream) {
      var j :| 0 <= j < |s.txns| && Holds(s.txns[j], req.tenant, req.stream);
    } else {
      assert !AllocatePhase(s, req).LookedUp?;
      assert Step(sha, s, Allocate(i)).txns[i].phase == AllocatePhase(s, req);
      assert forall j :: 0 <= j < |s.txns| ==> !Holds(s.txns[j], req.tenant, req.stream);
    }
  }

  /** One that has its number waits to insert exactly while another one of its tenant has a row
      with its key inserted and not committed. */
  lemma InsertWaits(sha: Text -> Text, s: Ledger, i: nat)
    requires i < |s.txns| && s.txns[i].phase.Allocated?
    ensures Step(sha, s, InsertRow(i)) == s <==>
      exists j :: 0 <= j < |s.txns| && s.txns[j].phase.Written? && s.txns[i].req.key.Some?
        && s.txns[j].phase.row.tenant == s.txns[i].req.tenant && s.txns[j].phase.row.key == s.txns[i].req.key
  {
    var req := s.txns[i].req;
    if KeyPending(s, req.tenant, req.key) {
      var j :| 0 <= j < |s.txns| && s.txns[j].phase.Written? && Clashes(s.txns[j].phase.row, req.tenant, req.key);
    } else {
      assert Step(sha, s, InsertRow(i)).nextId == s.nextId + 1;
      assert forall j :: 0 <= j < |s.txns| && s.txns[j].phase.Written? ==>
        !Clashes(s.txns[j].phase.row, req.tenant, req.key);
    }
  }

  // ----- conservation: sequence numbers are events or lost races

  /** A receipt that `append` returned from its lost-race branch. */
  predicate LostReceipt(t: Txn, tenant: Text, stream: Text) {
    && t.req.tenant == tenant && t.req.stream == stream
    && t.phase.Done? && t.phase.receipt.deduplicated && !t.phase.receipt.extractionQueued
  }

  function LostRaces(txns: seq<Txn>, tenant: Text, stream: Text): nat {
    if txns == [] then 0
    else LostRaces(txns[..|txns| - 1], tenant, stream) + if LostReceipt(txns[|txns| - 1], tenant, stream) then 1 else 0
  }

  lemma {:induction false} LostRacesUpdate(txns: seq<Txn>, i: nat, t: Txn, tenant: Text, stream: Text)
    requires i < |txns|
    ensures LostRaces(txns[i := t], tenant, stream)
      == LostRaces(txns, tenant, stream) - (if LostReceipt(txns[i], tenant, stream) then 1 else 0)
         + (if LostReceipt(t, tenant, stream) then 1 else 0)
    decreases |txns|
  {
    var n := |txns| - 1;
    if i < n {
      assert txns[i := t][..n] == txns[..n][i := t];
      LostRacesUpdate(txns[..n], i, t, tenant, stream);
    } else {
      assert txns[i := t][..n] == txns[..n];
    }
  }

  ghost predicate Conserved(s: Ledger, tenant: Text, stream: Text) {
    |StreamRows(s.events, tenant, stream, 1, None)| + LostRaces(s.txns, tenant, stream) == LastSeq(s, tenant, stream)
  }

  lemma PhaseConserves(s: Ledger, i: nat, phase: Phase, tenant: Text, stream: Text)
    requires i < |s.txns| && Conserved(s, tenant, stream)
    requires !s.txns[i].phase.Done?
    requires phase.Done? ==> phase.receipt.extractionQueued
    ensures Conserved(SetPhase(s, i, phase), tenant, stream)
  {
    LostRacesUpdate(s.txns, i, s.txns[i].(phase := phase), tenant, stream);
  }

  lemma RowsAppend(events: seq<Event>, row: Event, tenant: Text, stream: Text)
    ensures |StreamRows(events + [row], tenant, stream, 1, None)|
         == |StreamRows(events, tenant, stream, 1, None)|
            + if InStream(row, tenant, stream) && row.seqNo >= 1 then 1 else 0
  {
    assert (events + [row])[..|events|] == events;
  }

  lemma RowConserves(s: Ledger, i: nat, row: Event, tenant: Text, stream: Text)
    requires i < |s.txns| && Conserved(s, tenant, stream) && s.txns[i].phase == Written(row)
    requires row.tenant == s.txns[i].req.tenant && row.stream == s.txns[i].req.stream
    requires row.seqNo == LastSeq(s, row.tenant, row.stream) + 1
    ensures Conserved(CommitTxn(s, i), tenant, stream)
  {
    LostRacesUpdate(s.txns, i, s.txns[i].(phase := Done(ReceiptOf(row, false, true))), tenant, stream);
    RowsAppend(s.events, row, tenant, stream);
  }

  lemma RaceConserves(s: Ledger, i: nat, tenant: Text, stream: Text)
    requires i < |s.txns| && Conserved(s, tenant, stream) && s.txns[i].phase.LostRace?
    requires s.txns[i].phase.at == LastSeq(s, s.txns[i].req.tenant, s.txns[i].req.stream) + 1
    requires s.txns[i].phase.winner.deduplicated && !s.txns[i].phase.winner.extractionQueued
    ensures Conserved(CommitTxn(s, i), tenant, stream)
  {
    LostRacesUpdate(s.txns, i, s.txns[i].(phase := Done(s.txns[i].phase.winner)), tenant, stream);
  }

  lemma CommitConserves(sha: Text -> Text, s: Ledger, i: nat, tenant: Text, stream: Text)
    requires i < |s.txns| && TxnOk(sha, s, s.txns[i]) && Conserved(s, tenant, stream)
    ensures Conserved(CommitTxn(s, i), tenant, stream)
  {
    if s.txns[i].phase.Written? {
      RowConserves(s, i, s.txns[i].phase.row, tenant, stream);
    } else if s.txns[i].phase.LostRace? {
      RaceConserves(s, i, tenant, stream);
    }
  }

  /** A step that only moves one open transaction on; none ends this way as a lost race. */
  ghost predicate MovesOn(s: Ledger, s': Ledger, i: nat, phase: Phase) {
    && i < |s.txns| && !s.txns[i].phase.Done? && (phase.Done? ==> phase.receipt.extractionQueued)
    && s' == SetPhase(s, i, phase).(nextId := s'.nextId)
  }

  lemma StepShape(sha: Text -> Text, s: Ledger, a: Action) returns (i: nat, phase: Phase)
    ensures var s' := Step(sha, s, a);
      || s' == s || a.Begin? || (a.Commit? && a.txn < |s.txns| && s' == CommitTxn(s, a.txn)) || MovesOn(s, s', i, phase)
  {
    i, phase := 0, Begun;
    match a
    case Begin(_) =>
    case LookUp(k) =>
      if Step(sha, s, a) != s { i, phase := k, LookUpPhase(sha, s, s.txns[k].req); }
    case Allocate(k) =>
      if Step(sha, s, a) != s { i, phase := k, AllocatePhase(s, s.txns[k].req); }
    case InsertRow(k) =>
      if Step(sha, s, a) != s { i, phase := k, InsertPhase(sha, s, s.txns[k].req, s.txns[k].phase.at); }
    case Commit(_) =>
    case Abort(k) =>
      if Step(sha, s, a) != s { i, phase := k, Failed(Aborted); }
  }

  lemma BeginConserves(sha: Text -> Text, s: Ledger, req: Request, tenant: Text, stream: Text)
    requires Conserved(s, tenant, stream)
    ensures Conserved(Step(sha, s, Begin(req)), tenant, stream)
  {
    var t := Txn(req, if req.content == [] then Failed(InvalidContent) else Begun);
    assert (s.txns + [t])[..|s.txns|] == s.txns;
  }

  lemma StepConserves(sha: Text -> Text, s: Ledger, a: Action, tenant: Text, stream: Text)
    requires (forall i :: 0 <= i < |s.txns| ==> TxnOk(sha, s, s.txns[i])) && Conserved(s, tenant, stream)
    ensures Conserved(Step(sha, s, a), tenant, stream)
  {
    var i, phase := StepShape(sha, s, a);
    var s' := Step(sha, s, a);
    if a.Begin? {
      BeginConserves(sha, s, a.req, tenant, stream);
    } else if s' != s && MovesOn(s, s', i, phase) {
      PhaseConserves(s, i, phase, tenant, stream);
    } else if s' != s {
      CommitConserves(sha, s, a.txn, tenant, stream);
    }
  }

  /** In every reachable state a stream's `last_seq` counts its events and the races lost on it. */
  lemma {:induction false} SequencesConserved(sha: Text -> Text, actions: seq<Action>, tenant: Text, stream: Text)
    ensures Conserved(Run(sha, actions), tenant, stream)
    decreases |actions|
  {
    if actions != [] {
      var before := actions[..|actions| - 1];
      RunKeeps(sha, before);
      SequencesConserved(sha, before, tenant, stream);
      StepConserves(sha, Run(sha, before), actions[|actions| - 1], tenant, stream);
    }
  }

  // ----- the chain

  lemma {:induction false} RowsAscend(events: seq<Event>, tenant: Text, stream: Text, fromSeq: nat, upTo: Option<nat>)
    requires StreamsAscend(events)
    ensures Ascending(StreamRows(events, tenant, stream, fromSeq, upTo))
    decreases |events|
  {
    if events != [] {
      var n := |events| - 1;
      RowsAscend(events[..n], tenant, stream, fromSeq, upTo);
      var before := StreamRows(events[..n], tenant, stream, fromSeq, upTo);
      forall e | e in before && InStream(events[n], tenant, stream) ensures e.seqNo < events[n].seqNo {
        var k :| 0 <= k < n && events[..n][k] == e;
      }
    }
  }

  lemma RowsLinked(sha: Text -> Text, events: seq<Event>, tenant: Text, stream: Text, upTo: Option<nat>, e: Event)
    requires LinkedIn(sha, events, e) && e in StreamRows(events, tenant, stream, 1, upTo)
    requires StreamsAscend(events) && forall f :: f in events ==> f.seqNo >= 1
    ensures Linked(sha, StreamRows(events, tenant, stream, 1, upTo), e)
  {
    var rows := StreamRows(events, tenant, stream, 1, upTo);
    var found := FindSeq(events, tenant, stream, e.seqNo - 1);
    if found.Some? {
      assert found.value in rows;
      forall p | p in rows && p.seqNo + 1 == e.seqNo ensures p == found.value {
        OneRowPerSeq(events, p, found.value);
      }
    }
  }

  lemma OneRowPerSeq(events: seq<Event>, f: Event, g: Event)
    requires StreamsAscend(events) && f in events && g in events
    requires InStream(f, g.tenant, g.stream) && f.seqNo == g.seqNo
    ensures f == g
  {
    var i :| 0 <= i < |events| && events[i] == f;
    var j :| 0 <= j < |events| && events[j] == g;
  }

  /** The exact verdict in every reachable state: `verifyChain` from the start, up to any
      sequence number, passes exactly when no number is missing between two of the rows, and
      each row fails exactly when the number before it is missing and is not before all rows. */
  lemma ReachableChain(sha: Text -> Text, actions: seq<Action>, tenant: Text, stream: Text, upTo: Option<nat>)
    ensures var rows := StreamRows(Run(sha, actions).events, tenant, stream, 1, upTo);
      && Ascending(rows)
      && (forall i :: 0 <= i < |rows| ==> (RowHolds(sha, 1, rows, i) <==> i == 0 || Adjacent(rows, i)))
      && (ChainHolds(sha, 1, rows) <==> forall i :: 0 < i < |rows| ==> Adjacent(rows, i))
  {
    RunKeeps(sha, actions);
    var events := Run(sha, actions).events;
    var rows := StreamRows(events, tenant, stream, 1, upTo);
    RowsAscend(events, tenant, stream, 1, upTo);
    forall i | 0 <= i < |rows| ensures Linked(sha, rows, rows[i]) {
      assert rows[i] in rows;
      RowsLinked(sha, events, tenant, stream, upTo, rows[i]);
    }
    GapsAreTheOnlyBreaks(sha, rows);
  }

  /** The number before a row has no event, so the row was written without a predecessor. */
  ghost predicate AfterGap(events: seq<Event>, e: Event) {
    forall p :: p in events && InStream(p, e.tenant, e.stream) ==> p.seqNo + 1 != e.seqNo
  }

  /** What the second row of a later range needs: it is checked against the first row's own
      `prev_hash`. Next to it, the first row has to repeat the content before it; after a gap,
      the first row has to stand after a gap too. */
  ghost predicate SecondRowPasses(events: seq<Event>, rows: seq<Event>)
    requires |rows| >= 2
  {
    if Adjacent(rows, 1) then
      exists p :: p in events && InStream(p, rows[0].tenant, rows[0].stream) && p.seqNo + 1 == rows[0].seqNo
        && p.contentHash == rows[0].contentHash
    else AfterGap(events, rows[0])
  }

  lemma PrevHashTells(events: seq<Event>, e: Event, hash: Text)
    requires StreamsAscend(events)
    ensures PrevHashIn(events, e) == None <==> AfterGap(events, e)
    ensures PrevHashIn(events, e) == Some(hash) <==>
      exists p :: p in events && InStream(p, e.tenant, e.stream) && p.seqNo + 1 == e.seqNo && p.contentHash == hash
  {
    var found := FindSeq(events, e.tenant, e.stream, e.seqNo - 1);
    forall p | found.Some? && p in events && InStream(p, e.tenant, e.stream) && p.seqNo + 1 == e.seqNo
      ensures p == found.value
    {
      OneRowPerSeq(events, p, found.value);
    }
  }

  /** Neighbours in a range have no event of the stream between them. */
  lemma NoneBetween(events: seq<Event>, rows: seq<Event>, tenant: Text, stream: Text,
                    fromSeq: nat, upTo: Option<nat>, i: nat, p: Event)
    requires rows == StreamRows(events, tenant, stream, fromSeq, upTo) && Ascending(rows) && 0 < i < |rows|
    requires p in events && InStream(p, tenant, stream)
    ensures p.seqNo <= rows[i - 1].seqNo || rows[i].seqNo <= p.seqNo
  {
    assert rows[i] in rows && rows[i - 1] in rows;
    if p in rows {
      var j :| 0 <= j < |rows| && rows[j] == p;
      assert j < i - 1 ==> rows[j].seqNo < rows[i - 1].seqNo;
      assert i < j ==> rows[i].seqNo < rows[j].seqNo;
    }
  }

  /** A row past the first of any range: the one before it in the range is its predecessor, or
      it has none. */
  lemma LaterRowHash(sha: Text -> Text, events: seq<Event>, rows: seq<Event>, tenant: Text, stream: Text,
                     fromSeq: nat, upTo: Option<nat>, i: nat)
    requires StreamsAscend(events) && rows == StreamRows(events, tenant, stream, fromSeq, upTo) && Ascending(rows)
    requires 0 < i < |rows| && LinkedIn(sha, events, rows[i])
    ensures rows[i].prevHash == if Adjacent(rows, i) then Some(rows[i - 1].contentHash) else None
  {
    assert rows[i] in rows && rows[i - 1] in rows;
    PrevHashTells(events, rows[i], rows[i - 1].contentHash);
    if !Adjacent(rows, i) {
      forall p | p in events && InStream(p, tenant, stream) ensures p.seqNo + 1 != rows[i].seqNo {
        NoneBetween(events, rows, tenant, stream, fromSeq, upTo, i, p);
        assert rows[i - 1].seqNo < rows[i].seqNo;
      }
    }
  }

  lemma RangeVerdict(sha: Text -> Text, events: seq<Event>, rows: seq<Event>, tenant: Text, stream: Text,
                     fromSeq: nat, upTo: Option<nat>)
    requires fromSeq > 1 && StreamsAscend(events) && forall e :: e in events ==> LinkedIn(sha, events, e)
    requires rows == StreamRows(events, tenant, stream, fromSeq, upTo) && Ascending(rows)
    ensures |rows| >= 2 ==> (RowHolds(sha, fromSeq, rows, 1) <==> SecondRowPasses(events, rows))
    ensures forall i :: 2 <= i < |rows| ==> (RowHolds(sha, fromSeq, rows, i) <==> Adjacent(rows, i))
  {
    forall i | 0 < i < |rows|
      ensures RowHolds(sha, fromSeq, rows, i) <==>
        ExpectedPrev(fromSeq, rows, i) == if Adjacent(rows, i) then Some(rows[i - 1].contentHash) else None
    {
      assert rows[i] in rows && LinkedIn(sha, events, rows[i]);
      LaterRowHash(sha, events, rows, tenant, stream, fromSeq, upTo, i);
    }
    if |rows| >= 2 {
      assert rows[0] in rows && LinkedIn(sha, events, rows[0]);
      PrevHashTells(events, rows[0], rows[0].contentHash);
    }
  }

  /** The exact verdict of `verifyChain` on a range that starts beyond 1, in every reachable
      state: the first row is never checked, every row past the second fails exactly after a
      gap, and the second passes in the two cases of `SecondRowPasses`. */
  lemma ReachableRange(sha: Text -> Text, actions: seq<Action>, tenant: Text, stream: Text,
                       fromSeq: nat, upTo: Option<nat>)
    requires fromSeq > 1
    ensures var events := Run(sha, actions).events;
      var rows := StreamRows(events, tenant, stream, fromSeq, upTo);
      && (|rows| >= 2 ==> (RowHolds(sha, fromSeq, rows, 1) <==> SecondRowPasses(events, rows)))
      && (forall i :: 2 <= i < |rows| ==> (RowHolds(sha, fromSeq, rows, i) <==> Adjacent(rows, i)))
      && (ChainHolds(sha, fromSeq, rows) <==>
           (|rows| >= 2 ==> SecondRowPasses(events, rows)) && forall i :: 2 <= i < |rows| ==> Adjacent(rows, i))
  {
    RunKeeps(sha, actions);
    var events := Run(sha, actions).events;
    var rows := StreamRows(events, tenant, stream, fromSeq, upTo);
    RowsAscend(events, tenant, stream, fromSeq, upTo);
    RangeVerdict(sha, events, rows, tenant, stream, fromSeq, upTo);
    assert |rows| > 0 ==> RowHolds(sha, fromSeq, rows, 0);
  }

  lemma {:induction false} Dense(rows: seq<Event>, n: nat)
    requires Ascending(rows) && |rows| == n && forall i :: 0 <= i < |rows| ==> 1 <= rows[i].seqNo <= n
    ensures forall i :: 0 <= i < |rows| ==> rows[i].seqNo == i + 1
  {
    if n > 0 {
      var front := rows[..n - 1];
      forall i | 0 <= i < n - 1 ensures 1 <= front[i].seqNo <= n - 1 {
        assert rows[i].seqNo < rows[n - 1].seqNo;
      }
      Dense(front, n - 1);
      assert forall i :: 0 <= i < n - 1 ==> rows[i] == front[i];
      assert n > 1 ==> rows[n - 2].seqNo < rows[n - 1].seqNo;
    }
  }

  /** A stream on which no race was lost has the sequence numbers 1 to last_seq, each once, in
      every reachable state; and conversely a lost race leaves a number without an event. */
  lemma SequencesComplete(sha: Text -> Text, actions: seq<Action>, tenant: Text, stream: Text)
    ensures var s := Run(sha, actions);
      var rows := StreamRows(s.events, tenant, stream, 1, None);
      LostRaces(s.txns, tenant, stream) == 0 <==>
        |rows| == LastSeq(s, tenant, stream) && forall i :: 0 <= i < |rows| ==> rows[i].seqNo == i + 1
  {
    var s := Run(sha, actions);
    RunKeeps(sha, actions);
    SequencesConserved(sha, actions, tenant, stream);
    var rows := StreamRows(s.events, tenant, stream, 1, None);
    RowsAscend(s.events, tenant, stream, 1, None);
    if LostRaces(s.txns, tenant, stream) == 0 {
      forall i | 0 <= i < |rows| ensures 1 <= rows[i].seqNo <= |rows| {
        assert rows[i] in rows;
      }
      Dense(rows, |rows|);
    }
  }

  /** Appends build a chain that `verifyChain` accepts: after any run without a lost race on the
      stream, from the start and up to any number, every row holds, and the rows checked are
      those numbered 1, 2, ... in the range. */
  lemma LosslessChain(sha: Text -> Text, actions: seq<Action>, tenant: Text, stream: Text, upTo: Option<nat>)
    requires LostRaces(Run(sha, actions).txns, tenant, stream) == 0
    ensures var s := Run(sha, actions);
      var rows := StreamRows(s.events, tenant, stream, 1, upTo);
      && ChainHolds(sha, 1, rows)
      && forall i :: 0 <= i < |rows| ==> rows[i].seqNo == i + 1
  {
    var s := Run(sha, actions);
    var all, rows := StreamRows(s.events, tenant, stream, 1, None), StreamRows(s.events, tenant, stream, 1, upTo);
    SequencesComplete(sha, actions, tenant, stream);
    ReachableChain(sha, actions, tenant, stream, upTo);
    forall i | 0 <= i < |rows| ensures rows[i].seqNo == i + 1 {
      NoRowSkipped(all, rows, upTo, i);
    }
    forall i | 0 < i < |rows| ensures Adjacent(rows, i) {
      assert rows[i].seqNo == i + 1 && rows[i - 1].seqNo == i;
    }
  }

  lemma {:induction false} NoRowSkipped(all: seq<Event>, rows: seq<Event>, upTo: Option<nat>, i: nat)
    requires Ascending(rows) && i < |rows|
    requires forall k :: 0 <= k < |all| ==> all[k].seqNo == k + 1
    requires forall e :: e in rows <==> e in all && Within(e, 1, upTo)
    ensures rows[i].seqNo == i + 1
    decreases i
  {
    var e := rows[i];
    assert e in rows;
    var k :| 0 <= k < |all| && all[k] == e;
    if i > 0 {
      NoRowSkipped(all, rows, upTo, i - 1);
    }
    if k > 0 {
      var p := all[k - 1];
      assert p in all && Within(p, 1, upTo);
      var j :| 0 <= j < |rows| && rows[j] == p;
      assert j < i;
    }
  }
}
