/**
 `append` on its own: what one call does to a ledger on which no other transaction holds a lock
 or has a row inserted, for every request, and that a retry changes nothing.
 */
module SerialAppend {
  import opened Utf16
  import opened JsonText
  import opened Chain
  import opened ChainCheck
  import opened Append
  import opened AppendSafety

  /** A transaction that makes no other wait: ended, or not yet past its lookup. */
  ghost predicate Idle(t: Txn) {
    !t.phase.Allocated? && !t.phase.Written? && !t.phase.LostRace?
  }

  ghost predicate Quiet(s: Ledger) {
    forall i :: 0 <= i < |s.txns| ==> Idle(s.txns[i])
  }

  ghost predicate SameTables(s: Ledger, s': Ledger) {
    s'.events == s.events && s'.streams == s.streams && s'.outbox == s.outbox
  }

  /** The last two statements of a transaction: the insert and the commit. */
  function InsertAndCommit(sha: Text -> Text, s: Ledger, n: nat): Ledger {
    Step(sha, Step(sha, s, InsertRow(n)), Commit(n))
  }

  /** The statements of one call, in order, for the transaction it begins. */
  function Call(sha: Text -> Text, s: Ledger, req: Request): (s': Ledger)
    ensures |s'.txns| == |s.txns| + 1 && s'.txns[..|s.txns|] == s.txns
  {
    var n := |s.txns|;
    var s1 := Step(sha, s, Begin(req));
    var s2 := Step(sha, s1, LookUp(n));
    InsertAndCommit(sha, Step(sha, s2, Allocate(n)), n)
  }

  ghost predicate Used(s: Ledger, req: Request) {
    exists e :: e in s.events && e.tenant == req.tenant && req.key.Some? && e.key == req.key
  }

  ghost predicate UsedFor(sha: Text -> Text, s: Ledger, req: Request) {
    exists e ::
      e in s.events && e.tenant == req.tenant && req.key.Some? && e.key == req.key
      && e.contentHash == sha(Repaired(req.content))
  }

  ghost predicate Expects(s: Ledger, req: Request) {
    req.expectedSeq.None? || req.expectedSeq.value == LastSeq(s, req.tenant, req.stream) + 1
  }

  /** The error a call ends in. The empty-string key is not looked up, but it is stored and
      unique: its second use is refused whatever the content. */
  ghost function Refusal(sha: Text -> Text, s: Ledger, req: Request): Option<Failure> {
    if req.content == [] then Some(InvalidContent)
    else if req.key.Some? && req.key.value != [] && Used(s, req) then
      if UsedFor(sha, s, req) then None else Some(IdempotencyConflict)
    else if !Expects(s, req) then Some(SequenceConflict)
    else if req.occurredAt.None? then Some(InvalidInstant)
    else if Used(s, req) then Some(IdempotencyConflict)
    else None
  }

  /** The row a call that writes adds: the stream's next number, the content's hash, the
      content hash of the event before it, and a link over its own fields. */
  ghost predicate Appended(sha: Text -> Text, s: Ledger, req: Request, row: Event) {
    && row.tenant == req.tenant && row.stream == req.stream && row.actor == req.actor && row.key == req.key
    && req.occurredAt == Some(row.occurredAt)
    && row.seqNo == LastSeq(s, req.tenant, req.stream) + 1
    && row.contentHash == sha(Repaired(req.content)) && row.prevHash == PrevHashIn(s.events, row)
    && row.chained && LinkHolds(sha, row)
    && forall e :: e in s.events ==> e.id != row.id
  }

  ghost predicate Wrote(sha: Text -> Text, s: Ledger, s': Ledger, req: Request, r: Receipt) {
    |s'.events| == |s.events| + 1 &&
    var row := s'.events[|s.events|];
    && s'.events[..|s.events|] == s.events && Appended(sha, s, req, row)
    && s'.outbox == s.outbox + [row.id]
    && s'.streams == s.streams[(req.tenant, req.stream) := row.seqNo]
    && Describes(r, row) && !r.deduplicated && r.extractionQueued
  }

  ghost predicate Replayed(sha: Text -> Text, s: Ledger, req: Request, r: Receipt) {
    exists e ::
      e in s.events && e.tenant == req.tenant && req.key.Some? && e.key == req.key
      && e.contentHash == sha(Repaired(req.content))
      && Describes(r, e) && r.deduplicated && r.extractionQueued
  }

  /** How a call of its own transaction ends. */
  ghost predicate Outcome(sha: Text -> Text, s: Ledger, s': Ledger, req: Request) {
    && |s'.txns| == |s.txns| + 1 && s'.txns[..|s.txns|] == s.txns
    && var phase := s'.txns[|s.txns|].phase;
       match Refusal(sha, s, req)
       case Some(failure) => SameTables(s, s') && phase == Failed(failure)
       case None =>
         && phase.Done?
         && if req.key.Some? && req.key.value != [] && Used(s, req)
           then SameTables(s, s') && Replayed(sha, s, req, phase.receipt)
            else Wrote(sha, s, s', req, phase.receipt)
  }

  // ----- the transaction on its way

  /** The ledger with its last transaction in the given phase. */
  function WithPhase(s: Ledger, req: Request, phase: Phase): Ledger {
    s.(txns := s.txns + [Txn(req, phase)])
  }

  lemma OneKeyOneEvent(events: seq<Event>, tenant: Text, key: Option<Text>, e: Event)
    requires KeysUnique(events) && e in events && Clashes(e, tenant, key)
    ensures FindKey(events, tenant, key) == Some(e)
  {
    var f := FindKey(events, tenant, key).value;
    var m :| 0 <= m < |events| && events[m] == e;
    var n :| 0 <= n < |events| && events[n] == f;
    assert Clashes(e, f.tenant, f.key) && Clashes(f, e.tenant, e.key);
    assert m == n;
  }

  lemma Advance(s: Ledger, req: Request, phase: Phase, next: Phase)
    ensures SetPhase(WithPhase(s, req, phase), |s.txns|, next) == WithPhase(s, req, next)
  {
    assert (s.txns + [Txn(req, phase)])[|s.txns| := Txn(req, next)] == s.txns + [Txn(req, next)];
  }

  lemma Unobstructed(s: Ledger, req: Request, phase: Phase, tenant: Text, stream: Text, key: Option<Text>)
    requires Quiet(s) && !phase.Written? && !phase.LostRace? && !phase.Allocated?
    ensures !Locked(WithPhase(s, req, phase), tenant, stream)
  {
  }

  lemma NotPending(s: Ledger, req: Request, phase: Phase, tenant: Text, key: Option<Text>)
    requires Quiet(s) && !phase.Written?
    ensures !KeyPending(WithPhase(s, req, phase), tenant, key)
  {
  }

  /** Once a call has ended, its remaining statements change nothing. */
  lemma Over(sha: Text -> Text, s: Ledger, req: Request, phase: Phase)
    requires phase.Done? || phase.Failed?
    ensures var t, n := WithPhase(s, req, phase), |s.txns|;
      && Step(sha, t, LookUp(n)) == t && Step(sha, t, Allocate(n)) == t
      && Step(sha, t, InsertRow(n)) == t && Step(sha, t, Commit(n)) == t
  {
  }

  lemma LookedUpPhase(sha: Text -> Text, s: Ledger, req: Request)
    ensures Step(sha, WithPhase(s, req, Begun), LookUp(|s.txns|)) == WithPhase(s, req, LookUpPhase(sha, s, req))
  {
    Advance(s, req, Begun, LookUpPhase(sha, s, req));
  }

  lemma AllocatedPhase(sha: Text -> Text, s: Ledger, req: Request)
    requires Quiet(s)
    ensures Step(sha, WithPhase(s, req, LookedUp), Allocate(|s.txns|)) == WithPhase(s, req, AllocatePhase(s, req))
  {
    Unobstructed(s, req, LookedUp, req.tenant, req.stream, req.key);
    Advance(s, req, LookedUp, AllocatePhase(s, req));
  }

  lemma InsertedPhase(sha: Text -> Text, s: Ledger, req: Request, at: nat)
    requires Quiet(s)
    ensures Step(sha, WithPhase(s, req, Allocated(at)), InsertRow(|s.txns|))
         == WithPhase(s.(nextId := s.nextId + 1), req, InsertPhase(sha, s, req, at))
  {
    NotPending(s, req, Allocated(at), req.tenant, req.key);
    Advance(s, req, Allocated(at), InsertPhase(sha, s, req, at));
  }

  lemma CommittedPhase(s: Ledger, req: Request, row: Event)
    ensures CommitTxn(WithPhase(s, req, Written(row)), |s.txns|)
         == WithPhase(s.(events := s.events + [row], outbox := s.outbox + [row.id],
                         streams := s.streams[(req.tenant, req.stream) := row.seqNo]),
                      req, Done(ReceiptOf(row, false, true)))
  {
    Advance(s, req, Written(row), Done(ReceiptOf(row, false, true)));
  }

  // ----- the whole call

  /** Where the call stands after the idempotency lookup. */
  lemma AfterLookUp(sha: Text -> Text, s: Ledger, req: Request)
    requires Inv(sha, s) && req.content != []
    ensures var phase := LookUpPhase(sha, s, req);
      if Keyed(req) && Used(s, req) then
        if UsedFor(sha, s, req) then phase.Done? && Replayed(sha, s, req, phase.receipt)
        else phase == Failed(IdempotencyConflict)
      else phase == LookedUp
  {
    if Keyed(req) && Used(s, req) {
      var e := FindKey(s.events, req.tenant, req.key).value;
      if UsedFor(sha, s, req) {
        var f :| f in s.events && Clashes(f, req.tenant, req.key) && f.contentHash == ContentHash(sha, req.content);
        OneKeyOneEvent(s.events, req.tenant, req.key, f);
      }
    }
  }

  lemma NewRowAppended(sha: Text -> Text, s: Ledger, req: Request)
    requires OutboxMatches(s) && req.occurredAt.Some?
    ensures Appended(sha, s, req, NewRow(sha, s.events, req, LastSeq(s, req.tenant, req.stream) + 1, s.nextId))
  {
    var row := NewRow(sha, s.events, req, LastSeq(s, req.tenant, req.stream) + 1, s.nextId);
    assert LinkRecord(row.(linkHash := None)) == LinkRecord(row);
    forall e | e in s.events ensures e.id != row.id {
      var k :| 0 <= k < |s.events| && s.events[k] == e;
    }
  }

  lemma EndedEarly(sha: Text -> Text, s: Ledger, req: Request, phase: Phase)
    requires match Refusal(sha, s, req)
      case Some(failure) => phase == Failed(failure)
      case None => Keyed(req) && Used(s, req) && phase.Done? && Replayed(sha, s, req, phase.receipt)
    ensures Outcome(sha, s, WithPhase(s, req, phase), req)
  {
  }

  /** The last two statements of a call that was not refused before them. */
  lemma WriteAndCommit(sha: Text -> Text, s: Ledger, req: Request)
    requires Inv(sha, s) && Quiet(s) && req.content != [] && !(Keyed(req) && Used(s, req)) && Expects(s, req)
    ensures var n, at := |s.txns|, LastSeq(s, req.tenant, req.stream) + 1;
      Outcome(sha, s, InsertAndCommit(sha, WithPhase(s, req, Allocated(at)), n), req)
  {
    var at, next := LastSeq(s, req.tenant, req.stream) + 1, s.(nextId := s.nextId + 1);
    var phase := InsertPhase(sha, s, req, at);
    InsertedPhase(sha, s, req, at);
    if phase.Failed? {
      Over(sha, next, req, phase);
    } else {
      CommittedPhase(next, req, phase.row);
      NewRowAppended(sha, s, req);
    }
  }

  lemma StopsAtLookUp(sha: Text -> Text, s: Ledger, req: Request)
    requires req.content != [] && LookUpPhase(sha, s, req) != LookedUp
    ensures Call(sha, s, req) == WithPhase(s, req, LookUpPhase(sha, s, req))
  {
    LookedUpPhase(sha, s, req);
    Over(sha, s, req, LookUpPhase(sha, s, req));
  }

  lemma StopsAtAllocation(sha: Text -> Text, s: Ledger, req: Request)
    requires Quiet(s) && req.content != [] && LookUpPhase(sha, s, req) == LookedUp && !Expects(s, req)
    ensures Call(sha, s, req) == WithPhase(s, req, Failed(SequenceConflict))
  {
    LookedUpPhase(sha, s, req);
    AllocatedPhase(sha, s, req);
    Over(sha, s, req, Failed(SequenceConflict));
  }

  lemma AfterAllocation(sha: Text -> Text, s: Ledger, req: Request)
    requires Quiet(s) && req.content != [] && LookUpPhase(sha, s, req) == LookedUp && Expects(s, req)
    ensures var n, at := |s.txns|, LastSeq(s, req.tenant, req.stream) + 1;
      Step(sha, Step(sha, Step(sha, s, Begin(req)), LookUp(n)), Allocate(n)) == WithPhase(s, req, Allocated(at))
  {
    assert Step(sha, s, Begin(req)) == WithPhase(s, req, Begun);
    LookedUpPhase(sha, s, req);
    AllocatedPhase(sha, s, req);
  }

  lemma ReachesInsert(sha: Text -> Text, s: Ledger, req: Request)
    requires Quiet(s) && req.content != [] && LookUpPhase(sha, s, req) == LookedUp && Expects(s, req)
    ensures var n, at := |s.txns|, LastSeq(s, req.tenant, req.stream) + 1;
      Call(sha, s, req) == InsertAndCommit(sha, WithPhase(s, req, Allocated(at)), n)
  {
    AfterAllocation(sha, s, req);
  }

  /** One call, for every request: it ends, refused exactly where `Refusal` says and then with
      the tables as they were; answered from the event that holds its key, if that event holds
      its content; and otherwise it adds exactly one row, one outbox row and one number. */
  lemma CallExact(sha: Text -> Text, s: Ledger, req: Request)
    requires Inv(sha, s) && Quiet(s)
    ensures Outcome(sha, s, Call(sha, s, req), req) && Quiet(Call(sha, s, req))
  {
    if req.content == [] {
      Over(sha, s, req, Failed(InvalidContent));
      EndedEarly(sha, s, req, Failed(InvalidContent));
    } else {
      AfterLookUp(sha, s, req);
      if LookUpPhase(sha, s, req) != LookedUp {
        StopsAtLookUp(sha, s, req);
        EndedEarly(sha, s, req, LookUpPhase(sha, s, req));
      } else if !Expects(s, req) {
        StopsAtAllocation(sha, s, req);
        EndedEarly(sha, s, req, Failed(SequenceConflict));
      } else {
        ReachesInsert(sha, s, req);
        WriteAndCommit(sha, s, req);
      }
    }
    QuietAfter(s, Call(sha, s, req));
  }

  lemma QuietAfter(s: Ledger, s': Ledger)
    requires Quiet(s) && |s'.txns| == |s.txns| + 1 && s'.txns[..|s.txns|] == s.txns && Idle(s'.txns[|s.txns|])
    ensures Quiet(s')
  {
    forall i | 0 <= i < |s'.txns| ensures Idle(s'.txns[i]) {
      assert i < |s.txns| ==> s'.txns[i] == s'.txns[..|s.txns|][i];
    }
  }

  /** A call is a run of five actions, so what holds in every reachable state holds after it. */
  lemma CallKeeps(sha: Text -> Text, s: Ledger, req: Request)
    requires Inv(sha, s)
    ensures Inv(sha, Call(sha, s, req))
  {
    var n := |s.txns|;
    var s1 := Step(sha, s, Begin(req));
    StepKeeps(sha, s, Begin(req));
    var s2 := Step(sha, s1, LookUp(n));
    StepKeeps(sha, s1, LookUp(n));
    var s3 := Step(sha, s2, Allocate(n));
    StepKeeps(sha, s2, Allocate(n));
    StepKeeps(sha, s3, InsertRow(n));
    StepKeeps(sha, Step(sha, s3, InsertRow(n)), Commit(n));
  }

  /** A retry is answered: calling again with a key, whatever happened to `expected_seq` since,
      changes no table and returns the event, number and hashes of the first answer. */
  lemma RetryAnswered(sha: Text -> Text, s: Ledger, req: Request)
    requires Inv(sha, s) && Quiet(s) && Keyed(req)
    requires Call(sha, s, req).txns[|s.txns|].phase.Done?
    ensures var once := Call(sha, s, req);
      var twice := Call(sha, once, req);
      var first, again := once.txns[|s.txns|].phase.receipt, twice.txns[|once.txns|].phase;
      && SameTables(once, twice)
      && again == Done(first.(deduplicated := true, extractionQueued := true))
  {
    CallExact(sha, s, req);
    CallKeeps(sha, s, req);
    var once := Call(sha, s, req);
    var first := once.txns[|s.txns|].phase.receipt;
    var e := AnsweredEvent(sha, s, req);
    assert Used(once, req) && UsedFor(sha, once, req);
    CallExact(sha, once, req);
    var again := Call(sha, once, req).txns[|once.txns|].phase.receipt;
    var f :| f in once.events && Clashes(f, req.tenant, req.key) && f.contentHash == ContentHash(sha, req.content)
      && Describes(again, f) && again.deduplicated && again.extractionQueued;
    OneKeyOneEvent(once.events, req.tenant, req.key, e);
    OneKeyOneEvent(once.events, req.tenant, req.key, f);
  }

  /** A key that an event holds answers exactly the calls that carry that event's content. */
  lemma KeyTaken(sha: Text -> Text, s: Ledger, req: Request, e: Event)
    requires Inv(sha, s) && Quiet(s) && Keyed(req) && e in s.events && Clashes(e, req.tenant, req.key)
    ensures Call(sha, s, req).txns[|s.txns|].phase.Done? <==>
      req.content != [] && e.contentHash == ContentHash(sha, req.content)
  {
    CallExact(sha, s, req);
    assert Used(s, req);
    forall f | f in s.events && Clashes(f, req.tenant, req.key) ensures f == e {
      OneKeyOneEvent(s.events, req.tenant, req.key, e);
      OneKeyOneEvent(s.events, req.tenant, req.key, f);
    }
    assert UsedFor(sha, s, req) <==> e.contentHash == ContentHash(sha, req.content);
  }

  /** Which other calls with the key are answered: exactly those that carry the same bytes. */
  lemma SameBytesAnswered(sha: Text -> Text, s: Ledger, req: Request, other: Request)
    requires Injective(sha) && Inv(sha, s) && Quiet(s) && Keyed(req)
    requires Call(sha, s, req).txns[|s.txns|].phase.Done?
    requires other.tenant == req.tenant && other.key == req.key
    ensures var once := Call(sha, s, req);
      Call(sha, once, other).txns[|once.txns|].phase.Done? <==> Repaired(other.content) == Repaired(req.content)
  {
    var e := AnsweredEvent(sha, s, req);
    var once := Call(sha, s, req);
    CallKeeps(sha, s, req);
    CallExact(sha, s, req);
    KeyTaken(sha, once, other, e);
  }

  lemma AnsweredEvent(sha: Text -> Text, s: Ledger, req: Request) returns (e: Event)
    requires Inv(sha, s) && Quiet(s) && Keyed(req)
    requires Call(sha, s, req).txns[|s.txns|].phase.Done?
    ensures req.content != []
    ensures var once := Call(sha, s, req);
      var r := once.txns[|s.txns|].phase.receipt;
      && e in once.events && Clashes(e, req.tenant, req.key) && e.contentHash == ContentHash(sha, req.content)
      && Describes(r, e)
  {
    CallExact(sha, s, req);
    var once := Call(sha, s, req);
    if Used(s, req) {
      var r := once.txns[|s.txns|].phase.receipt;
      e :| e in s.events && Clashes(e, req.tenant, req.key) && e.contentHash == ContentHash(sha, req.content) &&
        Describes(r, e);
    } else {
      e := once.events[|s.events|];
    }
  }
}
