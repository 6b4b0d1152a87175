/**
 What holds in every state that any interleaving of append transactions reaches.
 */
module AppendSafety {
  import opened Utf16
  import opened JsonText
  import opened Chain
  import opened ChainCheck
  import opened Append

  // ----- the invariant

  ghost predicate KeysUnique(events: seq<Event>) {
    forall i, j :: 0 <= i < j < |events| && events[i].key.Some? ==>
      !(events[j].tenant == events[i].tenant && events[j].key == events[i].key)
  }

  ghost predicate StreamsAscend(events: seq<Event>) {
    forall i, j :: 0 <= i < j < |events| && InStream(events[j], events[i].tenant, events[i].stream) ==>
      events[i].seqNo < events[j].seqNo
  }

  ghost predicate SeqsBounded(s: Ledger) {
    forall e :: e in s.events ==> 1 <= e.seqNo <= LastSeq(s, e.tenant, e.stream)
  }

  /** One outbox row per event, in commit order; ids never repeat. */
  ghost predicate OutboxMatches(s: Ledger) {
    && |s.outbox| == |s.events|
    && (forall i :: 0 <= i < |s.events| ==> s.outbox[i] == s.events[i].id < s.nextId)
    && (forall i, j :: 0 <= i < j < |s.events| ==> s.events[i].id != s.events[j].id)
  }

  function PrevHashIn(events: seq<Event>, e: Event): Option<Text> {
    match FindSeq(events, e.tenant, e.stream, e.seqNo - 1)
    case None => None
    case Some(p) => Some(p.contentHash)
  }

  ghost predicate LinkedIn(sha: Text -> Text, events: seq<Event>, e: Event) {
    e.chained && LinkHolds(sha, e) && e.prevHash == PrevHashIn(events, e)
  }

  /** The receipt names this row: its id, its number and its hashes. */
  ghost predicate Describes(r: Receipt, e: Event) {
    r.event == e.id && r.seqNo == e.seqNo && r.contentHash == e.contentHash && r.prevHash == e.prevHash
  }

  /** The row in `events` that answers a request, and the receipt that names it. */
  ghost predicate Answers(sha: Text -> Text, e: Event, req: Request, r: Receipt) {
    && Describes(r, e)
    && e.tenant == req.tenant && e.contentHash == ContentHash(sha, req.content)
    && (Keyed(req) || !r.deduplicated ==> e.key == req.key)
    && (!r.deduplicated ==> e.stream == req.stream && r.extractionQueued)
  }

  ghost predicate ReceiptOk(sha: Text -> Text, events: seq<Event>, req: Request, r: Receipt) {
    exists e :: e in events && Answers(sha, e, req, r)
  }

  ghost predicate TxnOk(sha: Text -> Text, s: Ledger, t: Txn) {
    match t.phase
    case Allocated(at) => at == LastSeq(s, t.req.tenant, t.req.stream) + 1
    case Written(row) =>
      && t.req.occurredAt.Some?
      && row == NewRow(sha, s.events, t.req, LastSeq(s, t.req.tenant, t.req.stream) + 1, row.id)
      && row.id < s.nextId
      && forall e :: e in s.events ==> !Clashes(e, row.tenant, row.key) && e.id != row.id
    case LostRace(at, winner) =>
      && at == LastSeq(s, t.req.tenant, t.req.stream) + 1
      && winner.deduplicated && !winner.extractionQueued
      && ReceiptOk(sha, s.events, t.req, winner)
    case Done(r) => ReceiptOk(sha, s.events, t.req, r)
    case _ => true
  }

  /** Two transactions never hold one stream, and never have one key or one id inserted. */
  ghost predicate Apart(t: Txn, u: Txn) {
    && !(Holds(t, t.req.tenant, t.req.stream) && Holds(u, t.req.tenant, t.req.stream))
    && (t.phase.Written? && u.phase.Written? ==>
         t.phase.row.id != u.phase.row.id && !Clashes(u.phase.row, t.phase.row.tenant, t.phase.row.key))
  }

  ghost predicate TablesOk(sha: Text -> Text, s: Ledger) {
    && KeysUnique(s.events) && StreamsAscend(s.events) && SeqsBounded(s) && OutboxMatches(s)
    && (forall e :: e in s.events ==> LinkedIn(sha, s.events, e))
  }

  ghost predicate TxnsOk(sha: Text -> Text, s: Ledger, txns: seq<Txn>) {
    && (forall i :: 0 <= i < |txns| ==> TxnOk(sha, s, txns[i]))
    && (forall i, j :: 0 <= i < j < |txns| ==> Apart(txns[i], txns[j]))
  }

  ghost predicate Inv(sha: Text -> Text, s: Ledger) {
    TablesOk(sha, s) && TxnsOk(sha, s, s.txns)
  }

  /** The tables and the readiness of a transaction do not depend on the transaction list. */
  lemma TxnListIrrelevant(sha: Text -> Text, s: Ledger, txns: seq<Txn>)
    requires TablesOk(sha, s) && TxnsOk(sha, s, txns)
    ensures Inv(sha, s.(txns := txns))
  {
    var s' := s.(txns := txns);
    forall j | 0 <= j < |txns| ensures TxnOk(sha, s', txns[j]) {
      assert TxnOk(sha, s, txns[j]);
    }
  }

  // ----- steps that change one transaction's phase

  lemma SetPhaseKeeps(sha: Text -> Text, s: Ledger, i: nat, phase: Phase)
    requires Inv(sha, s) && i < |s.txns|
    requires TxnOk(sha, s, s.txns[i].(phase := phase))
    requires forall j :: 0 <= j < |s.txns| && j != i ==>
      Apart(s.txns[i].(phase := phase), s.txns[j]) && Apart(s.txns[j], s.txns[i].(phase := phase))
    ensures Inv(sha, SetPhase(s, i, phase))
  {
    TxnListIrrelevant(sha, s, SetPhase(s, i, phase).txns);
  }

  /** A phase that neither holds the stream nor has a row inserted is apart from all others. */
  lemma QuietApart(t: Txn, u: Txn)
    requires !t.phase.Allocated? && !t.phase.Written? && !t.phase.LostRace?
    ensures Apart(t, u) && Apart(u, t)
  {
  }

  lemma LookUpKeeps(sha: Text -> Text, s: Ledger, i: nat)
    requires Inv(sha, s) && i < |s.txns| && s.txns[i].phase.Begun?
    ensures Inv(sha, Step(sha, s, LookUp(i)))
  {
    var req := s.txns[i].req;
    var phase := LookUpPhase(sha, s, req);
    if phase.Done? {
      var e := FindKey(s.events, req.tenant, req.key).value;
      assert Answers(sha, e, req, phase.receipt);
    }
    SetPhaseKeeps(sha, s, i, phase);
  }

  lemma AllocateKeeps(sha: Text -> Text, s: Ledger, i: nat)
    requires Inv(sha, s) && i < |s.txns| && s.txns[i].phase.LookedUp?
    requires !Locked(s, s.txns[i].req.tenant, s.txns[i].req.stream)
    ensures Inv(sha, Step(sha, s, Allocate(i)))
  {
    SetPhaseKeeps(sha, s, i, AllocatePhase(s, s.txns[i].req));
  }

  lemma InsertedOk(sha: Text -> Text, s: Ledger, t: Txn)
    requires KeysUnique(s.events) && OutboxMatches(s) && t.phase.Allocated? && TxnOk(sha, s, t)
    ensures TxnOk(sha, s.(nextId := s.nextId + 1), t.(phase := InsertPhase(sha, s, t.req, t.phase.at)))
  {
    var phase := InsertPhase(sha, s, t.req, t.phase.at);
    if phase.LostRace? {
      var e := FindKey(s.events, t.req.tenant, t.req.key).value;
      assert Answers(sha, e, t.req, phase.winner);
    } else if phase.Written? {
      forall e | e in s.events ensures e.id != phase.row.id {
        var k :| 0 <= k < |s.events| && s.events[k] == e;
      }
    }
  }

  /** The inserted row is apart from every other transaction: the stream was already held,
      the key is not pending, and the id is new. */
  lemma InsertedApart(sha: Text -> Text, s: Ledger, t: Txn, u: Txn)
    requires t.phase.Allocated? && Apart(t, u) && TxnOk(sha, s, u)
    requires u.phase.Written? ==> !Clashes(u.phase.row, t.req.tenant, t.req.key)
    ensures var t' := t.(phase := InsertPhase(sha, s, t.req, t.phase.at)); Apart(t', u) && Apart(u, t')
  {
    ApartSymmetric(t.(phase := InsertPhase(sha, s, t.req, t.phase.at)), u);
  }

  lemma InsertKeeps(sha: Text -> Text, s: Ledger, i: nat)
    requires Inv(sha, s) && i < |s.txns| && s.txns[i].phase.Allocated?
    requires !KeyPending(s, s.txns[i].req.tenant, s.txns[i].req.key)
    ensures Inv(sha, Step(sha, s, InsertRow(i)))
  {
    var t := s.txns[i];
    var phase := InsertPhase(sha, s, t.req, t.phase.at);
    var s1 := s.(nextId := s.nextId + 1);
    assert TxnOk(sha, s, t);
    NextIdKeeps(sha, s);
    OthersAreApart(sha, s, i);
    InsertedOk(sha, s, t);
    forall j | 0 <= j < |s.txns| && j != i
      ensures Apart(t.(phase := phase), s.txns[j]) && Apart(s.txns[j], t.(phase := phase))
    {
      InsertedApart(sha, s, t, s.txns[j]);
    }
    SetPhaseKeeps(sha, s1, i, phase);
    assert Step(sha, s, InsertRow(i)) == SetPhase(s1, i, phase);
  }

  lemma NextIdKeeps(sha: Text -> Text, s: Ledger)
    requires Inv(sha, s)
    ensures Inv(sha, s.(nextId := s.nextId + 1))
  {
    var s1 := s.(nextId := s.nextId + 1);
    forall j | 0 <= j < |s.txns| ensures TxnOk(sha, s1, s1.txns[j]) {
      assert TxnOk(sha, s, s.txns[j]);
    }
  }

  // ----- commit

  lemma {:induction false} FindSeqAppend(events: seq<Event>, x: Event, tenant: Text, stream: Text, at: int)
    ensures FindSeq(events + [x], tenant, stream, at)
         == if FindSeq(events, tenant, stream, at).Some? then FindSeq(events, tenant, stream, at)
            else if InStream(x, tenant, stream) && x.seqNo == at then Some(x) else None
  {
    if events == [] {
      assert events + [x] == [x];
    } else {
      assert (events + [x])[0] == events[0] && (events + [x])[1..] == events[1..] + [x];
      FindSeqAppend(events[1..], x, tenant, stream, at);
    }
  }

  /** The committing transaction as its own record: others are apart from it. */
  ghost predicate OthersApart(s: Ledger, i: nat)
    requires i < |s.txns|
  {
    forall j :: 0 <= j < |s.txns| && j != i ==> Apart(s.txns[i], s.txns[j]) && Apart(s.txns[j], s.txns[i])
  }

  lemma ApartSymmetric(t: Txn, u: Txn)
    requires Apart(t, u)
    ensures Apart(u, t)
  {
  }

  lemma OthersAreApart(sha: Text -> Text, s: Ledger, i: nat)
    requires Inv(sha, s) && i < |s.txns|
    ensures OthersApart(s, i)
  {
    forall j | 0 <= j < |s.txns| && j != i ensures Apart(s.txns[i], s.txns[j]) && Apart(s.txns[j], s.txns[i]) {
      if i < j {
        ApartSymmetric(s.txns[i], s.txns[j]);
      } else {
        ApartSymmetric(s.txns[j], s.txns[i]);
      }
    }
  }

  lemma NewRowStays(sha: Text -> Text, events: seq<Event>, x: Event, req: Request, at: nat, id: nat)
    requires req.occurredAt.Some? && !InStream(x, req.tenant, req.stream)
    ensures NewRow(sha, events + [x], req, at, id) == NewRow(sha, events, req, at, id)
  {
    FindSeqAppend(events, x, req.tenant, req.stream, at - 1);
  }

  /** An inserted row stays ready to commit when another stream's transaction commits. */
  lemma OtherWrittenKeeps(sha: Text -> Text, s: Ledger, s': Ledger, at: nat, t: Txn, u: Txn)
    requires u.phase.Written? && TxnOk(sha, s, u) && Apart(t, u)
    requires Holds(t, t.req.tenant, t.req.stream)
    requires
      || s'.events == s.events
      || (t.phase.Written? && s'.events == s.events + [t.phase.row]
          && InStream(t.phase.row, t.req.tenant, t.req.stream))
    requires s'.streams == s.streams[(t.req.tenant, t.req.stream) := at] && s'.nextId == s.nextId
    ensures TxnOk(sha, s', u)
  {
    var mine := u.phase.row;
    assert (u.req.tenant, u.req.stream) != (t.req.tenant, t.req.stream);
    if s'.events != s.events {
      NewRowStays(sha, s.events, t.phase.row, u.req, LastSeq(s, u.req.tenant, u.req.stream) + 1, mine.id);
      assert !Clashes(t.phase.row, mine.tenant, mine.key);
    }
  }

  lemma OtherTxnKeeps(sha: Text -> Text, s: Ledger, s': Ledger, at: nat, t: Txn, u: Txn)
    requires TxnOk(sha, s, u) && Apart(t, u)
    requires Holds(t, t.req.tenant, t.req.stream)
    requires
      || s'.events == s.events
      || (t.phase.Written? && s'.events == s.events + [t.phase.row]
          && InStream(t.phase.row, t.req.tenant, t.req.stream))
    requires s'.streams == s.streams[(t.req.tenant, t.req.stream) := at] && s'.nextId == s.nextId
    ensures TxnOk(sha, s', u)
  {
    match u.phase
    case Written(mine) => OtherWrittenKeeps(sha, s, s', at, t, u);
    case Done(r) => ReceiptStays(sha, s.events, s'.events, u.req, r);
    case LostRace(_, winner) => ReceiptStays(sha, s.events, s'.events, u.req, winner);
    case _ =>
  }

  lemma ReceiptStays(sha: Text -> Text, events: seq<Event>, events': seq<Event>, req: Request, r: Receipt)
    requires ReceiptOk(sha, events, req, r) && events <= events'
    ensures ReceiptOk(sha, events', req, r)
  {
    var e :| e in events && Answers(sha, e, req, r);
    assert e in events';
  }

  /** A row about to be committed, against the committed table. */
  ghost predicate Appendable(sha: Text -> Text, s: Ledger, row: Event) {
    && row.seqNo == LastSeq(s, row.tenant, row.stream) + 1 && row.id < s.nextId
    && row.chained && LinkHolds(sha, row) && row.prevHash == PrevHashIn(s.events, row)
    && forall e :: e in s.events ==> !Clashes(e, row.tenant, row.key) && e.id != row.id
  }

  lemma WrittenAppendable(sha: Text -> Text, s: Ledger, t: Txn)
    requires t.phase.Written? && TxnOk(sha, s, t)
    ensures Appendable(sha, s, t.phase.row)
  {
    var row := t.phase.row;
    var bare := row.(linkHash := None);
    assert LinkRecord(bare) == LinkRecord(row);
  }

  lemma AppendOrdered(sha: Text -> Text, s: Ledger, row: Event)
    requires KeysUnique(s.events) && StreamsAscend(s.events) && SeqsBounded(s) && Appendable(sha, s, row)
    ensures KeysUnique(s.events + [row]) && StreamsAscend(s.events + [row])
  {
    forall k | 0 <= k < |s.events|
      ensures !Clashes(row, s.events[k].tenant, s.events[k].key)
      ensures InStream(row, s.events[k].tenant, s.events[k].stream) ==> s.events[k].seqNo < row.seqNo
    {
      assert s.events[k] in s.events;
    }
  }

  lemma LinkedStays(sha: Text -> Text, events: seq<Event>, row: Event, e: Event)
    requires e.chained && LinkHolds(sha, e) && e.prevHash == PrevHashIn(events, e)
    requires !(InStream(row, e.tenant, e.stream) && row.seqNo == e.seqNo - 1)
    ensures LinkedIn(sha, events + [row], e)
  {
    FindSeqAppend(events, row, e.tenant, e.stream, e.seqNo - 1);
  }

  lemma AppendLinked(sha: Text -> Text, s: Ledger, row: Event, e: Event)
    requires SeqsBounded(s) && Appendable(sha, s, row)
    requires e == row || (e in s.events && LinkedIn(sha, s.events, e))
    ensures LinkedIn(sha, s.events + [row], e)
  {
    LinkedStays(sha, s.events, row, e);
  }

  lemma AppendBounded(sha: Text -> Text, s: Ledger, s': Ledger, row: Event)
    requires SeqsBounded(s) && OutboxMatches(s) && Appendable(sha, s, row)
    requires s'.events == s.events + [row] && s'.outbox == s.outbox + [row.id] && s'.nextId == s.nextId
    requires s'.streams == s.streams[(row.tenant, row.stream) := row.seqNo]
    ensures SeqsBounded(s') && OutboxMatches(s')
  {
    forall k | 0 <= k < |s.events| ensures s.events[k].id != row.id {
      assert s.events[k] in s.events;
    }
    forall e | e in s'.events ensures 1 <= e.seqNo <= LastSeq(s', e.tenant, e.stream) {
      assert e in s.events || e == row;
    }
  }

  lemma CommitEvents(sha: Text -> Text, s: Ledger, i: nat, row: Event)
    requires Inv(sha, s) && i < |s.txns| && s.txns[i].phase == Written(row)
    ensures var s' := CommitTxn(s, i);
      && KeysUnique(s'.events) && StreamsAscend(s'.events) && SeqsBounded(s') && OutboxMatches(s')
      && forall e :: e in s'.events ==> LinkedIn(sha, s'.events, e)
  {
    var s' := CommitTxn(s, i);
    assert Appendable(sha, s, row) by {
      assert TxnOk(sha, s, s.txns[i]);
      WrittenAppendable(sha, s, s.txns[i]);
    }
    AppendOrdered(sha, s, row);
    AppendBounded(sha, s, s', row);
    forall e | e in s'.events ensures LinkedIn(sha, s'.events, e) {
      AppendLinked(sha, s, row, e);
    }
  }

  lemma CommittedOk(sha: Text -> Text, s: Ledger, i: nat)
    requires i < |s.txns| && TxnOk(sha, s, s.txns[i])
    requires s.txns[i].phase.Written? || s.txns[i].phase.LostRace?
    ensures var s' := CommitTxn(s, i); TxnOk(sha, s', s'.txns[i])
  {
    var t, s' := s.txns[i], CommitTxn(s, i);
    if t.phase.Written? {
      assert t.phase.row in s'.events && Answers(sha, t.phase.row, t.req, s'.txns[i].phase.receipt);
    }
  }

  lemma CommitTxnsOk(sha: Text -> Text, s: Ledger, i: nat)
    requires Inv(sha, s) && i < |s.txns| && (s.txns[i].phase.Written? || s.txns[i].phase.LostRace?)
    ensures var s' := CommitTxn(s, i); forall j :: 0 <= j < |s'.txns| ==> TxnOk(sha, s', s'.txns[j])
  {
    var t, s' := s.txns[i], CommitTxn(s, i);
    OthersAreApart(sha, s, i);
    assert TxnOk(sha, s, t);
    CommittedOk(sha, s, i);
    var at := if t.phase.Written? then t.phase.row.seqNo else t.phase.at;
    forall j | 0 <= j < |s'.txns| ensures TxnOk(sha, s', s'.txns[j]) {
      if j != i {
        assert s'.txns[j] == s.txns[j] && TxnOk(sha, s, s.txns[j]);
        OtherTxnKeeps(sha, s, s', at, t, s.txns[j]);
      }
    }
  }

  lemma CommitKeeps(sha: Text -> Text, s: Ledger, i: nat)
    requires Inv(sha, s) && i < |s.txns| && (s.txns[i].phase.Written? || s.txns[i].phase.LostRace?)
    ensures Inv(sha, CommitTxn(s, i))
  {
    if s.txns[i].phase.Written? {
      CommitEvents(sha, s, i, s.txns[i].phase.row);
    }
    CommitTxnsOk(sha, s, i);
    OthersAreApart(sha, s, i);
  }

  lemma BeginKeeps(sha: Text -> Text, s: Ledger, req: Request)
    requires Inv(sha, s)
    ensures Inv(sha, Step(sha, s, Begin(req)))
  {
    TxnListIrrelevant(sha, s, Step(sha, s, Begin(req)).txns);
  }

  lemma AbortKeeps(sha: Text -> Text, s: Ledger, i: nat)
    requires Inv(sha, s) && i < |s.txns|
    ensures Inv(sha, SetPhase(s, i, Failed(Aborted)))
  {
    forall j | 0 <= j < |s.txns| && j != i
      ensures Apart(s.txns[i].(phase := Failed(Aborted)), s.txns[j])
      ensures Apart(s.txns[j], s.txns[i].(phase := Failed(Aborted)))
    {
      QuietApart(s.txns[i].(phase := Failed(Aborted)), s.txns[j]);
    }
    SetPhaseKeeps(sha, s, i, Failed(Aborted));
  }

  lemma StepKeeps(sha: Text -> Text, s: Ledger, a: Action)
    requires Inv(sha, s)
    ensures Inv(sha, Step(sha, s, a))
  {
    if Step(sha, s, a) != s {
      match a
      case Begin(req) => BeginKeeps(sha, s, req);
      case LookUp(i) => LookUpKeeps(sha, s, i);
      case Allocate(i) => AllocateKeeps(sha, s, i);
      case InsertRow(i) => InsertKeeps(sha, s, i);
      case Commit(i) => CommitKeeps(sha, s, i);
      case Abort(i) => AbortKeeps(sha, s, i);
    }
  }

  lemma {:induction false} RunKeeps(sha: Text -> Text, actions: seq<Action>)
    ensures Inv(sha, Run(sha, actions))
    decreases |actions|
  {
    if actions != [] {
      RunKeeps(sha, actions[..|actions| - 1]);
      StepKeeps(sha, Run(sha, actions[..|actions| - 1]), actions[|actions| - 1]);
    }
  }
}
