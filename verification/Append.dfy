/**
 `Ledger.append` as the steps of concurrent transactions, at PostgreSQL's default isolation
 (read committed): a statement sees what other transactions have committed; the stream's row
 stays locked from the sequence allocation to the end of the transaction; an insert whose
 (tenant, idempotency key) another open transaction has inserted waits for it. A step that
 would have to wait leaves the state as it is.
 */
module Append {
  import opened Utf16
  import opened JsonText
  import opened Chain

  datatype Request = Request(
    tenant: Text, stream: Text, actor: Text,
    occurredAt: Option<Text>,     // normalized instant; None where it does not parse
    content: Text, key: Option<Text>, expectedSeq: Option<int>)

  datatype Failure = InvalidContent | IdempotencyConflict | SequenceConflict | InvalidInstant | Aborted

  datatype Receipt = Receipt(event: nat, seqNo: nat, contentHash: Text, prevHash: Option<Text>,
                             deduplicated: bool, extractionQueued: bool)

  /** How far a transaction has come. From `Allocated` on it holds its stream's lock. */
  datatype Phase =
    | Begun
    | LookedUp
    | Allocated(at: nat)
    | Written(row: Event)
    | LostRace(at: nat, winner: Receipt)
    | Done(receipt: Receipt)
    | Failed(failure: Failure)

  datatype Txn = Txn(req: Request, phase: Phase)

  /** Committed tables, and the transactions with what they have not committed. `outbox`
      holds the event ids of its `extract.event` rows. */
  datatype Ledger = Ledger(events: seq<Event>, streams: map<(Text, Text), nat>, outbox: seq<nat>,
                           txns: seq<Txn>, nextId: nat)

  const EMPTY := Ledger([], map[], [], [], 0)

  datatype Action =
    | Begin(req: Request)
    | LookUp(txn: nat)
    | Allocate(txn: nat)
    | InsertRow(txn: nat)
    | Commit(txn: nat)
    | Abort(txn: nat)

  /** An idempotency key that `if (request.idempotency_key)` sees. */
  predicate Keyed(req: Request) {
    req.key.Some? && req.key.value != []
  }

  predicate Clashes(e: Event, tenant: Text, key: Option<Text>) {
    e.tenant == tenant && key.Some? && e.key == key
  }

  /** `findByIdempotencyKey` */
  function FindKey(events: seq<Event>, tenant: Text, key: Option<Text>): (r: Option<Event>)
    ensures r.Some? ==> r.value in events && Clashes(r.value, tenant, key)
    ensures r.None? ==> forall e :: e in events ==> !Clashes(e, tenant, key)
  {
    if events == [] then None
    else if Clashes(events[0], tenant, key) then Some(events[0])
    else FindKey(events[1..], tenant, key)
  }

  function FindSeq(events: seq<Event>, tenant: Text, stream: Text, at: int): (r: Option<Event>)
    ensures r.Some? ==> r.value in events && InStream(r.value, tenant, stream) && r.value.seqNo == at
    ensures r.None? ==> forall e :: e in events && InStream(e, tenant, stream) ==> e.seqNo != at
  {
    if events == [] then None
    else if InStream(events[0], tenant, stream) && events[0].seqNo == at then Some(events[0])
    else FindSeq(events[1..], tenant, stream, at)
  }

  predicate InStream(e: Event, tenant: Text, stream: Text) {
    e.tenant == tenant && e.stream == stream
  }

  function LastSeq(s: Ledger, tenant: Text, stream: Text): nat {
    if (tenant, stream) in s.streams then s.streams[(tenant, stream)] else 0
  }

  predicate Holds(t: Txn, tenant: Text, stream: Text) {
    && t.req.tenant == tenant && t.req.stream == stream
    && (t.phase.Allocated? || t.phase.Written? || t.phase.LostRace?)
  }

  predicate Locked(s: Ledger, tenant: Text, stream: Text) {
    exists i :: 0 <= i < |s.txns| && Holds(s.txns[i], tenant, stream)
  }

  /** An open transaction has inserted this key. */
  predicate KeyPending(s: Ledger, tenant: Text, key: Option<Text>) {
    exists i :: 0 <= i < |s.txns| && s.txns[i].phase.Written? && Clashes(s.txns[i].phase.row, tenant, key)
  }

  function ReceiptOf(e: Event, deduplicated: bool, extractionQueued: bool): Receipt {
    Receipt(e.id, e.seqNo, e.contentHash, e.prevHash, deduplicated, extractionQueued)
  }

  /** The hash of the content's UTF-8 bytes, in which lone surrogates read alike. */
  function ContentHash(sha: Text -> Text, content: Text): Text {
    sha(Repaired(content))
  }

  function NewRow(sha: Text -> Text, events: seq<Event>, req: Request, at: nat, id: nat): Event
    requires req.occurredAt.Some?
  {
    var prev := FindSeq(events, req.tenant, req.stream, at - 1);
    var prevHash := match prev case None => None case Some(p) => Some(p.contentHash);
    var row := Event(id, req.tenant, req.stream, at, req.actor, req.occurredAt.value,
                     ContentHash(sha, req.content), prevHash, None, true, req.key);
    row.(linkHash := Some(Link(sha, row)))
  }

  // ----- the steps, each as the next phase of its transaction

  function LookUpPhase(sha: Text -> Text, s: Ledger, req: Request): Phase {
    if !Keyed(req) then LookedUp
    else
      match FindKey(s.events, req.tenant, req.key)
      case None => LookedUp
      case Some(e) =>
        if e.contentHash != ContentHash(sha, req.content) then Failed(IdempotencyConflict)
        else Done(ReceiptOf(e, true, true))
  }

  function AllocatePhase(s: Ledger, req: Request): Phase {
    var at := LastSeq(s, req.tenant, req.stream) + 1;
    if req.expectedSeq.Some? && req.expectedSeq.value != at then Failed(SequenceConflict) else Allocated(at)
  }

  function InsertPhase(sha: Text -> Text, s: Ledger, req: Request, at: nat): Phase {
    if req.occurredAt.None? then Failed(InvalidInstant)
    else
      match FindKey(s.events, req.tenant, req.key)
      case None => Written(NewRow(sha, s.events, req, at, s.nextId))
      case Some(winner) =>
        // ON CONFLICT DO NOTHING returned no row
        if !Keyed(req) || winner.contentHash != ContentHash(sha, req.content) then Failed(IdempotencyConflict)
        else LostRace(at, ReceiptOf(winner, true, false))
  }

  function SetPhase(s: Ledger, i: nat, phase: Phase): Ledger
    requires i < |s.txns|
  {
    s.(txns := s.txns[i := s.txns[i].(phase := phase)])
  }

  function Step(sha: Text -> Text, s: Ledger, a: Action): Ledger {
    match a
    case Begin(req) =>
      s.(txns := s.txns + [Txn(req, if req.content == [] then Failed(InvalidContent) else Begun)])
    case LookUp(i) =>
      if i < |s.txns| && s.txns[i].phase.Begun? then SetPhase(s, i, LookUpPhase(sha, s, s.txns[i].req)) else s
    case Allocate(i) =>
      if i < |s.txns| && s.txns[i].phase.LookedUp? && !Locked(s, s.txns[i].req.tenant, s.txns[i].req.stream)
      then SetPhase(s, i, AllocatePhase(s, s.txns[i].req)) else s
    case InsertRow(i) =>
      if i < |s.txns| && s.txns[i].phase.Allocated? && !KeyPending(s, s.txns[i].req.tenant, s.txns[i].req.key)
      then SetPhase(s, i, InsertPhase(sha, s, s.txns[i].req, s.txns[i].phase.at)).(nextId := s.nextId + 1) else s
    case Commit(i) =>
      if i < |s.txns| then CommitTxn(s, i) else s
    case Abort(i) =>
      if i < |s.txns| && !s.txns[i].phase.Done? && !s.txns[i].phase.Failed?
      then SetPhase(s, i, Failed(Aborted)) else s
  }

  /** COMMIT publishes the stream's new `last_seq` whether or not a row was written; a written
      row goes out together with its outbox row. */
  function CommitTxn(s: Ledger, i: nat): Ledger
    requires i < |s.txns|
  {
    var req, phase := s.txns[i].req, s.txns[i].phase;
    match phase
    case Written(row) =>
      SetPhase(s, i, Done(ReceiptOf(row, false, true))).(
        events := s.events + [row], outbox := s.outbox + [row.id],
        streams := s.streams[(req.tenant, req.stream) := row.seqNo])
    case LostRace(at, winner) =>
      SetPhase(s, i, Done(winner)).(streams := s.streams[(req.tenant, req.stream) := at])
    case _ => s
  }

  function Run(sha: Text -> Text, actions: seq<Action>): Ledger {
    if actions == [] then EMPTY
    else Step(sha, Run(sha, actions[..|actions| - 1]), actions[|actions| - 1])
  }
}
