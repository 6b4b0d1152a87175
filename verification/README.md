# VerityMem, verified

A Dafny model of the parts of VerityMem that decide what is stored, what is believed and what a
model gets to read, with proofs of what those parts promise.

- **Tokenizer** (`Utf16`, `Viterbi`, `Unigram`). The Unigram dynamic program over three arrays and
  its backtrace, as a class over mutable tables. The recurrence is measured against an independent
  definition: all ways to cut the text into vocabulary pieces and unknown characters.
- **Canonical text** (`JsonText`, `JsonForms`, `JsonRoundTrip`, `JsonUnits`, `PrettyText`, `ObjectKeys`,
  `Canonical`, `CanonicalText`, `CanonicalExact`, `CanonicalLoss`, `ProjectionRows`, `Decimals`).
  `JSON.stringify` over UTF-16 code units (RFC 8259, sections 4 to 7), a parser for it,
  `canonicalOrder`, the text of every kind of value in the order in which its members come, and what
  equality of canonical text means.
- **Ledger** (`Chain`, `LinkTexts`, `ChainCheck`, `Append`, `AppendSafety`, `AppendTheorems`, `LostRace`,
  `SerialAppend`, `Replay`).
  `append` as the steps of concurrent transactions at read committed isolation, the stream row locked
  until the end of the transaction and a unique (tenant, key); one invariant over every interleaving;
  `verifyChain`; keyset replay.
- **Commit gate** (`Scope`, `Conflict`, `ConflictLaws`, `Gate`, `GateExact`, `GateSafety`,
  `GateWitness`, `History`). A class over the claims, relations and decisions tables; every method is
  tied to a step function. `GateExact` says what one step writes, row by row; its runs carry
  the invariants. `History` reads the final table back with `as_of`.
- **Codecs** (`Namespace`, `NamespaceLaws`, `NamespaceReads`, `MemoryContext`, `MemoryContextLaws`, `MemoryRegion`).
  Scope and namespace, store keys, and the escaped region around retrieved memory.

SHA-256, Unicode NFKC, `Number()`, `trim().toLowerCase()`, what a JSON number token denotes, the
entailment backend, the instruction scan, the clock and the answer of an unordered `LIMIT` query are
parameters. Where a proof needs the hash to be free of collisions, the lemma says so.

## What the code does that its documentation does not say

Each point is a lemma below, with the exact condition where there is one.

- A member named `__proto__` is lost by `canonicalOrder` (an assignment sets the prototype), so any
  record shares its canonical text with another value (`TextDeterminesIff`); between values without
  such members nothing is lost (`ProtoFreeExact`).
- A lost idempotency race commits the stream's new `last_seq` without an event. The hole is never
  filled, and once an event stands on either side of it `verifyChain` fails for good
  (`HoleIsForever`, `HolesBreakTheChain`, `RaceThenBroken`). An empty-string key skips the lookup but is stored.
- `verifyChain` from a later sequence number expects the first row's own `prev_hash` of the second row, so
  sound ranges are normally reported broken (`LaterStart`), and a range whose first two rows both
  follow gaps passes (`ReachableRange`).
- Contents that differ only in lone surrogates have the same bytes and count as one content
  (`SameBytesAnswered`).
- The ledger's `scopeContainedBy` answers the reverse of the question in its comment
  (`LedgerComparisonIsReversed`).
- A request without purposes covers nothing, yet is not contained where its dimensions do not fit
  (`ContainmentIsInclusion`).
- Objects are called duplicates when they agree on the shared keys and have equally many keys; that
  is right exactly when the keys are the same (`DuplicatesExact`, `ObjectDuplicatesLoose`), and the
  gate closes the older object either way.
- The conflict query reads 64 rows, so a 65th open claim can hide a contradiction
  (`CrowdHidesContradiction`; `AllRowsReadIff` and `AcceptConsistentIff` give the exact conditions).
- An equal or earlier `valid_from` leaves both claims of a key open (`ReplacesIffLater`).
- `as_of` is documented as transaction time, but a claim is closed at the superseding event's time:
  it tells the history of a run exactly when every closing is as of its own step (`AsOfExact`,
  `LateEventRun`). Lifecycle writes keep the past exactly under `StatusKeepsPastIff`: expiring a
  proposed claim shows it as once believed, and revoking a believed one removes it from the past.
- A namespace value may end in white space when written and is refused when read; a dimension that
  the codec does not declare is dropped in silence (`RoundTripExact`). The store key is
  `tenant:acme|...|key=k`, not `tenant=acme|...` as the comment on `encodeStoreKey` has it.
- An added token that is not special gets no score and can strand a text: the branch marked
  unreachable is reached exactly where some piece is stranding (`SegmentedIff`, `UnscoredTokenStrands`).
- A store key's characters other than the bar are checked when it is written and not when it is read
  (`StoreKeyReaderExact`).
- `readAll` with a batch size of 0 reads nothing (`ReadAll`).

## Model

| member | source | states |
|---|---|---|
| Viterbi.BestBounds | packages/gate/src/sentencepiece.ts:237-262 | no segmentation of a prefix scores above the array's entry for it |
| Viterbi.BackPathAttains | packages/gate/src/sentencepiece.ts:272-291 | the backtraced spans tile the prefix in order and sum to the array's entry |
| Viterbi.ViterbiOptimal | packages/gate/src/sentencepiece.ts:228-262 | a position is reached exactly when some segmentation ends there, and the backtraced one is then a best one |
| Viterbi.EarliestLastStart | packages/gate/src/sentencepiece.ts:246-262 | ties: no optimal segmentation starts its last span earlier than the backtraced one (the comparison is strict) |
| Viterbi.WindowLosesNothing | packages/gate/src/sentencepiece.ts:245-247 | the window loses nothing, on any text, exactly when every piece longer than it has no score and is started by a piece it admits |
| Viterbi.SkipUnreached | packages/gate/src/sentencepiece.ts:244 | skipping an unreached start changes no entry of the recurrence |
| Viterbi.SegmentedIff | packages/gate/src/sentencepiece.ts:237-270 | every text has a segmentation exactly when no piece in the tables is stranding |
| Unigram.SentencePieceUnigram.constructor | packages/gate/src/sentencepiece.ts:87-145 | the tables built in place: last listing wins, added tokens extend vocab and pieces but neither scores nor window; with only special added tokens every id is scored, every piece fits the window, and every id names its piece |
| Unigram.SentencePieceUnigram.LoadScores | packages/gate/src/sentencepiece.ts:105-109 | each vocabulary entry's score is that of its last listing |
| Unigram.SentencePieceUnigram.LoadPieces | packages/gate/src/sentencepiece.ts:98-104 | ids, pieces and the longest piece of the listing |
| Unigram.SentencePieceUnigram.LoadAdded | packages/gate/src/sentencepiece.ts:121-129 | special tokens to their own table, others padded into pieces and vocab |
| Unigram.SentencePieceUnigram.Encode | packages/gate/src/sentencepiece.ts:222-292 | a special text is its id; otherwise the ids of an optimal segmentation of the prepared text with their pieces, or one unknown exactly when the lattice has none; terminates |
| Unigram.SentencePieceUnigram.FillLattice | packages/gate/src/sentencepiece.ts:237-270 | the forward pass leaves the recurrence's best predecessor of every position in the arrays |
| Unigram.SentencePieceUnigram.ExpandPieces | packages/gate/src/sentencepiece.ts:245-259 | the inner loop, longest end first, computes one round of the recurrence in place and tells whether any piece matched |
| Unigram.SentencePieceUnigram.Backtrace | packages/gate/src/sentencepiece.ts:272-291 | walks the arrays back to 0, never meeting an unset id on a reached end, and returns the optimal path's ids in order |
| Unigram.SentencePieceUnigram.PreparedExact | packages/gate/src/sentencepiece.ts:232-235 | the text that is cut starts with the replacement where the scheme is to prepend: the normalized text itself if it already does, otherwise with exactly one in front; without the scheme it is the normalized text |
| Unigram.ListedLast | packages/gate/src/sentencepiece.ts:98-109 | each id is the place where its piece is listed last |
| Unigram.SpecialAt | packages/gate/src/sentencepiece.ts:121-124 | a special content has the id of its last special token |
| Unigram.PlainAt | packages/gate/src/sentencepiece.ts:125-128 | a plain content gets the id of its last plain token |
| Unigram.OthersKept | packages/gate/src/sentencepiece.ts:121-129 | every other piece keeps the entry it had |
| Unigram.PiecesExact | packages/gate/src/sentencepiece.ts:121-129 | after the added tokens each id names its last plain token's content, or the listed piece, or nothing |
| Unigram.ReplacedAt | packages/gate/src/sentencepiece.ts:211 | normalizing replaces every space and nothing else, by any replacement string |
| Unigram.AlwaysSegmented | packages/gate/src/sentencepiece.ts:276-281 | the branch marked unreachable is, on every text, exactly when no vocabulary piece within the window lacks a scored piece at its start; a score for every id is enough |
| Unigram.UnscoredTokenStrands | packages/gate/src/sentencepiece.ts:121-130 | a plain added token without a score, on a scored listing, strands texts exactly when no listed piece starts it, and then the text that it is |
| Unigram.CutsAreTilings | packages/gate/src/sentencepiece.ts:232-262 | paths of the windowed lattice are exactly the ways to cut the text into vocabulary pieces and unknown characters |
| Unigram.BestSegmentation | packages/gate/src/sentencepiece.ts:214-292 | where no piece is stranding and none beyond the window matters, every text is cut and no cut with pieces of any length has a higher total; a stranding piece always costs some text |
| Unigram.PiecesSpellText | packages/gate/src/sentencepiece.ts:283-284 | each id names exactly its span: without unknown characters the pieces spell the prepared text |
| JsonRoundTrip.StringRoundTrip | packages/ledger/src/canonical.ts:19-26 | JSON string escaping is undone by parsing, for all code units including lone surrogates |
| JsonRoundTrip.ValueRoundTrip | packages/ledger/src/canonical.ts:19-26 | parsing a printed value, nested to any depth, compact or indented, gives it back and leaves what follows |
| JsonRoundTrip.RoundTrip | packages/ledger/src/canonical.ts:19-26 | JSON.parse(JSON.stringify(v)) is v |
| JsonRoundTrip.PrintInjective | packages/ledger/src/canonical.ts:19-26 | two values with one printed text are one value |
| JsonUnits.PrintWellFormed | packages/ledger/src/canonical.ts:19-26 | printed JSON holds no lone surrogate, whatever strings it prints, so its UTF-8 bytes determine it |
| JsonForms.NumberExact | packages/ledger/src/canonical.ts:19-26 | the number tokens are exactly: optional minus, whole number without leading zeros, optional fraction, optional exponent |
| PrettyText.PrettyArray | packages/langgraph-js/src/context.ts:101-121 | the two-space form of an array: one item a line, two spaces deeper, the closing bracket on its own line |
| PrettyText.PrettyObject | packages/langgraph-js/src/context.ts:101-121 | the same of an object, each line a quoted key, a colon, a space and the value |
| Canonical.CanonicalOrder | packages/ledger/src/canonical.ts:28-51 | the recursive loop that fills `out` key by key computes the specified ordered value, or throws exactly where that is undefined; what its text is, `CanonicalText` says |
| Utf16.LessExact | packages/ledger/src/canonical.ts:43 | the sort order of keys: a string is before another if at the first place where they differ it has the smaller code unit, or ends |
| ObjectKeys.IndexExact | packages/ledger/src/canonical.ts:42-47 | the keys that an object lists by number are exactly the decimal texts of 0 to 4294967294 |
| ObjectKeys.KeyBeforeExact | packages/ledger/src/canonical.ts:42-47 | where one key stands before another: indices first, ascending by number, then the others by their first differing code unit |
| CanonicalText.MembersInOrder | packages/ledger/src/canonical.ts:40-48 | the members of every ordered object stand in that order |
| CanonicalText.ScalarText | packages/ledger/src/canonical.ts:28-39 | the canonical text of every kind of scalar, with undefined and null as `null` and a date as its ISO text |
| CanonicalText.EscapesAsJson | packages/ledger/src/canonical.ts:19-26 | which code units a string writes as they are, and how it writes the others |
| CanonicalText.EscapesByUnit | packages/ledger/src/canonical.ts:19-26 | a string is written unit by unit, the halves of a surrogate pair as they are |
| CanonicalText.SequenceText | packages/ledger/src/canonical.ts:36 | an array's text: its elements' texts in their order between commas |
| CanonicalText.RecordText | packages/ledger/src/canonical.ts:40-48 | a record's text: its defined members other than `__proto__`, each a quoted key, a colon and the value's text, in enumeration order between commas |
| CanonicalText.OneOrder | packages/ledger/src/canonical.ts:40-48 | a set of keys has exactly one enumeration order, so that text is unique |
| CanonicalExact.FillDetermined | packages/ledger/src/canonical.ts:40-48 | the filled object is determined by, and determines, what lies under each key |
| CanonicalExact.OrderExact | packages/ledger/src/canonical.ts:28-51 | ordered values are equal exactly when the inputs are equal up to key order, undefined and `__proto__` members, at every depth |
| CanonicalExact.OrderProper | packages/ledger/src/canonical.ts:28-51 | the ordered value lists its properties in enumeration order, once each, at every depth |
| CanonicalExact.CanonicalExactness | packages/ledger/src/canonical.ts:19-56 | canonical texts are equal exactly when the values are equal up to key order, undefined members and members named `__proto__` |
| CanonicalExact.ThrowsExact | packages/ledger/src/canonical.ts:28-51 | canonicalizing throws exactly where a non-finite number, an invalid date, a function or a symbol is in the value, at any depth |
| CanonicalLoss.ProtoFreeExact | packages/ledger/src/canonical.ts:40-48 | between values without members named `__proto__`, texts are equal exactly when the values are, up to key order and undefined members |
| CanonicalLoss.ProtoIsTheOnlyLoss | packages/ledger/src/canonical.ts:40-48 | a value is told by its text from all values without `__proto__` members exactly when it has none itself |
| CanonicalLoss.TextDeterminesIff | packages/ledger/src/canonical.ts:40-48 | the values their text determines among all values are exactly those without a record |
| CanonicalLoss.KeyOrderIrrelevant | packages/ledger/src/canonical.ts:18-48 | the order in which keys are listed never shows in the text |
| ProjectionRows.ProjectionDigest | packages/ledger/src/blobs.ts:235-242 | the digest is the hash of each row's canonical text followed by a newline, with the row count |
| ProjectionRows.RowsInOrder | packages/ledger/src/blobs.ts:235-242 | the hashed text is the rows' texts in their order, a newline after each |
| ProjectionRows.ProjectionExact | packages/ledger/src/blobs.ts:235-242 | two row lists feed the hash the same text exactly when they have the same length and pairwise canonically equal rows |
| Chain.LinkCommits | packages/ledger/src/ledger.ts:371-387 | with an injective hash, equal links mean equal stream, seq, content hash, previous hash, actor and time, and conversely |
| LinkTexts.LinkTextExact | packages/ledger/src/ledger.ts:371-387 | the text hashed into a link: the six named members in the order of their names, a null previous hash as `null`, the number in decimal |
| Utf16.RepairedAt | packages/ledger/src/ledger.ts:289-290 | hashing content as UTF-8 replaces exactly the lone surrogates, each by U+FFFD, and keeps all else |
| ChainCheck.VerifyChain | packages/ledger/src/ledger.ts:735-809 | ok exactly when every row holds, having checked all; otherwise the least failing row with its number, reason and count |
| ChainCheck.ChangedFieldReported | packages/ledger/src/ledger.ts:768-792 | changing any committed field of a chained row is reported at exactly that row |
| ChainCheck.RemovedRowReported | packages/ledger/src/ledger.ts:794-806 | removing a row that has a successor passes only if its content hash repeats its predecessor's |
| ChainCheck.LaterStart | packages/ledger/src/ledger.ts:757-767 | any sound range that starts after 1 is reported ok exactly when its first row repeats the content of the row before it; otherwise it breaks at its second row |
| ChainCheck.StreamRows | packages/ledger/src/ledger.ts:749-755 | the rows the walk reads: exactly those of the tenant and stream between the two bounds |
| ChainCheck.GapsAreTheOnlyBreaks | packages/ledger/src/ledger.ts:757-808 | on rows that appends wrote, each row fails exactly when the number before it is missing and it is not the first |
| Append.FindKey | packages/ledger/src/ledger.ts:493-541 | the event under a tenant's key, if and only if there is one |
| Append.FindSeq | packages/ledger/src/ledger.ts:363-367 | the stream's event with a number, if and only if there is one |
| AppendSafety.SetPhaseKeeps | packages/ledger/src/ledger.ts:300-325 | a transaction's own progress keeps the invariant |
| AppendSafety.LookUpKeeps | packages/ledger/src/ledger.ts:326-338 | the idempotency lookup keeps the invariant |
| AppendSafety.AllocateKeeps | packages/ledger/src/ledger.ts:340-361 | allocating under the stream's row lock keeps the invariant |
| AppendSafety.InsertKeeps | packages/ledger/src/ledger.ts:392-443 | the insert, its conflict with a committed key, and the lost-race branch keep the invariant |
| AppendSafety.CommitEvents | packages/ledger/src/ledger.ts:363-425 | committing a row keeps keys unique, numbers ascending, links recomputable and the outbox in step |
| AppendSafety.CommitKeeps | packages/ledger/src/ledger.ts:326-473 | a commit keeps the invariant for every other open transaction too |
| AppendSafety.RunKeeps | packages/ledger/src/ledger.ts:286-491 | the invariant holds in every state any interleaving reaches |
| AppendTheorems.ExactlyOnce | packages/ledger/src/ledger.ts:326-473 | in every reachable state at most one event per tenant and key; every answer gives the id, number and hashes of an event of its tenant that holds its content and key, all answers for one key name one event, and the outbox has one row for each event |
| AppendTheorems.OtherContentRefused | packages/ledger/src/ledger.ts:328-336 | all transactions answered for a key, in any interleaving, carried the same UTF-8 bytes |
| AppendTheorems.AllocationWaits | packages/ledger/src/ledger.ts:340-350 | a transaction waits for its number exactly while another open one has a number in the same stream of the same tenant |
| AppendTheorems.InsertWaits | packages/ledger/src/ledger.ts:390-405 | and to insert exactly while another open one of its tenant has inserted its key |
| AppendTheorems.SequencesConserved | packages/ledger/src/ledger.ts:340-350 | in every reachable state last_seq counts the stream's events plus the races lost on it |
| AppendTheorems.SequencesComplete | packages/ledger/src/ledger.ts:340-350 | the numbers are exactly 1 to last_seq if and only if no race was lost on the stream |
| AppendTheorems.ReachableChain | packages/ledger/src/ledger.ts:735-809 | in every reachable state, up to any number, `verifyChain` passes exactly when no number is missing between two rows, and fails at exactly the rows after a gap |
| AppendTheorems.LosslessChain | packages/ledger/src/ledger.ts:340-390 | without a lost race `verifyChain` accepts every range from 1, and the rows are 1, 2, ... |
| AppendTheorems.ReachableRange | packages/ledger/src/ledger.ts:757-808 | the exact verdict on any range that starts after 1, in every reachable state: rows past the second fail exactly after a gap, the second passes in two cases |
| LostRace.HoleIsForever | packages/ledger/src/ledger.ts:427-443 | a number that no event carries is never filled |
| LostRace.HolesBreakTheChain | packages/ledger/src/ledger.ts:427-443 | `verifyChain` fails on a stream exactly when a hole has events on both sides |
| LostRace.RaceThenBroken | packages/ledger/src/ledger.ts:427-443 | for any request with a key and any other stream, a run of answered transactions that ends with the chain reported broken |
| SerialAppend.CallExact | packages/ledger/src/ledger.ts:286-491 | one call on a quiet ledger, for every request: which error it ends in and that nothing changed then, when it is answered with the id, number and hashes of the event that holds its key, and otherwise the one row, outbox row and number it adds and answers with |
| SerialAppend.RetryAnswered | packages/ledger/src/ledger.ts:326-338 | calling again with a key changes no table and returns the first answer's event, number and hashes |
| SerialAppend.SameBytesAnswered | packages/ledger/src/ledger.ts:326-338 | another call with the key is answered exactly if it carries the same UTF-8 bytes |
| Replay.ReadAll | packages/ledger/src/ledger.ts:812-838 | keyset batches of any positive size deliver the single ordered scan; size 0 delivers nothing; terminates |
| Replay.BatchContinues | packages/ledger/src/ledger.ts:818-829 | the query after k events returns exactly what the scan has left |
| Replay.ScanComplete | packages/ledger/src/ledger.ts:812-838 | the scan has every event of the tenant up to the number, exactly once, ascending by the first differing code unit of the stream and then by number |
| Scope.ScopeContainment | packages/gate/src/commit-gate.ts:216-243 | the loop over the four dimensions and the purpose filter compute containment, narrowing and the broadened purposes |
| Scope.MissingInOrder | packages/gate/src/commit-gate.ts:232-236 | the broadened purposes are listed in the order in which they were asked for |
| Scope.ContainmentIsInclusion | packages/gate/src/commit-gate.ts:216-243 | contained means every point covered is covered, if and only if the request has a purpose or its dimensions fit |
| Scope.NarrowerIsStrict | packages/gate/src/commit-gate.ts:216-243 | contained and narrower means strictly included, with the exact condition for requests without purposes |
| Scope.ContainedTransitive | packages/gate/src/commit-gate.ts:216-243 | containment is transitive |
| Scope.ScopeContainedBy | packages/ledger/src/ledger.ts:237-247 | the ledger's loop is the dimension test with its arguments exchanged |
| Scope.LedgerComparisonIsReversed | packages/ledger/src/ledger.ts:231-247 | so it holds exactly when the authority lies inside the candidate, the reverse of its comment |
| Conflict.ClassifyConflict | packages/gate/src/commit-gate.ts:328-373 | text, structured and numeric comparison as specified, over the parsed objects; what the answers mean for the values, `ConflictLaws` says |
| Conflict.CompareObjects | packages/gate/src/commit-gate.ts:342-358 | shared keys, agreement on all of them and the key counts decide the relation of two objects |
| ConflictLaws.NormalizedExact | packages/gate/src/commit-gate.ts:302-307 | the compared text of every value: nothing for null, the folded string, the printed scalar, the canonical text of a structure |
| ConflictLaws.RecordsRelated | packages/gate/src/commit-gate.ts:342-358 | two records of values that JSON carries: unrelated without a common key, contradictory exactly where some common key holds different values, and otherwise superseding, narrowing or duplicating exactly as the candidate has more, fewer or as many members |
| ConflictLaws.ExtensionRelated | packages/gate/src/commit-gate.ts:353-355 | adding members to a record supersedes it, leaving members out narrows it |
| Conflict.SharedKeys | packages/gate/src/commit-gate.ts:345 | exactly the keys both objects have |
| Conflict.ContradictionSymmetric | packages/gate/src/commit-gate.ts:328-373 | contradiction does not depend on which claim came first |
| Conflict.ScalarPartition | packages/gate/src/commit-gate.ts:364-373 | two scalars either duplicate or contradict, and duplication is transitive |
| Conflict.DuplicatesExact | packages/gate/src/commit-gate.ts:349-356 | two objects called duplicates are the same object exactly when they have the same keys |
| Conflict.ObjectDuplicatesLoose | packages/gate/src/commit-gate.ts:349-356 | a witness: objects with different keys called duplicates, and transitivity lost |
| Gate.Supporting | packages/gate/src/commit-gate.ts:415 | exactly the entries cited in support |
| Gate.Usable | packages/gate/src/commit-gate.ts:416 | exactly the entries whose span verifies; as many as were given only if all do |
| Gate.CommitGate.FindConflicts | packages/gate/src/commit-gate.ts:263-300 | the loop over at most 64 rows yields the specified hits |
| Gate.CommitGate.AnyContradicts | packages/gate/src/commit-gate.ts:493 | whether some hit contradicts |
| Gate.CommitGate.InsertClaim | packages/gate/src/commit-gate.ts:722-819 | the new row is appended, every hit is recorded as a relation, and each superseded or duplicated open row with an earlier valid_from is closed at the new one's, all others untouched, only if the new claim is believed |
| Gate.CommitGate.EvaluateCandidate | packages/gate/src/commit-gate.ts:410-660 | one call takes the tables to the specified next state, nothing is written where a scope row is missing; what that state is, row by row, `GateExact` says |
| GateExact.NewRowExact | packages/gate/src/commit-gate.ts:587-601 | the one row a step adds and its decision, field by field: the candidate's values, open, from its event's time, accepted or only proposed, under the requested scope or, exactly where it is believed and asked for more, the event's |
| GateExact.ScopeWritten | packages/gate/src/commit-gate.ts:587-588 | asked within the event's scope, or only proposed, a claim is stored under the very scope it asked for; it has the event's exactly when that is the request or it is believed and the request is not contained |
| GateExact.OldRowExact | packages/gate/src/commit-gate.ts:790-816 | what a step does to every row that was there: closed at the new valid_from exactly if the candidate is believed, supersedes or duplicates it, and it is open-ended and earlier; otherwise unchanged |
| GateExact.RelationsExact | packages/gate/src/commit-gate.ts:772-783 | the relations recorded are from the new claim to exactly the rows read that bear one |
| GateExact.RejectionWrites | packages/gate/src/commit-gate.ts:524-529 | a rejected candidate adds its decision and nothing else, a missing scope row nothing at all |
| GateExact.ExtensionCloses | packages/gate/src/commit-gate.ts:790-816 | an accepted record that extends an earlier open one closes it at its own time; one that leaves members out leaves it as it is |
| GateExact.DefaultPolicyExact | packages/contracts/src/policy.ts:17-70 | what belief takes under the default policy, in terms of the candidate |
| GateExact.SpanStatuses | packages/ledger/src/ledger.ts:693-707 | the condition of every answer of the span check |
| Gate.CommitGate.SetStatus | packages/claims/src/index.ts:329-358 | one lifecycle write, undone as a whole where the interval would not be proper |
| Gate.Conflicts | packages/gate/src/commit-gate.ts:285-299 | a hit for exactly the rows read that bear a relation to the candidate |
| GateSafety.QuoteUnchanged | packages/ledger/src/ledger.ts:693-707 | with an injective hash a span verifies exactly when the event is there, unredacted, long enough, and the bytes under the span are those cited |
| GateSafety.StepKeepsHistory | packages/gate/src/commit-gate.ts:787-816 | a step deletes, rewrites or reopens nothing and leaves every closed interval proper |
| GateSafety.HistoryKept | packages/gate/src/commit-gate.ts:787-816 | so in every reachable state, and every step only extends the tables |
| GateSafety.BelievesIff | packages/gate/src/commit-gate.ts:504-556 | belief exactly where all support verified, entailment held at the floor, authority is strong, nothing withholds or contradicts, and the scope can be narrowed |
| GateSafety.OutcomeExact | packages/gate/src/commit-gate.ts:524-556 | the condition of each of the five outcomes, in terms of the evidence |
| GateSafety.AcceptConsistentIff | packages/gate/src/commit-gate.ts:532-552 | an accepting step keeps belief consistent if and only if the query left out no open claim of the key that contradicts the candidate, which is known before the step |
| GateSafety.AllRowsRead | packages/gate/src/commit-gate.ts:275-283 | with at most 64 open claims under a key every answer of the query has all of them |
| GateSafety.AllRowsReadIff | packages/gate/src/commit-gate.ts:275-283 | whatever rows the query picks, it has every open claim of the key exactly when there are at most 64 |
| GateSafety.ClosingOrderless | packages/gate/src/commit-gate.ts:790-816 | which rows are closed does not depend on the order of the hits, and closing again changes nothing |
| GateSafety.QueryOrderIrrelevant | packages/gate/src/commit-gate.ts:275-283 | the query has no order; within the limit the outcome, the claims and the decision do not depend on it |
| GateSafety.NoBelievedContradiction | packages/gate/src/commit-gate.ts:263-300 | in every reachable state of runs within that bound, no two open accepted claims of one key contradict each other |
| GateSafety.BeliefIsEarned | packages/gate/src/commit-gate.ts:504-595 | every claim that is or was believed has a decision with the evidence, entailment, authority, kind and sensitivity required, and a scope inside its event's |
| GateSafety.BeliefCoversRequest | packages/gate/src/commit-gate.ts:587-588 | in every reachable state each believed claim covers exactly the points its candidate asked for whenever the event covered them, and exactly the event's where it did not |
| GateSafety.ReplacesIffLater | packages/gate/src/commit-gate.ts:790-816 | on scalar objects a newly accepted claim replaces the open one of its key if and only if it became true strictly later |
| GateSafety.OneOpenPerKey | packages/gate/src/commit-gate.ts:790-816 | on runs of such accepts at most one claim per key is open in every reachable state |
| GateWitness.CrowdHidesContradiction | packages/gate/src/commit-gate.ts:282 | a run with a 65th open claim that ends with two open claims contradicting each other |
| GateWitness.LateEventRun | packages/gate/src/commit-gate.ts:790-816 | a run in which as_of denies a belief the system held |
| History.DuringIsOverlap | packages/claims/src/index.ts:105-109 | `during` fails on an inverted window and otherwise selects a claim exactly when it was valid at some moment of the window |
| History.CurrentIsBelief | packages/claims/src/index.ts:94-95 | `current` on the final tables selects exactly the claims believed after the last step |
| History.AsOfExact | packages/claims/src/index.ts:96-104 | on every run of gate steps and closings, `as_of T` on the final tables selects for every T the claims accepted and open after the last step at or before T, if and only if every closed claim was closed as of the clock of the step that closed it |
| History.AsOfTellsHistory | packages/claims/src/index.ts:96-104 | so it does wherever each step that closes a claim closes it as of its own clock, however late events that close nothing are |
| History.ClosingTellsHistoryIff | packages/claims/src/index.ts:96-104 | a closing keeps `as_of` right about the closed claim at every time if and only if the superseding event's time is the step's own |
| History.LateArrivalDeniesBelief | packages/gate/src/commit-gate.ts:790-816 | between a late event's time and the step that processed it, `as_of` denies the belief |
| History.StatusKeepsPastIff | packages/claims/src/index.ts:347-357 | the exact condition under which a lifecycle write leaves what `as_of` says of the past, for every claim, status and end |
| History.StatusStepExact | packages/claims/src/index.ts:329-358 | the whole of one lifecycle write: the new status and end, the decision, and when it is undone |
| History.OutcomesForStatuses | packages/claims/src/index.ts:367-388 | which decision each status records |
| History.StatusesThatRewriteThePast | packages/claims/src/index.ts:96-104 | for a claim without an end, the past stays exactly when both the old and the new status are among those reported, or neither is |
| Namespace.NamespaceFromScope | packages/langgraph-js/src/namespace.ts:184-213 | the writing loops give the specified segments or the first error |
| Namespace.DecodeNamespace | packages/langgraph-js/src/namespace.ts:281-343 | the reading loops give the specified values by dimension or the first error; the positional loop needs no duplicate check |
| Namespace.IndexOf | packages/langgraph-js/src/namespace.ts:353-362 | the first place of a separator, or none |
| Namespace.FindDimension | packages/langgraph-js/src/namespace.ts:383-385 | a dimension with that name, if and only if there is one |
| NamespaceLaws.SegmentDecodes | packages/langgraph-js/src/namespace.ts:345-381 | a written segment is read as its dimension and value, except that a value ending in white space is refused |
| NamespaceReads.NamedExact | packages/langgraph-js/src/namespace.ts:345-381 | what is read of a segment with a colon, for every text before and after the first one |
| NamespaceReads.BareExact | packages/langgraph-js/src/namespace.ts:346-368 | and of one without |
| NamespaceReads.EntriesErrors | packages/langgraph-js/src/namespace.ts:281-323 | which error a namespace gets from its number of segments, its first bad segment, or its mixture of forms, and that it is read otherwise |
| NamespaceReads.EntryRead | packages/langgraph-js/src/namespace.ts:304-341 | segments without names take the codec's dimensions in order, the others the one they name |
| NamespaceReads.ScopeErrors | packages/langgraph-js/src/namespace.ts:148-161 | which error entries with good values get: repeated dimension, no tenant or purpose, nothing else bound |
| NamespaceReads.ValueError | packages/langgraph-js/src/namespace.ts:325-341 | the first refused value decides the error where no dimension repeats before it |
| NamespaceReads.ScopeRead | packages/langgraph-js/src/namespace.ts:148-161 | every entry of a namespace that is read ends in the scope's field of its dimension |
| NamespaceLaws.CollectExact | packages/langgraph-js/src/namespace.ts:325-341 | collecting succeeds exactly when all values pass and no bound dimension repeats, and then holds every value, in order |
| NamespaceLaws.WriterExact | packages/langgraph-js/src/namespace.ts:184-213 | the scopes the writer accepts, exactly |
| NamespaceReads.WriterErrors | packages/langgraph-js/src/namespace.ts:184-213 | which error the writer gives, for every scope it refuses |
| NamespaceLaws.WrittenForm | packages/langgraph-js/src/namespace.ts:184-213 | the namespace of the default codec: the bound dimensions by name in the fixed order, then the purposes, ascending |
| NamespaceLaws.SortedAscend | packages/langgraph-js/src/namespace.ts:208 | the purposes are the same ones, ascending by their first differing code unit |
| NamespaceLaws.ValueExact | packages/langgraph-js/src/namespace.ts:387-428 | every answer of the value check, by length, separators and control characters |
| NamespaceLaws.DimensionsExact | packages/langgraph-js/src/namespace.ts:254-279 | every answer of the check of a codec's dimensions |
| NamespaceLaws.ReaderExact | packages/langgraph-js/src/namespace.ts:146-162 | the namespaces the reader accepts, exactly |
| NamespaceLaws.RoundTripExact | packages/langgraph-js/src/namespace.ts:142-213 | a written scope is read back, purposes sorted, if and only if no value ends in white space, there are at most 64 segments, and the codec declares every dimension it binds |
| NamespaceLaws.NamespaceInjective | packages/langgraph-js/src/namespace.ts:184-213 | under those conditions two scopes with one namespace are one up to the order of purposes |
| NamespaceLaws.Normalises | packages/langgraph-js/src/namespace.ts:148-161 | every namespace that is read has a canonical form, and that reads as the same scope if and only if the codec declares every dimension the scope binds |
| NamespaceLaws.StoreKeyRoundTrip | packages/langgraph-js/src/namespace.ts:224-252 | decoding a store key gives exactly the namespace and key it was made from |
| NamespaceLaws.StoreKeyText | packages/langgraph-js/src/namespace.ts:224-230 | a store key as it is written, and when it is refused |
| NamespaceReads.StoreKeyReaderExact | packages/langgraph-js/src/namespace.ts:233-252 | the texts read as a store key are exactly those written from a namespace that reads as a scope and a key without a bar |
| NamespaceReads.StoreKeyErrors | packages/langgraph-js/src/namespace.ts:233-252 | the error of every other text |
| NamespaceLaws.StoreKeyInjective | packages/langgraph-js/src/namespace.ts:224-230 | no two valid pairs share an encoding |
| MemoryContextLaws.EscapeIsMark | packages/langgraph-js/src/context.ts:189-198 | the five replacements in sequence are one pass: none disturbs another |
| MemoryContextLaws.MarkPrint | packages/langgraph-js/src/context.ts:103-121 | escaping printed JSON touches string contents only, at any depth |
| MemoryContextLaws.EscapingLossless | packages/langgraph-js/src/context.ts:189-198 | escaped JSON parses to the value that was printed and holds none of the five structural characters |
| MemoryRegion.RegionLossless | packages/langgraph-js/src/context.ts:86-121 | the body of any packet's region parses to an object that shows every field of the packet under its name and the claims in their order, and holds no structural character |
| MemoryRegion.SanitizeExact | packages/langgraph-js/src/context.ts:174-177 | a bare identifier keeps letters, digits and six signs, has an underscore for each other unit and at most 128 units, and is never empty |
| MemoryRegion.HeaderText | packages/langgraph-js/src/context.ts:95-99 | the opening tag with its five attributes |
| MemoryRegion.RegionText | packages/langgraph-js/src/context.ts:91-123 | the whole text: six parts between newlines, the markers with the token |
| MemoryRegion.MarkersOnce | packages/langgraph-js/src/context.ts:86-121 | in the text of any packet each marker occurs exactly once, in order, and the body stands between them |

## Left out

- Floating point: scores are reals, so rounding in the tokenizer's sums is not modelled; the one NaN that matters, a score read past the end of `scores`, is an edge that is never taken.
- Tokenizer files other than Unigram, the precompiled character map and its digest, and `$` patterns in the replacement character.
- Append.Step: transactions interleave, so `append` is a state machine on values, one step for each statement that waits or reads, rather than a class; a step that would wait leaves the state as it is.
- Append: deadlocks and lock timeouts (an `Abort` may happen at any step), blob storage of large payloads, `ensure_scope`, `ensure_tenant`, participation rows; receipts keep the fields idempotency and the chain depend on.
- ChainCheck.VerifyChain: takes the rows the query returns; the query is `StreamRows`, which keeps the table's order, ascending in every reachable state.
- SHA-256 of a string is a parameter on texts; that it acts on UTF-8 bytes is modelled by hashing content with lone surrogates replaced and by asking injectivity of well-formed texts only.
- Replay.ReadAll: reads one unchanging table, and orders stream ids by code unit rather than by the database's collation; `hydrateEvent` is not part of the model.
- Gate: steps are serial, as one evaluate runs in one transaction; two concurrent evaluates that cannot see each other's claims are not modelled.
- Gate: the triggers of later migrations on claim transitions and mutations; with them some steps fail instead of writing, which is the step that changes nothing.
- Gate: reason codes, evidence rows, candidate state, the decision's detail and its version stamps; the two clock reads of one evaluate are taken as one.
- GateSafety.NoBelievedContradiction: over gate steps and closings of open claims; a lifecycle write that accepts a claim by hand is outside the runs.
- History.AsOfExact: over gate steps and closings of open claims, with a clock that does not go back; lifecycle writes of other kinds are covered one at a time by `StatusKeepsPastIff`.
- Conflict: objects are compared as text that JSON can carry; `sortKeys` is the canonical order of the ledger.
- CanonicalExact.CanonicalExactness: numbers are held as the text JavaScript prints for them, so -0 and 0 are one number, as they are in JSON.
- MemoryRegion.RegionLossless: the packet's nested fields are arbitrary JSON values that JavaScript can hold; `projection_watermark` and `model_calls` are natural numbers.
- `listClaims` filters and limits, relation reads and writes, `evaluateUse`, `toScopePrefix`, `formatMemorySummary`: each is a short case table or a filter over what is modelled.
- Row-level security, the outbox worker, HTTP, MCP, configuration and the LangGraph wrappers: I/O and plumbing.
