# Verified model of decision-intelligence-core

This project models, in Dafny, the path a metric takes through the service and proves what the
service is for. A command becomes an entry of an append-only log, the entry becomes a leaf, the
leaf joins a Merkle batch, the batch is anchored with a proof row per leaf and a root per
decision, a time-stamp response is parsed and checked, and the log is replayed into metric
records, a score and a verdict.

`dafny verify dfyconfig.toml` checks everything.

| file | contents |
|---|---|
| `Basics.dfy` | bytes, text, digests, the uninterpreted hash, results |
| `Merkle.dfy`, `MerkleBatch.dfy` | the tree and its proofs as functions; the batch, the verifier and the builder as loops and classes |
| `Der.dfy`, `DerValues.dfy`, `Rfc3161.dfy` | the TLV codec, INTEGER and OID, requests, responses, acceptance and offline verification |
| `Texts.dfy`, `LeafHash.dfy` | `sorted` and `sorted(set)` over text; the leaf payload |
| `Events.dfy`, `AuditTrail.dfy` | typed events; the in-memory audit trail |
| `System.dfy`, `SystemInvariant.dfy`, `SystemTheorems.dfy` | the commit and anchor protocol as a transition system, its invariant, and what holds in every reachable state |
| `CommandHandler.dfy`, `AnchorService.dfy` | the handlers and the anchor service as classes, and each as a run of that system |
| `EndToEnd.dfy` | what one handled command or event does, from its own fields to the rebuilt records |
| `Redelivery.dfy` | commands and events delivered again, at any later time |
| `Replay.dfy`, `Policy.dfy`, `Projector.dfy` | replay, policy arithmetic, the rebuilt scoreboard |
| `Witnesses.dfy` | runs of the whole system on which an expectation fails |

Conventions of the model:

- SHA-256 is a parameter `h` of type bytes to 32 bytes. Nothing is assumed about it. Where the
  service relies on it, the result reads "the claim, or this pair of preimages has one hash". The
  pair is always named: for the tree it is computed by a function, for the log it is the payloads
  of two given commits.
- Text is its UTF-8 encoding, so joining is concatenation and code-point order is byte order. The
  separators `|` and `,` are the bytes 0x7c and 0x2c.
- A metric value is its canonical JSON text together with its numeric reading, if the code would
  treat it as a number (a Python `bool` does count as one).
- uuid4 values are only ever compared, so an event id is the event's position in the log and a
  batch id the position of its anchor run. Clocks, signatures and time stamps are parameters.
- Every `await` is an interleaving point and a possible failure point: each action of `System`
  is one uninterrupted segment, a handler may die after its append took effect (`Abandon`) and an
  anchor run may die anywhere before it is done (`FailRun`).
- The sequential classes are not a second protocol: `UpdateIsARun`, `ReconciledIsARun`,
  `LifecycleIsARun`, `RecordingIsARun`, `AnchoringIsARun` and `FailedAnchoringIsARun` show that an
  uninterrupted call is a run of the transition system, so the theorems about reachable states
  cover it.

Where the code differs from what it says or what one would expect, the model follows the code:

- A batch `[a, b, c]` and a batch `[a, b, c, c]` have one root (`PaddingKeepsRoot`), and leaves and
  inner nodes are hashed alike (`ShortProofAcceptsInnerNode`). Binding therefore needs the leaf
  count and soundness the proof length; `ShortProofSoundness` and `LongProofSoundness` say what
  verification means at every other length, and `ShortTreeProofsVerify` and `LongTreeProofsVerify`
  that all of that is accepted.
- The decoder accepts lengths that are not minimal (`NonMinimalLengthIsAccepted`);
  `ReencodesIffMinimal` gives the exact condition for re-encoding to return the same bytes.
- `build_timestamp_req` writes `certReq FALSE` although section 11.5 of X.690 omits default values.
- Replay stops at the first supersession of a known metric, so later commits are not seen
  (`EarlyReturnLosesCommits`, `CommitsAfterCutAreInvisible`); `ReconstructIsFullReplayIff` says
  exactly when this does no harm.
- A failed anchor run keeps the leaves it took, and a handler that dies after its append never
  queues its leaf: such commits are lost for batching (`LostStaysLost`), and no others are
  (`CanBeBatchedIffNotLost`). They stay visible in `read_unbatched` (`UnbatchedAreTheRest`).
- A stored proof row can be overwritten without any hash collision when idempotency keys hold the
  separator `|` (`PipeInKeyOverwritesRow`); `OverwritesIffSharedLeaf` and `RowsAreStable` give the
  exact condition.
- A redelivered ReconciledDecision is logged again and moves the staging entry back to RECONCILED
  (`RedeliveredReconciliationIsLogged`).

## Model

| member | source | states |
|---|---|---|
| Merkle.DepthIsCeilLog2 | application/merkle.py:91-96 | the number of levels above the leaves is the least k with 2^k >= n |
| Merkle.ProofsVerify | application/merkle.py:100-134 | completeness: for every batch and every leaf, the issued proof verifies against the root |
| Merkle.SmallRoots | application/merkle.py:63-98 | the roots of one, two and three leaves in full: plain concatenation is hashed, an odd node is paired with itself |
| Merkle.Soundness | application/merkle.py:121-134 | any 32-byte value verifying with a proof of full depth is the leaf picked by the LEFT/RIGHT pattern and the whole proof is the tree's own, or a collision is computed from proof and tree |
| Merkle.TreeProofsVerify | application/merkle.py:100-134 | the converse of soundness, padding positions included |
| Merkle.TreeProofIsIssued | application/merkle.py:111-119 | a tree proof whose pattern spells a real index is byte for byte the proof issued for that index |
| Merkle.IssuedIsTreeProof | application/merkle.py:111-119 | every issued proof spells its own index and carries the tree's own siblings |
| Merkle.TreeProofIsUnique | application/merkle.py:121-134 | two tree proofs with one pattern are the same proof for the same leaf |
| Merkle.ShortProofSoundness | application/merkle.py:121-134 | a shorter verifying proof is the tree proof of the node its pattern picks at its height, or a collision is computed from it |
| Merkle.ShortTreeProofsVerify | application/merkle.py:121-134 | the converse: tree proofs that start at a higher level verify |
| Merkle.LongProofSoundness | application/merkle.py:121-134 | a longer verifying proof is a chain of hashes ending in a leaf and then that leaf's tree proof, or a collision is computed from it |
| Merkle.LongTreeProofsVerify | application/merkle.py:121-134 | the converse: a tree proof lengthened by a chain of hashes ending in its leaf verifies |
| Merkle.ShortProofAcceptsInnerNode | application/merkle.py:63-64 | under every hash, every node of every level verifies with the proof issued for it there, which is as much shorter as the level is higher |
| Merkle.RootIsPerfectRoot | application/merkle.py:87-98 | the padded bottom-up loop computes the root of the perfect tree over 2^k virtual leaves, indices clamped top-down at each width |
| Merkle.PickedIsClamped | application/merkle.py:91-95 | the leaf a pattern picks is the virtual leaf at the position it spells |
| Merkle.RootsAgreeIffVirtualLeavesAgree | application/merkle.py:87-98 | at equal depth roots agree exactly when the virtual leaves do, up to a computed collision |
| Merkle.Binding | application/merkle_anchor_service.py:103-109 | root and leaf count fix the whole leaf list in order, or a collision is computed |
| Merkle.PaddingKeepsRoot | application/merkle.py:92-93 | repeating the last leaf of an odd batch of more than one leaf keeps its root |
| MerkleBatches.BuildLevels | application/merkle.py:87-98 | the close loop computes the padded levels and the root |
| MerkleBatches.WalkProof | application/merkle.py:110-119 | the proof loop never indexes out of range and returns the specified proof |
| MerkleBatches.MerkleBatch.Close | application/merkle.py:80-98 | an empty batch raises and keeps its state, any other stores its levels and returns its root |
| MerkleBatches.MerkleBatch.ProofOf | application/merkle.py:100-119 | the two error cases exactly, else a proof of depth steps that verifies |
| MerkleBatches.VerifyInclusionProof | application/merkle.py:121-134 | the loop decides Verifies |
| MerkleBatches.MerkleBatchBuilder.AddLeaf | application/merkle.py:162-165 | appends the leaf; the first one sets the time |
| MerkleBatches.MerkleBatchBuilder.ShouldClose | application/merkle.py:167-174 | true exactly when a leaf is pending and there are max_leaves of them or max_seconds have passed since the first |
| MerkleBatches.MerkleBatchBuilder.CloseAndReset | application/merkle.py:179-185 | drains all pending leaves in order into a closed batch, or raises and changes nothing when empty |
| Der.BigEndianRoundTrip | infrastructure/rfc3161_client.py:95-101 | the least-length big-endian form reads back and has no leading zero |
| Der.BigEndianLength | infrastructure/rfc3161_client.py:100-101 | a number fits in k bytes exactly when it is below 256^k |
| Der.DerLengthBytes | infrastructure/rfc3161_client.py:95-101 | the bytes of every length below 65536 |
| Der.ReadTlv | infrastructure/rfc3161_client.py:189-219 | the parser loop terminates on every byte string, stays in range and computes ParseTlv |
| Der.ReadAll | infrastructure/rfc3161_client.py:213-218 | the children loop reads the content to its end or fails as a whole |
| Der.HeaderIsAcceptedIff | infrastructure/rfc3161_client.py:189-210 | exactly the headers the parser accepts, and the class, constructed bit, number and bounds it reads off them |
| Der.ParsesTree | infrastructure/rfc3161_client.py:189-219 | wherever an encoded tree lies, the parser returns that tree and stops right after it |
| Der.DecodesEncoding | infrastructure/rfc3161_client.py:222-227 | round trip: decoding the encoding of a tree whose content length can be written returns it with nothing left over |
| Der.DecodesTreesBelow | infrastructure/rfc3161_client.py:95-227 | so every tree with fewer than 256^127 bytes of content round-trips, and its decoded node gives the tree back |
| Der.TrailingBytesAreRefused | infrastructure/rfc3161_client.py:222-227 | any byte left over after an encoding is an error |
| Der.FromToNode | infrastructure/rfc3161_client.py:170-182 | a decoded node determines the tree it came from |
| Der.EncodingIsPrefixFree | infrastructure/rfc3161_client.py:104-105 | encodings are injective and prefix-free |
| Der.ParseIsTiled | infrastructure/rfc3161_client.py:189-219 | a parsed TLV has a header of at least two bytes and its content in place, and at every depth the children's ranges tile the content exactly |
| Der.ReencodingIsNoLonger | infrastructure/rfc3161_client.py:199-208 | re-encoding what was parsed never takes more bytes |
| Der.ReencodesIffMinimal | infrastructure/rfc3161_client.py:199-208 | re-encoding returns the same bytes if and only if every length at every depth was minimal |
| Der.NonMinimalLengthIsAccepted | infrastructure/rfc3161_client.py:201-206 | a long-form length for one byte decodes like the short form |
| DerValues.IntegerRoundTrip | infrastructure/rfc3161_client.py:112-120 | every natural number decodes back to itself from a minimal content with a clear sign bit |
| DerValues.IntegerReencodesIffMinimal | infrastructure/rfc3161_client.py:244-252 | contents read as non-negative are those with a clear sign bit, and re-encode to themselves exactly when minimal |
| DerValues.SignExtension | infrastructure/rfc3161_client.py:248-252 | contents are read as two's complement: a repeated sign byte changes nothing and a single byte reads as itself or itself less 256 |
| DerValues.ReadersAcceptIff | infrastructure/rfc3161_client.py:244-285 | exactly the nodes that the INTEGER, OCTET STRING and GeneralizedTime readers accept |
| DerValues.PrimitiveEncoderBytes | infrastructure/rfc3161_client.py:108-153 | the identifier octets of the encoders of plain values, BOOLEAN and NULL in full |
| DerValues.ConstructedEncoderBytes | infrastructure/rfc3161_client.py:156-167 | the identifier octets of SEQUENCE, SET and the context wrappers |
| DerValues.EncodeArc | infrastructure/rfc3161_client.py:140-145 | pushing groups from the low end and reversing gives the base-128 form |
| DerValues.EncodeOid | infrastructure/rfc3161_client.py:131-147 | the encoder's loops compute OidContent, errors included |
| DerValues.ReadOid | infrastructure/rfc3161_client.py:255-270 | the decoder's loop computes DecodeOid, errors included |
| DerValues.OidRoundTrip | infrastructure/rfc3161_client.py:131-147 | every arc list in the encoder's domain decodes back to itself |
| DerValues.ReencodeArcs | infrastructure/rfc3161_client.py:262-267 | re-encoded arcs are the same bytes without padding and fewer bytes with it |
| DerValues.OidReencodesIffCanonical | infrastructure/rfc3161_client.py:255-270 | accepted OID contents re-encode to the same bytes exactly when the first byte is below 120 and no arc starts with 0x80 |
| DerValues.OidIsAcceptedIff | infrastructure/rfc3161_client.py:255-270 | exactly the OID nodes the decoder accepts: a content that ends with a finished arc |
| DerValues.OidIsEncodedIff | infrastructure/rfc3161_client.py:131-147 | exactly the arc lists the encoder accepts |
| Rfc3161.RequestRoundTrip | infrastructure/rfc3161_client.py:308-326 | a decoded request has version 1, the same hash OID, digest and nonce, and certReq FALSE written out |
| Rfc3161.RequestBytes | infrastructure/rfc3161_client.py:308-326 | the bytes of a SHA-256 request with a small nonce, in full |
| Rfc3161.ContentTypeBytes | infrastructure/rfc3161_client.py:78-79 | the encoded contents of the signedData and TSTInfo OIDs |
| Rfc3161.SearchNonce | infrastructure/rfc3161_client.py:353-359 | the loop with its break returns the first universal INTEGER after the five fixed fields |
| Rfc3161.ParsesIffResponse | infrastructure/rfc3161_client.py:339-432 | parsing gives a result if and only if the input decodes to a response of the stated shape with that status, those strings, that digest, time and nonce, tag numbers and OIDs written out |
| Rfc3161.FindsNonce | infrastructure/rfc3161_client.py:353-359 | with any of the optional fields around it, the search finds the nonce, or nothing when there is none |
| Rfc3161.ReadsTstInfo | infrastructure/rfc3161_client.py:339-360 | a TSTInfo with any optional fields reads back to its digest, genTime and nonce |
| Rfc3161.ReadsToken | infrastructure/rfc3161_client.py:400-429 | the wrappers around the doubly encoded TSTInfo are undone exactly |
| Rfc3161.ReadsStatus | infrastructure/rfc3161_client.py:363-379 | status and status strings read back |
| Rfc3161.TstInfoIsEncodable | infrastructure/rfc3161_client.py:427-429 | the inner encoding is smaller than the response around it |
| Rfc3161.ResponseRoundTrip | infrastructure/rfc3161_client.py:392-432 | any response laid out per section 2.4.2 of RFC 3161 parses back to what it says |
| Rfc3161.VerifiesIffGranted | infrastructure/rfc3161_client.py:585-597 | `verify` is true exactly for the embedded digest under status 0 or 1 |
| Rfc3161.AnswerToResponse | infrastructure/rfc3161_client.py:559-583 | for every standard response the token, or the first check that fails in the client's order |
| Rfc3161.AcceptsIffAnswersRequest | infrastructure/rfc3161_client.py:559-597 | the client accepts a standard response exactly when it is granted and carries the digest, the nonce and a convertible time; what it accepts verifies offline for that digest and no other |
| Texts.SortedUniqueIsSorted | application/merkle.py:50 | `sorted(set(refs))` has the same elements, strictly increasing |
| Texts.LessIsFirstDifference | application/merkle.py:50 | the order is that of the first differing byte, a proper prefix first |
| Texts.IncreasingIsUnique | domain/models.py:47-52 | only one strictly increasing list has given elements |
| Texts.SortedIsSorted | application/command_handler.py:222 | `sorted(refs)` is a permutation in order |
| Texts.SortedUniqueAbsorbs | domain/models.py:47-52 | sorting first or removing duplicates first changes nothing |
| LeafHash.PayloadBytes | application/merkle.py:50-61 | the hashed bytes of every leaf: the six parts in their order between bytes 0x7c, the refs strictly increasing between bytes 0x2c |
| LeafHash.PayloadOfTwoRefs | application/merkle.py:50-61 | the hashed bytes written out for two refs, in whatever order or multiplicity they were given |
| LeafHash.LeafHashIsReproducible | application/merkle.py:34-61 | the stored refs and the rebuilt record's refs give the same leaf hash as the command's |
| LeafHash.PayloadDeterminesKey | application/merkle.py:51-60 | payloads with different pipe-free keys differ, whatever the other fields hold |
| LeafHash.PayloadDeterminesFields | application/merkle.py:50-60 | with separable fields and non-empty refs the payload determines every field, the JSON value may hold a pipe |
| LeafHash.PipeInFieldsIsAmbiguous | application/merkle.py:51-60 | a pipe can move between decision and metric: two different claims with one payload, whatever the other fields hold |
| LeafHash.PipeInKeyIsAmbiguous | application/merkle.py:51-60 | a pipe can move between the last ref and the key: two leaves with different keys and one payload |
| LeafHash.CommaInRefsIsAmbiguous | application/merkle.py:57 | a comma in a ref makes it look like two refs, whatever the other fields hold |
| AuditTrail.IndexesAgreeAlways | infrastructure/memory_adapters.py:27-59 | operations keep each per-decision list the filter of the log and the key index injective into existing ids, and the earlier log a prefix |
| AuditTrail.IndexesAgreeFromStart | infrastructure/memory_adapters.py:27-59 | so from the empty trail on, after any operations and any further ones |
| AuditTrail.InByDecision | infrastructure/memory_adapters.py:51-52 | a stream holds exactly the log's events of its decision |
| AuditTrail.InUnbatched | infrastructure/memory_adapters.py:54-56 | the unbatched events are the commits whose ids are not marked |
| AuditTrail.SelectionsKeepOrder | infrastructure/memory_adapters.py:51-56 | streams and unbatched events keep the order of the log without repetition |
| AuditTrail.SlicesCut | infrastructure/memory_adapters.py:51-56 | s[:n] and s[n:] cut a list once, at n or, for negative n, that far from its end |
| AuditTrail.MemoryAuditTrail.AppendEvent | infrastructure/memory_adapters.py:33-49 | one record in log, stream and index, or for a seen key nothing but the old id |
| AuditTrail.MemoryAuditTrail.ReadRange | infrastructure/memory_adapters.py:51-52 | the filtered log, sliced as Python slices |
| AuditTrail.MemoryAuditTrail.ReadUnbatched | infrastructure/memory_adapters.py:54-56 | the unbatched commits in order, cut to the limit as Python slices |
| AuditTrail.MemoryAuditTrail.Mark | infrastructure/memory_adapters.py:58-59 | adds the ids to the batched set and nothing else |
| SystemInvariant.StepKeepsInv | application/merkle_anchor_service.py:67-117 | every action of every interleaving keeps the invariant and only adds to what is recorded |
| SystemInvariant.RunKeepsInv | application/merkle_anchor_service.py:67-117 | so does every run of the system |
| SystemTheorems.AnchorSafety | application/merkle_anchor_service.py:67-117 | every batched event has a row for its leaf whose path verifies, and its own decision's log holds the root of the batch that marked it |
| SystemTheorems.RowFields | application/merkle_anchor_service.py:74-88 | in every reachable state every stored row has the issued path of its leaf and the root, signature and time of its run, field by field |
| SystemTheorems.PublishedFields | application/merkle_anchor_service.py:103-112 | every published root is that of its run, with leaf count, signature and time, and goes to "system" or to a decision with a leaf in the run |
| SystemTheorems.LeavesAreConserved | application/command_handler.py:215-240 | committed events split disjointly into unqueued, pending, taken and batched, and no event is in two batches |
| SystemTheorems.UnbatchedAreTheRest | infrastructure/memory_adapters.py:54-56 | unlimited read_unbatched returns exactly the groups that are not batched |
| SystemTheorems.RowsAreStable | application/merkle_anchor_service.py:74-88 | whatever happens later a stored row stays as it is, unless two different logged commits share its leaf: their payloads collide, or are equal and a key holds a pipe |
| SystemTheorems.OverwritesIffSharedLeaf | application/merkle_anchor_service.py:74-88 | writing a row overwrites one exactly when the leaf is shared with another commit whose row has been written |
| SystemTheorems.RowIsOwnBatchs | application/merkle_anchor_service.py:74-88 | a batched leaf's row is the one its own batch wrote, unless another logged commit shares the leaf |
| SystemTheorems.EqualLeavesAreOneEvent | application/command_handler.py:206-234 | two logged leaves with one hash are one event, or their two payloads collide, or the payloads are equal and one of the keys holds a pipe |
| SystemTheorems.OnlyLoggedPayloadsVerify | application/merkle.py:121-134 | a payload that verifies against a published root at the depth of the published leaf count is the payload of the commit its proof picks in that batch, or a collision is computed from that commit, the proof and the tree |
| SystemTheorems.OneEventPerKey | infrastructure/memory_adapters.py:37-48 | at most one committed or superseding event exists for an idempotency key |
| SystemTheorems.RedeliveryChangesNothing | application/command_handler.py:225-234 | re-appending a commit's key at any later time leaves the whole state unchanged |
| SystemTheorems.LogOnlyGrows | interfaces/audit_trail.py:1-18 | every earlier log is a prefix of every later one, and marks and row keys stay |
| SystemTheorems.LoggedLeafHashesReproduce | application/command_handler.py:206-229 | recomputing any logged commit's hash, from the event or the rebuilt record, gives its leaf_hash |
| SystemTheorems.FailedRunLosesItsLeaves | application/merkle_anchor_service.py:68-71 | the leaves of a failed run are never batched and never pending again |
| SystemTheorems.LiveRunCanFinish | application/merkle_anchor_service.py:71-114 | from every state satisfying the invariant a run that has not failed can finish with all its leaves batched |
| SystemTheorems.LostStaysLost | application/command_handler.py:215-236 | a commit whose handler died after the append, or whose run failed, is never batched and never queued again |
| SystemTheorems.CanBeBatchedIffNotLost | application/merkle_anchor_service.py:67-114 | in every reachable state some continuation batches a given commit if and only if its handler did not die after the append and its run did not fail |
| CommandHandlers.CommandHandler.CommitMetric | application/command_handler.py:200-240 | the commit path computes CommitIn on the whole visible state |
| CommandHandlers.CommandHandler.HandleUpdateMetric | application/command_handler.py:74-97 | missing evidence is logged as a rejection, everything else commits |
| CommandHandlers.CommandHandler.OnMetricProposed | application/command_handler.py:101-104 | replaces the staging entry by the payload with status PROPOSED and logs the event |
| CommandHandlers.CommandHandler.OnDebateOutcome | application/command_handler.py:106-111 | merges the payload into the staging entry, sets DEBATED, keeps the rest of the entry, logs the event |
| CommandHandlers.CommandHandler.OnRiskSignal | application/command_handler.py:113-118 | sets CRITIQUED and the risk level, logs the event |
| CommandHandlers.CommandHandler.OnReconciledDecision | application/command_handler.py:120-151 | merges the payload into the staging entry, sets RECONCILED, logs, then rejects or commits |
| CommandHandlers.CommandHandler.SupersedeMetric | application/command_handler.py:185-196 | appends the supersession under its key and touches nothing else |
| CommandHandlers.UpdateIsARun | application/command_handler.py:74-97 | in every reachable state an uninterrupted update is a run of the system that changes only the handler's part of the state |
| CommandHandlers.ReconciledIsARun | application/command_handler.py:120-151 | so is the handling of a ReconciledDecision |
| CommandHandlers.LifecycleIsARun | application/command_handler.py:101-118 | so is the handling of a proposal, a debate outcome and a risk signal |
| CommandHandlers.RecordingIsARun | application/command_handler.py:153-196 | so are a supersession and the events that are only recorded |
| EndToEnd.AcceptedUpdateIsShown | application/command_handler.py:200-240 | an accepted update returns and queues the hash of its payload, sets its staging entry, and the rebuilt record of its metric is the command's, field by field, unless a supersession took effect before |
| EndToEnd.RejectedUpdateIsShown | application/command_handler.py:74-88 | an update without evidence is logged and shown as a record without value only where the metric was unknown |
| EndToEnd.LifecycleEffect | application/command_handler.py:101-118 | what a proposal, a debate outcome and a risk signal each do to staging entry, log and queue |
| EndToEnd.UnreconcilableEffect | application/command_handler.py:120-143 | a ReconciledDecision without evidence: the two logged events in full and the merged RECONCILED entry |
| EndToEnd.ReconciledIsShown | application/command_handler.py:120-151 | a ReconciledDecision with evidence and a new key: logged in full, and the rebuilt record and queued leaf are its own |
| Redelivery.AcceptedUpdateIsIgnoredLater | application/command_handler.py:74-97 | once an update was accepted in a reachable state, its key is ignored after any later run: log, index, pending leaves and staging stay as they are |
| Redelivery.RedeliveredReconciliationChangesNothing | application/command_handler.py:120-151 | after any later run, and interleaved with anything, each step of handling a known commit's ReconciledDecision again leaves pending leaves, commits, keys, rows, marks and the rebuilt metrics of every decision as they were |
| Redelivery.RedeliveredReconciliationIsLogged | application/command_handler.py:120-151 | handled at once after any later run, it adds one log entry, merges the payload and moves the staging entry back to RECONCILED, nothing else |
| AnchorServices.MerkleAnchorService.CloseAndAnchor | application/merkle_anchor_service.py:67-117 | every leaf gets a verifying row with the batch root, the signature of that root, the stamp and the batch id; the log gains the root events; the ids are marked; or, when the TSA raises, only the builder is drained |
| AnchorServices.MerkleAnchorService.WriteRows | application/merkle_anchor_service.py:74-88 | one row per leaf, in order, with its own proof |
| AnchorServices.MerkleAnchorService.PublishRoots | application/merkle_anchor_service.py:103-112 | one event for the system, then one per distinct decision in sorted order |
| AnchorServices.RowsAreForLeaves | application/merkle_anchor_service.py:74-88 | what each written row holds, and that other rows stay |
| AnchorServices.AnchoredLog | application/merkle_anchor_service.py:103-114 | the events that anchoring appends, in full and in order: one under "system", one under each decision of the batch; no key is taken and exactly the batch is marked |
| AnchorServices.MerkleAnchorService.MaybeCloseAndAnchor | application/merkle_anchor_service.py:48-57 | does nothing unless a threshold fired, else anchors, or drains the builder and raises with the TSA |
| AnchorServices.MerkleAnchorService.ForceClose | application/merkle_anchor_service.py:59-65 | does nothing when nothing is pending, else anchors, or drains the builder and raises with the TSA |
| AnchorServices.AnchoringIsARun | application/merkle_anchor_service.py:67-117 | what the class computes is where an uninterrupted run of the system ends |
| AnchorServices.FailedAnchoringIsARun | application/merkle_anchor_service.py:68-71 | a raising TSA is the run that takes the leaves and fails |
| Replay.ReconstructLoop | application/metrics_registry.py:21-63 | the loop with its early return computes Reconstruct |
| Replay.ReconstructIsFullReplayOfPrefix | application/metrics_registry.py:49-63 | the code replays exactly the prefix ending at the first supersession of a known metric |
| Replay.ReconstructIsDeclared | application/metrics_registry.py:21-63 | every record is the last commit's, else the first rejection's, field by field, superseded if it is the cut's target |
| Replay.ReplayShape | application/metrics_registry.py:37-62 | REJECTED only without a commit; at most one SUPERSEDED, which keeps its value, leaf hash and time |
| Replay.ReconstructAppend | application/metrics_registry.py:21-63 | one more event changes the records as that event says, unless a supersession took effect before it: then nothing changes |
| Replay.OtherEventsAreIgnored | application/metrics_registry.py:23-49 | an event that is no commit, rejection or supersession leaves the records alone |
| Replay.ReconstructIsFullReplayIff | application/metrics_registry.py:62 | with distinct keys the early return does no harm exactly when no later event is a commit, a first rejection or a supersession of a known metric |
| Policy.BaseScoreLoop | application/policy_evaluator.py:64-71 | the loop computes the clamped closed form |
| Policy.BaseScoreIsTheMean | application/policy_evaluator.py:66-71 | with values in [0,1] and non-negative weights of positive sum the base score is the weighted mean, unclamped, between the least and the greatest value |
| Policy.ScoreWithoutRisk | application/policy_evaluator.py:59-76 | without active signals a complete decision scores the weighted mean of the committed required values, cut off at 0 and 1; 0 when nothing is required |
| Policy.ScoreIsTheMean | application/policy_evaluator.py:59-76 | with values in [0,1] and non-negative weights, score times sum of weights is the sum of value times weight |
| Policy.OneMoreSignal | application/policy_evaluator.py:73-76 | one more signal takes exactly severity times rate off the score, down to 0, with rates 0.05, 0.15, 0.30, 0.50 and 0.1; an inactive one takes nothing |
| Policy.SignalsLowerScore | application/policy_evaluator.py:73-76 | all signals together take exactly their sum off the score without signals, down to 0 |
| Policy.VerdictLadder | application/policy_evaluator.py:78-84 | on a complete decision the exact condition for each verdict |
| Policy.PolicyRefs | application/policy_evaluator.py:86 | the refs are those of the committed required metrics, sorted and once each, or none when incomplete |
| Policy.ScoreIffComplete | application/policy_evaluator.py:41-56 | a numeric score exactly when every required metric is committed; otherwise the missing ones sorted, each once |
| Policy.RiskOrderDoesNotMatter | application/policy_evaluator.py:73-77 | permuting the risk signals changes nothing |
| Policy.ItemOrderDoesNotMatter | application/policy_evaluator.py:41-44 | permuting the metrics dictionary changes nothing |
| Policy.MoreRiskNeverHelps | application/policy_evaluator.py:73-83 | one more signal of non-negative severity never raises the score nor moves the verdict up, for any thresholds |
| Policy.CriticalForcesReject | application/policy_evaluator.py:77-83 | an active critical signal rejects a complete decision at any score |
| Projector.ScoreboardProjector.Rebuild | application/scoreboard_projector.py:36-76 | the stored and returned state is the one rebuilt from the decision's stream, whatever the dictionary order |
| Projector.PolicyIgnoresOrder | application/scoreboard_projector.py:50-55 | the verdict does not depend on the order of the metrics dictionary |
| Projector.ScoreIffAllDeclaredCommitted | application/scoreboard_projector.py:36-76 | the rebuilt score is numeric exactly when the stream declares every required metric COMMITTED |
| Projector.BoardFields | application/scoreboard_projector.py:36-76 | a rebuilt board shows exactly the declared records, field by field, the last published root with its time, and the number of events read |
| Projector.BoardScore | application/scoreboard_projector.py:39-55 | its score is the mean of the declared required values, each name once, less severity times rate over all RiskSignal events of the stream, down to 0 |
| Projector.BoardVerdict | application/scoreboard_projector.py:50-55 | its verdict by score and critical signals of the stream: APPROVE from 0.7, REJECT below 0.5 or with a critical one, else MANUAL_REVIEW |
| Projector.BoardAfterSignal | application/risk_matrix.py:14-29 | one more RiskSignal takes exactly severity times rate off the score and leaves records and root as they were |
| Projector.StreamKeysAreDistinct | infrastructure/memory_adapters.py:33-49 | in every reachable state a decision's stream has no key twice |
| Projector.AnchoredDecisionShowsARoot | application/merkle_anchor_service.py:90-112 | once one of its events is batched, a decision other than "system" shows a root, and it is the root and time of a run that took a leaf of this very decision |
| Projector.SupersessionEffect | application/command_handler.py:175-196 | superseding leaves rows, runs, queue and every shown root as they were, and of all rebuilt records changes only the named one, in status and superseding key; it says exactly when nothing changes |
| Witnesses.PipeInKeyOverwritesRow | application/merkle_anchor_service.py:74-88 | for every hash, from every reachable state with nothing pending: two commits of one millisecond with different keys, differing in where a pipe falls, are both accepted and anchored, and the second row replaces the first |
| Witnesses.CommitsAfterCutAreInvisible | application/metrics_registry.py:49-63 | in every reachable state, once a supersession took effect in a decision, its accepted updates are logged and queued but no rebuilt record shows them |
| Witnesses.EarlyReturnLosesCommits | application/metrics_registry.py:62 | a reachable log without repeated keys on which replay misses a committed metric that the full replay has |

## Left out

- HTTP transport, proxies, nonce randomness and the digest-size check of `build_request`: response bytes and nonce are inputs.
- CMS signature validation: the code does not implement it.
- Ed25519 and the clocks: opaque values; the model only keeps that the root is what is signed.
- Text conversions: JSON canonicalisation, dotted OIDs, ISO times, hex and the wording of `status_text`; OIDs are arc sequences and the genTime conversion is a parameter of `Accept`.
- Python's recursion limit: a response nested beyond it raises inside the parser, where the model returns the parsed tree or a DER error.
- Lengths of 256^127 bytes and more, where `_der_length` no longer marks its own length octets: every round trip is stated below that size.
- Floating-point rounding and NaN: the policy arithmetic is over real numbers.
- Pydantic validation of replayed records and the `rebuilt_at` and `computed_at` clock fields.
- Payloads that carry reserved keys: the dictionary spread would let them override `event_type`, or `leaf_hash` in a staging entry; the typed events and entries cannot.
- Event-bus fan-out, `get_many`, the Postgres, Redis and Kafka adapters, REST and gRPC: plumbing around the modelled core.
- `application/evidence_registry.py`, `application/completion_criteria.py` and `application/event_dispatcher.py`: not on the modelled path, or one-step lookups.
