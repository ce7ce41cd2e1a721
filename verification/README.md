# Bitcoin PIR: a verified model of its stateful cores

This project models, in Dafny 4.11, the parts of the Bitcoin PIR repository whose
correctness is not visible from one function, and proves what they promise:

- **Directory relay** (`RelayEvents`, `RelayStore`, `DirectoryStore`, `RelayRuns`, `RelayAnswers`, `PublishProtocol`,
  `RelayGates`). The append-only archive with a head per coordinate, its counters and shard limits, the startup scan
  that recomputes all of it, the publisher session on top, and the rate gate and permits.
- **Delta sync** (`SyncPlan`, `SyncMerge`, `SyncController`, `Codec`, `CodecCuts`, `CodecNumbers`). The search for a
  shortest delta chain, the planner, the controller, the delta decoder and the merge, up to two theorems: what a sync
  returns is the UTXO set at the target height, and when a run of syncs keeps the cache at the persisted height.
- **OnionPIR batches** (`Cuckoo`, `Pbc`, `OnionBatch`, `OnionVerify`, `OnionAnchor`, `OnionTops`, `NaryMerkle`,
  `OnionSoundness`). Cuckoo placement, round planning, padded query rounds, parsing and anchoring the tree tops, and
  the Merkle check of every probed bin: which hashes it can accept, and that honest servers pass it.
- **Inclusion proofs** (`BhtmProof`). Audit paths over the tree of section 2.1 of RFC 6962.
- **Cashu wallet** (`CashuSelect`, `CashuWallet`). Exact change from power-of-two proofs, and the wallet's
  state over every interleaving of its actions.
- **Codecs**. Addresses (`Bech32Checksum`, `Bech32Field`, `BitRegroup`, `Bech32`, `Bip173`, `Bech32Typos`, `Base58`,
  `Hex`, `Address`), coefficient packing (`OnionUnpack`), WebSocket chunks and records (`WsChunks`, `Turns`,
  `WsRecords`, `WsSocket`), request frames (`OnionFrames`).

`Arithmetic`, `Radix`, `Horner`, `Bitwise`, `Alphabet` and `Wrappers` hold the number and string theory they share.

Code that changes state is modelled as classes and methods with loops; each method is proved against a
specification function or predicate, and the lemmas are about that specification. Hashes are function
parameters. Soundness statements assume that no two of the inputs actually hashed collide, since a function into
32 bytes cannot be injective. Event validity is that of the relay's wire code and the directory crate.

Nothing was executed: every statement below is a proof about the model.

## What turned out differently from what one might expect

- **A relay can refuse its own archive.** An entry is checked for a health observation no later than the clock,
  not than its own timestamp, while the startup scan checks every row at its own timestamp. The scan accepts a
  reachable archive if and only if no archived entry was observed after it was signed
  (`RestartAccepts`, `SavedThenRefusedAtStartup`).
- **One height for the whole sync cache.** After a sync of some scripts the cache is at the new height if and only
  if every script not synced is a whale or did not change in between (`CacheFollowsHeight`, `StaleScriptShown`); over
  a run of syncs it stays so exactly if every turn has that property (`RunKeepsBook`), as one fixed list without null
  results does (`FixedListStaysTrue`).
- **Operation permits release the lane first**, so a lane holder can find no global permit (`LaneFirstCanWait`): there
  is none exactly when as many holders are releasing as lane permits are idle, so a waiter waits only for a holder
  that is already releasing (`LaneFirstWaitsExactly`, `LaneFirstWaitsOnlyForClosers`). Connections release
  the global permit first and never wait (`LaneHolderGetsGlobal`).
- **`receive` does not look for repeats inside one list.** No secret is held twice afterwards if and only if the
  new part of the list has none twice (`ReceiveOnce`, `MintedTwice`).
- **A short message that looks like a chunk frame is not delivered whole**; every other message up to 64 MiB is
  (`SentIsReceived`).
- **The loop that peels records need not end**, since a length prefix is read as a signed number: a message that begins
  with 0xfffffffc is never left (`StallsForever`). The loop ends if and only if no turn starts at a position where
  another did (`ReadingEnds`); if no prefix met is below -4, if and only if none is -4 (`ForwardReadingEnds`). Negative
  prefixes as such do not keep it from ending (`NegativeCanEnd`). `Deliver` is stated for every message on which it ends.
- **The frame classifier prices less than the server meters**: a frame with more than one byte after its last
  blob is metered by the server and not priced by the client (`ClassifyOnionFrame`, and `MeteredUnpriced` for such a
  frame), although the classifier's comment says it mirrors the server's.
- **Some truncated records decode without an error.** A record of outputs cut off within the txid of an output, or
  between two outputs, is decoded to the outputs before the cut; any other cut is an error (`CutUtxoData`).
- **A batch of more than 255 queries does not survive encoding**, since its count is one byte (`BatchRoundTrip`).
- **The tree-top check does not look at the depth of a top.** A top that is m levels short passes exactly the committed
  node of level m where the bin lands, so a committed leaf can pass exactly if m is 0 or that node has its hash
  (`VerifiedExactly`, `CommittedLeafVerified`). With tops of the committed depth, every INDEX and DATA leaf of a result
  that passes is the committed one (`PassedIsCommitted`). A top that is too long passes only a leaf that was hashed
  up to a committed one (`LongTopHashesToLeaf`).
- **Packing cuts digits to 64 bits.** Unpacking gives the payload back if and only if no digit needs more, which is
  always so for coefficients of at most 64 bits (`PackUnpackRoundTrip`); nine bytes in one coefficient lose the ninth
  unless it is zero (`NinthByteLost`). Before that, the packer's 128-bit buffer holds the bits left and one more byte
  for exactly the widths up to 122, and 124, of those below 128 (`WidthsThatFit`).
- **The bech32 decoder takes more than BIP-173 allows**: a string of mixed case for every program (`MixedCaseDecodes`) and
  one of more than 90 characters for every program of more than 50 bytes (`LongDecodes`). An ASCII string is one of
  BIP-173 for a program if and only if the decoder accepts it for that program, it has at most 90 characters, all of
  them printable, and not letters of both cases (`StandardExactly`).

## Model

| member | source | states |
|---|---|---|
| RelayEvents.ValidAtSigningTime | crates/directory/nostr/src/entry.rs:329-380 | an event accepted at some clock is accepted at its own timestamp iff its health bucket is not later than the timestamp |
| RelayEvents.CurrentExactly | crates/directory/nostr/src/entry.rs:329-380 | a sound event is current from the last of its beginnings to the first of its ends, and no other event is |
| RelayEvents.CurrentBetween | crates/directory/nostr/src/entry.rs:329-380 | it is current at every clock between two at which it is |
| DirectoryStore.Store.constructor | apps/directory-relay/src/store.rs:92-128 | a new store is empty |
| DirectoryStore.Store.Ingest | apps/directory-relay/src/store.rs:144-311 | new state and answer of an ingest, for every event, clock and commit outcome |
| RelayStore.InsertKeepsInv | apps/directory-relay/src/store.rs:271-311 | an accepted insert keeps heads, counters, totals and shard limits right |
| RelayStore.IngestKeepsInv | apps/directory-relay/src/store.rs:144-311 | every ingest keeps the archive invariant, commit failures included |
| RelayStore.HeadMapUnique | apps/directory-relay/src/store.rs:609-617 | the archive alone determines the head map |
| RelayStore.HeadCountIsTags | apps/directory-relay/src/store.rs:193-230 | the joined per-shard head count is the number of coordinates of that shard and profile |
| DirectoryStore.Store.ScanRow | apps/directory-relay/src/store.rs:510-628 | one row extends the recomputed winners and totals, or the archive is one to refuse |
| DirectoryStore.Offer | apps/directory-relay/src/store.rs:598-625 | the winner of a coordinate is kept by replacement order; one coordinate too many is refused |
| DirectoryStore.Store.ScanRows | apps/directory-relay/src/store.rs:510-628 | the first loop recomputes the head map and totals, or refuses rightly |
| DirectoryStore.Store.ScanHeads | apps/directory-relay/src/store.rs:630-693 | the second loop passes iff the stored heads are the winners and within shard limits |
| DirectoryStore.Store.FullStartupValidation | apps/directory-relay/src/store.rs:442-694 | the scan accepts exactly the consistent archives |
| RelayRuns.RunKeepsInv | apps/directory-relay/src/store.rs:144-311 | the invariant holds after every run of ingests |
| RelayRuns.CoordinateBound | apps/directory-relay/src/store.rs:618-624 | shard limits bound the coordinates by the scan's own limit, 16 times 1025 |
| RelayRuns.RestartAccepts | apps/directory-relay/src/store.rs:442-694 | after any run, startup accepts iff no archived entry was observed after its timestamp |
| RelayRuns.SavedThenRefusedAtStartup | crates/directory/nostr/src/entry.rs:329-345 | a concrete entry that is saved and then refused at startup |
| RelayRuns.ArchivedForever | apps/directory-relay/src/store.rs:271-311 | archived rows never change or disappear |
| RelayRuns.PositiveMeansArchived | apps/directory-relay/src/store.rs:158-191 | Saved or Duplicate means that very event stays archived |
| RelayRuns.ArchivedIsDuplicateForever | apps/directory-relay/src/store.rs:158-191 | an archived event is answered Duplicate after any run, at any clock and under any limits |
| RelayRuns.HeadsAreMaxima | apps/directory-relay/src/store.rs:193-230 | without refusals every head is the maximum of all events offered for its coordinate |
| RelayRuns.HeadsIgnoreOrder | apps/directory-relay/src/store.rs:193-230 | two runs offering the same events in any order end with the same heads |
| RelayRuns.GoodOffersTaken | apps/directory-relay/src/store.rs:158-270 | offers valid at their clocks, of events that fit the relay's limits all together, one per id, are never refused, in any order and repetition |
| RelayRuns.GoodOffersIgnoreOrder | apps/directory-relay/src/store.rs:158-270 | two such runs over the same events end with the same heads: a condition on the offers alone |
| RelayAnswers.HeadsAreLatest | apps/directory-relay/src/store.rs:193-230 | after any run, the head of a coordinate was signed no earlier than any archived event of it, and has the lowest id of those signed at the same time |
| RelayAnswers.HeadsAreLatestOffered | apps/directory-relay/src/store.rs:193-230 | without refusals that holds of all events offered |
| RelayAnswers.AnswersFollowArchive | apps/directory-relay/src/store.rs:144-311 | after any run, the answer to an event is determined by the archived events alone (their ids, times, providers per shard, number and bytes), and only Saved adds it |
| RelayAnswers.LaterLeads | apps/directory-relay/src/store.rs:193-311 | a timely event with room that was signed later than its head is saved and leads; one signed earlier is answered ReplacedByNewer |
| PublishProtocol.PublishSession | apps/admin/src/directory_publish.rs:555-610 | the session is Ok iff every event got its own positive OK in order; otherwise it fails for what is wrong with the first message that is not one |
| PublishProtocol.StepKeepsBacked | apps/directory-relay/src/server.rs:604-646 | every step keeps positive replies backed by the archive |
| PublishProtocol.RunKeepsBacked | apps/directory-relay/src/server.rs:604-646 | the same over every run, with lost replies, retries and other publishers |
| PublishProtocol.AcknowledgedExactly | apps/directory-relay/src/server.rs:604-646 | an event that reaches the store is acknowledged iff the outcome can be told and the reply gets through, and positively iff the archive then holds it |
| PublishProtocol.OnlyHandlingReplies | apps/directory-relay/src/server.rs:604-646 | no other step replies, or changes the archive unless it is another publisher's |
| PublishProtocol.SessionOkMeansArchived | apps/admin/src/directory_publish.rs:555-610 | over every run, a session that ends Ok has every event archived |
| PublishProtocol.RetryNeverRejected | apps/directory-relay/src/server.rs:707-729 | a retry of archived events gets only positive replies |
| PublishProtocol.LosslessSessionSucceeds | apps/admin/src/directory_publish.rs:555-610 | timely events, one per coordinate, that fit an empty relay all together are all confirmed over a connection that loses nothing |
| RelayGates.RateGate.constructor | apps/directory-relay/src/server.rs:90-99 | a new gate has an empty window |
| RelayGates.RateGate.Admit | apps/directory-relay/src/server.rs:100-120 | a call is admitted iff the lock is sound and it fits the window, which restarts after a second |
| RelayGates.WindowBudget | apps/directory-relay/src/server.rs:89-120 | what an interval can admit, by the room left and the restarts in it |
| RelayGates.RateBound | apps/directory-relay/src/server.rs:89-120 | every interval of n seconds of every run admits at most (n + 1) times the limit |
| RelayGates.AdmittedIsSpent | apps/directory-relay/src/server.rs:89-120 | what the bound counts is the cost of the admitted calls |
| RelayGates.RefusedOnlyWhenFull | apps/directory-relay/src/server.rs:100-120 | over every run, a call within the limit is refused only if, since a start less than a second ago, too much was admitted to leave room for it |
| RelayGates.AdmittedAfterPause | apps/directory-relay/src/server.rs:100-120 | over every run, a call a second after every earlier charged one is admitted |
| RelayGates.AdmittedOrNot | apps/directory-relay/src/server.rs:100-120 | a free call is always admitted; one over the limit or with a poisoned lock never |
| RelayGates.PermitsConserved | apps/directory-relay/src/server.rs:413-433 | permits are neither lost nor made, over every run, timed-out waits included, and in both release orders |
| RelayGates.LaneHolderGetsGlobal | apps/directory-relay/src/server.rs:413-472 | with the global permit released first, a lane holder always finds a global permit |
| RelayGates.LaneFirstWaitsExactly | apps/directory-relay/src/server.rs:768-786 | with the lane released first, there is no global permit iff as many holders are releasing as lane permits are idle |
| RelayGates.LaneFirstWaitsOnlyForClosers | apps/directory-relay/src/server.rs:768-786 | with the lane released first, a waiter waits only for a holder that is releasing |
| RelayGates.LaneFirstCanWait | apps/directory-relay/src/server.rs:768-786 | a run in which a lane holder does find no global permit |
| SyncPlan.IndexByBase | web/src/sync.ts:126-140 | the index holds exactly the deltas of each base height |
| SyncPlan.ShortChainsVisited | web/src/sync.ts:141-169 | every short enough chain ends at a height visited at no greater length |
| SyncPlan.FindDeltaChain | web/src/sync.ts:126-169 | a found chain is contiguous and shortest among all chains; none is found iff the heights are equal or every chain is longer than five |
| SyncPlan.FreshPlan | web/src/sync.ts:79-94 | the fresh plan starts at the best full checkpoint; it fails iff there is none |
| SyncPlan.ComputeSyncPlan | web/src/sync.ts:46-117 | the plan, by cases of last height, tip, reachability and checkpoints |
| SyncPlan.BestFull | web/src/sync.ts:73-75 | the first of the checkpoints of greatest height |
| SyncPlan.PlanEndsAtTip | web/src/sync.ts:46-117 | a plan is empty iff nothing in the catalog is higher; otherwise it ends at the greatest height of a checkpoint or delta iff five deltas or fewer lead there, from the last height or from a best checkpoint, and else at the checkpoint |
| Codec.ReadVarint | web/src/codec.ts:22-40 | the accumulating loop computes the recursive varint value, with both errors |
| Codec.VarintRoundTrip | web/src/codec.ts:22-40 | a written varint of up to ten bytes is read back, wherever it stands |
| Codec.DecodeUtxoData | web/src/codec.ts:51-86 | the decoded list and its total |
| Codec.UtxoDataRoundTrip | web/src/codec.ts:51-86 | every encodable list is decoded back, whatever padding follows |
| CodecCuts.VarintExactly | web/src/codec.ts:22-40 | a varint is read iff it ends within ten bytes; it is too large iff ten bytes do not end it, and the data ends early otherwise |
| CodecCuts.CutUtxoData | web/src/codec.ts:51-86 | a record cut off behind the txid of an output is an error; cut off before that, it gives the outputs before the cut and no error |
| CodecCuts.CutCount | web/src/codec.ts:51-58 | a record cut off within its count is an error |
| CodecCuts.CutSpents | web/src/codec.ts:136-151 | the same of the spent outpoints of a delta |
| CodecNumbers.NearestDouble | web/src/codec.ts:79-79 | a number becomes the nearest double, and the even one of two that are as near |
| CodecNumbers.NumberIsDouble | web/src/codec.ts:79-79 | what it becomes is one that a double holds |
| Codec.ReadSpents | web/src/codec.ts:136-151 | the loop over spent outputs computes the recursive decoding |
| Codec.ReadUtxos | web/src/codec.ts:154-169 | the loop over new outputs computes the recursive decoding |
| Codec.DecodeDeltaData | web/src/codec.ts:129-172 | the decoder computes the recursive decoding, errors included |
| Codec.DeltaRoundTrip | web/src/codec.ts:129-172 | every encodable delta is decoded back, whatever padding follows |
| SyncMerge.ApplyDeltaData | web/src/sync-merge.ts:80-117 | the kept entries, then the new ones, and their total |
| SyncMerge.MergeDeltaIntoSnapshot | web/src/sync-merge.ts:32-74 | the merged result for whales, empty answers, undecodable data and records |
| SyncMerge.ListTotal | web/src/sync-merge.ts:80-117 | the total of a complete list is the worth of the UTXO set |
| SyncMerge.ListsOne | web/src/sync-merge.ts:80-117 | a list shows one UTXO set only |
| SyncMerge.ApplyListsNew | web/src/sync-merge.ts:80-117 | applying the difference turns a list of the old set into a list of the new set |
| SyncMerge.MergeShowsNew | web/src/sync-merge.ts:32-117 | merging a true change into a true snapshot is true at the new height; it is a whale iff one of the two was, and a new whale lists nothing |
| SyncMerge.FullRecordShows | web/src/codec.ts:51-86 | a full checkpoint's decoded record is true at its height |
| SyncController.Controller.constructor | web/src/sync-controller.ts:92-111 | a new controller has nothing cached at height 0 |
| SyncController.Controller.ComputePlan | web/src/sync-controller.ts:144-151 | the planner's plan for the persisted height, or for 0 unless every script is cached; it runs from there or begins with a checkpoint |
| SyncController.Controller.Execute | web/src/sync-controller.ts:160-214 | a failed step or answers of a wrong size leave everything unchanged; otherwise results, cache and height are those of the merged steps |
| SyncController.Controller.Reset | web/src/sync-controller.ts:219-222 | nothing cached at height 0 |
| SyncController.PlanIsContiguous | web/src/sync.ts:46-117 | every computed plan leads from its start height to its target |
| SyncController.ExecuteShowsTarget | web/src/sync-controller.ts:160-214 | contiguous truthful steps from a true state give the true result at the target for every script |
| SyncController.SyncShowsTarget | web/src/sync-controller.ts:144-214 | a computed plan, executed on a cache at the persisted height, shows the UTXO set at the target height |
| SyncController.CommittedAt | web/src/sync-controller.ts:206-211 | what the cache holds for each script after a commit |
| SyncController.CacheFollowsHeight | web/src/sync-controller.ts:206-211 | the cache is at the new height iff every script not refreshed is a whale or unchanged |
| SyncController.TurnKeepsBook | web/src/sync-controller.ts:144-214 | one plan-and-execute turn from a true cache shows true results, and keeps the cache true iff scripts without a new snapshot are whales or unchanged |
| SyncController.RunKeepsBook | web/src/sync-controller.ts:144-214 | over any run of turns, failed ones included, the cache is at the persisted height throughout iff every turn is such |
| SyncController.FixedListStaysTrue | web/src/sync-controller.ts:144-214 | one fixed list without null results keeps the cache at the persisted height after any number of turns |
| SyncController.StaleScriptShown | web/src/sync-controller.ts:144-214 | two syncs of different scripts after which the planner's own plan, over any catalog that reaches no higher, shows a stale result |
| Cuckoo.CuckooPlace | web/src/pbc.ts:12-59 | the method computes the placement that the next rows are about |
| Cuckoo.PlacedAdds | web/src/pbc.ts:12-59 | placing adds exactly the item; every owner sits in one of its own candidate groups, and in one only |
| Cuckoo.NoPlaceExactly | web/src/pbc.ts:12-59 | an item finds no place iff all its candidates are owned and, from the first of them on, the allowed number of evictions are in vain: each evicted item finds all its candidates owned |
| Cuckoo.PlaceByEviction | web/src/pbc.ts:29-56 | otherwise the evicted item of some kick takes its first free candidate in that kick's order, after fewer evictions in vain |
| Cuckoo.OneKickPlaces | web/src/pbc.ts:33-44 | one eviction is enough if the owner of the first candidate has a free candidate |
| Cuckoo.Kick | web/src/pbc.ts:33-56 | one eviction leads to the same outcome as all that remain |
| Cuckoo.Evict | web/src/pbc.ts:34-35 | replacing an owner keeps the placement valid |
| Cuckoo.RotatedAt | web/src/pbc.ts:37-54 | the probe order is the candidate list rotated to where the kick begins |
| Pbc.PlaceRound | web/src/pbc.ts:79-92 | the loop places the items in turn, restoring the groups after a failure, until as many are placed as there are groups |
| Pbc.FirstIsPlaced | web/src/pbc.ts:79-92 | the first item of a round is always placed |
| Pbc.RoundEntries | web/src/pbc.ts:94-100 | the entries are the owners read in group order |
| Pbc.EntriesDistinct | web/src/pbc.ts:94-100 | no item appears twice in a round |
| Pbc.EntriesCover | web/src/pbc.ts:94-100 | the entries are exactly the placed items |
| Pbc.OneRound | web/src/pbc.ts:77-107 | a round is valid, is the placement of what remains, takes at least one item and leaves exactly the others in order |
| Pbc.PlanRounds | web/src/pbc.ts:68-111 | planning ends with every item in exactly one round, in one of its groups, no group used twice in a round; every round is the placement of what the rounds before it left |
| Pbc.WaitsExactly | web/src/pbc.ts:77-107 | an item waits for a later round iff at its turn the round is full, or its candidates are all owned and every eviction allowed is in vain |
| OnionBatch.PaddedQueries | web/src/onionpir_client.ts:1448-1500 | every round message has the full number of queries, the real ones in the slots of their groups |
| OnionBatch.RunRounds | web/src/onionpir_client.ts:1448-1588 | every round is fully padded and every planned item gets the leaves of its own group's answers; aborted iff an item is unknown, a response does not decode (that to an all-dummy round included) or an answer does not unpack |
| OnionBatch.IndexLevel | web/src/onionpir_client.ts:1448-1588 | at least one round for a non-empty batch, each of 2 K queries; every address gets exactly two INDEX leaves, unless a response does not decode or an answer does not unpack; the rounds are the planner's |
| OnionBatch.ChunkLevel | web/src/onionpir_client.ts:1662-1800 | at least one round whether or not anything was found, each of K queries; every entry gets its leaf, unless it is missing from its table, a response does not decode or an answer does not unpack; the rounds are the planner's |
| OnionVerify.Deduplicate | web/src/onionpir_client.ts:2085-2095 | distinct leaves by key, refused iff one bin has two hashes |
| OnionVerify.GroupLeaves | web/src/onionpir_client.ts:2107-2117 | each group's list holds its leaves, each at its pass |
| OnionVerify.CountPasses | web/src/onionpir_client.ts:2118-2122 | the passes are one or the fullest group's size |
| OnionVerify.PassQueries | web/src/onionpir_client.ts:2154-2171 | every pass asks k rows, the real ones for the leaf's own row |
| OnionVerify.FoldPass | web/src/onionpir_client.ts:2191-2231 | a pass folds exactly the leaves of that pass, or stops on an answer that does not unpack |
| OnionVerify.SiblingPasses | web/src/onionpir_client.ts:2107-2231 | at least one pass of k queries; every distinct leaf is handled exactly once, with its own answer; aborted iff the response to a pass does not decode, that of an all-dummy pass included, or an answer needed does not unpack |
| OnionVerify.VerifySubTree | web/src/onionpir_client.ts:2060-2268 | one verdict per distinct leaf, that of its own answers and its group's tree-top; aborted iff a response does not decode or an answer needed does not unpack |
| OnionBatch.VerifyLeaves | web/src/onionpir_client.ts:2060-2268 | tops that cannot be read abort; with tops that fail the anchor check every leaf fails and no sibling is asked for; otherwise the verdict of each leaf, or an abort on conflicting hashes, an undecodable response or an answer that does not unpack |
| OnionBatch.VerifyMerkle | web/src/onionpir_client.ts:1950-2001 | if there is any leaf, both sub-trees fetch their tops and, where these are anchored, run at least one full pass; unless a check aborts, a result passes iff it has INDEX leaves and all its leaves are accepted under the tops in the blobs |
| OnionAnchor.CheckTreeTopAnchor | web/src/onionpir_client.ts:589-656 | the check passes iff tree count, size, hash, arities, roots and super root all agree |
| OnionAnchor.AnchorFixesRoots | web/src/onionpir_client.ts:633-655 | tops that pass carry the committed roots |
| OnionAnchor.AnchorSeesRoots | web/src/onionpir_client.ts:633-655 | the check sees no more of a top than its root: any top with that root passes in a blob of its own |
| OnionTops.ParseOnionTreeTopCache | web/src/onionpir_client.ts:523-571 | the nested loops read the trees the recursive reading gives; refused iff truncated, of arity 0 or with bytes left over |
| OnionTops.BlobRoundTrip | web/src/onionpir_client.ts:523-571 | tops written down are parsed back |
| OnionTops.CarriedExactly | web/src/onionpir_client.ts:523-571 | tops are those of some blob iff arities, level counts, node counts and node lengths fit their fields |
| OnionTops.FetchTreeTops | web/src/onionpir_client.ts:2003-2034 | an error iff the response or the blob cannot be read, no tops iff the anchor check fails, the parsed tops otherwise |
| NaryMerkle.WalkTreeTopToRoot | web/src/onionpir_client.ts:667-691 | the loop computes the recursive walk |
| NaryMerkle.HonestWalk | web/src/onionpir_client.ts:667-691 | walking an honest top from any node ends at the root |
| NaryMerkle.HonestLeafAccepted | web/src/onionpir_client.ts:2191-2268 | with the honest row and top every bin reconstructs the group root |
| NaryMerkle.WalkBindsNode | web/src/onionpir_client.ts:667-691 | a walk over any levels that ends at the committed root started at the committed node where its index lands, in range or not |
| NaryMerkle.AcceptedLeafIsCommitted | web/src/onionpir_client.ts:2191-2268 | an accepted leaf is the committed one, for arbitrary siblings and a top of the committed depth |
| NaryMerkle.AcceptedIsNode | web/src/onionpir_client.ts:2191-2268 | a leaf accepted with a top m levels short is the committed node of level m where its bin lands |
| NaryMerkle.ShortTopTakesNode | web/src/onionpir_client.ts:2191-2268 | such a node is accepted |
| NaryMerkle.AcceptedExactly | web/src/onionpir_client.ts:2191-2268 | a top m levels short can accept exactly that node, and nothing for a bin that lands outside |
| NaryMerkle.CommittedLeafAccepted | web/src/onionpir_client.ts:2191-2268 | the committed leaf can be accepted iff m is 0 or it has that node's hash |
| NaryMerkle.LongTopHashesToLeaf | web/src/onionpir_client.ts:2191-2268 | a leaf accepted with a top too long was hashed up to a committed leaf |
| OnionSoundness.VerifiedLeafIsNode | web/src/onionpir_client.ts:2060-2268 | every leaf accepted in a batch, with tops parsed from an anchored blob and of any lesser depth, is the committed node where its bin lands |
| OnionSoundness.VerifiedLeafIsCommitted | web/src/onionpir_client.ts:2060-2268 | with tops of the committed depth it is the committed leaf at its bin, whatever siblings and inner levels were supplied |
| OnionSoundness.PassedIsCommitted | web/src/onionpir_client.ts:1950-2001 | if a result passes, with anchored tops of the committed depth, all its INDEX and DATA leaves are the committed ones |
| OnionSoundness.VerifiedExactly | web/src/onionpir_client.ts:589-691 | some row and some top m levels short, in a blob that parses and passes the anchor check for the committed super root, make a leaf pass iff it is that node |
| OnionSoundness.CommittedLeafVerified | web/src/onionpir_client.ts:589-691 | a committed leaf can pass in such a way iff the top is not short, or it has that node's hash |
| OnionSoundness.HonestTopsFetched | web/src/onionpir_client.ts:2003-2034 | the blob of the committed trees is parsed, passes the anchor check and gives their tops |
| OnionSoundness.HonestBatchPasses | web/src/onionpir_client.ts:1950-2001 | honest rows, tops and leaves: no abort, and every result with INDEX leaves passes |
| BhtmProof.LargestPowerOfTwoLessThan | web/src/bhtm-proof.ts:236-243 | the largest power of two below n |
| BhtmProof.PathFolds | web/src/bhtm-proof.ts:194-224 | the honest audit path folds to the tree hash and is used up |
| BhtmProof.HonestProofAccepted | web/src/bhtm-proof.ts:115-136 | every index of every leaf list has an accepted proof |
| BhtmProof.FoldsAgree | web/src/bhtm-proof.ts:194-224 | two foldings with one result have the same leaf and the same steps |
| BhtmProof.AcceptedProofUnique | web/src/bhtm-proof.ts:115-136 | two accepted proofs for one index, size and root are the same |
| BhtmProof.AcceptedIsCommitted | web/src/bhtm-proof.ts:115-136 | an accepted leaf is the committed leaf and its proof the audit path |
| BhtmProof.TakenExactly | web/src/bhtm-proof.ts:115-136 | a proof is taken iff the leaf has 32 bytes, the index is in range and the steps are 32-byte siblings on the index's sides, no more and no less |
| CashuSelect.GreedyPays | web/src/cashu-wallet.ts:221-236 | greedy takes held proofs worth the target less what is left |
| CashuSelect.GreedyComplete | web/src/cashu-wallet.ts:221-236 | over power-of-two amounts, greedy pays every payable amount exactly |
| CashuSelect.SubMultisetPayable | web/src/cashu-wallet.ts:221-236 | every sub-multiset's worth is payable |
| CashuSelect.PickFitting | web/src/cashu-wallet.ts:224-232 | the loop computes the greedy choice |
| CashuSelect.SelectProofs | web/src/cashu-wallet.ts:221-236 | the method computes the selection that the next two rows are about |
| CashuSelect.SelectedFromHeld | web/src/cashu-wallet.ts:221-236 | the selection is always among the held proofs and worth the target at least |
| CashuSelect.SelectionIsBest | web/src/cashu-wallet.ts:221-236 | for power-of-two proofs the selection has the least sum that suffices, and there is none iff the balance is short |
| CashuSelect.GreedyNeedsPowers | web/src/cashu-wallet.ts:221-236 | amounts that are not powers of two for which greedy misses a payable sum |
| CashuSelect.BinarySplit | web/src/cashu-wallet.ts:191-202 | distinct powers of two with the given sum |
| CashuSelect.PlanDenominations | web/src/cashu-wallet.ts:209-213 | powers of two worth the amount; at most 32 credit-sized groups and a binary spread; a wallet that holds them pays every number of credits exactly that the amount covers, up to 32 |
| CashuSelect.StockPaysExactly | web/src/cashu-wallet.ts:209-236 | after a top-up every number of credits up to the stocked count is paid exactly |
| CashuWallet.CashuStore.Receive | web/src/cashu-wallet.ts:179-185 | exactly the minted secrets are added to those held, earlier proofs stay where they were, and no top-up is pending |
| CashuWallet.CashuStore.Present | web/src/cashu-wallet.ts:255-272 | the selected proofs move from spendable to in flight, and are worth at least the credits asked for |
| CashuWallet.PresentsLeast | web/src/cashu-wallet.ts:255-260 | with power-of-two proofs there is a presentation iff the mint is known, credits are asked for and the balance covers them; its proofs are worth the least that does |
| CashuWallet.WorthIsWhole | web/src/cashu-wallet.ts:267-271 | the credits counted are the whole credits the proofs are worth |
| CashuWallet.CashuStore.ReconcileAsk | web/src/cashu-wallet.ts:277-280 | exactly the proofs of flights at least the grace old, none twice if the wallet holds none twice |
| CashuWallet.CashuStore.ReconcileSettle | web/src/cashu-wallet.ts:282-293 | unspent secrets become spendable, they and the spent ones leave the flights, whatever happened in between; the worth of each is returned |
| CashuWallet.InStateIs | web/src/cashu-wallet.ts:283-284 | the proofs sorted out for a state are exactly those the mint answered so |
| CashuWallet.ReceiveOnce | web/src/cashu-wallet.ts:179-185 | no secret is held twice after a receive iff the new part of the list has none twice |
| CashuWallet.MintedTwice | web/src/cashu-wallet.ts:179-185 | a new proof listed twice is held twice |
| CashuWallet.PresentOnce | web/src/cashu-wallet.ts:255-272 | presenting neither loses nor repeats a secret |
| CashuWallet.SettleOnce | web/src/cashu-wallet.ts:282-292 | settling repeats no secret and loses only those reported spent |
| CashuWallet.ActKeepsOk | web/src/cashu-wallet.ts:150-294 | every action of a page keeps each secret held once, takes away only what it reports spent, and a receive adds what was minted |
| CashuWallet.NothingLostNothingTwice | web/src/cashu-wallet.ts:150-294 | over every interleaving, no secret is held twice and every proof received is held unless a later answer of the mint reported it spent |
| Bech32Checksum.Polymod | web/src/hash.ts:169-180 | the loop folds the checksum step over the values |
| Bech32Checksum.StepApart | web/src/hash.ts:169-180 | linearity: two registers a small difference apart stay the shifted difference apart |
| Bech32Checksum.SymbolsAdd | web/src/hash.ts:190-196 | up to six symbols fed instead of zeros add the number they spell |
| Bech32Checksum.CreateChecksum | web/src/hash.ts:190-196 | six symbols that spell the residue combined with the constant |
| Bech32Checksum.ChecksumVerifies | web/src/hash.ts:359-365 | six appended symbols verify iff they are the checksum |
| Bech32Field.GeneratorsAre | web/src/hash.ts:170-170 | the five constants are BIP-173's generator polynomial times the powers of x, over the field of 32 elements |
| Bech32Field.StepDivides | web/src/hash.ts:172-177 | one symbol is one step of polynomial division by that generator |
| Bech32Field.PolymodIsRemainder | web/src/hash.ts:169-180 | the register is the remainder of the symbols with a one in front |
| Bech32Field.WrongSymbolNoticed | web/src/hash.ts:169-180 | one wrong symbol changes the register, whatever it is and wherever it stands |
| BitRegroup.FieldWraps | web/src/hash.ts:205-222 | wrapping at 32 bits never reaches the bits that are read |
| BitRegroup.Regroup | web/src/hash.ts:205-217 | the accumulator loop spells all but the remaining bits of the input number |
| BitRegroup.ConvertBits | web/src/hash.ts:205-222 | with padding the digits spell the number shifted up to a whole digit |
| BitRegroup.ConvertBitsNoPad | web/src/hash.ts:385-400 | refused iff a whole input digit or a set bit is left over; otherwise the digits spell the number |
| Bech32.HrpExpand | web/src/hash.ts:182-188 | high bits, a zero, low bits |
| Bech32.Encode | web/src/hash.ts:198-202 | the string is the prefix, a one, the data symbols and six symbols that are their checksum |
| Bech32.SplitSpelled | web/src/hash.ts:343-359 | splitting at the last one undoes spelling |
| Bech32.NoPadDecides | web/src/hash.ts:371-375 | the conversion finds a program iff the symbols are that program's groups |
| Bech32.Decode | web/src/hash.ts:343-382 | decodes exactly the strings that, in lower case, spell a program with the checksum of its version |
| Bech32.EncodedIsAccepted | web/src/hash.ts:198-382 | what the encoder writes is decoded to the same program |
| Bech32.AcceptedIsEncoded | web/src/hash.ts:343-382 | what is decoded could have been written by the encoder |
| Bip173.StandardExactly | web/src/hash.ts:343-382 | an ASCII string is one of BIP-173 for a program iff it is accepted for it, has at most 90 characters, all printable, and not letters of both cases |
| Bip173.MixedCaseDecodes | web/src/hash.ts:343-382 | for every program a string of mixed case that is decoded and not one of BIP-173 |
| Bip173.LongDecodes | web/src/hash.ts:343-382 | for every program over 50 bytes a string of more than 90 characters that is decoded and not one of BIP-173 |
| Bip173.ChecksumByVersion | web/src/hash.ts:359-379 | an accepted string has the checksum 1 for version 0 and that of BIP-350 for any other |
| Bech32Typos.TypoNoticed | web/src/hash.ts:343-382 | of two strings that differ in one character behind the same prefix, the decoder accepts both only if it is the version and the two versions use different checksums |
| Hex.HexToBytes | web/src/hash.ts:507-514 | byte pairs of an even string, read as parseInt reads them; odd lengths are refused |
| Hex.PairParsed | web/src/hash.ts:507-514 | every pair of characters is read as parseInt with radix 16 reads it, and stored as a byte |
| Hex.HexRoundTrip | web/src/hash.ts:507-519 | reading back written hex |
| Hex.EvenHexBytes | web/src/hash.ts:319-322 | the padded hex digits of a number read as its base-256 digits |
| Base58.Encode | web/src/hash.ts:227-244 | ones for leading zeros, then the base-58 digits |
| Base58.Decode | web/src/hash.ts:308-326 | zeros for leading ones, then the number's bytes; foreign characters are refused |
| Base58.Base58RoundTrip | web/src/hash.ts:227-326 | decoding undoes encoding for all byte strings |
| Address.Base58Check | web/src/hash.ts:247-254 | payload and checksum in base 58 |
| Address.Base58CheckDecode | web/src/hash.ts:329-340 | the payload iff it is followed by its checksum |
| Address.CheckRoundTrip | web/src/hash.ts:247-340 | a payload survives iff it is not empty |
| Address.FirstCharacter | web/src/hash.ts:227-244 | version 0 gives a leading '1', version 5 a leading '3' |
| Address.ScriptPubKeyToAddress | web/src/hash.ts:260-303 | a script of one of the five shapes gets the address of its kind and hash; others get none |
| Address.AddressToScriptPubKey | web/src/hash.ts:407-443 | what a trimmed address decodes to, on both paths |
| Address.AddressRoundTrip | web/src/hash.ts:260-443 | decoding an address of a script gives that script |
| Address.ThereAndBack | web/src/hash.ts:260-443 | every P2PKH, P2SH, P2WPKH, P2WSH and P2TR script survives the way to its address and back |
| Address.TrimBlanks | web/src/hash.ts:407-412 | trimming takes away the blanks around an address and nothing else |
| OnionUnpack.BitsPerCoeff | web/src/onion-unpack.ts:31-36 | the width that tiles the entry, if there is one |
| OnionUnpack.UnpackOnionPlaintext | web/src/onion-unpack.ts:55-101 | the bytes are the number whose digits are the coefficients' low bits; refused iff truncated, miscounted or untileable |
| OnionUnpack.PackBytesIntoCoefficients | crates/protocol/core/src/onion_unpack.rs:74-113 | the digits are the number whose bytes are the payload, cut to the entry; the coefficients are the digits cut to 64 bits; for every width the buffer holds |
| OnionUnpack.WidthsThatFit | crates/protocol/core/src/onion_unpack.rs:82-100 | of the widths below 128, exactly those up to 122, and 124, never need a 129th bit of buffer |
| OnionUnpack.PackUnpackRoundTrip | crates/protocol/core/src/onion_unpack.rs:18-19 | packing in Rust and unpacking in TypeScript give the payload back, zero-filled, iff no digit needs more than 64 bits |
| OnionUnpack.NinthByteLost | crates/protocol/core/src/onion_unpack.rs:74-113 | nine bytes in one coefficient do not come back unless the ninth is zero |
| WsChunks.SendChunked | web/src/ws.ts:328-355 | the frames sent, none over the size limit; refused iff there are more than 65535 |
| WsChunks.PiecesTogether | web/src/ws.ts:337-341 | the pieces concatenate to the message |
| WsChunks.ReceiveFrames | web/src/ws.ts:276-321 | the receiver's state after any number of a message's frames, below and above the cap |
| WsChunks.SentIsReceived | web/src/ws.ts:276-355 | a message is delivered once and whole iff it is short and unlike a chunk, or long and within the cap |
| WsChunks.ConversationReceived | web/src/ws.ts:276-355 | any conversation of such messages arrives in order |
| Turns.EndsExactly | web/src/ws.ts:199-216 | a loop over finitely many positions ends iff no turn starts where another did, and then within that many turns |
| WsRecords.ReadingEnds | web/src/ws.ts:199-219 | the record loop ends iff it meets no position twice, bytes outside the message read as 0 |
| WsRecords.ForwardReadingEnds | web/src/ws.ts:199-219 | with no prefix below -4 it ends iff none met is -4 |
| WsRecords.StayingPrefix | web/src/ws.ts:201-208 | the one prefix on which a turn stays put |
| WsRecords.StallsForever | web/src/ws.ts:199-219 | a message that begins with it is at position 0 after every number of turns |
| WsRecords.NegativeCanEnd | web/src/ws.ts:199-219 | a negative prefix on which the loop ends |
| WsRecords.PeelUndoesConcat | web/src/ws.ts:199-221 | on any concatenation of records the loop ends and peels the same records off |
| WsSocket.ManagedWebSocket.Deliver | web/src/ws.ts:199-268 | on every message on which the loop ends, the k-th answer goes to the k-th waiting caller, pongs to none |
| WsSocket.ManagedWebSocket.HandleChunkFrame | web/src/ws.ts:276-321 | the new reassembly state, and the answers of a completed message |
| WsSocket.ManagedWebSocket.OnMessage | web/src/ws.ts:98-110 | chunk frames are reassembled, other messages delivered |
| WsSocket.RecordsArrive | web/src/ws.ts:199-355 | records sent together, split or not, arrive as the same records |
| OnionFrames.EncodeRegisterKeys | web/src/onionpir_client.ts:352-369 | the frame, its precomputed size exactly filled |
| OnionFrames.EncodeBatchQuery | web/src/onionpir_client.ts:371-391 | the frame, its precomputed size exactly filled |
| OnionFrames.DecodeRegisterKeys | apps/server/src/onionpir.rs:71-108 | two blobs and the optional database byte |
| OnionFrames.DecodeBatchQuery | apps/server/src/onionpir.rs:146-185 | round, blobs and the optional database byte |
| OnionFrames.KeysRoundTrip | apps/server/src/onionpir.rs:54-108 | a key registration is decoded back and metered with its database, 0 included |
| OnionFrames.BatchRoundTrip | apps/server/src/onionpir.rs:127-185 | a batch is decoded back iff it has at most 255 queries, and is then metered with its database |
| OnionFrames.FramedRoundTrip | web/src/onionpir_client.ts:352-391 | the length in front of a payload below 4 GiB is right |
| OnionFrames.ClassifyOnionFrame | web/src/credits.ts:478-530 | a frame is priced iff the server meters it and at most one byte trails; kind and database then agree |
| OnionFrames.MeteredUnpriced | web/src/credits.ts:478-530 | a frame for the tree tops with two trailing bytes, which the server meters: it is not priced |
| OnionFrames.OpsByCode | apps/server/src/onionpir.rs:21-28 | which operation the server takes a payload for, by the code in its first byte |
| OnionFrames.MeteredKeys | apps/server/src/bin/unified_server/credit_meter.rs:143-146 | what the server meters for a key registration, by the frame's blobs |
| OnionFrames.MeteredBatch | apps/server/src/bin/unified_server/credit_meter.rs:147-164 | what the server meters for a batch, the table of a sibling query included, by the frame's blobs |
| OnionFrames.DecodeBatchResult | web/src/onionpir_client.ts:415-455 | taken iff round, group count and all lengths agree with nothing left over |
| OnionFrames.ResultRoundTrip | apps/server/src/onionpir.rs:197-210 | every result batch of up to 255 groups is one the client takes, unchanged |

## Left out

- Hash, signature, FHE and AEAD internals; SQLite, sockets, timers, localStorage and JSON, except the state they carry.
- The relay's metadata and pragma checks, snapshot queries and paging, announcements, byte-rate gate and byte budgets of a connection.
- The relay's rejections of unparsable publisher messages and rate-limit closes: they end a session without a positive answer.
- Publishing to several relays at once, receipts and the event-set digest.
- Several tabs sharing one wallet or one cached height, and failed writes of the height.
- `mergeDeltaIntoHarmonySnapshot`, and the metadata a query result carries besides entries, total, whale flag and raw data.
- Termination of the group derivations, which depends on the hash: candidate groups are given, in range.
- WebSocket request timeouts, heartbeats and the secure frame codec.
- Price tables, top-ups and credit balances, and the token that a presentation encodes.
- Key registration and the entry-size comparison before a sub-tree is verified; of a response frame, whether it decodes.
- Of a tree top, the first cached level and the node count, which nothing reads.
- Bech32.Decode: lower-casing is a parameter; the round trips ask of it only what it does to ASCII.
- DirectoryStore.Store.constructor: the checks of the configuration, and opening an existing database, are not modelled.
- DirectoryStore.Store.FullStartupValidation: the pragma, schema, integrity and metadata checks before the scan are not modelled.
- SyncMerge.MergeDeltaIntoSnapshot: of a result, only entries, total, whale flag and raw data are modelled.
- SyncController.Controller.Execute: progress callbacks and the per-step results are not modelled.
- Bech32Checksum.Polymod: masks and shifts are remainders and products, exact since registers stay below 2^30; values are below 2^30.
- OnionUnpack.PackBytesIntoCoefficients: for coefficients of up to 122 bits, or of 124. At 123 and 125 to 127 a byte can be shifted out of the 128-bit buffer; from 128 on the mask overflows.
- OnionSoundness.VerifiedExactly: for trees of 32-byte nodes and at most 256 levels and bins below 2^32 less the arity, so that a top can be written down.
- WsSocket.ManagedWebSocket.Deliver: for messages on which the loop ends; on all others it does not return. The optional frame codec and request timeouts are not modelled.
- CashuWallet.CashuStore.Present: the token that encodes the proofs is not modelled.
- BhtmProof.PathFolds: the shared proof index is a value passed along.
- Codec.DecodeDeltaData: numbers above 2^53 are rounded to even doubles; other floating-point effects do not occur.
- Cuckoo.CuckooPlace: candidate lists are in range and of the announced length, as the group derivations make them.
