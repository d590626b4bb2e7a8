# Verified model of the SCM mesh messenger

A Dafny model of the replicated stores and step-by-step protocols of the messenger: the drift
reconciliation protocol with its sketch, the message stores of the CLI and of the mobile bridge,
the connection ledger and its gossip, contact merging, the outbox and message ownership, the
WiFi Aware handshake, transport ranking, message requests and identity backup. Mutable objects
are classes whose methods are proved equal to specification functions; the results are lemmas
about those functions and about whole runs.

| file | what it models |
|---|---|
| `Sketch`, `SketchDecode`, `SketchWire`, `SketchTwins` | the invertible Bloom lookup table: its content as a set, peeling, wire form, keys it cannot tell apart |
| `MeshStore` | the capacity-bounded drift store |
| `DriftSync` | the offer/response/completion exchange between two stores |
| `WifiAware` | data-path requests, confirmations, rejections and timeouts as interleaved atomic steps |
| `SledTree`, `Lex`, `Text` | an ordered tree of string keys, byte order, substrings |
| `CliHistory` | the CLI history with its time-ordered keys |
| `MobileHistory`, `MobileRetention`, `MobileVisibility`, `MobileManager` | the mobile history, its retention, hiding and delivery marks |
| `Multiaddr`, `Bootstrap` | address stripping, bootstrap merging, the configured node list |
| `LedgerEntry`, `Ledger`, `LedgerHistory`, `LedgerGossip`, `LedgerPacing` | backoff, ledger histories and what they leave known, gossip merging and exchange, the spacing of retries |
| `Contacts` | last-writer-wins contact merging and recovery |
| `PersistentOutbox`, `OutboxRuns` | the sled outbox the daemon opens, and whole runs of the daemon over it |
| `Outbox` | the in-memory outbox: the core's, and the daemon's fallback when sled does not open |
| `Ownership` | the split of prepared messages between the core's outbox and drift custody |
| `TransportPaths` | path ranking and its two selectors |
| `MessageRequests` | pending requests grouped by sender, accept and reject |
| `Hex`, `RatchetSessions`, `IdentityBackup` | hexadecimal text, session snapshots, backup export and import |
| `Sequences` | filtering, stable sorting and truncation with their laws |

Conventions. Strings are sequences of code points, whose order is the order of their UTF-8 bytes.
Message ids and sketch fields are sequences of bits. The clock, blake3, lowercasing, UUID parsing,
priority scores, JSON and the cipher are parameters; where a law of one is used it is written down
(`IdentityBackup.Lawful`). Iteration over a hash map is any order, chosen with `:|`. Reliabilities
are hundredths, so that no rounding occurs. Counters are unbounded except where the source
saturates or narrows them, which is written out (ledger backoff, sketch counts on the wire).

Where the code does not do what its comments or its callers suggest, the model follows the code:

- A sketch cell's `key_check` is documented as a hash of the keys but repeats the first four bytes
  of `key_sum`, so on tables built by inserting, and on everything peeled from them, the check in
  `decode` never fails (`Sketch.KeyCheckRepeatsKeySum`, `SketchDecode.BuiltTablesPassTheCheck`). Keys that
  peeling cannot reach go unnoticed when their counts cancel (`SketchDecode.DecodeIsExact`), and for
  every hash there are two ids that do (`SketchTwins.TwinKeysForEveryHash`).
- The comment on `merge` calls it commutative. Own entries win under a shared id, so with distinct
  scores it is exactly when every shared id with two different envelopes has both evicted
  (`MeshStore.MergeCommutesExactlyWhen`); per-node fields such as the hop count break it
  (`MeshStore.HopCountsBreakCommutation`).
- Sketch counts are cut to one byte on the wire, and more than 65535 cells do not encode, so an
  offer fails from 5460 messages on (`SketchWire.WireRoundTrip`, `DriftSync.SyncSession.Initiate`).
- A WiFi Aware request's cleanup removes whatever sender is pending for its peer, also one that a
  later request put there (`WifiAware.CleanupStealsExactlyWhen`, `WifiAware.StolenSender`).
- Among records of one timestamp, retention keeps the smaller ids while queries list the larger
  ids first (`MobileRetention.RetentionKeepsRecentExactlyWhen`).
- The CLI queries push before they check the limit, so limit 0 behaves as limit 1
  (`CliHistory.MessageHistory.ScanBackward`); marking delivered by id finds the oldest record.
- The mobile search stops at its limit in id order, so it can miss newer matches
  (`MobileVisibility.SearchCanMissNewer`, `MobileVisibility.SearchFindsNewestExactlyWhen`).
- Stripping an address that was given a peer id again fails exactly for addresses ending in
  "/p2p" (`Multiaddr.RejoinStrips`).
- The persistent outbox finds a peer's queue by key prefix and also drains recipients whose name
  continues with an underscore (`PersistentOutbox.DrainIsExactlyWhen`). Only the recipient's own
  limit is checked, so an accepted message breaks a limit exactly when its key is new and it matches
  the prefix of another peer that is full (`PersistentOutbox.LimitsKeptExactlyWhen`,
  `PersistentOutbox.CollisionBreaksLimit`). A queue is listed by message id, not in the order of
  acceptance (`OutboxRuns.DrainKeepsOrderExactlyWhen`, `OutboxRuns.SmallerIdOvertakes`), and a message
  under a stored key replaces the stored one, even one for another recipient
  (`OutboxRuns.EnqueueConservesExactlyWhen`, `OutboxRuns.KeysCanClash`).
- Preparing and at once marking a status message can evict another message from a full drift
  store (`Ownership.StatusViaDrift`), and leaves an empty queue in the outbox
  (`Ownership.StatusViaOutbox`). Outbox entries are stamped in milliseconds and expired in seconds
  (`Ownership.SweepNeverReachesPrepared`).
- Two ledgers that exchange snapshots need not agree on an address's topics: an entry not seen for
  seven days is not shared, and its topics stay behind (`LedgerGossip.TopicsAgreeExactlyWhen`,
  `LedgerGossip.StaleTopicStaysBehind`).
- The comment on merging remote contacts promises that blocks win over unblocks; the code compares
  `added_at` only, so a later live record revives a removed contact
  (`Contacts.TombstoneSurvivesExactlyWhen`, `Contacts.LaterRecordRevives`).
- The strict session loader accepts damaged chain keys (`RatchetSessions.ChainDamageIsAccepted`).

## Model

| member | source | states |
|---|---|---|
| Sketch.ToggleKey | core/src/drift/sketch.rs:95-124 | the three-hash insert or remove loop adds exactly one key's contribution to every cell it hits |
| Sketch.InsertHolds | core/src/drift/sketch.rs:108-115 | inserting a key turns a table holding a set into the table holding that set and the key |
| Sketch.MinusHolds | core/src/drift/sketch.rs:127-147 | subtracting two tables of equal size gives the table of the symmetric difference, signed by side |
| Sketch.SubtractionIsDifference | core/src/drift/sketch.rs:127-147 | cell by cell, common keys cancel: what is left depends on the two sets' difference only |
| Sketch.OneSidedCount | core/src/drift/sketch.rs:25-68 | a cell hit from one side only counts the hits of that side, with its sign |
| Sketch.KeyCheckRepeatsKeySum | core/src/drift/sketch.rs:55-61 | for every set the check field is the first 32 bits of the key sum |
| SketchDecode.Decode | core/src/drift/sketch.rs:150-219 | the peeling loop computes the recursive peeling, with ten iterations per cell |
| SketchDecode.DecodeStops | core/src/drift/sketch.rs:150-219 | on any table, the first moment with no pure cell or a damaged one, whose check is not the start of its key, decides: a mismatch if damaged, one key per peel if all counts are zero, unpeelable otherwise, and the iteration limit if that comes first |
| SketchDecode.EndlessDecode | core/src/drift/sketch.rs:150-219 | a decode that never gets there ends at the iteration limit |
| SketchDecode.PureCellIsGenuine | core/src/drift/sketch.rs:150-219 | on any table holding a difference, a cell that one key hits once looks pure, names that key, and its sign says the key's side |
| SketchDecode.StuckMeansTangled | core/src/drift/sketch.rs:150-219 | on any table, when no cell looks pure everything left is tangled, and the table passes for empty iff all its counts cancel |
| SketchDecode.DecodeIsExact | core/src/drift/sketch.rs:150-219 | when each cell the decoder picks is hit exactly once by what is left, decoding lists everything outside the tangle iff the tangle's counts cancel and fails otherwise, within the iteration bound; it lists the whole difference, each key once, iff that is peelable |
| SketchDecode.HonestPeelsGenuinely | core/src/drift/sketch.rs:150-219 | that hypothesis holds whenever no part of the difference has a cell which only looks pure |
| SketchDecode.PeelableFits | core/src/drift/sketch.rs:70-105 | a nonempty peelable difference is smaller than the number of cells it touches |
| SketchDecode.CapacityExactlyWhen | core/src/drift/sketch.rs:70-105 | some hash makes a difference peelable in n cells iff it has fewer than n keys |
| SketchDecode.UnmixedDecodes | core/src/drift/sketch.rs:150-219 | a case of it: when no cell is hit from both sides, decoding succeeds iff the difference is peelable |
| SketchDecode.AstrayIsNeverRight | core/src/drift/sketch.rs:150-219 | if at any point of the decode the picked cell names a key not left in the difference, or on the wrong side, the answer is wrong |
| SketchDecode.KeyCheckNeverFires | core/src/drift/sketch.rs:150-219 | from a table whose checks repeat its key sums no peeling, genuine or not, ends in a check mismatch |
| SketchDecode.BuiltTablesPassTheCheck | core/src/drift/sketch.rs:150-219 | decoding a table that holds a set, mixed cells or not, never ends in a check mismatch |
| SketchDecode.TwinKeysVanish | core/src/drift/sketch.rs:150-219 | two keys of opposite sides hitting the same cells decode to no difference at all |
| SketchTwins.TwinKeysForEveryHash | core/src/drift/sketch.rs:95-105 | for every hash and every table size a u16 can carry, two different ids hit exactly the same cells |
| SketchWire.WireRoundTrip | core/src/drift/sketch.rs:223-286 | encoding succeeds iff there are at most 65535 cells; decoding gives the counts modulo 256 back, and the table itself iff all counts fit a byte |
| SketchWire.WireLayout | core/src/drift/sketch.rs:223-286 | 16 bits of cell count, then for each cell 8 bits of count, its key sum and its check, at fixed places |
| SketchWire.EncodedBit | core/src/drift/sketch.rs:223-286 | numbers are written with the lowest bit first |
| MeshStore.Store.EvictIfOverBudget | core/src/drift/store.rs:226-244 | the eviction loop leaves exactly the capacity, drops nothing that outranks a survivor, and with distinct scores keeps exactly the top ones |
| MeshStore.Store.Insert | core/src/drift/store.rs:107-114 | duplicates are ignored, new envelopes are added and the lowest score evicted |
| MeshStore.Store.Merge | core/src/drift/store.rs:128-135 | the keyed union with own envelopes winning, trimmed to the capacity; with distinct scores exactly its top entries |
| MeshStore.Store.Remove | core/src/drift/store.rs:182-184 | removes one id and says whether it was there |
| MeshStore.Store.RemoveExpired | core/src/drift/store.rs:189-208 | keeps exactly the envelopes without expiry or expiring later |
| MeshStore.SurvivesSweepsExactlyWhen | core/src/drift/store.rs:189-208 | through any number of sweeps an envelope stays, unchanged, iff its expiry is 0 or later than all of them |
| MeshStore.KeptSize | core/src/drift/store.rs:226-244 | a bounded store holds as many envelopes as fit |
| MeshStore.KeptOutranksDropped | core/src/drift/store.rs:226-244 | every kept envelope scores above every dropped one |
| MeshStore.KeptAbsorbs | core/src/drift/store.rs:226-244 | evicting from one set of envelopes before joining another does not change what is kept of both |
| MeshStore.BoundedMergeIsSemilattice | core/src/drift/store.rs:116-135 | on keyed stores of one capacity with distinct scores and equal envelopes under equal ids, merging is commutative, associative and idempotent although it evicts |
| MeshStore.MergeCommutesExactlyWhen | core/src/drift/store.rs:116-135 | at any capacity, with distinct scores, the two merge orders agree iff every shared id with two different envelopes has both evicted |
| MeshStore.FittingMergeCommutesExactlyWhen | core/src/drift/store.rs:116-135 | while everything fits, whatever the scores, the two merge orders agree iff shared ids hold equal envelopes |
| MeshStore.HopCountsBreakCommutation | core/src/drift/store.rs:116-135 | one message held with two hop counts makes the merge orders differ |
| MeshStore.InsertAbsorbs | core/src/drift/store.rs:107-114 | inserting into a store that already evicted gives what one eviction at the end would |
| DriftSync.BuildSketch | core/src/drift/sync.rs:174-214 | inserting the ids in any order gives the one table holding them |
| DriftSync.SyncSession.Initiate | core/src/drift/sync.rs:174-214 | an offer is made iff the session is fresh and at most 5459 messages are stored, and is read as a sketch of 12 cells per message and 24 more; otherwise nothing changes |
| DriftSync.OfferHasRoom | core/src/drift/sync.rs:174-214 | some hash makes a difference peelable in an offer iff it has at most twelve times the offered messages and 23 more keys |
| DriftSync.SyncSession.Respond | core/src/drift/sync.rs:217-290 | the response carries the sketch and the envelopes the initiator misses; a failed response leaves the phase |
| DriftSync.SyncSession.CompleteSync | core/src/drift/sync.rs:293-364 | decodes against the sketch saved at the offer, whatever the store is now; the completion carries the envelopes the responder misses, and any failure changes nothing |
| DriftSync.DifferenceDecodes | core/src/drift/sync.rs:217-290 | when that decode peels cells hit once, decoding one's sketch against the peer's names both sides' missing ids exactly, outside the tangle, or fails if the tangle's counts do not cancel |
| DriftSync.MergeEnvelopes | core/src/drift/sync.rs:374-382 | when everything fits all envelopes are added and the new ones counted; over capacity, with distinct scores, the result is the unbounded union cut back once |
| DriftSync.ExchangeReconciles | core/src/drift/sync.rs:174-364 | when the sketches fit the wire and the decode peels cells hit once, the exchange goes through iff the counts of the unreachable part cancel, and then each side is sent exactly what it lacks except that part; nothing is missed iff the difference is peelable |
| DriftSync.ExchangedUnion | core/src/drift/sync.rs:174-382 | under the same conditions, applying the exchanged envelopes gives each side the union less the unreachable part; both hold the same ids iff that is empty |
| DriftSync.HonestSketchesFit | core/src/drift/sync.rs:174-364 | those conditions hold when the offer is not too long, the counts fit a byte and no part of the difference has a cell that only looks pure |
| DriftSync.ExchangeIsSound | core/src/drift/sync.rs:174-364 | for every hash and every two stores only envelopes the other side holds are handed over |
| DriftSync.SomeExchangeMissesAMessage | core/src/drift/sync.rs:174-364 | for every hash there are two stores of one message each, with different ids, whose whole exchange over the wire succeeds and hands nothing over |
| DriftSync.Exchange | core/src/drift/sync.rs:174-364 | running the three messages through two sessions has the specified outcome |
| DriftSync.Synchronize | core/src/drift/sync.rs:174-382 | for every hash, with room no message is lost or invented and a failure changes nothing; when the sketches fit the exact outcome on both stores, also over capacity |
| WifiAware.StepSafe | core/src/mobile_bridge.rs:1839-1861 | every atomic step keeps: pending entries belong to requests in flight, deliveries are genuine, no confirmation is used twice |
| WifiAware.RunSafe | core/src/mobile_bridge.rs:1920-1952 | so does every interleaving |
| WifiAware.HandshakeSafety | core/src/mobile_bridge.rs:1839-1952 | in every run the pending map is empty when nothing is in flight, and an address obtained came from a confirmation for the same peer made after the request |
| WifiAware.OutcomeIsFinal | core/src/mobile_bridge.rs:1920-1952 | a request that ended keeps its outcome whatever happens later |
| WifiAware.FailureTellsItsCause | core/src/mobile_bridge.rs:1920-1952 | in every run a refused request ends as rejected and no other way, an accepted one never as rejected, and one whose timer elapsed as timed out once it is cleaned up |
| WifiAware.OutcomesAreExplained | core/src/mobile_bridge.rs:1920-1952 | in every run from the start each stage and outcome of a request was preceded by the platform's answer and the events it names |
| WifiAware.AddressWasConfirmed | core/src/mobile_bridge.rs:1839-1952 | an address a request ends with was confirmed, by an action after the one that made the request, for the same peer |
| WifiAware.ConfirmationResolves | core/src/mobile_bridge.rs:1839-1861 | a confirmation resolves the peer's pending request and no other, and the waiting request returns that address |
| WifiAware.UnparseableIrrelevant | core/src/mobile_bridge.rs:1839-1861 | leaving the unparseable confirmations out of a run does not change where it ends |
| WifiAware.WaitingDeliverySticks | core/src/mobile_bridge.rs:1920-1952 | an address delivered to a waiting request is the one it will return |
| WifiAware.CleanupStealsExactlyWhen | core/src/mobile_bridge.rs:1920-1952 | a cleanup drops another request's sender iff its own is gone and one is pending for the peer |
| WifiAware.StolenSender | core/src/mobile_bridge.rs:1920-1952 | a six-step run in which a request loses its sender to an earlier request's rejection |
| WifiAware.SerialNeverLosesSender | core/src/mobile_bridge.rs:1920-1952 | if a peer is requested again only after its request ended, no request loses its sender |
| WifiAware.PlatformWifiAwareBridge.InsertSender | core/src/mobile_bridge.rs:1920-1932 | inserting a sender is the insert step |
| WifiAware.PlatformWifiAwareBridge.HandleDataPathConfirmed | core/src/mobile_bridge.rs:1839-1861 | handling a confirmation is the confirm step |
| WifiAware.PlatformWifiAwareBridge.CleanupAfterFailure | core/src/mobile_bridge.rs:1933-1952 | cleaning up after rejection or timeout is that step, which `FailureTellsItsCause` pins to its outcome |
| CliHistory.KeyOrder | cli/src/history.rs:96-107 | for all u64 timestamps the key order is the order on timestamp, then id |
| CliHistory.KeyInjective | cli/src/history.rs:96-107 | equal keys mean equal timestamp and id |
| CliHistory.ReverseScanIsSort | cli/src/history.rs:123-172 | walking the tree backwards lists any selection sorted newest first |
| CliHistory.NewestAnswers | cli/src/history.rs:123-172 | a query returns stored records that are asked for, latest first; one that is missing is earlier than all returned, and the limit is used up |
| CliHistory.MessageHistory.Add | cli/src/history.rs:96-107 | stores the record under its key and keeps the tree keyed |
| CliHistory.MessageHistory.Get | cli/src/history.rs:111-120 | finds the first record with the id in key order |
| CliHistory.MessageHistory.ScanBackward | cli/src/history.rs:123-172 | the early-exit loop returns the newest matching records, at least one for limit 0 |
| CliHistory.MessageHistory.Recent | cli/src/history.rs:123-146 | filter by the receiver of sent and the sender of received messages, sort by timestamp and id descending, take the limit |
| CliHistory.MessageHistory.Search | cli/src/history.rs:154-172 | the same for records containing the query in lower case |
| Text.ContainsExactlyWhen | cli/src/history.rs:154-172 | a text contains a query iff it spells something, the query, and something |
| CliHistory.FindByIdIsOldest | cli/src/history.rs:111-120 | a lookup by id returns the oldest record with it |
| CliHistory.MarkDeliveredRewritesOne | cli/src/history.rs:198-204 | marking delivered rewrites that oldest record in place and nothing else |
| CliHistory.MessageHistory.MarkDelivered | cli/src/history.rs:198-204 | the method does that |
| MobileRetention.RetentionComposes | core/src/mobile_bridge.rs:2529-2557 | retention to m, then to n, is retention to the smaller |
| MobileRetention.RetentionCommutesWithPruning | core/src/mobile_bridge.rs:2529-2582 | retention and age pruning commute |
| MobileRetention.RetentionKeepsPrefix | core/src/mobile_bridge.rs:2529-2557 | exactly the first min(total, n) records in retention order survive |
| MobileRetention.NothingNewerIsDropped | core/src/mobile_bridge.rs:2529-2557 | no dropped record is newer than a survivor |
| MobileRetention.RetentionKeepsRecentTimestamps | core/src/mobile_bridge.rs:2285-2340 | for k <= n the timestamps of the k newest records are unchanged, ties or not |
| MobileRetention.RetentionKeepsRecentExactlyWhen | core/src/mobile_bridge.rs:2285-2340 | for k <= n the records themselves are unchanged iff no timestamp straddles the cut or all k are newer than it |
| MobileRetention.TieChangesListing | core/src/mobile_bridge.rs:2529-2557 | on a tie the first listed record of the cut's timestamp is a different one afterwards |
| MobileRetention.RetentionShortensRecent | core/src/mobile_bridge.rs:2285-2340 | for every peer filter and limit, hidden included or not, the query then shows a prefix of what it showed iff the cut parts no two listed records of one timestamp or the query stops before them |
| MobileVisibility.HideLaws | core/src/mobile_bridge.rs:2406-2453 | hiding or unhiding again changes and counts nothing, and the later of two calls decides |
| MobileHistory.CaseIgnoredExactlyWhen | core/src/mobile_bridge.rs:2406-2453 | peer ids match when they differ in the case of the letters A to Z only |
| MobileVisibility.HiddenPeerIsNotListed | core/src/mobile_bridge.rs:2303-2340 | after hiding, no query returns a record of the peer in any letter case |
| MobileVisibility.HiddenPeerIsNotFound | core/src/mobile_bridge.rs:2373-2402 | nor does a search |
| MobileVisibility.OtherPeersUnaffected | core/src/mobile_bridge.rs:2303-2340 | other peers' conversations read as before |
| MobileVisibility.StatsIgnoreHiding | core/src/mobile_bridge.rs:2492-2513 | statistics are invariant under hiding, and sent plus received is the total |
| MobileVisibility.MarkDeliveredView | core/src/mobile_bridge.rs:2455-2461 | the persisted legacy migration is invisible: queries see one flag change, and keys stay ids |
| MobileVisibility.MarkDeliveredInRecent | core/src/mobile_bridge.rs:2285-2340 | recent queries return the same rows in the same order with that flag |
| MobileVisibility.MarkDeliveredInSearch | core/src/mobile_bridge.rs:2373-2402 | searches return the same rows with that flag |
| MobileVisibility.MarkDeliveredInGet | core/src/mobile_bridge.rs:2271-2283 | reading any id back differs in that flag only |
| MobileVisibility.StoredThenFetched | core/src/mobile_bridge.rs:2262-2283 | a stored record is read back whole under its id, and no other id reads differently |
| MobileVisibility.SearchFindsNewestWhenAllFit | core/src/mobile_bridge.rs:2373-2402 | when at most limit records match, a search returns the records of the newest-first query, in id order |
| MobileVisibility.SearchFindsNewestExactlyWhen | core/src/mobile_bridge.rs:2373-2402 | a search returns the records of the newest-first query iff the matches up to the limit, in id order, come before all others in query order |
| MobileVisibility.SearchCanMissNewer | core/src/mobile_bridge.rs:2373-2402 | of two matches with limit 1 the one with the smaller id is found though the other is newer |
| MobileVisibility.MarkDeliveredStats | core/src/mobile_bridge.rs:2492-2513 | the undelivered count drops by one iff the record was stored undelivered |
| MobileManager.HistoryManager.Add | core/src/mobile_bridge.rs:2262-2269 | stores under the id and keeps the tree keyed |
| MobileManager.HistoryManager.RecentInternal | core/src/mobile_bridge.rs:2303-2340 | the scan, sort and truncate is the newest-first query, with all that `NewestAnswers` promises |
| MobileHistory.NewestAnswers | core/src/mobile_bridge.rs:2303-2340 | a query returns stored records of the asked peer, hidden ones only if asked for, latest first; one that is missing is earlier than all returned, and the limit is used up |
| MobileHistory.RoomyQueryListsAll | core/src/mobile_bridge.rs:2285-2340 | with room for everything a record is listed iff it is stored, is of the asked peer and is not hidden, or hidden ones were asked for |
| MobileManager.HistoryManager.Search | core/src/mobile_bridge.rs:2373-2402 | the early-exit loop returns the first matches in id order, with all that `FoundAnswers` promises |
| MobileHistory.FoundAnswers | core/src/mobile_bridge.rs:2373-2402 | a search returns visible stored matches by ascending id; a match that is missing has a larger id than all returned, and the limit is used up |
| MobileManager.HistoryManager.RewriteHidden | core/src/mobile_bridge.rs:2406-2453 | collecting and rewriting sets the flag on all of the peer's records and counts the changed ones |
| MobileManager.HistoryManager.MarkDelivered | core/src/mobile_bridge.rs:2455-2461 | reads, sets the flag and writes back; an unknown id changes nothing |
| MobileManager.HistoryManager.Statistics | core/src/mobile_bridge.rs:2492-2513 | the counting loop counts the stored records, the sent, the received and the undelivered ones |
| MobileManager.HistoryManager.EnforceRetention | core/src/mobile_bridge.rs:2529-2557 | sorting and dropping the tail keeps the n newest and counts the rest |
| MobileManager.HistoryManager.PruneBefore | core/src/mobile_bridge.rs:2562-2582 | keeps exactly the entries with a timestamp of at least the cutoff and counts the rest |
| MobileManager.StableSortIsShelf | core/src/mobile_bridge.rs:2529-2557 | a stable sort by timestamp alone breaks ties by ascending id |
| Multiaddr.StripIdempotent | cli/src/ledger.rs:413-419 | a stripped address contains no peer id part; stripping again changes nothing |
| Multiaddr.ParseIsLossless | cli/src/bootstrap.rs:91-98 | address, separator and id spell the input again |
| Multiaddr.RejoinStrips | cli/src/config.rs:271-277 | a stripped address given any peer id strips back to itself iff it does not end in "/p2p" |
| Bootstrap.FirstOfEachLaws | cli/src/bootstrap.rs:102-123 | the merge is an order-preserving selection, one node per address, no address missing |
| Bootstrap.DefaultsWin | cli/src/bootstrap.rs:102-123 | nodes listed earlier are kept as they are |
| Bootstrap.MergeBootstrapNodes | cli/src/bootstrap.rs:102-123 | the two loops with their seen-set compute that merge |
| Bootstrap.Config.AddBootstrapNode | cli/src/config.rs:280-293 | appends iff the stripped address is new and keeps addresses distinct |
| Bootstrap.Config.RemoveBootstrapNode | cli/src/config.rs:296-310 | removes every node of the address and fails iff there is none |
| Bootstrap.AddThenRemove | cli/src/config.rs:280-310 | removing the address just added restores the list |
| Bootstrap.RemoveUnderAnyPeerId | cli/src/config.rs:280-310 | removing it under any other peer id restores the list iff the stripped address does not end in "/p2p" |
| LedgerEntry.ClampIsInvisible | cli/src/ledger.rs:117-132 | the clamped, saturating backoff is the mathematical min(5*2^(n-1), 300) for every n >= 1 |
| LedgerEntry.FailureKeepsIdeal | cli/src/ledger.rs:117-132 | recording a failure keeps an entry on that schedule, and the next attempt is due exactly when it has passed |
| LedgerPacing.FailuresArePacedInHistory | cli/src/ledger.rs:117-270 | in any ledger history, if an address fails only when an attempt is due, its n-th failure since it was last reached comes at least 5*(2^(n-1)-1), from 7 on 315+300*(n-7), seconds after the first, whatever gossip, topics and other addresses do in between |
| LedgerPacing.ConnectionEndsStreak | cli/src/ledger.rs:235-248 | after a connection the address is due at once, without failures, and seen now |
| LedgerEntry.FailuresArePaced | cli/src/ledger.rs:117-142 | the same spacing for the failures of one entry |
| LedgerEntry.PacingEndsWithTheClock | cli/src/ledger.rs:117-142 | the clock bound in that result is needed |
| Ledger.EveryHistoryIsGood | cli/src/ledger.rs:213-270 | after every history of ledger events keys are stripped addresses equal to their entry's, the backoff is on schedule, and it is 0 iff no failure is pending |
| LedgerHistory.KnownExactlyWhen | cli/src/ledger.rs:213-387 | after every history an address is known iff a connection, a bootstrap mark not naming the own peer id, or gossip introduced it |
| LedgerHistory.FirstSeenIsIntroduction | cli/src/ledger.rs:213-387 | it was first seen at its first introduction |
| LedgerHistory.BootstrapExactlyWhen | cli/src/ledger.rs:213-387 | it is a bootstrap address iff some event marked it |
| LedgerHistory.ObservedExactlyWhen | cli/src/ledger.rs:235-387 | the peer ids observed there are those connected to and, if it was learned by gossip, the one of the first entry about it |
| LedgerHistory.TopicExactlyWhen | cli/src/ledger.rs:252-387 | its topics are those seen while it was known and those gossiped with it |
| LedgerHistory.LastSeenHasCause | cli/src/ledger.rs:213-387 | its last_seen is a connection, a first bootstrap mark or a gossiped sighting |
| LedgerHistory.LastSeenIsLatest | cli/src/ledger.rs:213-387 | with a clock that does not run backwards and no gossip from the future it is the latest of them |
| LedgerGossip.MergeIsJoin | cli/src/ledger.rs:336-387 | the merge loop is a join: keys are the union, last_seen the maximum, topics the union, a known peer id kept and otherwise an offered one taken |
| LedgerGossip.MergeOrderIrrelevant | cli/src/ledger.rs:336-387 | keys, last_seen and topics do not depend on the order or repetition of the input |
| LedgerGossip.MergeIdempotent | cli/src/ledger.rs:336-387 | merging the same batch again changes nothing |
| LedgerGossip.GossipKeepsPrivateState | cli/src/ledger.rs:336-387 | gossip never touches failures, backoff or any other private field |
| LedgerGossip.ReceiverSeesLatest | cli/src/ledger.rs:312-387 | merging a snapshot gives the later of the two last_seen for every address fresh on either side |
| LedgerGossip.ExchangeConverges | cli/src/ledger.rs:312-387 | any two ledgers grown from empty that exchange snapshots agree on last_seen for every address fresh on either side, and know all topics of either side for one both pass on |
| LedgerGossip.ReceiverLearns | cli/src/ledger.rs:312-387 | merging a snapshot teaches exactly the addresses the sender passes on, bootstrap ones or seen within 604800 seconds, their topics, and their peer id where none was known |
| LedgerGossip.TopicsAgreeExactlyWhen | cli/src/ledger.rs:312-387 | after an exchange both sides know the same topics of an address iff neither held back a topic new to the other |
| LedgerGossip.StaleTopicStaysBehind | cli/src/ledger.rs:312-387 | a topic of an address one side saw too long ago does not reach the other side, which has seen the address just now |
| LedgerGossip.TopicPropagates | cli/src/ledger.rs:252-387 | after a topic was seen, a ledger merging a later snapshot knows it iff it did before or the sender knew the address and passes it on |
| LedgerGossip.BootstrapPropagates | cli/src/ledger.rs:213-387 | an address once marked as bootstrap reaches every ledger merging any later snapshot, however old its last_seen |
| LedgerGossip.ConnectionPropagates | cli/src/ledger.rs:235-387 | after a connection, any ledger merging a snapshot taken within seven days knows the address, sees it no earlier, and has its peer id unless it had another |
| LedgerGossip.RefreshEntry | cli/src/ledger.rs:345-370 | the in-place update of a known entry |
| LedgerGossip.ConnectionLedger.MergeSharedEntries | cli/src/ledger.rs:336-387 | the loop computes the merge and returns the growth in keys |
| LedgerGossip.ConnectionLedger.ToSharedEntries | cli/src/ledger.rs:312-333 | the snapshot holds exactly the entries seen within seven days or marked as bootstrap; `ReceiverLearns` says what it carries |
| Contacts.MergeOnlyAdvances | core/src/contacts_bridge.rs:282-309 | merging removes no contact, lowers no added_at and unsets no local nickname or verification |
| Contacts.MergeIdempotent | core/src/contacts_bridge.rs:282-309 | merging the same list again updates none and changes nothing |
| Contacts.MergeByKey | core/src/contacts_bridge.rs:282-309 | each peer's result is decided by its own two records alone |
| Contacts.LastWriterWins | core/src/contacts_bridge.rs:282-309 | field by field: the larger added_at wins, the own record on a tie, and a winning remote record is completed only by a local nickname or verification it lacks |
| Contacts.CountsTheNews | core/src/contacts_bridge.rs:282-309 | with one record per peer the count is the number of remote records that are new or newer |
| Contacts.TombstoneSurvivesExactlyWhen | core/src/contacts_bridge.rs:282-309 | a merge leaves a tombstone iff both records are, or the tombstone is the one that wins by added_at |
| Contacts.LaterRecordRevives | core/src/contacts_bridge.rs:282-309 | a live record added later undoes a tombstone |
| Contacts.ReplicasAgree | core/src/contacts_bridge.rs:145-159 | after exchanging lists two replicas hold the same peers and added_at, and all shared fields when equal stamps mean equal records |
| Contacts.ExchangeSettles | core/src/contacts_bridge.rs:282-309 | a second exchange changes nothing |
| Contacts.RecoveryIdempotent | core/src/contacts_bridge.rs:255-279 | recovering twice from the same peers is recovering once |
| Contacts.ContactManager.MergeRemoteContacts | core/src/contacts_bridge.rs:282-309 | the loop computes the merge and counts the updates |
| Contacts.ContactManager.ReconcileFromHistory | core/src/contacts_bridge.rs:255-279 | exactly the unknown peers of the recent history are added, each as a placeholder with its peer id for a key, existing contacts untouched |
| Outbox.MemoryOutbox.Enqueue | core/src/store/outbox.rs:96-135 | accepts iff fewer than 10000 messages are held and fewer than 1000 for the recipient, and then appends to the recipient's queue only |
| Outbox.MemoryOutbox.DrainForPeer | core/src/store/outbox.rs:239-249 | returns and removes exactly the peer's queue |
| Outbox.MemoryOutbox.Remove | core/src/store/outbox.rs:198-209 | takes out one first match iff the id is held |
| Outbox.MemoryOutbox.RemoveExpired | core/src/store/outbox.rs:336-358 | keeps under each peer exactly the messages younger than the age, drops empty queues and counts what went |
| Outbox.MemoryOutbox.Flush | core/src/store/outbox.rs:96-249 | on the in-memory backend, drain, send, re-enqueue sends exactly the messages whose attempt succeeded and leaves the peer the others, in turn |
| Outbox.FlushConserves | core/src/store/outbox.rs:96-249 | on the in-memory backend a flush loses no message, touches no other queue and keeps the failed ones in order |
| Outbox.RequeueFits | core/src/store/outbox.rs:115-135 | on the in-memory backend every re-enqueue is accepted, its place having been freed by the drain |
| Outbox.DiscoveryDelivers | cli/src/main.rs:1291-1297 | on the in-memory fallback a newly discovered peer is sent the messages whose attempt succeeds and keeps the others, in turn; for a connected one nothing happens |
| Outbox.NoMessageIsLost | cli/src/main.rs:1291-1297 | runs of the daemon on its in-memory fallback: what was accepted is what was sent plus what is held |
| Outbox.OrderIsKept | cli/src/main.rs:1291-1297 | runs on the in-memory fallback: each queue lists its messages in the order they were accepted, across failed sends and re-enqueues |
| PersistentOutbox.SledOutbox.Enqueue | core/src/store/outbox.rs:136-171 | accepts iff fewer than 10000 entries are stored and fewer than 1000 under the recipient's prefix, and stores under recipient and id; a valid outbox stays valid iff the message is refused, replaces a stored key or collides with no full peer, so always with plain ids |
| PersistentOutbox.SledOutbox.DrainForPeer | core/src/store/outbox.rs:250-273 | removes and returns exactly the entries under the peer's prefix |
| PersistentOutbox.ScanHits | core/src/store/outbox.rs:250-273 | a prefix scan hits a message iff it is the peer's own or its recipient or id continues the prefix across a separator |
| PersistentOutbox.DrainIsExactlyWhen | core/src/store/outbox.rs:250-273 | draining takes exactly the peer's messages iff no stored message collides |
| PersistentOutbox.CollisionExample | core/src/store/outbox.rs:250-273 | a scan for peer "a" hits every message for a peer called "a_b" |
| PersistentOutbox.PlainIdsNeverCollide | core/src/store/outbox.rs:250-273 | ids without underscores never collide |
| PersistentOutbox.LimitsKeptExactlyWhen | core/src/store/outbox.rs:136-171 | for every accepted message, all limits still hold iff its key was stored already or no other peer whose prefix it matches is full |
| PersistentOutbox.CollisionBreaksLimit | core/src/store/outbox.rs:136-171 | a new message matching another, full peer's prefix takes that peer exactly one over its limit |
| PersistentOutbox.SledOutbox.Flush | cli/src/main.rs:1725-1787 | on any keyed store the drain, send and re-enqueue loop sends the delivered entries under the prefix and refills with the failed ones that are accepted; within limits the delivered ones go and nothing else |
| PersistentOutbox.FlushLosesNothingExactlyWhen | cli/src/main.rs:1725-1787 | on any keyed store a flush removes the delivered messages and nothing else iff each failed one finds room at its turn |
| PersistentOutbox.FlushWithinLimits | cli/src/main.rs:1725-1787 | in a store within its limits, collisions or not, each does |
| OutboxRuns.NothingIsLostOnDisk | cli/src/main.rs:1672-1787 | in every run of queueing, discovery and disconnection with fresh plain ids the stored outbox stays keyed and within limits, and what was accepted is what was sent plus what is stored |
| OutboxRuns.DiscoveryDelivers | cli/src/main.rs:1672-1787 | in every such run a newly discovered peer is sent its stored messages that go through and keeps the others in order; for a connected one nothing happens, and no other queue changes |
| OutboxRuns.EnqueueConservesExactlyWhen | core/src/store/outbox.rs:136-171 | storing a message adds it to the stored messages, losing none, iff its key is not stored yet |
| OutboxRuns.KeysCanClash | core/src/store/outbox.rs:136-171 | message "c" for "a_b" and message "b_c" for "a" share a key, and the later replaces the earlier |
| OutboxRuns.DrainKeepsOrderExactlyWhen | cli/src/main.rs:1743-1746 | in every such run a drain returns a peer's messages in the order they were accepted iff they were accepted in ascending order of their ids |
| OutboxRuns.QueueIsById | core/src/store/outbox.rs:250-273 | a drain lists a peer's messages by id |
| OutboxRuns.SmallerIdOvertakes | core/src/store/outbox.rs:250-273 | of two messages queued for one peer the later comes out first if its id is smaller |
| OutboxRuns.OutboxDaemon.QueueMessage | cli/src/main.rs:2933-2960 | queueing is the run's enqueue step and keeps the outbox valid for plain ids |
| OutboxRuns.OutboxDaemon.PeerDiscovered | cli/src/main.rs:1672-1787 | discovery is the run's flush step for a peer not yet connected, and nothing for one that is |
| Ownership.StepKeepsOwner | core/src/iron_core.rs:687-723 | every prepare, mark, flush, drain and expiry keeps: no id in both stores, each held once |
| Ownership.NeverInBoth | core/src/iron_core.rs:687-723 | at no point of any run with fresh ids is an id, however spelled, in both outbox and drift custody |
| Ownership.PreparedHasOneOwner | core/src/iron_core.rs:687-723 | after preparing, the outbox owns the id iff it was routed there and accepted; drift custody owns it only if routed there, and surely when there was room |
| Ownership.MarkedIsGone | core/src/iron_core.rs:765-781 | marking leaves the id in neither store and every other id where it was |
| Ownership.StatusViaOutbox | core/src/iron_core.rs:788-811 | through the outbox every queue is restored; the map itself iff the recipient had a queue or was refused |
| Ownership.StatusViaDrift | core/src/iron_core.rs:788-811 | through drift custody both stores are restored iff there was room or the new envelope scores below all others |
| Ownership.SweepTakesNothingExactlyWhen | core/src/store/outbox.rs:336-358 | a sweep leaves everything held iff no held message is expired |
| Ownership.SweepNeverReachesPrepared | core/src/iron_core.rs:1635-1638 | in every run whose messages were stamped, in milliseconds, from some second on, the seven-day sweep takes nothing until the clock shows a thousand times that second |
| Ownership.IronCore.PrepareMessage | core/src/iron_core.rs:687-723 | exactly one of the stores is offered the message |
| Ownership.IronCore.MarkMessageSent | core/src/iron_core.rs:765-781 | returns true iff the id was owned, and then nobody owns it |
| Ownership.IronCore.SendMessageStatus | core/src/iron_core.rs:788-811 | leaves all queues, and a drift store with room, as they were |
| Ownership.IronCore.DrainForPeer | core/src/iron_core.rs:1232-1238 | removes the peer's queue only |
| Ownership.IronCore.PerformMaintenance | core/src/iron_core.rs:1635-1638 | expires outbox messages by the seven-day rule only |
| TransportPaths.ScoresAreInjective | cli/src/transport_bridge.rs:159-192 | reliability and latency together determine source and destination |
| TransportPaths.RankingIgnoresOrder | cli/src/transport_bridge.rs:86-126 | the ranking depends only on the multiset of capabilities |
| TransportPaths.BestIsOptimal | cli/src/transport_bridge.rs:129-132 | the best path is a candidate more reliable than any other, or as reliable with no higher latency |
| TransportPaths.RankedByStanding | cli/src/transport_bridge.rs:86-192 | every ranking follows one standing order of the ten possible paths, given with their scores |
| TransportPaths.BestByPreference | cli/src/transport_bridge.rs:86-192 | the best path is the first in that order whose destination the peer has |
| TransportPaths.MoreIsNoWorse | cli/src/transport_bridge.rs:86-132 | more capabilities never worsen the best path |
| TransportPaths.TransportBridge.FindAllPaths | cli/src/transport_bridge.rs:86-126 | the nested loops and stable sort compute the ranking; an unknown peer has none |
| TransportPaths.TransportBridge.FindBestPath | cli/src/transport_bridge.rs:129-132 | the head of the ranking |
| TransportPaths.TransportBridge.GetBestForwardingPath | cli/src/transport_bridge.rs:285-293 | the last maximum is the same path |
| TransportPaths.TransportBridge.CanReachDestination | cli/src/transport_bridge.rs:270-282 | holds iff a best path exists |
| MessageRequests.GroupBySender | cli/src/server.rs:1346-1357 | groups exactly the eligible messages by sender, in arrival order |
| MessageRequests.RequestInbox.GetPendingMessageRequests | cli/src/server.rs:1333-1387 | one row for each sender in the inbox who is neither contact nor blocked, newest first, with all that `ViewOfInbox` promises, counts adding up to the eligible messages |
| MessageRequests.ViewOfInbox | cli/src/server.rs:1333-1387 | a row counts all messages of its sender and shows time and text of the latest, the last where several arrived together; there is a row for every eligible sender and no other, and later rows come first |
| MessageRequests.ViewsHoldTheSameRows | cli/src/server.rs:1359-1377 | the rows do not depend on the hash map's order |
| MessageRequests.ViewIsUnique | cli/src/server.rs:1359-1377 | nor does their order when no two latest times tie |
| MessageRequests.SettledNeverReappears | cli/src/server.rs:1333-1357 | a contact or blocked sender has no row, whatever arrives |
| MessageRequests.SettlingRemovesOneRow | cli/src/server.rs:1399-1484 | accepting or rejecting a sender removes its row and no other |
| MessageRequests.RequestInbox.AcceptMessageRequest | cli/src/server.rs:1399-1440 | succeeds iff the sender's first message carries a key, and adds that contact only |
| Hex.RoundTrip | core/src/iron_core.rs:1287 | decoding undoes encoding for every byte string |
| Hex.EncodedDigits | core/src/iron_core.rs:1287 | each byte is two lower-case digits, the high one first |
| Hex.DecodesExactlyWhen | core/src/iron_core.rs:1411-1412 | text decodes iff it has even length and only the digits 0-9, a-f and A-F |
| RatchetSessions.SnapshotRoundTrip | core/src/crypto/session_manager.rs:226-337 | a saved session loads as it was, less its skipped keys |
| RatchetSessions.ChainDamageIsAccepted | core/src/crypto/session_manager.rs:297-307 | whether a snapshot loads does not depend on its chain keys |
| RatchetSessions.LoadsExactlyWhen | core/src/crypto/session_manager.rs:226-337 | a snapshot loads iff each of its five keys that is present has 64 hexadecimal digits |
| Hex.OverwriteStops | core/src/crypto/session_manager.rs:297-307 | a chain key of the right length with a bad digit is read up to the byte with that digit and is zero from there on |
| RatchetSessions.ProbeImpliesCommit | core/src/crypto/session_manager.rs:164-182 | what loads into an empty manager loads into any |
| RatchetSessions.SavedSessionsLoad | core/src/crypto/session_manager.rs:128-182 | saved sessions fill in exactly the peers without a session |
| RatchetSessions.RatchetSessionManager.LoadStrict | core/src/crypto/session_manager.rs:164-182 | all or nothing: loads every missing peer or changes nothing |
| IdentityBackup.RestoreList | core/src/iron_core.rs:1428-1448 | adding a listed store record by record overwrites by peer and keeps the rest |
| IdentityBackup.StagedIsCommittable | core/src/iron_core.rs:1384-1427 | a text that validated cannot fail in the committing session load |
| IdentityBackup.LegacyIsNeverStructured | core/src/iron_core.rs:1380-1415 | hexadecimal text is never taken for the structured payload |
| IdentityBackup.LegacyImport | core/src/iron_core.rs:1409-1421 | importing an old backup replaces the key and nothing else |
| IdentityBackup.ImportAfterExport | core/src/iron_core.rs:1284-1459 | whatever export returned under a passphrase imports under it into any core, giving its key, its contacts over the old ones, and its sessions where there was none |
| IdentityBackup.ImportableExactlyWhen | core/src/iron_core.rs:1367-1427 | a backup imports iff it decrypts and is a payload whose key has 64 hexadecimal digits, whose sessions all load and whose contacts parse, or else such a key alone |
| IdentityBackup.RestoreOnFreshDevice | core/src/iron_core.rs:1284-1459 | in a fresh core of the same kind that is everything but the skipped message keys |
| IdentityBackup.TransferIdentity | core/src/iron_core.rs:1318-1459 | exporting from one core and importing into another with the same passphrase succeeds iff there is an identity, and then gives the restored state |
| IdentityBackup.RestoreOnNewDevice | core/src/iron_core.rs:1318-1459 | on a new device the identity comes back whole, less the skipped message keys |
| IdentityBackup.IdentityCore.ExportIdentityBackup | core/src/iron_core.rs:1284-1329 | exports iff there is an identity, as the encryption of a payload with every contact once |
| IdentityBackup.IdentityCore.Validate | core/src/iron_core.rs:1380-1415 | computes what would be written without writing |
| IdentityBackup.IdentityCore.ImportIdentityBackup | core/src/iron_core.rs:1367-1459 | succeeds iff the text decrypts, validates and holds a 32-byte key; otherwise the state is unchanged |

## Left out

- DecodeIsExact: its hypothesis, that each cell the decoder picks is hit exactly once, is sufficient; `AstrayIsNeverRight` covers every decode that picks a cell naming a key not left or on the wrong side. Not followed is a cell hit by several keys that happens to name one still left on its side.
- ExchangeReconciles: inherits that hypothesis, and that counts fit one byte on the wire, through `SketchesFit`; `ExchangedUnion` and `DifferenceDecodes` likewise. Without them `ExchangeIsSound` still holds.
- BoundedMergeIsSemilattice: assumes distinct scores at one moment, as does `MergeCommutesExactlyWhen`; on equal scores the hash map decides, and scores that are not numbers are not modelled.
- LastSeenIsLatest: a connection sets last_seen to the clock even when gossip had reported a later time, hence its hypothesis; `LastSeenHasCause` needs none.
- OfferHasRoom: says for which sizes some hash peels a difference, not how likely a given hash does.
- FailuresArePacedInHistory: times before the last are at most u64::MAX - 300, see `PacingEndsWithTheClock`.
- NothingIsLostOnDisk: a send is its reported outcome, a flush is one step, and ids are fresh and without underscores; `EnqueueConservesExactlyWhen`, `LimitsKeptExactlyWhen` and `FlushLosesNothingExactlyWhen` say exactly what happens at one step otherwise.
- ImportIdentityBackup: storage calls succeed; a failing write in the middle of the commit is not modelled.
- libp2p, dialing, BLE, HTTP and WebSocket plumbing, file and sled errors, locks: asynchronous or foreign.
- Cryptography, the ratchet itself, onion layers, routing, relay custody, abuse scoring, audit log.
- Sketch counts as i32, message counts as u32 and their overflow.
- Serialization and proof fields of sync messages other than the sketch and the envelopes.
- `extract_ip_port`, `dialable_addresses`, `summary` and the display labels of the ledger; `clear`, `clear_conversation`, `remove_conversation` and counting queries of the histories; contact search and nickname setters; `emergency_recover`, the same loop as reconciling; `record_attempt` and `peer_count` of the outbox: easy members.
- Settings, notification and behaviour tables, port rewriting, the cloud orchestrator.
- Updates in place of a ledger entry, a sketch cell or a session are on values owned by one container: no aliasing exists to model.
