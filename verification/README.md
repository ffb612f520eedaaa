# Shared-state protocols and the configuration merge

A Dafny model of the parts of the proxy where several parties share state or where one
representation is turned into another, with proofs of what they promise.

* **Reasoning-replay cache** (`replay_protocol.dfy`, `replay_local.dfy`, `replay_home.dfy`,
  `replay_items.dfy`, `replay_item_fields.dfy`, `replay_codec.dfy`). A request reads a chain of items
  together with a snapshot; a later publish or delete succeeds only if nothing changed, or if the live
  entry is an earlier state of the same conversation. The protocol is a state machine over one store
  with nonces as an increasing counter and expiry, eviction and clearing as one action (`Vanish`). The
  mutex-guarded map and the Home form with its four compare-and-swap attempts are classes proved against
  it; the Home methods take what other clients do between their operations as a parameter. The stored
  JSON array of base64 strings is modelled down to bytes.
* **Codex turns** (`codex_turns.dfy`, `codex_home.dfy`). Appending a turn with duplicate suppression and
  trimming to 256 turns and 16 MiB, and the loop of 32 swaps that commits it.
* **Release flusher** (`release_flusher.dfy`, `release_backoff.dfy`). Cumulative acknowledgements per
  group, tickets, sends with the lock free, and the backoff in 64-bit arithmetic.
* **Dispatch fence** (`dispatch_fence.dfy`). Threads of the Home client stepping through the methods that
  install, close and detach pools and connections; the fence flag is read and written without the lock.
* **RESP** (`resp.dfy`). Encoder, writers and readers of RESP2 arrays and bulk strings.
* **YAML merge** (`yaml_tree.dfy`, `yaml_merge.dfy`, `yaml_merge_twice.dfy`, `yaml_defaults.dfy`,
  `yaml_identity.dfy`, `yaml_graph.dfy`, `yaml_shapes.dfy`, `yaml_prune.dfy`, `yaml_in_place.dfy`). The merge of a
  generated tree into the user's tree: its result as a function on values with node identities, theorems about that
  result, and the code in place on linked nodes, proved to compute it. `yaml_defaults.dfy` says, by the text of
  the scalars, which new settings are written; `yaml_identity.dfy` by what the elements of lists are matched.
  `yaml_graph.dfy` has the deep copy of arbitrary node graphs.

`wrappers.dfy`, `sequences.dfy`, `bytes.dfy` and `texts.dfy` hold what several of them share. `dafny verify dfyconfig.toml`
checks everything.

## How the in-place merge is stated

A `Shape` records what a tree of linked nodes holds at some moment; `Holds` says the nodes are in that
state now, `Distinct` that no node occurs twice. `View(known, s)` is the value of a shape, in which only
the nodes in `known` keep their identity. Each method of `YamlInPlace` takes the shapes of its arguments
as ghost parameters and returns the new shape, whose view equals the corresponding function of
`YamlMerge` on the old views. With `known` the nodes of the user's tree, the theorems of `YamlMerge`
about origins are statements about which node object stands where.

## Results that differ from what one might expect

* Whether a snapshot is accepted depends only on the key's own entry; but at a full cache an operation on
  another key evicts the oldest entries (`LocalReplayCache.OldestAreEvicted`), and every snapshot of an
  evicted key is refused for good (`ReplayProtocol.AcceptanceIsPerKey`, `ReplayProtocol.EndedIsFenced`).
* A snapshot that saw plain absence, which a read returns only with an error, can be accepted, refused
  and accepted again (`ReplayProtocol.UnfencedAbsenceRecurs`).
* The doubling schedule of the backoff holds exactly when the maximum is below 2^62 ns or equals the
  flush interval (`ReleaseBackoff.BackoffScheduleHolds`).
* Appending a turn twice is not always appending it once: if the list was over its bounds, the marker
  that the duplicate check finds may be trimmed by the same call (`CodexTurns.AppendIsIdempotent` gives
  the exact condition). No list stored by this module meets the exception
  (`CodexHomeCache.StoredListsAreLegal`, `CodexHomeCache.RepeatedAppendIsAbsorbed`).
* A list that does not open with a marker is discarded by the next append
  (`CodexTurns.HeadlessListIsDiscarded` gives the exact condition). The only caller outside the tests,
  internal/runtime/executor/codex_executor_reasoning.go:800-814, always leads with a marker.
* The merge removes keys consisting of blanks from the mappings inside lists
  (`YamlMerge.BlankKeyIsLost`); this is the third exception in `YamlMerge.MergedReads`.
* Saving an unchanged configuration again changes no reading away from lists
  (`YamlMergeTwice.SecondMergeReadsSame`), but inside a list it can: `YamlMergeTwice.SecondMergeReads`
  gives the condition and `YamlMergeTwice.SecondMergeMayDiffer` a case.

## Model

| member | source | states |
|---|---|---|
| `ReplayProtocol.BranchesFormChains` | internal/cache/antigravity_reasoning_replay_cache.go:279-353 | In every run of reads, publishes, deletes, sets, evictions, expiries and clears by any number of requests, the lists ever stored under one branch belong to one key and each is a prefix of every later one; only the first may be a tombstone |
| `ReplayProtocol.RunsNeverRewrite` | internal/cache/antigravity_reasoning_replay_cache.go:279-353 | Between any two states of a run, the list of a key either grew under the same branch or carries a branch that did not exist before: a same-branch publish drops and rewrites nothing |
| `ReplayProtocol.AliveIffAcceptable` | internal/cache/antigravity_reasoning_replay_cache.go:333-341 | A snapshot can still be accepted with some list exactly when the entry is the one it was taken from or a live entry of its branch (AcceptsExactly says with which lists) |
| `ReplayProtocol.AcceptsExactly` | internal/cache/antigravity_reasoning_replay_cache.go:333-341 | Which lists a snapshot still authorises: any list over the very state it read; over a later live state of its branch the lists that are at least as long and agree with it element by element; for plain absence any list while the key is absent |
| `ReplayProtocol.PublishExtends` | internal/cache/antigravity_reasoning_replay_cache.go:339-352 | A publish over a later live state of its branch is stored, whole and on that branch, exactly when it continues that state, however far it goes on; otherwise nothing happens |
| `ReplayProtocol.PublishReplaces` | internal/cache/antigravity_reasoning_replay_cache.go:338-352 | A publish over the very state it read is stored whatever it holds: on the same branch when it continues that state, on a new one otherwise |
| `ReplayProtocol.WritesExactly` | internal/cache/antigravity_reasoning_replay_cache.go:230-418 | Every other write: what it stores under the key, under which condition, and that no other key changes |
| `ReplayProtocol.DeadStaysDead` | internal/cache/antigravity_reasoning_replay_cache.go:230-275 | A snapshot that no publish and no delete could use in some reachable state is refused in every later state of every run |
| `ReplayProtocol.EndedIsFenced` | internal/cache/antigravity_reasoning_replay_cache.go:357-483 | After a tombstone, a successful conditional delete, an unconditional set, an eviction, an expiry or a clear, no snapshot of the key taken before is ever accepted again |
| `ReplayProtocol.SnapshotsDoNotCross` | internal/cache/antigravity_reasoning_replay_cache.go:333-341 | A snapshot of a value stored under one key is never accepted for another key, now or after any run |
| `ReplayProtocol.AcceptanceIsPerKey` | internal/cache/antigravity_reasoning_replay_cache.go:333-341 | No run of operations on other keys changes whether a snapshot of this key is accepted or matches (an operation on another key that evicts this key counts as touching it) |
| `ReplayProtocol.OverwrittenNeverMatches` | internal/cache/antigravity_reasoning_replay_cache.go:357-385 | A stored state that was overwritten never compares equal again, so the conditional delete of a stale snapshot fails forever |
| `ReplayProtocol.UnfencedAbsenceRecurs` | internal/cache/antigravity_reasoning_replay_cache.go:193-204 | Why a miss is fenced: a snapshot of plain absence can be accepted, then refused, then accepted again; concrete run |
| `ReplayProtocol.BranchRulesAgree` | internal/cache/antigravity_reasoning_replay_cache.go:291-331 | Whenever a publish is accepted, choosing the branch from the snapshot alone (Home) and choosing it only on an exact match (local) give the same branch |
| `ReplayItems.Normalize` | internal/cache/antigravity_reasoning_replay_cache.go:500-517 | The normalising loop with its early exit computes the declarative description, which ChainIsWhole spells out |
| `ReplayItems.ChainIsWhole` | internal/cache/antigravity_reasoning_replay_cache.go:500-517 | The normalised chain holds what the per-item normaliser makes of the items it accepts, at increasing positions and none left out; it is refused exactly with more than 4096 items, more than 16 MiB, or nothing left |
| `ReplayItems.NormalizedIsStable` | internal/cache/antigravity_reasoning_replay_cache.go:500-517 | An accepted chain is accepted again, unchanged and whole, whenever the per-item normaliser is idempotent |
| `ReplayItemFields.ItemIsStable` | internal/cache/antigravity_reasoning_replay_cache.go:519-613 | The per-item normaliser is idempotent: both kinds of item, with trimming, the fallbacks for the signature, the call id and the nested call, and every optional field |
| `ReplayItemFields.KeptItems` | internal/cache/antigravity_reasoning_replay_cache.go:519-592 | Which items are kept: signatures of at least 16 characters, under either key, that are not the placeholder, and calls with a name and arguments, outside or in the nested call |
| `ReplayItemFields.SignatureFields` | internal/cache/antigravity_reasoning_replay_cache.go:531-560 | Field by field what a normalised signature holds, and that it holds no other fields |
| `ReplayItemFields.CallFields` | internal/cache/antigravity_reasoning_replay_cache.go:562-598 | Field by field what a normalised call holds, the nested call as fallback, and that it holds no other fields |
| `ReplayItemFields.PositionsKept` | internal/cache/antigravity_reasoning_replay_cache.go:540-613 | The indices and the occurrence survive as the integers they truncate to, a negative occurrence and anything that is no number do not, and the context hash survives trimmed unless blank |
| `ReplayItems.FieldNormalizerIsIdempotent` | internal/cache/antigravity_reasoning_replay_cache.go:519-613 | The normaliser of one stored item, which reads its fields, normalises them and writes them, changes nothing the second time, if what it writes for a text reads back as the fields it wrote |
| `ReplayCodec.Decode64Inverts` | internal/cache/antigravity_reasoning_replay_cache.go:428-440 | Base64 with padding decodes to the bytes it encoded, for every length |
| `ReplayCodec.Encode64Vectors` | internal/cache/antigravity_reasoning_replay_cache.go:428-440 | Fixed vectors: each kind of padding and each part of the standard alphabet |
| `ReplayCodec.ArrayForm` | internal/cache/antigravity_reasoning_replay_cache.go:428-440 | The stored text of the empty array and of one with two items, byte for byte |
| `ReplayCodec.ArrayReads` | internal/cache/antigravity_reasoning_replay_cache.go:442-454 | The stored array of items reads back as exactly the items written |
| `ReplayCodec.ValueReads` | internal/cache/antigravity_reasoning_replay_cache.go:428-454 | A stored chain decodes to its items, generation and branch and is no tombstone |
| `ReplayCodec.TombstoneReads` | internal/cache/antigravity_reasoning_replay_cache.go:468-475 | A stored tombstone decodes to an empty, deleted value with its generation and branch |
| `ReplayCodec.SameBytesSameValue` | internal/cache/antigravity_reasoning_replay_cache.go:307-331 | Stored bytes are equal exactly when items, generation and branch are equal, and never equal a tombstone: comparing raw values is comparing what they stand for |
| `ReplayCodec.StoredFormFits` | internal/cache/antigravity_reasoning_replay_cache.go:35-43 | Whatever chain the normaliser accepts, its serialised form is at most 24 MiB |
| `ReplayCodec.StoredChainIsServed` | internal/cache/antigravity_reasoning_replay_cache.go:205-223 | With that normaliser, a read never rejects what a publish stored: the value is within the size limit, decodes to the chain, and the chain normalises to itself |
| `LocalReplayCache.Cache.Get` | internal/cache/antigravity_reasoning_replay_cache.go:230-250 | A read of an entry at most one hour old returns the live items and slides the expiry; a miss or an older entry is replaced by a fresh tombstone after making room, by one batch of 128 none newer than what stays exactly at 10240 entries; the snapshot is that of the entry now stored; exact new map, epoch and protocol actions |
| `LocalReplayCache.Cache.ReserveAbsent` | internal/cache/antigravity_reasoning_replay_cache.go:256-275 | At capacity exactly one batch leaves first, none of it newer than what stays; then the tombstone is stored with the next revision; the cache stays within 10240 entries |
| `LocalReplayCache.Cache.ReplaceIfUnchanged` | internal/cache/antigravity_reasoning_replay_cache.go:333-352 | Succeeds exactly when the entry has the revision of the snapshot, or is live, of its branch, and no longer than the normalised chain and equal to its beginning; then stores the chain as the publish action does; the new map is the old one with that entry, without one batch, none newer than what stays, exactly when over capacity; otherwise nothing changes; an unacceptable chain is an error and an empty key a failure; without a loaded snapshot it stores unconditionally |
| `LocalReplayCache.Cache.DeleteIfUnchanged` | internal/cache/antigravity_reasoning_replay_cache.go:357-385 | Succeeds exactly when the entry is the one that was read and leaves a tombstone, with one oldest batch gone exactly when over capacity; otherwise nothing changes; without a loaded snapshot it deletes unconditionally |
| `LocalReplayCache.Cache.Cache` | internal/cache/antigravity_reasoning_replay_cache.go:99-142 | Unconditional set on a branch of its own: exact condition for success, protocol action, and the exact new map with one oldest batch gone exactly when over capacity |
| `LocalReplayCache.Cache.Delete` | internal/cache/antigravity_reasoning_replay_cache.go:396-418 | Replaces the entry by a tombstone, with the same exact new map; an empty key changes nothing |
| `LocalReplayCache.Cache.EvictOldest` | internal/cache/antigravity_reasoning_replay_cache.go:623-645 | Removes exactly min(count, size) keys, none newer than any survivor, and advances the eviction epoch by that number |
| `LocalReplayCache.Cache.EvictIfOver` | internal/cache/antigravity_reasoning_replay_cache.go:127-142 | Over capacity exactly one batch of 128 leaves, and the capacity invariant holds again |
| `LocalReplayCache.Cache.PurgeExpired` | internal/cache/antigravity_reasoning_replay_cache.go:647-656 | Removes exactly the entries older than one hour and advances the epoch by their number |
| `LocalReplayCache.Cache.Clear` | internal/cache/antigravity_reasoning_replay_cache.go:478-483 | Empties the cache, advances the epoch once; for the protocol every key vanishes |
| `LocalReplayCache.SortOrders` | internal/cache/antigravity_reasoning_replay_cache.go:623-645 | The sort of the candidates is ordered by time and loses no key |
| `LocalReplayCache.OldestFirst` | internal/cache/antigravity_reasoning_replay_cache.go:623-645 | The first n candidates in time order are n entries none of which is newer than any other entry |
| `LocalReplayCache.OldestAreEvicted` | internal/cache/antigravity_reasoning_replay_cache.go:623-645 | An entry with fewer others at most as new as it than a batch takes is in the batch: a write to another key at a full cache evicts it |
| `HomeReplayCache.Home.Get` | internal/cache/antigravity_reasoning_replay_cache.go:176-228 | With others writing between its operations, a read returns the stored chain or the tombstone with which it fenced the miss; it fails exactly after four rounds in each of which the key appeared between the lookup and the reservation; the store changes by what others did, the nonces drawn and at most that reservation |
| `HomeReplayCache.Home.ReplaceIfUnchanged` | internal/cache/antigravity_reasoning_replay_cache.go:279-331 | Every round before the last lost its swap to a change of the key after the value was read, and the outcome is a success exactly when the last did not; a success takes effect at that one swap, over the value the snapshot saw or a live value of its branch that the chain begins with, and stores the chain as the mutex-guarded version would, branch included; a failure wrote nothing and lost all four swaps, or the last value read is neither of these (for a snapshot that saw plain absence: was not absent when the request began); if nobody else touches the key the outcome is the verdict of the mutex-guarded version |
| `HomeReplayCache.Home.SwapLoop` | internal/cache/antigravity_reasoning_replay_cache.go:307-331 | The loop of up to four swaps against arbitrary interference: which rounds are lost and why, and the state at the successful swap (OutcomeSettles says over which values) |
| `HomeReplayCache.OutcomeSettles` | internal/cache/antigravity_reasoning_replay_cache.go:307-331 | However the loop ends: a success found a value that the snapshot saw or that the chain continues on its branch, element by element, and the chain is stored; a failure before the fourth loss left a value that is neither |
| `HomeReplayCache.UndisturbedVerdict` | internal/cache/antigravity_reasoning_replay_cache.go:307-331 | If nobody else touches the key the loop succeeds exactly when the mutex-guarded version would accept |
| `HomeReplayCache.Home.DeleteIfUnchanged` | internal/cache/antigravity_reasoning_replay_cache.go:357-372 | Succeeds exactly when the stored value is the one that was read, and is then the conditional delete of the protocol |
| `HomeReplayCache.Home.KVCompareAndSwap` | internal/home/client.go:903-934 | One atomic step: replaces the value exactly when the stored one is the expected one, absence included, and otherwise leaves the store as it was |
| `HomeReplayCache.MatchIsEquality` | internal/cache/antigravity_reasoning_replay_cache.go:307-331 | For snapshots a request can hold, comparing stored values and comparing revisions come to the same |
| `HomeReplayCache.SwapIsPublish` | internal/cache/antigravity_reasoning_replay_cache.go:307-331 | If the swap of any round succeeds, the mutex-guarded version would have accepted there and chosen the same branch |
| `HomeReplayCache.PublishedIsNormal` | internal/cache/antigravity_reasoning_replay_cache.go:286-290 | What a publish writes is left alone by the normaliser of every later read |
| `CodexTurns.TrimItems` | internal/cache/codex_reasoning_replay_cache.go:212-230 | The trim loop terminates and computes the trim function |
| `CodexTurns.TrimIsLongestLegal` | internal/cache/codex_reasoning_replay_cache.go:212-230 | Trimming returns the longest suffix that begins at a turn boundary (or is the whole list) and respects both the 256-turn and the 16 MiB bound, or nothing when even the last turn is too large |
| `CodexTurns.LongestLegalIsUnique` | internal/cache/codex_reasoning_replay_cache.go:212-230 | That description determines the result |
| `CodexTurns.LegalExactly` | internal/cache/codex_reasoning_replay_cache.go:212-230 | The two bounds: at most 255 markers after the first item, that is 256 turns, and 16777216 bytes |
| `CodexTurns.AppendTurn` | internal/cache/codex_reasoning_replay_cache.go:190-210 | The append, with the scan for an equal marker, computes the append function |
| `CodexTurns.AppendExactly` | internal/cache/codex_reasoning_replay_cache.go:190-210 | Of which items the result is the longest legal suffix: the turn alone after a list that does not open with a marker, the list alone when it holds the marker of a named turn, otherwise the list and the turn |
| `CodexTurns.TrimComposes` | internal/cache/codex_reasoning_replay_cache.go:190-230 | Trimming, appending and trimming again equals appending and trimming once, if what is appended starts at a marker or trimming left something to append to |
| `CodexTurns.AppendedTurnSurvives` | internal/cache/codex_reasoning_replay_cache.go:190-210 | A legal turn led by a marker survives whole at the end of whatever it is appended to |
| `CodexTurns.AppendIsIdempotent` | internal/cache/codex_reasoning_replay_cache.go:190-210 | Recording the same named turn twice changes nothing exactly when the list did not hold its marker, or holds one from which on it respects both bounds; always when the list is within its bounds |
| `CodexTurns.TrimKeepsTurn` | internal/cache/codex_reasoning_replay_cache.go:212-230 | Trimming keeps a marker exactly when the list from such a marker on respects both bounds |
| `CodexTurns.UntrimmedAppendIsNotIdempotent` | internal/cache/codex_reasoning_replay_cache.go:190-210 | The exception is real: a concrete over-long list for which the second append adds the turn again |
| `CodexTurns.AppendsEqualOneTrim` | internal/cache/codex_reasoning_replay_cache.go:190-230 | For every list and any turns, repeated, unnamed and unmarked ones included, the appends leave exactly what one trim of the whole history leaves, where the history omits turns already stored when they came and starts again where nothing was stored to append to |
| `CodexTurns.RecordedTurnsAreTrimmedOnce` | internal/cache/codex_reasoning_replay_cache.go:190-230 | For turns led by a marker, repeated ids and further markers included, the appends leave one trim of the turns that were new when they came: a turn is lost to trimming and nothing else |
| `CodexTurns.DistinctTurnsAreTrimmedOnce` | internal/cache/codex_reasoning_replay_cache.go:190-230 | Turns with ids of their own are all recorded: the appends leave one trim of the complete history |
| `CodexTurns.AppendsLoseNothing` | internal/cache/codex_reasoning_replay_cache.go:190-230 | Within the bounds no turn that was new when it came is lost |
| `CodexTurns.UnmarkedTurnIsLost` | internal/cache/codex_reasoning_replay_cache.go:190-197 | A turn without a marker is stored and gone after the next append; concrete case |
| `CodexTurns.HeadlessListIsDiscarded` | internal/cache/codex_reasoning_replay_cache.go:190-210 | For every list and turn that is not already stored, the turn is added to what is stored exactly when the list is empty or opens with a marker, or the turn is led by a marker and no suffix that starts in the list is legal |
| `CodexTurns.AppendKeepsMarkersDistinct` | internal/cache/codex_reasoning_replay_cache.go:190-210 | If every turn has one marker, at its head, an append never stores a marker id twice |
| `CodexHomeCache.CodexHome.Normalize` | internal/cache/codex_reasoning_replay_cache.go:347-357 | The loop computes the stored form of a turn, which NormalTurnIsLongestLegal spells out |
| `CodexHomeCache.NormalTurnIsLongestLegal` | internal/cache/codex_reasoning_replay_cache.go:347-357 | What is stored is the longest suffix within both bounds of the acceptable items: all of them, as normalised, in the order in which they came |
| `CodexHomeCache.CodexHome.AppendBestEffort` | internal/cache/codex_reasoning_replay_cache.go:119-171 | With others writing between its operations and reads, replies or the context failing at any attempt: every attempt before the last was overtaken by a change of the key between read and swap; the normalised turn (NormalTurnIsLongestLegal) is committed at most once, at the end, exactly when the last swap was not overtaken; true is reported only when it was; it gives up only after 32 attempts or at a fault |
| `CodexHomeCache.UndisturbedAppendSucceeds` | internal/cache/codex_reasoning_replay_cache.go:131-171 | Without a fault and without a commit of others to the key an append succeeds at its first attempt |
| `CodexHomeCache.CodexHome.KVCompareAndSwap` | internal/home/client.go:903-934 | Swaps on equal contents only, in one step; the log grows by the commit exactly when it does |
| `CodexHomeCache.CodexHome.Cache` | internal/cache/codex_reasoning_replay_cache.go:77-116 | Unconditional set of a normalised list (NormalTurnIsLongestLegal) as one commit |
| `CodexHomeCache.CodexHome.Delete` | internal/cache/codex_reasoning_replay_cache.go:306-323 | Delete as one commit |
| `CodexHomeCache.ValueIsFold` | internal/cache/codex_reasoning_replay_cache.go:131-171 | The stored list is the fold of the committed appends over what was stored before, in commit order, although the swap compares contents and not versions |
| `CodexHomeCache.StoredIsOneTrim` | internal/cache/codex_reasoning_replay_cache.go:131-171 | Until the next set, delete or expiry the stored list is one trim of the history of the committed appends, whatever they are and in whatever interleaving |
| `CodexHomeCache.CommittedTurnsAreTrimmedOnce` | internal/cache/codex_reasoning_replay_cache.go:131-171 | With turns led by markers, repeated ones included, the stored list is one trim of what was stored and the committed turns that were new when they came: a turn reported as stored is lost to trimming and nothing else |
| `CodexHomeCache.StoredListsAreLegal` | internal/cache/codex_reasoning_replay_cache.go:212-230 | Every list stored in a reachable state respects both bounds |
| `CodexHomeCache.StoredMarkersAreDistinct` | internal/cache/codex_reasoning_replay_cache.go:190-210 | If every turn has one marker, at its head, the marker ids of every reachable stored list are pairwise distinct |
| `CodexHomeCache.RepeatedAppendIsAbsorbed` | internal/cache/codex_reasoning_replay_cache.go:190-210 | In every reachable state a second append of the same named turn changes nothing |
| `ReleaseBackoff.NextDelay` | internal/home/concurrency_release.go:125-138 | The loop body computes the next delay and whether it is backing off, in wrapping 64-bit arithmetic |
| `ReleaseBackoff.NextStaysWithinLimits` | internal/home/concurrency_release.go:91-138 | Whatever settings the previous delay was computed under, the next one lies within the limits to which the settings now in force, any two durations, are repaired; a success returns to the flush interval |
| `ReleaseBackoff.DelayIsIntended` | internal/home/concurrency_release.go:125-138 | After n failures in a row the delay is min(flushInterval * 2^n, maxBackoff) |
| `ReleaseBackoff.WrappedDelayDrops` | internal/home/concurrency_release.go:125-138 | Where the schedule fails: from a delay of 2^62 ns on, doubling wraps and the delay drops back to the flush interval |
| `ReleaseBackoff.BackoffScheduleHolds` | internal/home/concurrency_release.go:125-138 | The schedule holds for all n exactly when the maximum is below 2^62 ns or the two limits coincide |
| `ReleaseFlusher.CompleteIffAcknowledged` | internal/home/concurrency_release.go:176-218 | In every interleaving of marks, sends and acknowledgements a ticket is complete exactly when its sequence is at most the acknowledged one, which never passes the latest marked one, and only after Home accepted a frame of its group at least as large |
| `ReleaseFlusher.FramesAreMarkedAndOrdered` | internal/home/concurrency_release.go:176-218 | Whatever is marked while flushes run one after the other, frames of one group go out in nondecreasing order and each carries a sequence some caller marked for that group |
| `ReleaseFlusher.IdleMeansComplete` | internal/home/concurrency_release.go:243-252 | When the flusher is idle every ticket issued so far is complete |
| `ReleaseFlusher.RunsAdvance` | internal/home/concurrency_release.go:176-218 | No acknowledgement is taken back and no completed ticket reopened, in any run |
| `ReleaseFlusher.MarkEffect` | internal/home/concurrency_release.go:66-89 | Exactly the marks with a positive sequence, a credential and a model get a ticket; it is complete at once exactly when its sequence is acknowledged; the latest sequence becomes the larger of the two, and no other ticket and no other group changes |
| `ReleaseFlusher.AcknowledgeEffect` | internal/home/concurrency_release.go:200-215 | An accepted frame raises the acknowledged sequence of its group to its own unless that is lower, completes exactly the tickets of the group up to it, and changes no other group |
| `ReleaseFlusher.FlushSends` | internal/home/concurrency_release.go:181-187 | A flush sends one frame for each group with a ticket that is not complete, with the largest sequence marked for that group |
| `ReleaseFlusher.CompleteMeansIdle` | internal/home/concurrency_release.go:243-252 | The flusher is idle as soon as every ticket is complete |
| `ReleaseFlusher.FlushedMeansAcked` | internal/home/concurrency_release.go:176-218 | After a flush, each group whose frame was accepted is acknowledged at least up to what was marked before it; without a loss every earlier ticket is complete, and without concurrent marks nothing is left to send |
| `ReleaseFlusher.FlushingSends` | internal/home/concurrency_release.go:189-216 | One send of a flush, accepted or not and with marks made meanwhile, keeps the bookkeeping of what is still to send and what was lost |
| `ReleaseFlusher.Flusher.MarkDirty` | internal/home/concurrency_release.go:66-89 | Returns a ticket, the next one, exactly for a positive sequence with a credential and a model, and is the mark of the ledger: raises the latest sequence, never lowers it; the ticket is complete at once if already acknowledged and waits otherwise |
| `ReleaseFlusher.Flusher.CompleteDue` | internal/home/concurrency_release.go:204-214 | Closes exactly the channels of the tickets up to the acknowledged sequence, each of them open before, and keeps the others waiting |
| `ReleaseFlusher.Flusher.Acked` | internal/home/concurrency_release.go:200-215 | The critical section after a successful send is the acknowledgement of the ledger |
| `ReleaseFlusher.Flusher.Flush` | internal/home/concurrency_release.go:176-218 | One flush with arbitrary marks during each send: exactly one frame per pending group, failure reported exactly when a frame was lost, and the acknowledgements that follow |
| `ReleaseFlusher.Flusher.IsIdle` | internal/home/concurrency_release.go:243-252 | True exactly when every group is acknowledged up to its latest sequence |
| `ReleaseFlusher.Flusher.WaitIdle` | internal/home/concurrency_release.go:221-241 | The result is nil exactly when some poll finds the flusher idle, at the first such poll, and then every ticket issued so far is complete |
| `DispatchFence.NothingComesBack` | internal/home/client.go:196-281 | After Close or AbortAmbiguousDispatch has left its critical section, no interleaving of anything makes a pool non-nil or registers a connection again |
| `DispatchFence.ChecksRefuse` | internal/home/client.go:334-435 | From then on ensureClients and the release getter do nothing and the tracked dialer closes what it dialled (with the flag down they do their work: EnsureInstalls, ReleaseInstalls, DialRegisters) |
| `DispatchFence.NothingLeaks` | internal/home/client.go:196-281 | When every thread has finished what it owes, every connection ever dialled and every pool ever created has been closed |
| `DispatchFence.SomeoneCanMove` | internal/home/client.go:196-281 | No deadlock: while some thread has work left, it or the holder of the lock can take its next step |
| `DispatchFence.EverythingCanBeClosed` | internal/home/client.go:226-293 | From every state after the end of a lifetime the threads can finish, and then no connection and no pool is open |
| `DispatchFence.CriticalSectionIsPrivate` | internal/home/client.go:334-371 | While a thread is between the check and the end of its critical section, no run of the others changes the pools, the tracked connections or the lock; only the flag may be raised |
| `DispatchFence.DialRegisters` | internal/home/client.go:398-421 | With the lock free and the flag down a dialled connection is registered, stays open and is returned, whatever others do between the check and the registration; undisturbed nothing else changes |
| `DispatchFence.EnsureInstalls` | internal/home/client.go:334-371 | With the lock free and the flag down ensureClients leaves both pools present and those that were there in place, whatever others do between its steps |
| `DispatchFence.EnsureAlone` | internal/home/client.go:334-371 | Undisturbed it adds exactly the missing pools, new and open, and changes nothing else |
| `DispatchFence.ReleaseInstalls` | internal/home/client.go:1232-1259 | The same for the release getter and its pool |
| `DispatchFence.FailuresLeaveTheLock` | internal/home/client.go:334-371 | When the first pool cannot be built nothing has changed and the lock is free (HalfEnsured: when the second cannot, the first stays) |
| `DispatchFence.DetachedIsOwed` | internal/home/client.go:196-293 | What each ending or switching method takes from the client, exactly, and that it then owes the closing of all of it: all pools and connections, all but the release pool, or the command pool alone |
| `DispatchFence.FenceAndClosings` | internal/home/client.go:398-435 | The exact effect of raising the flag, dialling, refusing a dialled connection and each closing |
| `DispatchFence.StepKeepsSealed` | internal/home/client.go:334-371 | Every step of every method keeps the fence: flag up, nothing installed, and nobody past a check |
| `DispatchFence.StepKeepsConns` | internal/home/client.go:392-435 | Every step keeps every open connection registered, or owed a decision or a close by some thread (DialRegisters: the decision of a check with the flag down is to register) |
| `DispatchFence.StepKeepsPools` | internal/home/client.go:1232-1259 | Every step keeps every open pool installed or owed a close by some thread |
| `Resp.EncodeArray` | internal/home/certificate.go:335-348 | The loop writes exactly the array header and one bulk string per argument |
| `Resp.Buffer.WriteBulkString` | internal/api/redis_queue_protocol.go:503-526 | Writes the bulk string, or the nil form for nil |
| `Resp.Buffer.WriteArrayOfBulkStrings` | internal/api/redis_queue_protocol.go:528-541 | Writes the header and every item in order, nil included |
| `Resp.Reader.ReadLine` | internal/api/redis_queue_protocol.go:477-485 | Reads up to the first line feed and drops one carriage return before it; an error without one |
| `Resp.Reader.ReadBulkString` | internal/api/redis_queue_protocol.go:455-475 | Length line, payload and trailing CRLF with each error; a negative length is the empty string |
| `Resp.Reader.ReadString` | internal/api/redis_queue_protocol.go:440-453 | Bulk, simple and integer replies; anything else is an error |
| `Resp.Reader.ReadArray` | internal/api/redis_queue_protocol.go:413-438 | Reads the header and the arguments one by one, stopping at the first error, as the reading function describes |
| `Resp.Reader.ReadReply` | internal/home/certificate.go:350-382 | The certificate reply: size line, payload and two bytes skipped unseen, with an error for nil, an error reply, a bad number, a short stream or another kind |
| `Resp.CommandReads` | internal/home/certificate.go:335-348 | For any arguments, CR and LF included, reading an encoded command followed by any bytes gives exactly the arguments and leaves exactly those bytes |
| `Resp.PipelineReads` | internal/api/redis_queue_protocol.go:413-438 | Commands written one after the other are read as exactly those commands |
| `Resp.CommandsDoNotClash` | internal/home/certificate.go:335-348 | No encoded command is a proper prefix of another: equal concatenations have equal commands and equal rests |
| `Resp.ArrayOfBulksReads` | internal/api/redis_queue_protocol.go:528-541 | The array writer is inverted in the same way, except that a nil item comes back as the empty string |
| `Resp.BulkReads` | internal/home/certificate.go:350-382 | Both readers of bulk strings, that of the queue and that of the certificate reply, return the payload and leave the rest |
| `Resp.NilReads` | internal/home/certificate.go:350-382 | The nil form is the empty string for the queue reader and an error for the certificate reader |
| `Resp.AtoiOfItoa` | internal/api/redis_queue_protocol.go:413-475 | The decimal length written is the length read |
| `Resp.SignedAtoi` | internal/api/redis_queue_protocol.go:413-475 | Signs are optional and numbers beyond 64 bits are refused |
| `Resp.NotANumber` | internal/api/redis_queue_protocol.go:413-475 | A text without digits or with any other byte after the sign is no number |
| `Resp.WireBytes` | internal/home/certificate.go:335-348 | A command of one argument, the empty command and the nil form, byte for byte |
| `Resp.LinesEnd` | internal/api/redis_queue_protocol.go:477-485 | A line is what stands before CRLF or a bare line feed, inner carriage returns included; without a line feed it is an error |
| `Resp.ErrorReplies` | internal/home/certificate.go:373-378 | A reply that begins with a minus is the error with its trimmed text and never a payload |
| `Resp.SizedReplies` | internal/home/certificate.go:356-372 | The outcome of a reply with a length line in every case: no number, negative, too large, too short, or that many bytes with two skipped |
| `Resp.PayloadsAreAnnounced` | internal/home/certificate.go:350-382 | Only a reply with a dollar sign and a length has a payload, which is that many bytes after the line |
| `Resp.TrimmedIsMiddle` | internal/home/certificate.go:361-378 | Trimming takes white space from both ends and nothing else |
| `Resp.StringReplies` | internal/api/redis_queue_protocol.go:440-475 | The outcome of a string in every case: simple or integer, bulk with each of its errors, anything else |
| `Resp.BulksAreClosed` | internal/api/redis_queue_protocol.go:455-475 | A bulk string is accepted only with its length and its two closing bytes |
| `Resp.ArraysAreAnnounced` | internal/api/redis_queue_protocol.go:413-438 | An array needs a star and a count that is not negative, and has that many arguments |
| `YamlMerge.MergedReads` | internal/config/config_yaml.go:181-283 | After a merge of any generated tree with distinct keys into any tree, reading a path of the generated tree gives the generated value exactly when nothing on the way is an explicit null for an empty list, a new key dropped as a zero or known default (NewScalarReads and NewValueDropped say which), or a blank key of a reused sequence element |
| `YamlMerge.PrunedReads` | internal/config/config_yaml.go:353-387 | A pruned new value holds exactly the paths on which nothing is a default or an emptied collection, and they say the same as before (NewLeafReads, NewLeafLeftOut and NestedDropped say it by the scalars themselves) |
| `YamlDefaults.NewScalarReads` | internal/config/config_yaml.go:205-213 | A generated scalar under a key the user's mapping lacks is left out exactly when it is false, 0 or 0.0, the empty string, a null, or one of the five documented defaults at its dotted path, and otherwise reads as generated |
| `YamlDefaults.NewValueDropped` | internal/config/config_yaml.go:205-213 | A generated list or mapping under such a key is left out exactly when every scalar in it is a zero of its type or, directly under a key, a documented default |
| `YamlDefaults.NewLeafReads` | internal/config/config_yaml.go:353-387 | Every other scalar of a new value is written, at its path |
| `YamlDefaults.NewLeafLeftOut` | internal/config/config_yaml.go:353-387 | A zero or default directly under a key is not written, at any depth |
| `YamlDefaults.NestedDropped` | internal/config/config_yaml.go:365-378 | Inside a new mapping a list or mapping is dropped exactly when every scalar in it is a zero or pruning leaves nothing in it |
| `YamlDefaults.MergedNodeSays` | internal/config/config_yaml.go:228-283 | A merged node says what the generated one says, except that an explicit null stays when the generated list is empty |
| `YamlDefaults.JoinDots` | internal/config/config_yaml.go:324-324 | The names of a path are joined by dots |
| `YamlMerge.LostWasAbsent` | internal/config/config_yaml.go:196-214 | Away from sequences a generated value is lost only where the user's tree had nothing at that path, or an explicit null for an empty list |
| `YamlMerge.BlankKeyIsLost` | internal/config/config_yaml.go:716-745 | A key of blanks in an element of a list is removed by the merge even when the list already is the generated one |
| `YamlMergeTwice.SecondMergeReadsSame` | internal/config/config_yaml.go:181-283 | Away from sequences a second merge of the same tree leaves every reading of a generated path as the first made it |
| `YamlMergeTwice.SecondMergeReads` | internal/config/config_yaml.go:181-283 | Anywhere, sequences included, a generated value reads the same after a second merge of the same tree as after the first exactly when both keep it or neither does, except that where both lose an empty list a null or nothing may stand |
| `YamlMergeTwice.SecondMergeMayDiffer` | internal/config/config_yaml.go:480-567 | In a list the two merges can differ: a user element with ID 0 and a generated one with id 0, concretely |
| `YamlMerge.PairsKeepPlace` | internal/config/config_yaml.go:196-214 | Every pair of the user's mapping stays at its place with its key node; the value changes only under the first occurrence of a generated key, where it is the merged value |
| `YamlMerge.NewPairsFollow` | internal/config/config_yaml.go:206-213 | What is appended are the generated pairs the mapping lacked, pruned, without the defaults (NewScalarReads, NewValueDropped), in the generated order |
| `YamlMerge.NodesStay` | internal/config/config_yaml.go:196-240 | Away from sequences every node of the user's tree is still the node at its path, and what the generated tree does not mention is untouched |
| `YamlMerge.SequenceElements` | internal/config/config_yaml.go:241-270 | A merged sequence is as long as the generated one; each element is the old node it corresponds to, or the generated one where no corresponding one was left; no old node is used twice |
| `YamlTree.SlotsAreMatches` | internal/config/config_yaml.go:480-543 | Greedy matching: no element is taken twice, each slot holds an element of the same name or structure, an element is new only if all that correspond were taken before, and structure decides only if all namesakes were |
| `YamlTree.MatchElement` | internal/config/config_yaml.go:502-543 | The first unused namesake, else the first unused element of the same structure, else none |
| `YamlIdentity.IdentityByKey` | internal/config/config_yaml.go:545-585 | An element goes by the first of nine keys, in their order, under which its first scalar is not blank, whatever the case of the key and the blanks around it |
| `YamlIdentity.IdentityByScalar` | internal/config/config_yaml.go:545-567 | Without such a key it goes by its first scalar that is not blank, and without one by nothing |
| `YamlIdentity.StructureIsSkeleton` | internal/config/config_yaml.go:587-625 | Two trees have the same structure exactly when kinds, numbers of children and trimmed scalar texts agree throughout |
| `YamlIdentity.ReusedElementKeys` | internal/config/config_yaml.go:716-745 | A reused mapping of a list loses every key that the generated element lacks |
| `YamlTree.FindPair` | internal/config/config_yaml.go:287-297 | The first pair with the key, or -1 when there is none |
| `YamlInPlace.MergeNode` | internal/config/config_yaml.go:220-283 | The in-place merge on linked nodes: for disjoint trees the resulting tree has the value of the merge function, keeps the destination node, uses only its old nodes and new ones, and leaves the source as it was |
| `YamlInPlace.MergeMapping` | internal/config/config_yaml.go:181-215 | The loop over the generated pairs, in place, has the value of the merge function; kinds that do not match are copied over |
| `YamlInPlace.MergePair` | internal/config/config_yaml.go:196-214 | One generated pair: merged into the existing value node, skipped as a default (NewValueDropped), or appended as a pruned copy |
| `YamlInPlace.FindKey` | internal/config/config_yaml.go:287-297 | The search loop finds the first pair with the key, or -1 |
| `YamlInPlace.MergeSequence` | internal/config/config_yaml.go:241-270 | In place: null kept for an empty list, another kind reset to a sequence, then elements reordered, merged, appended and cut as the merge function says |
| `YamlInPlace.Reorder` | internal/config/config_yaml.go:480-500 | The loop that picks the old nodes in the order of the generated elements computes the slots of the matching function |
| `YamlInPlace.DropMissing` | internal/config/config_yaml.go:716-745 | The removal loop keeps exactly the pairs whose trimmed key is a non-blank key of the generated element |
| `YamlInPlace.CopyShallow` | internal/config/config_yaml.go:462-478 | The node takes over kind, tag and value and fresh copies of the content |
| `YamlInPlace.UserNodesStay` | internal/config/config_yaml.go:196-240 | In memory: away from sequences the node object at a path of the user's tree is still there after the merge, and where the generated tree has nothing everything below it is as it was |
| `YamlPrune.Prune` | internal/config/config_yaml.go:353-387 | The in-place pruning of a new value has the value of the pruning function (NewLeafReads, NewLeafLeftOut) and uses only its own nodes |
| `YamlShapes.CopyTree` | internal/config/config_yaml.go:435-458 | The deep copy of a tree is a tree of new nodes with the same value |
| `YamlGraph.DeepCopySeen` | internal/config/config_yaml.go:438-458 | One call of the recursive copy over an arbitrary graph, with sharing and alias cycles: it terminates, keeps every finished copy exact, adds only new objects to the memo, and returns the copy of its argument |
| `YamlGraph.DeepCopy` | internal/config/config_yaml.go:434-458 | The copy of everything reachable is an isomorphic graph of new nodes: each node has one copy of its own that says the same and points to the copies of what it points to |
| `YamlGraph.WalksAgree` | internal/config/config_yaml.go:438-458 | Every walk along content and alias pointers in the copy ends at the copy of where it ends in the original |
| `YamlGraph.SharingIsPreserved` | internal/config/config_yaml.go:438-458 | Two walks meet in the copy exactly when they meet in the original, and never reach a node of the original |

## Left out

- Clocks and randomness: time is a parameter; nonces and generations are counters, so freshness is assumed. Revisions and the eviction epoch are unbounded where the source has 64-bit counters.
- Expiry in the Home store is the action `Vanish`; that a read extends the expiry of a Home value, and the errors a read can return from that call or from the first lookup, are not modelled.
- `HomeReplayCache.Home.ReplaceIfUnchanged`: errors of the store in the Home publish, conditional delete and unconditional set are not modelled. In particular a swap may be carried out and its reply lost; the caller then sees an error although the chain is stored.
- `HomeReplayCache.Home.Get`: other clients are taken to write only chains the normaliser accepts, as every writer in this module does.
- Legacy Home values without a marker are only decoded (`ReplayCodec.DecodeValue`); the Home class stores none.
- `ReplayCodec.ValueReads`: the reader accepts the compact JSON that this module writes and the marker in its written form; other spacing, escapes, line breaks inside base64 and other field orders, which the source's JSON library also accepts, are not modelled.
- `ReplayItems.FieldNormalizerIsIdempotent`: the JSON text of an item is not modelled; reading and writing its fields are parameters, of which only this is used: what is written for the normalised fields of some text reads back as those fields. Signature lengths are counted in characters, and a number is represented by the integer it truncates to.
- The in-process form of the Codex cache: the same append under a mutex, with the eviction and purge that are proved for the other cache. The xAI and signature caches: last-writer-wins maps.
- Key construction, hashing and trimming of model and session names: a key is a string, empty when invalid.
- The Run loop of the flusher, which is what keeps flushes from overlapping: timers, the wake and force channels and cancellation; what remains is one flush, one next delay and the polling of Flush. Configuration enters as the repaired limits.
- `ReleaseFlusher.Flusher.WaitIdle`: the number of polls before the context ends, at least one in the source, is a parameter.
- The client methods of the fence are atomic steps of threads, not methods of a class, because what matters is their interleaving and a lock that blocks; failures to build a client are a parameter of the step. Heartbeat state, addresses, TLS options and the first unlocked check of the flag, which only refuses earlier, are left out.
- `Resp.Reader.ReadArray`: where the reader stands after an error is not stated; memory is unbounded, except that a length whose buffer size overflows an int is an error of its own.
- `Resp.Reader.ReadReply`: only ASCII white space is trimmed from a line.
- `YamlInPlace.MergeNode`: trees only, so no aliases and no node shared within a tree or between the two; absent children, which a parser does not produce, appear only as the empty slots while a sequence is reordered. Comments, styles and anchors of a node are not fields of the model.
- `YamlTree.MatchElement`: lower-casing of identity keys is that of ASCII letters.
- `YamlMerge.MergedReads`: a reading is the kind of a node, with tag and text for scalars and the length for sequences; the tag a sequence or mapping keeps from the user's tree is not part of it.
- Removing deprecated sections, pruneMappingToGeneratedKeys, the update of one nested scalar, and the reading and writing of the file around the merge.
- Config defaults and sanitising, HTTP routes, login, logging, plugins, cluster node selection and the subscription lifetime.
