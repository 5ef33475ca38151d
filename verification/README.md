# Verified models of the proxy's stateful core

The proxy keeps conversation state for its upstream models, rewrites its own configuration file, talks to a
central process called Home over the Redis protocol, reports released credentials to Home, and shuts plugins
down while they are being called. This project models those parts and proves what they keep in every run.

| part of the system | modules |
|---|---|
| Antigravity replay register, in process and in Home | `ReplayItems`, `ReplayNormal`, `ReplayLineage`, `ReplayRegister`, `ReplayRuns`, `ReplayTimes`, `ReplayFull`, `HomeReplay`, `HomeProgress` |
| Codex replay register | `CodexReplay`, `CodexTurns` |
| comment-preserving merge of the configuration file | `YamlTree`, `YamlMerge`, `YamlStructure`, `YamlPairing`, `YamlOrder`, `YamlDefaults`, `YamlBlankKeys`, `YamlWeights` (what it means); `YamlGraph`, `YamlShapes`, `YamlInPlace`, `YamlMergeInPlace` (what it does to node objects) |
| concurrency-release flusher | `ReleaseFlusher`, `ReleaseMarks` |
| lifetime of the Home client | `HomeClient`, `HomeNodes`, `RecoveryRaces` |
| guarded plugin client | `PluginGuard`, `PluginCalls` |
| Redis protocol reader and writers | `Resp`, `RespGrammar`, `RespCuts` |
| strings, optional values | `Text`, `Wrappers` |

**How it is built.** Code that changes fields under a mutex is a class whose methods are the critical sections
(`Register`, `ReleaseFlusher`, `HomeClient`, `GuardedClient`, `Copier`, `Reader`, `Writer`). Each method is proved
against a function or a relation on values. The concurrent programs are step machines over those same functions
and relations, and the main theorems speak of every run: sequences of worlds and events of any length, with the
steps of any number of requests interleaved in any order. Beside the machines stand modules that tell what a request
yields from the events alone, without the functions of the model: `ReplayTimes`, `HomeProgress`, `HomeNodes`,
`ReleaseMarks`, `CodexTurns` and `PluginCalls`. `ReplayNormal`, `YamlPairing`, `YamlOrder`, `YamlDefaults` and
`RespGrammar` do the same for normalization, the pairing of list elements, what is left of a mapping, defaults and the
protocol, from the members and bytes of the input.

**The replay registers.** A reader gets a snapshot; a writer may publish only if the chain is the one that was
read, or has grown on the same branch to a prefix of what is written. `ReplayLineage.Decide` is that rule. The
local register and the Home compare-and-swap loop are two machines, both shown to evolve as `ReplayLineage`
demands, and each swap in Home is shown to be a publish that the local rule allows.

**The merge.** `YamlTree` states the merge on values. `YamlMerge.MergeAgrees` and the lemmas of `YamlStructure` say
what its result means. `YamlMergeInPlace` is the code's own form, objects updated where they stand; a shape says
which object stands where, and each method is shown to leave objects that form a tree again, whose value is what
`YamlTree` says, that were in the tree before or are new, and to leave the source alone. The bodies of the longer
loops are methods of their own. Copies come from `YamlGraph`, where nodes may be shared and form cycles.

## Findings

Six promises one might read into the code do not hold. Each is shown by a run or an input, next to the exact
condition under which the promise is kept.

- An explicit `weight: 0` is meant to survive, and can be lost. It stands in an element of a sequence, and values around
  it are judged without regard to weights: a new provider in `openai-compatibility` whose one entry has an empty
  `api-key` and a weight of zero is written without its entries (`ZeroWeightCanBeLost`). The weight at any place of a
  configuration is there after the merge exactly if `Survives` holds (`WeightSurvives`): down to the first key on its
  way that the file lacks, or the first element that matches nothing in the file, only blank keys of elements are lost;
  such an element is copied as it is; and the value of such a key has to differ from zeros once it is pruned, and every
  value under a key further on the way has to differ from zeros as it is (`WeightOfNewKey`). A weight that has no such
  value around it is safe whatever the file holds (`SteadyWeightSurvives`).
- A blank key of the rendered configuration is removed as stale when its mapping is an element of a sequence
  (`BlankKeysAreStale`). `BlanksSafe` names the configurations that are not affected: blank keys stand elsewhere, or
  hold what comes down to a default. Those are exactly the ones the merge agrees with whatever the file holds
  (`AgreesWithEveryFile`), and exactly the ones that survive being merged into themselves (`AgreesWhenMergedIntoItself`).
- A session that only reads can end the snapshot of another, so that a publish which was allowed is refused:
  `ReadCanEndSnapshot` is a run of nothing but reads, as many as the register holds and one more. A read does so exactly
  if it throws the other key's entry out (`ReadsKeepSnapshots`, `ReadsKeepDeletes`), which it can only do when it misses
  while the register is full, and not to an entry with a whole batch of strictly older ones (`ReadsSpare`).
- Appending the same Codex turn twice is not always the same as appending it once: of a stored list of 257 turns the
  first is recognized and then trimmed away (`AppendTwiceCanDiffer`). It is the same exactly when the turn was not
  stored yet, or a marker with its id is so near the end of the stored list that the list from there on is within
  the bounds (`AppendTwice`).
- A plugin call may reach the inner client after `closed` was set (`EnterAfterClose`): what keeps the inner shutdown
  apart from calls is the count. From a closed state the inner client can still be entered exactly while some call
  is counted in and has not entered yet (`EntryAfterClose`), and only by such a call (`LateEntryWasCounted`).
- A node switch can go unrecorded, because it is two compare-and-swaps (`SuppressedSwitchIsLost` is such a run). In
  every run it is unrecorded exactly when a successful probe, or the first swap of a suppression, took effect between
  the two and no mark took effect after that (`SwitchIsRecorded`); `MarkIsRecorded` is the same for a mark.

## Model

| member | source | states |
|---|---|---|
| ReplayItems.Normalize | backend/internal/cache/antigravity_reasoning_replay_cache.go:500-517 | the loop that gives up at the first item over the byte limit judges a chain exactly as judging the whole chain at once would |
| ReplayItems.NormalizeItemTwice | backend/internal/cache/antigravity_reasoning_replay_cache.go:519-613 | an item that was normalized is left alone when normalized again, for both kinds of item and every fallback between their members |
| ReplayItems.NormalizeTwice | backend/internal/cache/antigravity_reasoning_replay_cache.go:500-517 | a chain in normal form is accepted again, unchanged |
| ReplayItems.OwnValueFits | backend/internal/cache/antigravity_reasoning_replay_cache.go:428-440 | any chain that normalization accepts, with its marker and the base64 expansion of its items, serializes within the 24 MiB a reader accepts |
| ReplayNormal.SignatureKept | backend/internal/cache/antigravity_reasoning_replay_cache.go:533-558 | a signature is accepted exactly if its text, from either spelling of the member, is at least 16 long and not the skip marker; what then reads back under every member, and nothing else |
| ReplayNormal.CallKept | backend/internal/cache/antigravity_reasoning_replay_cache.go:560-613 | a call is accepted exactly if it has a name that is not blank and arguments, each at the top level or nested; what then reads back under every member, the nested id and the skip marker among it, and nothing else |
| ReplayNormal.OthersDropped | backend/internal/cache/antigravity_reasoning_replay_cache.go:519-531 | an item of any other type is not accepted |
| ReplayNormal.KeptInOrder | backend/internal/cache/antigravity_reasoning_replay_cache.go:501-513 | what is kept of a chain is the accepted items in order, none missing, each judged alone |
| ReplayNormal.ChainAccepted | backend/internal/cache/antigravity_reasoning_replay_cache.go:500-517 | a chain is accepted exactly if it has at most 4096 items, what is kept of it is at most 16 MiB and something is kept, and as what is kept |
| ReplayLineage.IsItemsPrefix | backend/internal/cache/antigravity_reasoning_replay_cache.go:456-466 | true exactly when the first chain is a prefix of the second |
| ReplayLineage.LineageOfHistory | backend/internal/cache/antigravity_reasoning_replay_cache.go:333-353 | over any history whose steps only start new branches or extend chains on their branch, a branch seen twice belongs to one key and its earlier chain is a prefix of its later one |
| ReplayLineage.BranchNeverReturns | backend/internal/cache/antigravity_reasoning_replay_cache.go:420-426 | a used branch that a key does not carry is never carried by that key again |
| ReplayRegister.Register.Get | backend/internal/cache/antigravity_reasoning_replay_cache.go:230-251 | a hit renews the timestamp and yields revision, branch and chain; a miss or an expired entry leaves a tombstone on a fresh branch; nothing else changes |
| ReplayRegister.Register.ReserveAbsent | backend/internal/cache/antigravity_reasoning_replay_cache.go:256-275 | room is made by evicting the oldest, then a tombstone with the next revision and a fresh branch is stored, and the snapshot describes it |
| ReplayRegister.Register.Cache | backend/internal/cache/antigravity_reasoning_replay_cache.go:127-142 | an accepted chain is stored under the next revision on a fresh branch, and the map is brought back under capacity |
| ReplayRegister.Register.ReplaceIfUnchanged | backend/internal/cache/antigravity_reasoning_replay_cache.go:279-353 | invalid chains are rejected, a refused publish changes nothing, and a publish that is allowed stores the chain on the branch the rule names |
| ReplayRegister.Register.Judge | backend/internal/cache/antigravity_reasoning_replay_cache.go:337-346 | the guards of the code decide as the publish rule does |
| ReplayRegister.Register.DeleteIfUnchanged | backend/internal/cache/antigravity_reasoning_replay_cache.go:357-385 | a tombstone on a fresh branch if the entry is the one that was read, otherwise refused without a change |
| ReplayRegister.Register.Delete | backend/internal/cache/antigravity_reasoning_replay_cache.go:396-418 | a tombstone on a fresh branch whatever was there |
| ReplayRegister.Register.Clear | backend/internal/cache/antigravity_reasoning_replay_cache.go:478-483 | no entries, and the eviction epoch one further |
| ReplayRegister.Register.PurgeExpired | backend/internal/cache/antigravity_reasoning_replay_cache.go:647-656 | exactly the expired entries go, and the epoch grows by their number |
| ReplayRegister.Register.EvictOldest | backend/internal/cache/antigravity_reasoning_replay_cache.go:623-645 | exactly min(count, size) entries go, no survivor is older than an evicted entry, the survivors are unchanged, and the epoch grows by the number evicted |
| ReplayRuns.NoLostUpdate | backend/internal/cache/antigravity_reasoning_replay_cache.go:337-346 | in every reachable state, a conditional publish that is not refused overwrites either the chain that was read or a prefix of the chain it writes; the branch is kept only over a prefix and left only over what was read |
| ReplayRuns.Step | backend/internal/cache/antigravity_reasoning_replay_cache.go:100-418 | every operation keeps the invariant (distinct revisions and branches, what snapshots know, at most MaxEntries entries) and moves each key only to a fresh branch or to a longer chain |
| ReplayRuns.InvAlways | backend/internal/cache/antigravity_reasoning_replay_cache.go:100-418 | the invariant, the capacity bound in it, holds in every state of every run |
| ReplayRuns.BranchLineage | backend/internal/cache/antigravity_reasoning_replay_cache.go:230-418 | in every run, if keys carry the same branch at two times they are the same key and the earlier chain is a prefix of the later one, a tombstone being the empty chain |
| ReplayRuns.RevisionIdentifiesWrite | backend/internal/cache/antigravity_reasoning_replay_cache.go:347-348 | in every run, a revision seen at two times is under one key with one content: no ABA |
| ReplayRuns.SnapshotDies | backend/internal/cache/antigravity_reasoning_replay_cache.go:127-142 | an overwrite, delete, eviction, purge, clear or expiry of a key leaves every snapshot handed out before it dead for that key |
| ReplayRuns.DeadSnapshotsStayDead | backend/internal/cache/antigravity_reasoning_replay_cache.go:333-418 | once dead for a key, a snapshot is dead for it in every later state, also after the key is recreated |
| ReplayRuns.DeadSnapshotsAreRefused | backend/internal/cache/antigravity_reasoning_replay_cache.go:338-342 | no later conditional publish or delete with a dead snapshot ever succeeds |
| ReplayRuns.ReadsKeepSnapshots | backend/internal/cache/antigravity_reasoning_replay_cache.go:230-251 | a publish that a snapshot allowed before a read is decided the same way after it exactly when the read neither expired nor evicted the entry of its key |
| ReplayRuns.ReadsKeepDeletes | backend/internal/cache/antigravity_reasoning_replay_cache.go:230-251 | the same for a conditional delete |
| ReplayRuns.ReadsSpare | backend/internal/cache/antigravity_reasoning_replay_cache.go:253-275 | told from the state before: a read that is a hit, or finds room, evicts nothing; one that must make room spares every entry with a batch of strictly older ones and takes every entry that is among the batch no younger than itself |
| ReplayFull.ReadCanEndSnapshot | backend/internal/cache/antigravity_reasoning_replay_cache.go:256-259 | for any chain there is a run of nothing but reads, the last one of another key, in which the last read turns a publish that a snapshot allows into a refused one |
| ReplayRuns.EntriesAreConserved | backend/internal/cache/antigravity_reasoning_replay_cache.go:238-242 | over any run without a clear, the epoch plus the entries held equals the entries ever created: the epoch counts each evicted, purged or expired entry once |
| ReplayRuns.PublishedIsStored | backend/internal/cache/antigravity_reasoning_replay_cache.go:347-352 | after a conditional publish that succeeded the key holds the published chain under the newest revision, and no other entry was touched or evicted |
| ReplayTimes.ReadIsTold | backend/internal/cache/antigravity_reasoning_replay_cache.go:230-251 | a read, in every run, told from events and their times: what was written or read within the hour and not thrown out since is found as written last, and is renewed; anything else is not found; the snapshot describes what is there now |
| ReplayTimes.ReadAfterWrite | backend/internal/cache/antigravity_reasoning_replay_cache.go:243-250 | if nothing happens to its key in between, a read finds exactly the chain written if at most 3 600 000 000 000 ns have passed, and nothing otherwise |
| ReplayTimes.ReadAfterRead | backend/internal/cache/antigravity_reasoning_replay_cache.go:245-246 | the same after a read: a hit renews, so that the hour is counted from the last read |
| ReplayTimes.PurgeIsTold | backend/internal/cache/antigravity_reasoning_replay_cache.go:647-656 | a purge takes exactly what was neither written nor read within the hour |
| ReplayTimes.PublishOutcome | backend/internal/cache/antigravity_reasoning_replay_cache.go:333-353 | how a publish ends: with a snapshot that was read it succeeds exactly if the entry is the one that was read, or a live one on its branch whose chain is a prefix of the new one; and which branch it is then on |
| ReplayTimes.DeleteOutcome | backend/internal/cache/antigravity_reasoning_replay_cache.go:357-385 | a conditional delete succeeds exactly if the entry is the one that was read, or nothing was |
| ReplayTimes.UnchangedIsWritten | backend/internal/cache/antigravity_reasoning_replay_cache.go:333-385 | what was read can be published to, and deleted, as long as nothing happens to the key |
| ReplayTimes.WritesSpare | backend/internal/cache/antigravity_reasoning_replay_cache.go:623-645 | a write evicts no other entry while there is room, and none that has 128 strictly older ones |
| ReplayTimes.LossRaisesEpoch | backend/internal/cache/antigravity_reasoning_replay_cache.go:478-483 | the epoch grows with every clear and whenever an entry is gone |
| HomeReplay.OwnValuesAreAccepted | backend/internal/cache/antigravity_reasoning_replay_cache.go:207-227 | every value written here is read back in full: within the size limit, decoded, and left alone by normalization |
| HomeReplay.Step | backend/internal/cache/antigravity_reasoning_replay_cache.go:183-227 | every Home operation, taken at any moment by any client, keeps the invariant |
| HomeReplay.FreshBranchNeverRetries | backend/internal/cache/antigravity_reasoning_replay_cache.go:312-328 | a publisher that drew a fresh branch is always turned away by its re-read, so "fresh branch and success on a retry" cannot happen |
| HomeReplay.HomeBranchLineage | backend/internal/cache/antigravity_reasoning_replay_cache.go:183-331 | branch lineage for Home's store in every interleaving of reads, reservations, swaps, re-reads, deletes and expiries |
| HomeReplay.HomePublishRefinesLocal | backend/internal/cache/antigravity_reasoning_replay_cache.go:291-353 | every swap that takes effect is a publish the local rule allows for the same snapshot, on the branch that rule would leave |
| HomeReplay.RetryKeepsBranch | backend/internal/cache/antigravity_reasoning_replay_cache.go:297-331 | a publish that succeeds on a retry keeps the branch of its snapshot |
| HomeReplay.HomeDeadSnapshotsStayDead | backend/internal/cache/antigravity_reasoning_replay_cache.go:303-331 | once a key has left the branch of a snapshot, no swap and no delete relying on the snapshot takes effect on it any more |
| HomeReplay.MayResume | backend/internal/cache/antigravity_reasoning_replay_cache.go:312-326 | the checks after a lost swap pass exactly when the re-read value is on the snapshot's branch, decodes, is in normal form and is a prefix of the chain |
| HomeReplay.ReplaceIfUnchanged | backend/internal/cache/antigravity_reasoning_replay_cache.go:279-331 | the loop of at most four attempts, whatever Home answers, ends and writes as its rounds say; a snapshot that was never loaded makes it a plain set of the normalized chain on a fresh branch |
| HomeReplay.CacheBestEffort | backend/internal/cache/antigravity_reasoning_replay_cache.go:100-126 | an accepted chain is set on a fresh branch; whatever fails counts as not written |
| HomeReplay.RoundIsStep | backend/internal/cache/antigravity_reasoning_replay_cache.go:303-328 | the step that gives a publisher an answer does to it, with the lost swap before it, what one round of the loop does with that answer |
| HomeReplay.PublisherRunsTheLoop | backend/internal/cache/antigravity_reasoning_replay_cache.go:291-331 | in every run of the machine and at any time, a publisher is where the loop is after the answers that run gave it so far, or waits for the re-read after a lost swap; it goes on only below the limit of attempts; and when it is over, it is where the loop ends on those answers, whatever might follow |
| HomeProgress.RetryIsDescent | backend/internal/cache/antigravity_reasoning_replay_cache.go:312-328 | the other half of the refinement: in every reachable state a publisher that lost its swap goes round again exactly if an attempt is left and the local rule would take what is there now for a prefix, on the snapshot's branch, of its chain |
| HomeProgress.RefusedByReread | backend/internal/cache/antigravity_reasoning_replay_cache.go:303-331 | a publish is refused only by a re-read that finds no attempt left or no such prefix |
| HomeProgress.RetryCanSucceed | backend/internal/cache/antigravity_reasoning_replay_cache.go:291-331 | for any chain, extension and further extension there is a run in which the longest is stored on its second attempt, after it lost its swap to the shorter one |
| HomeProgress.ReadReturnsLastWrite | backend/internal/cache/antigravity_reasoning_replay_cache.go:183-227 | in every run a read gets the chain of the last write to its key, a tombstone being no chain, with a snapshot that can be published with |
| HomeProgress.AnyValueIsRead | backend/internal/cache/antigravity_reasoning_replay_cache.go:207-227 | what any stored value is read as, older releases' and strangers' among them: its chain exactly if it decodes, is no tombstone, is within the bounds and every item in it is accepted |
| HomeProgress.UntouchedIsThere | backend/internal/cache/antigravity_reasoning_replay_cache.go:183-206 | a key that nobody wrote in a run holds what it held at the start |
| HomeProgress.ReservationIsRead | backend/internal/cache/antigravity_reasoning_replay_cache.go:190-206 | a read that fences a missing key gets a snapshot of its own tombstone |
| HomeProgress.UnchangedIsWritten | backend/internal/cache/antigravity_reasoning_replay_cache.go:291-311 | a first swap and a conditional delete take effect if the value that was read is still there |
| CodexReplay.TrimLoop | backend/internal/cache/codex_reasoning_replay_cache.go:212-230 | the loop that drops one turn at a time ends, with the first turn-aligned suffix that fits |
| CodexReplay.TrimIsLongest | backend/internal/cache/codex_reasoning_replay_cache.go:212-230 | the result is a turn-aligned suffix within both bounds, and none within both bounds is longer |
| CodexReplay.TrimmedToNothing | backend/internal/cache/codex_reasoning_replay_cache.go:225-227 | everything is lost exactly when the last turn alone exceeds the byte bound |
| CodexReplay.AppendTurn | backend/internal/cache/codex_reasoning_replay_cache.go:190-210 | items without a leading marker are dropped, a turn whose id is stored adds nothing, any other is appended, and the result is trimmed |
| CodexReplay.NewTurnIsRetained | backend/internal/cache/codex_reasoning_replay_cache.go:190-210 | a turn that fits and is not stored yet is, after the append, the whole end of the list, and its id is stored |
| CodexReplay.StoredAfterTrim | backend/internal/cache/codex_reasoning_replay_cache.go:212-230 | an id is still stored after a trim exactly if some marker with it is so near the end that the list from there on is within the bounds |
| CodexReplay.AppendTwice | backend/internal/cache/codex_reasoning_replay_cache.go:198-205 | appending a turn again changes nothing exactly if the turn was not stored, or its marker is near enough to the end of the stored list to outlive the trim; so always for a stored list within the bounds |
| CodexReplay.AppendTwiceCanDiffer | backend/internal/cache/codex_reasoning_replay_cache.go:198-205 | 257 stored turns and the first of them appended again, twice: the second time it is no longer recognized |
| CodexReplay.NormalizeItems | backend/internal/cache/codex_reasoning_replay_cache.go:347-357 | the items that normalize, in order, trimmed; accepted exactly if something is left, and then within the bounds |
| CodexReplay.TrimFusion | backend/internal/cache/codex_reasoning_replay_cache.go:206-209 | trimming before an append and after it is trimming once at the end |
| CodexReplay.AppendsAreLinearizable | backend/internal/cache/codex_reasoning_replay_cache.go:136-171 | in every interleaving of any number of append loops with foreign writes, the cell holds the sequential appends in the order of their swaps; each call takes effect at most once, and a call that reports success took effect |
| CodexReplay.EffectIsInsideItsCall | backend/internal/cache/codex_reasoning_replay_cache.go:138-168 | an append takes effect only by a swap of the call that owns it, while that call runs |
| CodexReplay.EveryRunHoldsASuffix | backend/internal/cache/codex_reasoning_replay_cache.go:136-171 | in every run that starts empty and sees only appends, the cell is the longest turn-aligned suffix within the bounds of everything that was new when appended |
| CodexTurns.AppendOutcome | backend/internal/cache/codex_reasoning_replay_cache.go:190-230 | told from markers and ids: the result is the latest of what was stored and the turn behind it, of what was stored alone if a marker there has the turn's id, of the turn alone if the list does not begin with a marker |
| CodexTurns.LatestIsUnique | backend/internal/cache/codex_reasoning_replay_cache.go:212-230 | the latest of a list is determined by whole turns, at most 256 of them and 16 MiB of text |
| CodexTurns.SwapOutcome | backend/internal/cache/codex_reasoning_replay_cache.go:138-171 | a swap takes effect exactly if the cell is as it was read; one that is answered and does not is tried again unless it is the call's thirty-second; success is reported exactly if it took effect and was answered |
| CodexTurns.GivenUp | backend/internal/cache/codex_reasoning_replay_cache.go:139-173 | a call gives up only if it is called off, cannot read what is there, gets no answer, or has lost 32 swaps |
| CodexTurns.RetryCanSucceed | backend/internal/cache/codex_reasoning_replay_cache.go:139-171 | a run in which another writer comes between the first read and the first swap, and the turn is then appended to what that writer left |
| YamlMerge.ZeroPrunes | backend/internal/config/config_yaml.go:358-437 | pruning a zero value leaves a zero value |
| YamlMerge.PrunedLookup | backend/internal/config/config_yaml.go:358-392 | what pruning leaves under each key: nothing if the value is a default or comes down to an empty collection, else the pruned value |
| YamlMerge.PruneAgrees | backend/internal/config/config_yaml.go:358-392 | a pruned copy agrees with what was copied: only defaults are missing |
| YamlMerge.KeptLookup | backend/internal/config/config_yaml.go:720-749 | a key that is not stale is still found, with its value, after the stale ones are removed |
| YamlMerge.MergeResult | backend/internal/config/config_yaml.go:181-283 | for any rendered configuration, blank keys included: the merge is again a well-formed file, and agrees with the configuration if its blank keys are safe |
| YamlMerge.MergeAgrees | backend/internal/config/config_yaml.go:181-283 | whatever the file held, after the merge every source scalar is there with its tag and value, every source sequence with its length and its elements, every source key unless what it holds comes down to a default; a null kept for an empty list agrees. Blank keys of the source are safe unless their mapping is an element of a sequence |
| YamlBlankKeys.AgreesWithEveryFile | backend/internal/config/config_yaml.go:253-262 | the merge agrees with a source whatever the file holds exactly if the source's blank keys are safe |
| YamlBlankKeys.AgreesWhenMergedIntoItself | backend/internal/config/config_yaml.go:720-749 | a source agrees with its merge into a file that is the source itself exactly if its blank keys are safe |
| YamlStructure.MergeKeepsOrder | backend/internal/config/config_yaml.go:196-214 | the merged mapping is the old keys in their places, each value merged exactly once if the source has its key and else untouched, followed by exactly the new pairs that are not defaults, in source order |
| YamlStructure.MergeKeepsComments | backend/internal/config/config_yaml.go:181-283 | every node that stays a mapping keeps its comments, its key nodes and their places, all the way down |
| YamlStructure.SequenceReuse | backend/internal/config/config_yaml.go:485-548 | each merged element is its target merged into the original matched to it, or a copy of its target, and no original stands in two places |
| YamlPairing.ElementsArePaired | backend/internal/config/config_yaml.go:231-283 | told from the elements alone: the n-th of those alike in a merged sequence is merged into the n-th of those alike in the file and rid of stale keys, and copied if the file has no n-th; elements are alike if they are mappings with the same identity, or else say the same |
| YamlPairing.EditedElementIsKept | backend/internal/config/config_yaml.go:485-548 | a mapping element that is the only one of its identity in file and configuration keeps its comments, and its node for every key that is still there, wherever it moved and whatever else of it changed |
| YamlPairing.ScalarElementIsKept | backend/internal/config/config_yaml.go:485-548 | a scalar element keeps its comments if it is the only one that reads the same, blanks around it aside, and takes the source's tag and value |
| YamlPairing.AlikeMeans | backend/internal/config/config_yaml.go:507-548 | two elements are alike exactly if one of the two passes over the originals recognizes one by the other |
| YamlPairing.NamedIdentity | backend/internal/config/config_yaml.go:550-590 | the identity of a mapping is the first of nine named keys, in their order, under which there is a scalar that is not blank |
| YamlPairing.NamelessIdentity | backend/internal/config/config_yaml.go:550-590 | without any of them it is the first scalar that is not blank |
| YamlPairing.EqualOnceErased | backend/internal/config/config_yaml.go:592-630 | structural equality is equality once tags, styles, comments and blanks around scalars are erased |
| YamlPairing.SequenceNode | backend/internal/config/config_yaml.go:235-245 | an explicit null is left alone where there is nothing to list; any other node becomes a sequence and keeps its comments |
| YamlStructure.MatchesUnused | backend/internal/config/config_yaml.go:507-548 | no original is matched twice, and none that was used before |
| YamlStructure.NoStaleKeys | backend/internal/config/config_yaml.go:250-262 | a mapping element of a merged sequence has no key, blanks aside, that its source element lacks |
| YamlStructure.BlankKeysAreStale | backend/internal/config/config_yaml.go:724-743 | removing stale keys takes a key of the source with it exactly when the key is blank |
| YamlOrder.PruneMissingKeepsOrder | backend/internal/config/config_yaml.go:720-749 | what is left of a mapping once stale keys are removed: exactly the pairs whose key, blanks aside, the source has and that is not blank, untouched and in their order |
| YamlOrder.PruneKeepsOrder | backend/internal/config/config_yaml.go:358-387 | a mapping new to the file is written pair by pair in its own order: exactly the pairs whose value is no default and of whose value something is left, key nodes as they are, values pruned |
| YamlOrder.PruneKeepsElements | backend/internal/config/config_yaml.go:387-391 | a list new to the file keeps every element, each pruned |
| YamlOrder.MappingNode | backend/internal/config/config_yaml.go:229-234 | a node that becomes a mapping takes over tag and value, one that is a mapping keeps its own; comments stay |
| YamlOrder.ScalarNode | backend/internal/config/config_yaml.go:271-277 | a scalar takes over kind, tag and value and leaves the comments of the file; a node of no kind changes nothing |
| YamlStructure.MergedLookup | backend/internal/config/config_yaml.go:181-215 | what the merged mapping holds under each key of the source: the old value merged with the source's, or, for a new key, the pruned value unless that is a default |
| YamlDefaults.ZeroMeans | backend/internal/config/config_yaml.go:394-437 | a value is zero exactly if everything it comes down to is one of six zeros or a null; keys do not count |
| YamlDefaults.ScalarOfNewKey | backend/internal/config/config_yaml.go:310-352 | a scalar under a key the file lacks is written, as it is, exactly if it is an integer weight, or neither a zero nor one of five defaults named with their place |
| YamlDefaults.ScalarInNewValue | backend/internal/config/config_yaml.go:358-392 | the same for a scalar anywhere inside a value that is new to the file |
| YamlDefaults.PruneIsClean | backend/internal/config/config_yaml.go:358-392 | what is written of a new value has, in no mapping at any depth, a scalar that is not worth writing, an empty list or an empty mapping |
| YamlWeights.PrunedWalk | backend/internal/config/config_yaml.go:358-392 | a weight at any depth of a value is still there after pruning exactly if no value under a key on the way to it is all zeros |
| YamlWeights.WeightSurvives | backend/internal/config/config_yaml.go:181-283 | for any file and any configuration, a weight at any place of the configuration is there after the merge exactly if, where the file first lacks its way, nothing around it is left out as zeros, and no blank key of an element is on the way before |
| YamlWeights.WeightOfNewKey | backend/internal/config/config_yaml.go:205-213 | a weight in the value of a key the file lacks is written exactly if it is that value, or the value is not all zeros once pruned and no value under a key further on the way is all zeros |
| YamlWeights.SteadyWeightSurvives | backend/internal/config/config_yaml.go:313-323 | a weight with no value around it that comes down to zeros, and no blank key of an element on its way, is kept whatever the file holds |
| YamlWeights.ZeroWeightCanBeLost | backend/internal/config/config_yaml.go:369-378 | a provider whose one entry has an empty key and a weight of zero, new to a file, is written and its weight is lost |
| YamlGraph.Copier.DeepCopyNodeSeen | backend/internal/config/config_yaml.go:444-463 | ends on any finite graph, with sharing and cycles through content and aliases; adds only nodes of whichever closed set is chosen; each new copy is a fresh object with the node's fields and with pointers to copies; no original is modified |
| YamlGraph.DeepCopyNode | backend/internal/config/config_yaml.go:440-442 | the copied nodes are closed and inside every closed set with the root in it; they map one to one onto fresh objects, commuting with content and alias |
| YamlGraph.CopyIsClosed | backend/internal/config/config_yaml.go:444-463 | no copy points back to an original |
| YamlGraph.WalksCorrespond | backend/internal/config/config_yaml.go:444-463 | every path of pointers from the copy leads to the copy of where it leads from the original |
| YamlGraph.SharingIsCopied | backend/internal/config/config_yaml.go:448-453 | two paths meet in the copy exactly when they meet in the original |
| YamlShapes.CopiedIsRep | backend/internal/config/config_yaml.go:440-463 | the copy of a tree of objects is a tree of objects that stands for the same value |
| YamlShapes.DeepCopyTree | backend/internal/config/config_yaml.go:440-442 | a tree's copy is made of fresh objects and stands for the same value |
| YamlShapes.FindMapKeyIndex | backend/internal/config/config_yaml.go:287-297 | the index of the first key node with this value, or -1 |
| YamlInPlace.PruneKnownDefaultsInNewNode | backend/internal/config/config_yaml.go:358-392 | in place: the objects left form a tree, were there before, and stand for the pruned value |
| YamlMergeInPlace.CopyNodeShallow | backend/internal/config/config_yaml.go:467-483 | kind, tag, value and a fresh copy of the content are taken over; the object and its comments stay; the source is untouched |
| YamlMergeInPlace.ReorderSequenceForMerge | backend/internal/config/config_yaml.go:485-505 | the elements stand in the order of their targets, nil where nothing matches, and still form a tree |
| YamlMergeInPlace.PruneMissingMapKeys | backend/internal/config/config_yaml.go:720-749 | in place: exactly the pairs with keys the source lacks are gone |
| YamlMergeInPlace.MergeMappingPreserve | backend/internal/config/config_yaml.go:181-215 | in place: the destination becomes the merge of the two trees, made of its own objects and new ones |
| YamlMergeInPlace.MergeElementPreserve | backend/internal/config/config_yaml.go:253-263 | an element is merged where it stands and rid of stale keys, or copied where there was none |
| YamlMergeInPlace.MergeNodePreserve | backend/internal/config/config_yaml.go:220-283 | in place, for every kind of source node: the destination stays the root and becomes the merge of the two trees |
| YamlMergeInPlace.MergeConfig | backend/internal/config/config_yaml.go:64-65 | after the merge step of a save, the file's objects keep the file's comments and keys, share no object with the rendered configuration, and agree with it if its blank keys are safe |
| ReleaseFlusher.ReleaseFlusher.MarkDirty | backend/internal/home/concurrency_release.go:77-100 | no ticket for an invalid mark; a ticket closed at once if its sequence is acknowledged already; otherwise it waits and the latest sequence is raised if the mark is higher |
| ReleaseFlusher.ReleaseFlusher.Acknowledge | backend/internal/home/concurrency_release.go:216-230 | a higher sequence raises the acknowledged one, closes exactly the waiters it covers, none twice, and leaves the others waiting |
| ReleaseFlusher.ReleaseFlusher.CloseDue | backend/internal/home/concurrency_release.go:220-227 | the loop over the waiting lists closes and drops exactly those at or below the sequence, and never closes a channel that is closed |
| ReleaseFlusher.ReleaseFlusher.Flush | backend/internal/home/concurrency_release.go:187-233 | without a sender nothing happens; otherwise a flush during which nothing else happens settles exactly the pending groups Home accepts, and reports failure exactly if one was not accepted |
| ReleaseFlusher.ReleaseFlusher.Idle | backend/internal/home/concurrency_release.go:258-267 | idle exactly when every group's latest sequence is acknowledged |
| ReleaseFlusher.InvAlways | backend/internal/home/concurrency_release.go:77-233 | with marks and any number of flushes interleaved step by step, acknowledged never exceeds latest, each open ticket waits once under its own sequence, and what flushes carry stays below latest |
| ReleaseFlusher.TicketsFollowHome | backend/internal/home/concurrency_release.go:187-267 | a closed ticket was covered by a sequence Home accepted, and once no answer waits to be recorded a ticket is closed exactly when an answered one covers it; an open one lies in (acked, latest] and is covered by what the next flush sends, also if Home accepted it and the answer was lost; an idle flusher has none |
| ReleaseFlusher.NothingGoesBack | backend/internal/home/concurrency_release.go:77-233 | sequences only grow, and closed tickets stay closed |
| ReleaseMarks.TicketsAreMarks | backend/internal/home/concurrency_release.go:77-100 | in every run the tickets are the marks in order, and a group's latest sequence is the highest marked |
| ReleaseMarks.PendingIsOpen | backend/internal/home/concurrency_release.go:187-199 | what a flush sets out to send is exactly the groups with an open ticket, each with the highest sequence marked |
| ReleaseMarks.IdleIsAllClosed | backend/internal/home/concurrency_release.go:258-267 | the flusher is idle exactly if every mark's ticket is closed, and exactly if a flush would send nothing |
| HomeClient.HomeClient.EnsureClients | backend/internal/home/client.go:451-489 | refused without a change when Home is disabled or the fence is up; otherwise missing pools are created, the command pool first, unless address or options are bad |
| HomeClient.HomeClient.Track | backend/internal/home/client.go:516-539 | a new connection is tracked, or refused if the fence is up |
| HomeClient.HomeClient.DetachAll | backend/internal/home/client.go:267-286 | everything held is handed over for closing and nothing is held any more |
| HomeClient.HomeClient.Untrack | backend/internal/home/client.go:541-553 | a connection closed by its owner is no longer tracked |
| HomeClient.HomeClient.NewLifetime | backend/internal/home/client.go:197-214 | a new lifetime inherits address, seed address, cluster nodes, failure count and instance, recovery state and downgrade, and holds no pool, connection, fence or revision |
| HomeClient.HomeClient.MarkTakeoverEligible | backend/internal/home/client.go:1683-1690 | the takeover bit is set, the switch bit stays |
| HomeClient.HomeClient.SuppressTakeover | backend/internal/home/client.go:339-346 | the takeover bit is cleared, the switch bit stays |
| HomeClient.HomeClient.EnableLegacyMembership | backend/internal/home/client.go:237-245 | the downgrade is recorded and the takeover bit cleared |
| HomeClient.HomeClient.ReleaseClient | backend/internal/home/client.go:1365-1400 | a release pool only if Home is enabled, without the fence, in the stable state and with a usable address |
| HomeClient.HomeClient.SwitchToNode | backend/internal/home/client.go:806-821 | a different usable node is taken over, the switch is recorded, and all pools and connections of the old node are handed over for closing |
| HomeClient.HomeClient.SubscriptionParameters | backend/internal/home/client.go:1658-1681 | revision, takeover request and instance are asked for as revision, recovery state and downgrade say |
| HomeClient.FenceIsFinal | backend/internal/home/client.go:266-553 | once some Close or AbortAmbiguousDispatch has left its critical section, whatever interleaves afterwards, no pool is held and no connection tracked, and every later dial, pool request and release request is refused |
| HomeClient.NoConnectionIsLost | backend/internal/home/client.go:348-553 | a dialed connection is tracked or refused, and leaves the tracked set only by being taken out for closing or closed by its owner |
| HomeClient.FlagIsNotEnough | backend/internal/home/client.go:267-286 | a run in which the flag is up and a connection is still tracked: the fence is final from the critical section on, not before |
| HomeClient.RecoveryIsHistory | backend/internal/home/client.go:197-245 | over any operations across any number of lifetimes, the four recovery states are two bits: a node switch no successful probe has followed, and a takeover mark no probe and no suppression has followed |
| HomeClient.TakeoverIsRequested | backend/internal/home/client.go:1658-1681 | a subscription asks for a takeover exactly if the second bit is set, a revision is known and the chain was never downgraded |
| HomeClient.ReleaseNeedsStability | backend/internal/home/client.go:1365-1385 | a release client is obtained only when both bits are clear, and then exactly if the fence, the switch, the address and the options permit |
| HomeNodes.NodeAfterSwitch | backend/internal/home/client.go:806-821 | in every run, from a switch to the next the client is at the node it switched to, and can switch exactly to nodes that can be dialed and are another |
| HomeNodes.SwitchLeavesNothing | backend/internal/home/client.go:806-821 | after a switch no pool, no release client and no connection of the old node is left |
| HomeNodes.PoolsAreCurrent | backend/internal/home/client.go:451-489 | in every run every pool that is held goes to the current address |
| HomeNodes.PoolRequest | backend/internal/home/client.go:451-489 | what a pool request yields: under the fence, without a usable address, or otherwise; which pools are there after it, and with which error it ends |
| HomeNodes.PoolsAfterSwitch | backend/internal/home/client.go:451-489 | after a switch and without the fence, a request with good options ends with both pools held, at the new node, and no error |
| HomeNodes.ReleaseRequest | backend/internal/home/client.go:1365-1400 | what a request for the release client yields, told from the fence, the recovery state, the address and the options |
| HomeNodes.DialIsDecided | backend/internal/home/client.go:516-539 | a dialed connection is tracked exactly if nobody has raised the fence before it registers |
| HomeNodes.LifetimesKeepHistory | backend/internal/home/client.go:197-214 | after any operations over any number of lifetimes: the node of the last switch, the state as two bits of history, and the exact subscription arguments, told from the operations |
| RecoveryRaces.AloneIsOneStep | backend/internal/home/client.go:339-346 | an operation whose two swaps nothing comes between is the one step that the other theorems take it as |
| RecoveryRaces.RecoveryIsSwapHistory | backend/internal/home/client.go:1683-1699 | in every interleaving of single swaps and probe stores, the four states are two bits: a switch swap that took effect with no probe since, and a mark swap that took effect with no probe and no suppression swap since |
| RecoveryRaces.SwitchIsRecorded | backend/internal/home/client.go:806-821 | in every run, a switch is recorded after its last swap unless a probe, or the first swap of a suppression, took effect between its two swaps and no mark took effect after that; exactly then it is not |
| RecoveryRaces.MarkIsRecorded | backend/internal/home/client.go:1683-1690 | a mark is recorded after its last swap unless such an event came between its two swaps and neither a mark nor a switch took effect after it; exactly then it is not |
| RecoveryRaces.SuppressedSwitchIsLost | backend/internal/home/client.go:339-346 | a run of four swaps in which a suppression comes between the two swaps of a switch and the switch is lost |
| PluginGuard.GuardedClient.Acquire | backend/internal/pluginhost/client_guard.go:60-71 | a call is counted in exactly if the client is open and attached |
| PluginGuard.GuardedClient.Release | backend/internal/pluginhost/client_guard.go:73-80 | a call is counted out, and a waiting shutdown is woken exactly at zero |
| PluginGuard.GuardedClient.Detach | backend/internal/pluginhost/client_guard.go:96-110 | only the first shutdown takes the inner client out |
| PluginGuard.ShutdownIsGuarded | backend/internal/pluginhost/client_guard.go:24-128 | in every reachable state the count is the number of calls under way, abandoned ones included; of any number of shutdowns one reaps; the inner client is shut down at most once and never while a call is under way; done is closed once and only after that |
| PluginGuard.NoCallAfterShutdown | backend/internal/pluginhost/client_guard.go:60-128 | no call is let in once closed, none is inside from the inner shutdown on, and done is closed once |
| PluginGuard.LetInWhenOpen | backend/internal/pluginhost/client_guard.go:60-71 | the calls that get in are exactly those that arrived while the client was open |
| PluginGuard.LateEntryWasCounted | backend/internal/pluginhost/client_guard.go:32-42 | in every run, a call that enters the inner client at any time after the close had been counted in, and had not entered, when the client was closed |
| PluginGuard.EntryAfterClose | backend/internal/pluginhost/client_guard.go:32-128 | from a closed state of a run the inner client can still be entered exactly if some call is counted in and has not entered yet |
| PluginGuard.EnterAfterClose | backend/internal/pluginhost/client_guard.go:32-42 | a run in which a call let in before reaches the inner client after the client was closed |
| PluginGuard.ShutdownIsNeverStuck | backend/internal/pluginhost/client_guard.go:112-122 | no wake-up is lost: with no call under way, the shutdown can always take its next step |
| PluginCalls.CallIsLetIn | backend/internal/pluginhost/client_guard.go:60-71 | in every run a call is let in exactly if there is an inner client and no shutdown came before it |
| PluginCalls.UnderWay | backend/internal/pluginhost/client_guard.go:24-80 | a call that was let in is under way until its goroutine leaves, whether or not its caller still waits |
| PluginCalls.AllHaveLeft | backend/internal/pluginhost/client_guard.go:112-122 | before the inner client is shut down, and before done is closed, every call that was ever let in has left |
| PluginCalls.SleepsWhileUsed | backend/internal/pluginhost/client_guard.go:114-116 | the reaper sleeps exactly while some call that was let in has not left |
| PluginCalls.ReaperIsFirst | backend/internal/pluginhost/client_guard.go:96-112 | the first shutdown is the one that reaps, with the inner client if there was one |
| Resp.Reader.ReadArray | backend/internal/api/redis_queue_protocol.go:413-438 | the reader accepts, rejects and consumes exactly as the grammar of arrays says, and panics exactly for a count that `make` cannot make |
| Resp.Reader.ReadWord | backend/internal/api/redis_queue_protocol.go:440-453 | the same for one argument of any of its three forms |
| Resp.Reader.ReadBulkString | backend/internal/api/redis_queue_protocol.go:455-475 | the same for a bulk string: its length, that many bytes, CR LF; lengths whose sum wraps around are among those that panic |
| Resp.Reader.ReadLine | backend/internal/api/redis_queue_protocol.go:477-485 | the same for a line, its CR dropped |
| Resp.Reader.ReadBulkReply | backend/internal/home/certificate.go:350-382 | the certificate client's reader, with its error for remote errors and for nil and its panic for lengths that cannot be made, consumes exactly one reply |
| Resp.EncodeArray | backend/internal/home/certificate.go:335-348 | the buffer ends up holding the array of bulk strings |
| Resp.Writer.WriteBulk | backend/internal/api/redis_queue_protocol.go:511-526 | one bulk string, nil included, is appended |
| Resp.Writer.WriteArrayOfBulks | backend/internal/api/redis_queue_protocol.go:528-541 | an array of bulk strings is appended |
| Resp.AtoiItoa | backend/internal/home/certificate.go:336-342 | a number that is printed and parsed is the same number |
| Resp.CommandRoundTrip | backend/internal/home/certificate.go:335-348 | for any arguments and any bytes behind them, reading the encoded command returns those arguments and leaves those bytes |
| Resp.PipelineRoundTrip | backend/internal/api/redis_queue_protocol.go:413-438 | pipelined commands come out in order, also when payloads contain CR LF |
| Resp.ReplyRoundTrip | backend/internal/api/redis_queue_protocol.go:528-541 | the server's arrays are read back, nil as the empty string |
| Resp.CommandsAreUnambiguous | backend/internal/home/certificate.go:335-348 | no encoded command is the beginning of a different one |
| Resp.BulkReplyRoundTrip | backend/internal/home/certificate.go:350-382 | a payload comes back as it was sent if it can be held with its CR LF, and nil as an error |
| RespGrammar.AtoiIs | backend/internal/api/redis_queue_protocol.go:421-426 | a number is read exactly if it is decimal, perhaps with a sign and zeros in front, and fits 64 bits, and as that number |
| RespGrammar.LineIs | backend/internal/api/redis_queue_protocol.go:477-485 | a line is its text up to LF or CR LF, and what is read and left is exactly that |
| RespGrammar.WordIs | backend/internal/api/redis_queue_protocol.go:440-475 | a word is read exactly if it is a length, so many bytes and CR LF, any negative length, or a line behind `+` or `:`; payload and remaining input byte by byte |
| RespGrammar.ArrayIs | backend/internal/api/redis_queue_protocol.go:413-438 | a command is read exactly if it is a count on a line behind `*` and so many words, and as those words |
| RespCuts.ArrayCut | backend/internal/api/redis_queue_protocol.go:413-475 | however an accepted input is cut off, the reader has the same command and leaves exactly the bytes behind it, or has too little |
| RespCuts.UnfinishedCommand | backend/internal/api/redis_queue_protocol.go:413-438 | every proper beginning of an encoded command is waited for, never rejected |
| RespCuts.PayloadIs | backend/internal/home/certificate.go:350-382 | what the certificate client accepts, byte by byte: length line, payload and two bytes of whatever kind |
| RespCuts.RemoteIs | backend/internal/home/certificate.go:350-382 | a remote error is the trimmed line behind `-` |

## Left out

General

- Network, Redis client, TLS, files, HTTP and logging: a Home operation is one atomic step that may also fail, and `send` is a step that succeeds or fails.
- Clocks and timers: times are integer parameters; the flusher's run loop, its back-off and tickers are not modelled.
- Nonces are numbers that are never drawn twice; that two random draws could collide is not modelled.
- Switching between Home mode and local mode while a snapshot is outstanding: each mode is its own machine.
- `signature_cache.go`, `xai_reasoning_replay_cache.go`, plugin registration and the heartbeat would only add easier members.

Replay registers

- ReplayItems.Normalize: items are records of the members the code reads, each value with its rendered length; JSON syntax, escaping and member order are not modelled.
- ReplayRegister.Register.ReplaceIfUnchanged: snapshots that were never loaded publish unconditionally, as in the code; the theorems on dead snapshots and lost updates are about loaded ones.
- ReplayRegister.Register.EvictOldest: which of several equally old entries go is left open, as the code's sort leaves it; the sort itself is replaced by an insertion sort.
- HomeReplay.ReplaceIfUnchanged: nonces are numbered from the call's own first one, so that the generation in a written value is not the machine's; a publish with an unloaded snapshot is the machine's overwrite.
- HomeReplay.Step: the reader's loop that fences a miss is taken as the read or the reservation that ends it; giving up after four attempts is the failed read.
- HomeReplay.HomeDeadSnapshotsStayDead: is about snapshots with a branch; values without one, from older releases, are compared by their bytes alone.
- CodexReplay.AppendTurn: an empty list and a null in Home are one value; items carry their text, marker flag and trimmed id, not their JSON.
- The in-process Codex map with its expiry and eviction, which is the Antigravity register's without revisions.

Configuration file

- Text syntax of YAML, quoting styles, writing the file, and the removal of legacy sections before the merge (`removeMapKey`, `pruneMappingToGeneratedKeys`). Comments, style and anchors of a node are one opaque value that the merge must leave alone.
- YamlMerge.MergeAgrees: sources are as the encoder renders them: no aliases, mapping keys present and distinct; the file may have aliases and duplicate keys.
- YamlPairing.ElementsArePaired: elements of the two sequences are as the parser yields them: a key that is itself a mapping or a list has no scalar value of its own.
- YamlPairing.EditedElementIsKept: as `ElementsArePaired`.
- YamlPairing.ScalarElementIsKept: as `ElementsArePaired`.
- YamlMergeInPlace.MergeConfig: as `MergeNodePreserve`; so a raw plugin subtree with aliases inside sequence elements is not covered.
- YamlMergeInPlace.MergeMappingPreserve: as `MergeNodePreserve`.
- YamlMergeInPlace.MergeElementPreserve: as `MergeNodePreserve`.
- YamlMergeInPlace.MergeNodePreserve: source and destination are trees without a node in common; content is a sequence value, so that two slices could share a backing array is not modelled. Elements of the source's sequences must not contain alias nodes: matching them would compare two aliases by their targets, among them nodes of the file that earlier steps of the same merge have changed, which the values do not show. Aliases elsewhere in the source are merged.
- The helpers that only read nodes (defaults, zero values, identities, structural equality) are functions on the value of a tree, and `View` gives that value. Lower-casing of keys is for ASCII letters.
- Idempotence of the merge, and stale keys in mappings nested deeper inside sequence elements: the code promises neither.

Home client, flusher, plugin guard, protocol

- HomeClient.FenceIsFinal: pools handed out to a caller before the fence went up are the caller's; the model follows what the client holds.
- HomeClient.RecoveryIsHistory: takes each recovery operation as one step; `RecoveryRaces` has their single swaps.
- ReleaseFlusher.ReleaseFlusher.Flush: is about a flush with nothing else in between; the machine below it interleaves marks and other flushes at every step.
- PluginGuard.ShutdownIsGuarded: a panic in the inner client is a return.
- Resp.Reader.ReadBulkReply: white space beyond ASCII is not modelled. For all readers `make` panics as on 64-bit Linux, beyond 2^48 bytes; running out of memory below that is not modelled.
