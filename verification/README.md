# A model of Jörmungandr's node logic

Jörmungandr is a blockchain node. This project models its hardest state machines in Dafny and proves,
for all inputs and all runs, that each clever structure agrees with the simple one it stands for.

| files | part of the node |
|---|---|
| `IndexedDeque`, `OrderedSet`, `Pool`, `Logs`, `Selection`, `Submission`, `MempoolState`, `Consistency`, `Mempool`, `Subsequence` | the mempool: a linked queue with a key index, an expiry-ordered set, a byte total, an LRU status log, block selection, submission of batches, and the message loop over them |
| `Store`, `Chain`, `Candidate`, `Checkpoints`, `ClosestAncestor`, `Tip`, `Reference` | the block tree: references to accepted blocks, header batches, checkpoint lists, chain selection, and the older `modules/blockchain` crate |
| `Sync` | the multiverse sync served to watch clients |
| `ExplorerState`, `Explorer` | the explorer's per-branch indexes, its tips and its queries |
| `Schedule`, `Leadership` | the lazy leader schedule and the task that acts on it |

`Base` holds the shared values. Code that changes things in place is modelled by classes and methods
(the queue is a heap of linked entries with a ghost sequence); code that computes is modelled by
functions. Each method is proved against a specification function or a stated property, and the lemmas
next to it say what that specification means.

What the node cannot decide by itself is a parameter: the ledger rules (`Selection.Rules`), the verdicts
of the leadership schedule, the ledger and the rewards (`Chain.Verdicts`), the outcome of each deadline
race (`Selection.Race`), the clock, the elections, the answers of the block storage, and whether a
message could be sent.

## Where the code differs from what one would expect

- A submitted fragment whose id is already pooled appears neither among the accepted nor among the rejected ones (`Submission.ResubmittedVanishes` is such a submission). `Submission.SummaryIsComplete` says exactly when no position is missing, and `Consistency.OnlyRepeatsVanish` that as long as the log has room for every id, only ids repeated within the batch are.
- A refused log update still moves its entry to the front of the LRU order. The branch-switch scan stops at the first finished entry that is not later, so it can then miss a later one: `Logs.RefusedUpdateHides` is such a run, `Logs.PruneExactly` and `Logs.PruneAlwaysExact` give the exact conditions.
- The soft-deadline test compares the space left after the fragment was taken off with the maximum, so the branch meant for "the only fragment of the block" is reached only by an empty fragment in an empty block (`Selection.SoftDeadlineAborts`).
- A watch client with exactly one usable checkpoint is sent block0 again (`Sync.HandleSyncMultiverse`). A branch that leaves the main chain below the last stable block is sent without its first parent; `Sync.ForkIsSentWithoutItsParent` is such a store, and blocks arrive after their parents exactly when there is no such branch (`Sync.ParentsFirst`).
- The explorer's `total_blocks` is one less than the number of blocks of the epoch (`ExplorerState.StateIsScan`). Applying a block again when it already has children makes it a tip although it is no leaf (`Explorer.ReapplyingMakesATip`; exactly then, `Explorer.ApplyCoversLeaves`). A block whose length skips ahead of its parent's is taken (`Explorer.SkippedLengthIsTaken`), and then the database is no longer valid (`Explorer.ExplorerDb.Apply`).
- `Checkpoints::new_from` lists block0 twice exactly when the oldest epoch link already leads to it and it is not the parent (`Checkpoints.RepeatsIff`; `Checkpoints.Block0IsRepeated` is such a chain).
- In the `modules/blockchain` crate `chain` always stores the parent as the previous-epoch state, so checkpoints lie powers of two of blocks back, not of epochs (`Reference.CheckpointsOnBuiltChain`), and `approximate_common_ancestor` is exact, unless one of the two is a block0 whose parent hash names the other (`Reference.ApproximateCommonAncestor`; `Reference.ForeignParentMisleads` is such a pair).
- `event_nth_future_slot_time` adds `n` epochs when it crosses the end of an epoch: it is right exactly within the epoch, for `n` equal to 1, or with one slot per epoch (`Leadership.NthFutureIsExactly`, with `Leadership.TwoAheadIsThree` for an epoch of two slots).
- The leadership task is meant to run for ever. `Leadership.Module.Step` says exactly when it stops. Two cases come from a tip whose epoch is ahead of the clock's: at the start there is no schedule to wait for (`Leadership.StopsWithoutSchedule`), and at the end of any later epoch the used-up schedule is not renewed and the next epoch is found in the past (`Leadership.StopsBehindTip`, `Leadership.TipAheadStops`). It also stops when the next epoch has begun between two readings of the clock (`Leadership.StopsPastEpoch`).
- A schedule begins after the slot it is made in, and the one for a new epoch is made in slot 0. So slot 0 of an epoch is never acted on, elected or not (`Leadership.FirstSlotIsNotPlanned`, `Leadership.Module.Run`; `Leadership.ElectedFirstSlotIsLost` is an election with slot 0).
- A selection takes the fragments it chooses out of the pool and leaves their log entries pending. Such a fragment is refused as already logged when it is submitted again, whether or not the block is adopted (`Consistency.ChosenStaysPending`; `Consistency.ChosenIsRefusedAgain` is such a run). No other pending entry is without its fragment (`Consistency.RunAccounted`).
- When the fragment task cannot be told about a tip update on the current branch, the HEAD tag is already written and is ahead of the tip (`Tip.TipUpdater.UpdateCurrentBranchTip`).
- The choice among branches is not made by an order. It may be a first branch in the future, which is then refused (`Tip.ReprocessingSettlesIff`, `Tip.ChoiceDependsOnOrder`).

## Model

| member | source | states |
|---|---|---|
| `IndexedDeque.WalksAgree` | jormungandr/src/fragment/pool.rs:405-421 | in a well-linked queue, walking `prev` from the tail and `next` from the head meet the same entries in opposite orders, and both end after exactly as many steps as there are entries |
| `IndexedDeque.DeleteAt` | jormungandr/src/fragment/pool.rs:494-507 | deleting by key is cutting out the position of that key and nothing else |
| `IndexedDeque.DeleteAbsent` | jormungandr/src/fragment/pool.rs:494-497 | deleting an absent key changes nothing |
| `IndexedDeque.Deque.constructor` | jormungandr/src/fragment/pool.rs:429-436 | the empty queue is valid |
| `IndexedDeque.Deque.LinkFront` | jormungandr/src/fragment/pool.rs:438-458 | relinking at the head leaves one chain, in both directions, with the new entry at the head end |
| `IndexedDeque.Deque.LinkBack` | jormungandr/src/fragment/pool.rs:460-480 | the same at the tail end |
| `IndexedDeque.Deque.Unlink` | jormungandr/src/fragment/pool.rs:494-507 | taking an entry out anywhere leaves one chain, in both directions, through the others |
| `IndexedDeque.Deque.UnlinkBack` | jormungandr/src/fragment/pool.rs:482-492 | the same for the entry at the tail |
| `IndexedDeque.Deque.PushFront` | jormungandr/src/fragment/pool.rs:438-458 | with an absent key, appends at the newest end; chain and index stay consistent |
| `IndexedDeque.Deque.PushBack` | jormungandr/src/fragment/pool.rs:460-480 | with an absent key, puts an item before the oldest one |
| `IndexedDeque.Deque.PopBack` | jormungandr/src/fragment/pool.rs:482-492 | returns and drops the oldest item; nothing happens to an empty queue |
| `IndexedDeque.Deque.Remove` | jormungandr/src/fragment/pool.rs:494-507 | order-preserving deletion by key; returns the value exactly when the key was present |
| `IndexedDeque.Deque.Len` | jormungandr/src/fragment/pool.rs:509-511 | the index has as many keys as the queue has items |
| `IndexedDeque.Deque.Contains` | jormungandr/src/fragment/pool.rs:513-515 | the index knows exactly the keys of the queue |
| `OrderedSet.InsertIntoSorted` | jormungandr/src/fragment/pool.rs:629-634 | inserting into an ordered set keeps the order and adds exactly one element |
| `OrderedSet.RemoveFromSorted` | jormungandr/src/fragment/pool.rs:636-641 | removing keeps the order and takes out exactly one element |
| `OrderedSet.TakeWhileIsFilter` | jormungandr/src/fragment/pool.rs:643-649 | stopping at the first element that fails a downward-closed test finds all that pass it |
| `Pool.ViewsAdd` | jormungandr/src/fragment/pool.rs:588-596 | queue, expiry set and byte total still agree after a fragment is added at either end |
| `Pool.ViewsRemove` | jormungandr/src/fragment/pool.rs:601-616 | they still agree after one is removed, and the byte total does not underflow |
| `Pool.ViewsDetermined` | jormungandr/src/fragment/pool.rs:560-565 | the queue alone determines the expiry set and the byte total |
| `Pool.DeleteAllIsRetain` | jormungandr/src/fragment/pool.rs:601-609 | removing ids one by one keeps exactly the other fragments in their order, whatever is repeated or unknown |
| `Pool.ExpiredPrefix` | jormungandr/src/fragment/pool.rs:643-649 | the part of the expiry order that has passed names exactly the expired fragments |
| `Pool.ExpiryDate` | jormungandr/src/fragment/pool.rs:373-395 | only initial, old-UTxO and EVM fragments have no expiry date; every other one expires at the date it is valid until |
| `Pool.ExpiredIff` | jormungandr/src/fragment/pool.rs:643-649 | only transactions expire, and strictly after the date up to which they are valid |
| `Pool.ExpiryListOrder` | jormungandr/src/fragment/pool.rs:544-552 | the expiry order is by date, and by id on the same date |
| `Pool.Pool.constructor` | jormungandr/src/fragment/pool.rs:568-577 | a new pool is empty and valid |
| `Pool.Pool.InsertAll` | jormungandr/src/fragment/pool.rs:580-599 | appends the fresh fragments of the batch until the pool is full, and stops reading there |
| `Pool.Pool.RemoveAll` | jormungandr/src/fragment/pool.rs:601-609 | keeps exactly the fragments whose id is not listed |
| `Pool.Pool.RemoveOldest` | jormungandr/src/fragment/pool.rs:611-616 | takes the oldest fragment out of all three views |
| `Pool.Pool.ReturnToPool` | jormungandr/src/fragment/pool.rs:618-627 | puts fragments back at the oldest end, the last one given becoming the oldest |
| `Pool.Pool.RemoveExpired` | jormungandr/src/fragment/pool.rs:643-656 | keeps exactly the fragments that have no expiry date or one not yet passed, and reports the others, longest expired first |
| `Pool.Pool.Expire` | jormungandr/src/fragment/pool.rs:650-655 | one expiry entry and its fragment leave together; the other expiry entries stay |
| `Logs.PruneExactly` | jormungandr/src/fragment/logs.rs:118-138 | the early-stopping scan drops exactly the later entries if and only if no finished entry that is not later stands before a later one |
| `Logs.PruneAlwaysExact` | jormungandr/src/fragment/logs.rs:118-138 | it is exact for every branch point if and only if finished entries run from new to old |
| `Logs.PruneKeeps` | jormungandr/src/fragment/logs.rs:118-138 | in any order, nothing pending and nothing at or before the branch point is dropped |
| `Logs.LaterIff` | jormungandr/src/fragment/logs.rs:121-130 | what is later than a branch point: an entry rejected or put in a block at a later date |
| `Logs.ModifyCached` | jormungandr/src/fragment/logs.rs:59-66 | an update of a cached entry moves it to the front, changed unless refused, and leaves the others in order |
| `Logs.ModifyUnknown` | jormungandr/src/fragment/logs.rs:67-82 | an update of an unknown id adds an entry at the front, and at most the last use is evicted |
| `Logs.InsertPendingIs` | jormungandr/src/fragment/logs.rs:33-42 | an unknown id gets a pending entry without a date at the front, and the last use is evicted exactly when the log is full; a known id changes nothing |
| `Logs.InsertAllNew` | jormungandr/src/fragment/logs.rs:45-50 | new fragments are all logged in front, the last one first, for as long as they fit |
| `Logs.StepWellFormed` | jormungandr/src/fragment/logs.rs:33-84 | every operation keeps ids distinct, the capacity, and a date on every finished entry |
| `Logs.RunWellFormed` | jormungandr/src/fragment/logs.rs:118-130 | so in every reachable log the unwrap of the date is safe |
| `Logs.StepKeepsInABlock` | jormungandr-lib/src/interfaces/fragment_log.rs:96-104 | no operation takes a cached entry out of its block |
| `Logs.RunKeepsInABlock` | jormungandr-lib/src/interfaces/fragment_log.rs:96-104 | over any run, a fragment once in a block is reported in a block for as long as its entry stays cached |
| `Logs.OrderlyStep` | jormungandr/src/fragment/logs.rs:52-84 | an update that is neither refused nor older than a finished entry keeps finished entries from new to old |
| `Logs.OrderlyRunPrunesExactly` | jormungandr/src/fragment/logs.rs:52-138 | over any run of such updates every branch switch prunes exactly |
| `Logs.RefusedUpdateHides` | jormungandr/src/fragment/logs.rs:59-65 | a run with a refused update after which a branch switch does not prune exactly |
| `Logs.ScanIsPrune` | jormungandr/src/fragment/logs.rs:118-138 | collecting the ids first and popping them afterwards removes what the scan passed over |
| `Logs.Logs.constructor` | jormungandr/src/fragment/logs.rs:14-18 | a new log is empty and well formed |
| `Logs.Logs.InsertAllPending` | jormungandr/src/fragment/logs.rs:33-50 | inserts each log in turn unless its id is known; if all are new, they are in front, the last one first, and what no longer fits is evicted from the end |
| `Logs.Logs.ModifyOne` | jormungandr/src/fragment/logs.rs:52-84 | the entry of the id is first, with its new status and date unless the update is refused; a cached one keeps its origin, an unknown one gets the network's, and the others keep their order, at most the last use being evicted |
| `Logs.Logs.ModifyEach` | jormungandr/src/fragment/logs.rs:86-95 | does so for each id in turn |
| `Logs.Logs.RemoveLogsAfterDate` | jormungandr/src/fragment/logs.rs:118-138 | the loop computes the early-stopping scan |
| `Selection.SoftDeadlineAborts` | jormungandr/src/fragment/selection.rs:95-120 | past the soft deadline an attempt that fits is abandoned if and only if the fragment is not empty or the block is not |
| `Selection.AttemptGivesFate` | jormungandr/src/fragment/selection.rs:68-137 | a fragment is dropped if and only if it is larger than any block, or it fits and either the hard deadline passes with the block still empty or the ledger refuses it in time, for the ledger's reason; it is kept if and only if it does not fit the space left or the soft deadline stops it; it is chosen if and only if it fits, no deadline stops it and the ledger applies it |
| `Selection.FatesAreRight` | jormungandr/src/fragment/selection.rs:141-211 | each fragment of the queue has that fate, on the ledger and in the space left by the contents chosen before it, or is kept because the block is full |
| `Selection.PickPartitions` | jormungandr/src/fragment/selection.rs:141-211 | each queued fragment is in exactly one of block contents, rejected and kept |
| `Selection.DecideJustified` | jormungandr/src/fragment/selection.rs:157-197 | the fate of each fragment is the outcome of trying it on the ledger and in the space left by the contents chosen before it, or it is kept because the block is full; `FatesAreRight` says which outcome that is |
| `Selection.DecideLedger` | jormungandr/src/fragment/selection.rs:157-197 | the contents apply in order and fit the block |
| `Selection.DrainOne` | jormungandr/src/fragment/selection.rs:157-197 | one turn of the loop: the oldest fragment gets its fate, and the rest are still to be decided, or kept if the block is full |
| `Selection.PutBack` | jormungandr/src/fragment/selection.rs:203-204 | returning the leftovers in reverse restores their order in front of the untouched fragments |
| `Selection.Select` | jormungandr/src/fragment/selection.rs:141-211 | for every pool, ledger and pattern of failures, misfits and deadlines: contents and remaining pool are the chosen and kept fragments in their old order, the dropped ones are counted and logged as rejected, and the ledger handed back is the given one with the contents applied |
| `Submission.JudgeIsExpected` | jormungandr/src/fragment/pool.rs:154-250 | the verdict at each position, from the log, the pool and the batch alone: stopped by an earlier invalid fragment, refused by the filter, refused when as many fresh ids come before it as there is room, already pooled, or accepted |
| `Submission.AcceptedAreFresh` | jormungandr/src/fragment/pool.rs:580-599 | while there is room the ids accepted so far are exactly the fresh ones that passed the filter; their number never exceeds the room |
| `Submission.Filter` | jormungandr/src/fragment/pool.rs:99-150 | refused as logged if and only if the id is in the log; otherwise as expired or valid for too long if and only if it is a transaction of such a date; otherwise as invalid if and only if it is initial, an old-UTxO declaration or an unbalanced transaction |
| `Submission.VerdictIs` | jormungandr/src/fragment/pool.rs:154-250 | the one verdict of each position, from the log, the pool, the dates and the fragments alone |
| `Submission.AcceptedAreAdmissible` | jormungandr/src/fragment/pool.rs:99-150 | nothing is accepted that is logged, out of date or invalid |
| `Submission.SummaryIsComplete` | jormungandr/src/fragment/pool.rs:154-250 | the summary names every position if and only if none is read, passes the filter and finds its id pooled or fresh earlier on while there is room |
| `Submission.ResubmittedVanishes` | jormungandr/src/fragment/pool.rs:588-590 | a pooled fragment that is no longer logged is submitted again and appears in neither list |
| `Submission.PhasesAccept` | jormungandr/src/fragment/pool.rs:154-250 | filtering everything first and inserting afterwards accepts what one pass over the batch would |
| `Submission.PhasesRefuse` | jormungandr/src/fragment/pool.rs:154-250 | and refuses the same positions for the same reasons |
| `Submission.FilterBatch` | jormungandr/src/fragment/pool.rs:99-212 | the filtering loop yields what passes and one rejection for everything else, the unread rest included after a fail-fast stop |
| `Submission.InsertAndPropagateAll` | jormungandr/src/fragment/pool.rs:154-250 | the pool gains exactly the accepted fragments in order, none of them logged, out of date or invalid; each is logged pending, and the summary lists the accepted ids and the rejections in order, which are those of one pass over the batch; it fails only when a fragment cannot be sent on |
| `MempoolState.NextConserves` | jormungandr/src/fragment/process.rs:118-205 | a message loses, duplicates and reorders no fragment: what is pooled afterwards plus what left is what was pooled plus what joined |
| `MempoolState.RunConserves` | jormungandr/src/fragment/process.rs:118-205 | the same over any run; the pool is always a subsequence of the fragments in the order they joined, although selection drains it and puts leftovers back in reverse |
| `MempoolState.LogIsRun` | jormungandr/src/fragment/process.rs:118-205 | the log of any run of messages is the log of a run of legal log operations, so the properties of those runs hold of it |
| `Consistency.StepEntries` | jormungandr/src/fragment/logs.rs:33-84 | a log operation adds or changes at most the entry of its own id |
| `Consistency.OpsSparePooled` | jormungandr/src/fragment/process.rs:118-205 | a fragment whose fate a message decides is not pooled afterwards |
| `Consistency.NextConsistent` | jormungandr/src/fragment/process.rs:118-205 | each message keeps ids distinct in pool and log, and pooled fragments logged pending, if at all |
| `Consistency.RunConsistent` | jormungandr/src/fragment/process.rs:118-205 | the same over any run |
| `Consistency.JoiningAreLogged` | jormungandr/src/fragment/pool.rs:215-226 | what joins the pool is first in the log, pending, the last one first, for as long as it fits |
| `Consistency.LeavingIsLogged` | jormungandr/src/fragment/process.rs:118-205 | a fragment that leaves the pool was chosen by a selection, or its fate is logged |
| `Consistency.RunAccounted` | jormungandr/src/fragment/process.rs:118-205 | over any run from the empty state, whatever is logged pending is pooled or was chosen by a selection |
| `Consistency.ChosenStaysPending` | jormungandr/src/fragment/selection.rs:169-178 | a chosen fragment leaves the pool, stays pending while cached, and is refused when submitted again |
| `Consistency.ChosenIsRefusedAgain` | jormungandr/src/fragment/pool.rs:99-150 | submitted, chosen and submitted again: refused as already logged although it is not pooled |
| `Consistency.RunLogsAll` | jormungandr/src/fragment/process.rs:118-205 | a run from the empty state that speaks of no more ids than the log holds has every pooled fragment logged, pending |
| `Consistency.OnlyRepeatsVanish` | jormungandr/src/fragment/pool.rs:154-250 | after such a run a submitted fragment is missing from the summary only if its id is repeated in the batch |
| `Mempool.Mempool.constructor` | jormungandr/src/fragment/process.rs:91-117 | the log is never smaller than the pool |
| `Mempool.Mempool.RemoveTransactions` | jormungandr/src/fragment/pool.rs:252-313 | confirmed fragments leave and are logged in their block, then expired ones leave and are logged rejected |
| `Mempool.Mempool.Handle` | jormungandr/src/fragment/process.rs:118-205 | the whole new state of pool and log after each kind of message |
| `Mempool.Mempool.Run` | jormungandr/src/fragment/process.rs:118-205 | over any run, up to the first message that fails, the three views agree, the pool never holds too many, the log stays well formed, pooled fragments are logged pending if at all, and fragments are conserved in order |
| `Store.AncestorsOnPath` | jormungandr/src/blockchain/storage.rs:191-196 | two ancestors of one block lie on one path |
| `Store.TreeGrows` | jormungandr/src/blockchain/storage.rs:159-178 | storing a block on a stored parent keeps the storage a tree with consecutive lengths |
| `Sync.FilterCheckpoints` | jormungandr/src/watch_client.rs:247-272 | keeps exactly the known checkpoints in order and finds the first of the shortest; fails exactly on a malformed id |
| `Sync.ChooseLastStable` | jormungandr/src/watch_client.rs:274-281 | the last stable block is the shortest known checkpoint, or block0, and the others are the remaining ones |
| `Sync.WalkMeets` | jormungandr/src/watch_client.rs:316-321 | a block of an earlier path has everything below it on that path, so stopping there misses nothing |
| `Sync.WalkEnds` | jormungandr/src/watch_client.rs:303-334 | a walk that reaches the last stable block adds exactly the blocks above it |
| `Sync.WalkDown` | jormungandr/src/watch_client.rs:303-333 | terminates, never goes below length 0, succeeds exactly when the last stable block is an ancestor, and adds exactly the path |
| `Sync.WalkAll` | jormungandr/src/watch_client.rs:301-334 | over all checkpoints the known set is exactly the blocks on their paths above the last stable one |
| `Sync.EmptyLayerIsLast` | jormungandr/src/watch_client.rs:345-347 | below a stored block there is a stored block of every length, so an empty layer is above everything |
| `Sync.SendLayer` | jormungandr/src/watch_client.rs:349-358 | sends the unknown blocks of one length once each |
| `Sync.SendLayers` | jormungandr/src/watch_client.rs:336-359 | sends every longer unknown block once, by nondecreasing length, and the length counter does not overflow |
| `Sync.LastStableAddsNothing` | jormungandr/src/watch_client.rs:276-281 | taking the last stable block out of the list does not change the paths |
| `Sync.HandleSyncMultiverse` | jormungandr/src/watch_client.rs:239-362 | succeeds exactly when all ids are well formed and every known checkpoint descends from the last stable block; then the known set is the paths, and what is sent is every longer unknown block, after block0 when at most one checkpoint was usable |
| `Sync.ParentsFirst` | jormungandr/src/watch_client.rs:336-359 | each block sent can be attached by the client if and only if every block right above the last stable length is a child of the last stable block |
| `Sync.ForkIsSentWithoutItsParent` | jormungandr/src/watch_client.rs:336-359 | a store and a client for which a block is sent whose parent the client neither knows nor is sent |
| `Sync.StreamsEverything` | jormungandr/src/watch_client.rs:283-299 | without a known checkpoint the whole store is sent, each block after its parent |
| `ExplorerState.TransactionsAdded` | explorer/src/db/mod.rs:446-460 | a block's transactions are indexed under it, the others stay |
| `ExplorerState.TransactionsApply` | explorer/src/db/mod.rs:446-460 | this succeeds exactly when none of them is indexed already |
| `ExplorerState.AppliesIff` | explorer/src/db/mod.rs:175-235 | a block extends the state of its parent's branch exactly when none of its transactions is on that branch and it is longer; otherwise which error it is |
| `ExplorerState.StateIsScan` | explorer/src/db/mod.rs:446-532 | the state recomputed along a branch indexes exactly the branch: blocks, lengths, transactions, first and last block per epoch, and a block count that is one short |
| `ExplorerState.RangeIsSlice` | explorer/src/db/mod.rs:843-858 | a range of hashes is the matching slice of the branch, cut off at its end |
| `Explorer.LeafAbove` | explorer/src/db/multiverse.rs:41-55 | every applied block is on the branch of some leaf |
| `Explorer.ApplyCoversLeaves` | explorer/src/db/multiverse.rs:41-55 | after an insertion every leaf is a tip; tips stay exactly the leaves if and only if the block is new or has no children |
| `Explorer.ReapplyingMakesATip` | explorer/src/db/multiverse.rs:41-55 | three blocks in a row, the middle one applied again: it becomes a tip with a child |
| `Explorer.ApplyHasStates` | explorer/src/db/mod.rs:175-235 | every block keeps the state of its own branch, so siblings do not affect each other |
| `Explorer.IndexesAreTruthful` | explorer/src/db/mod.rs:237-245 | what the state of a block says is true of its branch and of the applied blocks |
| `Explorer.AppliesIffFresh` | explorer/src/db/mod.rs:175-235 | a block applies exactly when its transactions are new to its branch and it is longer than its parent; otherwise the error names its first transaction that is on the branch, or the block, or its length |
| `Explorer.ApplyOutcome` | explorer/src/db/mod.rs:175-235 | applied to a valid database: what a block takes to apply, and that it leaves the database valid if and only if it is one longer than its parent |
| `Explorer.ConsecutiveBefore` | explorer/src/db/mod.rs:175-235 | a skipped length is never made up for by later blocks |
| `Explorer.SkippedLengthIsTaken` | explorer/src/db/mod.rs:520-532 | a block of length 5 on block0 applies, and the applied blocks are no tree of consecutive lengths any more |
| `Explorer.FoundThroughTips` | explorer/src/db/multiverse.rs:71-88 | every applied block is found through the indexes of some tip |
| `Explorer.ListTips` | explorer/src/db/multiverse.rs:71-88 | the loop over the tips, longest first, collects their states and rebuilds the same ordered set |
| `Explorer.SortDedup` | explorer/src/db/mod.rs:337-371 | sorting and removing duplicates keeps exactly the elements |
| `Explorer.ExplorerDb.constructor` | explorer/src/db/mod.rs:108-173 | block0 is the only block and the only tip |
| `Explorer.ExplorerDb.ApplyUnchecked` | explorer/src/db/mod.rs:175-235 | the new state, tips and blocks whatever was applied before; the length is never 0, so taking one off does not underflow |
| `Explorer.ExplorerDb.Apply` | explorer/src/db/mod.rs:175-235 | succeeds exactly on a known parent, new transactions and a greater length, and then changes only that block's state and the tips; the database stays valid if and only if no length was skipped; which error otherwise |
| `Explorer.ExplorerDb.ApplyAll` | explorer/src/db/mod.rs:175-235 | over any run of applications the database is valid if and only if no applied block skips a length; then the applied blocks are those that could be applied in turn, tips cover the leaves, and are the leaves if nothing was applied twice |
| `Explorer.ExplorerDb.Tips` | explorer/src/db/multiverse.rs:71-88 | lists the states of all tips, longest first, and rebuilds the same set of tips |
| `Explorer.ExplorerDb.GetBlock` | explorer/src/db/mod.rs:237-245 | finds exactly the applied blocks |
| `Explorer.ExplorerDb.FindBlocksByChainLength` | explorer/src/db/mod.rs:337-350 | returns exactly the applied blocks of that length, without duplicates |
| `Explorer.ExplorerDb.FindBlocksByTransaction` | explorer/src/db/mod.rs:352-371 | returns exactly the applied blocks holding that transaction, without duplicates |
| `Schedule.ElectionsAreExact` | jormungandr/src/secure/enclave.rs:78-101 | the events are the elected slots of the range, each once, in order |
| `Schedule.Schedule.constructor` | jormungandr/src/secure/enclave.rs:61-76 | a new schedule will yield the elections of its range |
| `Schedule.Schedule.Fill` | jormungandr/src/secure/enclave.rs:78-101 | looking ahead does not change what is to come, and finds an event if there is one |
| `Schedule.Schedule.NextEvent` | jormungandr/src/secure/enclave.rs:103-106 | yields and consumes the next election |
| `Schedule.Schedule.Peek` | jormungandr/src/secure/enclave.rs:108-111 | yields it without consuming it |
| `Leadership.NthFutureIsExactly` | jormungandr/src/leadership/process.rs:203-215 | the slot computed is `n` ahead if and only if it is in the same epoch, `n` is 1, or epochs have one slot; it is never earlier, and past the end of the epoch it is the first slot `n` epochs on |
| `Leadership.TwoAheadIsThree` | jormungandr/src/leadership/process.rs:203-215 | from the last slot of a two-slot epoch, two slots ahead is computed as three |
| `Leadership.PlannedExactly` | jormungandr/src/leadership/process.rs:596-680 | a date is planned if and only if it is elected in a plan of its epoch that has not begun after it |
| `Leadership.FirstSlotIsNotPlanned` | jormungandr/src/leadership/process.rs:620-635 | the first slot of an epoch is never planned |
| `Leadership.ElectedFirstSlotIsLost` | jormungandr/src/leadership/process.rs:620-635 | with both slots of a two-slot epoch elected, a schedule made in the first plans the second only |
| `Leadership.SlotBegun` | jormungandr/src/leadership/process.rs:115-143 | a slot has begun exactly when the clock's slot is it or a later one |
| `Leadership.EpochIsOver` | jormungandr/src/leadership/process.rs:145-164 | once the next epoch has begun, the clock is in a later epoch |
| `Leadership.NewEpochIsAhead` | jormungandr/src/leadership/process.rs:596-664 | a schedule of a later epoch lies after everything acted on |
| `Leadership.ActIsLogged` | jormungandr/src/leadership/process.rs:293-311 | acting on the next event keeps dates acted on strictly increasing |
| `Leadership.Module.RunEntry` | jormungandr/src/leadership/process.rs:313-395 | nothing is started before the slot or after its end, and a block is built only on a tip older than the slot |
| `Leadership.Module.ScheduleEpoch` | jormungandr/src/leadership/process.rs:596-680 | the new schedule is the elections in the rest of the clock's epoch; a tip ahead of the clock leaves the schedule alone |
| `Leadership.Module.Action` | jormungandr/src/leadership/process.rs:283-311 | acts on the next event and consumes it, or schedules |
| `Leadership.Module.Wait` | jormungandr/src/leadership/process.rs:229-281 | wakes at the next event or the next epoch, or at once if that has passed, and consumes nothing; when it stops instead |
| `Leadership.Module.Act` | jormungandr/src/leadership/process.rs:283-311 | the status and the whole state after the action of a step, as a function of the state before it |
| `Leadership.Module.Step` | jormungandr/src/leadership/process.rs:111-113 | the status and the whole state after a step, as a function of the state before it; for each way the task can stop, exactly the states and inputs with which it does |
| `Leadership.StatusIff` | jormungandr/src/leadership/process.rs:111-113 | the same of that function: when a step ends too early, without a schedule, past a deadline, with a failed block, or with the next epoch in the past |
| `Leadership.StepExplained` | jormungandr/src/leadership/process.rs:111-113 | what a stopped task leaves behind explains why it stopped |
| `Leadership.StepsExtend` | jormungandr/src/leadership/process.rs:104-113 | over any run what was acted on, built and planned only grows, the clock does not run backwards, and each plan holds the elections of one step, in order |
| `Leadership.TipAheadStops` | jormungandr/src/leadership/process.rs:653-659 | with a used-up schedule and the tip ahead, the step stops the task if and only if the clock does not stand still on the instant the next epoch begins |
| `Leadership.Module.RunSteps` | jormungandr/src/leadership/process.rs:104-113 | the loop runs exactly the steps up to the first that stops the task |
| `Leadership.StopsWithoutSchedule` | jormungandr/src/leadership/process.rs:237-242 | a run that stops for want of a schedule |
| `Leadership.StopsBehindTip` | jormungandr/src/leadership/process.rs:149-164 | a run that stops at the end of an epoch because the tip got ahead |
| `Leadership.StopsPastEpoch` | jormungandr/src/leadership/process.rs:149-164 | a run that stops because the clock passed the end of the epoch between two readings |
| `Leadership.Module.Run` | jormungandr/src/leadership/process.rs:104-113 | runs exactly the steps up to the first that stops the task; over any run with a monotone clock, the dates acted on are the elected ones of every schedule made from the inputs, in order and without a gap, up to those still scheduled; they strictly increase across schedules and epochs, so no slot is built twice, none is the first of its epoch, each block is started within its slot on an older tip, and the final state explains the status |
| `Chain.PreVerifyLink` | jormungandr/src/blockchain/chain.rs:136-157 | the date error if and only if the header is not later than the parent; the length error if and only if it is later and not one longer |
| `Chain.NearestIsNearest` | jormungandr/src/blockchain/chain.rs:829-903 | the walk to an earlier epoch finds the nearest such proper ancestor, or there is none |
| `Chain.HistoryGrows` | jormungandr/src/blockchain/chain.rs:136-157 | a header that passes the link checks keeps all headers a tree of rising dates and consecutive lengths |
| `Chain.NewRefIsSound` | jormungandr/src/blockchain/chain.rs:829-903 | the reference made on top of a sound parent is sound |
| `Chain.SoundStays` | jormungandr/src/blockchain/chain.rs:501-523 | references stay sound when other blocks are added |
| `Chain.EveryRef` | jormungandr/src/blockchain/chain.rs:829-903 | a sound reference is one longer and later than its parent, its leadership is that of its epoch, and its previous-epoch pointer is the nearest ancestor of an earlier epoch, or absent exactly when there is none |
| `Chain.Blockchain.constructor` | jormungandr/src/blockchain/chain.rs:612-680 | block0 is stored and referenced, on an empty storage or one filled before a restart |
| `Chain.Blockchain.PreCheckHeader` | jormungandr/src/blockchain/chain.rs:349-412 | already present, with the cached reference, if and only if not forced and cached; otherwise missing its parent if and only if that is not cached; otherwise refused for its date or its length, or building on the referenced parent |
| `Chain.Blockchain.StoreAndApply` | jormungandr/src/blockchain/chain.rs:525-547 | the block is stored and referenced unless the storage lacks its parent; then nothing changes |
| `Chain.Blockchain.CheckAndApply` | jormungandr/src/blockchain/chain.rs:421-562 | this happens exactly when all verdicts are favourable |
| `Chain.Blockchain.ProcessNetworkBlock` | jormungandr/src/blockchain/process.rs:498-573 | a cached block is skipped, one without a cached parent misses it, a bad link is refused for its date or length, and otherwise the block is referenced if and only if all verdicts are favourable and it or its parent is stored |
| `Chain.Blockchain.HandleBootstrapBlock` | jormungandr/src/blockchain/chain.rs:682-709 | the same for a bootstrap block, which is applied even if cached and, from storage, without a proof |
| `Chain.Blockchain.ApplyLeadershipBlock` | jormungandr/src/leadership/process.rs:452-486 | an own block is applied on the tip it was built on, only if dated later |
| `Chain.Blockchain.Do` | jormungandr/src/blockchain/process.rs:498-573 | the references, cache and storage after any one operation |
| `Chain.Blockchain.Run` | jormungandr/src/blockchain/chain.rs:402-598 | on every run mixing network, bootstrap and own blocks with eviction and collection, the references, cache and storage are those of the operations in turn, and every reference ever made is sound |
| `Candidate.LandingError` | jormungandr/src/blockchain/candidate.rs:84-104 | no place to start from if and only if the parent is missing or the link is refused, with that parent or link |
| `Candidate.FollowError` | jormungandr/src/blockchain/candidate.rs:131-142 | a broken chain if and only if the parent hash differs; otherwise a failed link for the date or the length |
| `Candidate.SkipPresentBlocks` | jormungandr/src/blockchain/candidate.rs:72-106 | with whatever the blockchain answers when each header is read, finds the first header not yet known and says why it is no place to start from, if so |
| `Candidate.ExtendChain` | jormungandr/src/blockchain/candidate.rs:131-171 | takes the longest linked stretch up to 32 headers, or names the header that breaks it |
| `Candidate.AdvanceBranch` | jormungandr/src/blockchain/candidate.rs:174-240 | exactly which stretch of the stream is asked for and what remains, a remainder being returned if and only if 32 is reached; exactly which header is at fault otherwise |
| `Candidate.LinkedLengths` | jormungandr/src/blockchain/candidate.rs:131-150 | along linked headers lengths rise by one and dates strictly |
| `Candidate.BatchIsChain` | jormungandr/src/blockchain/candidate.rs:174-240 | the hashes asked for are distinct and name headers of rising date and length |
| `Candidate.BatchStartsOnKnownBlock` | jormungandr/src/blockchain/candidate.rs:72-106 | the first one builds on a block known when it was read, later and one longer |
| `Checkpoints.LinksAreAncestors` | jormungandr/src/blockchain/checkpoints.rs:26-44 | epoch links lead to ever shorter ancestors |
| `Checkpoints.NewFrom` | jormungandr/src/blockchain/checkpoints.rs:18-51 | terminates; the k-th epoch checkpoint is k(k+1)/2 links back, one more if the parent ends the previous epoch, the last one clamped; block0 is added unless it is the parent |
| `Checkpoints.SkipBack` | jormungandr/src/blockchain/checkpoints.rs:28-34 | follows the given number of links, or as many as there are |
| `Checkpoints.ListedShorten` | jormungandr/src/blockchain/checkpoints.rs:18-51 | entries get strictly shorter up to the final block0, which is not longer |
| `Checkpoints.CheckpointsAreAncestors` | jormungandr/src/blockchain/checkpoints.rs:18-51 | every entry is the block or an ancestor, by nonincreasing length, and block0 is included |
| `Checkpoints.ListLength` | jormungandr/src/blockchain/checkpoints.rs:18-51 | for n epoch links the number m of epoch checkpoints satisfies (m-1)m < 2n <= m(m+1)+2, and n is at most the epoch |
| `Checkpoints.LinksPerEpoch` | jormungandr/src/blockchain/chain.rs:829-903 | there is at most one link for each epoch before |
| `Checkpoints.RepeatsIff` | jormungandr/src/blockchain/checkpoints.rs:46-48 | an entry is repeated exactly when the oldest link leads to block0 and block0 is not the parent |
| `Checkpoints.Block0IsRepeated` | jormungandr/src/blockchain/checkpoints.rs:46-48 | a chain of two epochs whose list ends with block0 twice |
| `ClosestAncestor.FindClosestAncestor` | jormungandr/src/blockchain/storage.rs:286-327 | the first of the nearest checkpoints that are ancestors, ignoring unknown ones; fails exactly on another storage error |
| `ClosestAncestor.FindsLongestShared` | jormungandr/src/blockchain/storage.rs:286-327 | a peer that stores the target and shares block0 finds the longest checkpoint on the target's chain, at the right distance |
| `ClosestAncestor.CheckpointsServeEveryPeer` | jormungandr/src/blockchain/checkpoints.rs:46-48 | so the checkpoints of any block serve every peer on the same block0, whatever else it stores |
| `Reference.ChainBlock` | modules/blockchain/src/reference.rs:173-303 | a block chains if and only if it is a child, one longer, later and accepted; the first of these that fails names the error, and the parent is stored as the previous-epoch state |
| `Reference.LinksAreParents` | modules/blockchain/src/reference.rs:173-196 | the previous-epoch link of a chained reference is its parent, whatever the epochs |
| `Reference.NewCheckpoints` | modules/blockchain/src/checkpoints.rs:20-44 | leaving out every link that carries the parent's hash, the k-th checkpoint after the parent is the (2^k - 1)-th link, for as long as there are that many |
| `Reference.BehindIsChain` | modules/blockchain/src/reference.rs:173-196 | on a chain built from block0 those links are the chain below the parent |
| `Reference.CheckpointsOnBuiltChain` | modules/blockchain/src/checkpoints.rs:20-44 | on a chain built from block0 that is 2^k blocks back, so the list is logarithmic in the chain length |
| `Reference.MoveDown` | modules/blockchain/src/reference.rs:109-138 | moving the longer of two references down loses no common ancestor |
| `Reference.ApproximateCommonAncestor` | modules/blockchain/src/reference.rs:109-138 | finds the longest common ancestor, or that there is none, if and only if neither is a block0 whose parent hash names the other |
| `Reference.ForeignParentMisleads` | modules/blockchain/src/reference.rs:76-81 | two chains of one block for which it answers wrongly |
| `Tip.PreferCandidate` | jormungandr/src/blockchain/chain_selection.rs:16-42 | preferred if and only if it is longer and begins at most a second from now |
| `Tip.TipUpdater.constructor` | jormungandr/src/blockchain/tip.rs:35-49 | HEAD starts at the tip |
| `Tip.TipUpdater.SwitchTipBranch` | jormungandr/src/blockchain/tip.rs:75-105 | tip and HEAD move together or not at all |
| `Tip.TipUpdater.UpdateCurrentBranchTip` | jormungandr/src/blockchain/tip.rs:107-123 | the tip moves when everything succeeds; HEAD moves as soon as the tag is written |
| `Tip.TipUpdater.ProcessNewRef` | jormungandr/src/blockchain/tip.rs:133-184 | a candidate not preferred changes nothing; a preferred one becomes tip and HEAD if and only if it is stored, the tag and the fragment task work and, unless it is a child of the tip, the branch walk does; otherwise the tip stays, and HEAD moves if and only if it is a stored child and the tag is written |
| `Tip.TipUpdater.ReprocessTip` | jormungandr/src/blockchain/tip.rs:208-243 | the branch chosen is queued exactly when there is one, it is not the very reference the task was started with, and sending succeeds |
| `Tip.TipUpdater.ProcessChosen` | jormungandr/src/blockchain/tip.rs:51-61 | the queued choice is compared with the tip of that moment |
| `Tip.TipUpdater.ReprocessingRound` | jormungandr/src/blockchain/tip.rs:208-243 | with other candidates processed in between, a round that succeeds with no branch in the future leaves the tip as long as every branch |
| `Tip.TipUpdater.Run` | jormungandr/src/blockchain/tip.rs:51-73 | over any run of candidates, ticks and queued choices the state is that of the events in turn, and every new tip is longer than all before it |
| `Tip.BestIsLongest` | jormungandr/src/blockchain/tip.rs:217-222 | with a clock reading for each comparison, the choice is as long as every branch not in the future, and is the first branch unless one of those is longer |
| `Tip.ReprocessingSettles` | jormungandr/src/blockchain/tip.rs:208-243 | with no branch in the future, one round leaves the tip as long as every branch |
| `Tip.ReprocessingSettlesIff` | jormungandr/src/blockchain/tip.rs:208-243 | exactly when a round leaves the tip as long as every branch not in the future |
| `Tip.ChoiceDependsOnOrder` | jormungandr/src/blockchain/chain_selection.rs:16-42 | a longer branch in the future and a present one: the choice is whichever comes first, and if it is the future one, a shorter tip stays |

## Left out

- The gRPC, REST, JSON-RPC and GraphQL layers, network subscriptions, settings, logging, metrics and command-line tools: input and output only.
- The ledger rules, cryptography, leadership verification and rewards: parameters of the model, nothing is proved about them; ledger contents are not part of a reference in `Chain`.
- The storage back end: a map from hashes to parents and lengths; writing a block fails exactly when its parent is not stored, and lengths stay below 2^32 - 2.
- Hash collisions: a header is the one its hash stands for (`Chain.Blockchain.headerOf`, `Reference.HashesIdentify`, `Candidate.BatchIsChain`).
- Garbage collection of the storage and of the explorer: in `Chain` it may forget anything, in `Explorer` it does not happen; `set_tip` and block confirmation are not modelled.
- The fragment-removal messages sent while switching branches: only whether sending them succeeds.
- Explorer indexes for addresses, stake pools, stake control and vote plans: what they hold is decided by how the ledger library resolves inputs, computes stake and tallies votes, and in part by the iteration order of hash maps.
- The persistent fragment log, the timestamps of log entries, and the texts of most reject reasons.
- Fragment kinds other than those the expiry and validity lookups tell apart: four kinds stand for all.
- The capacity of message boxes: whether a send succeeds is an input.
- The wall clock and the precision of timers: a clock that only runs forward, times as natural numbers, and one era for the whole run.
- The overflow of the byte total in `usize`.
- The hash map, the ordered set and the LRU cache as data structures: a map, a strictly increasing sequence, and a sequence in most-recently-used order.
- Failures of the sink while blocks are streamed to a watch client, and blocks that vanish from the storage meanwhile.
- The quarantine and topology layers, and serialisation wrappers.
- Pool.Pool.ReturnToPool: requires absent ids and room, because the code pushes without checking either and a known id is a panic there; `Selection.PutBack` shows that selection always meets this.
- IndexedDeque.Deque.PushFront: requires an absent key, because the code panics on a known one; every caller in the model meets this.
- IndexedDeque.Deque.PushBack: requires an absent key for the same reason.
- Explorer.ExplorerDb.Apply: requires, as `ApplyAll` does, that a block equals any block applied under the same id, since ids are hashes; a block's contents other than its transactions are not modelled.
- Chain.Blockchain.Run: headers whose hash stands for another header, or whose length reaches 2^32 - 2, are skipped.
- Leadership.Module.Run: the tip after each wake-up is any reference whose leadership is that of its epoch, which `Chain.EveryRef` proves of every reference; failures of the enclave and of the leadership log are not modelled.
