# RobinHood 4, modelled in Dafny

RobinHood 4 keeps mirrors of filesystems in databases and answers queries on them. This project models the parts of it whose correctness is hard to see from the code, and proves what they are for. `dafny verify dfyconfig.toml` checks everything.

| component | modules | main results |
|---|---|---|
| open-addressing hash map | `HashMap` | every run agrees with a finite map; backward-shift deletion ends even in a full table |
| repair of paths after renames | `Forest`, `PathRepair` | an invariant kept by every write; the tool ends, and when it succeeds every path is the true one, spelled by the names on the way down |
| rings and queues | `Ring`, `MultiRing`, `Queue`, `Tee` | refinement of one queue per reader; exactly when the flag of a reader misleads it |
| branch traversal | `BranchSearch`, `BranchLinks`, `BranchRings`, `BranchRuns`, `Branch` | every matching entry below a directory, each once, in every run in which the readers of the bounded rings see what they have to read |
| branch traversal after an exactly full ring | `BranchFull`, `BranchDeep`, `BranchEnds` | what is lost, and when |
| size-then-copy allocation | `Memory`, `Value`, `Filter`, `Fsevent`, `Fsentry` | the size pass is never too small; a clone stands for what it was made from |
| aliases on the command line | `Tokens`, `Substitution`, `Chains`, `Alias` | resolution is full substitution, and gives up only where that has no end |
| event pipeline | `Pipeline`, `PipelineOrder`, `PipelineAcks`, `PipelineRecords`, `PipelineRuns`, `Acks`, `Deduplicator`, `Changelog` | order of events in every interleaving; which runs succeed, and that without a failure all of them do; when acknowledgements are safe |
| URIs | `Percent`, `Uri`, `UriSplit`, `UriBuild`, `UriMeaning` | splitting and recomposing are inverse; decoding in place; the buffer suffices; a URI means what it was written for |
| dump of a backend | `Records`, `Sync` | chunks concatenate to the events of all entries; what the other backend holds after them |
| YAML values | `Yaml`, `YamlRoundTrip`, `YamlParser` | parsing undoes emitting, exactly without doubles; skipping passes over exactly one value |

Code that updates objects is modelled by classes and arrays, threads by a state machine whose runs are all sequences of enabled steps. Specifications are given by reference definitions (a finite map, queues of bytes, a recursive substitution, the set of entries of a subtree) that the code is proved to agree with.

## Where the code does not do what it says

- `librobinhood/src/ringr.c`: a reader that reads everything of an exactly full ring is flagged `starved` and may be told later that there is nothing to read. `MultiRing.PushSafeIff`, `AckSafeIff` and `DestroySafeIff` say exactly when that happens, `MultiRing.CoherentIffSafe` does for a whole run, `MultiRing.FlaggedReaderMissesData` is an example.
- `rbh-fsevents/src/sources/lustre/ack.c`: the comment promises that a batch is not acknowledged before older ones. With three workers or more it can be: an acknowledgement of the oldest batch that leaves it unfinished still clears finished batches behind it. `PipelineAcks.RunsInOrderIff` is the exact condition, `ThreeWorkersOutOfOrder` an example, `NarrowInOrder` the case without fault.
- The same file promises that without deduplication a record is acknowledged once its last event was processed. If an event is acknowledged before the next one of its record is saved, the record is cleared without that one, and saving it writes to memory that was freed; if the events go to different workers, the last may be processed first. `PipelineRecords.RunsRightIff` is the exact condition for a run, `AllRunsRightIff` for all runs, `SharedGoesWrong` and `LastClearsAlone` are the faults.
- `rbh-fsevents/rbh-fsevents.c`: a worker whose sink fails with `ENODATA` is taken for one that has finished (`PipelineOrder.QuietFailureLosesEvents`); `PipelineOrder.AllApplied` says exactly when a run without error applied everything.
- `rbh-update-path/src/entry.c`: the comment says that an entry whose parent is gone is skipped. The lookup answers `ENOENT`, not `ENODATA` (`librobinhood/src/backend.c:101`), which aborts the tool. The model follows the code.
- `librobinhood/src/generic_branch.c`: the traversal does not notice that acking ids is refused after its id ring was full to the last byte. It may then end without an error and without some of the entries: `BranchRuns.TrueEndIff` is the condition, `BranchFull.RefusedEnds` and `FlaggedLoses` say what is lost, `BranchDeep.DeepLoses` is a tree on which every run loses something. The assertion that the ring cannot be full and empty at the same time can fail (`BranchEnds.AbortedIsReached`), and ids can be dropped before they are read (`BranchEnds.TornIsReached`). None of this happens while the readers see their backlogs (`BranchRuns.SeeingIsRight`). A comment gives the id ring 16 MB; its size is 16 KiB. The model follows the code.
- `rbh-sync/rbh-sync.c`: `librobinhood/include/robinhood/fsevent.h` wants an operation for every attribute of an XATTR event. The attributes of a link that is not synchronized itself are sent without one (`ns_xattr_from_fsentry`), so they are not understood, or not as they were meant. And inode fields that are asked for without the identifier are not sent. `Sync.EventsSync` says exactly when an entry is synchronized right, `Sync.SufficientIff` with which fields all entries are.
- `librobinhood/src/serialization.c`: doubles are emitted and never accepted back (`YamlRoundTrip.RoundTrip`).

## Model

| member | source | states |
|---|---|---|
| HashMap.BetweenIsCircularOrder | librobinhood/src/hashmap.c:120-125 | the test of `is_between` holds exactly when the slot is no farther from `low` than `high` is, going round; distances then add up |
| HashMap.HashMap.KeyToSlot | librobinhood/src/hashmap.c:65-85 | the probe returns the first slot from the key's home that is empty or holds the key, and nothing only after a whole turn without one |
| HashMap.FoundIsLookup | librobinhood/src/hashmap.c:58-85 | in a table that keeps its invariant, a stored key is found where it is stored and an absent key is not found |
| HashMap.ModelSize | librobinhood/src/hashmap.c:87-101 | the map has as many associations as occupied slots, so that "no slot left" is "map full" |
| HashMap.StoreKeepsTable | librobinhood/src/hashmap.c:87-101 | storing at the slot that the probe found keeps every key reachable and adds or replaces that one association |
| HashMap.HashMap.Set | librobinhood/src/hashmap.c:87-101 | ENOBUFS exactly when the table is full and the key absent; otherwise exactly this association is set |
| HashMap.HashMap.Get | librobinhood/src/hashmap.c:103-114 | the last value set for an equal key, or nothing |
| HashMap.MoveKeepsTable | librobinhood/src/hashmap.c:127-243 | moving an item back into the hole keeps every other key reachable by probing; its old slot is the hole |
| HashMap.ClearKeepsTable | librobinhood/src/hashmap.c:212-243 | when the scan stops, at an empty slot or after a whole turn, emptying the hole loses nobody |
| HashMap.MoveDecreases | librobinhood/src/hashmap.c:127-243 | each move lowers the summed circular distance of the items from their homes, so deletion ends even in a full table |
| HashMap.OpenHole | librobinhood/src/hashmap.c:245-259 | forgetting the key at a slot leaves the map without exactly that key and the table with one hole |
| HashMap.HashMap.Remove | librobinhood/src/hashmap.c:212-243 | the recursive backward shift restores the table invariant, across wrap-around and in a full table |
| HashMap.HashMap.Pop | librobinhood/src/hashmap.c:245-259 | returns and removes exactly the association of the key |
| HashMap.Run | librobinhood/src/hashmap.c:35-259 | every run of set, get and pop from an empty table answers as a finite map of bounded size does |
| PathRepair.SoundMeansStaleBelowUnset | rbh-update-path/rbh-update-path.c:47-134 | the invariant of a repair says exactly: an entry whose path is not its true path has a proper ancestor without a path |
| PathRepair.ClearIsAllAbove | rbh-update-path/rbh-update-path.c:47-134 | what the invariant looks at is that an entry and all its ancestors have a path |
| PathRepair.SoundGivesTruePath | rbh-update-path/rbh-update-path.c:47-134 | under the invariant, a path with no gap above it is the true path from the root of its tree |
| PathRepair.CompleteIsRepaired | rbh-update-path/rbh-update-path.c:64-133 | under the invariant, a mirror with no path missing has only true paths |
| PathRepair.RepairIsUnique | rbh-update-path/rbh-update-path.c:47-134 | the paths of the entries that hang from nothing determine every other path |
| PathRepair.RepairedIsSpelled | rbh-update-path/src/utils.c:78-103 | in a repaired mirror, a path is that of any entry above followed by the names on the way down between slashes, with no second slash after `/`; it is shorter exactly when the first of several names is empty below an empty path or `/`, as no file's name is |
| PathRepair.HangsFromTop | rbh-update-path/rbh-update-path.c:47-134 | for every entry there are such names from an entry that hangs from nothing |
| PathRepair.UnsetKeepsSound | rbh-update-path/src/children.c:28-94 | unsetting paths keeps the invariant |
| PathRepair.SetKeepsSound | rbh-update-path/src/utils.c:78-103 | writing an entry's path from its parent's keeps the invariant while the entry's children have none |
| PathRepair.SetKeepsDue | rbh-update-path/rbh-update-path.c:64-133 | a deferred write leaves the other deferred writes of its batch correct |
| PathRepair.DeferredKeepsSound | rbh-update-path/rbh-update-path.c:64-133 | after any prefix of the deferred writes of a batch the invariant holds |
| PathRepair.SetsGivePaths | rbh-update-path/src/utils.c:78-103 | exactly the entries written gain a path and the others keep theirs |
| PathRepair.VisitForgetsNone | rbh-update-path/src/children.c:28-94 | visiting an entry leaves every entry without a path waiting in a batch or below one that waits |
| PathRepair.ChildrenWeight | rbh-update-path/src/children.c:28-72 | an entry's subtree weighs one more than its children's subtrees: the measure of the worklist |
| PathRepair.EnqueuedWeight | rbh-update-path/src/children.c:74-94 | replacing an entry by the batch of its children lowers the pending weight by one |
| PathRepair.FlushStartsNextBatch | rbh-update-path/rbh-update-path.c:64-133 | the writes at the end of a batch keep the invariant and leave the next batch ready |
| PathRepair.Mirror.ChunkifyUpdate | rbh-update-path/src/utils.c:218-255 | updating in chunks of 4096 applies every event once, in order |
| PathRepair.Mirror.RemoveChildrenPath | rbh-update-path/src/children.c:28-94 | exactly the children of the entry lose their path, and they become one batch if there are any |
| PathRepair.Mirror.GetEntryPath | rbh-update-path/src/entry.c:39-95 | the write is the parent's path, a slash unless that path is `/`, and the entry's name; nothing when the parent has no path, fatal exactly when the parent is not in the mirror; the cache per batch never gives another answer |
| PathRepair.Mirror.Visit | rbh-update-path/rbh-update-path.c:64-133 | one entry of a batch: invariant kept, fails exactly when the entry's parent is not in the mirror, pending weight accounted for |
| PathRepair.Mirror.ProcessBatch | rbh-update-path/rbh-update-path.c:64-133 | one batch: invariant kept, fails exactly when a parent is missing, pending weight lower by the size of the batch |
| PathRepair.Mirror.UpdatePath | rbh-update-path/rbh-update-path.c:47-134 | one pass ends and leaves no entry without a path, unless an entry without a path hangs from nothing, and exactly then it aborts |
| PathRepair.Mirror.RepairPaths | rbh-update-path/rbh-update-path.c:158-216 | the outer loop ends; it fails exactly when an entry without a path hangs from nothing, and otherwise every path is the true one: the names on the way down between slashes, after the untouched path that the tree hangs from, with no second slash after `/` |
| Ring.WriteExtends | librobinhood/src/ring.c:92-110 | a byte written after the window extends the stored history and overwrites nothing of it |
| Ring.PopShrinks | librobinhood/src/ring.c:119-133 | advancing the head, with wrap-around, forgets exactly the oldest bytes |
| Ring.Ring.Push | librobinhood/src/ring.c:92-110 | EINVAL exactly for more than the ring holds, ENOBUFS exactly for more than is free; otherwise the bytes are the new end of the contents |
| Ring.Ring.Peek | librobinhood/src/ring.c:112-117 | the stored bytes, oldest first, across wrap-around |
| Ring.Ring.Pop | librobinhood/src/ring.c:119-133 | refused exactly when fewer bytes are stored; otherwise that many oldest bytes go |
| Ring.Ring.Windowed | librobinhood/src/ring.c:92-117 | bytes still stored are read back from the address that the push returned |
| MultiRing.ReadableIsBacklog | librobinhood/src/ringr.c:86-98 | the computed count is the reader's number of unread bytes exactly when its `starved` flag is right |
| MultiRing.SightIs | librobinhood/src/ringr.c:86-98 | whatever happened before, a reader sees its backlog, or nothing while its flag stands at the head of a ring that is not empty |
| MultiRing.CoherentSees | librobinhood/src/ringr.c:86-98 | all readers see their backlogs exactly when none stands flagged at the head of a ring that is not empty |
| MultiRing.PushSafeIff | librobinhood/src/ringr.c:65-84 | a push leaves every reader seeing its backlog exactly unless it puts data in an empty ring with a flagged reader without filling it |
| MultiRing.AckSafeIff | librobinhood/src/ringr.c:137-164 | an ack leaves every reader seeing its backlog exactly when no flagged reader becomes the slowest with data left |
| MultiRing.DestroySafeIff | librobinhood/src/ringr.c:166-182 | the same for a reader that leaves |
| MultiRing.AckKeepsUnflagged | librobinhood/src/ringr.c:137-164 | an ack raises a flag exactly when the reader catches up with the writer on an exactly full ring |
| MultiRing.PushKeepsUnflagged | librobinhood/src/ringr.c:65-84 | a push raises no flag |
| MultiRing.FlaggedReaderMissesData | librobinhood/src/ringr.c:65-98 | the witness: fill a ring, read it all, push one byte; the reader is told that there is nothing |
| MultiRing.MaxReadable | librobinhood/src/ringr.c:107-127 | the largest backlog, although the search stops early and flagged readers may hide theirs, if a slowest reader sees its own |
| MultiRing.MultiRing.Dup | librobinhood/src/ringr.c:49-63 | a new reader stands where the other one does |
| MultiRing.MultiRing.Push | librobinhood/src/ringr.c:65-84 | the bytes follow the history for every reader; errors as for one reader |
| MultiRing.MultiRing.Peek | librobinhood/src/ringr.c:100-105 | a reader gets exactly the bytes pushed and not acked by it, in order; with a wrong flag it gets nothing, or all that is stored once more |
| MultiRing.MultiRing.Ack | librobinhood/src/ringr.c:137-164 | EINVAL exactly beyond what the reader sees, be its flag right or wrong; otherwise the reader moves on and what no reader needs is dropped |
| MultiRing.MultiRing.Destroy | librobinhood/src/ringr.c:166-182 | the reader is gone and what only it needed is dropped |
| MultiRing.LongestIsUsed | librobinhood/src/ringr.c:107-135 | the space in use is the longest backlog |
| MultiRing.StepIsReference | librobinhood/src/ringr.c:49-182 | while all readers see their backlog, each operation acts on one queue of unread bytes per reader |
| MultiRing.CoherentIffSafe | librobinhood/src/ringr.c:49-182 | throughout a run all readers see their backlog exactly when every operation meets its condition |
| MultiRing.NeverCatchesUpIsSafe | librobinhood/src/ringr.c:137-164 | a run in which no reader catches up with the writer on an exactly full ring is such a run |
| MultiRing.Run | librobinhood/src/ringr.c:29-182 | every safe run from a new ring answers as those queues do |
| BranchSearch.RecurseKeepsExplored | librobinhood/src/generic_branch.c:154-185 | adding the subdirectories of what was read keeps: found directories are distinct and of the branch, and those of read ones are all found |
| BranchSearch.EmitKeepsEmitted | librobinhood/src/generic_branch.c:187-193 | adding the matching children of what was read keeps: each entry is emitted once |
| BranchSearch.TraversalExact | librobinhood/src/generic_branch.c:195-323 | when nothing is left to read, the emitted entries are exactly the matching entries of the subtree, each once |
| BranchLinks.ShortIdsNeverFill | librobinhood/src/generic_branch.c:195-297 | identifiers shorter than 24 bytes, of whatever lengths, never fill the id ring exactly |
| BranchLinks.DividedIdsNeverFill | librobinhood/src/generic_branch.c:195-297 | nor do identifiers whose lengths have a common divisor that the size of the ring does not have |
| BranchLinks.ReadTracks | librobinhood/src/generic_branch.c:101-138 | a reader that reads all that is recorded leaves both rings in order, though the id ring may refuse its ack |
| BranchLinks.ReadInStep | librobinhood/src/generic_branch.c:122-138 | the id ring follows the value ring exactly if the reader sees the ids it read |
| BranchLinks.PushIdTracks | librobinhood/src/generic_branch.c:232-256 | an id pushed without its structure yet leaves both rings in order |
| BranchLinks.PushValueTracks | librobinhood/src/generic_branch.c:273-295 | the structure pushed next completes it |
| BranchLinks.FullIsExactFill | librobinhood/src/generic_branch.c:232-256 | when the id ring is first full to the last byte, its contents are ids of different directories of the branch |
| BranchLinks.LargestHasWork | librobinhood/src/generic_branch.c:53-62 | while the readers see their backlogs, the reader to be served when a push is refused has directories to read |
| BranchLinks.FetchIds | librobinhood/src/generic_branch.c:64-138 | following the structures into the id ring gives the recorded ids, although the id ring wraps and is reused |
| BranchRings.Rings.ReadBatch | librobinhood/src/generic_branch.c:101-138 | a reader gets all directories recorded since it last read; the id ring takes its ack or refuses it, as its flag says |
| BranchRings.Rings.LargestReader | librobinhood/src/generic_branch.c:53-62 | the reader that seems to have more to read, be the flags right or wrong; if right, the one served when a push is refused has work |
| BranchRings.Rings.RecordId | librobinhood/src/generic_branch.c:232-256 | EINVAL exactly for an id larger than the ring, ENOBUFS exactly for one that does not fit now; otherwise it is recorded at the address returned |
| BranchRings.Rings.RecordValue | librobinhood/src/generic_branch.c:273-295 | recorded for the id recorded before it, exactly if it fits |
| BranchRuns.StepInv | librobinhood/src/generic_branch.c:101-297 | every step keeps, whatever the flags of the id ring say: the readers' places, the ids in the rings, the directories known and the entries returned fit together |
| BranchRuns.StepProgress | librobinhood/src/generic_branch.c:195-297 | every step brings a search closer to its end, which is bounded by the size of the branch |
| BranchRuns.StepKeepsInStep | librobinhood/src/generic_branch.c:122-138 | while both readers see their backlogs no ack of ids is refused; until the ring was full no reader is flagged |
| BranchRuns.SeeingStops | librobinhood/src/generic_branch.c:195-297 | while the readers see their backlogs a search stops for an id larger than the ring or because nothing is left |
| BranchRuns.FinishedIsExact | librobinhood/src/generic_branch.c:195-323 | when both readers are through and nothing is left to record, the answer is complete and no id was too large |
| BranchRuns.TrueEndIff | librobinhood/src/generic_branch.c:215-230 | an end without error is true exactly if no directory is left to record, which is exactly if every directory of the branch was searched |
| BranchRuns.CutShort | librobinhood/src/generic_branch.c:239-254 | otherwise a directory of the branch is left over and nothing in it was returned |
| BranchRuns.NeverFullSees | librobinhood/src/generic_branch.c:195-297 | a run in which the id ring is never full to the last byte misleads no reader |
| BranchRuns.FullNeedsExactFill | librobinhood/src/generic_branch.c:195-297 | a run fills the id ring exactly only where some directories of the branch have ids that add up to it |
| BranchRuns.SeeingIsRight | librobinhood/src/generic_branch.c:195-323 | every run in which the readers see their backlogs ends with exactly the matching entries of the branch, each once, or with a failure exactly if a directory has an id larger than the ring |
| BranchRuns.RunsAreShort | librobinhood/src/generic_branch.c:195-297 | every run ends |
| Branch.BranchIterator.Recurse | librobinhood/src/generic_branch.c:154-185 | one more search for subdirectories, or ENODATA exactly when the first reader has nothing unread: a step of the machine |
| Branch.BranchIterator.NextFsentries | librobinhood/src/generic_branch.c:187-193 | the matching children of all that the second reader had not read, or ENODATA: a step of the machine |
| Branch.BranchIterator.MakeRoom | librobinhood/src/generic_branch.c:238-252 | a refused push serves the reader that seems further behind; if that has nothing to read, the search ends or the assertion fails |
| Branch.BranchIterator.BranchNextFsentries | librobinhood/src/generic_branch.c:195-297 | resumes wherever it was interrupted and follows the machine up to the batch or the end it returns |
| Branch.BranchIterator.Next | librobinhood/src/generic_branch.c:299-323 | one entry at a time, all that the batches gave, and the end where the machine stops |
| Branch.Traverse | librobinhood/src/generic_branch.c:395-457 | the whole traversal, for every tree and wherever the rings fill: its run is one of the machine's; it is right while the readers see their backlogs, thus if the id ring is never full to the last byte, thus if no directories of the branch fill it; in any case it is right if it ends with no directory left over, and else that directory's entries are missing |
| BranchFull.FlaggedStep | librobinhood/src/generic_branch.c:122-138 | after both readers were flagged, no ack of ids goes through until the ring is full again |
| BranchFull.FlaggedLoses | librobinhood/src/generic_branch.c:195-297 | from there, if the ring is not full again, a search of a branch whose ids are too many for what the ring has left loses a directory and all that is in it |
| BranchFull.RefusedEnds | librobinhood/src/generic_branch.c:238-252 | in every state in which both readers are flagged and the next id does not fit, at most one more batch is returned and then the end, with that directory and all found after it left |
| BranchDeep.DeepLoses | librobinhood/src/generic_branch.c:195-323 | 512 directories with ids of 32 bytes and below them 497 with ids of 33: every run ends without an error and without some matching entry |
| BranchDeep.TraverseDeep | librobinhood/src/generic_branch.c:395-457 | so does the traversal |
| BranchEnds.TornIsReached | librobinhood/src/generic_branch.c:122-138 | a run with three directories in which an ack lets the id ring drop an id that the other reader has not read |
| BranchEnds.AbortedIsReached | librobinhood/src/generic_branch.c:238-247 | a run with five directories that violates the assertion that the ring cannot be full and empty at the same time |
| Memory.Align | librobinhood/include/utils.h:54-62 | the least multiple of the alignment that is not smaller |
| Memory.AlignedAlloc | librobinhood/include/utils.h:44-80 | succeeds exactly when the aligned structure fits before the end; the remaining size stays in step with the address |
| Memory.StringUnique | librobinhood/src/value.c:103-204 | a terminated string in memory is one string only |
| Value.ValueDataSize | librobinhood/src/value.c:24-61 | the accumulating loops compute the recursive size |
| Value.ValueMapDataSize | librobinhood/src/value.c:84-101 | the same for maps |
| Value.SizeDominates | librobinhood/src/value.c:24-204 | for every value, copying from no later an address than the size pass assumed ends no later than the size pass computed |
| Value.MapDominates | librobinhood/src/value.c:63-273 | the same for maps of pairs, nested at will |
| Value.DenotesUnique | librobinhood/src/value.c:103-204 | a structure in memory stands for one value only |
| Value.DenotesKept | librobinhood/src/value.c:103-204 | a copied value keeps its meaning while memory outside it changes |
| Value.ValueCopy | librobinhood/src/value.c:103-204 | succeeds whenever all fits; the copy stands for the value and nothing outside was written |
| Value.ValuePairCopy | librobinhood/src/value.c:206-245 | the same for a pair, with or without a value |
| Value.ValueMapCopy | librobinhood/src/value.c:247-273 | the same for a map |
| Value.ValueClone | librobinhood/src/value.c:300-316 | no ENOBUFS assertion fires and the clone stands for the same tree |
| Filter.FilterDataSize | librobinhood/src/filter.c:256-316 | the recursion computes the size of every kind of filter |
| Filter.FilterDominates | librobinhood/src/filter.c:89-316 | the block of the size pass is large enough for the copy pass, for every filter |
| Filter.GetOrders | librobinhood/src/filter.c:165-194 | for a GET filter, sized in the opposite order to copying, the sized order is no smaller |
| Filter.FilterDenotesUnique | librobinhood/src/filter.c:89-254 | a structure in memory stands for one filter only |
| Filter.FilterCopy | librobinhood/src/filter.c:237-254 | succeeds whenever all fits; the copy stands for the filter and nothing outside was written |
| Filter.FilterFieldCopy | librobinhood/src/filter.c:48-87 | the same for a field, with or without a name |
| Filter.LogicalFilterCopy | librobinhood/src/filter.c:196-235 | the same for logical filters, null members included |
| Filter.ArrayFilterCopy | librobinhood/src/filter.c:112-163 | the same for array filters |
| Filter.GetFilterCopy | librobinhood/src/filter.c:165-194 | the same for GET filters |
| Filter.FilterClone | librobinhood/src/filter.c:318-340 | no ENOBUFS assertion fires and the clone stands for the same filter |
| Fsevent.FseventDataSize | librobinhood/src/fsevent.c:115-159 | what is asked for is enough: copying the event to any aligned address ends within that many bytes |
| Fsevent.EventDominates | librobinhood/src/fsevent.c:27-159 | the block of the size pass is large enough for the copy pass, for every event |
| Fsevent.EventDenotesUnique | librobinhood/src/fsevent.c:27-113 | a structure in memory stands for one event only |
| Fsevent.IdCopy | librobinhood/src/id.c:24-48 | the identifier is copied when it fits |
| Fsevent.FseventCopy | librobinhood/src/fsevent.c:27-113 | succeeds whenever all fits; the copy stands for the event and nothing outside was written |
| Fsevent.FseventClone | librobinhood/src/fsevent.c:161-177 | no assertion fires and the clone stands for the same event |
| Fsentry.EntryDominates | librobinhood/src/fsentry.c:28-147 | the size pass is large enough for the fill pass, for every subset of the fields |
| Fsentry.EntryDenotesUnique | librobinhood/src/fsentry.c:73-147 | every field, present or absent, is read back from the block |
| Fsentry.ContradictsIff | librobinhood/src/fsentry.c:40-44 | refused is a link target for a file of any known type but that of a symbolic link; nothing is refused without a target or a known type |
| Fsentry.FsentryFill | librobinhood/src/fsentry.c:73-147 | the block stands for the arguments |
| Fsentry.FsentryNew | librobinhood/src/fsentry.c:28-147 | EINVAL exactly when a link target is given for something known not to be a link; otherwise the block stands for the arguments, and its mask names exactly the fields that are there |
| Tokens.PiecesOfJoin | librobinhood/src/alias.c:69-83 | cutting a joined list of pieces gives the pieces back |
| Tokens.PiecesOfCut | librobinhood/src/alias.c:69-83 | a separator cuts wherever it is, which determines all the pieces of a text |
| Tokens.Strtok | librobinhood/src/alias.c:69-129 | the pieces between separators, empty ones left out |
| Tokens.CountValues | librobinhood/src/utils/utils.c:97-123 | fails exactly on values that are not separated by single separators; otherwise counts the pieces |
| Alias.ProcessArgs | librobinhood/src/alias.c:95-129 | one flag before each name of every list, everything else unchanged |
| Substitution.ParseOfPrint | librobinhood/src/alias.c:95-129 | cutting the lists once more changes nothing, so it may be repeated on the whole command line |
| Substitution.ParseOfList | librobinhood/src/alias.c:100-117 | a list of names is one reference to each in the order of the list, and cut, a flag and a name for each |
| Substitution.ListInOrder | librobinhood/src/alias.c:95-129 | the names of a list are substituted one after the other, in its order |
| Substitution.LengthOfPrint | librobinhood/src/alias.c:131-172 | cutting lists lengthens a command line, and keeps its length for single names: the range of a resolution is never too long |
| Substitution.ExpansionInContext | librobinhood/src/alias.c:131-214 | what surrounds a reference is substituted on its own |
| Substitution.ExpansionIsFlat | librobinhood/src/alias.c:216-252 | no flag is left in a full substitution |
| Substitution.LoopIsInfinite | librobinhood/src/alias.c:147-156 | an alias that comes up while it is being resolved has no finite substitution |
| Chains.HistoryFits | librobinhood/src/alias.c:158-159 | distinct names of the table weigh no more than the table, and are no more than it has |
| Chains.TableFits | librobinhood/src/alias.c:158-159 | if all names together fit the history, every chain of names does |
| Chains.ChainDescends | librobinhood/src/alias.c:131-214 | along a chain of names whose substitution ends no name comes twice |
| Chains.BoundedFits | librobinhood/src/alias.c:158-159 | a name that is about to be resolved and is not in the history fits, if chains of distinct nested names do |
| Alias.ResolvingContinues | librobinhood/src/alias.c:176-209 | replacing a reference by a later form of it loses no meaning and lowers the number of substitutions left |
| Alias.Resolver.AliasResolution | librobinhood/src/alias.c:131-214 | ends; gives up only on aliases without a finite substitution; otherwise the reference is replaced by a form with the same substitution, what is around it is unchanged, and with single names nothing is left to replace in it |
| Alias.Resolver.Round | librobinhood/src/alias.c:174-209 | resolves the first flag in the range; the range never reaches beyond what came from the alias |
| Alias.ApplyAliases | librobinhood/src/alias.c:216-252 | the result is the full recursive substitution; there is none exactly when an alias is unknown or loops |
| Alias.ReferenceIsItsValue | librobinhood/src/alias.c:131-214 | a reference between plain arguments stands for the substitution of its value between those arguments |
| PipelineOrder.AssignedIs | rbh-fsevents/rbh-fsevents.c:353-377 | a worker is handed exactly its sub-batches, oldest first, at most one a batch |
| PipelineOrder.StepOrder | rbh-fsevents/rbh-fsevents.c:399-631 | every step of producer and workers keeps: what a worker did, has in hand and has on its list is what it was handed, in order |
| PipelineOrder.AppliedInOrder | rbh-fsevents/rbh-fsevents.c:399-610 | in every interleaving, the events applied for an identifier are a prefix of its events in source order, and one worker applies them all |
| PipelineOrder.AppliedIffNotLeft | rbh-fsevents/rbh-fsevents.c:660-713 | in a run that returns 0, the events of an identifier were all applied exactly when its worker left none of them |
| PipelineOrder.AllApplied | rbh-fsevents/rbh-fsevents.c:660-713 | a run that returns 0 applied all events of every identifier exactly when no worker left any in a sub-batch it gave up in or on its list; without such a worker nothing is left |
| PipelineOrder.SucceededIff | rbh-fsevents/rbh-fsevents.c:465-696 | a run returns 0 exactly if the source ended, every worker left and nothing failed but sinks with ENODATA; a worker loses a sub-batch exactly if it breaks off |
| PipelineOrder.QuietFailureLosesEvents | rbh-fsevents/rbh-fsevents.c:440-469 | the witness: a sink that fails with ENODATA makes the run return 0 with nothing applied and the event left |
| PipelineOrder.WithoutDeduplication | rbh-fsevents/src/deduplicator.c:115-144 | without deduplication the batches are single events, routed by identifier, and their order is that of the source |
| PipelineRuns.StepLowers | rbh-fsevents/rbh-fsevents.c:399-631 | every step of producer or workers leaves fewer to take |
| PipelineRuns.RunsEnd | rbh-fsevents/rbh-fsevents.c:399-631 | every run ends: it takes at most a step for each worker, two for each batch, four for each sub-batch, and two more |
| PipelineRuns.NotStuck | rbh-fsevents/rbh-fsevents.c:399-631 | until producer and workers are through, some step is possible that is no failure |
| PipelineRuns.NothingFailsSucceeds | rbh-fsevents/rbh-fsevents.c:660-713 | every run without a failure that goes on as long as it can returns 0, with every event applied and every batch acknowledged and cleared |
| PipelineAcks.StepAcks | rbh-fsevents/rbh-fsevents.c:440-607 | every step keeps: what a batch still requires is the number of its sub-batches not processed and acknowledged; batch identifiers match the order of saving |
| PipelineAcks.ClearedIsProcessed | rbh-fsevents/src/sources/lustre/ack.c:119-175 | in every run a batch is cleared only after each of its sub-batches was processed |
| PipelineAcks.AllCleared | rbh-fsevents/src/sources/lustre/ack.c:119-175 | after a run that returns 0 no batch waits for an acknowledgement exactly when no worker gave up; every batch is cleared then |
| PipelineAcks.RunsInOrderIff | rbh-fsevents/src/sources/lustre/ack.c:18-30 | a run clears batches only after everything before them throughout exactly when no acknowledgement finds the oldest batch waiting for more than one and the next one done |
| PipelineAcks.OvertakingIsOutOfOrder | rbh-fsevents/src/sources/lustre/ack.c:136-172 | such an acknowledgement clears a batch although an older one is not processed |
| PipelineAcks.NarrowInOrder | rbh-fsevents/src/sources/lustre/ack.c:18-30 | with at most two workers, or one worker for each batch, every run clears in order |
| PipelineRecords.SinglesAreRecorded | rbh-fsevents/src/deduplicator.c:115-144 | what the source yields without deduplication: batches of one event, their records in order |
| PipelineRecords.StepRecords | rbh-fsevents/src/sources/lustre/ack.c:31-80 | every step that does not come too early keeps: the element of a record carries its last saved event and requires one until that event is done, and the last event is done only after the others |
| PipelineRecords.RunsRightIff | rbh-fsevents/src/sources/lustre/ack.c:42-57 | throughout a run, a record counts as done and is forgotten only after all its events and those before were processed, and no freed element is written to, exactly when no acknowledgement is for the last saved event of a record of which another is not processed or not saved, and the first event is of a new record |
| PipelineRecords.PrematureIffUnsaved | rbh-fsevents/src/sources/lustre/ack.c:42-57 | where each record goes to one worker, that is exactly: no event is acknowledged before the next one of its record is saved |
| PipelineRecords.AllRunsRightIff | rbh-fsevents/src/sources/lustre/ack.c:42-57 | every run is right exactly when no two events are of one record, and none of the record at which reading started |
| PipelineRecords.SharedGoesWrong | rbh-fsevents/src/sources/lustre/ack.c:51-80 | whatever the workers, a second event of a record can come after the first is acknowledged: the record is forgotten without it, and saving it writes to the element that was freed |
| PipelineRecords.LastClearsAlone | rbh-fsevents/src/sources/lustre/ack.c:42-57 | with two workers, the acknowledgement of the last event of a record clears it before the first was processed: a concrete run |
| PipelineAcks.ThreeWorkersOutOfOrder | rbh-fsevents/src/sources/lustre/ack.c:136-172 | with three workers some run does not: a concrete one |
| Acks.InOrderIff | rbh-fsevents/src/sources/lustre/ack.c:136-172 | one acknowledgement clears in order exactly unless the oldest batch is overtaken |
| Acks.ClearsDonePrefix | rbh-fsevents/src/sources/lustre/ack.c:136-172 | unless overtaken, exactly the finished batches with nothing unfinished before them are cleared |
| Acks.AcknowledgeKeeps | rbh-fsevents/src/sources/lustre/ack.c:119-175 | what is cleared is done, nothing is lost, and no finished batch stays at the head |
| Acks.WalkIsAcknowledge | rbh-fsevents/src/sources/lustre/ack.c:136-172 | the walk over the list, with its early stop, computes that acknowledgement |
| Acks.Source.AckBatch | rbh-fsevents/src/sources/lustre/ack.c:119-175 | the loop over the list leaves exactly the batches, and clears exactly those, that the acknowledgement says |
| Acks.Source.SaveBatch | rbh-fsevents/src/sources/lustre/ack.c:31-80 | a deduplicated batch is remembered last, with the next identifier and the last index that is entirely in it |
| Acks.Source.SaveEvent | rbh-fsevents/src/sources/lustre/ack.c:42-80 | without deduplication, the events of one record share an element that carries the identifier of the last; exactly when the element is gone, freed memory is written to |
| Deduplicator.Pool.PushEvent | rbh-fsevents/src/deduplicator/fsevent_pool.c:846-930 | full exactly for a new identifier without room, and then nothing is pushed; otherwise the identifier's list is the fold of its events since the flush |
| Deduplicator.RecentAfter | rbh-fsevents/src/deduplicator/fsevent_pool.c:846-930 | after an event its identifier comes last, or is gone if everything of it cancelled out |
| Deduplicator.Pool.Flush | rbh-fsevents/src/deduplicator/fsevent_pool.c:970-1039 | one sub-batch for each worker with something to do, made of the whole lists of its identifiers, the one with the latest event last |
| Deduplicator.Deduplicator.NextBatch | rbh-fsevents/src/deduplicator.c:36-99 | no event is lost, repeated or pushed into a full pool; the pool never answers "already full"; the saved index covers exactly the records that were pushed entirely |
| Changelog.Drain | rbh-fsevents/src/deduplicator.c:36-99 | the batches until the end of the source are cut from consecutive stretches of it; what is left over cancelled out |
| Changelog.CutIsSplit | rbh-fsevents/src/deduplicator/fsevent_pool.c:970-1039 | those batches are split by worker and routed by identifier, as the pipeline needs |
| Changelog.MergedEvents | rbh-fsevents/src/deduplicator/fsevent_pool.c:970-1039 | the events of an identifier in the pipeline are what merging left of each stretch, in order |
| Changelog.ForgottenIsProcessed | rbh-fsevents/src/sources/lustre/ack.c:18-30 | where batches are cleared in order, every record up to an index that the changelog forgets is in a batch that was processed |
| Changelog.FinishedIsForgotten | rbh-fsevents/src/sources/lustre/ack.c:59-66 | when the last batch is cleared, the changelog forgets exactly the records before the last cut that share their index with none behind it |
| Changelog.RunForgets | rbh-fsevents/src/sources/lustre/ack.c:119-175 | so does every run that returns 0 without a worker giving up |
| Percent.DecodeReads | librobinhood/src/uri.c:153-219 | decoding succeeds exactly on texts in which every `%` is followed by two hexadecimal digits, and gives their one reading (section 2.1 of RFC 3986) |
| Percent.HexIsPlace | librobinhood/src/uri.c:157-171 | a hexadecimal digit is worth its place among the digits, in either case; nothing else is a digit |
| Percent.DecodeOfEncode | librobinhood/src/uri.c:178-219 | whatever set of bytes is written encoded, decoding gives the bytes back |
| Percent.PercentDecode | librobinhood/src/uri.c:178-219 | decodes in place: nothing is written over that is still to be read, and no more is written than was to be decoded |
| Uri.RecomposeOfParse | librobinhood/src/uri.c:40-135 | putting the components of an accepted URI together as in section 5.3 of RFC 3986 gives the URI, empty components included |
| Uri.ParseOfRecompose | librobinhood/src/uri.c:40-135 | every canonical set of components is read back from its text |
| Uri.ParseIsCanonical | librobinhood/src/uri.c:40-135 | what is read is canonical: the last `#` and the last `?` cut, no component holds the separator that would end it |
| UriSplit.ShiftAuthority | librobinhood/src/uri.c:93-109 | moving the authority over its two slashes leaves authority and path intact |
| UriSplit.RawUriFromString | librobinhood/src/uri.c:40-135 | refused exactly without a scheme and colon; otherwise the pieces of the buffer are the components |
| UriBuild.SizeSuffices | librobinhood/src/uri.c:397-441 | the computed size covers every string, structure and padding of the fill pass |
| UriBuild.UriDataSize | librobinhood/src/uri.c:397-441 | the size pass computes that size from the strings |
| UriBuild.FillAuthority | librobinhood/src/uri.c:310-375 | username, password, host and port; no size assertion fires; fails exactly on a bad port |
| UriBuild.FillPath | librobinhood/src/uri.c:465-497 | backend and filesystem name decoded, without one slash at the end; no size assertion fires |
| UriBuild.FragmentIsFid | librobinhood/src/uri.c:293-308 | two colons between the brackets |
| UriBuild.FillTarget | librobinhood/src/uri.c:499-535 | identifier, path or nothing; no size assertion fires |
| UriBuild.UriFromRawUri | librobinhood/src/uri.c:377-555 | fails exactly when the URI has no meaning; otherwise the block holds that meaning and nothing outside the block is written |
| UriMeaning.InterpretOfWrite | librobinhood/src/uri.c:377-555 | however the parts of a URI are written, encoded or not, with or without the slashes and the colon that may be left out, it means what it was written for |
| UriMeaning.InterpretsIff | librobinhood/src/uri.c:377-555 | a URI has a meaning exactly if its scheme is `rbh`, its port a number, a colon cuts its path in two readable parts, and its fragment is readable |
| UriMeaning.NoColonNoMeaning | librobinhood/src/uri.c:413-417 | without a colon in the path there is no meaning |
| UriMeaning.FidIsEntry | librobinhood/src/uri.c:293-308 | two colons between brackets are read as a Lustre identifier |
| UriMeaning.DecodeThen | librobinhood/src/uri.c:178-219 | decoding reads what was encoded and then what follows, up to its limit |
| Queue.Queue.MakeRoom | librobinhood/src/queue.c:73-90 | compaction or doubling leaves the rings in use as they are and a slot free behind them |
| Queue.Queue.Push | librobinhood/src/queue.c:59-107 | refused exactly for more than a ring holds; otherwise the bytes are the new end of the queue, in one ring, after at most one retry on an empty ring |
| Queue.Queue.Peek | librobinhood/src/queue.c:109-113 | a prefix of the queue that is empty only if the queue is |
| Queue.Queue.Pop | librobinhood/src/queue.c:115-133 | refused exactly beyond what lies together; otherwise that many oldest bytes go, and an emptied ring goes to the pool |
| Tee.Tee.Next | librobinhood/src/itertools.c:262-303 | each side gets the next item of the source, then its end; nothing is left to share later |
| Tee.Run | librobinhood/src/itertools.c:233-316 | under every interleaving of calls, and after one side is destroyed, each side answers as the source alone would |
| Sync.FlagsCall | rbh-sync/rbh-sync.c:305-357 | the flags of an entry call exactly for its events |
| Sync.KindsOfEvents | rbh-sync/rbh-sync.c:305-357 | an entry gives at most one event for its inode and after it one for its link: an upsert exactly when identifiers are asked for, a link exactly when parent and name are and it has both, and otherwise attributes exactly if there are any |
| Records.SetsAreAttributes | librobinhood/include/robinhood/fsevent.h:55-69 | operations that set every attribute are worth the attributes |
| Records.OperationsAreNotAttributes | librobinhood/include/robinhood/fsevent.h:55-69 | attributes that are taken for operations never come out as they were |
| Sync.EventsSync | rbh-sync/rbh-sync.c:368-488 | the events of an entry give a record exactly the fields that were asked for and that the entry has, with the mask of its inode projected, unless inode fields are asked for without the identifier or link attributes without the link: the exact condition, for every record, entry and choice of fields |
| Sync.SufficientIff | rbh-sync/rbh-sync.c:305-488 | the choices of fields with which this is so for every entry |
| Sync.EventsMirror | rbh-sync/rbh-sync.c:490-521 | with these, a dump leaves in every record of a mirror what the entries of its identifier have, in their order, whatever it held before |
| Sync.SyncedOnce | rbh-sync/rbh-sync.c:490-521 | where no other entry has its identifier, that is just the entry |
| Sync.Convert.Next | rbh-sync/rbh-sync.c:490-521 | the next of the events of the entries: upsert or inode attributes, then link or link attributes, entries without identifier or event skipped |
| Sync.Chunk.Next | librobinhood/src/itertools.c:116-141 | a chunk gives its first element, then at most as many as it has left |
| Sync.Update | librobinhood/src/itertools.c:116-190 | a chunk taken whole is a non-empty stretch of the events, short only at their end |
| Sync.Dump | rbh-sync/rbh-sync.c:609-633 | the chunks concatenate to the events of all entries in order; none is empty and all but the last are full; with a sufficient choice of fields every record of the other backend ends as the entries have it |
| Yaml.NumberOfDecimal | librobinhood/src/serialization.c:128-374 | a number is read back from the decimal text it was written as |
| Yaml.Emitter.EmitValue | librobinhood/src/serialization.c:902-944 | appends the events of the value; fails exactly on a tree with a value of type null |
| Yaml.Emitter.EmitMap | librobinhood/src/serialization.c:479-496 | the same for maps, with null for a pair without value |
| YamlRoundTrip.RegexRoundTrip | librobinhood/src/serialization.c:694-817 | a regex is read back from its mapping |
| YamlRoundTrip.RegexInAnyOrder | librobinhood/src/serialization.c:729-817 | the fields of a regex are read in any order, the last of a kind counts, anything else in its mapping is passed over, and only the pattern has to be there |
| YamlRoundTrip.SkipOfEmit | librobinhood/src/serialization.c:765-811 | skipping a node passes over exactly one value, whatever is nested in it |
| YamlRoundTrip.IntegersFit | librobinhood/src/serialization.c:128-374 | a decimal number under the tag of an integer type is read exactly if the type holds it |
| YamlRoundTrip.RoundTrip | librobinhood/src/serialization.c:479-1014 | parsing an emitted value gives the value and leaves the rest of the stream, exactly when it holds no double; with a double it fails |
| YamlParser.Parser.ParseRegexMapping | librobinhood/src/serialization.c:776-817 | the fields of a regex in any order, unknown ones skipped, the pattern required |
| YamlParser.Parser.ParseSequence | librobinhood/src/serialization.c:637-686 | the loop finds the elements that the recursive reading does |
| YamlParser.Parser.ParseMap | librobinhood/src/serialization.c:547-631 | the same for the pairs of a map |
| YamlParser.Parser.ParseValue | librobinhood/src/serialization.c:947-1014 | any stream is read as the recursive reading says, or refused with it |
| YamlParser.Through | librobinhood/src/serialization.c:902-1014 | a value goes through emitter and parser unchanged, with the rest of the stream left, exactly when it holds no double; emitting fails exactly on a value of type null |

## Left out

- Backends (MongoDB, SQLite, S3, POSIX, Lustre, MPI), plugins, configuration files and command lines other than aliases: a backend is a finite map of entries whose queries return a snapshot.
- Printing, reports, garbage collection, undeletion, retention and policies: thin or bound to input and output.
- Memory is never exhausted, `errno` is kept only as the error that a call reports, and `exit` is a failure result.
- Structure sizes and alignments are those of a 64-bit Linux; pointers are addresses in one block, and a structure sits in the cell of its first byte.
- Ring.Ring.Push: does not model reserving space with a null pointer; the double mapping of the buffer is an array indexed modulo its size.
- MultiRing.Run: covers the runs in which all readers see their backlog, which is exactly when every operation is safe. The order of the circular list of readers is not modelled.
- MultiRing.MultiRing.Ack: does not model an ack that makes the ring drop what another reader has not read, which takes that every reader beside it at the head has a wrong flag.
- MultiRing.StepIsReference: states in which a flag is wrong; no queue answers as the code does there.
- MultiRing.MultiRing.Destroy: does not model the last reader, which takes the ring with it, nor readers with a wrong flag.
- Branch.Traverse: a run is not followed beyond an ack that tears the id ring (`Torn`), since ids may be written over then and the code need not end. The backend answers a query with a snapshot and does not fail; options that skip or limit are refused by the code and not modelled. The filter is a set of matching entries.
- Branch.BranchIterator.Recurse: the same.
- Branch.BranchIterator.NextFsentries: the same.
- Branch.BranchIterator.MakeRoom: the same.
- Branch.BranchIterator.BranchNextFsentries: the same.
- Branch.BranchIterator.Next: the same.
- BranchRings.Rings.ReadBatch: reports such an ack and does not carry it out.
- PathRepair.Mirror.RepairPaths: takes one link per entry (no hard links), a mirror that is a forest, and nobody else writing to it; the paths it may start from are those with which the invariant holds.
- PathRepair.Mirror.ChunkifyUpdate: does not model a backend that fails to update, on which the code stops.
- PathRepair.Mirror.RemoveChildrenPath: does not model a backend that fails to answer or to update.
- Value.ValueCopy: does not model values of an invalid type, for which the code fails with EINVAL.
- Filter.GetFilterCopy: the members of a GET filter are not null, as `rbh_filter_get_new` builds them; validation of filters is not modelled.
- Filter.FilterDataSize: does not model unknown operators and fields, which validation refuses before.
- Filter.FilterClone: does not model a null filter, which is cloned to null, nor the refusal of an invalid one.
- Fsevent.FseventDataSize: the eight bytes that the size pass adds for the time of a partial unlink are not used by the copy pass; the model keeps both.
- Alias.ApplyAliases: the values of aliases are separated by single spaces, each of their flags is followed by a name, and every chain of distinct nested names fits the history stack of 1024 bytes, a failure of which goes unnoticed; the last argument of the command line is not a lone flag, after which the code reads past the end. Where an alias lists several names and substitution has no end, the code may run forever, so that case is excluded.
- Alias.Resolver.AliasResolution: the same.
- Alias.Resolver.Round: the same.
- Alias.ProcessArgs: the stack that holds the strings is not modelled.
- PipelineRuns.NotStuck: that sleeping threads are woken up is not modelled.
- PipelineOrder.StepOrder: flags shared between threads are read and written atomically, and may change between a test and what it guards. Enrichment is part of the sink.
- Acks.Source.SaveBatch: the source is taken to end once.
- Acks.Source.SaveEvent: what follows after freed memory was written to is not modelled: a run ends there.
- Deduplicator.Pool.PushEvent: how an event merges into the list of its identifier is a parameter that keeps the identifier; pooled memory is not modelled, and inserting never fails.
- Deduplicator.Deduplicator.NextBatch: the same.
- UriBuild.FillAuthority: reading a port number is a parameter.
- UriBuild.FillTarget: parsing a Lustre FID is a parameter that yields 38 bytes.
- UriBuild.UriFromRawUri: the same two parameters.
- Queue.Queue.Push: a ring can always be created.
- Tee.Run: queues grow without failing, so the retry of a failed share is not reached; items are single units that fill rings exactly.
- Tee.Tee.Next: the same.
- Records.SetsAreAttributes: of the operations on attributes `inc` is not modelled and taken for one that is not understood; no event of a dump holds it. Nor are deletions and partial unlinks understood, which a dump does not send. A record keeps the inode fields it was given last as a whole.
- Sync.Dump: backends take whole chunks and do not fail. The `rename` member of a link event is left as it was by the code; the model says false.
- Sync.Convert.Next: memory of the entry at hand and of its rewritten attributes is not modelled.
- YamlParser.Parser.ParseValue: the YAML library is represented by a stream of tagged events with the properties stated in `Yaml`; base64 and numbers that are not plain decimal, minus signs of unsigned numbers among them, are parameters.
- `rbh_iter_chain`, `rbh_iter_ring`, constant iterators and the intrusive lists: sequences here.
