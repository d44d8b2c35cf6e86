# Verification of the wasim repository's algorithms

This project models algorithms of the repository that carry real invariants and proves what they promise: those of the
code generator in `tools/` and of the Tracy profiler vendored under `tracy/`. The repository's compiler, its
`wasim_*.odin` and `wopt/wopt_*.odin` files, is not modelled. `dafny verify dfyconfig.toml` checks everything.

Seven independent models:

* **Diff, patch, hunks, merge** (`Subsequences`, `EditScript`, `OnpSearch`, `OnpPath`, `OnpLimit`, `OnpDiff`, `Hunks`,
  `HunkEntries`, `UnifiedHunks`, `DiffAndPatch`, `Merge3`). `compose` is the O(NP) comparison of Wu, Manber and Myers.
  Its script always leads from the first sequence to the second, and as long as the coordinate limit is not reached it
  is optimal against the usual recursive definition of the longest common subsequence. It is replayed by `patch`, cut
  into hunks of its own entries that `uniPatch` replays, and merged with another script by `Diff3`.
* **Robin-hood hash table** (`RobinHoodSlots`, `RobinHoodMoves`, `RobinHoodCrowding`, `RobinHood`,
  `RobinHoodCollisions`). The class `Table` keeps the two arrays of the original; its ghost field `Model` is the finite
  map it stands for, and every operation is proved against it. The hash function is any function of the key and the
  multiplier.
* **Pattern-defeating quicksort and the lazily sorted vector** (`SortRanges`, `PdqInsertion`, `PdqPartition`, `PdqBlocks`,
  `PdqBlockPartition`, `Pdqsort`, `SortedVector`), for every strict weak order.
* **Minimal perfect hashing** (`EdgeForest`, `PerfectHashGraph`, `PerfectHashSearch`, `PerfectHashValues`, `PerfectHash`).
  Cycles are defined by walks, independently of the search that looks for them. The random numbers that
  salts are drawn from are an input, any stream of them for each hash function.
* **Multi-stream files** (`FileBlocks`, `WriteRing`, `ReadRing`, `FileStreams`, `StreamRuns`). Writer and reader are step machines in
  which the main thread and any number of workers interleave; the codec of a stream is any pair of stateful inverse
  functions. `FileStreams` has the two classes as their callers see them, `StreamRuns` what the rings do for
  their calls.
* **Zone timelines** (`ZoneTimeline`, `ZoneReading`, `ZoneStatistics`, `ZoneFigures`, `ZoneEvents`): the begin and end
  events of a thread with their live statistics, the delta-coded writer, the reader with its record of lookahead, and
  the statistics rebuilt after loading.
* **Accounting** (`MemoryEvents`, `MemoryOrder`, `MemoryUsage`, `MemoryPlot`, `ContextSwitches`, `SampleStatistics`,
  `MapSums`): memory events and the rebuilt usage plot, the sweep over context switches, and postponed call stack samples.

`Arithmetic` and `Counting` hold lemmas about division and about sets and distinct sequences.

Code that updates objects in place is modelled as classes and methods; loops of the original are loops here, and
long methods of the original are split where a part has a contract of its own. Ghost parameters and fields only carry
the specification.

Where the code and a natural reading of what it promises differ:

* The memory plot rebuilt after loading takes the frees of a time before its allocations, and frees of one time in any
  order. It still shows the right usage at every time (`MemoryUsage.ShowsUsage`), but in between it goes below zero
  exactly when at some time the events allocated and freed then are larger than those allocated before and not freed by
  then (`MemoryUsage.NeverNegative`; `MemoryPlot.FreedAtOnce` runs the merge on such a pool), and it is the plot drawn
  live whatever the order of ties exactly when ties match (`MemoryOrder.RebuiltIsLive`).
* The depth of a source location in the zone statistics is counted in a byte, so a zone inside 256 zones of its own
  location counts as not reentrant, live and rebuilt alike (`ZoneStatistics.DeepRecursion`). The figures for zones that
  are not reentrant are right exactly when no counted zone lies in a positive multiple of 256 zones of its location
  (`ZoneStatistics.NonReentrantExact`).
* The comparison begins anew with the rest of both sequences when its coordinates run out, each time after as many
  sweeps as the limit allows at the furthest point they reach (`OnpLimit.StopY`). The script is complete all the same,
  but the positions in it are right exactly if two searches are enough: if one is for the whole, or one for what the
  first leaves (`OnpLimit.OnceIsEnough`); later only the elements of the search before are counted. One is enough
  exactly if what a longest common subsequence leaves of one sequence, times what it leaves of the other, is below the
  limit (`OnpLimit.FitsLimit`). Comparing n zeros with n ones the positions are right exactly up to n = 2828
  (`DiffAndPatch.CompareApart`).
* A robin-hood insertion can fail although the table is far from full, when the homes of too many keys are close
  together. Of keys with one hash a table takes 127 and no more, however many it was reserved for
  (`RobinHoodCollisions.FillOneHome`). In no table does a stretch of homes have 127 keys more than it has homes
  (`RobinHoodCrowding.NeverOvercrowded`), and keys with 126 more are crowded out: a rehash overflows exactly when the
  keys reinserted before the last one are (`RobinHood.Table.Rehash`). So an insertion cannot fail while there is room
  without a rehash, or if the keys are not crowded out in the next table. It does fail if there they are before the last
  one, and if together with the new key they are overcrowded in every table. In between, when just the key reinserted
  last crowds the next table, another rehash is tried. Its outcome depends on the hash under yet another multiplier or
  size and on which key is in the last slot by then. Keys that agree in home and info byte lie in the order they were
  inserted in, so neither the contents nor the layout decide that case, only running the rehashes does.
* A rehash that overflows loses bindings: the table is valid again, but has only those reinserted so far
  (`RobinHood.Table.Rehash`, and so `RobinHood.Table.TryEmplace` and the others that rehash).

## Model

| member | source | states |
|---|---|---|
| Subsequences.CommonSubsequenceBound | tracy/tracy/dtl/Diff.hpp:255-260 | The recursive length LcsLen bounds every common subsequence of two prefixes, where subsequences are defined by dropping elements: it is the maximum the comparison is after. |
| EditScript.KeptIsCommon | tracy/tracy/dtl/Ses.hpp:83-117 | What any script keeps is a common subsequence of its two ends, and both lengths together are its edits plus twice what it keeps. |
| EditScript.ScriptBound | tracy/tracy/dtl/Diff.hpp:255-260 | No script from a to b, however found, has fewer edits than both lengths less twice the longest common subsequence. |
| EditScript.Ses.AddSequence | tracy/tracy/dtl/Ses.hpp:83-117 | An entry extends the two ends of the script by exactly its element, also when a deletion is put before earlier insertions; all recorded positions are right afterwards exactly if they were and the entry's are. Without deletesFirst the entry comes last. With it no entry passes another but a deletion the insertions it follows, and no deletion ever follows an insertion directly. The three only-flags say whether all entries are of one kind. |
| EditScript.ArrangedOnce | tracy/tracy/dtl/Ses.hpp:83-117 | There is only one way to put the deletions of a script before the insertions they stand next to without moving anything else. |
| EditScript.ArrangedKeeps | tracy/tracy/dtl/Ses.hpp:83-117 | The script arranged like that has the same entries, the same two ends, keeps the same elements and has as many edits. |
| EditScript.DeleteBeforeAdds | tracy/tracy/dtl/Ses.hpp:94-99 | A deletion commutes with the insertions before it: moving it forward changes neither end of the script. |
| EditScript.Patch | tracy/tracy/dtl/Diff.hpp:231-254 | Replaying a script on the sequence it starts from gives the sequence it ends with; the cursor never runs off the list. |
| DiffAndPatch.ComposeAndPatch | tracy/tracy/dtl/Diff.hpp:231-310 | For any two sequences, comparing them and replaying the script on the first gives the second. |
| DiffAndPatch.ComposeAndUniPatch | tracy/tracy/dtl/Diff.hpp:182-310 | So does comparing, cutting the script into unified hunks and replaying those, if the positions in the script are right; for any two sequences they are exactly if two searches are enough. |
| DiffAndPatch.CompareApart | tracy/tracy/dtl/Diff.hpp:589-669 | Comparing n zeros with n ones: the positions in the script are right exactly for n up to 2828. |
| OnpSearch.ReachDown | tracy/tracy/dtl/Diff.hpp:569-584 | What a number of x-only moves reaches on a diagonal it reaches up to there, so one furthest point describes a diagonal. |
| OnpSearch.CornerFromEdge | tracy/tracy/dtl/Diff.hpp:273-282 | A point on the edge of the grid leaves no fewer x-only moves to the corner than the corner needs: no sweep before the last touches an edge outside reach. |
| OnpSearch.SnakeStart | tracy/tracy/dtl/Diff.hpp:275-282 | The larger of the two neighbours' values is a reachable grid point on the diagonal as long as the corner was not in reach. |
| OnpSearch.SnakeStartOnGrid | tracy/tracy/dtl/Diff.hpp:569-573 | Every snake of every sweep starts inside the M by N grid. |
| OnpSearch.SnakeStop | tracy/tracy/dtl/Diff.hpp:573-577 | Where a snake stops is the furthest point of the diagonal for the budget of the sweep. |
| OnpPath.TraceIsPath | tracy/tracy/dtl/Diff.hpp:295-300 | Following the recorded predecessors from any record gives an edit path from the origin. |
| OnpPath.SweepingInit | tracy/tracy/dtl/Diff.hpp:262-270 | Arrays filled with -1 describe a search in which nothing is reachable. |
| OnpPath.Neighbours | tracy/tracy/dtl/Diff.hpp:274-281 | In the order of a sweep the lower neighbour is always of this sweep and the upper one has one x-only move less, as the snake needs them. |
| OnpPath.SweepingSnake | tracy/tracy/dtl/Diff.hpp:569-584 | One snake makes its diagonal's entry the furthest point of this sweep, with a record that reaches it within the budget, and leaves all other diagonals right. |
| OnpPath.SweepingNext | tracy/tracy/dtl/Diff.hpp:272-282 | When all diagonals are done every entry is the furthest point for the next sweep's starting budget. |
| OnpDiff.Diff.constructor | tracy/tracy/dtl/Diff.hpp:547-567 | The shorter sequence plays A, and equally long ones are swapped. |
| OnpDiff.Diff.Snake | tracy/tracy/dtl/Diff.hpp:569-584 | All comparisons and array accesses are in range, exactly one coordinate is recorded, and the sweep advances by its diagonal. |
| OnpDiff.Diff.Sweep | tracy/tracy/dtl/Diff.hpp:274-281 | One sweep raises the budget of every diagonal by one and records delta + 2p + 1 coordinates. |
| OnpDiff.Diff.Search | tracy/tracy/dtl/Diff.hpp:260-282 | The loop ends, p never exceeds the fewest x-only moves, and reaches them exactly when the number of coordinates stays below the limit. |
| OnpDiff.CornerReached | tracy/tracy/dtl/Diff.hpp:282-284 | After sweep p the main diagonal stands at N exactly when p x-only moves suffice. |
| OnpDiff.MainPath | tracy/tracy/dtl/Diff.hpp:285-300 | The coordinates collected after sweep p are a path to the furthest point of the main diagonal with exactly p x-only moves. |
| OnpDiff.Diff.Collect | tracy/tracy/dtl/Diff.hpp:295-300 | Follows the records back to the first one, all indices in range. |
| OnpDiff.Diff.RecordHop | tracy/tracy/dtl/Diff.hpp:597-638 | Between two records of a path at most one one-sided entry is recorded and all others are common, so the script covers both sequences up to the record with the path's number of x-only moves. |
| OnpDiff.Diff.RecordSequence | tracy/tracy/dtl/Diff.hpp:589-669 | Records a path, swapped or not; it is complete exactly if the path ends in the corner. Otherwise what is recorded and what is left still make up both sequences, less is left than before, and the edits counted are those recorded. |
| OnpDiff.NumberedAnew | tracy/tracy/dtl/Diff.hpp:641-667 | Beginning anew: the offsets are right the first time, and from the second time on the one for B is too small. |
| OnpLimit.StopIs | tracy/tracy/dtl/Diff.hpp:272-282 | Where a search stops that does not get to the corner is determined by the two sequences: the one sweep in which the coordinates run out, and the one furthest point of the main diagonal. |
| OnpLimit.StopIsShortest | tracy/tracy/dtl/Diff.hpp:272-282 | The number of sweeps up to there is the fewest x-only moves to that point: each search leaves a shortest script of what it got through. |
| OnpLimit.OnceIsEnoughIs | tracy/tracy/dtl/Diff.hpp:302-308 | Two searches are enough exactly if the number of restarts told from the sequences is at most one. |
| OnpLimit.ApartRestarts | tracy/tracy/dtl/Diff.hpp:302-308 | Sequences of n elements with nothing in common take (n - 1) / 1414 restarts. |
| OnpDiff.Diff.Compose | tracy/tracy/dtl/Diff.hpp:260-310 | Ends for all inputs with a script that leads from the first sequence to the second, the recorded subsequence being what it keeps and the distance its number of edits. The number of restarts and the length of the script are functions of the two sequences; the script is made up of shortest ones for the parts. If one search is enough no script is shorter and no common subsequence longer, and the positions are right exactly if two are. |
| Hunks.CuttingJoin | tracy/tracy/dtl/Diff.hpp:450-462 | An unchanged line behind a change never makes a run of more than four in the hunk. |
| Hunks.JoinedClosed | tracy/tracy/dtl/Diff.hpp:467-508 | A hunk that is closed before the end of the script ends with three unchanged lines and at least two more follow it. |
| UnifiedHunks.UnifiedFormat.Lookahead | tracy/tracy/dtl/Diff.hpp:468-474 | Three are counted exactly when this and the next two entries exist and are unchanged. |
| UnifiedHunks.UnifiedFormat.TakeContext | tracy/tracy/dtl/Diff.hpp:427-449 | Unchanged lines before a change become context of which the last three are kept; the header positions and counts follow. |
| UnifiedHunks.UnifiedFormat.CloseHunk | tracy/tracy/dtl/Diff.hpp:480-508 | The finished hunk's header names its first line on both sides and its number of lines on both sides; the lines skipped before it become the gap. Its context and its change are the entries collected, unaltered. |
| UnifiedHunks.UnifiedFormat.ComposeUnifiedHunks | tracy/tracy/dtl/Diff.hpp:383-513 | For any recorded script the hunks and the gaps between them, which are equal on both sides, make up both sequences in order; hunks and skipped unchanged entries together are the script's own entries in order, but for deletions moved before the insertions they stand next to; headers count exactly; hunks start with up to three unchanged lines, never hold five in a row, and end with three unless the script ends. |
| HunkEntries.ArrangedDelete | tracy/tracy/dtl/Diff.hpp:414-449 | A deletion kept apart and joined before the pending insertions passes only those. |
| HunkEntries.CarriedKeeps | tracy/tracy/dtl/Diff.hpp:383-513 | Hunks and skipped entries keep the elements that the script keeps with as many edits, and every entry of a hunk is one of the script. |
| UnifiedHunks.HunkInPlace | tracy/tracy/dtl/Diff.hpp:189-198 | The running offset puts the cursor at the start of every hunk, where the list holds the hunk's old lines. |
| UnifiedHunks.UnifiedFormat.ReplayHunk | tracy/tracy/dtl/Diff.hpp:199-221 | Replaying one hunk replaces its old lines by its new ones and leaves the cursor behind them. |
| UnifiedHunks.UnifiedFormat.UniPatch | tracy/tracy/dtl/Diff.hpp:182-226 | Replaying hunks that describe a change from s to t turns s into t. |
| Merge3.Diff3.MergeScripts | tracy/tracy/dtl/Diff3.hpp:117-203 | It reports a conflict exactly when at some element of B the two insertions differ, or one side deletes the element behind an insertion only the other makes; otherwise the result has in every gap both insertions, equal ones once, and keeps exactly the elements both sides keep. The branch for unequal deletions is never taken. |
| Merge3.Diff3.AddDecentSequence | tracy/tracy/dtl/Diff3.hpp:235-240 | What one script has left after the other ended are insertions at the end of B, and appending them completes the merge. |
| Merge3.Diff3.Merge | tracy/tracy/dtl/Diff3.hpp:83-103 | The shortcuts for an unchanged side agree with the merge of the scripts, whichever side is unchanged. |
| Merge3.MergingConflict | tracy/tracy/dtl/Diff3.hpp:145-192 | Every pair of entries at which the walk stops is a conflict of the two scripts as such. |
| Merge3.MergeSymmetric | tracy/tracy/dtl/Diff3.hpp:117-203 | Conflict and result do not depend on which side is A and which is C. |
| Merge3.MergeSame | tracy/tracy/dtl/Diff3.hpp:83-103 | Merging a change with itself never conflicts and gives the changed sequence. |
| Merge3.MergeUnchanged | tracy/tracy/dtl/Diff3.hpp:84-94 | A side without edits conflicts with nothing and the result is the other side. |
| RobinHoodSlots.RunBefore | tracy/tracy/server/tracy_robin_hood.h:1364-1369 | In run order a probe meets no smaller byte between a key's home and any slot where its info is not the larger one. |
| RobinHoodSlots.ProbeReaches | tracy/tracy/server/tracy_robin_hood.h:1415-1432 | The probe for a stored key gets to its slot. |
| RobinHoodSlots.ProbeStops | tracy/tracy/server/tracy_robin_hood.h:1431-1436 | No probe runs past the sentinel. |
| RobinHoodSlots.ProbeHere | tracy/tracy/server/tracy_robin_hood.h:1420-1432 | A smaller byte proves the key absent; an equal byte is an occupied slot, and equal keys mean this is the key's slot. |
| RobinHoodMoves.VacantSlot | tracy/tracy/server/tracy_robin_hood.h:2131-2150 | With fewer keys than allowed a vacant slot lies between any home and the sentinel: the overflow slots are enough. |
| RobinHoodMoves.InsertKeepsInv | tracy/tracy/server/tracy_robin_hood.h:2361-2385 | Shifting a run up and putting a new key in front keeps the run order and adds exactly one binding. |
| RobinHoodMoves.EraseKeepsInv | tracy/tracy/server/tracy_robin_hood.h:1391-1412 | Shifting the rest of a run down keeps the run order and removes exactly one binding, and no byte grows. |
| RobinHoodMoves.HalvingKeepsInv | tracy/tracy/server/tracy_robin_hood.h:2394-2419 | Halving the increment and all bytes, eight at a time, keeps run order and contents and leaves every byte room for an increment. |
| RobinHood.UptoStep | tracy/tracy/server/tracy_robin_hood.h:2222-2232 | Going over the slots once meets every binding once, each new to those before. |
| RobinHood.InsertState | tracy/tracy/server/tracy_robin_hood.h:2361-2385 | After making room all bytes are at most 255, and while insertions are allowed each has room for another increment. |
| RobinHoodCrowding.NeverOvercrowded | tracy/tracy/server/tracy_robin_hood.h:1364-1389 | Since a byte holds at most 255 and the increment is at least 2, in no table does a stretch of homes have 127 keys more than it has homes. |
| RobinHoodCrowding.CrowdedByte | tracy/tracy/server/tracy_robin_hood.h:1371-1389 | Keys that are crowded out, 126 more than homes in some stretch of homes, leave some byte no room for another increment, with the increment at its minimum. |
| RobinHoodCrowding.FullByteCrowds | tracy/tracy/server/tracy_robin_hood.h:1371-1389 | And only such keys do. |
| RobinHood.Table.ExhaustedIsCrowded | tracy/tracy/server/tracy_robin_hood.h:1445-1452 | A table blocked by a full byte is at the minimal increment exactly when its keys are crowded out. |
| RobinHoodCollisions.RoomForOneHome | tracy/tracy/server/tracy_robin_hood.h:2342-2451 | With one hash for all keys, fewer than 127 leave room for another at once or after one rehash, and 127 are overcrowded with another in every table. |
| RobinHoodCollisions.FillOneHome | tracy/tracy/server/tracy_robin_hood.h:2342-2451 | In a table reserved for any number of elements exactly 127 keys of one hash are stored before an insertion fails. |
| RobinHood.Table.constructor | tracy/tracy/server/tracy_robin_hood.h:2463-2486 | An empty table without storage is a valid empty map. |
| RobinHood.Table.FindIdx | tracy/tracy/server/tracy_robin_hood.h:1415-1437 | The slot holding the key and its value exactly when the map has the key, and the end position otherwise. |
| RobinHood.Table.ShiftDown | tracy/tracy/server/tracy_robin_hood.h:1391-1412 | Moves exactly the keys away from home that follow the slot, and vacates the last of their slots. |
| RobinHood.Table.Erase | tracy/tracy/server/tracy_robin_hood.h:2045-2063 | The map loses the key and nothing else; 1 is returned exactly if it had the key. |
| RobinHood.Table.ShiftRun | tracy/tracy/server/tracy_robin_hood.h:1371-1389 | Moves a run up by one slot with its bytes raised by one increment, none over 255; insertion is blocked when a byte is used up. |
| RobinHood.Table.FindSpot | tracy/tracy/server/tracy_robin_hood.h:2343-2360 | Finds the key, or the place behind all bytes that are not smaller than its info and before a smaller one. |
| RobinHood.Table.MakeRoom | tracy/tracy/server/tracy_robin_hood.h:2370-2388 | Reserves a slot such that whatever value is put there the table stands for the old map with that one binding more. |
| RobinHood.Table.InsertMove | tracy/tracy/server/tracy_robin_hood.h:1445-1486 | Adds the binding of a new key; it fails exactly when insertion is blocked and the increment is at its minimum. |
| RobinHood.Table.TryIncreaseInfo | tracy/tracy/server/tracy_robin_hood.h:2394-2419 | Succeeds exactly with an increment over 2, halves all bytes, keeps the map and unblocks insertion; otherwise nothing changes. |
| RobinHood.Table.InitData | tracy/tracy/server/tracy_robin_hood.h:2313-2334 | Fresh storage of the given power-of-two size is a valid empty map with insertion allowed. |
| RobinHood.Table.Reinsert | tracy/tracy/server/tracy_robin_hood.h:2222-2232 | Reinserting slot by slot ends with the map of the old slots, or with a part of it and the increment used up; that happens exactly when the keys before the last one are crowded out under the new size and multiplier. |
| RobinHood.Table.Rehash | tracy/tracy/server/tracy_robin_hood.h:2211-2244 | The same map in fresh storage of the new size, under whatever multiplier is set; it overflows exactly when the keys before the last one are crowded out there, and then the table is valid with only part of the bindings. |
| RobinHood.Table.NextHashMultiplier | tracy/tracy/server/tracy_robin_hood.h:2453-2457 | The multiplier stays a 64-bit number, changes, and stays odd if it was. |
| RobinHood.Table.IncreaseSize | tracy/tracy/server/tracy_robin_hood.h:2423-2451 | In every branch the map stays; it fails exactly when a rehash is needed and overflows, and without one, or if the keys are not crowded out in the next table, it makes room. When it fails some bindings are lost. |
| RobinHood.Table.InsertKeyPrepareEmptySpot | tracy/tracy/server/tracy_robin_hood.h:2342-2388 | Reports the key as found exactly when the map has it, otherwise prepares a slot for it whatever growing was needed. It cannot overflow while no rehash is needed or the keys are not crowded out in the next table; it does when the next rehash overflows. |
| RobinHood.Table.TryEmplace | tracy/tracy/server/tracy_robin_hood.h:2255-2281 | A new key gets the value, a present key keeps its own; the slot returned holds the key with its value in the map. It fails for keys that are overcrowded in every table, and under the conditions of insertKeyPrepareEmptySpot; a table that failed is valid, with no other bindings than before. |
| RobinHood.Table.InsertOrAssign | tracy/tracy/server/tracy_robin_hood.h:2284-2310 | The key has the given value afterwards and every other binding stays; failing as for try_emplace. |
| RobinHood.Table.Clear | tracy/tracy/server/tracy_robin_hood.h:1677-1696 | The map is empty and the arrays are kept; the increment starts over unless there was nothing to clear, and then nothing changes. |
| RobinHood.Table.FittingSize | tracy/tracy/server/tracy_robin_hood.h:2189-2193 | The smallest doubling of the initial size that allows the elements. |
| RobinHood.Table.Reserve | tracy/tracy/server/tracy_robin_hood.h:2188-2209 | The map stays and at least c elements are allowed. The arrays are renewed exactly if that is forced, or the old size is below the initial one or does not allow the elements; otherwise nothing changes. Half of a new size above the initial one would not allow them. It fails exactly if it rehashes and the keys before the last one are crowded out. |
| RobinHood.Table.Compact | tracy/tracy/server/tracy_robin_hood.h:2081-2098 | The map stays, the table does not grow, and above the initial size half of it would not allow the elements. The arrays are renewed exactly if half of the old size, not below the initial one, allows the elements; otherwise nothing changes. It fails exactly if it rehashes and the keys before the last one are crowded out. |
| PdqInsertion.SiftDown | tracy/tracy/server/tracy_pdqsort.h:78-91 | Moves one element to its place in a sorted range; unguarded it stops at the element before the range and never passes it. |
| PdqInsertion.InsertionSort | tracy/tracy/server/tracy_pdqsort.h:74-116 | Sorts the range and touches nothing else; the unguarded form needs an element before the range that no element is smaller than. |
| PdqInsertion.PartialInsertionSort | tracy/tracy/server/tracy_pdqsort.h:121-145 | True only for a sorted range, always true for one that was sorted, and only rearranging either way. |
| PdqInsertion.Sort3 | tracy/tracy/server/tracy_pdqsort.h:148-158 | Three elements in order, all others in place. |
| PdqBlocks.FillLeft | tracy/tracy/server/tracy_pdqsort.h:243-259 | After a block the offsets in use are increasing and name exactly its elements on the wrong side. |
| PdqBlocks.PairStep | tracy/tracy/server/tracy_pdqsort.h:176-181 | One more swap exchanges the next pair of places and disturbs no earlier pair. |
| PdqBlocks.CycleStep | tracy/tracy/server/tracy_pdqsort.h:182-190 | One more turn of the cycle moves the hole on and leaves all places passed with elements of the other side. |
| PdqBlocks.SwapOffsets | tracy/tracy/server/tracy_pdqsort.h:172-191 | In both modes the places on the left receive the elements of the places on the right and the other way round, and the range is only rearranged. |
| PdqBlockPartition.BlocksExchanged | tracy/tracy/server/tracy_pdqsort.h:278-294 | After the exchange the rest of both buffers again names exactly the elements on the wrong sides. |
| PdqBlockPartition.FillBlocks | tracy/tracy/server/tracy_pdqsort.h:236-276 | Fills the empty buffers within the unknown part, which shrinks, with all indices in range. |
| PdqBlockPartition.ExchangeBlocks | tracy/tracy/server/tracy_pdqsort.h:278-284 | Exchanges as many elements as both buffers hold. |
| PdqBlockPartition.FlushBlocks | tracy/tracy/server/tracy_pdqsort.h:297-307 | Moving the leftovers of one buffer to the boundary completes the partition. |
| PdqBlockPartition.PartitionRightBranchless | tracy/tracy/server/tracy_pdqsort.h:199-316 | For any length the pivot ends with only smaller elements before and none smaller after it, the range is only rearranged, and the flag says whether only the pivot had to move. |
| PdqPartition.PartitionRight | tracy/tracy/server/tracy_pdqsort.h:326-363 | The same for the plain partition; its unguarded scans stay in range because some element is not smaller than the pivot. |
| PdqPartition.MetAtOnce | tracy/tracy/server/tracy_pdqsort.h:337-346 | The first two scans meet exactly when the range behind the pivot was partitioned already. |
| PdqPartition.PartitionLeft | tracy/tracy/server/tracy_pdqsort.h:370-393 | The pivot ends with only larger elements after and none larger before it. |
| Pdqsort.ChoosePivot | tracy/tracy/server/tracy_pdqsort.h:411-419 | After the median selection one element behind the pivot is not smaller and one is not larger: they stop the unguarded scans. |
| Pdqsort.DoneLeft | tracy/tracy/server/tracy_pdqsort.h:421-429 | If the element before the range is not smaller than the pivot, everything up to the new pivot position is final. |
| Pdqsort.DoneRight | tracy/tracy/server/tracy_pdqsort.h:482-486 | With the left part sorted, everything up to the pivot is final and the pivot bounds the rest. |
| Pdqsort.SortStep | tracy/tracy/server/tracy_pdqsort.h:421-487 | One turn of the loop makes progress and leaves a rest that is bounded by the element before it. |
| Pdqsort.PdqsortLoop | tracy/tracy/server/tracy_pdqsort.h:397-488 | Terminates and sorts the range, for every strict weak order, balance budget and partition kind. |
| Pdqsort.Sort | tracy/tracy/server/tracy_pdqsort.h:492-512 | The range is a sorted rearrangement and everything outside it is untouched. |
| SortedVector.MergedInOrder | tracy/tracy/server/TracySortedVector.hpp:99-115 | The stable merge of two sequences in order is in order. |
| SortedVector.MergedElements | tracy/tracy/server/TracySortedVector.hpp:99-115 | It has the elements of both, each as often as in both together. |
| SortedVector.WindowMerge | tracy/tracy/server/TracySortedVector.hpp:99-115 | Merging only the window between the two lower bounds gives the merge of the whole vector. |
| SortedVector.Vector.PushBack | tracy/tracy/server/TracySortedVector.hpp:72-80 | Appends; the vector stays sorted exactly when it was and the new value is not smaller than the last one. |
| SortedVector.Vector.MarkUnsorted | tracy/tracy/server/TracySortedVector.hpp:96-96 | Only vectors of at most one element still count as sorted. |
| SortedVector.Vector.Clear | tracy/tracy/server/TracySortedVector.hpp:86-86 | Empty and sorted. |
| SortedVector.Vector.Sort | tracy/tracy/server/TracySortedVector.hpp:99-115 | The result is sorted, has the same elements, and is the stable merge of the sorted part with the tail sorted. |
| SortedVector.Vector.EnsureSorted | tracy/tracy/server/TracySortedVector.hpp:95-95 | Sorted with the same elements; a sorted vector is left alone. |
| EdgeForest.ExploredIsForest | tools/perfect-hash/perfect_hash.py:91-146 | If every edge is the one by which the later of its ends was first reached, no edge lies on a cycle: parallel edges and loops included. |
| EdgeForest.WalkStaysUnder | tools/perfect-hash/perfect_hash.py:91-146 | A walk that avoids the edge into a visited vertex never leaves what was reached through that vertex. |
| EdgeForest.TwoEdgesCycle | tools/perfect-hash/perfect_hash.py:129-131 | A new vertex with two edges into the current tree closes a cycle. |
| PerfectHashGraph.ScanNeighbors | tools/perfect-hash/perfect_hash.py:121-138 | Fails exactly at a visited neighbour other than one skipped entry for the parent; otherwise pushes every other entry and gives each neighbour the value its last entry asks for. |
| PerfectHashSearch.VisitFails | tools/perfect-hash/perfect_hash.py:121-131 | When the scan of a vertex fails the graph has a cycle. |
| PerfectHashSearch.OneEdgeBack | tools/perfect-hash/perfect_hash.py:121-131 | When it succeeds the only edge to a visited vertex is the one the vertex was reached by: skipping one parent entry never hides a parallel edge. |
| PerfectHashSearch.VisitWorks | tools/perfect-hash/perfect_hash.py:117-138 | Marking a vertex visited when it comes off the stack keeps the search state, although vertices may be pending several times. |
| PerfectHashValues.ValuesWork | tools/perfect-hash/perfect_hash.py:135-138 | Overwritten values of pending vertices do no harm: every edge between visited vertices adds up. |
| PerfectHash.Graph.Connect | tools/perfect-hash/perfect_hash.py:82-89 | One more edge in the multigraph, entered at both ends. |
| PerfectHash.Graph.AssignVertexValues | tools/perfect-hash/perfect_hash.py:91-146 | Terminates, succeeds exactly when the multigraph has no cycle, and then the values at both ends of every edge add up to the edge's value modulo N. |
| PerfectHash.SaltGrows | tools/perfect-hash/perfect_hash.py:160-165 | More salt changes no hash computed before. |
| PerfectHash.SaltWeighs | tools/perfect-hash/perfect_hash.py:165-165 | Another byte in the key changes the sum by the difference times the salt at its place. |
| PerfectHash.EverySalt | tools/perfect-hash/perfect_hash.py:163-192 | What is drawn is a letter or digit, or a number from 1 to N - 1, and each of them can be drawn. |
| PerfectHash.SaltHash.Call | tools/perfect-hash/perfect_hash.py:160-194 | The salt is always what has been drawn so far, each a letter or digit, or a number from 1 to N - 1. A call draws just as many more as the key is longer than the salt, and returns the hash of the key with the salt drawn for its length. |
| PerfectHash.KeyHashed | tools/perfect-hash/perfect_hash.py:160-165 | The hash of a key is the same however much salt is drawn after its own. |
| PerfectHash.DrawnLookup | tools/perfect-hash/perfect_hash.py:303-308 | If the values add up on the graph drawn, looking up key i with the salts drawn for the longest key gives i: the sanity check cannot fail. |
| PerfectHash.Trial | tools/perfect-hash/perfect_hash.py:283-298 | Both functions have the salt drawn for the longest key. It succeeds exactly when the graph that the two streams of random numbers draw for the keys has no cycle, with values that look up every key as its index. |
| PerfectHash.GenerateHash | tools/perfect-hash/perfect_hash.py:233-314 | For all random numbers: duplicates are reported exactly when there are any; otherwise a table is found exactly if some trial before it gives up draws a graph without cycles. It is that of the first such trial, with the salts drawn in it, and looks up key i as i. All trials before drew graphs with a cycle, of the sizes the original lets them grow to; giving up follows only on fifty or more of them, when the next would have over a hundred vertices per key. |
| PerfectHash.NoneWorks | tools/perfect-hash/perfect_hash.py:266-281 | When the next graph would be too large so would be all later ones: no trial that is allowed is left out. |
| PerfectHash.SizePower | tools/perfect-hash/perfect_hash.py:253-274 | With pow2 the number of vertices is a power of two in every trial. |
| FileBlocks.JoinedBlocks | tracy/tracy/server/TracyFileWrite.hpp:214-251 | The blocks joined are the data; all but the last are full and none is empty. |
| FileBlocks.OldestTurn | tracy/tracy/server/TracyFileWrite.hpp:256-256 | The id computed from the ring position and the number pending is the stream of the oldest pending block. |
| WriteRing.CompressedAt | tracy/tracy/server/TracyFileWrite.hpp:85-105 | After compressing and swapping halves a stream has the frame of its block in the context of all its earlier blocks. |
| WriteRing.StepKeeps | tracy/tracy/server/TracyFileWrite.hpp:153-287 | Every step of every thread keeps the ring consistent. |
| WriteRing.HeldUntouched | tracy/tracy/server/TracyFileWrite.hpp:232-251 | No worker is compressing on the stream whose buffer the main thread writes to. |
| WriteRing.Progress | tracy/tracy/server/TracyFileWrite.hpp:153-287 | No reachable state is a deadlock. |
| WriteRing.StepShrinks | tracy/tracy/server/TracyFileWrite.hpp:153-287 | Every step leaves less to do, so no thread can keep the others from finishing for ever. |
| WriteRing.WritingEnds | tracy/tracy/server/TracyFileWrite.hpp:153-287 | Every run of any interleaving is finite, and when it cannot go on the file holds the frames of all blocks in order. |
| ReadRing.UnpackedAt | tracy/tracy/server/TracyFileRead.hpp:70-85 | Unpacking after the swap uses the same context the block was packed in and gives back the block. |
| ReadRing.SameFrames | tracy/tracy/server/TracyFileRead.hpp:479-491 | A file with fewer blocks than streams is the same as one written with as many streams as blocks, so the reader may set up fewer. |
| ReadRing.StepKeeps | tracy/tracy/server/TracyFileRead.hpp:504-584 | Every step of every thread keeps the ring consistent. |
| ReadRing.ReadKeeps | tracy/tracy/server/TracyFileRead.hpp:519-550 | A read delivers the bytes the data hold at the position, although the last block is shorter than its buffer. |
| ReadRing.HeldUntouched | tracy/tracy/server/TracyFileRead.hpp:563-584 | The half-buffer the main thread reads from is never the one its worker unpacks into. |
| ReadRing.Progress | tracy/tracy/server/TracyFileRead.hpp:504-584 | Some thread can always go on, and while data are left the reader need not quit for that. |
| ReadRing.ReadingWorks | tracy/tracy/server/TracyFileRead.hpp:479-584 | For every interleaving and all sizes read and skipped, the pieces read are exactly those asked for, one for each read, each of its size and what was written at its position; every run is finite and without deadlock. |
| FileStreams.CutUnique | tracy/tracy/server/TracyFileWrite.hpp:214-230 | Full blocks with a last one that may be short are the only way to cut a byte sequence. |
| FileStreams.FileWrite.WriteBlock | tracy/tracy/server/TracyFileWrite.hpp:232-251 | Hands out the buffer as it is and starts an empty one. |
| FileStreams.FileWrite.Write | tracy/tracy/server/TracyFileWrite.hpp:167-230 | Chunks of any size are appended to the data, with the buffer never overrun. |
| FileStreams.FileWrite.Finish | tracy/tracy/server/TracyFileWrite.hpp:153-165 | The blocks handed out are those of the data as a whole, whatever the chunks were. |
| FileStreams.FileRead.GetNextDataBlock | tracy/tracy/server/TracyFileRead.hpp:563-584 | The next block, while data are left, without moving the position. |
| FileStreams.FileRead.Read | tracy/tracy/server/TracyFileRead.hpp:139-149 | Exactly the bytes at the position, across any number of blocks. |
| FileStreams.FileRead.Skip | tracy/tracy/server/TracyFileRead.hpp:151-161 | The position moves by the size, across any number of blocks. |
| FileStreams.RoundTrip | tracy/tracy/server/TracyFileRead.hpp:479-584 | Any finished run of the writer followed by any run of the reader on its file: every read gets the bytes that were written at its position, as many as it asked for. |
| StreamRuns.BackToWriting | tracy/tracy/server/TracyFileWrite.hpp:232-287 | From wherever the threads are, handing out a block comes to its end with nothing written in between and an empty buffer. |
| StreamRuns.WriteSteps | tracy/tracy/server/TracyFileWrite.hpp:167-230 | From wherever the threads are, a write of any size is a run of the ring to a state with just that much more written. |
| StreamRuns.WriteAlong | tracy/tracy/server/TracyFileWrite.hpp:167-230 | Write with any chunk, and the run of the ring for it, end with the same bytes written. |
| StreamRuns.FinishAlong | tracy/tracy/server/TracyFileWrite.hpp:153-165 | Finish, and the run of the ring for it, end with the frames of the blocks handed out in the file. |
| StreamRuns.ToReading | tracy/tracy/server/TracyFileRead.hpp:563-584 | From wherever the threads are, the next block comes with nothing read in between. |
| StreamRuns.ReadSteps | tracy/tracy/server/TracyFileRead.hpp:504-584 | From wherever the threads are, a read of any size is a run of the ring whose pieces make up the data from the position on. |
| StreamRuns.ReadAlong | tracy/tracy/server/TracyFileRead.hpp:139-149 | Read with any size returns just what the pieces read by the run of the ring for it make up. |
| StreamRuns.OpenAlong | tracy/tracy/server/TracyFileRead.hpp:479-502 | After opening a file the ring comes to a state in which it can be read from position 0. |
| ZoneTimeline.TimelineWriter.WriteTimeline | tracy/tracy/server/TracyWorker.cpp:8895-8932 | Appends the number of zones and their delta-coded records to any depth, and leaves the last end as reference time. |
| ZoneTimeline.EncodedSummed | tracy/tracy/server/TracyWorker.cpp:8895-8932 | Adding up the offsets in the file from the reference time on gives every begin and end of a zone in the order in which they happened. |
| ZoneReading.TimelineReader.ReadHaveSize | tracy/tracy/server/TracyWorker.cpp:7998-8012 | A zone with children gets the next child vector number, one without gets -1; vectors are numbered in preorder, each once. |
| ZoneReading.TimelineReader.ReadTimeline | tracy/tracy/server/TracyWorker.cpp:8129-8172 | In spite of the record read ahead it consumes exactly what was written, gives the same zones, ends with the same reference time, and uses just as many child vectors as there are, touching no others. |
| ZoneReading.SaveAndLoad | tracy/tracy/server/TracyWorker.cpp:8129-8172 | Writing any forest and reading it back gives the forest, uses up the input and all child vectors. |
| ZoneStatistics.AddedCommutes | tracy/tracy/server/TracyWorker.cpp:8037-8091 | The order in which zones are counted does not matter. |
| ZoneStatistics.RebuiltIsLive | tracy/tracy/server/TracyWorker.cpp:1766-1782 | Counting zones before their children, as after loading, comes to the same statistics as counting them after, as live. |
| ZoneFigures.StatisticsOf | tracy/tracy/server/TracyWorker.cpp:5143-5187 | Live or rebuilt, for every source location: the counts are the number of its zones with a positive span, the totals the sums of their spans and self times, the least and greatest bound all of them and are among them or the initial ones. The same for the zones counted as not inside their own location. |
| ZoneFigures.TellsMore | tracy/tracy/server/TracyWorker.cpp:8037-8091 | Counting a zone makes the figures of some zones those of one more, for its own location and no other. |
| ZoneFigures.FiguresAttained | tracy/tracy/server/TracyWorker.cpp:5149-5165 | Least and greatest span and self time of a location with any zone counted are those of zones, as long as they fit 64 bits. |
| ZoneStatistics.NonReentrantExact | tracy/tracy/server/TracyWorker.cpp:8037-8091 | The figures of zones not inside one of their own location are those of the plain definition, for all locations, exactly when no zone that is counted lies in a positive multiple of 256 zones of its location. |
| ZoneStatistics.ShallowExact | tracy/tracy/server/TracyWorker.cpp:8037-8091 | Fewer than 256 zones of one location around any zone are enough. |
| ZoneStatistics.DeepRecursion | tracy/tracy/server/TracyWorker.cpp:5083-5187 | Of a recursion 257 zones deep two count as not inside another. |
| ZoneStatistics.ReentryAt256 | tracy/tracy/server/TracyWorker.cpp:8037-8091 | The byte counter takes 256 zones around a zone for none. |
| ZoneStatistics.SelfTimesAreSpans | tracy/tracy/server/TracyWorker.cpp:5083-5187 | In properly nested zones the self times add up to the spans of the roots. |
| ZoneStatistics.SelfTimeConserved | tracy/tracy/server/TracyWorker.cpp:5083-5187 | The self totals kept for all source locations add up to the spans of the roots. |
| ZoneEvents.EndOk | tracy/tracy/server/TracyWorker.cpp:5083-5187 | Ending the innermost zone keeps stack, child times, depth counters and statistics consistent with the zones ended so far. |
| ZoneEvents.ThreadEvents.NewZone | tracy/tracy/server/TracyWorker.cpp:3671-3718 | One more open zone; nothing is counted yet. |
| ZoneEvents.ThreadEvents.ProcessZoneEnd | tracy/tracy/server/TracyWorker.cpp:5083-5187 | An end without a zone and an end with the wrong id are reported exactly then. The first changes nothing; after the second only the stack of ids has lost its last entry and is one shorter than that of zones. Otherwise the innermost zone becomes the last child of the one around it, or the last root, and what is kept for each location are count, sums, least and greatest of its zones that have ended. |
| ZoneEvents.ThreadEvents.LiveIsRebuilt | tracy/tracy/server/TracyWorker.cpp:1766-1782 | Whenever all zones have ended, the live statistics equal those rebuilt from the timeline, are the number, sums, least and greatest of the zones of each location, their self totals equal the root spans, and their figures of zones not inside one of their own location are right exactly when no zone wraps the byte counter. |
| ZoneEvents.Reconstruction.ProcessTimeline | tracy/tracy/server/TracyWorker.cpp:1766-1782 | The recursion with its in-place depth counters computes the rebuilt statistics and restores the counters; figures that were those of some zones are now those of all zones of the timeline too. |
| ZoneEvents.Reconstruction.ReconstructZoneStatistics | tracy/tracy/server/TracyWorker.cpp:8037-8091 | Counts one zone with its span less its children's, as not reentrant exactly when its location's counter is zero; figures that were those of some zones are now those of one more. |
| MemoryEvents.MemoryPool.Free | tracy/tracy/server/TracyWorker.cpp:6287-6295 | The address's event gets its end and moves from the active events to the frees; usage falls by its size. |
| MemoryEvents.MemoryPool.ProcessMemAlloc | tracy/tracy/server/TracyWorker.cpp:6297-6347 | An address in use is an error that changes nothing, or is freed first when faults are ignored; then one active event more. In all cases active events and frees share out all events, and usage is the size of the active ones. |
| MemoryEvents.MemoryPool.ProcessMemFree | tracy/tracy/server/TracyWorker.cpp:6349-6373 | Frees exactly an address in use; the null address and others change nothing. |
| MemoryEvents.MemoryPool.ProcessMemDiscard | tracy/tracy/server/TracyWorker.cpp:6469-6494 | What happens is one free of each active event at this time, in any order, and nothing else; usage is 0 then. |
| MemoryEvents.PlottedOk | tracy/tracy/server/TracyWorker.cpp:7532-7566 | The live plot has its initial point and one point with the usage for every change. |
| MemoryPlot.ReconstructMemAllocPlot | tracy/tracy/server/TracyWorker.cpp:7568-7676 | For events in the order of their allocation, whatever their frees, the plot is the initial point and the usage after each change in an order by time, with every allocation in turn and every free once, and the frees of a time before its allocations. |
| MemoryPlot.RebuildPlot | tracy/tracy/server/TracyWorker.cpp:7568-7676 | From any pool the rebuilt plot shows at every time what the live one shows, the usage of that time; it is never negative exactly when what is allocated and freed at one time is always covered, and it is the live plot if ties match. |
| MemoryOrder.NormalOrder | tracy/tracy/server/TracyWorker.cpp:7592-7667 | Of the orders the merge can come to, the one with ties of the frees as they happened is nowhere above the live usage. |
| MemoryOrder.RebuiltIsLive | tracy/tracy/server/TracyWorker.cpp:7568-7676 | All orders the merge can come to give the live plot exactly when ties match: what is at the time of a later free has the same effect on usage. |
| MemoryUsage.ShowsUsage | tracy/tracy/server/TracyWorker.cpp:7568-7676 | In whatever order simultaneous changes are taken, the last point not later than a time has the size of all events in use then. |
| MemoryUsage.NeverNegative | tracy/tracy/server/TracyWorker.cpp:7606-7640 | With the frees of a time first no point is negative exactly when at every time the events allocated and freed then are no larger than those allocated before and not freed by then. |
| MemoryUsage.NoCoverFromFreed | tracy/tracy/server/TracyWorker.cpp:7606-7640 | An event that is in use until its free at that time is no cover: the frees may be taken in that order. |
| MemoryPlot.InTimeMatches | tracy/tracy/server/TracyWorker.cpp:7568-7676 | Ties match if no change before a free happened at its time. |
| MemoryPlot.InTimeIsNeeded | tracy/tracy/server/TracyWorker.cpp:7568-7676 | And with sizes above zero and no two frees at one time only then. |
| MemoryPlot.DistinctTimes | tracy/tracy/server/TracyWorker.cpp:7568-7676 | Changes at pairwise distinct times are in time. |
| MemoryPlot.DiscardMatches | tracy/tracy/server/TracyWorker.cpp:6469-6494 | A discard keeps ties matching exactly when all events it frees have one size and what happened before at that time has the same effect on usage. |
| MemoryPlot.DiscardAndRebuild | tracy/tracy/server/TracyWorker.cpp:6469-6494 | Discarding the active events of a pool whose ties match and rebuilding the plot: under that condition, and for ties only then, the rebuilt plot is the live one. |
| MemoryPlot.FreedAtOnce | tracy/tracy/server/TracyWorker.cpp:7568-7676 | Allocating and freeing one event at one time and rebuilding the plot: drawn live it goes up and back to zero, rebuilt it goes down to minus the size and back. |
| ContextSwitches.CurrentRuns | tracy/tracy/server/TracyWorker.cpp:7679-7774 | A CPU runs an own or another thread at a time exactly when its cursor says so. |
| ContextSwitches.CountsRunning | tracy/tracy/server/TracyWorker.cpp:7679-7774 | The counters of the sweep are the numbers of CPUs running own and other threads. |
| ContextSwitches.FindNextTime | tracy/tracy/server/TracyWorker.cpp:7704-7717 | The earliest time of any event not yet seen, or that there is none. |
| ContextSwitches.UsageSweep.Advance | tracy/tracy/server/TracyWorker.cpp:7718-7764 | One CPU's events at this time are all taken and none after it, with both counters following. |
| ContextSwitches.UsageSweep.Reconstruct | tracy/tracy/server/TracyWorker.cpp:7679-7774 | Terminates, and at every time from 0 on the last entry not later gives exactly the numbers of CPUs running own and other threads. The list starts with nothing at time 0; times rise strictly, but for a second entry at time 0, and no entry repeats the numbers of the one before. |
| ContextSwitches.EntriesRight | tracy/tracy/server/TracyWorker.cpp:7765-7769 | Every entry that is the last at its time has the numbers of CPUs running at that time. |
| ContextSwitches.UsageOnce | tracy/tracy/server/TracyWorker.cpp:7679-7774 | No other list has the right numbers at all times and changes like that. |
| SampleStatistics.Samples.UpdateSampleStatistics | tracy/tracy/server/TracyWorker.cpp:7776-7819 | A stack with an unknown frame is postponed, if it may be, and charges nothing; a known one is charged together with its postponed samples. All samples taken are charged, postponed or lost, none twice, and lost exactly when they have an unknown frame and may not be postponed. |
| SampleStatistics.Samples.UpdatePostponed | tracy/tracy/server/TracyWorker.cpp:7821-7840 | A postponed stack is charged and dropped exactly when all its frames are known. |
| SampleStatistics.Samples.HandlePostponedSamples | tracy/tracy/server/TracyWorker.cpp:4401-4411 | Exactly the stacks with an unknown frame stay postponed, with their counts, and no sample is lost; each other stack is charged once, one after the other, with the count it was postponed with. |
| SampleStatistics.Samples.Charge | tracy/tracy/server/TracyWorker.cpp:7842-7933 | Only the innermost symbol's exclusive count rises, and the inclusive count of every symbol on the stack rises once. Each symbol gets one entry for each of its places, for what it was called from there, that is all symbols behind the place, and one not reentrant entry for what it was called from at its outermost place; the innermost one its two executing entries. For every symbol inclusive equals the sum of not reentrant entries and exclusive the sums of both executing entries. |
| SampleStatistics.Samples.Inclusive | tracy/tracy/server/TracyWorker.cpp:7842-7876 | The first pass counts every symbol once, however often it is on the stack, and the innermost one as executing. |
| SampleStatistics.Samples.EnterCallers | tracy/tracy/server/TracyWorker.cpp:7893-7933 | The second pass enters every place of every symbol under its caller, and as not reentrant the outermost place of each, and changes no totals. |
| SampleStatistics.CallersNamed | tracy/tracy/server/TracyWorker.cpp:7900-7919 | An entry names the stack below the frame, and with its inlined frames exactly the symbols behind the place on the whole stack, if and only if it has the rest of the frame inlined; the last place of a frame, and only that, has none. |
| SampleStatistics.CallerOf | tracy/tracy/server/TracyWorker.cpp:7900-7919 | The number entered for a place is that of an entry that names the symbols behind the place. |
| SampleStatistics.FirstsStep | tracy/tracy/server/TracyWorker.cpp:7893-7925 | Going inwards, a symbol met for the first time is at its outermost place. |
| SampleStatistics.OutermostOnce | tracy/tracy/server/TracyWorker.cpp:7893-7896 | A symbol has one outermost place on a stack. |

## Left out

Diff, hunks and merge

- OnpDiff.Diff.Compose: the vector of predecessors is allocated in the size needed when the original keeps a longer one; the number of times the search is begun anew is counted, which the original does not.
- DiffAndPatch.ComposeAndUniPatch: what the hunks and their replay come to when positions in the script are wrong is not described.
- Custom comparators, the trivial, huge and edit-distance-only modes, printing and parsing of scripts.
- UnifiedHunks.UnifiedFormat.ComposeUnifiedHunks: the local lists and counters that the original clears together are the fields of one value; the second context list, which the original never fills, is always empty.
- Edit scripts with elements of unequal but matching content: elements are compared by equality.

Robin-hood table

- RobinHood.Table.Rehash: the original throws when reinserting runs out of increments, and the old arrays are never freed; here that is reported as a result.
- RobinHood.Table.InsertKeyPrepareEmptySpot: one case is left open, as described above: the next table is crowded only by the key reinserted last. Then further rehashes follow, up to the 256 attempts of the original, and the outcome depends on the hash under multipliers and sizes that are only then tried.
- Hash mixing: the home is the hash modulo a power of two, of any function of key and multiplier.
- The branch of the maximum for sizes near 2^64, a doubled size that wraps to 0, and failed allocation.
- Node storage, moves, iterators, copies and swaps; the empty table's info bytes, which overlay the mask word in the original, are nine zero bytes.

Sorting

- Pdqsort.HeapSort: stands for make_heap and sort_heap with the contract of sorting the range.
- Loop unrolling in the block fill, cache line alignment of the buffers, moved-from values.
- SortedVector.Vector.Sort: lower_bound, inplace_merge and the parallel sort of the tail are taken by their contracts; erase and swap are left out.

Perfect hashing

- Templates, the emitted code and the command line; the type checks of keys; progress output.
- PerfectHash.GenerateHash: the growth int(1.05 * NG) is in exact integers. Each hash function has a stream of random numbers of its own, where the original draws all from one; keys are given as their bytes.

File streams

- The file is the list of frames: header bytes, sizes before frames, mapping and file errors are left out, and so are the two statistics.
- The original reader cannot open a file without any block; the model asks for at least one byte too.
- Locks, flags and signals are sequentially consistent steps; spurious wakeups are the same as no step. LZ4 and zstd are abstract.
- WriteRing and ReadRing keep counters of blocks handed out and taken, and a log of what was read, which the original does not have.

Zones

- Open zones are kept as values with their children so far; the original puts a zone into its parent when it begins and writes its end later. The cache of child vectors is left out.
- sumSq, GPU zones, zone texts, call stacks, locks and fibers, the order of the zones kept per location, counts per thread for more than one thread, and builds without statistics.
- 64-bit overflow of times and sums.
- ZoneReading.TimelineReader.ReadTimeline: only for input the writer produced; malformed files are not described.

Accounting

- The plot's minimum, maximum and sum, address range, call stacks and threads of memory events, and named pools.
- ContextSwitches.UsageSweep.Reconstruct: times are integers instead of 48-bit fields, and whether a thread is the program's own is given with each switch.
- SampleStatistics.Samples.UpdateSampleStatistics: counts are unbounded, interned stacks are an uninterpreted function, and image names are left out.

The compiler (`wasim_*.odin`, `wopt/wopt_*.odin`), the sockets, protocol, user interface, capture and export tools are outside of the models.
