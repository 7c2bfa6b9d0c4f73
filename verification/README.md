# A model of gpu_m2d in Dafny

gpu_m2d injects memory faults into a TensorRT inference and maps where the
affected bytes live: from tensor elements to GPU virtual addresses, from those to
physical pages, and from pages to DRAM banks and rows learned from timing
measurements. This project models the code those steps rest on and proves what
each step promises the next one.

Code that changes state is modelled as methods over arrays, maps and classes and
proved against a specification; the properties that span several calls are lemmas
about that specification. `dafny verify dfyconfig.toml` checks everything.

## What is modelled

| files | part of the system |
|---|---|
| `FaultTrial.dfy`, `CacheFlips.dfy`, `DeviceMemory.dfy` | one fault-injection trial: flips held in DRAM, cache flips that come and go by image, the guard compare, restoring in reverse order, an abort at any image |
| `ResidencyMap.dfy`, `StepFunction.dfy`, `ProbeSchedule.dfy` | turning cache hits and misses into residency periods, their index and times, and the probe schedule that feeds the builder |
| `Sha256.dfy`, `Fips180.dfy`, `ImageCache.dfy`, `LittleEndian.dfy` | the streaming hash against FIPS 180-4, and the preprocessed-image file that is written and read through it |
| `AllocationRegistry.dfy`, `TrackingAllocator.dfy`, `TensorMapping.dfy`, `CheckedArithmetic.dfy` | fixed-width address lookups in both directions, and the allocator whose threads share a registry while the driver reuses addresses |
| `UnionFind.dfy`, `Closure.dfy`, `Edges.dfy`, `EdgeFold.dfy`, `BankTable.dfy`, `FittingTruth.dfy`, `Relation.dfy`, `TableAnswers.dfy` | the empirical bank table: folding measured labels, the three partitions, the consistency gates, and the relation answers, against a ghost ground truth of banks and rows and against all ground truths the measurements leave possible |
| `Masks.dfy`, `Covers.dfy`, `CandidatePool.dfy`, `Offers.dfy`, `SparseSearch.dfy`, `GreedyRun.dfy`, `FamilySolver.dfy`, `LostNegative.dfy`, `Features.dfy`, `MappingModel.dfy` | the GF(2) separating-family solver and the alternating fit of bank and row polynomials |
| `Snapshot.dfy`, `Ledger.dfy` | the two joins of allocations with observed pages |
| `PoolMap.dfy`, `PlannedPairs.dfy`, `TablePlan.dfy`, `SectionSplitter.dfy` | the query planner and the splitter that cuts its results apart again |
| `Bits.dfy`, `Words.dfy`, `Sorting.dfy`, `Outcomes.dfy` | XOR and 32-bit words, stable sorting and filtering, and what a call returns or throws |

Main results, one per part:

- A trial leaves no residue. For any sites, any overlap of lifetimes and bits in a
  byte and any abort image, no fail-closed check fires but the comparison of the
  sanity inference, and every byte nothing else writes has its value from before the
  trial in what that inference sees (`FaultTrials.RunTrial`).
- The residency index is the step function of its observations and determined by it,
  and the schedule never breaks the builder's rule (`ProbeSchedule.ProbePass`,
  `ResidencyMap.IndexIsCanonical`).
- Any split of a message below 2^61 bytes hashes to the digest of sections 5.1.1 and
  6.2.2 of FIPS 180-4 (`Sha256Stream.StreamDigestIsStandard` with
  `Sha256Stream.Sha256.Digest`), and a cache file hits exactly when it is a header
  and a blob with that digest (`ImageCache.Load`).
- Over every interleaving the registry, the records and driver memory agree, and the
  only windows in which they do not are named exactly (`TrackingAllocator.RunKeeps`,
  `TrackingAllocator.DeadButActiveExactly`).
- The consistency gates are silent exactly when some hardware fits the measurements,
  and a cross-page NO or YES is forced by them under an exact condition
  (`FittingTruths.GatesAreCleanExactly`, `TableAnswers.CrossPageAnswerIsRightExactly`).
  From a truthful sweep of rows the table answers by the hardware's banks
  (`TableAnswers.TruthfulSweepAnswersExactly`).
- A solved family vanishes on all positives and is irredundant; unless two vanishing
  columns confuse the search it accounts for every negative, and a residual is one that
  no functional in reach separates (`FamilySolver.SolveFamily`).
- A snapshot or ledger without problems is a bijection of bytes
  (`Snapshot.BuildRows`, `Ledger.BuildLedger`).
- The splitter undoes the planner exactly when the row counts agree
  (`SectionSplitter.PlanThenSplit`).

## Findings

Where the code does not do what it or its comments say. Each point rests on a lemma or
contract that gives the exact condition or a concrete input.

- Resident times of the largest map (`src/semantic/residency_map.cpp:108`). The
  constructor accepts 2^32 - 1 images, but the length of the prefix vector is computed
  in 32 bits and wraps to zero there, so the loop reads and writes outside it. For every
  smaller number the vector suffices and the direct sums come out
  (`ResidencyMap.PrefixSuffices`, `ResidencyMap.LargestMap`,
  `ResidencyMap.ResidencyMapBuilder.ResidentTime`); the effective bits inherit this.
- Tied contests (`tools/g3_probe/build_bank_table.py:171-173`). The comment promises
  that a tie leaves the pair undecided. It does so exactly when no decided row of an
  older source and no shoulder remains; one deep run against one older low ends low
  (`EdgeFold.TieStaysMidExactly`, `EdgeFold.TieCanEndLow`). Low votes are counted per
  row of any source, deep votes per run.
- Cross-page answers (`tools/g3_probe/query_table.py:279-282`). The code says that
  distinct components are distinct banks. Given the measurements, a NO is right exactly
  when a deep measurement of the two addresses would trip one of the gates C1, C2 and
  C4, and a YES exactly when the addresses are in one bank class
  (`TableAnswers.CrossPageAnswerIsRightExactly`). Two ways in which true measurements
  lead to a wrong answer: a bank that holds no representative can split into two
  components although the sweep is complete (`BankTable.RepsAreNeeded`), and a deep edge
  off the page starts joins pages of different banks (`BankTable.PageStartsAreNeeded`).
  After a complete sweep with joining edges at page starts the first is the only way
  (`TableAnswers.CrossPageAnswersAreExact`).
- The column claim (`tools/g3_probe/query_table.py:219-234`) is also made of an
  address with itself (`Relation.ColumnClaimFailsExactly`).
- Offered covers (`tools/g3_probe/solve_mapping.py:341-351`). A functional is collected
  with OR and its cover with XOR; they differ when a tuple repeats a column
  (`Covers.OfferedCoverExactly`). A search that is not stopped records a wrong cover that
  is not empty exactly when a column of its target and a smaller one outside it both
  vanish on every positive (`SparseSearches.WrongCoverExactly`). On one such input every
  run strikes off a negative that nothing fires and that is not listed, and then makes no
  progress until the guard runs out (`LostNegatives.NegativeIsLost`).
- Missed pairs (`tools/g3_probe/solve_mapping.py:363-365`). The search looks for a pair
  only from its smaller column. A valid pair of which only the larger column is in the
  target comes back with an empty cover and never passes the gate, unless both columns
  vanish on every positive (`SparseSearches.ReversedPairIsEmpty`,
  `Offers.ReversedPairCover`). The loops over two and three anchors find no
  valid functional that the others miss: the proof of `SparseSearches.SearchFinds` does
  not use them.
- Planner and splitter (`tools/g3_probe/analyze_table_build.py:115-121`). They disagree
  by one row per bank page when the lattice holds offset 0 under another anchor, and by
  a negative repeat count; the two errors can cancel (`SectionSplitter.ExpectedIsPlanned`).
- Releasing a device buffer (`apps/resnet50_int8_g1_5.cpp:418-427`) frees before it
  deactivates without the allocator's mutex, so an allocation of the same bytes can be
  refused (`TrackingAllocator.ReleaseRaces`).
- A missing cache file leaves the output vector untouched
  (`apps/resnet50_int8_g1_5.cpp:1280-1284`), although the comment above says it is
  cleared on any miss (`ImageCache.Load`).
- A tensor may not reach the last byte of the address space, which a registered
  allocation may (`TensorMapping.MappingSnapshot.AddTensor`): the exclusive end must be
  an address.
- Two allocations on one virtual page may be observed on different physical pages, and
  the snapshot accepts that; distinct bytes still have distinct physical bytes
  (`Snapshot.PhysicalInjective`).
- A fit with no rounds has no result (`MappingModel.RunFit`); the source raises there.

## How the model reads the source

- Bytes are numbers below 256 and words numbers below 2^32, with XOR, AND, shifts and
  rotations defined on them; sums of words wrap explicitly. Addresses and sizes are
  numbers up to 2^64 - 1 with the overflow checks of the source.
- What the environment supplies is a parameter: what the engine writes and whether an
  output is valid, probe hits, preprocessed images, free disk and memory, captured
  events. Results of those calls are arbitrary unless a contract says otherwise.
- Threads are interleaved steps between two mutex operations or driver calls; a driver
  allocation is any range disjoint from live memory.
- Python dictionaries and sets that are iterated are modelled without an order, so that
  what is proved holds for every order; lists keep theirs.
- `double` and `float` sums are over `real`.

## Model

| member | source | states |
|---|---|---|
| `Closure.ClassesAreTheClosure` | tools/g3_probe/analyze_census.py:116-125 | merging the united pairs one by one puts two items into one class exactly when a chain of united pairs connects them |
| `UnionFinds.HalvingKeepsRoots` | tools/g3_probe/analyze_census.py:110-114 | one path-halving write keeps the parent graph acyclic and changes no item's root |
| `UnionFinds.HangingMergesRoots` | tools/g3_probe/analyze_census.py:116-119 | hanging one root below another keeps the graph acyclic and moves exactly the items of the hung root |
| `UnionFinds.UnionFind.Find` | tools/g3_probe/analyze_census.py:110-114 | terminates, returns the item's root, and no item's root changes although parents are rewritten |
| `UnionFinds.UnionFind.Union` | tools/g3_probe/analyze_census.py:116-119 | the new partition is the old one with exactly these two classes merged |
| `UnionFinds.UnionFind.SameClass` | tools/g3_probe/analyze_census.py:116-119 | two finds agree exactly when the two items are connected by united pairs |
| `UnionFinds.UnionFind.Groups` | tools/g3_probe/analyze_census.py:121-125 | one sorted, duplicate-free, non-empty list per class, together the partition generated by the united pairs |
| `EdgeFold.CollectDeep` | tools/g3_probe/build_bank_table.py:174-179 | per table-build run, exactly the pairs that run read deep |
| `EdgeFold.CountLows` | tools/g3_probe/build_bank_table.py:182-187 | per pair, the number of low rows of any source; every row counts, not every run |
| `EdgeFold.Contests` | tools/g3_probe/build_bank_table.py:180-198 | a pair is contested exactly when some table-build run read it deep and some row low; deep wins only with strictly more runs than low rows, low only with strictly more rows |
| `EdgeFold.FreshestRun` | tools/g3_probe/build_bank_table.py:200-200 | the run no other run outranks |
| `EdgeFold.ReplaceContested` | tools/g3_probe/build_bank_table.py:201-206 | the deep and low rows of contested pairs from table-build runs go, one verdict row of the freshest run comes, and no other pair's rows change |
| `EdgeFold.Resolve` | tools/g3_probe/build_bank_table.py:192-208 | every pair's rows after contest resolution are the uncontested ones, or the surviving ones with the verdict |
| `EdgeFold.Fold` | tools/g3_probe/build_bank_table.py:209-228 | keys are ordered pairs of distinct addresses, exactly the measured ones; the stored label is that of the first decided row in rank order, mid exactly if no row is decided, and the stored source is one that no decided row of the pair outranks |
| `EdgeFold.LoadEdges` | tools/g3_probe/build_bank_table.py:87-228 | the whole of it: for every measured pair of distinct addresses the stored label is the first decided one of its resolved rows, and the stored source the most trusted one |
| `EdgeFold.TieStaysMidExactly` | tools/g3_probe/build_bank_table.py:171-173 | the promise that a tied contest leaves the pair mid holds exactly when no surviving row decides the pair, that is no decided row of a source outside the table-build runs and no shoulder |
| `EdgeFold.TieCanEndLow` | tools/g3_probe/build_bank_table.py:171-173 | a tied contest that is stored as low: one deep run against one low of an older source |
| `EdgeFold.WinnerIsStored` | tools/g3_probe/build_bank_table.py:192-206 | a decided verdict is what the table stores, except that a shoulder row of the freshest run is stored instead if there is one |
| `EdgeFold.TruthfulRowsNeverContest` | tools/g3_probe/build_bank_table.py:188-198 | rows that do not lie are never contested |
| `EdgeFold.TruthfulRowsFoldTruthfully` | tools/g3_probe/build_bank_table.py:165-228 | from rows that do not lie the stored label does not lie either, and it is decided as soon as one row is |
| `BankTable.BuildBanks` | tools/g3_probe/build_bank_table.py:260-263 | bank classes are the closure of the deep edges over all decided nodes |
| `BankTable.BuildRows` | tools/g3_probe/build_bank_table.py:264-267 | row classes are the closure of the low edges inside one bank class; bank classes stay as they are |
| `BankTable.BuildPages` | tools/g3_probe/build_bank_table.py:269-278 | page components are the closure of the cross-page deep edges, and of the shoulders too unless deep-only |
| `BankTable.Build` | tools/g3_probe/build_bank_table.py:248-278 | the three partitions together, over the nodes and linked pages the edges name |
| `BankTable.Components` | tools/g3_probe/build_bank_table.py:299-300 | two linked pages get one root exactly when cross-page edges connect them |
| `BankTable.Contradictions` | tools/g3_probe/build_bank_table.py:298-314 | C1 to C4 list exactly the edges that contradict the partitions, by the meaning of each gate, each once and in edge order |
| `BankTable.RowClassesRefineBankClasses` | tools/g3_probe/build_bank_table.py:264-267 | for any labels: two addresses of one row class are in one bank class |
| `BankTable.BankClassesStayInComponents` | tools/g3_probe/build_bank_table.py:463-465 | for any labels: a bank class reaches other pages only inside one page component |
| `BankTable.EveryC4IsC3` | tools/g3_probe/build_bank_table.py:463-465 | for any labels: every C4 edge is a C3 edge |
| `BankTable.BankClassesAreSound` | tools/g3_probe/build_bank_table.py:258-263 | with truthful labels a bank class lies in one true bank |
| `BankTable.RowClassesAreSound` | tools/g3_probe/build_bank_table.py:264-267 | with truthful labels a row class lies in one true row of one true bank |
| `BankTable.TruthfulTableHasNoContradiction` | tools/g3_probe/build_bank_table.py:303-313 | with truthful labels C1, C2 and C4 are empty |
| `BankTable.ComponentsAreSound` | tools/g3_probe/build_bank_table.py:269-278 | with truthful labels measured at page starts, pages of one deep-only component have one bank at their starts |
| `BankTable.MeasuredPairsJoin` | tools/g3_probe/g3_pool.py:638-644 | a decided truthful measurement between the starts of two pages of one bank joins them |
| `BankTable.ComponentsAreExact` | tools/g3_probe/build_bank_table.py:269-278 | after a complete truthful sweep, pages of one component share a bank, and pages of a bank that holds a representative share a component |
| `BankTable.HasRepExactly` | tools/g3_probe/query_table.py:265-268 | a page's component holds a representative exactly when its bank drew one |
| `BankTable.SweepEdgesReachReps` | tools/g3_probe/g3_pool.py:638-644 | if all joining edges come from the sweep, every linked page's component holds a representative |
| `BankTable.PageStartsAreNeeded` | tools/g3_probe/g3_pool.py:609-613 | a true deep edge off page starts joins two pages whose starts are in different banks |
| `BankTable.RepsAreNeeded` | tools/g3_probe/query_table.py:279-282 | five pages, one representative, a complete truthful sweep: the bank without a representative splits into two components, so distinct components need not be distinct banks |
| `FittingTruths.GatesAreCleanExactly` | tools/g3_probe/build_bank_table.py:298-314 | the gates C1, C2 and C4 list nothing exactly when some hardware fits all measurements |
| `FittingTruths.ExcludedExactly` | tools/g3_probe/build_bank_table.py:298-314 | a label is impossible for a pair, given the measurements, exactly when adding it trips one of these gates |
| `FittingTruths.BanksMustDifferExactly` | tools/g3_probe/query_table.py:279-282 | when the claim behind a NO is right: all fitting hardware puts two addresses of different pages in different banks exactly when a deep measurement of them would trip a gate |
| `FittingTruths.MustConflictExactly` | tools/g3_probe/query_table.py:269-277 | when the claim behind a YES is right: all fitting hardware makes two addresses of different pages conflict exactly when they are in one bank class |
| `FittingTruths.MustShareRowExactly` | tools/g3_probe/query_table.py:219-234 | all fitting hardware puts two addresses in one row exactly when they are in one row class |
| `Relation.BuildAnchors` | tools/g3_probe/query_table.py:485-508 | a mask is valid on a page exactly when more than half of the runs that swept the cell read it deep |
| `Relation.AnchorsConflict` | tools/g3_probe/query_table.py:496-505 | with truthful sweep cells a valid mask leads to a different row of the same bank |
| `Relation.InPageAnswersAreSound` | tools/g3_probe/query_table.py:214-258 | with truthful labels every in-page answer is right: bank YES, row SAME and row DIFFERENT hold in hardware, and bank NO is never said |
| `TableAnswers.CrossPageAnswer` | tools/g3_probe/query_table.py:260-285 | for any two addresses on different pages the answer says YES, NO or UNKNOWN exactly by universe, linkage and component of the page graph, and row DIFFERENT with every YES |
| `TableAnswers.CrossPageAnswerIsRightExactly` | tools/g3_probe/query_table.py:260-285 | if the gates are clean, a NO holds of all fitting hardware exactly when a deep measurement of the two addresses would trip a gate, and a YES with its row DIFFERENT exactly when they are in one bank class |
| `TableAnswers.SameRowIsClaimedExactly` | tools/g3_probe/query_table.py:219-234 | if the gates are clean, two addresses of a page are called one row exactly when all fitting hardware puts them in one row |
| `TableAnswers.CrossPageYesIsSound` | tools/g3_probe/query_table.py:269-277 | at page bases a YES is always right: the two pages conflict in all fitting hardware |
| `TableAnswers.CrossPageAnswersAreExact` | tools/g3_probe/query_table.py:269-285 | after a complete truthful sweep, linked pages whose bank holds a representative get YES exactly when they share a bank and NO exactly when they do not; in general the answer is wrong exactly for pages of one bank in two components |
| `TableAnswers.LinkedExactly` | tools/g3_probe/query_table.py:265-268 | after a truthful sweep that alone joins pages, a page is linked exactly when another page shares its bank and one of the two is a representative |
| `TableAnswers.TruthfulSweepAnswersExactly` | tools/g3_probe/query_table.py:260-285 | from rows to answers: if the rows are true, sweep the pool and join pages by the sweep alone, two page starts get UNKNOWN, YES or NO exactly by the banks and representatives of the hardware |
| `Relation.ColumnClaimFailsExactly` | tools/g3_probe/query_table.py:219-234 | the claim of a different column is made of one address with itself exactly for a node of a multi-member row class |
| `Relation.Classes` | tools/g3_probe/build_bank_table.py:514-531 | the written class name and size of a node: equal names exactly for connected nodes, size two or more exactly with another member |
| `Relation.WriteTable` | tools/g3_probe/build_bank_table.py:480-533 | the pages and nodes written name exactly the components and classes of the edges |
| `Relation.Analyze` | tools/g3_probe/build_bank_table.py:339-370 | folds the rows and refuses exactly when some edge lies off the pool its stored label comes from; otherwise the written table is that of the edges and all of them lie in the universe |
| `TableAnswers.TruthfulRowsGiveTruthfulEdges` | tools/g3_probe/build_bank_table.py:209-228 | truthful rows give truthful edges, and a sweep of decided rows a complete sweep of edges: folding loses nothing the answers rest on |
| `DeviceMemory.FlipBit` | src/injector/device_bit_injector.cu:53-92 | reads, flips one bit of one byte and nothing else, and reports the byte before and after; an offset or a bit out of range is refused with its error and changes nothing |
| `CacheFlips.Tracker.ApplyOne` | apps/resnet50_int8_g1_5.cpp:3251-3299 | the flipped byte joins the books: every tracked byte reads pristine XOR the masks of its active sites, whose number is counted; the fail-closed throw is impossible if nothing else writes read-only bytes |
| `CacheFlips.Tracker.Apply` | apps/resnet50_int8_g1_5.cpp:3250-3300 | all sites of an image come alive with the books kept |
| `CacheFlips.Tracker.RemoveSite` | apps/resnet50_int8_g1_5.cpp:3311-3375 | removal keeps the books, throws exactly for a read-only byte that no longer reads as booked, restores an undisturbed byte and leaves an overwritten one alone |
| `CacheFlips.Tracker.Remove` | apps/resnet50_int8_g1_5.cpp:3309-3377 | exactly the sites whose last image this was leave, or all of them; the others stay active with the books kept |
| `CacheFlips.LastFlipRestores` | apps/resnet50_int8_g1_5.cpp:3357-3366 | removing the last active flip of an intact byte, in any order of removal, gives its pristine value |
| `CacheFlips.EnterKeeps` | apps/resnet50_int8_g1_5.cpp:3266-3289 | a new flip on a byte with any other active flips keeps the books of every byte |
| `CacheFlips.LeaveKeeps` | apps/resnet50_int8_g1_5.cpp:3334-3366 | removing any one of the active flips keeps the books of every byte |
| `FaultTrials.FlipAll` | apps/resnet50_int8_g1_5.cpp:3120-3167 | after all flips each byte is the old one XOR every mask listed for it, repeats and shared bytes included, and each record holds the byte as that flip found it |
| `FaultTrials.GuardCompare` | apps/resnet50_int8_g1_5.cpp:3169-3199 | the compare succeeds exactly when live memory is pristine XOR the recorded masks |
| `FaultTrials.FlipRegion` | apps/resnet50_int8_g1_5.cpp:2004-2008 | re-applies exactly the held faults of one region |
| `FaultTrials.RunImage` | apps/resnet50_int8_g1_5.cpp:1984-2028 | one image keeps the books, and the input binding then holds the staged image with its held faults |
| `FaultTrials.BuildStarts` | apps/resnet50_int8_g1_5.cpp:3242-3249 | every site is listed once, under its start image, in order |
| `FaultTrials.RunPass` | apps/resnet50_int8_g1_5.cpp:3379-3449 | for any abort image: no cache flip stays active, a site is not_applied exactly when its start image was never reached, removed at its last image or at the abort, and an engine-written site on a byte nothing else writes is restored, never overwritten |
| `FaultTrials.Restore` | apps/resnet50_int8_g1_5.cpp:3468-3496 | reverse-order un-flipping undoes all held faults, and a site reports its byte restored exactly when the byte, faults aside, is what it was before any flip |
| `FaultTrials.HoldAndRun` | apps/resnet50_int8_g1_5.cpp:3120-3449 | flip, guard and pass together: no throw, and an untouched byte still reads its old value XOR its held faults |
| `FaultTrials.RunFaults` | apps/resnet50_int8_g1_5.cpp:3120-3536 | faults, pass and restore: no fail-closed check fires, every byte that nothing else writes is back at its value, and the input binding is the last evaluated image |
| `FaultTrials.RunTrial` | apps/resnet50_int8_g1_5.cpp:3120-3651 | a whole trial: no fail-closed check fires but the comparison of the sanity inference; every byte that nothing else writes has its value from before the trial after the restore, in what the sanity inference sees and at the end; the input binding is restored to the last evaluated image, and the sanity inference sees its own; every cache site went through its lifecycle, and on a byte nothing else writes was put back |
| `ResidencyMap.ObserveKeepsUnit` | src/semantic/residency_map.cpp:31-49 | an accepted observation keeps the unit's open and closed periods equal to the step function up to that image, and image - 1 is never negative |
| `ResidencyMap.BuildIndex` | src/semantic/residency_map.cpp:66-78 | the offsets partition the periods by unit, and each slice is exactly the unit's entries in order |
| `ResidencyMap.FinishUnit` | src/semantic/residency_map.cpp:56-61 | closing the open period at the last image settles every image of the unit |
| `ResidencyMap.ResidencyMapBuilder.Create` | src/semantic/residency_map.cpp:11-21 | refuses exactly zero sizes and 2^32 - 1 or more units, and starts with an empty history |
| `ResidencyMap.NarrowIsExact` | src/semantic/residency_map.cpp:47-47 | every unit number survives the narrowing to 32 bits exactly when there are at most 2^32 units |
| `ResidencyMap.ResidencyMapBuilder.Observe` | src/semantic/residency_map.cpp:23-50 | accepts an observation exactly when the map is not finished and the history with it is legal (in range, images strictly increasing per unit), and then appends it; a refused one changes nothing, and each refusal has its error |
| `ResidencyMap.ResidencyMapBuilder.Finish` | src/semantic/residency_map.cpp:52-84 | afterwards an image is in a period of a unit exactly when the unit's last observation at or before it, else its first one, was a hit; each unit's periods are sorted, disjoint and not adjacent |
| `ResidencyMap.ChainIsCanonical` | include/gpu_m2d/residency_map.hpp:6-7 | two lists of maximal periods that cover the same images are the same list |
| `ResidencyMap.IndexIsCanonical` | src/semantic/residency_map.cpp:52-84 | offsets and periods depend only on which unit is resident at which image |
| `ResidencyMap.OrderOfUnitsIsFree` | src/semantic/residency_map.cpp:52-84 | interleaving the observations of different units differently gives the same index |
| `ResidencyMap.ResidencyMapBuilder.ResidentTime` | src/semantic/residency_map.cpp:102-121 | prefix-sum differences give the direct sum of the image times over the unit's resident images, exactly for a finished map of the right size with fewer than 2^32 - 1 images; with that many the vector of sums is empty and is indexed out of bounds |
| `ResidencyMap.PrefixSuffices` | src/semantic/residency_map.cpp:108-111 | the prefix vector has room for every image exactly when there are fewer than 2^32 - 1; at that number its length wraps to zero |
| `ResidencyMap.EndDoesNotWrap` | src/semantic/residency_map.cpp:116-116 | the end of a stored period plus one never wraps |
| `ResidencyMap.LargestMap` | src/semantic/residency_map.cpp:102-111 | a map of 2^32 - 1 images is accepted and finished, and its resident times leave the vector |
| `ResidencyMap.ResidencyMapBuilder.REffBits` | src/semantic/residency_map.cpp:123-142 | refuses exactly wrong sizes, an unfinished map, 2^32 - 1 images and a total that is not positive; else the time-weighted resident bits, which for non-negative times lie between 0 and 8 times the unit bytes and reach that exactly when every unit with bytes is resident at every image that takes time |
| `ResidencyMap.EffectiveBitsBounds` | include/gpu_m2d/residency_map.hpp:53-56 | the bounds of the defined ratio, and exactly when the upper one is reached |
| `ProbeSchedule.Sweep` | apps/resnet50_int8_g1_5.cpp:2496-2522 | one sweep observes each unit of its phase once, and none is refused |
| `ProbeSchedule.ProbePass` | apps/resnet50_int8_g1_5.cpp:2481-2523 | the schedule never breaks the builder's rule, and the finished map says what the latest probe before an image said, else the first one |
| `ProbeSchedule.ProbeWithinResolution` | include/gpu_m2d/residency_map.hpp:18-20 | once a unit's phase has come up, its latest probe lies less than every * stride images back |
| `Sha256Stream.JoinBytes` | apps/resnet50_int8_g1_5.cpp:1162-1167 | four bytes joined by shifts are their big-endian value |
| `Sha256Stream.ExpandSchedule` | apps/resnet50_int8_g1_5.cpp:1161-1174 | the 64 words are the message schedule of section 6.2.2 of FIPS 180-4, summed in another order |
| `Sha256Stream.CompressBlock` | apps/resnet50_int8_g1_5.cpp:1143-1189 | the state over one more block is the hash computation of section 6.2.2 over one more block |
| `Sha256Stream.Sha256.Feed` | apps/resnet50_int8_g1_5.cpp:1084-1094 | one turn of the loop absorbs as much as the buffer holds and leaves less than 64 bytes waiting |
| `Sha256Stream.Sha256.Update` | apps/resnet50_int8_g1_5.cpp:1081-1095 | absorbs the chunk whole, whatever its length and whatever was absorbed before |
| `Sha256Stream.Sha256.PadZeros` | apps/resnet50_int8_g1_5.cpp:1120-1123 | the zero loop terminates after exactly the zeros section 5.1.1 asks for |
| `Sha256Stream.Sha256.Digest` | apps/resnet50_int8_g1_5.cpp:1116-1137 | the result depends only on the bytes absorbed, not on how they were split |
| `Sha256Stream.StreamDigestIsStandard` | apps/resnet50_int8_g1_5.cpp:1116-1137 | below 2^61 bytes that result is the FIPS 180-4 digest; above, the bit count has wrapped |
| `LittleEndian.ReadsAs` | apps/resnet50_int8_g1_5.cpp:1301-1316 | a stored number compares equal exactly when its bytes are those of the number written |
| `ImageCache.ReadHeader` | apps/resnet50_int8_g1_5.cpp:1286-1317 | passes exactly for the fields Store writes for this key and these sizes |
| `ImageCache.ReadBlob` | apps/resnet50_int8_g1_5.cpp:1318-1331 | the buffer is the bytes read and the hash stands for exactly those, chunk by chunk |
| `ImageCache.Load` | apps/resnet50_int8_g1_5.cpp:1273-1349 | a hit exactly for a file that is the header and a blob of the announced size with the recorded digest, nothing after it; every other file clears the vector, a missing one leaves it |
| `ImageCache.Store` | apps/resnet50_int8_g1_5.cpp:1353-1402 | writes header, digest of the whole blob and blob, or leaves the old file |
| `ImageCache.StoredFileLoads` | apps/resnet50_int8_g1_5.cpp:1353-1387 | what Store writes loads as the same blob exactly when the blob has the announced size |
| `ImageCache.OneKeyPerFile` | apps/resnet50_int8_g1_5.cpp:1306-1316 | one file can hit for one key and one pair of sizes only |
| `ImageCache.Stage` | apps/resnet50_int8_g1_5.cpp:2745-2769 | on a miss the input is the preprocessed images in order and is what the stored file carries |
| `ImageCache.Relaunch` | apps/resnet50_int8_g1_5.cpp:1055-1065 | a relaunch after a launch that preprocessed and stored stages the same buffer, from the cache or not |
| `Masks.DotXor` | tools/g3_probe/solve_mapping.py:66-68 | the GF(2) inner product is linear |
| `Covers.CoverOf` | tools/g3_probe/solve_mapping.py:234-240 | the cover mask has exactly the bits of the pairs the functional fires on |
| `Covers.Colmask` | tools/g3_probe/solve_mapping.py:222-232 | a column's signature is its cover over the positives |
| `Covers.FiresXor` | tools/g3_probe/solve_mapping.py:440-449 | covers add with XOR as functionals do, so valid functionals are closed under XOR and a grown cover is the grown functional's own |
| `Covers.ValidVanishes` | tools/g3_probe/solve_mapping.py:196-199 | a functional is valid exactly when it vanishes on every positive |
| `Covers.TupleIsExact` | tools/g3_probe/solve_mapping.py:202-205 | a functional is valid exactly when the signatures of its columns cancel, and its cover is then the XOR of theirs |
| `Covers.OfferedCoverExactly` | tools/g3_probe/solve_mapping.py:341-351 | the cover an offer records is its functional's cover exactly when the covers of its repeated columns cancel |
| `Offers.OfferedCover` | tools/g3_probe/solve_mapping.py:341-351 | what an offer records: its own cover if its columns are different; else it has two columns and records nothing or, if both vanish on every positive, the cover of the one outside the target |
| `Offers.OfferIsExact` | tools/g3_probe/solve_mapping.py:353-398 | no valid offer records a wrong non-empty cover, unless a column of the target and a smaller one outside it both vanish on every positive |
| `Offers.ReversedPairCover` | tools/g3_probe/solve_mapping.py:363-367 | a pair of which only the larger column is the target's is offered with no cover, or with that of the smaller column if both vanish on every positive |
| `SparseSearches.WrongCoverExactly` | tools/g3_probe/solve_mapping.py:341-400 | a search that is not stopped records a wrong non-empty cover exactly when a column of the target and a smaller one outside it both vanish on every positive |
| `LostNegatives.NegativeIsLost` | tools/g3_probe/solve_mapping.py:423-481 | three negatives for which every run of the solver strikes off a negative that its family does not fire and does not list, and uses up its guard |
| `CandidatePool.Pool.Seed` | tools/g3_probe/solve_mapping.py:256-303 | the pool holds valid functionals with their own covers: every lone linear column, the widest column of each signature with every other one, and the widest 512 triples, and only columns, pairs and triples of these kinds, cut at 256 by cover |
| `CandidatePool.ValidTriplesAreIn` | tools/g3_probe/solve_mapping.py:274-296 | a valid functional of three columns that fires on some negative is among the triples exactly when its largest column does not vanish on every positive |
| `CandidatePool.Pool.Grow` | tools/g3_probe/solve_mapping.py:440-452 | every new XOR of the pick with the first 32 members that fires on some of what remains joins, and nothing else, each valid and with its own cover, and the pool is cut at 256 by what remains |
| `CandidatePool.Pool.PickBest` | tools/g3_probe/solve_mapping.py:428-436 | a pick exists exactly when some member fires on enough of what remains; it is the widest, then lightest, then smallest one |
| `SparseSearches.SparseSearch.Run` | tools/g3_probe/solve_mapping.py:353-400 | unless it stops at its cap, the search offers all it tries for every column of the target |
| `SparseSearches.SearchFinds` | tools/g3_probe/solve_mapping.py:329-337 | a search that was not stopped has found, with its own cover, every valid functional of three or four columns that fires the target, and every pair whose smaller column is the target's |
| `SparseSearches.ReversedPairIsEmpty` | tools/g3_probe/solve_mapping.py:363-365 | unless both its columns vanish on every positive, a valid pair of which only the larger column is the target's is offered with an empty cover |
| `SparseSearches.SparseSeparators` | tools/g3_probe/solve_mapping.py:327-413 | all separators are valid and fire the target, with their own cover or an empty one unless vanishing columns confuse the search; they are the valid ones of what a search as described offers |
| `SparseSearches.UncrowdedFindsAll` | tools/g3_probe/solve_mapping.py:329-413 | of the functionals the search looks for none is missing among the separators, unless 32 or more functionals compete for the target |
| `SparseSearches.SparseSearch.Filtered` | tools/g3_probe/solve_mapping.py:401-413 | every separator returned vanishes on all positives and fires the target, and no valid offer is left out below the limit |
| `FamilySolver.ColumnsAre` | tools/g3_probe/solve_mapping.py:218-218 | the columns ascend and are exactly those of some negative |
| `FamilySolver.Stall` | tools/g3_probe/solve_mapping.py:454-478 | exactly the separators past the gate that a search returns, and of them the widest in what remains; none when the searches are used up |
| `GreedyRuns.ResidualsAreHonest` | tools/g3_probe/solve_mapping.py:463-466 | in any run a negative is given up only if no sought functional separates it widely enough, unless 32 or more compete or the searches are used up |
| `FamilySolver.OneRound` | tools/g3_probe/solve_mapping.py:424-478 | one round picks the widest member past the gate and grows the pool, or searches for the first remaining negative, picks the widest separator or gives the negative up |
| `FamilySolver.GreedyCover` | tools/g3_probe/solve_mapping.py:415-481 | the rounds follow each other as described until nothing remains or the guard runs out; while recorded covers are exact every round strikes off a negative, so the guard is never exhausted and every negative is fired or a residual |
| `FamilySolver.RemoveRedundant` | tools/g3_probe/solve_mapping.py:483-494 | the negatives fired stay the same, and every remaining member fires one that no other fires |
| `FamilySolver.Safe` | tools/g3_probe/solve_mapping.py:495-497 | the safety filter removes nothing from a valid family |
| `FamilySolver.SolveFamily` | tools/g3_probe/solve_mapping.py:192-499 | every returned functional vanishes on every positive and none is redundant; family and residuals are those of a run; unless some negative holds a column and lacks a smaller one of another negative, both in no positive, every negative is fired or a residual and every member is wide enough, and with at most 512 negatives a residual is one that no sought functional separates widely enough, unless 32 or more compete |
| `Features.Features.Mu` | tools/g3_probe/solve_mapping.py:96-106 | bit j of the result is the monomial j of the address, for every linear and quadratic term, and nothing else is set |
| `MappingModel.ConflictIsSameBankOtherRow` | tools/g3_probe/solve_mapping.py:567-572 | two addresses are classified as a conflict exactly when they agree on every bank polynomial and differ on some row polynomial |
| `MappingModel.Solve` | tools/g3_probe/solve_mapping.py:530-545 | a family over pairs: vanishes on the positives and separates every negative that is not listed as a residual |
| `MappingModel.SolveRows` | tools/g3_probe/solve_mapping.py:539-541 | after a row solve every low in the bank kernel is in the row kernel |
| `MappingModel.SolveBanks` | tools/g3_probe/solve_mapping.py:542-545 | after a bank solve every low in the bank kernel is in the row kernel or a bank residual |
| `MappingModel.FitsAreExplained` | tools/g3_probe/solve_mapping.py:567-572 | what both solves keep implies that every misclassified training pair is a residual |
| `MappingModel.RunFit` | tools/g3_probe/solve_mapping.py:502-564 | the two solves alternate until a state repeats or the rounds are up; the kept state is minimal among all states; as long as every solve was exact, every training pair it misclassifies is one of its residuals, and none is misclassified if there is no residual |
| `Registry.AddKeepsConsistent` | src/semantic/allocation_registry.cpp:81-99 | adding a checked descriptor keeps ids unique and active ranges of a device disjoint and non-wrapping |
| `Registry.OverlapIsSharedByte` | src/semantic/allocation_registry.cpp:91-97 | the inclusive-end comparison is true exactly when two active ranges share a byte |
| `Registry.AllocationRegistry.Add` | src/semantic/allocation_registry.cpp:60-100 | adds exactly the addable descriptors, reports the first complaint or clash otherwise, and no stored end overflows while it is compared |
| `Registry.AllocationRegistry.Deactivate` | src/semantic/allocation_registry.cpp:102-115 | clears exactly the named active entry and says whether it did |
| `Registry.AllocationRegistry.BitToVa` | src/semantic/allocation_registry.cpp:117-142 | the forward lookup, each error case included |
| `Registry.AllocationRegistry.VaToBit` | src/semantic/allocation_registry.cpp:144-168 | the reverse lookup, each error case included |
| `Registry.ForwardThenReverse` | src/semantic/allocation_registry.cpp:117-168 | reverse undoes forward on every bit of every active allocation, and the address never wraps |
| `Registry.ReverseThenForward` | src/semantic/allocation_registry.cpp:117-168 | forward undoes reverse |
| `Registry.MappedExactly` | src/semantic/allocation_registry.cpp:153-168 | an address is found exactly when an active allocation of the device contains it |
| `TrackingAllocator.StepKeeps` | apps/resnet50_int8_g1_5.cpp:265-342 | every step of every call keeps the invariant that ties driver memory, registry, records and mutex together |
| `TrackingAllocator.RunKeeps` | apps/resnet50_int8_g1_5.cpp:265-342 | hence every reachable state of every interleaving satisfies it |
| `TrackingAllocator.AllocatorOverlapExactly` | apps/resnet50_int8_g1_5.cpp:288-300 | the allocator's add_allocation meets an overlap exactly when a DeviceBuffer over the same bytes is between its cudaFree and its deactivate_allocation |
| `TrackingAllocator.BufferOverlapExactly` | apps/resnet50_int8_g1_5.cpp:363-376 | that of a DeviceBuffer also while a deallocate is between the two |
| `TrackingAllocator.AllocatorNeverOverlaps` | apps/resnet50_int8_g1_5.cpp:265-342 | in a run that releases no DeviceBuffer it never meets one, whatever addresses are reused |
| `TrackingAllocator.AllocatorIdIsNew` | apps/resnet50_int8_g1_5.cpp:280-282 | nor a duplicate id |
| `TrackingAllocator.ReturnedIsTracked` | apps/resnet50_int8_g1_5.cpp:301-315 | a returned pointer has exactly one active record and one active registry entry, and each of its bytes is looked up as that allocation |
| `TrackingAllocator.DeadButActiveExactly` | apps/resnet50_int8_g1_5.cpp:333-337 | freed memory is listed as active exactly while a deallocate holding the mutex, or a DeviceBuffer release, is between cudaFree and deactivation |
| `TrackingAllocator.DeallocateFindsReturned` | apps/resnet50_int8_g1_5.cpp:326-335 | a record is found exactly for a pointer returned and not given back, and then cudaFree is called on live memory |
| `TrackingAllocator.ReleaseRaces` | apps/resnet50_int8_g1_5.cpp:418-427 | a run in which a DeviceBuffer release makes the allocator's add_allocation fail |
| `TrackingAllocator.DecimalInjective` | apps/resnet50_int8_g1_5.cpp:281-281 | different counters give different ids |
| `CheckedArithmetic.Multiply` | src/semantic/tensor_mapping.cpp:11-17 | throws exactly when the product does not fit |
| `TensorMapping.HasContiguousStrides` | src/semantic/tensor_mapping.cpp:90-108 | true exactly for row-major strides; the overflow exactly when a product of the last dimensions does not fit before any stride differs |
| `TensorMapping.ElementCount` | src/semantic/tensor_mapping.cpp:69-82 | succeeds exactly for a non-empty shape of positive dimensions whose product fits, and says which of the three failed first |
| `TensorMapping.MappingSnapshot.AddTensor` | src/semantic/tensor_mapping.cpp:125-165 | adds exactly the sound tensors with a new name and a range apart from all others, reports the first complaint or clash otherwise; names and ranges stay unique and disjoint |
| `TensorMapping.MappingSnapshot.BitToVa` | src/semantic/tensor_mapping.cpp:167-200 | exactly the bits of known tensors map, to base plus offset, no valid index overflows, and each failure has its error |
| `TensorMapping.MappingSnapshot.VaToBit` | src/semantic/tensor_mapping.cpp:202-237 | exactly the bytes of known tensors are found, as the bit of the tensor at that byte, and each failure has its error |
| `TensorMapping.ThereAndBack` | src/semantic/tensor_mapping.cpp:167-237 | reverse undoes forward |
| `TensorMapping.BackAndThere` | src/semantic/tensor_mapping.cpp:167-237 | forward undoes reverse |
| `TensorMapping.OneTensorPerByte` | src/semantic/tensor_mapping.cpp:150-163 | no byte is in two tensors |
| `TensorMapping.LevelsAgree` | src/semantic/tensor_mapping.cpp:202-234 | a tensor at the base of a registered allocation gets the same offset, bit and mask from both levels |
| `Snapshot.RowOf` | tools/g4_dualaddr/build_snapshot.py:205-207 | a row covers exactly the bytes of the allocation on that page |
| `Snapshot.AddRow` | tools/g4_dualaddr/build_snapshot.py:200-218 | a row is refused exactly when it aliases a physical page or shares a byte with another row |
| `Snapshot.JoinAllocation` | tools/g4_dualaddr/build_snapshot.py:159-218 | each byte of the allocation is in one row more than before, no other byte is, and the row lengths grow by its size |
| `Snapshot.BuildRows` | tools/g4_dualaddr/build_snapshot.py:151-255 | no problem exactly when every page is usable, no physical page backs two virtual ones and no byte is in two allocations; then every allocated byte is in exactly one row, no other byte in any, and the lengths add up |
| `Snapshot.LookupVaExactly` | tools/g4_dualaddr/build_snapshot.py:314-325 | an address has one row if an allocation contains it and none otherwise |
| `Snapshot.LookupVa` | tools/g4_dualaddr/build_snapshot.py:314-320 | exactly the rows that hold the address, in table order |
| `Snapshot.LookupPa` | tools/g4_dualaddr/build_snapshot.py:338-340 | exactly the rows of the address's physical page, in table order |
| `Snapshot.PhysicalInjective` | tools/g4_dualaddr/build_snapshot.py:200-205 | different resident bytes have different physical bytes |
| `Snapshot.LookupPaNarrows` | tools/g4_dualaddr/build_snapshot.py:338-352 | a physical row narrowed by the offset gives exactly the virtual byte that maps to the address |
| `Ledger.TilesCoverExactly` | tools/g2_observer/run_g2_tensorrt_probe.py:299-309 | segments that pass the cursor loop cover every byte of the range once and their lengths add up |
| `Ledger.ExactCoverTiles` | tools/g2_observer/run_g2_tensorrt_probe.py:299-309 | sorted segments that cover the range exactly pass the cursor loop |
| `Ledger.CheckTiling` | tools/g2_observer/run_g2_tensorrt_probe.py:299-309 | reports nothing exactly when the sorted segments cover every byte of the allocation once |
| `Ledger.PowerOfTwoIs` | tools/g2_observer/run_g2_tensorrt_probe.py:264-267 | the bit test accepts exactly the powers of two |
| `Ledger.CheckTimes` | tools/g2_observer/run_g2_tensorrt_probe.py:234-249 | no complaint exactly when one mapping, made with status 0 under headers of status 0, was freed after it and before the teardown ended |
| `Ledger.SegmentsOf` | tools/g2_observer/run_g2_tensorrt_probe.py:252-297 | the segments are the clipped valid local pages of the header in order, and nothing fails exactly when the header can be used in full |
| `Ledger.BuildLedger` | tools/g2_observer/run_g2_tensorrt_probe.py:204-313 | no failure exactly when one mapping was made before the allocation event and freed in time, every header succeeded and can be used in full, and the sorted clipped pages cover every byte once; a coverage failure exactly when they do not cover it |
| `Ledger.AcceptedPages` | tools/g2_observer/run_g2_tensorrt_probe.py:208-213 | the segments of a ledger without failures tile the allocation in order, their lengths add up to its size, each lies in one valid local page that a header reported, and no page that meets the allocation is missing |
| `PoolMaps.BuildPool` | tools/g3_probe/g3_pool.py:133-148 | fails exactly when the pages of some chunk do not tile its addresses; the chunks group all pages in order, and one page is kept for every physical address |
| `PoolMaps.DistinctPhysical` | tools/g3_probe/g3_pool.py:144-148 | strictly ascending physical addresses, one page for each that occurs, the last one in chunk order |
| `PoolMaps.OffsetReachesPage` | tools/g3_probe/g3_pool.py:159-164 | a page's offset plus a low part inside it has the page's physical address plus that part |
| `TablePlan.PlanSweep` | tools/g3_probe/g3_pool.py:625-628 | one query per page and mask, addressing the page base and its masked partner |
| `TablePlan.PlanCalibration` | tools/g3_probe/g3_pool.py:615-619 | the first page against the three fixed offsets |
| `TablePlan.PlanClassify` | tools/g3_probe/g3_pool.py:638-644 | one query per page and other representative, addressing the two page bases |
| `TablePlan.PlanBankMap` | tools/g3_probe/g3_pool.py:655-664 | per page and offset the base probe, and the anchor probe unless it repeats a pair |
| `TablePlan.Resolve` | tools/g3_probe/g3_pool.py:630-637 | in order, the requested pages the pool has, representatives once each, and exactly the requested addresses it has not |
| `TablePlan.Lattice` | tools/g3_probe/g3_pool.py:646-647 | the probes and the column probe in the order they first occur, each once |
| `TablePlan.PlanTableBuild` | tools/g3_probe/g3_pool.py:556-683 | six sections in their order with the pairs each promises, and a record of representatives, lattice, bank pages, counts and dropped requests that describes them |
| `PlannedPairs.BankLength` | tools/g3_probe/g3_pool.py:655-664 | the number of bank-map queries |
| `SectionSplitter.ExpectedIsPlanned` | tools/g3_probe/analyze_table_build.py:115-121 | the splitter expects the planned rows, plus one per bank page if the lattice has 0 under another anchor, less a negative repeat count |
| `SectionSplitter.CheckSweep` | tools/g3_probe/analyze_table_build.py:159-168 | accepts exactly rows that address the page and mask of their place |
| `SectionSplitter.Split` | tools/g3_probe/analyze_table_build.py:102-198 | accepts exactly when the count is the expected one and every checked row addresses its pair; then the sections are the consecutive slices |
| `SectionSplitter.PlanThenSplit` | tools/g3_probe/analyze_table_build.py:102-198 | for aligned 2 MiB pages and masks inside them the rows of a plan are accepted exactly when that surplus is zero, and then come back as the planned sections |
| `SectionSplitter.AcceptedAddresses` | tools/g3_probe/analyze_table_build.py:149-198 | accepted rows, as many as planned, address exactly the planned pairs outside calibration |
| `SectionSplitter.CutUndoesFlat` | tools/g3_probe/analyze_table_build.py:130-147 | cutting the joined sections at their lengths gives them back |
| `Sorting.SortIsStable` | src/semantic/residency_map.cpp:62-65 | the stable sort keeps the order of elements it cannot tell apart |
| `Sorting.StableSortIsUnique` | src/semantic/residency_map.cpp:62-65 | any sorted list that keeps the elements of each class of ties in their order is what SortBy gives |

## Left out

Contracts that say less than the source hopes for:

- BankTable.ComponentsAreExact: one component for one bank is promised only for a bank that holds a representative, because another one can split (`BankTable.RepsAreNeeded`); `BankTable.HasRepExactly` and `BankTable.SweepEdgesReachReps` say when a page has one.
- TableAnswers.CrossPageAnswersAreExact: the answer is promised right only where the bank holds a representative or the pages are joined; `TableAnswers.TruthfulSweepAnswersExactly` promises it for all pages when nothing but the sweep joins pages.
- ResidencyMap.ResidencyMapBuilder.ResidentTime: indexing outside the prefix vector is an error value here; what the program does then is undefined.
- FamilySolver.SolveFamily: that every negative is accounted for is promised only for inputs without two vanishing columns that confuse some search. The condition is exact for a search (`SparseSearches.WrongCoverExactly`) but only sufficient for the whole solve, in which such a search may never be made; it fails for one such input (`LostNegatives.NegativeIsLost`).
- SparseSearches.SearchFinds: says nothing about a search that stopped at its limits, nor about functionals of five or more columns, which only beam growth reaches; `SparseSearches.UncrowdedFindsAll` says when the limits do not matter.
- MappingModel.RunFit: exactness of the inner solves is reported, not derived from the training pairs, since each solve sees the families of the one before.
- TrackingAllocator.AllocatorNeverOverlaps: holds for runs that release no device buffer; with releases `TrackingAllocator.AllocatorOverlapExactly` gives the exact condition.
- FaultTrials.RunTrial: a byte that the engine also writes is covered only so far as removal leaves an overwritten byte alone; cache sites inside the input binding are excluded from the claims about it; whether the sanity inference reproduces the clean output is a parameter.
- ImageCache.Relaunch: the key is a parameter; that equal keys mean equal preprocessing is a property of the hash inputs, not of this code.

Not modelled:

- CUDA, TensorRT, OpenCV and eBPF calls beyond their effect on bytes; kernels and the prober body.
- Several devices and several allocations in a trial: device memory is one array of cells, the guard compares all of it, and addresses of sites are already resolved to cells, so the check that a flipped address still equals the sampled one is not there.
- Image outcomes, probabilities, tolerances, trial statistics, observer events and all output text, CSV and JSON.
- Rounding of floating-point sums, the binary file of the residency map (`write_binary`), and the guards of its `offsets()` and `periods()` accessors.
- How the image-cache key is computed and how the file is named; stream failures are reduced to the space left on disk and the memory left for the buffer.
- Memory exhaustion inside the allocator after a record was pushed, zero-size requests, the alignment field, and the observer; ids of device buffers are taken not to start with the prefix of the allocator's own ids.
- The run ids of registry and tensor snapshot.
- Parsing and missing files of the bank-table inputs, the disagreement list C5, node and page degrees, and everything printed.
- Anchors are sets of masks per page; the order by votes only affects printing.
- The memo tables of the solver (column masks, signature index, pair index, single covers) are the filters they cache; which of several equally wide columns heads a signature group is left open.
- The holdout split, evaluation and term lists of the mapping model.
- Snapshot columns copied from the bank table (linkage, row classes, anchors), its warnings, and loading of the map files.
- Ledger rows without a map base, raw page-table words, and the copied time fields.
- Query tags other than the section, calibration results, the single-bit, pair, census and predict-check planners, and pool-map parsing; chunk numbers are not negative.
- The pilot analysis, gap clusters and three-band classification of the census, the older scans and campaign analyses: small relatives of the parts above.
