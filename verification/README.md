# Verification of dupa

dupa looks for duplicate files and similar directories in one tree, or reports
how one directory differs from another. This project models its algorithms in
Dafny and proves what they promise, for every input and for every order in
which hash tables, threads and ties may present things.

`dafny verify dfyconfig.toml` checks everything.

## The parts

**Similar directories.** `FileTree` describes directory trees and equivalence
classes as values, `Arenas` holds the same data in mutable fields and contains
the program's methods: parent and child links, class pointers, counters of
unevaluated children, member lists, drifting class weights. A pointer to a node
or a class is an index. The loops over hash sets pick their elements arbitrarily,
so what is proved holds for every iteration order. `Similarity` is the weighted
set distance on its own; `Propagation` is the placing of directories into
classes as a relation between states, in any order of the ready nodes, with any
choice among ties; `Worklist` and `Classification` connect it to the methods;
`TreeBuilding` grows trees and `TreeCtor` makes one of the calls of a scan.

- With a tolerance above 0 and up to 100 percent, exact duplicates are always
  found (`Propagation.ExactDuplicates`): nodes that weigh something and hold the
  same nested sets of checksums, names and weightless parts aside, end in the
  same class after any complete run, whatever the order.
- For directories that are merely similar, the result may depend on the order in
  which the scan happened to list the entries of directories, and on ties; the
  documentation leaves this open (README.md:227-229). `Traversal` says in which
  order the program places directories: those that hold only files and empty
  directories come first, in the order of the traversal, the others when their
  turn in the queue has come. `EntryOrder` looks at all orders of the entries.
  Which of the directories placed first share a class is decided by their
  distances at the start alone:
  - in every tree, the result is the same in every order if and only if all
    listings, linking each of them to the closest near one before it, link them
    alike (`Linking.OrderIrrelevantIffLinkedAlike`); a listing keeps together what
    lies below one directory, as the traversal does;
  - it is the same if being near each other (sharing a class and being within the
    tolerance) is transitive (`Linking.TransitiveIsEnough`);
  - where no directory separates them, for instance if they are all entries of one
    directory, it is the same exactly if nearness is transitive
    (`Linking.OrderIrrelevantExactlyWhen`); `OrderExample` has a tree for which
    it is not, for all tolerances above one half;
  - in other trees transitivity is not necessary: in that of `PairsExample` the
    order never matters, since it keeps pairs of directories together.
- Classes partition the tree by the kinds of nodes throughout, for any tolerance
  and any weights (`Propagation.RunKeeps`).
- For a directory that weighs something and tolerances up to 100 percent, the
  index of candidates loses nothing against comparing with all directories. The
  distance is a pseudometric, class weights are true means and are, up to 100
  percent, either zero or at least one.
- What the methods answer is also stated in the fields they read, without the
  functions that specify them: the distance over class pointers and weights, the
  percentage of every placement (`Propagation.RunIsByPercent`), what files and
  their classes weigh, and, in terms of checksums, how unique files and directories
  are and which classes are shown (`Uniqueness.FractionByCount`,
  `Interesting.InterestingExactly`).

**Task pool.** `PoolProtocol` is the mutex and the two condition variables of
`SyncThreadPool` as a transition system, with any number of workers and
submitters, `notify_one` choosing any waiter, and spurious wakeups.
`SyncThreadPools` contains the methods, each of which is one step.
`PoolLiveness` proves that no wakeup is lost, that nobody waits for ever, and
that every task has run exactly once when `Stop` returns.

**Comparing directories.** `DirCompare` contains the two loops over a doubly
indexed table; `DiffReport` says which events a report has for which paths
(`DiffReport.ReportSays`) and what they mean: replaying them over the first
directory gives the second one.

**Scanning.** `ScanDb` rebuilds a tree from a flat table of paths, `Paths` has
the common prefix, `ScanDirectory` walks a file system while a pool hashes files;
`PooledScan` lets the walk and the protocol of the pool run together, in every
interleaving of their steps: the scan ends, and only with the whole tree built.
Which tree that is, is said by a recursive filter and, without it, by the chains of
entries that lead to what is built (`ScanDirectory.WantedExactly`).

**Caches.** `HashCache` has the checksum caches by path and by inode under
concurrent calls: they change no answer, and what was answered is cached.

## Reading notes

- `double` is `real`. Adding a weight to one of the unsigned accumulators of
  `NodeDistance` truncates, as in the source.
- A class weight or a directory weight counts a class of entries once, however
  many entries belong to it (src/file_tree.cpp:71-81); README.md:204-206 speaks
  of the sum over all files.
- `tolerableDiffPct` is compared strictly (src/fuzzy_dedup.cpp:223). The option's
  description says "by this percent or less"; with zero percent not even exact
  duplicates are found, which `Propagation.DuplicatesFoundExactlyWhen` states.
- The comment at src/fuzzy_dedup.h:59-61 promises a result for an empty list of
  candidates; the code has none and its caller never passes one.
- "Weighty" nodes are files of positive weight and directories that contain one.
  Without `--use_size` every file weighs one. With it, the results about class
  weights need that files with equal checksums are both empty or both not
  (`Classification.SumsAgree`); no method requires it.
- `hide` statements only keep definitions out of single proofs to make them fast.

## Model

| member | source | states |
|---|---|---|
| Similarity.DistanceRange | src/file_tree.cpp:134-176 | The distance of two directories lies between zero and one. |
| Similarity.DistanceSymmetric | src/file_tree.cpp:134-176 | It does not depend on which directory is the first, although the code treats them differently. |
| Similarity.DistanceZero | src/file_tree.cpp:171-174 | It is zero exactly if the classes that tell the directories apart all weigh less than one. |
| Similarity.DistanceOne | src/file_tree.cpp:134-176 | For directories of positive total weight it is one exactly if they share no class that weighs at least one. |
| Similarity.DistanceTriangle | src/file_tree.cpp:134-176 | The triangle inequality, including directories that weigh nothing. |
| Similarity.DistanceValue | src/file_tree.cpp:156-175 | For any overlap it is the weight of what only one directory has over the weight of what either has, the shared weight being counted once; zero if nothing weighs. |
| Similarity.OneMoreClass | src/file_tree.cpp:156-175 | A further class of weight x on one side turns s/u into (s+x)/(u+x), on both sides into s/(u+x). |
| Arenas.Arena.NodeDistance | src/file_tree.cpp:134-176 | The pass with a map, a set and truncating accumulators computes that share, stated over the class pointers of the entries and the truncated weights of their classes. |
| Arenas.Arena.SumFirst | src/file_tree.cpp:156-165 | The first accumulating loop adds the truncated weights of all classes of the first directory, and of those the second lacks, in whatever order. |
| Arenas.Arena.SplitClasses | src/file_tree.cpp:141-154 | The map marks exactly the classes both directories have; the set holds those only the second has. |
| Arenas.Arena.GetWeight | src/file_tree.cpp:59-86 | Weight of the class once evaluated; else one for a file, or its size with `--use_size`; else the sum over the distinct classes of the entries. |
| Arenas.Arena.GetPossibleEquivalents | src/file_tree.cpp:95-109 | Yields exactly the other evaluated directories one of whose entries has the class of one of the entries, each once. |
| Arenas.Arena.GetClosestNode | src/fuzzy_dedup.cpp:184-202 | Returns a candidate of minimal distance, and that distance. |
| Arenas.Arena.ChooseClass | src/fuzzy_dedup.cpp:218-232 | The class of a closest candidate if a hundred times its distance is below the percentage, or none if that of every candidate reaches it. |
| Arenas.Arena.IsAncestorOf | src/file_tree.cpp:125-132 | Climbing parent links finds exactly the nodes in whose subtree a node lies. |
| Arenas.Arena.Traverse | src/file_tree.cpp:111-116 | Visits every node of the subtree, and no other, once: entries one after the other, and what lies below a directory before it. |
| Arenas.Arena.AddChild | src/file_tree.cpp:33-41 | Links a root below a directory outside its subtree as its last entry and counts it; the forest, the partition and all counters stay consistent. |
| TreeBuilding.WithChildUnder | src/file_tree.cpp:33-41 | After linking, exactly the nodes below the child have come to lie below the nodes above the parent. |
| Arenas.Arena.AddNode | src/file_tree.cpp:178-183 | A ready node is appended to a class, whose weight becomes the mean with what the node weighs; class pointer and the parent's counter change together and all stays consistent. |
| FileTree.AddNodeKeepsPartition | src/file_tree.cpp:178-183 | A node is in a class's list, once, exactly if its class pointer is that class; adding a node keeps that. |
| FileTree.AddNodeKeepsMeans | src/file_tree.cpp:178-183 | The updated weight is the mean of what all members weighed when they were added. |
| Propagation.RunKeepsMeans | src/fuzzy_dedup.cpp:206-244 | Class weights are true means throughout a run. |
| Classification.FileClassWeight | src/file_tree.cpp:178-183 | A class that holds a file holds only files and weighs the mean of their weights. |
| Propagation.RunIsByPercent | src/fuzzy_dedup.cpp:218-232 | Every step of a run gives a directory the class of a closest candidate that differs by less than the percentage, or a new class if every candidate differs by at least as much. |
| Propagation.NodeWeightGap | src/file_tree.cpp:59-86 | A directory about to be placed weighs nothing, or at least one if it contains a file that weighs. |
| Propagation.NewWeight | src/file_tree.cpp:178-183 | Adding a node of its kind leaves a class at zero or at one or more, according to the members. |
| Propagation.CloseMeansSameWeight | src/fuzzy_dedup.cpp:219-232 | Directories at a distance below one are both weightless or both not. |
| Propagation.StepKeepsSorts | src/fuzzy_dedup.cpp:206-244 | Placing a directory keeps the partition, evaluates no node before its entries, keeps files, empty and other directories apart, changes no assignment, and leaves no class empty, for any tolerance and any weights. |
| Propagation.RunKeeps | src/fuzzy_dedup.cpp:206-244 | All of that holds throughout any run; classes of files and of empty directories are never touched. |
| Propagation.StepKeepsSound | src/fuzzy_dedup.cpp:206-244 | Up to 100 percent, placing a directory keeps the gap in the class weights as well. |
| Propagation.RunKeepsSound | src/fuzzy_dedup.cpp:206-244 | Up to 100 percent, class weights are zero or at least one, according to every single member, throughout any run. |
| Propagation.JoinsItsLike | src/fuzzy_dedup.cpp:218-228 | A directory whose weighty entries have the classes of those of a placed directory joins that one's class, whichever closest candidate is chosen. |
| Propagation.StepKeepsAlike | src/fuzzy_dedup.cpp:206-244 | Placed directories with the same weighty entry classes always share a class. |
| Propagation.ExactDuplicates | src/fuzzy_dedup.cpp:206-244 | With a tolerance above 0 and up to 100 percent, nodes with the same content share a class after any complete run, in any order and with any choice among ties. |
| Propagation.DuplicatesFoundExactlyWhen | src/fuzzy_dedup.cpp:223 | For a tolerance of at most 100 percent, duplicate directories share a class if and only if the tolerance is positive. |
| Propagation.ZeroToleranceSeparates | src/fuzzy_dedup.cpp:223 | With a tolerance of zero or less every directory with entries has a class of its own. |
| Propagation.FilesStayBySum | src/fuzzy_dedup.cpp:139-168 | Whatever is placed later, two files share a class exactly if their checksums match, and all empty directories share one. |
| Propagation.LeftOut | src/file_tree.cpp:95-109 | A placed directory that is no candidate is at distance one, or at zero if neither directory weighs anything. |
| Propagation.IndexLosesNothing | src/file_tree.cpp:95-109 | For a directory that weighs something, the join targets found by way of the candidates are those found by comparing with every placed directory. |
| OrderMatters.CanPlace | src/fuzzy_dedup.cpp:206-244 | A run never gets stuck: every ready node can be placed. |
| OrderMatters.CanFinish | src/fuzzy_dedup.cpp:206-244 | Every run can be continued until everything is evaluated. |
| OrderMatters.NearByDistance | src/fuzzy_dedup.cpp:218-228 | Up to 100 percent, a directory that weighs something is near exactly those within the tolerance. |
| OrderMatters.NearIsFixed | src/file_tree.cpp:134-176 | Placing directories does not change which directories of leaves are near each other, nor how far they are apart. |
| OrderMatters.StepNear | src/fuzzy_dedup.cpp:184-232 | A directory of leaves that is near to a placed one joins the class of the closest one that it is near to. |
| Traversal.PostOrderContiguous | src/file_tree.cpp:111-116 | In a traversal, what lies below any one directory stands together. |
| Traversal.PostOrderInOrder | src/file_tree.cpp:111-116 | No node comes before one that lies below it, or below an earlier entry of a directory both lie in. |
| Traversal.FirstQueueInOrder | src/fuzzy_dedup.cpp:172-180 | The initial queue lists its nodes in that order. |
| Traversal.FirstQueueIsWorklist | src/fuzzy_dedup.cpp:172-180 | The initial queue holds exactly the ready and unevaluated nodes, each once, and keeps together what lies below one directory. |
| Traversal.QueueMoves | src/fuzzy_dedup.cpp:206-242 | First in first out: what was placed and what is queued is the initial queue and what was appended since, in that order. |
| EntryOrder.CanRun | src/fuzzy_dedup.cpp:206-244 | The program can run on every rooted tree whose leaves are classified. |
| EntryOrder.FirstIsListing | src/fuzzy_dedup.cpp:172-180 | Whatever the order of the entries, the program begins with all directories of leaves, those below one directory together. |
| EntryOrder.EveryListing | src/fuzzy_dedup.cpp:172-180 | Conversely, every such listing is what the program begins with for some order of the entries. |
| EntryOrder.SiblingsUnbranched | src/file_tree.cpp:111-116 | Trees whose directories of leaves are entries of one directory are of that kind. |
| Linking.RunIsLinked | src/fuzzy_dedup.cpp:206-244 | The classes of directories of leaves at the end of a run are given by links along a listing, each to a closest near one before. |
| Linking.LinkedIsRun | src/fuzzy_dedup.cpp:206-244 | Conversely, all such links along a listing are made by some run for some order of the entries. |
| Linking.OrderIrrelevantIffLinkedAlike | src/fuzzy_dedup.cpp:206-244 | In every tree, for any tolerance and any weights, all runs for all orders of the entries agree on the directories of leaves if and only if all listings link them alike, which takes only their distances at the start. |
| Linking.EndsByNearness | src/fuzzy_dedup.cpp:206-244 | If nearness is transitive among directories of leaves, two of them end in the same class exactly if they are near each other, whatever the order of the entries and the ties. |
| Linking.GrownLinks | src/fuzzy_dedup.cpp:206-244 | Directories of leaves that are listed first, each near to one before it, are all led to the same one, however different some of them are. |
| Linking.FarLinks | src/fuzzy_dedup.cpp:206-244 | The first two of a listing are not led together if they are not near each other. |
| Linking.TransitiveIsEnough | src/fuzzy_dedup.cpp:206-244 | If nearness is transitive, all runs for all orders of the entries agree on the classes of directories of leaves. |
| Linking.GrowingIsEnough | src/fuzzy_dedup.cpp:206-244 | The runs agree as well if in every listing each directory but the first is near to one before it. |
| Linking.DiffersWhen | src/fuzzy_dedup.cpp:206-244 | The order matters if one listing begins with two directories that are not near each other and another one grows along nearness to hold both. |
| Linking.OrderIrrelevantExactlyWhen | src/fuzzy_dedup.cpp:206-244 | In trees in which every directory has at most one or all of the directories of leaves below it, all runs for all orders of the entries agree on them if and only if nearness is transitive. |
| OrderExample.MattersAboveHalf | src/fuzzy_dedup.cpp:206-244 | For a tree of eight nodes with equal weights, the order matters exactly for tolerances above one half. |
| OrderExample.TwoOutcomes | src/fuzzy_dedup.cpp:206-244 | With 60 percent there are two runs over that tree, for two orders of the entries of its root, from the same classified leaves, with different outcomes. |
| PairsExample.NotNecessary | src/fuzzy_dedup.cpp:206-244 | For a tree with two pairs of directories the order never matters, although nearness is not transitive for tolerances above one half. |
| PairsExample.DuplicatesMissed | src/fuzzy_dedup.cpp:223 | In that tree two directories with the same content end in different classes at zero percent, in one class at one percent. |
| Worklist.CandidateVia | src/file_tree.cpp:95-109 | Looking up the parents of the other members of the entries' classes finds exactly the directories that share a class. |
| Worklist.CandidateByEntries | src/file_tree.cpp:95-109 | The candidates are the other placed nodes with an entry of the same class as an entry of the directory. |
| Worklist.AddNodeConsistent | src/file_tree.cpp:49-57 | Evaluating a ready node decrements its parent's counter, which was positive; every counter still counts the unevaluated children. |
| Worklist.NextWorklist | src/fuzzy_dedup.cpp:206-242 | The queue holds exactly the ready and unevaluated nodes, each once, after every iteration, and fewer nodes are left unevaluated. |
| Worklist.AllPlaced | src/fuzzy_dedup.cpp:243 | If no node is ready and unevaluated, every node is evaluated. |
| Arenas.Arena.GetNodesReadyToEval | src/fuzzy_dedup.cpp:172-180 | The initial queue: the ready and unevaluated nodes in the order of the traversal. |
| Arenas.Arena.Place | src/fuzzy_dedup.cpp:210-232 | One iteration of the loop is one placement of the relation. |
| Arenas.Arena.PropagateEquivalence | src/fuzzy_dedup.cpp:206-244 | The loop terminates with every node evaluated, and its effect is a run of the relation, by the percentage given, in the order of the queue: first the nodes ready at the start in the order of the traversal, then each parent when it became ready. |
| Arenas.Arena.Construct | src/fuzzy_dedup.cpp:101-124 | A call of the scan adds one node, linked below its parent's, and a file to the multimap. |
| Arenas.Arena.BuildTree | src/fuzzy_dedup.cpp:101-136 | The calls of a scan give a tree with one node for each, rooted at the first, entries in the order of the calls, and an exact multimap from checksums to files: what the analysis asks for. |
| TreeCtor.MirrorsRooted | src/fuzzy_dedup.cpp:101-124 | Every node lies below the root. |
| TreeCtor.IndexesFile | src/fuzzy_dedup.cpp:103-108 | Inserting a new file keeps the multimap exact. |
| Arenas.Arena.DedupScan | src/fuzzy_dedup.cpp:37-73 | From the calls of any scan, of none if nothing was found, the analysis runs to the end; percentage, class weights and fractions as for FuzzyDedup. |
| Arenas.Arena.ClassifyDuplicateFiles | src/fuzzy_dedup.cpp:151-168 | Files get classes by checksum, no class is empty, nothing else is evaluated. |
| Arenas.Arena.ClassifyEmptyDirs | src/fuzzy_dedup.cpp:139-147 | All empty directories share one class, which stays empty if there are none. |
| Classification.AddLeafKeeps | src/fuzzy_dedup.cpp:139-168 | Adding a leaf to the class of the leaves like it keeps files sorted by checksum and empty directories together. |
| Arenas.Arena.FuzzyDedup | src/fuzzy_dedup.cpp:37-73 | The whole analysis: everything evaluated by the percentage given; no class empty, files by checksum, empty directories together, the sorts of nodes apart, for any tolerance and any weights; every class of files of weight one or, with sizes, of the mean size; every fraction set and, told by checksums, right, that of the root being one if anything weighs; duplicates together for a tolerance from 1 to 100 percent; directories of leaves by nearness if that is transitive. |
| Arenas.Arena.ClassesOfFilesWeigh | src/file_tree.cpp:64-70 | Without sizes every class that holds a file weighs one; with them its weight times the number of its members is the sum of their sizes. |
| Uniqueness.FractionMeaning | src/fuzzy_dedup.cpp:274-302 | The fraction lies between zero and one; it is one exactly if no file below that weighs has a duplicate outside, and zero exactly if all have. |
| Uniqueness.FileFraction | src/fuzzy_dedup.cpp:277-279 | The fraction of a file is one if no other file has its checksum, else zero. |
| Uniqueness.FractionValue | src/fuzzy_dedup.cpp:287-298 | That of a directory, times the weight of the files below, is the weight of those whose checksums occur nowhere else; zero if the files weigh nothing. |
| Uniqueness.FractionByCount | src/fuzzy_dedup.cpp:287-298 | Where every file weighs one, both weights are numbers of files. |
| Uniqueness.RootIsUnique | src/fuzzy_dedup.cpp:274-302 | At the root it is one, or zero if no file weighs anything. |
| Uniqueness.UniqueWeightGrows | src/fuzzy_dedup.cpp:274-302 | The files of a directory weigh what those of its entries weigh together, its unique files at least as much as theirs. |
| Arenas.Arena.CalculateUniqueness | src/fuzzy_dedup.cpp:274-302 | Sets the fraction of every node below, of no other, and returns the files below, each once. |
| Arenas.Arena.HasDuplicateElsewhere | src/fuzzy_dedup.cpp:260-270 | True exactly if the class has a member outside of the given set. |
| Arenas.Arena.GetInterestingEqClasses | src/fuzzy_dedup.cpp:75-95 | Returns each once exactly the classes with two members, one of which has no parent or a parent that is alone in its class; all others are suppressed. |
| Interesting.InterestingExactly | src/fuzzy_dedup.cpp:75-95 | What is found by counting members, told by class pointers alone, in both directions. |
| Interesting.NothingHidden | src/fuzzy_dedup.cpp:75-95 | Every node with a duplicate has an ancestor, or is itself a node, whose class is returned. |
| PoolProtocol.StepKeepsInv | src/synch_thread_pool.cpp:33-81 | Every step keeps: queue length as counted and at most one above the number of threads, first in first out, no lost wakeup, closing only with an empty queue, no task lost. |
| PoolProtocol.SubmitKeepsInv | src/synch_thread_pool.cpp:46-54 | The same for Submit, whose assertions that the pool is not closing hold. |
| PoolProtocol.WorkerKeepsInv | src/synch_thread_pool.cpp:62-81 | The same for one round of a worker. |
| PoolProtocol.StopKeepsInv | src/synch_thread_pool.cpp:33-40 | The same for Stop, which closes the pool only once its queue is empty. |
| SyncThreadPools.SyncThreadPool.Submit | src/synch_thread_pool.cpp:46-54 | The critical section is one step of the protocol and keeps its invariant: the task goes to the end of the queue unless more tasks than threads are in it, in which case the caller waits. |
| SyncThreadPools.SyncThreadPool.ThreadLoop | src/synch_thread_pool.cpp:62-81 | The critical section of a worker is one step of the protocol and keeps its invariant: it ends if the pool is closing, waits if the queue is empty, else takes the first task. |
| SyncThreadPools.SyncThreadPool.Stop | src/synch_thread_pool.cpp:33-40 | The critical section of Stop is one step of the protocol and keeps its invariant: it closes the pool exactly if the queue is empty, else waits. |
| PoolLiveness.NoDeadlock | src/synch_thread_pool.cpp:33-81 | In every state that satisfies the invariant, unless Stop has returned, some thread can go on without a spurious wakeup. |
| PoolLiveness.StepDecreases | src/synch_thread_pool.cpp:33-81 | Every step that is not a spurious wakeup decreases a natural number. |
| PoolLiveness.RunInvariant | src/synch_thread_pool.cpp:33-81 | Throughout every run the invariant holds, no task is lost or invented, and the number of steps is bounded by the initial measure and the number of spurious wakeups. |
| PoolLiveness.StopMeansDone | src/synch_thread_pool.h:49-51 | When Stop has returned, every task has been completed exactly as often as it was to be submitted, and tasks were started in queue order. |
| PoolLiveness.RunsEnd | src/synch_thread_pool.cpp:33-81 | A run that cannot be continued has returned from Stop and completed every task. |
| DirCompare.PathHashes.Insert | src/dir_compare.cpp:127-141 | Both indices keep holding the same files; a path that is already there is left alone. |
| DirCompare.PathHashes.GetPathsForHash | src/dir_compare.cpp:170-176 | Yields exactly the paths with the checksum, each once. |
| DirCompare.CompareOld | src/dir_compare.cpp:190-218 | The event, or none, for a path of the first directory: changed, overwritten, removed or renamed according to both directories. |
| DirCompare.CompareNew | src/dir_compare.cpp:219-246 | The event, or none, for a path only the second directory has: new, or copied from all files with its content that are still there. |
| DirCompare.Compare | src/dir_compare.cpp:178-246 | The events emitted by the two loops are a report: one right event for every path that is not silent, no two about the same path. |
| DiffReport.ReportSays | src/dir_compare.cpp:190-246 | Of any report, in terms of the two directories alone: exactly which paths have an event, that they have one only, of which of the six kinds it is, and that it names exactly all candidates, each once. |
| DiffReport.EventReachesGoal | src/dir_compare.cpp:190-246 | Every event brings all paths it touches to their state in the second directory, whatever was there before, so no two events are in conflict. |
| DiffReport.SilentIsRenamed | src/dir_compare.cpp:232-241 | A new path for which the second loop emits nothing is a candidate of a rename that the first loop emits. |
| DiffReport.ReplayReconstructs | src/dir_compare.cpp:178-246 | With renames reported, replaying the report over the first directory gives the paths of the second and its checksum on every path whose content the first has. |
| DiffReport.UnknownMeansUnseen | src/dir_compare.cpp:201-203 | The remaining paths are exactly those reported as changed or new. |
| DiffReport.NewPathsAreReported | src/dir_compare.cpp:219-246 | Every path only the second directory has is reported as new, as a copy, or as what something was renamed to. |
| DiffReport.EmptyReport | src/dir_compare.cpp:178-246 | The report is empty exactly if the directories are equal. |
| DiffReport.RenameIsLost | src/dir_compare.cpp:208-212 | With renames skipped, nothing is reported for directories that differ by one renamed file, and replaying nothing does not give the second one. |
| DiffReport.RenameIsFound | src/dir_compare.cpp:204-212 | Otherwise the one rename is reported, and replaying it gives the second directory. |
| DiffReport.SkippingRenames | src/dir_compare.cpp:208-212 | With renames skipped, the report still reconstructs the second directory exactly if no path that is gone has its content anywhere in it. |
| Paths.CommonPathPrefix | src/scanner.cpp:28-35 | The loop computes the greatest common prefix: a path is a prefix of it exactly if it is a prefix of both. |
| Paths.CommonPrefixGreatest | src/scanner.cpp:28-35 | The same of the recursive definition. |
| Paths.CommonPrefixLaws | src/scanner.cpp:28-35 | Idempotent, commutative and associative, so that folding it does not depend on the order. |
| ScanDb.CommonRoot | src/scanner_int.h:126-131 | The fold over the table gives the greatest common prefix of all parent directories, in any order. |
| ScanDb.MakeDirs | src/scanner_int.h:141-160 | Walking down to a directory creates each missing directory once, below its parent; the memo stays exact; skipping the prefix never passes the end. |
| ScanDb.Scan | src/scanner_int.h:117-163 | The calls build a tree with exactly the directories needed below the common prefix, each once and after its parent, and with exactly the files of the table, each once and at its path, so that the table can be read back. |
| ScanDb.DirsOfTable | src/scanner_int.h:126-161 | In terms of the table alone: the root is the lowest directory above all files, and a directory is created exactly if it lies at or below the root and above some file. |
| ScanDb.OrderDoesNotMatter | src/scanner_int.h:117-163 | Any two outcomes for a table have the same root and the same directories. |
| ScanDirectory.JobDone | src/scanner_int.h:90-96 | A pooled task that ends passes on its file unless hashing failed or the checksum is zero; what is built and what is owed stay in balance. |
| ScanDirectory.VisitKeeps | src/scanner_int.h:79-105 | An entry goes on the stack, to the pool, or is skipped; the balance is kept. |
| ScanDirectory.OpenKeeps | src/scanner_int.h:60-78 | A directory that cannot be listed is skipped, any other is created below its parent; the balance is kept. |
| ScanDirectory.Walk | src/scanner_int.h:45-115 | Whenever the pooled tasks run, the tree built on return is the filtered one: an item is built exactly if some entry contributes it that is reached through directories that can be listed and past no lost entry, and once if names are unique; an iterator that fails midway only ends the listing of its directory. |
| ScanDirectory.WantedOfFolder | src/scanner_int.h:62-105 | What is asked for of a directory includes itself and all that its entries before a lost one ask for; nothing is asked for of one that cannot be listed or whose first entry is lost. |
| ScanDirectory.WantedExactly | src/scanner_int.h:62-105 | The recursive filter asks for an item exactly if a chain of entries, none lost nor behind a lost one, leads through listable directories to a directory or to a file with a checksum other than zero. |
| ScanDirectory.WantedOnce | src/scanner_int.h:45-115 | With unique names in every directory, no item is built twice. |
| PooledScan.ScanStepKeeps | src/scanner_int.h:45-115 | Every step of the walk or of the pool keeps the balance, and keeps both in agreement on what is submitted; no task returns before its file is passed on. |
| PooledScan.ScanBuildsTree | src/scanner_int.h:45-115 | When the pool has been stopped, exactly the filtered tree is built, in the same terms as for Walk, whatever the interleaving: all File calls come before the scan returns. |
| PooledScan.ScanGoesOn | src/scanner_int.h:45-115 | The walk, which waits for room in the queue, and the pool never block each other. |
| PooledScan.ScanEnds | src/scanner_int.h:45-115 | The number of steps is bounded by an initial measure and the number of spurious wakeups, and a run that cannot be continued has built the whole tree. |
| HashCache.HashBytes | src/hash_cache.cpp:112-134 | Feeding the hash function pieces of any size gives the checksum of the whole content, zero for none; a read that fails fails the whole. |
| HashCache.CacheStepKeeps | src/hash_cache.cpp:57-69 | Under any interleaving both caches and all calls in progress hold right checksums only, and a failing read leaves the caches alone. |
| HashCache.CachesAreTransparent | src/hash_cache.cpp:228-258 | From entries of which those with the size and the modification time of their file have its checksum, on an unchanging file system, every call that returns gives size, time and checksum of the file, zero for an empty one, or nothing if it cannot be opened; the entries left are as good, and every answer is among them. |
| HashCache.TrustworthyExactly | src/hash_cache.cpp:237-246 | The entries a lookup may use are right exactly if those with the size and the modification time of their file have the checksum of its bytes. |
| HashCache.CacheStepStores | src/hash_cache.cpp:57-69 | Answers stay in the cache by path, and checksums that calls know in the cache by inode, whatever other calls do. |
| HashCache.CachesAreUsed | src/hash_cache.cpp:228-258 | After a call for a path was answered, the first lookup of another gives the same answer; while a call knows the checksum of an inode, no lookup leads to reading that inode. |

## Left out

- The database wrappers and dumps, printing, logging, option parsing and `main`: foreign calls and thin iterators.
- SHA-1, `open`, `fstat` and `read`: a file system that does not change and an arbitrary function of the content that can be computed piece by piece.
- Boost path syntax: a path is a sequence of components; the internals of the multi-index container: two maps that agree.
- The order in which the comparison visits paths (sorted in the source) is left open, so the order of the events is not modelled.
- Floating-point rounding and overflow of 64-bit integers.
- `SortEqClasses`: a library sort by weight.
- `SyncCounter`: nothing uses it.
- Destructors and object lifetime; `Stop` is called once.
- The processor that fills the tables of the directory comparison, which starts from filled tables, and the names of nodes.
- Propagation.ExactDuplicates: does not cover directories without any file that weighs something, because all of them are at distance zero and ties may separate them.
- Linking.OrderIrrelevantIffLinkedAlike: speaks of the directories that hold only files and empty directories; how those above them compare depends on class weights that drift during the run.
- PoolProtocol.StepKeepsInv: does not cover calls of `Submit` that overlap `Stop`, which the header forbids.
