# p4est3 forests: a verified model

p4est3 keeps forests of adaptive quadtrees and octrees. The leaves of all trees form one
sequence in Morton order that is cut into one piece per MPI rank. This project models the
algorithms that rewrite, traverse and redistribute that sequence and proves that they do
what they are for. The results cover every input and every number of ranks; where the code
fails on some inputs, the exact condition is part of the result (see the list below). Where
the dimension does not matter, a quadrant has any number c >= 2 of children; partition for
coarsening by messages needs c > 2, which every forest has.

A quadrant is named by the child ids on its way down from the root (`Quadrants`). Ancestors
are prefixes, positions on the space-filling curve are canonical paths, and "complete" means
that every quadrant begins where the one before it ends. `Morton` turns paths into linear
ids and intervals. Coordinates appear where faces and packed words are concerned.

| Files | Part of the repository |
|---|---|
| `Quadrants`, `Trees`, `Morton`, `MinMax` | shared base: quadrants, gap-free sequences, families, linear ids, a tree's leaf array with its level counters |
| `Coarsen`, `Refine`, `Adapt` | in-place adaptation of p4est, what it means, and that one undoes the other |
| `Completion`, `Region` | filling a tree around given quadrants, filling the gap between two quadrants |
| `TwoPass` | refinement and coarsening of p4est3 in two passes |
| `Subtrees`, `SplitCache` | complete subtrees inside the leaf array, the cache of their splits |
| `Faces`, `FacePairs`, `Iterate`, `Reports`, `FaceGeometry` | the iterator over volumes and faces of a tree |
| `TreeOffsets` | the exchange of leaf counts per tree |
| `PartitionSearch` | the search for a window of ranks |
| `FamilyCuts`, `FamilyMessages`, `FamilyCorrection`, `PartitionForCoarsening`, `FamilyScan` | partition for coarsening, by messages (p4est) and by shared memory (p4est3) |
| `PartitionGiven`, `WeightedPartition` | moving leaves to a new partition, new boundaries from weights |
| `BufferCarousel` | reference-counted buffers that successive forests hand on |
| `Populate` | the five ways to fill a uniform forest |
| `Bits`, `MortonWords`, `MortonOperations`, `MortonFaces`, `PackedQuadrants` | quadrants packed into 64-bit words |
| `ContextSort`, `MirrorSort` | sorting the mirrors of a ghost layer |

Where the source works in place, the model does: leaf arrays, counters, work lists, cursors,
stacks, caches and reference counts are fields and arrays that methods change, and each such
method is tied to a specification on values. Distributed steps are modelled with all ranks in
one global state: what a rank knows is a hypothesis about the global sequence of leaves, what
it sends is an output, and lemmas join the plans of two ranks.

Properties that the code does not have are stated with the exact condition under which they
hold:

- the iterator leaves the rows of its stacks when a rank owns a leaf on the maximum level, or a
  leaf with a face neighbour on it (`Iterate.SearchArea.IterateTree`, `Reports.OverrunIff`,
  `Reports.SpineOverruns`);
- the family array of the coarsening callback is the family unless an unfinished run of
  siblings stands before it (`TwoPass.FamilyArrayIff`, `TwoPass.MixedFamilyArray`);
- the window of sending ranks begins before rank 0 when the cut is near the first leaf and the
  window does not reach the last one (`FamilyMessages.SenderWindow`,
  `FamilyMessages.WindowBeforeFirst`);
- the scan for families in shared memory is misled by leaves of other trees: a corrected cut
  still splits a family exactly when it did so before and such a leaf with the same parent
  quadrant lies in the window, and the cuts of two ranks can change places
  (`FamilyScan.CorrectedIff`, `FamilyScan.CorrectOffsets`, `FamilyScan.ForeignMisleads`,
  `FamilyScan.ForeignMixesOrder`); its lookup fails when a rank is to begin behind the last leaf
  (`FamilyScan.CorrectOffsets`, `WeightedPartition.BorderBehindAll`);
- the weighted partition in shared memory writes no offset at all when no leaf has weight, and
  only then, yet its array becomes the new offsets (`WeightedPartition.OneWriterIff`,
  `WeightedPartition.NewOffsets`);
- the first boundary and the debug check of the weighted partition in shared memory
  (`WeightedPartition.FirstBoundaryIff`, `WeightedPartition.FirstLeafLeftOut`,
  `WeightedPartition.BorderIsLocalIff`, `WeightedPartition.BorderPastLastLeaf`);
- the assertion that a forest is alone on the spin buffer it passes on
  (`BufferCarousel.Carousel.Share`, `BufferCarousel.SpinOfLiveSource`);
- filling a forest by regions fails on level 0 and only there (`Populate.SetupQuadrants`);
- the region below an ancestor (`Region.RegionIsLinearIff`) and the debug check of the packed
  successor (`MortonOperations.SuccessorIff`).

## Model

| member | source | states |
|---|---|---|
| `Quadrants.ChildIdsMakeFamily` | src/p4est.c:1019-1029 | in a complete tree, c consecutive child ids 0 to c-1 can only be a family |
| `Quadrants.LinearIsSorted` | src/p4est_algorithms.c:338-359 | the leaves of a gap-free sequence are strictly sorted and disjoint |
| `Quadrants.NearestCommonAncestorIsDeepest` | src/p4est_algorithms.c:1414-1416 | every common ancestor of two quadrants is an ancestor of the nearest one |
| `Trees.Tree.ComputeMaxLevel` | src/p4est.c:1090-1102 | the recorded maximum level is the level of some leaf and bounds all |
| `Coarsen.Coarsen` | src/p4est.c:971-1116 | terminates; the result is gap-free over the same region, covers every input leaf, has right counters and maximum level; recursive: no accepted family is left and the leaves are exactly the largest quadrants that can be built; not recursive: one sweep |
| `Coarsen.ReadFamily` | src/p4est.c:1003-1024 | reading the window around the hole by child ids decides whether the c logical members are a family |
| `Coarsen.MergeFamily` | src/p4est.c:1024-1053 | parent in the first slot and a longer hole are the logical sequence with the family replaced; level counters follow |
| `Coarsen.SlideHole` | src/p4est.c:1059-1067 | moving one member across the hole changes no logical member |
| `Coarsen.CloseHole` | src/p4est.c:1071-1079 | closing the hole leaves exactly the logical members |
| `Coarsen.OnlyOneNewWindow` | src/p4est.c:1043-1057 | after a replacement only the window in which the parent stands at its own child id can be a new family, so stepping back that far is enough |
| `Coarsen.FixedPointIsLargest` | src/p4est.c:993-1110 | a gap-free result of buildable quadrants without an accepted family consists exactly of the largest buildable quadrants, hence is unique |
| `Coarsen.BuildableHidesFamily` | src/p4est.c:993-1110 | as long as a buildable quadrant is missing, some window still holds an accepted family |
| `Coarsen.OnceExactly` | src/p4est.c:1055-1068 | one sweep keeps the leaves outside accepted families and replaces exactly those families by their parents |
| `Refine.Refine` | src/p4est.c:762-898 | the array ends as the expansion of every input leaf, recursive or one level deep (what that means leaf by leaf is in `Adapt`), with right counters and maximum level; cursors and look-ahead never lose an unread member |
| `Refine.CountUnrefined` | src/p4est.c:762-777 | the prefix before the first quadrant to refine stays, and is counted |
| `Refine.ReadAhead` | src/p4est.c:870-882 | at most the look-ahead bound of members is read, in order, before their slots are written |
| `Refine.Store` | src/p4est.c:884-889 | writing one finished quadrant extends counters and maximum level |
| `Refine.SplitStep` | src/p4est.c:798-850 | replacing the head of the work list by its children keeps prefix, list and unread suffix equal to the answer |
| `Refine.WriteStep` | src/p4est.c:884-889 | writing the head keeps that meaning and overwrites no unread member |
| `Refine.MeaningRoom` | src/p4est.c:788-804 | an unwritten slot of the answer is left for every entry of list and suffix |
| `Adapt.ExpandAllLeaves` | src/p4est.c:794-905 | the leaves after refinement are exactly the ends of splitting chains that start at old leaves |
| `Adapt.RefinedOnce` | src/p4est.c:798-801 | not recursive: the leaves after refinement are the old leaves that are not to be refined and the children of those that are, and no others |
| `Adapt.RefinedAllTheWay` | src/p4est.c:798-801 | recursive: a quadrant is a leaf exactly when it is not to be refined itself and everything from an old leaf down to its parent is |
| `Adapt.RefinedTiles` | src/p4est.c:762-912 | refinement fills the same part of the tree without gap or overlap |
| `Adapt.CoarseningUndoesRefinement` | src/p4est.c:935-1116 | coarsening that accepts exactly the families at or below the old leaves restores the tree before refinement |
| `Completion.Complete` | src/p4est_algorithms.c:1948-2088 | terminates and appends a sorted tiling of dom with every listed quadrant as a leaf, each member forced |
| `Completion.FillUntil` | src/p4est_algorithms.c:1996-2032 | one stretch up to the next listed quadrant keeps what is written a forced, gap-free prefix |
| `Completion.Advance` | src/p4est_algorithms.c:2009-2023 | climbing past last siblings reaches the quadrant that begins where the last one ended, or dom when nothing is left |
| `Completion.DescendStaysBefore` | src/p4est_algorithms.c:2077-2087 | the largest first descendant before the next listed quadrant starts where tempq starts and does not hold that quadrant |
| `Completion.ReachedListed` | src/p4est_algorithms.c:2038-2051 | a listed quadrant that starts where tempq starts becomes the next member |
| `Completion.ForcedIsCoarsest` | src/p4est_algorithms.c:1948-2088 | every other completion refines this one |
| `Region.CompleteRegion` | src/p4est_algorithms.c:1348-1514 | terminates with the quadrants between a and b and right counters; a is a member, the first one, exactly when it is asked for, and b, the last one, likewise |
| `Region.RegionTiles` | src/p4est_algorithms.c:1348-1514 | from a to b there is no gap and no overlap |
| `Region.RegionBelowAncestor` | src/p4est_algorithms.c:1402-1492 | when a is an ancestor of b, the quadrants found fill a up to b without gap or overlap |
| `Region.RegionIsMaximal` | src/p4est_algorithms.c:1444-1492 | no interior quadrant could be larger: its parent holds a or b |
| `Region.RegionIsLinearIff` | src/p4est_algorithms.c:1402-1404 | with both ends the result is gap-free exactly when a is not an ancestor of b |
| `TwoPass.CounterIsMeaningful` | src/p4est3_refine.c:137-190 | although it is not reset on a mismatch, the sibling counter knows the length of a current run of unrefined siblings |
| `TwoPass.AskedExactlyForFamilies` | src/p4est3_refine.c:195-258 | the coarsen callback is asked exactly at the last leaf of each complete local family without a refined member |
| `TwoPass.CounterIsOpenRun` | src/p4est3_refine.c:137-190 | between leaves the counter is above zero exactly when such a run has been left unfinished |
| `TwoPass.FamilyArrayIff` | src/p4est3_refine.c:150-154 | the array handed to the callback is the family exactly when the leaves before it do not end with an unfinished run of unrefined siblings or an unrefined root |
| `TwoPass.FamilyArrayEntries` | src/p4est3_refine.c:223-229 | entry t of that array is in any case an unrefined leaf with child id t: the member itself from the counter on, an older leaf below it |
| `TwoPass.MixedFamilyArray` | src/p4est3_refine.c:150-154 | child ids 0,(0,1,2,3) give a mixed array |
| `TwoPass.CallbackData.Visit` | src/p4est3_refine.c:195-258 | after each leaf, counter, family array, pattern and number of new leaves are those of the visited prefix |
| `TwoPass.FirstPass` | src/p4est3_refine.c:363-377 | visiting all leaves gives the pattern of all leaves |
| `TwoPass.FirstPassIsSound` | src/p4est3_refine.c:94-262 | value 1 lands only on first leaves of families, with zeros for the other members |
| `TwoPass.PopulateTree` | src/p4est3_refine.c:266-309 | one tree's part of the new array is written as the pattern says and stays in its tree |
| `TwoPass.SecondPass` | src/p4est3_refine.c:266-309 | the new array is the pattern applied to all leaves |
| `TwoPass.ApplyCounts` | src/p4est3_refine.c:266-309 | the second pass writes as many leaves as the first pass counted |
| `TwoPass.ApplyFills` | src/p4est3_refine.c:266-309 | the new leaves fill the same part of the forest |
| `TwoPass.TakenIsMerged` | src/p4est3_refine.c:230-250 | a family is marked exactly when none of its members is refined and the callback agrees to the array it is shown |
| `TwoPass.ApplyMembers` | src/p4est3_refine.c:266-309 | what the second pass writes for a pattern, leaf by leaf |
| `TwoPass.AllNewLeaves` | src/p4est3_refine.c:195-309 | the new leaves of the first pass's pattern are exactly what the callbacks make of the old ones |
| `TwoPass.RefineCoarsen` | src/p4est3_refine.c:330-470 | both passes together: a leaf below the maximum level that the refine callback takes becomes its children; a local family without such a member becomes its parent exactly when the coarsen callback says yes, asked with the family unless an unfinished run stands before it; every other leaf stays and there is nothing else |
| `Subtrees.CompleteSequenceIsATree` | src/p4est_algorithms.c:338-359 | every sequence that fills a tree is the leaf sequence of exactly one complete tree structure |
| `Subtrees.LeavesDetermineTree` | src/p4est3_iterate.c:1404-1492 | leaf sequences of complete subtrees are self-delimiting |
| `Subtrees.SameStartSameSubtree` | src/p4est3_iterate.c:1404-1492 | level and first index determine the subtree and so the end of its range |
| `Subtrees.SplitOfSubtree` | src/p4est3_search.c:197-250 | splitting a complete subtree by ancestor id gives the offsets of its children |
| `Subtrees.CLeavesAreAFamily` | src/p4est3_iterate.c:1416-1426 | a subtree that is not a leaf and has c leaves is one family, so the fast path 0..c is right |
| `SplitCache.Lookup` | src/p4est3_iterate.c:131-142 | a hit has the wanted key, a miss means that no slot has it |
| `SplitCache.Insert` | src/p4est3_iterate.c:144-151 | exactly the next slot is overwritten |
| `SplitCache.Cache.Split` | src/p4est3_iterate.c:1408-1492 | through all hits, insertions and evictions the answer is that of a fresh split |
| `Faces.FaceCornersAreTheSide` | src/p4est3_connectivity.c:378-395 | the corners of a face are exactly the children on that side |
| `Faces.InnerFaceFacts` | src/p4est3_iterate.c:157-192 | every table entry is a child in the lower half and its neighbour one step up the axis |
| `Faces.InnerFaceExists` | src/p4est3_iterate.c:184-192 | every inner face of a quadrant is in the tables |
| `Faces.InnerFaceInjective` | src/p4est3_iterate.c:184-192 | and only once |
| `FacePairs.PairsExactly` | src/p4est3_iterate.c:657-815 | the two-sided recursion meets exactly the pairs of leaves that touch across the face |
| `FacePairs.InnerExactly` | src/p4est3_iterate.c:852-876 | the faces inside a quadrant are exactly the adjacent pairs in different children |
| `FacePairs.VisitExactly` | src/p4est3_iterate.c:1084-1295 | the traversal meets exactly the leaves and the pairs of face-adjacent leaves below a quadrant |
| `FacePairs.VisitOnce` | src/p4est3_iterate.c:1084-1295 | and each of them once |
| `FaceGeometry.TouchInCoordinates` | src/p4est3_iterate.c:657-813 | touching across the face of two neighbours is touching in coordinates |
| `FaceGeometry.AdjacentInCoordinates` | src/p4est3_iterate.c:1084-1295 | the adjacency reported is the geometric one: one ends where the other begins and they overlap along all other axes |
| `Iterate.SearchArea.constructor` | src/p4est3_iterate.c:324-440 | an empty cache, no calls, no row used that the stacks do not have |
| `Iterate.SearchArea.Examine` | src/p4est3_iterate.c:706-751 | a side is to be refined exactly when its subtree is not a leaf; a leaf is recorded with its ghost flag |
| `Iterate.SearchArea.PushSplit` | src/p4est3_iterate.c:762-783 | the top row of a side's stack holds the child boundaries of its subtree; an overrun is noted exactly when the subtree is one level above the maximum |
| `Iterate.SearchArea.PushSplits` | src/p4est3_iterate.c:762-783 | after both pushes every side is ready for its corners |
| `Iterate.SearchArea.SplitFace` | src/p4est3_iterate.c:762-812 | pushes and corners together report the calls below the face |
| `Iterate.SearchArea.EnterChildren` | src/p4est3_iterate.c:785-801 | each split side moves to its child at the corner, a leaf side stays |
| `Iterate.SearchArea.IterateFace` | src/p4est3_iterate.c:657-815 | the mutable face machine reports exactly the calls of the structural recursion, in its order, and restores levels and stacks |
| `Iterate.SearchArea.IterateCorners` | src/p4est3_iterate.c:784-812 | the same for the loop over the corners |
| `Iterate.SearchArea.IterateCorner` | src/p4est3_iterate.c:785-811 | and for one corner |
| `Iterate.SearchArea.LeaveChildren` | src/p4est3_iterate.c:803-811 | after a corner the split sides are ready for the next one, after the last one levels and stacks are restored |
| `Iterate.SearchArea.StartInnerFace` | src/p4est3_iterate.c:817-850 | both sides are positioned at the two children of an inner face |
| `Iterate.SearchArea.IterateFaceInner` | src/p4est3_iterate.c:852-876 | all inner faces of a quadrant are reported |
| `Iterate.SearchArea.IterateInnerFace` | src/p4est3_iterate.c:865-875 | one inner face makes the calls of the two children that share it |
| `Iterate.SearchArea.Descend` | src/p4est3_iterate.c:1269-1293 | a new frame stands for the split subtree; an overrun is noted exactly when it is one level above the maximum |
| `Iterate.SearchArea.VisitChild` | src/p4est3_iterate.c:1202-1293 | calls made and calls owed stay together the same, and less work is left |
| `Iterate.SearchArea.Finish` | src/p4est3_iterate.c:1183-1200 | the same when a frame is closed |
| `Iterate.SearchArea.IterateTree` | src/p4est3_iterate.c:1084-1295 | the explicit-stack traversal reports exactly the calls of the structural specification, and leaves the rows of the stacks exactly when one of them names a leaf on the maximum level |
| `Iterate.RemotePairs` | src/p4est3_iterate.c:693-704 | returning early when both sides are remote loses no call |
| `Iterate.RemoteVisit` | src/p4est3_iterate.c:1212-1217 | skipping a remote subtree loses no call |
| `Iterate.SplitAboveNamed` | src/p4est3_iterate.c:753-783 | a side split one level above the maximum has a leaf there that is local or is reported with the other side |
| `Reports.LeafReported` | src/p4est3_iterate.c:1253-1267 | a leaf is reported exactly to the rank that owns it |
| `Reports.FaceReported` | src/p4est3_iterate.c:693-761 | a pair of leaves is reported exactly when they are face-adjacent and one is local, with the ghost flag exactly on the side that is not |
| `Reports.NothingElse` | src/p4est3_iterate.c:1084-1295 | every call is one of these |
| `Reports.TreeCallsOnce` | src/p4est3_iterate.c:1084-1295 | no call is made twice |
| `Reports.OverrunIff` | src/p4est3_iterate.c:372-436 | such a call is made exactly when the rank owns a leaf on the maximum level or a face neighbour of one |
| `Reports.SomeRankOverrunsIff` | src/p4est3_iterate.c:372-436 | over all ranks: one overruns exactly when the tree has a leaf on the maximum level |
| `Reports.SpineOverruns` | src/p4est3_iterate.c:1269-1285 | for every maximum level, a tree on one rank that does |
| `TreeOffsets.PlanReceive` | src/p4est3_internal_mpi.c:750-790 | the rank found is the one that sends to this rank, or none if nobody does |
| `TreeOffsets.PlanSend` | src/p4est3_internal_mpi.c:792-851 | the rank found is the one this rank must send to, with the number of leaves of that tree beyond it |
| `TreeOffsets.MessagesMatch` | src/p4est3_internal_mpi.c:750-851 | rank s sends to p exactly when p waits for s |
| `TreeOffsets.LastTreeSize` | src/p4est3_internal_mpi.c:862-873 | own count and message add up to the size of the tree |
| `TreeOffsets.Contribute` | src/p4est3_internal_mpi.c:854-873 | a rank writes the right size for every tree whose first leaf it owns and no other slot |
| `TreeOffsets.OwnedTrees` | src/p4est3_internal_mpi.c:745-749 | which trees a rank answers for |
| `TreeOffsets.WriteShares` | src/p4est3_internal_mpi.c:854-873 | after all ranks wrote, in any order, every slot is right |
| `TreeOffsets.PrefixSums` | src/p4est3_internal_mpi.c:887-892 | the prefix sum turns sizes into numbers of leaves before each tree |
| `TreeOffsets.Exchange` | src/p4est3_internal_mpi.c:726-897 | for every pattern of empty ranks, slot t ends as the number of leaves in trees before t |
| `FamilyCuts.KinContiguous` | src/p4est.c:2996-3049 | siblings less than c leaves apart have nothing but siblings between them |
| `FamilyCuts.FamilyIff` | src/p4est_algorithms.c:2753-2756 | c leaves are a family exactly when the first and the last are siblings |
| `FamilyMessages.FindTree` | src/p4est.c:2966-2982 | the local tree of a leaf and its range |
| `FamilyMessages.Send` | src/p4est.c:2949-3100 | a message names tree and parent of the leaf nearest to the cut and counts its siblings before and after |
| `FamilyMessages.PartBefore` | src/p4est.c:3293-3299 | the number of a rank before the cut is its part of the run of siblings |
| `FamilyMessages.PartAfter` | src/p4est.c:3300-3304 | the same for a rank after the cut |
| `FamilyMessages.PartAtCut` | src/p4est.c:3055-3064 | quotient and remainder of the packed number are the parts before and after |
| `FamilyMessages.PartsCover` | src/p4est.c:2853-2894 | the parts of the ranks that send add up to the whole run |
| `PartitionSearch.FindPartition` | src/p4est_search.c:42-92 | the first entries not below either end of the window |
| `FamilyMessages.SendWindow` | src/p4est.c:2829-2889 | the window found and adjusted by index holds every rank that this one has to send to |
| `FamilyMessages.FindReceivers` | src/p4est.c:2829-2943 | messages go exactly to the ranks whose cut is near a leaf of this rank |
| `FamilyMessages.SenderWindow` | src/p4est.c:3106-3156 | where the window of sending ranks lies; it begins before rank 0 exactly when the cut is below c - 1 and the window ends inside the forest |
| `FamilyMessages.WindowBeforeFirst` | src/p4est.c:3125-3138 | a cut for which it does |
| `FamilyMessages.ReceiveWindow` | src/p4est.c:3106-3189 | the adjusted window, growing over empty ranks, holds exactly the ranks with leaves near the cut, and the owner of the cut is found among them |
| `FamilyMessages.FindSenders` | src/p4est.c:3106-3263 | receives are posted exactly for the ranks that send, and for rank -1 if the window begins there and what is read looks like leaves |
| `FamilyMessages.Receive` | src/p4est.c:3278-3314 | the limits decoded are those of the run around the cut |
| `FamilyMessages.RunIsCutFamily` | src/p4est.c:3278-3314 | the run has c members exactly when the cut splits a family, and is that family |
| `FamilyMessages.DecodedIsRecognized` | src/p4est.c:3278-3319 | a split family is recognized however many ranks share it, and nothing else is |
| `FamilyCorrection.SearchLower` | src/p4est_algorithms.c:2758-2767 | the lowest rank with most members among the lower ranks |
| `FamilyCorrection.SearchUpper` | src/p4est_algorithms.c:2769-2778 | and among the upper ones |
| `FamilyCorrection.Correction` | src/p4est_algorithms.c:2742-2787 | the correction sends the cut to the start of the family up to the winner and to its end after |
| `FamilyCorrection.OneWinner` | src/p4est_algorithms.c:2742-2787 | all ranks that cut the family agree on the winner |
| `FamilyCorrection.CorrectionMoves` | src/p4est_algorithms.c:2780-2786 | with recognized limits the correction moves the cut out of the family |
| `FamilyCorrection.MovedCutsNothing` | src/p4est_algorithms.c:2780-2786 | a moved cut splits no family |
| `FamilyCorrection.MovedInOrder` | src/p4est.c:3348-3374 | moved cuts stay in order |
| `FamilyCorrection.NextNonEmpty` | src/p4est_algorithms.c:2789-2805 | the next rank with leaves, or the number of ranks |
| `FamilyCorrection.ApplyCorrections` | src/p4est.c:3348-3377 | the counts become the distances of the moved cuts, and the result is how far the cuts were moved |
| `FamilyCorrection.CorrectedPartition` | src/p4est.c:3348-3374 | counts are not negative, add up to all leaves, and no family is shared |
| `FamilyCorrection.WinnerByCount` | src/p4est_algorithms.c:2742-2787 | the winner of a family has some of its leaves in its requested part, counted one by one; no rank has more, and no lower one as many |
| `FamilyCorrection.CorrectedCuts` | src/p4est.c:3348-3374 | the new cut of a rank with leaves is the start or the end of the family it splits, by the winner; a cut that splits none stays, a rank without leaves gets none, and no cut moves by c leaves |
| `FamilyCorrection.WinnerGetsFamily` | src/p4est_algorithms.c:2742-2805 | the lowest rank with most members of a family ends with all of them |
| `PartitionForCoarsening.CorrectRank` | src/p4est.c:3278-3325 | one rank's messages give the right correction |
| `PartitionForCoarsening.SendAll` | src/p4est.c:2825-3102 | when all ranks have sent, every rank with leaves has one message from each rank concerned, in rank order |
| `PartitionForCoarsening.CorrectCounts` | src/p4est.c:3278-3385 | all ranks: by their messages the requested counts become counts that split no family and cover all leaves; every cut goes where the winner of its family sends it, one that splits no family stays, and the winner gets the whole family; the number returned is the distance of new from requested cuts |
| `PartitionForCoarsening.PartitionForCoarsening` | src/p4est.c:2792-3385 | sending and correcting together, from the requested counts to the corrected ones, with the same result |
| `FamilyScan.Scan` | src/p4est3_partition.c:191-259 | reading the window over the ranks found finds its first and last leaf with the same parent quadrant as the leaf at the cut |
| `FamilyScan.ScanIsRecognized` | src/p4est3_partition.c:244-301 | without leaves of other trees these limits name the family whenever the cut splits one |
| `FamilyScan.ScanIsRecognizedIff` | src/p4est3_partition.c:244-301 | in a forest of many trees they do, and name nothing else, exactly when no leaf of another tree with the same parent quadrant is in the window, or one is but no family is split and the limits are not c leaves apart |
| `FamilyScan.EndsAreBorders` | src/p4est3_partition.c:262-301 | when the limits are c leaves apart, the side that the winner sends the cut to lies inside no family, even if the leaves found are none |
| `FamilyScan.CorrectedIff` | src/p4est3_partition.c:205-301 | a corrected cut splits a family exactly when it did so before and a leaf of another tree with the same parent quadrant is in the window; it goes where it should (out of the family it splits, else nowhere) exactly when no such leaf is there, or the cut splits no family and the limits are not c leaves apart or begin at it |
| `FamilyScan.ForeignMisleads` | src/p4est3_partition.c:244-301 | two trees refined once: in every partition with a cut at leaf 5 the corrected cut still splits the family that begins at leaf 4 |
| `FamilyScan.ForeignMixesOrder` | src/p4est3_partition.c:205-301 | three trees and a partition of three ranks whose corrected cuts are out of order |
| `FamilyScan.CorrectCut` | src/p4est3_partition.c:205-301 | the lookup at the cut fails exactly behind the last leaf; otherwise the cut is corrected by the limits of the scan, with both conditions above |
| `FamilyScan.CorrectOffsets` | src/p4est3_partition.c:191-301 | all cuts: the new offsets split no family exactly when no leaf of another tree interferes at a cut that splits one; in a forest of one tree they split none, are in order and cover all leaves; so is the order wherever every cut goes where it should |
| `PartitionGiven.ShippedLeaves` | src/p4est_algorithms.c:2887-2937 | the formula over rank boundaries is the number of leaves received from other ranks |
| `PartitionGiven.TreeEnds` | src/p4est_algorithms.c:2939-2967 | last local index of every local tree |
| `PartitionGiven.CountPerRank` | src/p4est_algorithms.c:2969-3001 | how many leaves of a range every rank has, and where they begin; only the ranks of the window found have any |
| `PartitionGiven.SendMatchesReceive` | src/p4est_algorithms.c:3086-3132 | what r sends to i is what i receives from r, the overlap of old and new parts |
| `PartitionGiven.Pack` | src/p4est_algorithms.c:3230-3294 | a message holds exactly the wanted leaves, counted by tree |
| `PartitionGiven.CountTrees` | src/p4est_algorithms.c:3318-3376 | sizes of the new local trees, the share from lower ranks, first and last tree |
| `PartitionGiven.RearrangeTree` | src/p4est_algorithms.c:3436-3512 | what stays of a tree is moved to its new place inside an array of the new size |
| `PartitionGiven.KeepLocal` | src/p4est_algorithms.c:3378-3512 | the same for all trees |
| `PartitionGiven.CopyIn` | src/p4est_algorithms.c:3514-3594 | after all messages every tree is the wanted slice of the forest |
| `PartitionGiven.RankForest.SendTo` | src/p4est_algorithms.c:3086-3294 | a rank's message for another is what that one needs from it |
| `PartitionGiven.RankForest.Repartition` | src/p4est_algorithms.c:2969-3652 | a rank ends with exactly its new part of every tree |
| `PartitionGiven.ForestUnchanged` | src/p4est_algorithms.c:2808-3652 | over all ranks every tree is the sequence it was |
| `PartitionGiven.SendAll` | src/p4est_algorithms.c:3086-3304 | when all ranks have sent, every rank has what it needs from every other |
| `PartitionGiven.PartitionGiven` | src/p4est_algorithms.c:2808-3652 | all ranks: each ends with its new part of every tree, put together every tree is the sequence it was, and the number returned is that of leaves received from others |
| `BufferCarousel.Carousel.Ref` | src/p4est3_internal_global.c:547-581 | one more hold is counted |
| `BufferCarousel.Carousel.Unref` | src/p4est3_internal_global.c:582-685 | the buffer goes exactly when the last hold goes; other buffers keep their contents |
| `BufferCarousel.Carousel.Alloc` | src/p4est3_internal_global.c:213-308 | a new buffer with one hold |
| `BufferCarousel.Carousel.New` | src/p4est3.c:331-420 | a forest without source has a buffer of its own |
| `BufferCarousel.Carousel.Share` | src/p4est3_internal_mpi.c:945-967 | sharing keeps both holds counted; the code's assertion holds exactly when the source alone holds its spin buffer |
| `BufferCarousel.Carousel.TakeBuffer` | src/p4est3_refine.c:424-461 | a buffer is reused exactly when it is suitable and only the source holds it, and then no live forest has it as main |
| `BufferCarousel.Carousel.Rotate` | src/p4est3_internal_mpi.c:1000-1082 | the new forest keeps the source's main as its spin |
| `BufferCarousel.Carousel.RotateQuadrants` | src/p4est3_refine.c:424-461 | the rule for leaf arrays, which may keep the source's spin |
| `BufferCarousel.Carousel.Destroy` | src/p4est3.c:472-493 | the other live forests keep what they have |
| `BufferCarousel.Take` | src/p4est3.c:331-493 | over every step counts equal holds and every live forest finds its value in its main buffer |
| `BufferCarousel.Derive` | src/p4est3_internal_mpi.c:945-1082 | a derived forest writes only to a buffer that is no live forest's main, and shares what it does not write; it writes to the source's spin exactly when the source alone holds it, the format stays and new leaves fit; which buffer it keeps as spin, if any |
| `BufferCarousel.SpinOfLiveSource` | src/p4est3_internal_mpi.c:952-956 | a run in which the forest is not alone on the spin buffer it passes on |
| `BufferCarousel.TwoBuffersSuffice` | src/p4est3_internal_mpi.c:945-1082 | a chain of forests whose predecessors are destroyed reuses two buffers |
| `Populate.LowestChildren` | src/p4est3_internal_mpi.c:259-288 | the descendants of a quadrant fill their slots in order |
| `Populate.RecursivePartition` | src/p4est3_internal_mpi.c:290-357 | the recursion over index ranges fills the wanted slots, with or without carrying the quadrant |
| `Populate.Region` | src/p4est3_internal_mpi.c:359-422 | the quadrants found fill the cells from a to b, without b |
| `Populate.RegionEnd` | src/p4est3_internal_mpi.c:424-476 | or from a to the end of the tree |
| `Populate.RecursivePartitionRegion` | src/p4est3_internal_mpi.c:478-526 | expanding a region fills the slots; on level 0, and only there, the lookup of the second scratch entry fails and nothing is written |
| `Populate.PopulateMorton` | src/p4est3_internal_mpi.c:566-576 | slot k holds the quadrant of index first + k |
| `Populate.PopulateSuccessor` | src/p4est3_internal_mpi.c:578-595 | the same by successors |
| `Populate.SuccessorOfId` | src/p4est3_internal_mpi.c:578-595 | the next quadrant of a level is that of the next index |
| `Populate.PopulateRecursive` | src/p4est3_internal_mpi.c:597-635 | the same by the three recursive modes, but for regions on level 0 |
| `Populate.PopulateTree` | src/p4est3_internal_mpi.c:637-660 | all five modes write the same array, but for regions on level 0 |
| `Populate.SetupQuadrants` | src/p4est3_internal_mpi.c:663-720 | all local trees of a rank |
| `Morton.FromIdOfId` | src/p4est3_quadrant_mort2d.c:609-641 | id and quadrant determine each other |
| `Morton.IdOfFromId` | src/p4est3_quadrant_mort2d.c:609-641 | in both directions |
| `Morton.NextIsAdjacent` | src/p4est_algorithms.c:338-359 | "next" means adjacent intervals at the finest level |
| `WeightedPartition.SearchLowerBound` | src/p4est3_search.c:119-167 | the first entry not below the target, from any first guess, or -1 |
| `WeightedPartition.LocalWeights` | src/p4est.c:2512-2548 | local prefix sums are the global ones of the rank's leaves |
| `WeightedPartition.CutIs` | src/p4est_base.h:500-521 | the cut is the share of the total, rounded down |
| `WeightedPartition.CutOwnerExists` | src/p4est.c:2571-2581 | every positive cut lies in the weights of some rank |
| `WeightedPartition.OneCutOwner` | src/p4est.c:2571-2581 | and of only one |
| `WeightedPartition.CutRange` | src/p4est.c:2571-2581 | the range of cuts that a rank owns |
| `WeightedPartition.PlanSends` | src/p4est.c:2582-2639 | for each cut it owns a rank sends the boundary to both sides |
| `WeightedPartition.FindSource` | src/p4est.c:2649-2684 | the rank waited for is the only one that owns the cut |
| `WeightedPartition.Receive` | src/p4est.c:2641-2721 | the boundaries put together are the right ones |
| `WeightedPartition.NewCounts` | src/p4est.c:2571-2731 | all ranks: counts between boundaries from the first leaf to the last |
| `WeightedPartition.WeightedPartition` | src/p4est.c:2505-2731 | repartitions exactly when some leaf has weight; then rank i begins at the first leaf with no less than its share i / num of all weight before it, rounded down, and every rank's weight is fair |
| `WeightedPartition.BoundariesInOrder` | src/p4est.c:2505-2729 | boundaries are monotone and cover all leaves, those without weight too |
| `WeightedPartition.BoundaryIff` | src/p4est.c:2571-2639 | the first index not below the rounded share is the first one that reaches it, told without the rounding |
| `WeightedPartition.FairShare` | src/p4est.c:2505-2729 | a rank's weight differs from the num-th part of the total weight by less than the largest leaf weight |
| `WeightedPartition.WriteBoundaries` | src/p4est3_partition.c:397-420 | a rank writes the boundaries of the cuts in its weights and no other |
| `WeightedPartition.OneWriterIff` | src/p4est3_partition.c:397-410 | each boundary is written by some rank exactly when some leaf has weight, and never by two |
| `WeightedPartition.NewOffsets` | src/p4est3_partition.c:612-627 | after all ranks have written, in any order, the new offsets are the boundaries; without any weight they are what the array held before |
| `WeightedPartition.BorderIsLocalIff` | src/p4est3_partition.c:415-417 | the debug check holds exactly when the cut does not lie inside the rank's last leaf |
| `WeightedPartition.BorderPastLastLeaf` | src/p4est3_partition.c:415-417 | two ranks with one leaf each for which it does not hold |
| `WeightedPartition.BorderBehindAll` | src/p4est3_partition.c:404-420 | weights for which a boundary lies behind the last leaf of all |
| `WeightedPartition.FirstBoundaryIff` | src/p4est3_partition.c:404-420 | the first boundary is the first leaf exactly when the first rank with leaves has weight |
| `WeightedPartition.FirstLeafLeftOut` | src/p4est3_partition.c:404-420 | two ranks for which it is not |
| `Bits.IncWordIsInc` | src/p4est3_quadrant_mort2d.c:355-364 | filling the gaps of the mask with ones lets the carry run through: the expression adds one under the mask |
| `Bits.DecWordIsDec` | src/p4est3_quadrant_mort2d.c:355-364 | clearing them lets the borrow run through |
| `Bits.GatherInc` | src/p4est3_quadrant_mort2d.c:355-364 | the bits under the mask count up by one, modulo what they hold |
| `Bits.GatherDec` | src/p4est3_quadrant_mort2d.c:355-364 | or down |
| `Bits.OtherCoordinatesStay` | src/p4est3_quadrant_mort2d.c:365-366 | bits under a disjoint mask read the same |
| `MortonWords.WordParts` | src/p4est3_quadrant_mort2d.c:45-51 | level and coordinates of a packed word |
| `MortonWords.MortonIsWord` | src/p4est3_quadrant_mort2d.c:626-640 | the word built from level and index |
| `MortonWords.LinearIdIs` | src/p4est3_quadrant_mort2d.c:608-623 | the id on a coarser level drops digits, on a finer one it is that of the first descendant |
| `MortonWords.MortonRoundTrip` | src/p4est3_quadrant_mort2d.c:608-640 | morton and linear_id are inverse at every level |
| `MortonOperations.ChildIs` | src/p4est3_quadrant_mort2d.c:310-324 | child i has level + 1 and the id with digit i appended |
| `MortonOperations.KidIs` | src/p4est3_quadrant_mort2d.c:310-324 | appending digit i is 2^d id + i |
| `MortonOperations.ParentIs` | src/p4est3_quadrant_mort2d.c:326-344 | the parent drops the last digit |
| `MortonOperations.SiblingIs` | src/p4est3_quadrant_mort2d.c:525-546 | a sibling replaces it |
| `MortonOperations.AncestorIdIs` | src/p4est3_quadrant_mort2d.c:477-508 | the child number is the last digit |
| `MortonOperations.ParentUndoesChild` | src/p4est3_quadrant_mort2d.c:310-344 | the parent of a child is the quadrant, its siblings are the other children |
| `MortonOperations.AncestorIs` | src/p4est3_quadrant_mort2d.c:510-523 | the ancestor on level k drops all digits below |
| `MortonOperations.FirstDescendantIs` | src/p4est3_quadrant_mort2d.c:548-561 | first descendant: zeros appended |
| `MortonOperations.LastDescendantIs` | src/p4est3_quadrant_mort2d.c:563-580 | last descendant: largest digits appended |
| `MortonOperations.SuccessorIs` | src/p4est3_quadrant_mort2d.c:643-671 | successor and predecessor are id + 1 and back |
| `MortonOperations.SuccessorIff` | src/p4est3_quadrant_mort2d.c:643-655 | the debug check lets the last quadrant of a coarse level pass; the result is a quadrant of the level exactly when the argument is not the last one |
| `MortonOperations.WordIsValid` | src/p4est3_quadrant_mort2d.c:61-69 | packed quadrants are valid |
| `MortonOperations.ValidIsWord` | src/p4est3_quadrant_mort2d.c:61-69 | valid words are packed quadrants, in 3D if the two unused bits are clear |
| `MortonFaces.CoordMaskIs` | src/p4est3_quadrant_mort2d.c:31-41 | the constants select every d-th bit |
| `MortonFaces.DirectionMaskIs` | src/p4est3_quadrant_mort2d.c:354-357 | the mask selects one coordinate's bits above the quadrant's size |
| `MortonFaces.FaceNeighborIs` | src/p4est3_quadrant_mort2d.c:346-367 | the neighbour is a quadrant of the same level |
| `MortonFaces.NeighborCoordinates` | src/p4est3_quadrant_mort2d.c:346-367 | exactly the coordinate across the face moves, by one cell modulo the tree |
| `MortonFaces.OppositeFace` | src/p4est3_quadrant_mort2d.c:346-367 | the opposite face leads back |
| `MortonFaces.CoordinatesDetermine` | src/p4est3_quadrant_mort2d.c:346-367 | the coordinates name the quadrant, so these two facts fix the neighbour |
| `PackedQuadrants.PackInjective` | src/p4est3_quadrant_mort2d.c:626-640 | different quadrants have different words |
| `PackedQuadrants.PackChild` | src/p4est3_quadrant_mort2d.c:310-324 | child on words is child on quadrants |
| `PackedQuadrants.PackParent` | src/p4est3_quadrant_mort2d.c:326-344 | parent likewise |
| `PackedQuadrants.PackSibling` | src/p4est3_quadrant_mort2d.c:525-546 | sibling likewise |
| `PackedQuadrants.PackAncestor` | src/p4est3_quadrant_mort2d.c:510-523 | ancestor likewise |
| `PackedQuadrants.PackSuccessor` | src/p4est3_quadrant_mort2d.c:643-671 | on one level, successor is "next" in both directions |
| `ContextSort.Insert` | src/p4est3_ghost_p4est.c:440-455 | shifting larger entries up and filling the hole inserts one entry in order |
| `ContextSort.InsertionSort` | src/p4est3_ghost_p4est.c:440-461 | up to 16 entries: sorted permutation, nothing outside touched |
| `ContextSort.Split` | src/p4est3_ghost_p4est.c:463-491 | partition around the middle entry; the right cursor never falls below the base and both parts are smaller |
| `ContextSort.Sort` | src/p4est3_ghost_p4est.c:424-503 | sorted permutation of the range for every total preorder, nothing outside touched |
| `MirrorSort.Invert` | src/p4est3_ghost_p4est.c:531-534 | the inverse permutation |
| `MirrorSort.Rename` | src/p4est3_ghost_p4est.c:551-562 | a list's indices are replaced and sorted |
| `MirrorSort.PermutationIsBijection` | src/p4est3_ghost_p4est.c:519-534 | a sorted identity array hits every index once, so the inverse is defined everywhere |
| `MirrorSort.GhostFill.SortMirrorQuadrants` | src/p4est3_ghost_p4est.c:505-567 | mirrors in order, a permutation of the old ones; every list ascending and naming the same mirrors |
| `MirrorSort.CountMirrors` | src/p4est3_ghost_p4est.c:578-582 | offsets are running totals |
| `MirrorSort.MergeMirrorProcArrays` | src/p4est3_ghost_p4est.c:569-604 | the offsets delimit exactly the lists in the merged array |

## Left out

- Coarsen, Refine: the initialisation and replacement callbacks, the orphan callback and user data are not modelled; accept and refine decisions are functions of the quadrants they are given.
- Completion.Complete: the bounds first_desc and last_desc are absent, so dom is filled as a whole.
- Completion.Reduced: the list is required sorted, without overlaps and made of first children strictly below dom, which the earlier part of the kernel establishes; that part and the 2:1 balance itself are not modelled.
- TwoPass: refine-only and coarsen-only calls are the cases in which the other callback never agrees; the plain copy is not modelled.
- TwoPass.AskedExactlyForFamilies: what the callback sees is the array described by FamilyArrayIff, which can mix quadrants; the pattern position is what is proved.
- Iterate: faces on tree boundaries, orientation between trees and the non-contiguous storage path (owner lookup, fully-local flags) are not modelled; neither are the counters that only feed statistics and debug checks. Rows of the stacks are values; behind an overrun the model goes on with rows that the source does not have.
- Iterate.SearchArea.IterateTree: the condition on overruns is for trees in which the rank has leaves, as in every tree it iterates over.
- Subtrees.SplitOf: sc3_array_split is given by its meaning, the number of leaves with a smaller ancestor id; its search is not part of this model.
- TreeOffsets.Valid: first-tree entries of ranks without leaves lie between their neighbours' entries, as setup and partition write them.
- PartitionSearch.SplitOffset: sc_array_split is given by its meaning, the index of the first entry of a type; its search is not part of this model.
- FamilyMessages.FindSenders: what is read before the first entry of the partition is an input (`stray`).
- FamilyMessages.DecodedIsRecognized: needs more than two children, as every forest has; a root quadrant at the cut otherwise decodes to two.
- PartitionForCoarsening.CorrectCounts: more than two children, and either no window that begins before rank 0 or nothing there that looks like leaves.
- FamilyScan.CorrectOffsets: all ranks share one node, so the window is not cut off at node boundaries, and the first offset is the first leaf. That the new offsets are in order is given one way, wherever every cut goes where it should; with a leaf of another tree in a window they may be in order or not.
- PartitionGiven: user data travel with their leaves and are not modelled apart; loops after the counting visit all ranks, of which those outside the window have count 0; arrays of trees are values that are resized, moved and overwritten as in the code. The share that a rank keeps is counted like a message to itself.
- WeightedPartition.Cut: p4est_partition_cut_uint64 and p4est3_uint64cut are given by their meaning, the rounded-down share in exact arithmetic; how they avoid overflow is not part of this model.
- BufferCarousel.Carousel.TakeBuffer: whether a buffer is large enough is an input (`suitable`, `fits`, `fitsOld`), byte sizes are not modelled.
- Populate.PopulateTree: the 32-bit range of the local index is not modelled; sc3_array_index is taken to fail on an index outside the array.
- Populate.Region: pointers into the growing work array are read as the quadrants they point to.
- MortonOperations: compare, is_ancestor, nearest_common_ancestor, coords, quadrant and the neighbour in another tree are not modelled.
- MirrorSort.GhostFill.SortMirrorQuadrants: index lists are values that are replaced as a whole; the C library's qsort on a list is the sort proved in ContextSort; the hash tables that fill the lists are not modelled.
- ContextSort.Sort: entries are indices, not bytes of any size; the two scans of the partition loop and the copy of one entry are methods of their own.
- Message passing, windows, locks and barriers: only the values exchanged and the order of phases are modelled.
- Saving and loading, checksums, logging, memory pools, error objects, connectivity tables and the vectorised quadrant type are not modelled.
