# Verified model of the summary trees, metadata filters and canvas runs

This project models the parts of RAGFlow whose correctness cannot be read off one function, and
proves what they guarantee for every input, every run and every pattern of failures.

- **Psi merge tree** (`Psi*.dfy`). A union-find that keeps ranks, lazily completed parent chains,
  a history of tree-node ids for each root and a compact parent array, and that attaches a smaller
  tree in the middle of a larger one. `PsiForest` is its value; the class `PsiUnionFind` keeps the
  source's arrays and is proved to compute it; `PsiDendrogram` proves what every run of unions
  guarantees, `PsiLinkage` what the order of the pairs adds. `PsiMergeTree`, `PsiBuilder`, `PsiBuckets` and
  `PsiGraft` turn the array into linked node objects, directly or bucket by bucket, and say which tree
  that is; `PsiRebalance` bounds the fanout in place; `PsiLayers` collects nodes by height, `PsiHeight`
  bounds how high trees are, `PsiMeeting` says where two leaves meet; `PsiPipeline` and `PsiMaterialize`
  run the whole pass.
- **Classic summary loop** (`RaptorClusters.dfy`, `ClassicRaptor.dfy`, with `RaptorLayers.dfy` and
  `RaptorCall.dfy` shared by both builders): label arithmetic of the two clustering methods,
  refinement, clusters, completion order, error limit.
- **Metadata filters**. `MetaFilter` is the in-memory bucket loop, `EsFilter` the compiler to bool
  queries, `EsMeaning` what a compiled filter asks of a document, `EsAgreement` the exact relation
  between index and memory; `Glob` proves the escaping codec.
  `SqlCondition` is the SQL-92 condition grammar with printer, parser and three truth values,
  `SqlText` the literal codecs, `SqlFilter` the printer for Infinity.
- **Agent canvas**. `CanvasGraph` is the control graph, `Canvas` the batch scheduler over the growing
  path, `CanvasHanded` proves who hands control to whom over a run, and `CanvasRuns` what whole runs,
  suspensions and resumptions do. `DslIds`, `DslText`
  and `DslMigration` are the rewriting of the description a canvas runs; `DslEdges` says what it makes
  of edge ids, `DslImage` that the whole description is mapped, and `CanvasRename` that the renamed
  canvas runs as before.

Similarity rankings, merge distances, cluster labels, probabilities, nearest centroids, success of model calls,
completion order and component behaviour are oracle parameters: everything holds for all of them,
within the ranges the libraries promise.

## Where the code and its comments part

- The comment at `common/metadata_es_filter.py:83-85` calls `must_not wildcard` equivalent to the
  in-memory loop for `not contains`. On a field with one value that contains the text and one that
  does not, the loop finds the document and the query does not (`EsAgreement.NotContainsDiffers`);
  `EsAgreement.AgreeExactly` gives the exact condition, for the other text operators too.
- Nor is it on single-valued fields: the index folds the case of ASCII letters only, where the loop
  lower-cases all of Unicode. A small Cyrillic letter stored and its capital searched are one for the
  loop and two for the index (`EsAgreement.CapitalsDiffer`). For ASCII text, and for any text in
  which `str.lower` changes only ASCII letters, `EsAgreement.AlikeDiverges` gives the comparison
  without letters.
- Without filters the query matches every document in scope, the loop none.
- A `contains` with a number never matches in memory, where searching raises, but does in the index
  (`EsAgreement.NumberDiffers`).
- A search text with a double quote or backslash is not what `JSON_CONTAINS` reads back
  (`SqlText.JsonFaithful`), and `empty` and `start with` presuppose different forms of the extracted
  text (`SqlFilter.ExtractionClash`).
- A suspended path is not taken up where it stopped. If only fill-ups waited, the next run enters at
  the last of them; otherwise "begin" is appended and the run starts over, and no stored component
  is executed where it stands (`CanvasRuns.ResumeById`, `CanvasRuns.InPlaceExactly`).
- Two component ids that migrate to the same id leave one component (`DslMigration.CollisionLoses`).
- Replacing ids inside an edge id exchanges every legacy prefix that starts an id, also inside a
  longer id (`DslIds.OneIdExact`, `DslIds.EdgeOverlap`).
- A text that is itself a component id is mapped as an id, and a reference inside it is not mapped
  (`DslMigration.TextReferencesFollow`, `DslMigration.ReferenceStays`).

## Model

| member | source | states |
|---|---|---|
| `PsiForest.PathClimbs` | rag/raptor.py:77-86 | Ranks grow strictly along every ancestor path, and the path ends in the root |
| `PsiForest.FirstAboveOnPath` | rag/raptor.py:88-93 | The first path entry of higher rank, found by scanning, is the attachment point |
| `PsiForest.NodeParent` | rag/raptor.py:95-113 | The parent of level k of a root history is level k+1 of the same history, or of the history it was attached to: every link climbs exactly one level |
| `PsiForest.ClimbFromLeaf` | rag/raptor.py:88-148 | The level-k ancestor of a leaf is entry k of the history of the first path entry of rank at least k |
| `PsiForest.ClimbPastRoot` | rag/raptor.py:95-113 | No leaf climbs beyond the rank of its root |
| `PsiForest.AttachValid` | rag/raptor.py:122-141 | Attaching a lower root in the middle of a higher tree keeps all structural invariants |
| `PsiForest.MergeValid` | rag/raptor.py:142-147 | Merging two roots of equal rank under a new node keeps them |
| `PsiForest.UniteValid` | rag/raptor.py:115-148 | Every union keeps them, and adds exactly one link between the components |
| `PsiForest.LinkPaths` | rag/raptor.py:115-148 | A new link extends exactly the paths of the attached component and changes no other root |
| `PsiForest.AttachLinks` | rag/raptor.py:95-109 | An attachment writes one parent entry, that of the old top, and no other |
| `PsiForest.MergeLinks` | rag/raptor.py:110-113 | A merge writes the two old tops and nothing else |
| `PsiForest.UniteRoots` | rag/raptor.py:115-148 | A union lowers the number of roots by one exactly when the two ends were apart |
| `PsiForest.NodesFit` | rag/raptor.py:67-68 | The next free id never exceeds 2n-1, so the compact array is never overrun |
| `PsiUnionFind.ExtendCompletes` | rag/raptor.py:70-75 | Extending a cached prefix by the rest of the path completes it, without duplicates |
| `PsiUnionFind.ExtendAppends` | rag/raptor.py:70-75 | Extending by unseen, distinct values is plain appending |
| `PsiUnionFind.CachedChain` | rag/raptor.py:77-86 | A cached chain says whether its entry is a root, and its first step is the true parent |
| `PsiUnionFind.BisectFinds` | rag/raptor.py:88-93 | On a complete chain the scan finds the first ancestor of higher rank, never the end |
| `PsiUnionFind.FallbackNeverFires` | rag/raptor.py:99-107 | The rank index is always inside the history of the insert point: the out-of-bounds fallback is dead |
| `PsiUnionFind.AttachRepresents` | rag/raptor.py:95-141 | Arrays, chains and counters after an attachment represent the attached forest |
| `PsiUnionFind.MergeRepresents` | rag/raptor.py:95-147 | Arrays, chains and counters after a merge represent the merged forest |
| `PsiUnionFind.PsiUnionFind.constructor` | rag/raptor.py:62-68 | The fresh arrays represent n separate leaves |
| `PsiUnionFind.PsiUnionFind.OrderedExtend` | rag/raptor.py:70-75 | Appends the unseen values in order |
| `PsiUnionFind.PsiUnionFind.Find` | rag/raptor.py:77-86 | Terminates, returns the complete path to the root, and only lengthens caches |
| `PsiUnionFind.PsiUnionFind.RankBisectRight` | rag/raptor.py:88-93 | Least index whose rank is higher, everything before it is not |
| `PsiUnionFind.PsiUnionFind.Build` | rag/raptor.py:95-113 | Exactly which entries of the parent array and histories a merge edge writes |
| `PsiUnionFind.PsiUnionFind.InsertPoint` | rag/raptor.py:125-129 | The clamped scan yields the first ancestor of higher rank; the clamp never acts |
| `PsiUnionFind.PsiUnionFind.AttachUnder` | rag/raptor.py:122-141 | The unequal-rank branches compute the attached forest |
| `PsiUnionFind.PsiUnionFind.MergeRoots` | rag/raptor.py:142-147 | The equal-rank branch computes the merged forest |
| `PsiUnionFind.PsiUnionFind.Union` | rag/raptor.py:115-148 | The mutable state represents the united forest; False is returned exactly when the pair was connected |
| `PsiDendrogram.Connectivity` | rag/raptor.py:115-148 | Two leaves share a root exactly when a walk over the united pairs joins them |
| `PsiDendrogram.RunCounts` | rag/raptor.py:150-153 | The entries without a parent in the compact array are one a root, and n minus the successful unions, for any sequence of unions |
| `PsiDendrogram.UniformDepth` | rag/raptor.py:95-148 | All leaves of a component climb to its top in the same number of steps, its rank |
| `PsiDendrogram.RunBushy` | rag/raptor.py:115-148 | A component of rank r has at least 2^r leaves |
| `PsiDendrogram.LogHeight` | rag/raptor.py:115-148 | So the height of a tree is at most log2 of the number of its own leaves |
| `PsiHeight.HeightIsLevel` | rag/raptor.py:491-509 | The linked subtree at a tree id is exactly as high as the level of that id |
| `PsiHeight.ExactHeight` | rag/raptor.py:471-513 | The tree linked over n bare leaves is as high as the rank of its root: 2 to its height is at most n |
| `PsiHeight.JoinedHeight` | rag/raptor.py:538-543 | Joining n trees adds at most log2 of n to the height of the highest |
| `PsiHeight.BuiltHeight` | rag/raptor.py:515-554 | Whatever builder made it, in buckets or not, a tree is lower than it has leaves |
| `PsiHeight.FinishedHeight` | rag/raptor.py:556-573 | So is the rebalanced tree, which in turn is high enough for its leaves: they are at most max to the height |
| `PsiDendrogram.RunForked` | rag/raptor.py:95-113 | Every tree node above the leaves has two children |
| `PsiDendrogram.UniteMeets` | rag/raptor.py:115-148 | A successful union makes the two leaves meet first at the lower of their root ranks plus one |
| `PsiDendrogram.UniteKeepsParent` | rag/raptor.py:95-113 | Parent links are write-once |
| `PsiDendrogram.RunKeepsClimb` | rag/raptor.py:115-148 | No later union changes an ancestor once it exists |
| `PsiDendrogram.Dendrogram` | rag/raptor.py:115-148 | Over a whole run: the leaves of each successful union first meet at the level of that union, for good |
| `PsiLinkage.SingleLinkage` | rag/raptor.py:352-359 | Because the most similar pairs come first: once all pairs of at least some similarity are united, two leaves are in one tree exactly if a chain of leaves, each at least so similar to the next, joins them |
| `PsiMeeting.LeafBelow` | rag/raptor.py:491-509 | An input is a leaf below a tree id exactly if it climbs to that id |
| `PsiMeeting.MeetingHeight` | rag/raptor.py:471-513 | In the linked tree the ends of a successful union have a common subtree one level above the lower of the ranks their roots had then, and no lower one |
| `PsiMeeting.LeavesMeet` | rag/raptor.py:556-573 | So it is in the finished tree over few enough leaves, where no regrouping was needed |
| `PsiBuckets.SplitFacts` | rag/raptor.py:383-406 | Splitting a large group keeps its elements, makes only smaller non-empty increasing groups, and more than one, whatever the labels |
| `PsiBuckets.FanoutIs` | rag/raptor.py:383 | As many pieces as buckets are needed, at least 2, at most 32, and fewer than members |
| `PsiBuckets.SplitByLabel` | rag/raptor.py:398-405 | Where labels differ, members share a piece exactly if they share a label; only where all are alike is the group cut into consecutive slices of bucket size |
| `PsiBuckets.FragmentFacts` | rag/raptor.py:377-406 | What a group falls into by splitting again and again: its members, each once, in bounded groups |
| `PsiBuckets.SortKeeps` | rag/raptor.py:409 | Sorting by length and first element permutes the buckets |
| `PsiBuckets.BucketOrder` | rag/raptor.py:408-409 | Buckets come by size, the smallest first, and by first member among those of one size |
| `PsiBuckets.BucketsOnce` | rag/raptor.py:368-410 | Labels determine the list of buckets: there is only one, however the worklist is taken up |
| `PsiBuckets.SplitPsiBuckets` | rag/raptor.py:368-410 | The worklist loop terminates with exactly the fragments of all indices, sorted; they partition the indices: non-empty, bounded, increasing, fewer than the indices |
| `PsiMergeTree.CutCount` | rag/raptor.py:484-509 | Below a tree node every leaf that climbs to it is listed once, every other not at all |
| `PsiMergeTree.ShapeFrontier` | rag/raptor.py:491-509 | The input subtrees hang below a node in exactly the order of its leaves |
| `PsiMergeTree.ShapeNodes` | rag/raptor.py:491-509 | The objects below a node are the input subtrees and one new object a tree id, none twice |
| `PsiMergeTree.WholeTree` | rag/raptor.py:507-513 | The shape at the top holds all input nodes and all new nodes |
| `PsiMergeTree.ShapeLeaves` | rag/raptor.py:491-509 | Every internal node of the shape branches |
| `PsiMergeTree.ShapeWired` | rag/raptor.py:501-505 | Linked objects form the shape: children and parent links are inverse |
| `PsiBuilder.OneRoot` | rag/raptor.py:484-489 | After all pairs, or after n-1 merges, one root is left and exactly n-1 unions succeeded |
| `PsiBuilder.NothingLeft` | rag/raptor.py:488-489 | Stopping early is safe: the pairs left over would change nothing |
| `PsiBuilder.UniteRanked` | rag/raptor.py:480-492 | The loop ends with n-1 merges, one root and the parent array of the run over all ranked pairs |
| `PsiBuilder.EnsureNode` | rag/raptor.py:494-503 | A new object gets the next index, once per tree id |
| `PsiBuilder.AssembleNodes` | rag/raptor.py:491-503 | One pass names every tree id and groups the ids by parent, in order of first sight |
| `PsiBuilder.LinkFamily` | rag/raptor.py:505-509 | Linking one family leaves all others linked |
| `PsiBuilder.LinkNodes` | rag/raptor.py:505-509 | After the second pass every family is linked both ways |
| `PsiBuilder.BestRoot` | rag/raptor.py:511-512 | The root chosen has the greatest index among the entries without parent |
| `PsiBuilder.LinkTree` | rag/raptor.py:491-513 | A one-root parent array becomes one linked tree, the one the array describes |
| `PsiBuilder.BuildExact` | rag/raptor.py:471-513 | For any ranking of all pairs: n-1 merges, one root, every input once, links inverse, inputs untouched below, indices exactly the next ones, and precisely the tree of the run over the ranking in force |
| `PsiBuilder.MakeLimits` | rag/raptor.py:188-189 | Limits in range are kept, missing ones are 4096 and 1024, others are clamped to at least 2, and buckets to the exact limit |
| `PsiBuilder.BuildBuckets` | rag/raptor.py:530-536 | Tree k is grown over bucket k, numbered on from where tree k-1 ended; merges and trees add up to the inputs |
| `PsiBuilder.JoinRoots` | rag/raptor.py:538-543 | A single bucket root is returned as it is, over several a tree is grown |
| `PsiBuilder.BuildBucketed` | rag/raptor.py:515-543 | Terminates, because bucket roots are fewer than nodes; the buckets are those the labels ask for, each grown into its tree, and the top over their roots; every input once, n-1 merges in all |
| `PsiBuilder.BuildFromNodes` | rag/raptor.py:545-554 | Which tree is built: a few inputs hang as the run over their own ranking, many as trees grown over their buckets under the tree grown over the bucket roots, at every depth of bucketing |
| `PsiGraft.GraftTrans` | rag/raptor.py:530-543 | Trees built over trees stand over the original inputs |
| `PsiGraft.OrderIrrelevant` | rag/raptor.py:368-410 | Handing inputs over in another order keeps which inputs are covered |
| `PsiRebalance.CreatePsiParent` | rag/raptor.py:429-434 | The new parent and its batch point at each other |
| `PsiRebalance.GroupBatch` | rag/raptor.py:450-458 | A batch of one is kept, a larger one gets one fresh parent with the next index |
| `PsiRebalance.GroupChildren` | rag/raptor.py:449-459 | One pass makes ceil(n / max) children: number i is the i-th batch of max under a new node, or the last child alone; the leaf order is kept and the new nodes are counted exactly |
| `PsiRebalance.BatchedSkeletons` | rag/raptor.py:449-459 | Such a pass does to the shape of the tree what batching the list of children does |
| `PsiRebalance.GroupUntilBounded` | rag/raptor.py:447-466 | The loop ends with at most max children, batches of batches as often as needed; nothing changes if there were few enough |
| `PsiRebalance.Rebalance` | rag/raptor.py:436-469 | Terminates in place: same root and left-to-right leaves, fanout at most max(2, max_cluster), and exactly the tree with the children of every node batched from the leaves up, with as many new nodes as its numbers of children ask for; a tree within bounds is left as it is |
| `PsiLayers.CollectLayers` | rag/raptor.py:575-589 | Each internal node is entered once, under its height, in post-order |
| `PsiLayers.LayerExact` | rag/raptor.py:580-586 | Layer h lists exactly the internal nodes of height h, as often as they occur |
| `PsiLayers.OneLayer` | rag/raptor.py:580-586 | No internal node is in two layers |
| `PsiLayers.ChildrenLower` | rag/raptor.py:580-586 | Children lie in strictly lower layers |
| `PsiLayers.LayersContiguous` | rag/raptor.py:580-589 | Layer keys run from 1 to the height of the root without a gap |
| `PsiLayers.InternalBound` | rag/raptor.py:95-113 | A branching tree has fewer internal nodes than leaves |
| `PsiLayers.LayersTotal` | rag/raptor.py:575-589 | The layers together hold all internal nodes, and no more |
| `RaptorLayers.TilesCover` | rag/raptor.py:626-627 | Intervals that tile cover every position once, in order |
| `RaptorLayers.Summarizer.constructor` | rag/raptor.py:180-181 | The error limit is at least one |
| `RaptorLayers.Summarizer.Summarize` | rag/raptor.py:335-344 | A failed call is counted and skipped; the one that reaches the limit aborts |
| `PsiPipeline.MakeLeaves` | rag/raptor.py:558-561 | Leaf k carries chunk k and index k |
| `PsiPipeline.BuildPsiStructure` | rag/raptor.py:556-573 | The finished tree: every chunk once, bounded fanout, branching, indices contiguous, new nodes blank; and it is the tree grown over the leaves, regrouped |
| `PsiMaterialize.TextsSeen` | rag/raptor.py:601 | The texts handed to the model are the non-empty texts of the children, in the order of the children |
| `PsiMaterialize.SummarizeNode` | rag/raptor.py:599-610 | A node is summarised exactly when some child has text and the call with these texts succeeds, and then carries the answer |
| `PsiMaterialize.SummarizeLayer` | rag/raptor.py:612-624 | A layer writes each node once and yields the successful summaries in node order |
| `PsiMaterialize.MaterializeLayers` | rag/raptor.py:596-638 | Chunks grow by exactly the material of the tree, layer k holds the summaries of the nodes of height k in their order, layer intervals tile the list, and the run aborts exactly when the failures reach the limit |
| `PsiMaterialize.LayersReady` | rag/raptor.py:596 | Iterating the sorted keys visits heights 1, 2, ... up to the root |
| `PsiMaterialize.MaterialTotal` | rag/raptor.py:591-640 | At most n-1 summaries over n chunks, under any pattern of failures |
| `PsiMaterialize.MaterialFull` | rag/raptor.py:591-640 | Without failures every internal node yields exactly one summary |
| `PsiMaterialize.BuildPsiLayers` | rag/raptor.py:591-640 | The whole pass over the tree grown and regrouped: result, layer by layer, intervals, length at most 2n-1, abort condition |
| `RaptorClusters.WidestGap` | rag/raptor.py:265-270 | The first of the widest gaps between merge distances |
| `RaptorClusters.AhcTarget` | rag/raptor.py:270-274 | Exactly the merges up to the widest gap are kept, unless that makes more clusters than max_cluster; then max_cluster, but at least one |
| `RaptorClusters.GetClustersAhc` | rag/raptor.py:249-280 | Which labels are asked of the library: one cluster, as many as max_cluster, or as the gap says; from three items on fewer labels than items, for two items as many |
| `RaptorClusters.AdjustTreeNodes` | rag/raptor.py:282-299 | The refinement rounds never add a group, end as the round function says, and group items by nearest centroid of some round |
| `RaptorClusters.AdjustedEnds` | rag/raptor.py:282-299 | Refinement never makes more groups and ends only with one group, with a round that changes nothing, or after the last round |
| `RaptorClusters.RelabelOnto` | rag/raptor.py:701-704 | Relabelling keeps the groups and uses every label below their number |
| `RaptorClusters.AhcLabels` | rag/raptor.py:689-704 | No empty cluster, fewer clusters than items and no more than max_cluster, whatever the library returns |
| `RaptorClusters.GmmCandidates` | rag/raptor.py:235-247 | The largest component count below both max_cluster and the number of items, down to none at all |
| `RaptorClusters.FirstOver` | rag/raptor.py:713-714 | The first component over the threshold, if any |
| `ClassicRaptor.SplitByLabel` | rag/raptor.py:721-726 | Clusters by label partition the layer; the assertion holds exactly when every label occurs |
| `ClassicRaptor.GmmLabels` | rag/raptor.py:713-719 | Each item gets its first component over the threshold; an item without one fails the run |
| `ClassicRaptor.LabelLayer` | rag/raptor.py:689-719 | Labels and their number as configured, at most max_cluster of them; usable exactly when the stated condition on the library numbers holds |
| `ClassicRaptor.ClusterLayer` | rag/raptor.py:669-726 | The clusters of a layer, or failure exactly when the numbers are unusable |
| `ClassicRaptor.SummarizeClusters` | rag/raptor.py:656-664 | Successful summaries are appended in completion order; aborts exactly when failures reach the limit |
| `ClassicRaptor.OrderIrrelevant` | rag/raptor.py:727-728 | Any completion order yields the same summaries |
| `ClassicRaptor.SummariesStable` | rag/raptor.py:661 | Summaries read earlier chunks only, so later appends do not matter |
| `ClassicRaptor.LayerShrinks` | rag/raptor.py:736-737 | A layer is strictly narrower than the one it summarises |
| `ClassicRaptor.ClustersCapped` | rag/raptor.py:235-280 | A layer is cut into no more clusters than configured, under both methods |
| `ClassicRaptor.LayersCapped` | rag/raptor.py:653-754 | So no summary layer has more entries than that |
| `ClassicRaptor.WidthsFall` | rag/raptor.py:666-752 | Layer k is at least k narrower than the input |
| `ClassicRaptor.TriClosed` | rag/raptor.py:666-752 | Strictly falling widths add up to at most n(n+1)/2 |
| `ClassicRaptor.BuildClassic` | rag/raptor.py:653-754 | Terminates under both clustering methods; recorded layers tile the list, each from a covering of the last by its labels, none with more than max(1, max_cluster) clusters; length at most n(n+1)/2; how each ending relates to the failures |
| `RaptorCall.KeptParts` | rag/raptor.py:646 | Filtering the chunks keeps order and multiplicity: a list keeps what its parts keep, a chunk stays exactly if it has text and embedding |
| `RaptorCall.Call` | rag/raptor.py:642-754 | Fewer than two chunks give nothing at all; otherwise usable chunks stay in front and intervals tile the result; no failure without a failing call |
| `CanvasGraph.SuccessorsExactly` | agent/canvas.py:621-634 | The ids computed are exactly those that control is handed to, kind by kind: chosen exits, the first item, what is downstream of the container once the list has ended, else one step on |
| `CanvasGraph.SuccessorsFollow` | agent/canvas.py:621-634 | What a component hands on is a control edge of the graph |
| `CanvasGraph.TrailReaches` | agent/canvas.py:507-639 | Every id a run puts on the path is reachable from its entry |
| `Canvas.SiftFeeds` | agent/canvas.py:460-479 | After a batch every kept component finds all its producers earlier on the path; what was there before is untouched |
| `Canvas.SiftKeeps` | agent/canvas.py:460-479 | Nothing is dropped from a batch whose entries are all fed |
| `Canvas.Run.RunBatch` | agent/canvas.py:460-486 | Popping in place computes the sift of the batch |
| `Canvas.Run.AppendPath` | agent/canvas.py:606-612 | Appends unless already last or jumped |
| `Canvas.Run.ExtendPath` | agent/canvas.py:614-619 | Appends one by one under the same rule |
| `Canvas.ExtendNoStutter` | agent/canvas.py:606-619 | No appended entry repeats the one before it |
| `Canvas.Run.Settle` | agent/canvas.py:584-634 | A failure jumps, answers by default, or breaks the run; otherwise control is handed on |
| `Canvas.Run.SettleBatch` | agent/canvas.py:520-634 | The whole batch settled in order, each position once; broken exactly when some failure had no handler |
| `Canvas.SettledFollows` | agent/canvas.py:584-634 | Every appended entry follows one of the settled components in the control graph |
| `CanvasHanded.SettleOneHands` | agent/canvas.py:584-634 | Settling an entry appends only what it hands control to, and all of that then stands in the path from the former last entry on |
| `CanvasHanded.SettledHands` | agent/canvas.py:520-634 | So it is for a whole batch |
| `CanvasHanded.SiftDrops` | agent/canvas.py:460-479 | A batch entry is kept, or dropped because its inputs were missing at its turn |
| `CanvasHanded.SiftOrder` | agent/canvas.py:460-479 | Kept entries keep their order |
| `CanvasHanded.RunHands` | agent/canvas.py:503-666 | Over a whole run, however it ends: every entry was handed control by an executed entry before it, and whatever an executed entry hands control to arrives after it or is dropped for want of inputs |
| `CanvasHanded.ItemHands` | agent/canvas.py:621-634 | An executed item whose list has ended puts on the path exactly what is downstream of its container; until then it goes one step on |
| `Canvas.SuspensionPermutes` | agent/canvas.py:641-653 | The suspended path is a permutation of the unexecuted tail |
| `CanvasRuns.SuspensionStable` | agent/canvas.py:641-653 | It is the fill-ups, then all other entries: every position of the tail once, inside each group in rising order |
| `CanvasRuns.ResumeById` | agent/canvas.py:430-431 | A stored path is entered at its last entry exactly if the id of that entry is that of a fill-up; otherwise "begin" is appended and executed |
| `CanvasRuns.InPlaceExactly` | agent/canvas.py:430-510 | Of any stored path, an entry is executed where it stands exactly if it is the last, a fill-up by its id, and has its inputs before it |
| `CanvasRuns.ResumeEntry` | agent/canvas.py:430-431 | Where ids tell fill-ups apart: a stored path of fill-ups only is entered at its last fill-up; any other gets "begin" appended and the run starts over there |
| `CanvasRuns.BelowEntryUnseen` | agent/canvas.py:503-510 | Entries before the one a run enters at are never invoked: the run is the same whatever they would do |
| `CanvasRuns.ResumeInPlace` | agent/canvas.py:430-510 | There a stored entry is executed where it stands exactly when it is the last one and only fill-ups waited |
| `CanvasRuns.ResumeComplete` | agent/canvas.py:430-510 | And everything that waited is executed where it waited exactly when one fill-up waited |
| `CanvasRuns.ResumeRestarts` | agent/canvas.py:430-431 | A fill-up and a component waiting: the next run is entered at neither |
| `CanvasRuns.RunKeeps` | agent/canvas.py:507-639 | What has been executed stays in front of the path a run ends with |
| `CanvasRuns.FillsWait` | agent/canvas.py:641-665 | A fill-up is never executed in the run that reaches it: a run is suspended exactly when one waits |
| `CanvasRuns.RunEnds` | agent/canvas.py:507-639 | If control always moves to a lower rank, a run has ended after one batch more than the rank of its entry |
| `CanvasRename.RunRenamed` | agent/canvas.py:503-666 | Runs commute with renaming ids: same status and batches, the trail renamed |
| `CanvasRename.SuspensionRenamed` | agent/canvas.py:641-653 | What a suspension stores is renamed |
| `CanvasRename.MigratedRuns` | agent/dsl_migration.py:35-178 | So a migrated canvas runs as the old one did, if no two of its ids collide |
| `Canvas.RoundTrail` | agent/canvas.py:507-639 | One round keeps the trail: executed prefix unaltered, appended entries justified, executed entries fed, path never empty |
| `Canvas.Run.Round` | agent/canvas.py:508-639 | Sift, then settle; what was executed before is never altered |
| `Canvas.Run.Go` | agent/canvas.py:503-666 | A run for any number of rounds computes the run function, settles exactly the positions from its entry on, in order, and leaves a trail; the finish event never indexes an empty path; a failed run is cut back to before its last batch |
| `Glob.EscapeOnePass` | common/metadata_es_filter.py:578-580 | Three replacements in turn escape exactly as one pass over the characters |
| `Glob.EscapedPrefix` | common/metadata_es_filter.py:578-580 | Escaped text matches that text and nothing else, up to case |
| `Glob.MatchesInfix` | common/metadata_es_filter.py:295-297 | `*esc(t)*` matches exactly the strings containing t |
| `Glob.MatchesEnd` | common/metadata_es_filter.py:312-314 | `*esc(t)` matches exactly the strings ending with t |
| `Glob.MatchesStart` | common/metadata_infinity_filter.py:179-182 | `esc(t)%` matches exactly the strings starting with t |
| `Glob.UnescapedStar` | common/metadata_es_filter.py:578-580 | Without the escape the pattern is wrong |
| `MetaFilter.Flatten` | api/db/services/doc_metadata_service.py:795-815 | A bucket lists exactly the documents that hold its value |
| `MetaFilter.AddField` | api/db/services/doc_metadata_service.py:804-815 | All values of one field enter their buckets, nothing else changes |
| `MetaFilter.FilterOut` | common/metadata_utils.py:53-151 | The bucket loop, with the filter value rewritten as it goes, computes the selection function |
| `MetaFilter.CarriedText` | common/metadata_utils.py:43-103 | Lower-casing the value again at every bucket changes nothing for text operators |
| `MetaFilter.SelectedText` | common/metadata_utils.py:53-151 | A document is selected exactly when one of its own values meets the filter |
| `MetaFilter.Evaluate` | common/metadata_utils.py:153-172 | The fold with early return selects all-of under "and", some-of otherwise, and nothing without filters |
| `MetaFilter.NoneLeft` | common/metadata_utils.py:165-169 | Why the early return is safe |
| `EsFilter.TextTranslated` | common/metadata_es_filter.py:194-314 | Exactly which text filters are refused; a number is searched as the text it prints as |
| `EsFilter.AcceptedExactly` | common/metadata_es_filter.py:194-314 | Which filters are compiled at all: a key, a known operator, and a value of the kind the operator takes |
| `EsFilter.ClausesAtomic` | common/metadata_es_filter.py:116-134 | The single clause a filter contributes carries its whole meaning |
| `EsFilter.FlatMeans` | common/metadata_es_filter.py:158-159 | The flattened clauses mean the conjunction, or the disjunction, of the filters |
| `EsFilter.QueryMeans` | common/metadata_es_filter.py:147-177 | The rendered query matches exactly the documents in scope that satisfy the fold, with the exact effect of empty filters |
| `EsFilter.Translate` | common/metadata_es_filter.py:194-236 | Refuses bad keys first; a translation is never empty |
| `EsFilter.PlanPushdown` | common/metadata_es_filter.py:331-348 | Plans all filters, or reports the first refusal |
| `EsFilter.IsPushdownSupported` | common/metadata_es_filter.py:351-370 | True exactly when every operator and key passes |
| `EsFilter.PlannedMeans` | common/metadata_es_filter.py:147-348 | A planned query is the exact and/or of its translated filters within the scope |
| `EsFilter.HalfMatches` | common/metadata_es_filter.py:116-134 | Unwrapped, an "or" would match half a range filter; wrapped it does not |
| `EsMeaning.RangeMeans` | common/metadata_es_filter.py:280-288 | A range filter asks for a value on the side of the bound that its operator names |
| `EsMeaning.AnyOfMeans` | common/metadata_es_filter.py:542-557 | Lists of numbers and lists with words are compiled differently and mean the same: some value is some member |
| `EsMeaning.CompiledMeans` | common/metadata_es_filter.py:238-314 | What each compiled operator asks of a document, for every operator, said on values |
| `EsMeaning.PlannedWanted` | common/metadata_es_filter.py:147-348 | A planned query finds exactly the documents in scope that have what all, or some, of the filters want |
| `EsAgreement.MemoryMeans` | common/metadata_utils.py:153-160 | In-memory selection of a document depends on its own values only |
| `EsAgreement.AgreeExactly` | common/metadata_es_filter.py:238-314 | On which documents the index and memory part for a translatable text filter, exactly, in either direction, with the ASCII case folding of the one and `str.lower` of the other |
| `EsAgreement.PushdownAgrees` | common/metadata_es_filter.py:317-348 | Whole requests agree on every document on which no filter diverges, also on multi-valued fields |
| `EsAgreement.PushdownWithin` | common/metadata_es_filter.py:83-86 | What the index finds, memory finds, on every document that no filter loses |
| `EsAgreement.AlikeDiverges` | common/metadata_es_filter.py:83-86 | Where both lower-casings treat searched and stored text alike, the routes part exactly on mixed values, and a negative search only loses documents |
| `EsAgreement.AsciiAlike` | common/metadata_utils.py:43-48 | So it is for ASCII text |
| `EsAgreement.SingleValuedDiverges` | common/metadata_es_filter.py:295-304 | On single-valued fields a text search diverges exactly when the two lower-casings disagree about the value |
| `EsAgreement.SingleValuedAgrees` | common/metadata_es_filter.py:295-304 | So on single-valued fields a search for text that both treat alike never diverges |
| `EsAgreement.AlikeWithin` | common/metadata_es_filter.py:83-86 | For such text negative filters only lose documents, over whole requests and fields with any number of values |
| `EsAgreement.CapitalsDiffer` | common/metadata_utils.py:43-48 | A capital letter outside ASCII is found in memory and not by the index, and the other way round when searched negatively |
| `EsAgreement.NotContainsDiffers` | common/metadata_es_filter.py:83-86 | The equivalence claimed for "not contains" fails on a two-valued field |
| `EsAgreement.NumberDiffers` | common/metadata_es_filter.py:295-297 | A search for a number: the index finds its printed text, memory raises and finds nothing |
| `EsAgreement.NoFilters` | common/metadata_es_filter.py:155-156 | Without filters the query matches the whole scope |
| `EsAgreement.NotEqualDiffers` | common/metadata_es_filter.py:76-86 | For words, the compiled inequality differs exactly on values of both kinds or where the lower-casings disagree about every value |
| `EsAgreement.BothRoutes` | common/metadata_utils.py:230-248 | Flatten and filter in memory, or query the index: the same decision wherever no filter diverges |
| `SqlCondition.ParsePrinted` | common/metadata_infinity_filter.py:197-203 | Every printed condition is read back as itself, with SQL precedence |
| `SqlCondition.PrintParsed` | common/metadata_infinity_filter.py:197-203 | Every accepted token string is the print of what is read: the reading is unambiguous |
| `SqlText.UnquoteEscaped` | common/metadata_infinity_filter.py:291-292 | Undoubling gives back what was doubled |
| `SqlText.EscapeUnquoted` | common/metadata_infinity_filter.py:291-292 | And no other literal body stands for it |
| `SqlText.StartBodyMeans` | common/metadata_infinity_filter.py:179-182 | Undoubled and LIKE-matched, the literal means exactly "starts with" |
| `SqlText.EndBodyMeans` | common/metadata_infinity_filter.py:184-187 | Undoubled and LIKE-matched, the literal means exactly "ends with" |
| `SqlText.JsonFaithful` | common/metadata_infinity_filter.py:103-108 | Text between double quotes is read back as itself exactly when it needs no JSON escape |
| `SqlFilter.TranslateIn` | common/metadata_infinity_filter.py:125-142 | The loop prints the bracketed alternatives, text before numbers, or refuses |
| `SqlFilter.TranslateNotIn` | common/metadata_infinity_filter.py:144-161 | The loop prints the negated members without an outer bracket, or refuses |
| `SqlFilter.InMeans` | common/metadata_infinity_filter.py:125-142 | The fragment is the three-valued disjunction over the members |
| `SqlFilter.NotInMeans` | common/metadata_infinity_filter.py:144-161 | The fragment is the negation of that disjunction |
| `SqlFilter.NotInComplements` | common/metadata_infinity_filter.py:125-161 | `not in` is the exact complement of `in`, also for unknown |
| `SqlFilter.CoercedHolds` | common/metadata_infinity_filter.py:125-135 | Members as given and members coerced one by one hold the same |
| `SqlFilter.Translate` | common/metadata_infinity_filter.py:61-95 | A fragment for exactly the filters with a usable key, a known operator and a value that fits it |
| `SqlFilter.FragmentMeans` | common/metadata_infinity_filter.py:97-187 | Each fragment means its filter, said without tokens, literals, patterns or coerced lists |
| `SqlFilter.PlanPushdown` | common/metadata_infinity_filter.py:190-194 | One fragment a filter, or a refusal |
| `SqlFilter.ConditionMeans` | common/metadata_infinity_filter.py:197-203 | Parsed with precedence, the whole condition is the and/or fold of the filters in three truth values |
| `SqlFilter.Build` | common/metadata_infinity_filter.py:197-203 | The printed condition says that on every document; `1=1` without filters |
| `SqlFilter.ExtractionClash` | common/metadata_infinity_filter.py:97-187 | The empty test and the prefix test cannot both suit one form of extracted text |
| `DslText.CutUnique` | agent/dsl_migration.py:32 | Greedy matching leaves no choice: cuts that fit the pattern are the ones found; blanks are those of Unicode |
| `DslText.MatchParts` | agent/dsl_migration.py:32 | A match has the shape of the pattern and spells the text it covers |
| `DslText.MatchSpelled` | agent/dsl_migration.py:32 | Well-shaped parts are matched as they are |
| `DslText.FlatScan` | agent/dsl_migration.py:76 | Scanning loses no text |
| `DslText.NoNewMatch` | agent/dsl_migration.py:67-76 | Rewriting creates no reference where there was none |
| `DslText.ScanSubstituted` | agent/dsl_migration.py:67-76 | The rewritten text has the same segments with mapped ids |
| `DslText.ReferencesFollow` | agent/dsl_migration.py:63-76 | References of the new text are the images of the old ones, in order |
| `DslIds.RenameIdTwice` | agent/dsl_migration.py:53-61 | Renaming an id twice is renaming it once |
| `DslMigration.NamesRenamed` | agent/dsl_migration.py:22-30 | Which class names and which node type change, and into what |
| `DslMigration.IdLikeName` | agent/dsl_migration.py:53-61 | A component id is renamed as the class name it starts with |
| `DslMigration.RewriteStill` | agent/dsl_migration.py:78-85 | A map that moves nothing changes no value |
| `DslMigration.RewriteComponents` | agent/dsl_migration.py:87-113 | The component pass, later of two equal new ids winning |
| `DslMigration.RewriteElements` | agent/dsl_migration.py:127-172 | The node and edge passes treat every element once, in place |
| `DslIds.ByLengthStable` | agent/dsl_migration.py:159 | Longest id first, ids of one length in their old order |
| `DslIds.OnlyExchanges` | agent/dsl_migration.py:168-172 | For any ids in any order, the replacements exchange legacy prefixes of the edge id and change nothing else |
| `DslIds.ApartExchanged` | agent/dsl_migration.py:159-172 | Where every legacy prefix starts an id and these do not overlap, each of them is exchanged |
| `DslIds.EdgeIdFollows` | agent/dsl_migration.py:159-172 | An edge id put together from texts and component ids becomes the same texts with each id renamed, if legacy prefixes start nowhere else |
| `DslEdges.PassExact` | agent/dsl_migration.py:159-172 | If no prefix starts inside an id, the replacements are one pass over the text, whatever their order |
| `DslEdges.EdgeIdExact` | agent/dsl_migration.py:159-172 | Then a put-together edge id is mapped id by id exactly when ids to be renamed start nowhere else in it |
| `DslIds.OneIdExact` | agent/dsl_migration.py:159-172 | A text that is a legacy id becomes that id renamed exactly when no other legacy id stands inside it |
| `DslIds.EdgeOverlap` | agent/dsl_migration.py:159-172 | An id with another inside it is not mapped as the id map says |
| `DslIds.RewriteEdgeId` | agent/dsl_migration.py:168-172 | The loop over the ids computes these replacements, and exchanges every legacy prefix where ids occur apart |
| `DslMigration.TreatTwice` | agent/dsl_migration.py:87-176 | Under current ids a second treatment of any part changes nothing |
| `DslMigration.Idempotent` | agent/dsl_migration.py:35-178 | Migrating twice equals migrating once, on every description |
| `DslMigration.NothingLost` | agent/dsl_migration.py:87-115 | No component is lost exactly when no two new ids collide |
| `DslMigration.CollisionLoses` | agent/dsl_migration.py:113 | Two colliding ids leave one component |
| `DslMigration.ComponentMoves` | agent/dsl_migration.py:87-115 | Without collisions every component is found, migrated, under its new id |
| `DslMigration.MappedOnce` | agent/dsl_migration.py:98-107 | Links are mapped by two passes and still end up mapped once |
| `DslMigration.LinksFollow` | agent/dsl_migration.py:98-107 | Every plain link of a migrated component is the image of the old link at its place |
| `DslMigration.ParentFollows` | agent/dsl_migration.py:109-111 | The parent is the image of the old parent |
| `DslMigration.GraphFollows` | agent/dsl_migration.py:35-178 | So it is in the whole description, read under the new ids |
| `DslImage.ValueFollows` | agent/dsl_migration.py:63-85 | Every text at any depth of a value is rewritten, in order: ids and the references in other texts |
| `DslImage.WordsFollow` | agent/dsl_migration.py:63-85 | So the ids referred to at any depth are the images of the old ones |
| `DslImage.ComponentRewritten` | agent/dsl_migration.py:87-113 | But for its class name, a migrated component is the component rewritten: the passes over links add nothing |
| `DslImage.ComponentFollows` | agent/dsl_migration.py:87-113 | Id, class name, links, parent and all texts of a component are the images of the old ones |
| `DslImage.NodeFollows` | agent/dsl_migration.py:123-156 | So are id, parent and form of a node |
| `DslImage.EdgeFollows` | agent/dsl_migration.py:158-172 | The ends of an edge are mapped, its id has the replacements applied |
| `DslImage.ViewFollows` | agent/dsl_migration.py:35-178 | The whole description: components in order with all their texts, path, nodes, edges and what was said are the image of the old ones, exactly when no two new ids collide; edge ids included for ids inside which no prefix starts |
| `DslImage.GraphImage` | agent/dsl_migration.py:35-178 | Links without a brace are the old links under the id map |
| `DslImage.EdgeImage` | agent/dsl_migration.py:158-172 | An edge id put together from texts and ids has its ids renamed, and when exactly |
| `DslMigration.PathFollows` | agent/dsl_migration.py:117-121 | The stored path is mapped entry by entry |
| `DslMigration.TextReferencesFollow` | agent/dsl_migration.py:63-76 | References of any text follow the id map, exactly unless the text is itself an id that refers to an id to be renamed |
| `DslMigration.ReferenceStays` | agent/dsl_migration.py:63-65 | Such a text, whose reference is not mapped |

## Left out

- Cosine ranking, k-means, UMAP, Gaussian mixtures, agglomerative clustering and centroid means: library numerics, replaced by arbitrary orders and labels.
- `_assign_prototype_embeddings`: it writes embeddings only, which the model does not carry.
- `_root` after rebalancing: the root's parent stays null, so it climbs zero steps.
- Model calls, embedding calls, caches, retries, timeouts, cancellation, logging, callbacks: each call is a success or a failure.
- Interleaving inside a layer: node summaries of one layer write disjoint nodes and read lower layers only, so they are run in node order; for the classic loop the completion order is a parameter.
- Text-to-speech, files, streaming, `partials`, history, globals and events of a canvas: presentation, not scheduling.
- Canvas.Run.Go: watches a run for a given number of batches, because a run with loops need not end; every statement holds for every number, and `CanvasRuns.RunEnds` bounds the number where control has no way back.
- Canvas graphs that mention unknown ids, or items without a container: the source fails on them with a lookup error.
- The inputs a component needs are a fixed list of producers; producers computed while running are not modelled.
- Python literal parsing, date comparison and number formatting: parameters of the filter translators and of the comparison operators.
- Agreement of `=`, ranges and `in` between the engines: the two paths differ in how they parse values.
- EsFilter.Matches: `case_insensitive` folds ASCII letters on stored text as it is; real index mappings, analysers and result limits are not modelled.
- MetaFilter.FilterOut: comparisons and membership are a parameter, because they rest on Python literal parsing and dates; of `str.lower` only what `MetaFilter.LowerOk` says is used.
- EsAgreement.NotEqualDiffers: speaks of words, because the in-memory inequality parses literals and dates first.
- CanvasRuns.ResumeEntry: presumes, as `CanvasRuns.ResumeById` does not, that fill-ups are the components whose ids contain their name, as the editor gives ids out; the code tests the id at the start of a run and the component elsewhere.
- CanvasRuns.ResumeInPlace: presumes the same; `CanvasRuns.InPlaceExactly` is the result without it.
- CanvasRuns.ResumeComplete: presumes the same.
- CanvasGraph.FillId: lower-cases ASCII letters only; `str.lower` decides the same, because no other character lower-cases to a letter of the searched name alone.
- MetaFilter.Flatten: values are text, as after Python's `str`; the cap on the number of loaded documents is not modelled.
- Tokenising SQL text: conditions are token lists, literals are their bodies.
- SqlFilter.Translate: which of several refusals is reported is not stated.
- DslImage.ViewFollows: presumes that ids with a brace are current and refer to no id to be renamed; `DslMigration.TextReferencesFollow` says what becomes of others.
- How a canvas graph is read off a description: `CanvasRename.MigratedRuns` starts from two graphs that differ by the id map.
- Unhashable values where the migration expects ids or names: the source fails on them, the model leaves them alone.
- `convert_conditions`, `extract_doc_ids`, LLM-generated filters, schema helpers: easy members only.
