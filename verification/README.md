# A model of the graph engine

This project models the graph engine that runs GQL queries over relational tables: the compressed
sparse row (CSR) snapshot and the protocol that keeps it coherent with concurrent writers, the path
searches and graph algorithms that read it, and two rewrites of logical plans. Everything is proved
for all inputs, all runs and all interleavings that the definitions allow.

`dafny verify dfyconfig.toml` checks the whole project.

| files | what they hold |
|---|---|
| Walks, Sequences, Sums, Powers, Labels, CountingSort, Pairs | walks and distances in a graph, lists without repetition, finite sums, powers of two, label names, bucketing by counting, lists of vertex pairs |
| Csr, Build, Ordinals, Traversal | the snapshot, how it is built from rows, how an id finds its ordinal, how base and delta are read together |
| Watermarks, Lease, Delta | the count check of a delta scan, the protocol around it, the scan itself |
| Trails, AllShortest, Shortest | trail enumeration, ALL SHORTEST, ANY SHORTEST with its memo (ISO/IEC 39075:2024 sections 16.6 and 16.11) |
| Scc, Wcc, Bidirectional | strong and weak components, hop distance by search from both ends |
| Distances, DistanceLimits, IndexedHeap, Sssp | Dijkstra's rounds, when they overflow, the indexed heap, the operator that runs them |
| Triangles, Lcc | triangles and local clustering |
| Modularities, Coarsening, Louvain, Merges, LouvainLevels, LouvainBuild | modularity, contraction, local moves, what convergence means, levels, and the graph they start from |
| Rewrite, Landing, Operators | predicate pushdown through correlated applies (OPTIONAL MATCH: section 14.4), as a function on plans, where it leaves the filters, and as it runs on linked nodes |
| Split | splitting a quantified pattern at shared vertices |

Conventions. A "projected graph" has the vertices the mask keeps and the edges with the required
label; its arcs are `Csr.ProjectedArcs`, and every algorithm's theorem is stated over them, not over
the arrays. Vertices are ordinals; an external id is looked up in `vertexIds`. Weights and scores are
real numbers. A chunk of output rows has an arbitrary size. Vectors that a function owns are sequence
variables, vectors it shares with its callees are arrays, and objects whose methods update fields
(`PathExpansion`, `WeightedSssp`, `ShortestOperator`, `VisitedSet`, `EdgeLabels`, `Side`, `Operator`)
are classes.

## Where a claim fails, and exactly when it holds

* A lease always reflects finished deletes and updates, but not always finished inserts. In every run
  each row it shows was in its table after some commit no earlier than any destructive write whose
  after-commit hook had finished (`Lease.NoFinishedDeleteIsShown`, `Lease.DeletedRowIsNotShown`). An
  insert can be missed: a delete that commits between the comparison of the destructive counters
  (src/gql_csr.cpp:1272-1278) and the row counts of the scan (src/gql_csr.cpp:1736-1747) removes a known
  row, so known and total agree, and the finished insert is not even read:
  `Lease.RacingDeleteHidesFinishedInsert` is such a run. For every run and each table,
  `Lease.NothingIsMissingIff` shows that as many committed rows are missing as known rows have gone,
  and `Lease.RowIsMissingIffRacingDelete` that a row is missing if and only if a destructive write of
  that table was in flight and removed a known row. Without such a write the table is exact
  (`Lease.QuietTableIsExact`), and `Lease.LeaseIsExactIff` says when the whole lease is.
* Predicate pushdown can leave a well-scoped plan unresolved, and the pass then throws: a filter over
  both sides of an INNER APPLY moves into the right side, and if that is again an INNER APPLY it moves
  on to where the left side's binding is not provided (src/gql_optimizer.cpp:230-267);
  `Rewrite.WellScopedPlanMayFail` is such a plan. `Rewrite.OptimizeSucceedsIff` is the condition, and
  `Rewrite.BoundPlansOptimize` shows that plans of the binder's shape always meet it.
* Splitting a pattern at shared vertices keeps its answers if and only if no edge of the graph carries
  two different labels (`Split.SplitsAreSafeIff`). The splitter does not look at the graph; the
  registration of edge tables, which asks for one scalar label column (src/gql_catalog.cpp:62-73,
  175-176, 918-920), is what makes it right.
* ANY SHORTEST with a minimum of 0 behaves as with a minimum of 1 (`Shortest.IsAnswer`): the empty walk
  is never reported.

## Model

| member | source | states |
|---|---|---|
| Scc.NextUnvisited | src/gql_algorithms.cpp:1375-1389 | A frame's offset only moves past edges that lead outside the projection or to visited vertices; it stops exactly at the first edge to an unvisited vertex, or at its end. |
| Scc.Step | src/gql_algorithms.cpp:1369-1394 | One turn of the offset stack (descend or finish) keeps the depth-first invariant: the finish order so far has a cut at every finished vertex. |
| Scc.FinishOrder | src/gql_algorithms.cpp:1362-1395 | The offset-stack search returns every projected vertex once, in an order where each vertex comes last among the block of vertices first reached from it. |
| Scc.FloodIsClass | src/gql_algorithms.cpp:1402-1428 | A finished backward flood from the latest unassigned vertex has collected exactly the vertices mutually reachable with it. |
| Scc.Flood | src/gql_algorithms.cpp:1407-1428 | Returns the mutual-reachability class of its start, each member once, with the least external id of the class, and marks exactly that class. |
| Scc.SameIdIffMutual | src/gql_algorithms.cpp:1429-1432 | Least external ids name classes: two vertices have the same one exactly when each reaches the other. |
| Scc.AssignComponents | src/gql_algorithms.cpp:1397-1433 | After the backward floods in reverse finish order every projected vertex has the least id and the size of its class. |
| Scc.ComputeScc | src/gql_algorithms.cpp:1349-1435 | Two projected vertices have the same component id exactly when each reaches the other along projected edges; the id is the least external id of the class, the size its size, and every projected vertex has both. |
| Csr.ArcsAreSlots | src/gql_algorithms.cpp:399-401 | The projected graph that every algorithm is judged by, over the arrays themselves: two vertices are joined exactly when some slot of the first one's row leads to the second, has the required label if one is required, and both are in the mask if there is one. |
| Labels.LowerIffSameName | src/gql_csr.cpp:560-572 | Lower-casing makes two names equal exactly when they have the same length and differ at most in the case of letters A to Z. |
| Labels.LowerIsTheSmallName | src/gql_csr.cpp:560-572 | The lower-cased form is the one such name without a capital letter. |
| Watermarks.AcceptedScanIsExactIff | src/gql_csr.cpp:1709-1713 | When the count check accepts, known rows plus new rows are the committed rows exactly when no known row has been deleted or updated. |
| Watermarks.AcceptedScanBalances | src/gql_csr.cpp:1709-1713 | An accepted scan leaves a table with exactly as many rows as were committed; those not committed are known rows that have gone. |
| Watermarks.MissingIsLost | src/gql_csr.cpp:1709-1713 | So as many committed rows are missing as known rows have gone, and none is missing exactly when none has. |
| Watermarks.RefusedIffLateRow | src/gql_csr.cpp:1709-1713 | If a table only grew, the scan is refused exactly when some row arrived below the watermark. |
| Lease.StepKeepsInvariant | src/gql_csr.cpp:164-171 | Every step of a writer (plan, prepared write, commit, hook, rollback), of the environment, of a reader (search, compare, lock, scan, publish) and of a build keeps the protocol invariant. |
| Lease.RunKeepsInvariant | src/gql_csr.cpp:209-264 | The invariant holds in every state of every run, whatever the interleaving of plans, commits, hooks, builds and readers. |
| Lease.ReadBaseIsFaithful | src/gql_csr.cpp:697-726 | A build that records the counters before it opens its read transaction never records a counter value for a write whose rows it did not read. |
| Lease.ScanIsFaithful | src/gql_csr.cpp:1887-1909 | A delta published under the catch-up lock keeps the snapshot truthful: each of its rows was in its table at some date since the base was read, and the tables balance with what is committed. |
| Lease.FollowedIsExactIff | src/gql_csr.cpp:1714-1848 | Base plus accepted delta equals the committed rows exactly when no row known before is missing from them; each table balances, and both watermarks stay above all rows read. |
| Lease.LeaseIsExactIff | src/gql_csr.cpp:1850-1918 | In every reachable state a lease is dated no earlier than any write whose hook had finished when the call began, and both tables equal the rows of its date if and only if the rows the snapshot already knew were all still there. |
| Lease.NoFinishedDeleteIsShown | src/gql_csr.cpp:1850-1918 | In every reachable state, racing writes or not, each row of a lease was in its table after some commit no earlier than every destructive write whose hook had finished when the call began. |
| Lease.DeletedRowIsNotShown | src/gql_csr.cpp:1272-1278 | So a row that a finished write deleted or updated away, and that has not come back since, is not in the lease. |
| Lease.NothingIsMissingIff | src/gql_csr.cpp:1736-1769 | Of each table a lease misses exactly as many committed rows as known rows have gone: none if and only if none has. |
| Lease.MissingRowMeansRacingDelete | src/gql_csr.cpp:1736-1769 | If a committed row, such as a finished insert, is missing, then a write that committed after the base was read, by the lease's date and with its hook unfinished at the call removed a known row of the same table. |
| Lease.RowIsMissingIffRacingDelete | src/gql_csr.cpp:1736-1769 | A committed row is missing from a table if and only if there is such a racing write. |
| Lease.QuietTableIsExact | src/gql_csr.cpp:1272-1278 | A table is exactly the committed rows of the lease's date when every destructive write of it that had committed by then had finished its hook before the call. |
| Lease.QuietLeaseIsExact | src/gql_csr.cpp:1272-1278 | When every destructive write committed by the lease's date had finished its hook before the call, both tables are exact, so no finished insert is missing either. |
| Lease.OneBuildAtATime | src/gql_csr.cpp:1674-1703 | In no reachable state do two processes build the graph at once. |
| Lease.RacingDeleteHidesFinishedInsert | src/gql_csr.cpp:1736-1769 | A complete run, step by step, in which a lease misses a row whose insert had finished, because a delete committed after the counters were compared. |
| Delta.TryGetOrdinal | src/gql_csr.cpp:446-460 | Looks an id up in base and delta: found exactly when the snapshot or its delta knows the id, with the ordinal that carries it. |
| Delta.AddVertices | src/gql_csr.cpp:1780-1818 | Accepts the new vertex rows exactly when all ids are present and new and all labels are already populated; the delta then represents old and new rows, every label of every row is one the base counts as populated, and the watermark is past the last row. |
| Delta.AddEdge | src/gql_csr.cpp:1819-1845 | Accepts an edge row exactly when it is complete, its label is in use, both ends are known and its id agrees with its row id where the base relies on that; the delta then represents one more row in both directions, and where the base says so every represented edge row still has the id one past its row id. |
| Delta.ScanCsrDelta | src/gql_csr.cpp:1714-1848 | Returns true exactly when tables, counts, row limit and every new row fit; the new delta then represents the known rows followed by the new ones. |
| Delta.AcceptedScanHolds | src/gql_csr.cpp:1736-1773 | The scan of the tables refines the protocol's count check of each table: its rows are the known rows and the rows at or past the watermark, each once, and the new watermark is where the next scan starts. |
| Delta.InsertsAreFollowed | src/gql_csr.cpp:1709-1713 | If only inserts happened since the last read, in any commit order, and the scan is accepted, base plus delta lists exactly the committed rows, each once. |
| Delta.LateRowIsRefused | src/gql_csr.cpp:1711-1712 | If a row was committed late below a watermark the scan is refused. |
| Delta.SameRowsMeetSameEdges | src/gql_csr.cpp:515-535 | At every vertex, in either direction, a traversal of base plus delta meets the same bag of edges (far id, edge id, label) as one of any snapshot rebuilt from all committed rows, whatever ordinals and label numbers the two use; and so does the filtered traversal for every label name, known to the snapshot or not. |
| Traversal.EdgesOf | src/gql_csr.cpp:515-535 | The visitor is called on the base row's edges with the label, in order, and then on the delta's. |
| Traversal.LabelArcsAreEdges | src/gql_csr.cpp:515-535 | The graph of a label that path searches are judged by, over the arrays and the delta: two vertices are joined exactly when a base slot or a delta edge with the label joins them. |
| Ordinals.InterpolationShrinks | src/gql_csr.cpp:402-427 | An interpolated probe, however it splits, costs one round of the bound. |
| Ordinals.BisectionHalves | src/gql_csr.cpp:402-427 | A bisecting probe halves the range, which pays for itself and the interpolation before it. |
| Ordinals.Probe | src/gql_csr.cpp:408-420 | Every probe, interpolated or not, stays inside the range being searched. |
| Ordinals.Search | src/gql_csr.cpp:404-432 | On strictly increasing ids, found exactly when the id is present, with its ordinal; fewer than 2^k ids take at most 2k rounds. |
| Ordinals.TryGetCsrOrdinal | src/gql_csr.cpp:385-433 | The dense, hashed and searched lookups all return the ordinal of an id exactly when it is present. |
| Build.ReadVertexIds | src/gql_csr.cpp:775-788 | Accepts ordered keys exactly when none is NULL and none repeats; the ids are then strictly increasing. |
| Build.BuildIndex | src/gql_csr.cpp:829-845 | The dense shortcut or the hash it builds indexes exactly the ids read. |
| Build.EdgeLabels.Reset | src/include/gql_csr.hpp:449-458 | Gives every slot the initial label, stored once when uniform. |
| Build.EdgeLabels.MaterializeUniform | src/include/gql_csr.hpp:465-471 | Changes the representation and no slot's label. |
| Build.NumberLabel | src/gql_csr.cpp:560-572 | A label known in any case keeps its number, a new one gets the next, so numbers stay distinct and no name loses its number; no label is number 0. |
| Build.OneNumberIffSameName | src/gql_csr.cpp:560-572 | Two labels have one number exactly when they differ at most in case. |
| Build.Side.FinalizeOffsets | src/gql_csr.cpp:378-383 | Prefix sums turn counted rows into each row's start: the number of edges of all earlier vertices. |
| Build.Side.Place | src/gql_csr.cpp:1092-1117 | Writing the next edge at its row's cursor never leaves the row and never overwrites a placed edge. |
| Build.CountEdges | src/gql_csr.cpp:919-973 | The first pass succeeds exactly when every edge has its keys and ends and the count is as announced, and has then counted each row, and says truly whether ids match row ids. |
| Build.OffsetsForOtherScan | src/gql_csr.cpp:977-1011 | Offsets counted over one scan fit any other scan of the same rows, in whatever order it returns them. |
| Build.ShareLabel | src/gql_csr.cpp:1073-1090 | The uniform shortcut: while labels agree one number is kept, and the first differing label, however late, materialises it without losing any placed edge's label. |
| Build.ScatterEdges | src/gql_csr.cpp:1013-1123 | The second pass fails exactly on a repeated or missing key or a wrong label, and otherwise has placed every edge in both directions with its own label. |
| Build.BuildEdges | src/gql_csr.cpp:907-1123 | Counting over one scan and scattering over another gives both arrays exactly when both scans are acceptable. |
| Build.RowListsEdges | src/gql_csr.cpp:1092-1117 | The slots of row v are the edges leaving v, in scan order, each with its own target, id, label and weight, and no other. |
| Build.BuildIsTransposed | src/gql_csr.cpp:1092-1117 | What is built is a valid snapshot: the incoming arrays are the transpose of the outgoing ones, label by label. |
| Build.BuildRepresentsRows | src/gql_csr.cpp:656-1123 | A fresh snapshot represents exactly the rows it was built from, in whatever order they were scanned, and what it says of ids and row ids holds of them; which is where the delta's theorems start. |
| Trails.TakeStep | src/gql_csr.cpp:3413-3444 | Following an edge turns the remaining trails into the one it reports, if long enough, and the trails that remain after it. |
| Trails.PopStep | src/gql_csr.cpp:3402-3412 | Leaving an exhausted frame, with the edge that led to it, loses no trail. |
| Trails.PathExpansion.constructor | src/gql_csr.cpp:3334-3390 | A new expansion still has all trails of the recursive specification to produce, the empty one first when the minimum is 0. |
| Trails.PathExpansion.IsRepeated | src/gql_csr.cpp:3420-3433 | Linear search and, from 64 edges on, the hashed set both answer whether the edge is on the current path; switching changes nothing. |
| Trails.PathExpansion.Next | src/gql_csr.cpp:3392-3447 | Each call produces the next trail of the specification, or reports the end exactly when none is left; it terminates also without a maximum. |
| Trails.PathExpansion.Fill | src/gql_csr.cpp:3449-3482 | Chunks of any size, put together, show the specification's sequence of trails: the last edge's id, the start as source and the trail's end as target along the edges, the other way round against them; a chunk that is not full is the last. |
| Trails.AllTrailsAreExact | src/gql_csr.cpp:3392-3447 | The trails produced are exactly the walks from the start over edges with the label that repeat no edge id and have an allowed length. |
| Trails.AllTrailsDiffer | src/gql_csr.cpp:3392-3447 | No trail is produced twice. |
| AllShortest.GatherLevel | src/gql_csr.cpp:2987-2994 | A level maps each vertex not yet settled to all edge steps that enter it from the frontier, parallel edges one by one. |
| AllShortest.LevelIsNext | src/gql_csr.cpp:2984-3001 | The vertices of the gathered level are exactly those at positive distance depth + 1, the start itself included when a cycle returns to it. |
| AllShortest.Settle | src/gql_csr.cpp:2995-3000 | The level becomes the frontier, each vertex once, and the target is found exactly when it is in the level. |
| AllShortest.BackIsExact | src/gql_csr.cpp:3011-3050 | Walking predecessors back from a vertex of level k yields exactly the walks of k edges from the start to it. |
| AllShortest.BackDiffer | src/gql_csr.cpp:3011-3050 | No edge sequence is yielded twice. |
| AllShortest.WalkBack.Walk | src/gql_csr.cpp:3011-3050 | The recursive walk over a shared path array emits the rows of exactly those walks, numbered consecutively, and restores the part of the path above its level. |
| AllShortest.RowsShowPaths | src/gql_csr.cpp:3031-3039 | The rows emitted for paths of one length show them one after the other and numbered from the first: per step the edge's id and its ends in the direction of the edge, otherwise one row from start to target for each path. |
| AllShortest.Search | src/gql_csr.cpp:2979-3051 | The rows show exactly the minimum positive-length walks from start to target, each edge sequence once, as many rows as edges when they are shown step by step and each such row an edge of the graph in its direction; the length is the distance; none when that exceeds the maximum. |
| Shortest.VisitedSet.Insert | src/gql_csr.cpp:2691-2710 | Adds the ordinal to the set it stands for and tells whether it was absent, also when the set moves to its bitmap. |
| Shortest.VisitedSet.Contains | src/gql_csr.cpp:2686-2688 | Sparse and dense forms answer membership of the same set. |
| Shortest.VisitedSet.Clear | src/gql_csr.cpp:2712-2717 | Empties the set in either form. |
| Shortest.NextLevel | src/gql_csr.cpp:2788-2814 | One level of the search finds exactly the vertices whose least allowed walk is one longer, with walks below the minimum not settling anything. |
| Shortest.DepthIsBounded | src/gql_csr.cpp:2788-2814 | An unbounded search ends: beyond the minimum every level takes a vertex of its own. |
| Shortest.SearchFrom | src/gql_csr.cpp:2784-2814 | Reports each vertex once with the least length of a walk from the start among those of at least the minimum of arcs, or one where the minimum is 0, if that is within the maximum; a targeted search reports the same for its target alone. |
| Shortest.LookupIsResult | src/gql_csr.cpp:2773-2779 | A lookup in the memo of a full search is the targeted search's result. |
| Shortest.ShortestOperator.Search | src/gql_csr.cpp:2765-2825 | Whatever was asked before, targeted search, full search with memo and lookup give the same answer for a row. |
| Bidirectional.ExpandLayer | src/gql_algorithms.cpp:2841-2866 | Expanding a frontier either meets the other side's ball or grows this side's ball by exactly one complete layer. |
| Bidirectional.BallsAreDisjoint | src/gql_algorithms.cpp:2820-2824 | Between layers no vertex lies within forward depth of the source and within backward depth of the target. |
| Bidirectional.NoShortWalk | src/gql_algorithms.cpp:2820-2824 | So no walk from source to target has at most forward depth + backward depth edges. |
| Bidirectional.ForwardMeets | src/gql_algorithms.cpp:2853-2864 | The first connecting edge met while going forward gives the hop distance forward depth + backward depth + 1. |
| Bidirectional.BackwardMeets | src/gql_algorithms.cpp:2853-2864 | The same while going backward. |
| Bidirectional.ForwardExhausted | src/gql_algorithms.cpp:2835-2875 | An empty forward layer means that the target is unreachable. |
| Bidirectional.BackwardExhausted | src/gql_algorithms.cpp:2835-2875 | An empty backward layer means the same. |
| Bidirectional.ComputeShortestPathLength | src/gql_algorithms.cpp:2794-2876 | Returns the exact directed hop distance, 0 for equal ends, and -1 exactly when the target is unreachable, whichever side the work estimate picks each round. |
| Wcc.CompressionKeeps | src/gql_algorithms.cpp:1272-1276 | Pointing a vertex at its root keeps the forest acyclic and every vertex's root. |
| Wcc.FindComponentRoot | src/gql_algorithms.cpp:1267-1278 | Two-pass path compression returns the root and keeps the partition. |
| Wcc.HeightIsLogarithmic | src/gql_algorithms.cpp:1306-1315 | With union by size, a vertex's height h satisfies 2^h <= size of its tree. |
| Wcc.Union | src/gql_algorithms.cpp:1306-1315 | Links the smaller tree under the larger, joins the two vertices and only coarsens the partition along an arc. |
| Wcc.TreesAreComponents | src/gql_algorithms.cpp:1292-1317 | Once all arcs are joined, two vertices share a root exactly when they are joined in the symmetric closure. |
| Wcc.ComputeWcc | src/gql_algorithms.cpp:1280-1341 | Two projected vertices share a component id exactly when joined in the symmetric closure of projected edges; the id is the least external id and the size the true size. |
| IndexedHeap.SwapKeepsPositions | src/gql_algorithms.cpp:536-540 | Swapping two heap slots keeps `positions[heap[i]] == i` and the set of queued vertices. |
| IndexedHeap.RootIsFirst | src/gql_algorithms.cpp:533-571 | In a heap no queued vertex is nearer than the root, ties broken by ordinal. |
| Sssp.WeightedSssp.Decrease | src/gql_algorithms.cpp:541-552 | Queues or raises a vertex whose distance may have dropped: heap order and positions hold afterwards and exactly that vertex may be new. |
| Sssp.WeightedSssp.Pop | src/gql_algorithms.cpp:553-571 | Removes the root; heap order and positions hold for the rest. |
| Sssp.RowsAreProjected | src/gql_algorithms.cpp:581-602 | The graph searched has at every vertex one edge for each selected slot of the arrays along the direction, in order, with the slot's neighbour, edge id and weight. |
| Sssp.ValidateWeights | src/gql_algorithms.cpp:615-631 | Accepts exactly when no selected slot of the arrays along the direction, reachable or not, has a negative weight. |
| Distances.NextIsNearest | src/gql_algorithms.cpp:652-653 | When an open vertex of least label is settled, its label is its minimum path weight in the projected graph. |
| Distances.RunIsShortestPathTree | src/gql_algorithms.cpp:648-684 | The rows of any run have true distances in non-decreasing order, no vertex twice, and parent edges that form a shortest-path tree rooted at the start; at equal distance the smaller ordinal comes first unless it was reached only later, and the parent is the first row that offers the distance. |
| Distances.CompleteRunReachesAll | src/gql_algorithms.cpp:648-684 | A run with nothing left to settle has a row for exactly the reachable vertices. |
| Distances.ShorterRunIsPrefix | src/gql_algorithms.cpp:665-668 | Runs from one start agree: a run that stops at a target is a prefix of the full run. |
| DistanceLimits.RunOverflowsIff | src/gql_algorithms.cpp:669-676 | A search overflows exactly when a run of it, not yet at its target, settles a vertex whose distance and an edge's weight are together above the limit and whose edge leads to a vertex without a row. |
| DistanceLimits.OverflowLeadsPast | src/gql_algorithms.cpp:669-676 | In terms of costs alone: when it overflows, some edge leads past the limit from the distance of its source to a vertex that is no nearer. |
| DistanceLimits.PastEdgeOverflows | src/gql_algorithms.cpp:669-676 | And a search without a target overflows whenever such an edge leads to a vertex that is farther away; only among equally distant vertices does the order of settling decide. |
| Sssp.WeightedSssp.RelaxEdges | src/gql_algorithms.cpp:669-683 | Relaxing a row in place equals relaxing it in the specification, keeps the heap, and reports overflow exactly when the specification does. |
| Sssp.WeightedSssp.NextRow | src/gql_algorithms.cpp:652-683 | Each step appends one row of the run and finishes exactly at the target. |
| Sssp.WeightedSssp.Fill | src/gql_algorithms.cpp:641-686 | Unless overflow is raised, the rows of all chunks so far form a shortest-path tree of the graph in the arrays, and a chunk that is not full ends the answer: all reachable vertices, or the prefix ending at the target. |
| Sssp.WeightedSssp.RowsAgree | src/gql_algorithms.cpp:665-668 | Two searches from the same start agree row by row, whatever their targets and chunk sizes. |
| Pairs.SortedUniqueIsSort | src/gql_algorithms.cpp:1527-1528 | Sorting and dropping repeats keeps exactly the pairs, in order, each once. |
| Pairs.ListPairs | src/gql_algorithms.cpp:1506-1528 | Lists every edge of the projected simple graph once: no loops, no parallel edges, and one pair for both directions when they are dropped. |
| Pairs.DegreeIsNeighbors | src/gql_algorithms.cpp:1530-1534 | The counted degree is the number of distinct neighbours. |
| Triangles.Orient | src/gql_algorithms.cpp:1535-1554 | Counting and scattering by the lower (degree, ordinal) end gives each vertex its forward neighbours, each once. |
| Triangles.CornersDetermineTriple | src/gql_algorithms.cpp:1536-1539 | The rank order leaves one way to list a triangle's corners. |
| Triangles.CloseSource | src/gql_algorithms.cpp:1568-1585 | Marking a source's forward row and closing over its middles finds exactly the triples that start at the source, each once, and bumps the counter of each corner. |
| Triangles.TraceIsTriangles | src/gql_algorithms.cpp:1561-1586 | The triples found are the triangles of the simple graph, each exactly once. |
| Triangles.TotalIsThrice | src/gql_algorithms.cpp:1579-1582 | The per-vertex counters sum to three times the number of triples. |
| Triangles.ComputeTriangleCounts | src/gql_algorithms.cpp:1496-1587 | Each vertex's count is the number of triangles through it, the global count is the number of triangles, the counts sum to three times it, and degrees count neighbours. |
| Lcc.DropDirections | src/gql_algorithms.cpp:1676-1682 | Dropping the direction of the listed arcs lists each edge of the simple graph once. |
| Lcc.BuildNeighborhood | src/gql_algorithms.cpp:1684-1703 | After the two-way scatter and the sort of every row, row v is the strictly increasing list of v's neighbours. |
| Lcc.MergeRows | src/gql_algorithms.cpp:1714-1730 | Merging two sorted rows bumps the counter of every common vertex once and no other. |
| Lcc.ComputeLcc | src/gql_algorithms.cpp:1640-1733 | Each vertex's count is the number of ordered pairs u to w that are distinct projected arcs with both ends among its neighbours. |
| Lcc.ArcsAmongBound | src/gql_algorithms.cpp:1754-1757 | That number is at most d(d-1), and equal to it exactly when every ordered pair of neighbours is an arc. |
| Lcc.ClusteringRange | src/gql_algorithms.cpp:1754-1757 | The reported coefficient is the share of ordered pairs of neighbours that are joined, and 0 below two neighbours; it lies between 0 and 1 and is 1 exactly when the neighbours form a directed clique. |
| Lcc.SymmetricCountsTriangles | src/gql_algorithms.cpp:1705-1708 | On symmetric input the count is twice the number of triangles through the vertex. |
| Lcc.TriangleCoefficientIsClustering | src/gql_algorithms.cpp:1609-1612 | The triangle coefficient 2T/(d(d-1)) is the clustering coefficient of the symmetric closure, so it lies between 0 and 1. |
| LouvainBuild.NumberVertices | src/gql_algorithms.cpp:1857-1866 | Projected vertices are numbered in ordinal order and the two maps are inverse. |
| LouvainBuild.VisitLouvainNeighbors | src/gql_algorithms.cpp:1833-1852 | Over both directions the marker lets each neighbour other than the vertex itself through exactly once. |
| LouvainBuild.BuildLouvainGraph | src/gql_algorithms.cpp:1854-1900 | Both passes together build the symmetric simple graph of the projection with weight 1 on every edge, consistent degrees and total. |
| LouvainBuild.NameCommunities | src/gql_algorithms.cpp:2158-2169 | Every community gets the least external id and the number of its members. |
| LouvainBuild.ComputeLouvain | src/gql_algorithms.cpp:2117-2171 | Every projected vertex is shown with its community's least id and size, with the modularity of the communities in the projected simple graph: above that of single vertices unless these are settled, and by more than twice the tolerance for every pass beyond the last of each level. Without convergence a limit was reached; at convergence no merge of two communities gains more than twice the tolerance. |
| Modularities.BondIsScore | src/gql_algorithms.cpp:1968-1971 | The score of a community is, up to the factor total degree, the modularity that the vertex would share with it. |
| Modularities.MoveGain | src/gql_algorithms.cpp:1967-1985 | Moving one vertex changes modularity by exactly 2 / total degree times the difference of the scores. |
| Louvain.MoveRaises | src/gql_algorithms.cpp:1977-1982 | Every move made raises modularity by more than twice the tolerance. |
| Louvain.GatherAffinities | src/gql_algorithms.cpp:1943-1965 | Epoch markers gather the weight from the vertex into each neighbouring community, its own first, each community once. |
| Louvain.ChooseCommunity | src/gql_algorithms.cpp:1972-1983 | Leaves the community only for one whose score beats the current one by more than the tolerance, and stays only when no candidate does; without a tolerance it picks the best score, and of several the smallest label. |
| Louvain.Sweep | src/gql_algorithms.cpp:1933-1987 | A sweep raises modularity by more than twice the tolerance for each move; a sweep without a move leaves every vertex settled. |
| Louvain.CompactLabels | src/gql_algorithms.cpp:1995-2003 | Renumbering keeps the partition, uses every number below the count, and gives the numbers out in order of first appearance. |
| Louvain.LouvainLocalMove | src/gql_algorithms.cpp:1909-2005 | Modularity grows by more than twice the tolerance per move; every pass but a last one that converges makes a move, at least one move is made when single vertices are not settled, and without convergence all passes allowed were made; when it reports convergence no vertex of positive degree can improve by more than the tolerance. |
| LouvainLevels.CoarsenLouvainGraph | src/gql_algorithms.cpp:2007-2073 | The contracted graph has between two communities the total weight between their members, and keeps the total degree. |
| Coarsening.ContractedIsValid | src/gql_algorithms.cpp:2057-2071 | Contraction keeps row sums, total degree and symmetry. |
| Coarsening.ContractionKeepsModularity | src/gql_algorithms.cpp:2007-2073 | Every partition of the contracted graph has the modularity of the partition it stands for in the graph it contracts. |
| LouvainLevels.ModularityByCommunity | src/gql_algorithms.cpp:2080-2096 | Internal weight minus squared community degrees is the pairwise definition of modularity. |
| LouvainLevels.LouvainModularity | src/gql_algorithms.cpp:2075-2097 | Computes the modularity of the partition, and 0 for a graph without edges. |
| Merges.SettledMergesGainLittle | src/gql_algorithms.cpp:2146-2148 | A level that converged without merging anything leaves no pair of its vertices, adjacent or not, whose merge would gain more than twice the tolerance. |
| LouvainLevels.ClusterLevels | src/gql_algorithms.cpp:2129-2157 | After any number of levels the labels are a partition of the original vertices, the modularity returned is that partition's in the original graph, and it has risen above that of single vertices unless these are settled, by more than twice the tolerance for every pass beyond the last of each level; a call that does not converge has met a limit, and at reported convergence merging no two communities raises modularity by more than twice the tolerance. |
| Rewrite.EvaluateReadsBindings | src/gql_optimizer.cpp:67-91 | An expression's value depends only on the bindings collected from it. |
| Rewrite.PushKeepsRows | src/gql_optimizer.cpp:230-267 | Wherever the filter lands, the rewritten plan gives, for every enclosing row, the child's rows that satisfy it, in order, and the same bindings; null extension included. |
| Rewrite.RewriteKeepsMeaning | src/gql_optimizer.cpp:269-287 | The rewritten plan produces the same rows for every enclosing row and the same output bindings, through any nesting of INNER and LEFT APPLY. |
| Rewrite.PushLeavesNullSides | src/gql_optimizer.cpp:249-263 | A filter never enters the null-extended side of a LEFT APPLY. |
| Rewrite.RewriteKeepsNullSides | src/gql_optimizer.cpp:269-287 | The whole pass rewrites each null-extended side by itself: no filter enters it from outside and none leaves it. |
| Rewrite.NullSideFilterMatters | src/gql_optimizer.cpp:249-263 | Why it must not: moving a filter into that side can bring rejected rows back. |
| Landing.FilterLands | src/gql_optimizer.cpp:230-267 | A pushed filter stands at the one place its bindings lead it to: left wherever the left side binds all it reads, right only past an INNER APPLY, and as far down as it can go; the plan is otherwise unchanged. |
| Landing.RewriteLandsAll | src/gql_optimizer.cpp:269-287 | After the pass no filter stands above an apply that it could enter. |
| Landing.InferredReadsAreBound | src/gql_optimizer.cpp:93-215 | A plan that passes inference, run below a row that binds what it requires, never evaluates a predicate or a projection on a row that lacks a binding it reads. |
| Landing.OptimizedReadsAreBound | src/gql_optimizer.cpp:288-306 | So the plan that the pass returns reads nothing unbound. |
| Rewrite.RewriteInfers | src/gql_optimizer.cpp:93-215 | The rewrite keeps inferred properties, and the rewritten plan infers exactly when the plan did and its filters sink resolved. |
| Rewrite.OptimizeSucceedsIff | src/gql_optimizer.cpp:288-306 | The pass succeeds exactly on well-scoped plans whose filters find what they read at every INNER APPLY whose right side they enter. |
| Rewrite.WellScopedPlanMayFail | src/gql_optimizer.cpp:230-267 | A well-scoped plan on which the pass throws. |
| Rewrite.BoundPlansOptimize | src/gql_binder.cpp:770-830 | Every well-scoped plan of the binder's shape, stages applied one after the other, passes. |
| Operators.Operator.InferProperties | src/gql_optimizer.cpp:93-215 | The cached inference of a node equals the inference of the plan it stands for, and none where it throws. |
| Operators.Operator.ClearProperties | src/gql_optimizer.cpp:217-228 | Clears the cached properties of every node of the tree and changes no plan. |
| Operators.PushFilter | src/gql_optimizer.cpp:230-267 | Rewiring nodes in place yields a valid tree over the same nodes whose plan is the specification's pushed plan, and fails exactly where that is undefined. |
| Operators.RewritePredicates | src/gql_optimizer.cpp:269-287 | The in-place rewrite of a tree refines the rewrite of its plan. |
| Operators.GqlOptimize | src/gql_optimizer.cpp:288-306 | The whole pass over a linked tree refines the pass over plans and leaves valid cached properties. |
| Split.ReadGuard | src/gql_binder.cpp:112-127 | One pass over the edges decides exactly whether some edge is quantified, there are two or more, none searches for shortest paths, and each has one label that no other edge has in any case. |
| Split.SplitQuantifiedPattern | src/gql_binder.cpp:111-136 | Appends the pattern, or its three-element parts when the guard allows it; over graphs whose edges carry one label each, the whole stage has the same answers either way, variable-length edges included. |
| Split.PartsMatchTogether | src/gql_binder.cpp:108-110 | A row matches the whole pattern, edges distinct throughout, exactly when it matches every part, edges distinct per part. |
| Split.SplitsAreSafeIff | src/gql_binder.cpp:108-110 | All splits keep all answers of a graph exactly when none of its edges carries two different labels. |
| Split.TwoLabelsBreakSplit | src/gql_binder.cpp:108-110 | Out along one label and back along the other: for any edge with two labels, the pattern and the row on which the split differs. |

## Left out

- Lease: graph registration and deletion, prepared-plan caches and the per-statement lease reuse of `AcquireFullLease`; one graph, its two tables and their counters are modelled, a search for a saved CSR finds nothing, and scans read one committed state.
- Lease.LeaseIsExactIff: the stronger promise, that a lease never misses a finished insert, is false; the section above names the run and the exact condition.
- Rewrite.OptimizeSucceedsIff: the stronger promise, that pushdown never leaves a binding unresolved, is false; see the section above.
- Distances.RunIsShortestPathTree: weights are real numbers, so rounding is not modelled; overflow is a distance above an arbitrary limit.
- Sssp.ValidateWeights: NULL, NaN and infinite weights, which the source also rejects, are not real numbers and so not modelled.
- Louvain.LouvainLocalMove: exact arithmetic, so what floating point adds to scores and modularity is not modelled.
- AllShortest.Search: the node values fetched for each path, and the reversal of the node list, are not modelled.
- Build.BuildEdges: all capabilities at once; partial builds, vertex-label postings, edge statistics, out-degrees and compact storage widths are not modelled.
- Build.EdgeLabels.Set: requires the explicit form, as the source's assertion does.
- Operators.Operator: nodes of one tree are disjoint; a plan whose nodes are shared between two parents is not modelled.
- Rewrite.InferProperties: outputs and required bindings only; nullable and correlated bindings and row-count bounds do not influence the rewrite.
- Rewrite.RewriteKeepsMeaning: rows hold graph bindings; what CALL and PROJECT compute from them is an arbitrary function of the rows below.
- Split.Matches: path search modes and element predicates are not part of a pattern's meaning; patterns with a search are never split.
- Sorting is the library's; its result is specified by insertion sort.
- Interrupts, memory accounting, page pinning and eviction, and saving and loading snapshots.
- Referenced graphs, and graphs with more than one edge table.
- Parsing, binding of expressions, SQL generation, lowering, cost model and access-path choice.
- PageRank, breadth-first and depth-first table functions: easier than, or subsumed by, the searches above; floating-point convergence has no exact statement.
- Reading parameters and writing rows into vectors.
