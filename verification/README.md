# Verified models of OSRM algorithms

A Dafny model of the parts of the OSRM routing engine (Project-OSRM) where correctness is hardest to see from the
code, with proofs of what each part promises. Every file is plain Dafny 4.11; `dafny verify dfyconfig.toml` verifies
the project.

What is modelled, and the main result about it:

- **Strongly connected components** (`FiniteSets`, `Sums`, `Reachability`, `TarjanState`, `TarjanSteps`,
  `TarjanFinish`, `TarjanScc`). The iterative Tarjan search with its explicit recursion stack, its flag vector and its
  stale frames computes exactly the strongly connected components, in reverse topological order, with exact sizes.
- **Multi-level cell customization** (`Typedefs`, `Walks`, `CellSearch`, `CellOverlay`, `QueryHeap`, `CellCustomizer`,
  `EdgeReader`, `CellStorage`). Every matrix entry on every level is the lexicographically least (weight, duration,
  distance) over all walks of allowed nodes inside the cell, or INVALID when there is none, although the search stops
  early, uses the matrices of the level below instead of their edges, and skips clique arcs after clique arcs. From
  disk to matrix, whatever edges are read: every weight in a matrix is the least weight of driving along those edges
  inside the cell, or INVALID when that is impossible (`CellStorages.CustomizeEdges`).
- **Edges for contraction** (`ContractorGraph`, `Permutations`, `EdgeContainer`, `ExcludableGraph`). Building the
  contractor graph by in-place compaction keeps all shortest distances; the shared edge container selects, for each
  filter, exactly the edges it should, and the exact condition under which it stores no edge twice is given.
- **FlatBuffers** (`ByteBuffer`, `FlatTables`, `Utf8`, `FlatStrings`, `FlatBuilder`). A buffer built backwards with
  alignment, growth, trimmed and shared vtables, strings, vectors and references reads back what was written; the
  exact conditions are given where it does not.
- **Shared-memory datasets** (`DataWatchdog`, `WatchdogProgress`, `WatchdogData`). Writers, any number of servers and
  their readers as a step protocol; safety over all interleavings, what a load fills in is what it publishes, and from
  every reachable state there is a way to free the mutex and to finish the load that is under way.
- **Snapping** (`Snapping`, `PhantomNodes`). The nearest-with-alternative queries and the splitting of weights at the
  snapped point.
- **Routes and hints** (`RouteResults`, `Base64`). Merging legs conserves steps and accounts for weights and durations
  exactly; Base64 round trip.

Conventions. Code that updates state is a class or a method with loops, proved against a specification; concurrent
code is a step relation over an explicit state. Integers are unbounded; 16- and 32-bit representations are modelled
where the code stores them in bytes. Costs and geometric distances are `real`.

Four properties turned out false of the code as stated for all inputs. Each has a concrete input and an exact
condition:

- A field of a FlatBuffers table is found by the reader if and only if the vtable's length and the field's distance
  fit a *signed* 16-bit number (`FlatTables.LookupsSucceedIff`); `FlatBuilders.FarField` builds a table whose field is
  not.
- A UTF-16 string comes back from the buffer unchanged if and only if every high surrogate in it is followed by a low
  one (`Utf8.ReturnedIff`, `Utf8.BadPairIsMangled`); lone low surrogates survive.
- Not every reserved shared-memory key is released again. Between loads a key outside the register is still reserved
  if and only if a load failed, or its swap timed out, while the key was its own (`DataWatchdog.KeyIsLostIff`).
  `DataWatchdog.FirstLoadFails` is a run that loses the static key of a load whose updatable files cannot be read,
  `DataWatchdog.FirstSwapTimesOut` one that loses two.
- The shared edge container may store an edge twice. It does not if and only if the stored edges differ, each new edge
  that is stored already comes in order and meets its copy first, and the other new edges differ
  (`EdgeContainers.DistinctIffNoDoubles`); two stored edges that come again in the other order do not meet that
  (`EdgeContainers.SwappedEdgesAreDoubled`). Over all merges the condition is `NeverDoubled`, in terms of the lists
  that go in (`ExcludableGraph.CombineCores`). Lists sorted only by source and target, as `toEdges` makes them (line
  65 of `include/contractor/query_edge.hpp`), need not either.

Where a comment and the code disagree the code is followed. The `continue` at line 178 of
`include/customizer/cell_customizer.hpp`, which would not advance the parallel iterators, is shown never to be taken.
Positive edge weights, which the early stop needs, are established where the graph is read and kept by what follows
(`EdgeReaders.SplitBidirectionalEdges`, `EdgeReaders.LoadGraph`). An edge of the contractor graph that is open both
ways carries the duration and the distance of its forward direction only, also where those of the other direction
differ. Parallel edges on disk are merged by weight alone, so the duration in a matrix is that of a walk of least
weight, not the least such duration on disk.

## Model

| member | source | states |
|---|---|---|
| `TarjanScc.TarjanSCC.Run` | include/extractor/tarjan_scc.hpp:60-170 | for every graph: same component id exactly when mutually reachable, ids dense, sizes exact and summing to the node count, no edge leads to a larger id, size-one count exact; terminates |
| `TarjanScc.Drain` | include/extractor/tarjan_scc.hpp:77-159 | emptying the recursion stack keeps the invariant and closes every node it opened |
| `TarjanScc.Step` | include/extractor/tarjan_scc.hpp:84-158 | one frame, whether stale, before or after the recursion, keeps the invariant and makes progress |
| `TarjanScc.BeforeRecursion` | include/extractor/tarjan_scc.hpp:96-126 | numbering a node and scanning its edges keeps the invariant |
| `TarjanScc.AfterRecursion` | include/extractor/tarjan_scc.hpp:127-158 | handing the low-link up, or closing a component, keeps the invariant |
| `TarjanScc.PopComponent` | include/extractor/tarjan_scc.hpp:136-146 | pops exactly the nodes above and including the root, gives each the next id, records their number, touches no other node |
| `TarjanScc.TarjanSCC.GetNumberOfComponents` | include/extractor/tarjan_scc.hpp:172-172 | the number of components of the decomposition |
| `TarjanScc.TarjanSCC.GetSizeOneCount` | include/extractor/tarjan_scc.hpp:174-174 | the number of components with one node |
| `TarjanScc.TarjanSCC.GetComponentSize` | include/extractor/tarjan_scc.hpp:176-179 | the number of nodes with that id |
| `TarjanScc.TarjanSCC.GetComponentID` | include/extractor/tarjan_scc.hpp:181-181 | equal for two nodes exactly when they are mutually reachable |
| `TarjanScc.AllClosedIsDecomposition` | include/extractor/tarjan_scc.hpp:60-160 | when all nodes are closed the invariant is the full decomposition |
| `TarjanSteps.TopIsActiveOrPending` | include/extractor/tarjan_scc.hpp:84-96 | the flag vector tells an active frame from a pending one even with duplicate frames of a node on the stack |
| `TarjanSteps.DropStale` | include/extractor/tarjan_scc.hpp:91-94 | dropping a frame whose node has been numbered meanwhile loses no edge |
| `TarjanSteps.VisitKeepsInv` | include/extractor/tarjan_scc.hpp:98-125 | all parts of the invariant survive numbering a node and scanning its edges, although low-links ignore edges to nodes found later |
| `TarjanFinish.HandUpKeepsInv` | include/extractor/tarjan_scc.hpp:129-131 | so they do when the low-link is handed to the parent |
| `TarjanFinish.CloseKeepsInv` | include/extractor/tarjan_scc.hpp:134-156 | so they do when a component is closed |
| `TarjanFinish.PopKeepsComponents` | include/extractor/tarjan_scc.hpp:136-146 | the popped nodes are mutually reachable and reach, outside themselves, only components closed before |
| `Reachability.ReachObeysLaws` | include/extractor/tarjan_scc.hpp:109-111 | reachability along adjacent edges is reflexive, transitive and contains every edge: the reference the search is proved against |
| `CellCustomizer.Customize` | include/customizer/cell_customizer.hpp:115-136 | every row of every level holds, per destination, the weight, duration and distance summed along a path of allowed nodes inside the cell, and no other such path has less weight, or the same and less duration, or the same of both and less distance; INVALID exactly when there is no such path |
| `CellCustomizer.LevelSaysSo` | include/customizer/cell_customizer.hpp:188-228 | what is proved of walks and costs is that, said of node lists and of the three numbers of each edge |
| `CellCustomizer.EntrySaysSo` | include/customizer/cell_customizer.hpp:89-108 | the same for one entry |
| `Walks.TotalSums` | include/customizer/cell_customizer.hpp:181-219 | the cost of a walk is the sum of its weights, of its durations and of its distances |
| `Walks.AtMostMeans` | include/customizer/cell_customizer.hpp:188-191 | costs are compared by weight, then by duration, then by distance |
| `CellCustomizer.CustomizeLevel` | include/customizer/cell_customizer.hpp:124-135 | the same for one level with the cells taken in any order, given the level below |
| `CellCustomizer.CustomizeCell` | include/customizer/cell_customizer.hpp:36-113 | the same for one cell; no other row changes |
| `CellCustomizer.CustomizeSource` | include/customizer/cell_customizer.hpp:48-112 | the same for one source; a source that is not allowed leaves its row INVALID |
| `CellCustomizer.Search` | include/customizer/cell_customizer.hpp:55-86 | stopping once all allowed destinations are settled, each has its least cost or was never inserted |
| `CellCustomizer.RelaxNode` | include/customizer/cell_customizer.hpp:140-235 | after a node is relaxed all its arcs of the overlay are accounted for, scanned or skipped |
| `CellCustomizer.RelaxClique` | include/customizer/cell_customizer.hpp:166-201 | relaxing the row of the sub-cell relaxes every clique arc of the node; disallowed destinations are never met |
| `CellCustomizer.RelaxEdges` | include/customizer/cell_customizer.hpp:206-234 | relaxing border edges relaxes every border arc of the node |
| `CellCustomizer.FillRow` | include/customizer/cell_customizer.hpp:89-108 | the row agrees with the labels of the search, entry by entry |
| `CellCustomizer.CellMetric.constructor` | include/partitioner/cell_storage.hpp:364-382 | a new metric has an INVALID row of the right length for every source of every cell |
| `CellCustomizer.LevelIsDetermined` | include/customizer/cell_customizer.hpp:124-135 | two metrics that both satisfy the specification are equal: the order of cells does not matter |
| `CellSearch.SkipClique` | include/customizer/cell_customizer.hpp:156-163 | clique arcs of a node reached by a clique arc need not be scanned: the labels already bound them |
| `CellSearch.RelaxArc` | include/customizer/cell_customizer.hpp:181-195 | inserting or decreasing a label keeps the search invariant |
| `CellSearch.SettledNotImproved` | include/customizer/cell_customizer.hpp:188-195 | no label of a removed node is ever lowered when weights are positive, ties in weight included |
| `CellSearch.SettledIsLeast` | include/customizer/cell_customizer.hpp:67-86 | a removed node's label is the least cost of all walks of the overlay |
| `CellSearch.UnlabelledIsUnreachable` | include/customizer/cell_customizer.hpp:98-103 | when the heap runs empty a node never inserted cannot be reached |
| `CellOverlay.OverlayKeepsLeast` | include/customizer/cell_customizer.hpp:154-234 | least costs in the overlay of border edges and lower matrices are least costs inside the cell, and connections are the same |
| `CellOverlay.OverlayIsSound` | include/customizer/cell_customizer.hpp:154-234 | every walk of the overlay has a walk inside the cell of the same cost |
| `CellOverlay.OverlayIsComplete` | include/customizer/cell_customizer.hpp:154-234 | every walk inside the cell has one in the overlay that costs no more |
| `CellOverlay.OverlayIsGood` | include/customizer/cell_customizer.hpp:156-162 | lower matrices satisfy the triangle inequality the skip relies on |
| `CellStorages.CollectBoundary` | include/partitioner/cell_storage.hpp:254-342 | the lists of a level name, in increasing order, exactly the boundary nodes with an edge into their cell, and as destinations those with an edge from it or with none at all |
| `CellStorages.Classify` | include/partitioner/cell_storage.hpp:263-277 | the three flags mean what they say about the node's edges |
| `CellStorages.StorageCovers` | include/partitioner/cell_storage.hpp:254-342 | lists collected from a base graph in which every road is seen, with its flags, from both ends contain every node customization may enter or leave a cell by, also for any subset of its roads |
| `CellStorages.StorageNamesOwnNodes` | include/partitioner/cell_storage.hpp:298-342 | the lists of a cell name only its own nodes |
| `CellStorages.CollectAll` | include/partitioner/cell_storage.hpp:226-342 | the lists of every level above the lowest name exactly its boundary nodes; the lowest has none |
| `CellStorages.StoredIsFit` | include/partitioner/cell_storage.hpp:254-342 | a graph with positive weights whose roads are seen from both ends, with the lists collected from it, meets all that customization asks of its input |
| `CellStorages.PrepareInput` | include/partitioner/edge_based_graph_reader.hpp:188-199 | what reading and collecting make of any list of edges and any nested partition meets all that customization asks, its roads, forward and backward, are those on disk with the least weights, its lists are the boundary nodes, and it is ready for `Customize` exactly if its weights fit |
| `CellStorages.CellKeepsLightest` | include/partitioner/edge_based_graph_reader.hpp:63-140 | inside every cell the graph keeps, of the edges on disk from one node to another, one that weighs least |
| `CellStorages.EntryIsOfDisk` | include/customizer/cell_customizer.hpp:36-113 | a right entry is the least weight over all walks along edges on disk through allowed nodes of the cell, with the duration and distance of such a walk, or INVALID exactly if there is none |
| `CellStorages.CustomizeEdges` | include/customizer/cell_customizer.hpp:115-136 | reading, collecting and customizing in turn: every row of every level says that of the edges on disk |
| `EdgeReaders.SplitBidirectionalEdges` | include/partitioner/edge_based_graph_reader.hpp:30-61 | exactly both views of every valid edge, each with its opposite, its own duration and distance, and its own weight or 1 if that is less |
| `EdgeReaders.PrepareEdges` | include/partitioner/edge_based_graph_reader.hpp:63-140 | merging parallel edges keeps, for each ordered pair and direction, exactly the directions there were, joins no others, gives every edge the weight of an input edge open the same way and, provided no input edge is open both ways as the code asserts, that of the lightest |
| `EdgeReaders.BuildGraph` | include/partitioner/edge_based_graph_reader.hpp:188-199 | the adjacency of a node is exactly the edges that start there |
| `EdgeReaders.LoadGraph` | include/partitioner/edge_based_graph_reader.hpp:188-199 | for all edges on disk: every road of the graph is an edge on disk at its cost, from each node to each other one it has a road exactly if some edge can be driven so, and one of the least weight; if no edge is open both ways all its roads weigh least; its backward edges are such roads seen from their targets; roads are seen from both ends and weigh at least 1 |
| `QueryHeaps.QueryHeap.constructor` | include/util/query_heap.hpp:218-221 | an empty heap |
| `QueryHeaps.QueryHeap.Clear` | include/util/query_heap.hpp:223-228 | forgets all nodes although the position array keeps old entries |
| `QueryHeaps.QueryHeap.Insert` | include/util/query_heap.hpp:234-241 | adds one labelled open node and changes no other |
| `QueryHeaps.QueryHeap.WasInserted` | include/util/query_heap.hpp:286-294 | true exactly for inserted nodes, stale positions notwithstanding |
| `QueryHeaps.QueryHeap.GetHeapNode` | include/util/query_heap.hpp:243-268 | the label of an inserted node and whether it is still open |
| `QueryHeaps.QueryHeap.IsEmpty` | include/util/query_heap.hpp:230-232 | whether no node is open |
| `QueryHeaps.QueryHeap.DeleteMin` | include/util/query_heap.hpp:330-337 | closes an open node of least weight and keeps its label |
| `QueryHeaps.QueryHeap.DecreaseKey` | include/util/query_heap.hpp:357-364 | lowers the weight of one open node |
| `QueryHeaps.QueryHeap.SetData` | include/util/query_heap.hpp:243-248 | replaces the data of one node and keeps its weight |
| `ContractorGraph.ToContractorGraph` | include/contractor/graph_contractor_adaptors.hpp:20-134 | the result has, per ordered pair and direction, exactly one edge with the least weight of the input edges that can be driven so, or 1 if that is less, and no others, sorted by source and then target; its duration and distance are the least ones of its forward direction, or of the backward one if it is open only backward; its id is that of a valid input edge between the same nodes, and it is no shortcut |
| `ContractorGraph.EdgeMeans` | include/contractor/graph_contractor_adaptors.hpp:20-134 | each edge of the result, direction by direction: no input edge that can be driven so weighs less, and one weighs just that or is raised to 1 |
| `ContractorGraph.EdgeIsThere` | include/contractor/graph_contractor_adaptors.hpp:40-60 | wherever an input edge can be driven there is an edge open that way, and, seen from the other end, one open backward |
| `ContractorGraph.Expand` | include/contractor/graph_contractor_adaptors.hpp:25-61 | both views of every valid input edge |
| `ContractorGraph.Compact` | include/contractor/graph_contractor_adaptors.hpp:64-131 | in place, the sorted array becomes the compacted list, with least weights, durations and distances and ids of the same group; no unread edge is overwritten |
| `ContractorGraph.ScanGroup` | include/contractor/graph_contractor_adaptors.hpp:76-108 | the least weight, duration and distance of a group of parallel edges in each direction, or the largest number if there is none |
| `ContractorGraph.Emit` | include/contractor/graph_contractor_adaptors.hpp:110-128 | one, two or no edges are written behind those already there, nothing after them changes |
| `ContractorGraph.EmitsNoMoreThanRead` | include/contractor/graph_contractor_adaptors.hpp:89-128 | a group emits no more edges than it held, so the write index never passes the read index |
| `ContractorGraph.GraphIsSymmetric` | include/contractor/graph_contractor_adaptors.hpp:40-60 | forward from s to t with weight w exactly when backward from t to s with weight w |
| `ContractorGraph.DistancesKept` | include/contractor/graph_contractor_adaptors.hpp:20-134 | all shortest distances and all connections of the input, where an edge weighs its weight or 1 if that is less, are those of the result |
| `Permutations.InplacePermutation` | include/util/permutation.hpp:24-59 | following cycles with one buffer moves every element to its new place |
| `Permutations.FollowCycle` | include/util/permutation.hpp:47-57 | one cycle is moved, everything else stays, and it ends |
| `Permutations.OrderingToPermutation` | include/util/permutation.hpp:62-69 | the inverse of an ordering, a permutation |
| `Permutations.MovedIsOrdered` | include/util/permutation.hpp:24-69 | moving by that inverse lists the elements in the given order |
| `EdgeContainers.CompareIsOrder` | include/contractor/contracted_edge_container.hpp:28-51 | `mergeCompare` is a strict total order on the eight compared fields, and `mergable` is equality of them |
| `EdgeContainers.FirstDifferenceDecides` | include/contractor/contracted_edge_container.hpp:28-45 | the first of source, target, shortcut, turn id, weight, duration, forward and backward in which two edges differ decides, the smaller number or the cleared flag first |
| `EdgeContainers.MergableIff` | include/contractor/contracted_edge_container.hpp:47-51 | two edges are merged exactly if they agree in all eight, whatever their distances |
| `EdgeContainers.Pass` | include/contractor/contracted_edge_container.hpp:88-124 | for lists in any order: one linear pass keeps, in order, exactly the new edges it does not recognise, and marks only stored edges that are among the new ones, so that each new edge is kept or marked |
| `EdgeContainers.DistinctIffNoDoubles` | include/contractor/contracted_edge_container.hpp:88-132 | the stored edges and those kept are free of duplicates if and only if the stored ones are, every new edge stored already is recognised, and the others differ |
| `EdgeContainers.StrictHaveNoDoubles` | include/contractor/contracted_edge_container.hpp:84-92 | sorted lists without duplicates meet that condition |
| `EdgeContainers.SortedNoDoubles` | include/contractor/contracted_edge_container.hpp:88-145 | behind a list sorted by an earlier merge the condition is: it has no duplicates, new edges with a known key come behind no greater one, and new edges that repeat have a known key |
| `EdgeContainers.SwappedEdgesAreDoubled` | include/contractor/contracted_edge_container.hpp:88-132 | of two stored edges that come again in the other order the smaller is stored a second time |
| `EdgeContainers.AppendedPicks` | include/contractor/contracted_edge_container.hpp:126-132 | appending the kept edges with their flag makes filter `index` select exactly what it did plus the new edges, and changes no other filter |
| `EdgeContainers.Arrange` | include/contractor/contracted_edge_container.hpp:134-145 | after sorting by permutation each flag is still attached to its own edge |
| `EdgeContainers.ContractedEdgeContainer.Insert` | include/contractor/contracted_edge_container.hpp:54-61 | every filter selects every inserted edge |
| `EdgeContainers.ContractedEdgeContainer.Filter` | include/contractor/contracted_edge_container.hpp:63-80 | filter `index` selects exactly the edges with both ends allowed; other filters are unchanged |
| `EdgeContainers.ContractedEdgeContainer.Merge` | include/contractor/contracted_edge_container.hpp:82-146 | the next filter selects what it did plus the new edges, other filters what they did, where to select an edge is to hold one with the same eight fields and the flag set; the list is sorted, and free of duplicates if and only if the stored and the new edges have no doubles |
| `EdgeContainers.ContractedEdgeContainer.MakeEdgeFilters` | include/contractor/contracted_edge_container.hpp:148-161 | one flag vector per merge, true exactly where the flag bit is set |
| `EdgeContainers.FlagIsShift` | include/contractor/contracted_edge_container.hpp:63-80 | the flag of a filter is the bit of that number |
| `ExcludableGraph.NonCoreEdges` | include/contractor/contract_excludable_graph.hpp:65-71 | exactly the edges that do not lie between two core nodes, in their order and as often as they came |
| `ExcludableGraph.PrepareContainer` | include/contractor/contract_excludable_graph.hpp:63-77 | each filter selects the non-core edges it allows |
| `ExcludableGraph.CombineCores` | include/contractor/contract_excludable_graph.hpp:63-95 | after all merges filter i selects exactly the allowed non-core edges plus the edges of its own contracted core, said of the eight fields of each edge; no edge is stored twice if and only if the first core has no doubles behind the non-core edges and each further one fits the keys before it |
| `ExcludableGraph.StrictNeverDoubled` | include/contractor/contract_excludable_graph.hpp:63-95 | sorted, duplicate-free lists meet that condition |
| `ExcludableGraph.AlwaysAllowed` | include/contractor/contract_excludable_graph.hpp:46-54 | a node may be contracted at first exactly if no filter excludes it |
| `ExcludableGraph.ContractExcludable` | include/contractor/contract_excludable_graph.hpp:29-95 | a single filter that excludes nothing selects every edge of the full contraction; otherwise as for the combined cores |
| `ExcludableGraph.NothingExcludedIsSelected` | include/contractor/contract_excludable_graph.hpp:84-95 | so nothing selected touches a node the filter excludes, if contraction adds no such edge |
| `ByteBuffers.Read16Back` | features/support/flatbuffers.js:925-935 | sixteen written bits read back as the value reduced to a signed 16-bit number |
| `ByteBuffers.Read32Back` | features/support/flatbuffers.js:941-943 | thirty-two written bits read back as the value |
| `ByteBuffers.LowestByteFirst` | features/support/flatbuffers.js:1026-1031 | numbers are written lowest byte first: the first byte is the last eight bits, and the others are those of the rest |
| `ByteBuffers.ReadsLowestFirst` | features/support/flatbuffers.js:925-943 | numbers are read lowest byte first, as signed ones, and writing them again gives the same bytes |
| `ByteBuffers.PeekOutside` | features/support/flatbuffers.js:941-943 | outside the buffer zero bytes are read |
| `FlatTables.LookupsSucceedIff` | features/support/flatbuffers.js:1109-1112 | all field lookups of a finished table give the written place, or 0 for an unset field, if and only if its numbers fit signed 16 bits |
| `FlatTables.LookupInVtable` | features/support/flatbuffers.js:1109-1112 | what a lookup gives for any field number, inside or beyond a trimmed vtable |
| `FlatTables.LayoutMeans` | features/support/flatbuffers.js:631-676 | a finished table number by number: the distance back to its vtable; there its length in bytes, the size of the object, and per field the distance from the start of the table, or 0 |
| `FlatTables.LookupMeans` | features/support/flatbuffers.js:1109-1112 | a lookup in any vtable reads the entry that lies there if its length reaches so far, and 0 otherwise |
| `FlatTables.FarFieldIsMisread` | features/support/flatbuffers.js:632-635 | wherever such a table lies, a field forty thousand bytes away is not found where it was written |
| `FlatBuilders.FarField` | features/support/flatbuffers.js:632-635 | a builder that writes such a table: its only field is not found again |
| `FlatTables.SharedServes` | features/support/flatbuffers.js:645-665 | an equal earlier vtable serves a table as well as its own |
| `FlatTables.LaidKept` | features/support/flatbuffers.js:566-579 | a finished table stays readable whatever is written in front of it |
| `FlatBuilders.TablesReadBack` | features/support/flatbuffers.js:600-677 | of all tables finished so far each reads back completely exactly if its numbers fit |
| `FlatBuilders.AlignSize` | features/support/flatbuffers.js:296-298 | the least padding that aligns the element |
| `FlatBuilders.AlignSizeByMask` | features/support/flatbuffers.js:296-298 | the complement and mask of the code give that padding for every offset and every power of two |
| `FlatBuilders.BitByBit` | features/support/flatbuffers.js:296-298 | the mask and the complement used there work bit by bit |
| `FlatBuilders.Builder.constructor` | features/support/flatbuffers.js:149-233 | an empty builder with the given number of bytes, or 1024 when none is given |
| `FlatBuilders.Builder.Offset` | features/support/flatbuffers.js:550-552 | the number of bytes written |
| `FlatBuilders.Builder.Grow` | features/support/flatbuffers.js:566-579 | doubles the capacity unless it is a gigabyte or more; every written byte keeps its distance from the end |
| `FlatBuilders.Builder.Pad` | features/support/flatbuffers.js:313-317 | zero bytes in front, nothing else changed |
| `FlatBuilders.Builder.Prep` | features/support/flatbuffers.js:290-308 | the element will be aligned after the additional bytes and fits, over any number of growths; fails exactly if it would not fit the largest capacity the buffer can grow to |
| `FlatBuilders.Builder.Write` | features/support/flatbuffers.js:322-338 | the value in front of everything written |
| `FlatBuilders.Builder.Add` | features/support/flatbuffers.js:366-387 | an aligned value in front; all finished tables stay laid out; fails exactly if there is no room at the largest capacity |
| `FlatBuilders.Builder.StartObject` | features/support/flatbuffers.js:600-612 | fails exactly when nested; otherwise all slots are unset |
| `FlatBuilders.Builder.Slot` | features/support/flatbuffers.js:543-545 | records the current offset for a field, whether an object is open or not; other entries and, for undeclared numbers, the open object stay as they are; fails exactly before the first object |
| `FlatBuilders.Builder.TrimmedVtable` | features/support/flatbuffers.js:626-629 | the number of slots without trailing unset ones |
| `FlatBuilders.Builder.WriteVtable` | features/support/flatbuffers.js:631-640 | the vtable's numbers in front of the table, last field first |
| `FlatBuilders.Builder.FindVtable` | features/support/flatbuffers.js:642-657 | a remembered vtable equal number by number, if and only if there is one |
| `FlatBuilders.Builder.ShareVtable` | features/support/flatbuffers.js:659-665 | the new vtable is taken back, the table points at the equal one, everything earlier is untouched |
| `FlatBuilders.Builder.KeepVtable` | features/support/flatbuffers.js:666-673 | the table points at its own vtable, which is remembered |
| `FlatBuilders.Builder.EndObject` | features/support/flatbuffers.js:618-677 | the table joins the finished ones; its vtable is shared exactly if an earlier one would serve; all earlier bytes and tables are undisturbed; fails exactly without startObject or if table and vtable do not fit the largest capacity |
| `FlatBuilders.Builder.StartVector` | features/support/flatbuffers.js:747-752 | once the elements are written the length field is aligned to four bytes and to the given alignment, and there is room for both; fails exactly when nested or without room |
| `FlatBuilders.Builder.EndVector` | features/support/flatbuffers.js:761-764 | the element count in front of the elements |
| `FlatBuilders.Builder.CreateVector` | features/support/flatbuffers.js:747-764 | starting a vector, adding its elements last one first and ending it leaves the count and the elements in order at the returned offset; earlier bytes unchanged |
| `FlatBuilders.Builder.CreateString` | features/support/flatbuffers.js:774-821 | length, UTF-8 bytes and a zero byte at the returned aligned offset; earlier bytes unchanged; fails exactly when nested or without room at the largest capacity |
| `FlatBuilders.Builder.CreateStringOfBytes` | features/support/flatbuffers.js:775-821 | the same for a byte array, which is taken as it is |
| `FlatBuilders.Builder.AddOffset` | features/support/flatbuffers.js:587-590 | a reference that leads to its target from where it lies |
| `FlatBuilders.Builder.AddFieldOffset` | features/support/flatbuffers.js:494-499 | the field refers to its target and its slot records it, unless it is a default that is not forced |
| `FlatBuilders.StringThroughTable` | features/support/flatbuffers.js:600-677 | a client that writes a string, refers to it from a table and reads it through the table gets it back exactly if it is paired, for every string that fits the buffer |
| `FlatStrings.ReadString` | features/support/flatbuffers.js:1140-1196 | for any buffer and position: follows the reference and decodes; a string written by the builder comes back unchanged exactly if it is paired |
| `FlatStrings.ReadStringBytes` | features/support/flatbuffers.js:1140-1151 | asked for its bytes, for any buffer and position, those between the bounds the reference leads to; a string in the buffer comes back unchanged, whatever it holds |
| `FlatStrings.Subarray` | features/support/flatbuffers.js:1150-1150 | the bytes between two bounds, in order; a negative bound counts from the end, bounds the wrong way round give nothing |
| `FlatStrings.StringKept` | features/support/flatbuffers.js:566-579 | a string stays readable whatever is written in front of it |
| `FlatStrings.RefersKept` | features/support/flatbuffers.js:566-590 | so does a reference |
| `FlatStrings.VectorReadBack` | features/support/flatbuffers.js:1213-1225 | a reader that follows a reference to a vector finds its count and each element at its place |
| `FlatStrings.VectorKept` | features/support/flatbuffers.js:566-579 | a vector stays readable whatever is written in front of it |
| `FlatStrings.FieldLeadsToString` | features/support/flatbuffers.js:1109-1144 | from a table through its vtable and the reference to the string, which comes back unchanged exactly if it is paired |
| `Utf8.EncodeUtf8` | features/support/flatbuffers.js:778-812 | the loop computes the encoding step by step, with a lone high surrogate at the end |
| `Utf8.DecodeUtf8` | features/support/flatbuffers.js:1153-1193 | the loop computes the decoding, reading past the end as zero bits |
| `Utf8.EncodesByTable` | features/support/flatbuffers.js:781-811 | each code point in UTF-16 becomes the bytes of the table in section 3 of RFC 3629, and the rest is encoded by itself |
| `Utf8.EncodesPairs` | features/support/flatbuffers.js:785-791 | a high surrogate is combined with whatever unit follows it, as in section 2.1 of RFC 2781 |
| `Utf8.DecodesByTable` | features/support/flatbuffers.js:1157-1190 | bytes that the table gives a code point are read as that code point in UTF-16, and what follows is read by itself |
| `Utf8.DecodesLoosely` | features/support/flatbuffers.js:1157-1180 | any other bytes are read as well: the first one says how many belong together, and of the others the last six bits count |
| `Utf8.DecodesBehind` | features/support/flatbuffers.js:1157-1180 | behind the buffer every four bytes read as a zero |
| `Utf8.AsciiIsStoredAsIs` | features/support/flatbuffers.js:793-795 | units below 128 are stored as they are, one byte each |
| `Utf8.AsciiIsReadAsIs` | features/support/flatbuffers.js:1157-1163 | bytes below 128 are read as they are |
| `Utf8.DecodeEncoded` | features/support/flatbuffers.js:1153-1193 | decoding encoded units gives, whatever surrounds them, what the round trip makes of them |
| `Utf8.ReturnedIff` | features/support/flatbuffers.js:781-811 | for every string: it comes back unchanged if and only if every high surrogate is followed by a low one |
| `Utf8.BadPairIsMangled` | features/support/flatbuffers.js:785-791 | a concrete string that does not come back |
| `Utf8.EncodesWellFormed` | features/support/flatbuffers.js:793-810 | well-formed UTF-16 is stored as UTF-8 by the grammar of section 4 of RFC 3629 |
| `Utf8.EncodeDecoded` | features/support/flatbuffers.js:1153-1193 | every well-formed UTF-8 string decodes to well-formed UTF-16 whose encoding it is |
| `DataWatchdog.StepKeepsInv` | include/engine/data_watchdog.hpp:39-129 | every step of a writer, watcher or reader keeps the invariant of the protocol |
| `DataWatchdog.WriterStepKeepsShared` | src/storage/storage.cpp:54-290 | setting up both segments, failing in between or while loading, filling, swapping, timing out, notifying, removing and releasing keep register, keys and segments consistent |
| `DataWatchdog.WatcherStepKeeps` | include/engine/data_watchdog.hpp:93-128 | waiting, copying only what changed, and locking keep the watcher's copies equal to one published pair |
| `DataWatchdog.SameStampSameRegion` | include/engine/data_watchdog.hpp:108-115 | a copy that is skipped because its timestamp is unchanged is the region in the register |
| `DataWatchdog.InstallKeeps` | include/engine/data_watchdog.hpp:121-128 | what is installed is the pair in the register at that moment |
| `DataWatchdog.ReadersHoldPublishedPairs` | include/engine/data_watchdog.hpp:79-90 | in every reachable state each facade a reader holds is one pair published at a single moment, whose data belong together, and whose keys are not reused |
| `DataWatchdog.FactoriesServePublishedPairs` | include/engine/data_watchdog.hpp:121-128 | the same of what the factory serves next |
| `DataWatchdog.InstalledNeverGoesBack` | include/engine/data_watchdog.hpp:93-129 | over any run installed timestamps never decrease, and equal ones mean the same region |
| `DataWatchdog.HeldDataStay` | src/storage/storage.cpp:147-162 | over any run the data behind a held facade do not change |
| `WatchdogData.FilledDataArePublished` | src/storage/storage.cpp:89-137 | over every run from a reachable state: unless somebody gives up, the next pair published after data are filled in has exactly these data, a new updatable timestamp, and a new static region with its data or, for a metric-only load, the very static region published before |
| `WatchdogData.GivenUpIsNotFound` | src/storage/storage.cpp:100-114 | over every run: a segment whose swap timed out, or that was not made when its load failed, is never found by its key again |
| `DataWatchdog.FactoryStableWhileInside` | include/engine/data_watchdog.hpp:79-90 | while a reader is inside `Get` no step changes the factory |
| `DataWatchdog.AttachFindsItsSegments` | src/engine/datafacade/shared_memory_allocator.cpp:21-25 | whenever keys are attached both segments exist |
| `DataWatchdog.NoLostWakeUp` | include/storage/shared_monitor.hpp:100-116 | a watcher asleep without a wake-up call has seen the current register, or the writer is yet to notify |
| `DataWatchdog.FactoryLockIsInner` | include/engine/data_watchdog.hpp:121-128 | whoever holds the factory mutex exclusively takes no other lock, and holds the region mutex already: the lock order is acyclic |
| `DataWatchdog.HolderCanMove` | include/engine/data_watchdog.hpp:93-129 | in every reachable state whoever holds the region mutex, or a reader inside the factory it waits for, has a step that is possible and brings it closer to giving the mutex back |
| `DataWatchdog.MutexIsFreed` | include/engine/data_watchdog.hpp:93-129 | from every reachable state a bounded run of such steps alone frees the mutex: no deadlock |
| `WatchdogProgress.SomethingHelps` | src/storage/storage.cpp:89-167 | in every reachable state with a load under way some step, which starts nothing and gives nothing up, is possible and brings the load closer to its end |
| `WatchdogProgress.AttachedIsBehind` | src/storage/storage.cpp:147-162 | a factory that keeps a swapped-out segment attached has not seen the register as it is, so it will switch |
| `WatchdogProgress.WriterCanFinish` | src/storage/storage.cpp:147-162 | from every reachable state a run without new readers, servers or loads, in which nobody gives up, ends the load: waiting for clients to detach ends as well |
| `DataWatchdog.ReaderGetsFirstData` | include/engine/data_watchdog.hpp:39-90 | a run of the protocol that hands a reader the pair of the first swap |
| `DataWatchdog.LostKeysStayInUse` | src/storage/storage.cpp:100-114 | over every run: a key the writer gave up stays reserved in every later state and never gets into the register |
| `DataWatchdog.KeyIsLostIff` | src/storage/storage.cpp:100-290 | over every run that ends between loads: a key outside the register is still reserved if and only if a load failed or its swap timed out while it was one of its new keys |
| `DataWatchdog.FirstLoadFails` | src/storage/storage.cpp:258-276 | a run in which the load fails between its two segments and loses the key of the first |
| `DataWatchdog.FirstSwapTimesOut` | src/storage/storage.cpp:100-114 | a run whose first swap times out and loses both of its keys |
| `Snapping.Nearest` | include/util/static_rtree.hpp:572-633 | with termination asked before each filter call the search returns exactly the first admissible candidate before the cut and, if that is tiny, the first admissible big one |
| `Snapping.Flags.Filter` | include/engine/geospatial_query.hpp:220-238 | the filter without a bearing lets through admissible directions of segments still of use, and notes their component |
| `Snapping.Flags.FilterByBearing` | include/engine/geospatial_query.hpp:325-348 | the filter with a bearing does the same |
| `Snapping.AnswerIsNearest` | include/engine/geospatial_query.hpp:205-421 | for candidates ordered by distance: at most two hits, none exactly if nothing is eligible, the first is the nearest eligible, a second follows exactly if that is tiny and a big one is eligible, and is the nearest of those; each keeps an enabled direction |
| `Snapping.EligibleMeans` | include/engine/geospatial_query.hpp:581-712 | fact by fact when a candidate is eligible: within the limit, and in one direction enabled, with a valid weight, not excluded, of a segment that may be started on, within the bearing and, on a two-way road to be reached at the curb, on the right side |
| `Snapping.HitMeans` | include/engine/geospatial_query.hpp:220-238 | a hit keeps exactly the directions for which all that holds |
| `PhantomNodes.SegmentData.GetForward` | include/extractor/segment_data_container.hpp:154-176 | entry j is what it takes along segment j |
| `PhantomNodes.SegmentData.GetReverse` | include/extractor/segment_data_container.hpp:162-184 | entry j from the back is what it takes back along segment j |
| `PhantomNodes.SamePhysicalSegment` | include/engine/geospatial_query.hpp:493-523 | forward and reverse lookups at a position address the same segment |
| `PhantomNodes.SplitQuantity` | include/engine/geospatial_query.hpp:469-538 | offsets are the sums over the segments before and beyond, the parts are the truncated shares of the segment |
| `PhantomNodes.StaysWithinTotal` | include/engine/geospatial_query.hpp:469-538 | in each direction offset plus part is at most the total |
| `PhantomNodes.PiecesAddUp` | include/engine/geospatial_query.hpp:528-538 | with equal costs in both directions and valid ids the four pieces are exactly the whole, truncation included |
| `PhantomNodes.PartGrowsWithRatio` | include/engine/geospatial_query.hpp:528-538 | a larger ratio never gives a smaller share |
| `PhantomNodes.DistanceOffsets` | include/engine/geospatial_query.hpp:479-527 | the distances before and after the segment, with its own, are the whole length |
| `PhantomNodes.CheckValidity` | include/engine/geospatial_query.hpp:540-551 | source validity means the whole geometry can be traversed, target validity the part up to and over the segment, in terms of physical segments |
| `RouteResults.TotalDuration` | include/engine/internal_route_result.hpp:86-95 | the sum over all steps of all legs |
| `RouteResults.Collapse` | include/engine/internal_route_result.hpp:109-175 | leg k is the stretch from the k-th waypoint to the next: its steps, its first source, its last target and their directions |
| `RouteResults.CollapseKeepsRoute` | include/engine/internal_route_result.hpp:139-168 | all steps in the same order, and totals of weight and of duration that grow by exactly the source weights and source durations of merged legs that have steps |
| `RouteResults.CollapseAdds` | include/engine/internal_route_result.hpp:139-168 | number by number: the weights, and the durations, of all steps grow by the reverse ones of the source if it is left in reverse and by the forward ones otherwise |
| `RouteResults.CollapsedStep` | include/engine/internal_route_result.hpp:139-168 | each step of each leg is in its place in the collapsed leg, unchanged but for the first step of a merged leg, which has the weight and duration of its source on top |
| `Base64.EncodeBase64` | include/engine/base64.hpp:48-68 | the padded encoding, as computed with the padding loop |
| `Base64.DecodeBase64` | include/engine/base64.hpp:100-112 | the decoding with padding read as zero and cut off; an error for a sign outside the alphabet |
| `Base64.AlphabetRuns` | include/engine/base64.hpp:30-34 | the alphabet of section 4 of RFC 4648 |
| `Base64.ValueIff` | include/engine/base64.hpp:36-40 | a sign stands for the number it is written for, and no other sign does |
| `Base64.EncodesGroup` | include/engine/base64.hpp:48-68 | three bytes become the four signs with the same twenty-four bits, and what follows is encoded by itself |
| `Base64.EncodesOneByte` | include/engine/base64.hpp:48-68 | a byte left over becomes two signs and two padding signs |
| `Base64.EncodesTwoBytes` | include/engine/base64.hpp:48-68 | two bytes left over become three signs and a padding sign |
| `Base64.DecodesGroup` | include/engine/base64.hpp:100-112 | four signs become the three bytes with the same bits, and what follows is decoded by itself |
| `Base64.DecodesOneByte` | include/engine/base64.hpp:100-112 | two signs and padding become the byte of their leading bits |
| `Base64.DecodesTwoBytes` | include/engine/base64.hpp:100-112 | three signs and padding become the two bytes of their leading bits |
| `Base64.RoundTrip` | include/engine/base64.hpp:48-112 | decoding the encoding returns every byte string, and its length is four for every started group of three, as in section 4 of RFC 4648 |

## Left out

- CellCustomizer.Customize: cells of a level are processed one after another in any order, not by parallel tasks; they write disjoint rows.
- CellCustomizer.Customize: least weights are taken to stay below INVALID_EDGE_WEIGHT, since sums do not wrap in the model.
- QueryHeaps.QueryHeap.DeleteMin: finds the least weight by a scan, not by the d-ary heap of Boost; ties may be broken either way.
- ContractorGraph.ToContractorGraph: the order of parallel edges is left open by the sort, so which of their ids a merged edge carries is left open too.
- ContractorGraph.Compact: sorting is a library call modelled by an insertion sort with the same result up to ties.
- ExcludableGraph.CombineCores: the contracted cores are inputs; `contractGraph` and its witness search are not part of this model, nor is `toEdges`.
- EdgeReaders.LoadGraph: the checksum and the edge ids are not modelled; new weights from the updater are read like any others.
- EdgeReaders.PrepareEdges: the sort is a library call; the order of edges that agree in source, target, flag and weight is left open, and edge ids are not modelled.
- CellStorages.CollectBoundary: appends to per-cell lists in node order instead of sorting pairs of cell and node; offsets into the flat arrays are not modelled.
- FlatBuilders.Builder.Write: a block of bytes is written at once; the buffer is a sequence that is reassigned, so aliasing of the byte array is not captured.
- FlatBuilders.Builder.AddFieldOffset: the other `addField` functions differ only in the value written; `finish`, file identifiers and 64-bit and floating-point values are not modelled.
- FlatStrings.ReadString: bytes outside the buffer read as zero, as they do in a JavaScript expression with bit operators.
- Utf8.EncodeUtf8: shifts and masks are written as division and remainder.
- DataWatchdog.StepKeepsInv: timestamps do not wrap, keys do not run out, processes are not killed and memory does not run out in the middle of a swap, and shutdown of the watcher thread (`active`) is not modelled; the semaphore ring buffer is a flag per waiter.
- DataWatchdog.WriterStepKeepsShared: waiting for clients to detach is the Linux version, which really waits; one dataset name; the file lock that serialises writers is the single writer of the model.
- Snapping.Nearest: candidates come in the order given; the index orders them by projected distance while the limit is tested on great-circle distance, and `Snapping.AnswerIsNearest` is about candidates ordered by the tested distance.
- PhantomNodes.SplitQuantity: ratios are real numbers, so floating-point rounding of the product before truncation and 32-bit overflow of sums are not captured.
- RouteResults.Collapse: 32-bit overflow of weights and durations is not captured.
- Base64.DecodeBase64: more padding signs than bytes, undefined in the code, is an error in the model.
- Geometry: haversine distances, bearings, projections and the side of the road are inputs.
- Contraction, contraction hierarchies and multi-level Dijkstra queries, guidance, map matching, trip planning, tiles, the HTTP server, extraction and serialisation: not part of this model.
