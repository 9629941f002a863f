# graphkit-learn graph kernels, modelled in Dafny

This project models four pieces of graphkit-learn, a Python library of graph
kernels, and proves properties of them:

- **Weisfeiler-Lehman subtree kernel** (`pygraph/kernels/weisfeilerLehmanKernel.py`).
  - `_wl_subtreekernel_do` relabels the nodes of every graph in place, height after height. At each height it adds to the kernel matrix the dot products of the graphs' label-count vectors.
  - `relabel` is the relabelling step for one graph.
  - `_weisfeilerlehmankernel_do` sums a base kernel over successive relabellings of two graphs.
  - Modules: `WeisfeilerLehman`, `WLRelabel`, and the generic `Iteration`.
- **Structural shortest-path kernel** (`pygraph/kernels/structuralspKernel.py`), module `StructuralSp`.
  - `get_shortest_paths` builds a graph's path list.
  - `structuralspkernel_do` builds the vertex-kernel and edge-kernel tables and averages the path-pair products.
  - The top level picks a chunk size and fills a symmetric kernel matrix.
- **Random-walk kernel, combinatorial parts** (`gklearn/kernels/else/rwalk_sym.py`), module `RandomWalk`:
  - the removal of graphs without edges;
  - the choice of computation method by name;
  - `computeVK`, `computeW` (the weight matrix of the direct product graph), `getLabels` and `filterGramMatrix`.
- **CT connection-table reader** `loadCT` (`utils/graphfiles.py`), module `GraphFiles`. It is a parser over the lines of a file.

Shared modules:
- `Common` holds `Option`, `Result` and the Python exceptions the code can raise.
- `Text` holds the Python string operations the code relies on: `str.split`, `int()`, `str(n)`, string order, `list.sort`, `str.lower`.

## Modelling choices

- **Node ids.** Nodes are numbered 0..n-1 in iteration order.
  - The WL code indexes `set_multisets[node[0]]`, so it needs this numbering.
  - The random-walk kernel renumbers its graphs with `convert_node_labels_to_integers` (`rwalk_sym.py` lines 275 and 403).
  - In the structural shortest-path kernel node ids serve only as dictionary keys and fix the iteration order. Numbering them by position loses nothing there.
  - A graph is a list of node labels plus an adjacency list (WL), or a list of nodes plus a list of edges in networkx iteration order (shortest-path and random-walk kernels).
- **Where state changes in place, the model changes it in place.**
  - WL graphs are objects of class `LabeledGraph` whose `labels` field is overwritten.
  - Kernel matrices are `array2` cells written one by one.
  - `loadCT` builds a `CtGraph` object node by node and edge by edge.
  - Each such method is proved against a specification function of its inputs (`Refined`, `KernelSum`, `StructuralSpPair`, `WRows`, `LoadCTSpec`). Its properties are then proved as lemmas.
- **Set order.** Python orders `list(set(xs))` by hash. The model takes first-occurrence order (`Dedup`).
  - The WL properties are stated so that they do not depend on this order: equal signatures get equal labels, distinct ones distinct labels, and the label ranges hold.
  - `relabel`'s concrete numbers do depend on it.
- **Caller-supplied kernels.** Node kernels, edge kernels, the WL base kernel `spkernel` and the all-shortest-paths search are parameters:
  - kernels are typed functions, one per arity the docstrings give;
  - the path search is a `PathOracle` that returns the shortest paths between two nodes, or none.
- **Line 291 quirk (`structuralspKernel.py`).** In the branch for edges with non-symbolic attributes, the code calls `kn`, the node kernel, where `ke` was meant. This is modelled as written:
  - `kn` undefined gives a `NameError`;
  - a 4-argument `kn` called with 2 arguments gives a `TypeError`;
  - otherwise the node kernel is applied to the edge attributes.

  `EdgeNsymbUsesNodeKernel` states this.
- **Attribute wrapping.**
  - `structuralspKernel.py` wraps node attributes in a list before calling a kernel (`[n['attributes']]`). This is modelled as `Rows([attrs])`.
  - `rwalk_sym.py` passes the attribute list itself. This is modelled as `Vec(attrs)`.
- **Repeated edges.** A later edge pair can overwrite an earlier one's entry, so three value lemmas carry a precondition. The key and cell lemmas (`EdgeRowsKeys`, `WeightCellsWritten`, `EdgeLabelsKeys`) hold without one.
  - `WeightCellsValue` (`computeW`) and `GetLabelsSpec` (`getLabels`) require `NoParallel`: no two edges join the same nodes in the same direction (in either direction when undirected). networkx `Graph` and `DiGraph` objects always satisfy this.
  - `EdgeTableOrientations` (the structural shortest-path edge table) requires `Simple`: no two edges join the same two nodes in either direction. A `Graph` always satisfies this. A `DiGraph` holding both (a, b) and (b, a) does not: the four orientation keys of the two edges coincide, and lines 268-272 overwrite the first edge's values with the second's.
- **`loadCT` edge lines.** Edge line k is read at `content[k + G.number_of_nodes() + 2]`, and the node count is read again on every pass.
  - An edge that names a node outside 1..n adds that node, so every later edge line is read one line further down.
  - `ReadEdge` models this as written.
  - `LoadCTSpecWellFormed` describes the result for files whose edges all stay within 1..n.
- **`computeW` table lookups.** `computeW` reads `vk_dict` only under keys that `computeVK` always stores. The model's lookup `At` returns 0 for a missing key. This case cannot arise from the caller.

## Model

| member | source | states |
|---|---|---|
| Text.Split | utils/graphfiles.py:7 | `line.split(" ")` returns at least one piece and no piece holds the separator |
| Text.SplitJoin | utils/graphfiles.py:7 | joining the pieces with the separator gives back the line |
| Text.NonEmpty | utils/graphfiles.py:16-17 | the result holds only non-empty pieces of the input, holds every non-empty piece, and is no longer than the input |
| Text.NonEmptySingle | utils/graphfiles.py:17 | a single piece is kept exactly when it is not empty |
| Text.NonEmptyAppend | utils/graphfiles.py:17 | filtering a concatenation is the concatenation of the filtered parts, so the kept pieces keep their order (with `NonEmptySingle` this determines the result) |
| Text.NonEmptyCounts | utils/graphfiles.py:17 | each non-empty piece is kept as often as it occurs, and no empty piece is kept |
| Text.ParseInt | utils/graphfiles.py:9-13 | `int(tok)` succeeds exactly on an optional sign followed by at least one decimal digit |
| Text.NatStrDigits | pygraph/kernels/weisfeilerLehmanKernel.py:191 | `str(n)` is a non-empty digit string without a leading zero |
| Text.NatStrInjective | pygraph/kernels/weisfeilerLehmanKernel.py:191 | distinct counters print as distinct labels |
| Text.ParseNatStr | pygraph/kernels/weisfeilerLehmanKernel.py:191 | `int(str(n)) == n` |
| Text.SortSpec | pygraph/kernels/weisfeilerLehmanKernel.py:178 | `list.sort` on strings gives an ascending permutation of its input |
| Text.SortedUnique | pygraph/kernels/weisfeilerLehmanKernel.py:178 | two ascending sequences with the same multiset are equal |
| Text.SortOfPermutation | pygraph/kernels/weisfeilerLehmanKernel.py:178 | sorting depends only on the multiset of neighbour labels |
| Text.Lower | gklearn/kernels/else/rwalk_sym.py:64 | `lower()` keeps the length and lowers each character, ASCII letters only |
| WeisfeilerLehman.LabeledGraph.constructor | pygraph/kernels/weisfeilerLehmanKernel.py:144 | a graph holds the given node labels and adjacency |
| WeisfeilerLehman.NeighbourLabels | pygraph/kernels/weisfeilerLehmanKernel.py:176 | the neighbours' current labels, one per neighbour in adjacency order |
| WeisfeilerLehman.Signatures | pygraph/kernels/weisfeilerLehmanKernel.py:174-180 | one signature per node |
| WeisfeilerLehman.SignatureIsLabelThenSortedNeighbours | pygraph/kernels/weisfeilerLehmanKernel.py:174-180 | a signature is the node's label followed by any ascending arrangement of its neighbours' labels, concatenated |
| WeisfeilerLehman.SignatureNotInjective | pygraph/kernels/weisfeilerLehmanKernel.py:179 | with no separator, two nodes with different labels and neighbourhoods can share a signature |
| WeisfeilerLehman.DedupSpec | pygraph/kernels/weisfeilerLehmanKernel.py:183 | `list(set(xs))` holds every string of xs exactly once |
| WeisfeilerLehman.CompressUniqueKeepsTable | pygraph/kernels/weisfeilerLehmanKernel.py:185-194 | compression keeps the table numbering issued numbers base+1..counter and never lowers the counter |
| WeisfeilerLehman.CompressUniqueDomain | pygraph/kernels/weisfeilerLehmanKernel.py:185-194 | numbers already issued are kept; new numbers go exactly to the new signatures |
| WeisfeilerLehman.Relabel | pygraph/kernels/weisfeilerLehmanKernel.py:197-198 | one new label per node, looked up under its signature |
| WeisfeilerLehman.Step | pygraph/kernels/weisfeilerLehmanKernel.py:164-206 | one height gives every graph one new label per node |
| WeisfeilerLehman.StepLabelAt | pygraph/kernels/weisfeilerLehmanKernel.py:189-198 | a node's new label is read from the height's table under its signature |
| WeisfeilerLehman.StepLabelsMatchSignatures | pygraph/kernels/weisfeilerLehmanKernel.py:165-198 | within a height, two nodes of any graphs get equal labels iff their signatures are equal |
| WeisfeilerLehman.IssuedLabelsCount | pygraph/kernels/weisfeilerLehmanKernel.py:191 | a table of distinct numbers gives as many distinct labels as entries |
| WeisfeilerLehman.StepTotalIsCounter | pygraph/kernels/weisfeilerLehmanKernel.py:166-206 | `all_num_of_labels_occured` after a height equals the counter `num_of_labels_occured` |
| WeisfeilerLehman.StepLabelRange | pygraph/kernels/weisfeilerLehmanKernel.py:191-192 | every new label is `str(n)` with n in base+1 .. new total |
| WeisfeilerLehman.Refined | pygraph/kernels/weisfeilerLehmanKernel.py:133-206 | after h heights every graph still has one label per node |
| WeisfeilerLehman.IterateSucc | pygraph/kernels/weisfeilerLehmanKernel.py:164 | height h+1 is one step applied to height h |
| WeisfeilerLehman.RefinedSucc | pygraph/kernels/weisfeilerLehmanKernel.py:164 | the same, from the original labels |
| WeisfeilerLehman.RefinedTotalGrows | pygraph/kernels/weisfeilerLehmanKernel.py:206 | the label total never decreases from one height to the next |
| WeisfeilerLehman.RefinedTotalMonotone | pygraph/kernels/weisfeilerLehmanKernel.py:206 | the label total is monotone in the height |
| WeisfeilerLehman.RefinedLabelRange | pygraph/kernels/weisfeilerLehmanKernel.py:166-206 | labels of height h+1 are numerals above the total after h and at most the total after h+1 |
| WeisfeilerLehman.HeightsIssueDisjointLabels | pygraph/kernels/weisfeilerLehmanKernel.py:166-206 | labels issued at two different heights never coincide |
| WeisfeilerLehman.Counts | pygraph/kernels/weisfeilerLehmanKernel.py:146 | `Counter(labels)` holds exactly the labels present, each with its number of occurrences |
| WeisfeilerLehman.CountsDotIsMatchCount | pygraph/kernels/weisfeilerLehmanKernel.py:157-160 | the dot product over the union of labels, absent ones counting 0, is the number of equally labelled node pairs |
| WeisfeilerLehman.MatchCountSymmetric | pygraph/kernels/weisfeilerLehmanKernel.py:157-161 | the per-height kernel is symmetric |
| WeisfeilerLehman.CountsTotal | pygraph/kernels/weisfeilerLehmanKernel.py:146-203 | a graph's label counts sum to its number of nodes |
| WeisfeilerLehman.RefinedCountsTotal | pygraph/kernels/weisfeilerLehmanKernel.py:197-204 | after any number of heights, each graph's label counts still sum to its node count |
| WeisfeilerLehman.History | pygraph/kernels/weisfeilerLehmanKernel.py:142-206 | the labelings of heights 0..h, h+1 of them |
| WeisfeilerLehman.HistoryAt | pygraph/kernels/weisfeilerLehmanKernel.py:164 | entry k of the history is the labeling after k heights |
| WeisfeilerLehman.LayersKernelSymmetric | pygraph/kernels/weisfeilerLehmanKernel.py:161-215 | the accumulated kernel matrix is symmetric |
| WeisfeilerLehman.KernelSumZero | pygraph/kernels/weisfeilerLehmanKernel.py:155-161 | height 0 counts the pairs with equal original labels |
| WeisfeilerLehman.KernelSumNext | pygraph/kernels/weisfeilerLehmanKernel.py:209-215 | each height adds its non-negative count of equally labelled pairs, so no entry decreases |
| WeisfeilerLehman.NodeSignatures | pygraph/kernels/weisfeilerLehmanKernel.py:174-180 | the signature loop returns the signatures of all nodes |
| WeisfeilerLehman.CompressGraph | pygraph/kernels/weisfeilerLehmanKernel.py:183-194 | already numbered signatures keep their number, new ones get the next numbers |
| WeisfeilerLehman.RelabelNodes | pygraph/kernels/weisfeilerLehmanKernel.py:197-198 | every node takes its signature's compressed label; adjacency unchanged |
| WeisfeilerLehman.RefineGraph | pygraph/kernels/weisfeilerLehmanKernel.py:171-203 | one graph's height: in-place relabel, the new labels and their counts |
| WeisfeilerLehman.RefineNext | pygraph/kernels/weisfeilerLehmanKernel.py:171-204 | graph idx is relabelled with the height's shared table, its labels and counts join those of the earlier graphs, and later graphs are untouched |
| WeisfeilerLehman.RefineToHeight | pygraph/kernels/weisfeilerLehmanKernel.py:164-206 | graphs at height h are relabelled in place to height h+1, with the new total and label counts |
| WeisfeilerLehman.RefineHeight | pygraph/kernels/weisfeilerLehmanKernel.py:164-206 | all graphs are relabelled to the next layer, and the total and counts are returned |
| WeisfeilerLehman.PairDot | pygraph/kernels/weisfeilerLehmanKernel.py:157-160 | computes the dot product of two count vectors over the union of labels |
| WeisfeilerLehman.AddHeightKernel | pygraph/kernels/weisfeilerLehmanKernel.py:155-161 | adds each pair's dot product to K[i][j] and mirrors it to K[j][i] |
| WeisfeilerLehman.AddLayerKernel | pygraph/kernels/weisfeilerLehmanKernel.py:209-215 | a matrix holding the kernel of earlier layers gains one more layer |
| WeisfeilerLehman.InitialCounts | pygraph/kernels/weisfeilerLehmanKernel.py:142-152 | the original label counts and the number of distinct original labels |
| WeisfeilerLehman.InitialKernel | pygraph/kernels/weisfeilerLehmanKernel.py:130-161 | the height-0 kernel matrix |
| WeisfeilerLehman.NextHeight | pygraph/kernels/weisfeilerLehmanKernel.py:164-215 | one height: refine in place, then add the new layer's kernel |
| WeisfeilerLehman.SubtreeKernel | pygraph/kernels/weisfeilerLehmanKernel.py:108-217 | K[a,b] counts over heights 0..height the equally labelled node pairs, and the graphs end at the final labelings |
| WLRelabel.IndexOfSpec | pygraph/kernels/weisfeilerLehmanKernel.py:290 | `list.index` returns the first position holding the value |
| WLRelabel.RelabelNumbers | pygraph/kernels/weisfeilerLehmanKernel.py:290 | `set_compressed` maps each unique signature to its position + m + 1 |
| WLRelabel.Renumber | pygraph/kernels/weisfeilerLehmanKernel.py:288-295 | one new label per node |
| WLRelabel.RenumberAt | pygraph/kernels/weisfeilerLehmanKernel.py:290-295 | entry v is `str(k + m + 1)` for its signature's position k |
| WLRelabel.RenumberSameIffSame | pygraph/kernels/weisfeilerLehmanKernel.py:290 | two entries get equal labels iff their signatures are equal |
| WLRelabel.RenumberRange | pygraph/kernels/weisfeilerLehmanKernel.py:290 | every label is a numeral in m+1 .. m plus the number of unique signatures, and there are no more unique signatures than nodes |
| WLRelabel.RelabelByTable | pygraph/kernels/weisfeilerLehmanKernel.py:289-295 | looking signatures up in `set_compressed` gives the renumbering |
| WLRelabel.RelabelOnce | pygraph/kernels/weisfeilerLehmanKernel.py:263-299 | `relabel` gives one label per node |
| WLRelabel.RelabelOnceSameIffSameSignature | pygraph/kernels/weisfeilerLehmanKernel.py:278-295 | two nodes get equal new labels iff their signatures are equal |
| WLRelabel.RelabelOnceRange | pygraph/kernels/weisfeilerLehmanKernel.py:274-290 | new labels are numerals in num_of_labels+1 .. num_of_labels plus the number of unique signatures |
| WLRelabel.RelabelGraph | pygraph/kernels/weisfeilerLehmanKernel.py:263-299 | the graph's labels become `RelabelOnce` of its old labels; all signatures are taken before any overwrite |
| WLRelabel.RelabellingRelabels | pygraph/kernels/weisfeilerLehmanKernel.py:263-299 | the step function used by the kernel is `relabel` |
| WLRelabel.Terms | pygraph/kernels/weisfeilerLehmanKernel.py:243-254 | the kernel has height+2 base-kernel terms, 1 when height < 0 |
| WLRelabel.KernelSumStep | pygraph/kernels/weisfeilerLehmanKernel.py:254 | one more pass adds the base kernel of the next labelings |
| WLRelabel.SpSumConstant | pygraph/kernels/weisfeilerLehmanKernel.py:243-254 | a constant base kernel c gives (number of terms) * c |
| WLRelabel.SpSumSymmetric | pygraph/kernels/weisfeilerLehmanKernel.py:243-254 | a symmetric base kernel gives a symmetric sum |
| WLRelabel.RelabelStep | pygraph/kernels/weisfeilerLehmanKernel.py:250-251 | one `relabel` call advances a graph one step along its history |
| WLRelabel.RelabelRound | pygraph/kernels/weisfeilerLehmanKernel.py:250-251 | G1 then G2 relabelled; the same graph passed twice is relabelled twice |
| WLRelabel.KernelPass | pygraph/kernels/weisfeilerLehmanKernel.py:250-254 | one loop pass adds the base kernel of the new labelings |
| WLRelabel.KernelRounds | pygraph/kernels/weisfeilerLehmanKernel.py:246-255 | the loop adds one term per pass |
| WLRelabel.WLSpKernel | pygraph/kernels/weisfeilerLehmanKernel.py:220-260 | the sum of `spkernel` over the input labelings and the height+1 relabelled ones |
| Iteration.RepeatAdd | pygraph/kernels/weisfeilerLehmanKernel.py:246-254 | applying a step a+b times is a times then b times |
| Iteration.RepeatSucc | pygraph/kernels/weisfeilerLehmanKernel.py:246-254 | one more application is the step applied to the result |
| Iteration.Trajectory | pygraph/kernels/weisfeilerLehmanKernel.py:246-254 | the states after 0..n-1 passes |
| Iteration.TrajectoryAt | pygraph/kernels/weisfeilerLehmanKernel.py:246-254 | entry t is the start after stride*t steps |
| Iteration.TrajectoryPrefix | pygraph/kernels/weisfeilerLehmanKernel.py:246-254 | a longer trajectory extends a shorter one |
| StructuralSp.VertexRowsSpec | pygraph/kernels/structuralspKernel.py:226-255 | the vertex table has exactly one entry per pair of V1 x V2, the node kernel of the pair |
| StructuralSp.VertexTableSpec | pygraph/kernels/structuralspKernel.py:226-255 | `vk_dict` covers V1 x V2 with the selected kernel when nodes are labeled or attributed, and is empty otherwise |
| StructuralSp.FillVertexTable | pygraph/kernels/structuralspKernel.py:230-255 | the nested loops build the vertex table |
| StructuralSp.VertexKernels | pygraph/kernels/structuralspKernel.py:226-255 | `vk_dict` as specified |
| StructuralSp.OrientationsDetermine | pygraph/kernels/structuralspKernel.py:265-295 | two edge pairs sharing a key join the same nodes |
| StructuralSp.EdgeRowsKeys | pygraph/kernels/structuralspKernel.py:265-295 | the edge-table keys are exactly the four orientation keys of every edge pair |
| StructuralSp.Put4Spec | pygraph/kernels/structuralspKernel.py:268-272 | one pair's update sets its four keys and nothing else |
| StructuralSp.EdgeTableOrientations | pygraph/kernels/structuralspKernel.py:265-295 | every edge pair's value is stored under all four orientation keys |
| StructuralSp.EdgeNsymbUsesNodeKernel | pygraph/kernels/structuralspKernel.py:287-295 | the edge-attribute branch ignores the edge kernels and fails iff `kn` is missing or takes 4 arguments |
| StructuralSp.EdgeKernels | pygraph/kernels/structuralspKernel.py:260-298 | `ek_dict` as specified, or the branch's exception |
| StructuralSp.EarlyBreak | pygraph/kernels/structuralspKernel.py:307-312 | breaking out when the partial product is 0 gives the full product |
| StructuralSp.FullProductZero | pygraph/kernels/structuralspKernel.py:309-311 | a product that reaches 0 stays 0 |
| StructuralSp.NodeLabeledPathPair | pygraph/kernels/structuralspKernel.py:303-323 | a node-labeled pair contributes vk of the first aligned nodes times every later position's factors |
| StructuralSp.EdgeLabeledPathPair | pygraph/kernels/structuralspKernel.py:325-337 | an edge-labeled pair contributes the product of ek over aligned segments, and 1 for single-node paths |
| StructuralSp.PathProduct | pygraph/kernels/structuralspKernel.py:307-312 | the product loop with early exit computes the pair's product |
| StructuralSp.PairOfPaths | pygraph/kernels/structuralspKernel.py:303-337 | the contribution of one equal-length path pair |
| StructuralSp.RowKernelSum | pygraph/kernels/structuralspKernel.py:328-341 | the inner sum over the paths of G2 |
| StructuralSp.PathsKernelSum | pygraph/kernels/structuralspKernel.py:300-343 | only equal-length pairs contribute, and the sum is divided by `len(spl1)*len(spl2)` |
| StructuralSp.SameLengthCount | pygraph/kernels/structuralspKernel.py:339-341 | at most len(ps2) paths match a length |
| StructuralSp.EqualLengthPairs | pygraph/kernels/structuralspKernel.py:338-343 | at most len(ps1)*len(ps2) pairs have equal length |
| StructuralSp.UnlabeledKernel | pygraph/kernels/structuralspKernel.py:338-343 | unlabeled: the kernel is the fraction of equal-length path pairs, in [0, 1] |
| StructuralSp.Reversed | pygraph/kernels/structuralspKernel.py:406 | `p[::-1]` keeps the length and reverses the nodes |
| StructuralSp.SingleNodePaths | pygraph/kernels/structuralspKernel.py:411 | `[[n] for n in nodes]` |
| StructuralSp.ShortestPathsContents | pygraph/kernels/structuralspKernel.py:400-409 | every path found for a pair is in the list, and so is its reverse when undirected; nothing else but single-node paths |
| StructuralSp.ShortestPathsEndWithNodes | pygraph/kernels/structuralspKernel.py:411 | the list ends with the n single-node paths, so it has at least n entries |
| StructuralSp.GetShortestPaths | pygraph/kernels/structuralspKernel.py:382-413 | the loop builds the path list |
| StructuralSp.StructuralSpDo | pygraph/kernels/structuralspKernel.py:213-345 | the two tables, then the mean over path pairs |
| StructuralSp.ChunkSize | pygraph/kernels/structuralspKernel.py:105-108 | `len/n_jobs+1` below `1000*n_jobs`, 1000 otherwise, always in 1..1000; TypeError with `n_jobs=None`; computed on the graph count (lines 105-108) and on the pair count (lines 156-159) |
| StructuralSp.PairCountIsPairs | pygraph/kernels/structuralspKernel.py:154-155 | `len_itr` counts the pairs i <= j |
| StructuralSp.FillRow | pygraph/kernels/structuralspKernel.py:160-165 | each pair (i, j >= i) is written to both K[i][j] and K[j][i] |
| StructuralSp.StructuralSpKernel | pygraph/kernels/structuralspKernel.py:100-165 | the kernel matrix is symmetric and holds every pair's kernel as computed, never clipped |
| RandomWalk.WithEdgesSound | gklearn/kernels/else/rwalk_sym.py:97 | each kept entry is a graph with edges at its own position, positions increasing |
| RandomWalk.WithEdgesComplete | gklearn/kernels/else/rwalk_sym.py:97 | every graph with edges is kept |
| RandomWalk.FilterEdgelessSpec | gklearn/kernels/else/rwalk_sym.py:96-102 | `idx` is the increasing list of positions of graphs with edges; survivors keep their order; the number removed is `len_gn - len(Gn)` |
| RandomWalk.LowerIdempotent | gklearn/kernels/else/rwalk_sym.py:64 | lowercasing twice is lowercasing once |
| RandomWalk.ParseMethodName | gklearn/kernels/else/rwalk_sym.py:110-139 | every method is selected by its own name |
| RandomWalk.ParseMethodSpec | gklearn/kernels/else/rwalk_sym.py:64-139 | a name selects a method iff its lowercase form is that method's name; any other name raises |
| RandomWalk.ParseMethodNone | gklearn/kernels/else/rwalk_sym.py:64 | the default `None` raises before anything else |
| RandomWalk.WalkVertexTableSpec | gklearn/kernels/else/rwalk_sym.py:593-624 | `computeVK` covers V1 x V2 with the selected node kernel when nodes are labeled or attributed, and is empty otherwise |
| RandomWalk.ComputeVK | gklearn/kernels/else/rwalk_sym.py:593-624 | the loops build that table |
| RandomWalk.FlatBound | gklearn/kernels/else/rwalk_sym.py:630-643 | `u*n2+v < n1*n2` for u < n1, v < n2 |
| RandomWalk.FlatInjective | gklearn/kernels/else/rwalk_sym.py:642-643 | distinct product nodes get distinct rows |
| RandomWalk.FlatEq | gklearn/kernels/else/rwalk_sym.py:642-643 | equal rows mean equal product nodes |
| RandomWalk.PlacePair | gklearn/kernels/else/rwalk_sym.py:642-643 | one edge pair's writes, `w_idx` and, undirected, its transpose, `w_idx2` and its transpose |
| RandomWalk.CellsInRange | gklearn/kernels/else/rwalk_sym.py:642-643 | an edge pair's cells lie inside the w_dim x w_dim matrix |
| RandomWalk.WriteRow | gklearn/kernels/else/rwalk_sym.py:640-645 | the inner loop over G2's edges |
| RandomWalk.WriteRows | gklearn/kernels/else/rwalk_sym.py:639-645 | the outer loop over G1's edges on a zero matrix |
| RandomWalk.ComputeW | gklearn/kernels/else/rwalk_sym.py:627-841 | a zero `n1*n2` square matrix whose cells are written pair by pair, symmetric when undirected |
| RandomWalk.ArraySymmetric | gklearn/kernels/else/rwalk_sym.py:675-744 | a matrix holding a symmetric table is symmetric |
| RandomWalk.CellsDetermine | gklearn/kernels/else/rwalk_sym.py:642-643 | two edge pairs sharing a cell are parallel on both sides |
| RandomWalk.WeightCellsWritten | gklearn/kernels/else/rwalk_sym.py:633-841 | the only non-zero cells are those an edge pair writes; all others keep 0 |
| RandomWalk.WeightCellsSymmetric | gklearn/kernels/else/rwalk_sym.py:675-841 | undirected: all four cells get one value, so W is symmetric |
| RandomWalk.WeightCellsValue | gklearn/kernels/else/rwalk_sym.py:633-841 | each written cell holds vk·ke·vk (plus the crossed term when undirected), vk·vk, ke or 1 |
| RandomWalk.EdgeTripleSpec | gklearn/kernels/else/rwalk_sym.py:566-570 | the triple is (nl1, edge label, nl2), ordered nl1 <= nl2 when undirected, the same for both orientations |
| RandomWalk.LabelLists | gklearn/kernels/else/rwalk_sym.py:563-576 | one table per graph |
| RandomWalk.EdgeLabelsKeys | gklearn/kernels/else/rwalk_sym.py:565-571 | `label_g`'s keys are exactly the (u, v) of the edges |
| RandomWalk.EdgeLabelsValue | gklearn/kernels/else/rwalk_sym.py:565-571 | an edge's triple is stored unless a later edge has the same (u, v) |
| RandomWalk.GetLabelsSpec | gklearn/kernels/else/rwalk_sym.py:561-578 | each edge maps to its triple and nothing else; the count is the number of distinct triples |
| RandomWalk.GetLabels | gklearn/kernels/else/rwalk_sym.py:561-578 | `getLabels` builds those tables and that count |
| RandomWalk.FilterGramMatrix | gklearn/kernels/else/rwalk_sym.py:581-590 | a zero matrix of the same shape with [n2,n1] (and [n1,n2] if undirected) copied for edges labeled `label`; IndexError for keys outside |
| GraphFiles.WithNodeSpec | utils/graphfiles.py:18-23 | appending a missing node keeps ids distinct and adds it |
| GraphFiles.AddNodeSpec | utils/graphfiles.py:18 | `add_node` keeps the graph consistent, adds the node and sets its label |
| GraphFiles.AddEdgeSpec | utils/graphfiles.py:23 | `add_edge` keeps the graph consistent, adds both ends and is orientation-free |
| GraphFiles.CtGraph.constructor | utils/graphfiles.py:6 | an empty graph with the given name |
| GraphFiles.CtGraph.AddNode | utils/graphfiles.py:18 | the graph's state becomes `AddNodeTo` of the old state and stays valid |
| GraphFiles.CtGraph.AddEdge | utils/graphfiles.py:23 | the graph's state becomes `AddEdgeTo` of the old state and stays valid |
| GraphFiles.LoadCT | utils/graphfiles.py:4-24 | the graph built step by step equals `LoadCTSpec`, or the same exception |
| GraphFiles.ParseHeader | utils/graphfiles.py:7-13 | computes the header counts |
| GraphFiles.AddNodeLines | utils/graphfiles.py:15-18 | the node loop, or the first bad line's exception |
| GraphFiles.AddEdgeLines | utils/graphfiles.py:20-23 | the edge loop, or the first bad line's exception |
| GraphFiles.AddEdgeLine | utils/graphfiles.py:21-23 | one edge line at the current node count |
| GraphFiles.SplitFirstEmpty | utils/graphfiles.py:8 | the first piece is empty iff the line is empty or starts with a space |
| GraphFiles.HeaderSpec | utils/graphfiles.py:7-13 | counts from tokens 0,1, or 1,2 when the line starts with a space; IndexError or ValueError otherwise |
| GraphFiles.EdgeLineSpec | utils/graphfiles.py:21-23 | an edge line is read iff it has four tokens and tokens 0, 1 and 3 are integers; the edge is (a-1, b-1) with the integer label; IndexError or ValueError otherwise |
| GraphFiles.ReadNodesSpec | utils/graphfiles.py:15-18 | succeeds iff lines 2..count+1 have four tokens; nodes 0..count-1 in order, node i labeled by the 4th token of line i+2 as a string, no edges |
| GraphFiles.KeyReadStep | utils/graphfiles.py:20-23 | the keys read by count edges are those of count-1 plus edge count-1's |
| GraphFiles.ReadEdgeInRange | utils/graphfiles.py:21-23 | an edge between existing nodes adds no node |
| GraphFiles.ReadEdgesInRange | utils/graphfiles.py:20-23 | with every edge in range, edge k comes from line k+n+2 and no node is added |
| GraphFiles.ReadEdgesInRangeStep | utils/graphfiles.py:21-23 | one more in-range edge line adds its edge |
| GraphFiles.EdgesReadKeys | utils/graphfiles.py:20-23 | an edge is stored iff some edge line names it |
| GraphFiles.EdgesReadTags | utils/graphfiles.py:23 | each edge carries its line's integer label unless a later line names the same edge |
| GraphFiles.LoadCTSpecWellFormed | utils/graphfiles.py:4-24 | a well-formed file gives the name line 0, nodes 0..n-1 labeled by their lines, and edges (a-1, b-1) with their labels |

Some specification functions have no contract of their own. The rows above state them through lemmas and methods:
- `RandomWalk.ParseMethod` through `ParseMethodSpec`, `ParseMethodName` and `ParseMethodNone`;
- `GraphFiles.HeaderCounts` through `HeaderSpec` and `ParseHeader`;
- `GraphFiles.EdgeLine` through `EdgeLineSpec`;
- `GraphFiles.ReadNodes` through `ReadNodesSpec`;
- `GraphFiles.ReadEdges` through `ReadEdgesInRange`, `EdgesReadKeys` and `EdgesReadTags`;
- `GraphFiles.LoadCTSpec` through `LoadCT` and `LoadCTSpecWellFormed`;
- `StructuralSp.VertexTable` through `VertexTableSpec`;
- `StructuralSp.EdgeTable` through `EdgeRowsKeys`, `EdgeTableOrientations`, `EdgeNsymbUsesNodeKernel` and `EdgeKernels`;
- `StructuralSp.PathPairKernel` through `NodeLabeledPathPair`, `EdgeLabeledPathPair`, `EarlyBreak` and `PairOfPaths`;
- `StructuralSp.ShortestPaths` through `ShortestPathsContents`, `ShortestPathsEndWithNodes` and `GetShortestPaths`;
- `RandomWalk.WeightCells` through `WeightCellsWritten`, `WeightCellsSymmetric`, `WeightCellsValue` and `ComputeW`;
- `RandomWalk.EdgeLabels` through `EdgeLabelsKeys`, `EdgeLabelsValue` and `GetLabelsSpec`;
- `WeisfeilerLehman.KernelSum` through `KernelSumZero`, `KernelSumNext` and `SubtreeKernel`.

## Left out

- The random-walk solvers (`_sylvester_equation`, `_conjugate_gradient`, `_fixed_point`, `_spectral_decomposition`). They are floating-point linear algebra in foreign libraries. `ParseMethod` only selects the method.
- The `kron` branch. It indexes an undefined `Kmatrix`, and `_randomwalkkernel_kron` is `pass`. `ParseMethod` accepts the name and the model goes no further.
- The WL `edge` base kernel and the two-graph `sp` branch of `weisfeilerlehmankernel`. The first only prints; the second calls an undefined function.
- `Pool`, `imap_unordered` and chunked dispatch. The model fills the kernel matrix sequentially over i <= j. `ChunkSize` keeps the chunk rule. A `Pool` given fewer than 1 process is modelled as a ValueError.
- `nx.all_shortest_paths`, `get_dataset_attributes` and the WL base kernel `spkernel`. They are parameters: a path oracle, a `DatasetAttrs` value and a function.
- Python set and dict iteration order. `list(set(xs))` is taken in first-occurrence order. The order of networkx edges is the order of the edge list given.
- Aliasing in the WL subtree kernel. `SubtreeKernel` requires the graph objects in its list to be distinct. The same object listed twice would be relabelled twice per height. `WLSpKernel` does handle `G1 is G2`.
- Real-number rounding. Kernel values are exact reals. Label counts are unbounded integers.
- Edge-weight attribute probing, timing, `print`, `tqdm` and warnings.
- File opening and `splitlines` in `loadCT`. The model takes the file's lines.
- `loadGXL` and `loadDataset`.
- Text.ParseInt: accepts exactly an optional sign and ASCII digits. Python's `int()` also strips surrounding whitespace and accepts underscores between digits and non-ASCII digits; tokens of a CT file contain none of these.
- Text.Lower: lowers ASCII letters only, not the rest of Unicode.
- RandomWalk.ComputeW: a missing key of `vk_dict` reads as 0 instead of raising KeyError. `computeVK` always holds every key read, so this case is unreachable from `randomwalkkernel`.
- Missing or incomplete kernel dictionaries. `node_kernels` and `edge_kernels` default to `None`, and subscripting `None` raises a TypeError. A dictionary without a 'symb', 'nsymb' or 'mix' entry raises a KeyError. The model's `Kernels` value always holds all three kernels, so it assumes the caller supplies complete dictionaries. The `kn` NameError and TypeError of `structuralspKernel.py` line 291 are still modelled.
- Directed graphs with antiparallel edges in the structural shortest-path edge table. `EdgeTableOrientations` does not describe them, because there the second edge's values replace the first's under all four keys. `EdgeRowsKeys` and `EdgeKernels` still cover them.
