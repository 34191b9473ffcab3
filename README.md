# Recursive weighted digraph generator: a verified model

This project models the generator in `graphs/recursive_graph.py` and states its guarantees as Dafny contracts. The generator itself does four things:

- It checks its configuration.
- It builds a random weighted template graph: a backbone chain `0 -> 1 -> ... -> N-1` plus random extra edges, so that each node has at most `max_edges` out-edges, its backbone edge included. The end node `N-1` is a sink.
- It copies the template into a global adjacency table.
- It drains a breadth-first queue of `(node, depth)` pairs. Each node is replaced by a fresh copy of the template: the copy's start reuses the node's id, and its other nodes get consecutive fresh ids from a counter. The node's old out-edges move to the copy's end, and the global end follows the copy when the end node itself is expanded.

Finally it runs Dijkstra's algorithm once from node 0 to the end. The resulting `Graph` container caches the optimal cost and path. It answers neighbour queries, costs a path and validates a path against the cached optimum.

Modules:

| file | module | models |
|---|---|---|
| `results.dfy` | `Results` | the raised `ValueError`s, as an `Error` value inside a `Result` |
| `graphs.dfy` | `Graphs` | the `Graph` container: `neighbors`, `undirected_neighbors`, `n_nodes`, `path_cost`, `verify_shortest_path` |
| `reach.dfy` | `Reach` | reachability by walks; its lemmas carry reachability through an expansion |
| `search_state.dfy` | `SearchState` | the state of `_dijkstra_with_path` (heap, `best`, `prev`) and the invariant its loop keeps |
| `shortest_path.dfy` | `ShortestPath` | `_dijkstra_with_path`: the heap loop, stale-entry skipping, relaxation and the predecessor walk-back |
| `template.dfy` | `Template` | the constructor's checks, `_sample_weight`, `random.sample`, and `_build_template` |
| `expansion.dfy` | `Expansion` | what one `_expand_node` call produces (`ExpandedFrom`), the invariant of the `build` queue (`Drained`), and the node count |
| `generator.dfy` | `Generator` | class `RecursiveGraphGenerator`: the `_next_id` field, `_expand_node`, the `build` loop, and `__init__` as `Create` |

Randomness is an input. A `WeightDraw` carries the index that `random.choice` returns and the fraction in `[0, 1]` behind `random.uniform`. A `TemplateDraws` value carries:

- one weight draw per backbone edge;
- for every non-end node, the picks behind its extra destinations: `randint`'s count is the length of the pick list, and each pick indexes the remaining candidate pool, as selection without replacement;
- one weight draw per extra edge.

Weights are exact `real`s.

Three behaviours of the code are worth knowing:

- At depth 1, `build` expands every template node, the end node included, so a template of `N` nodes grows to `N * N` nodes (`Expansion.NodeCountDepthOne`).
- `undirected_neighbors` does not filter its outgoing part, so a node with a self-loop lists itself (`Graphs.UndirectedMembership`). The generator never produces self-loops.
- The docstring of `verify_shortest_path` says "True iff *path* is valid **and** its cost equals the cached optimum (tolerance 1 e-9)". As written, it lets `path_cost`'s error escape instead of returning false (see Findings).

## Model

| member | source | states |
|---|---|---|
| Graphs.Out | graphs/recursive_graph.py:31 | `adj.get(u, [])`: the listed out-edges of `u`, none for an unknown node; the same lookup is used at lines 42, 66 and 265 |
| Graphs.Graph.Neighbors | graphs/recursive_graph.py:30-31 | the out-edges of a known node; `[]` for an unknown node; `v` is a destination exactly when `u -> v` is an edge |
| Graphs.Graph.UndirectedNeighbors | graphs/recursive_graph.py:33-51 | the result set is exactly every destination of `u`'s out-edges plus every node other than `u` that has an edge into `u` |
| Graphs.Undirected | graphs/recursive_graph.py:39-51 | the undirected neighbour set: out-destinations of `u` plus the other nodes with an edge into `u`; `UndirectedMembership` states its meaning |
| Graphs.UndirectedMembership | graphs/recursive_graph.py:39-51 | `v` is an undirected neighbour of `u` iff `u -> v` is an edge, or `v != u` and `v -> u` is an edge |
| Graphs.UndirectedSymmetric | graphs/recursive_graph.py:33-51 | for `u != v`: `v` is an undirected neighbour of `u` iff `u` is one of `v` |
| Graphs.Graph.NNodes | graphs/recursive_graph.py:53-54 | the node count is the number of keys of the adjacency table |
| Graphs.StepsCost | graphs/recursive_graph.py:64-69 | the step-by-step cost of a path, failing at the first pair that is not an edge; `StepsCostOkIff`, `StepsCostErrIsFirstMissing` and `StepsCostIsWalkCost` state its meaning |
| Graphs.Graph.PathCostSpec | graphs/recursive_graph.py:61-69 | the endpoint check, then the step cost; `PathCostOkIff` and `PathCostErrors` state its meaning |
| Graphs.Graph.PathCost | graphs/recursive_graph.py:59-70 | the accumulator loop returns exactly the endpoint check followed by the step-by-step cost, including the first failing step |
| Graphs.PathCostOkIff | graphs/recursive_graph.py:59-70 | costing succeeds iff the path is non-empty, starts at `start`, ends at `end` and every consecutive pair is an edge |
| Graphs.PathCostErrors | graphs/recursive_graph.py:61-68 | the endpoint error occurs iff the path is empty or has a wrong endpoint; otherwise a failure names the first consecutive pair that is not an edge, and all pairs before it are edges |
| Graphs.StepsCostOkIff | graphs/recursive_graph.py:64-69 | the step loop succeeds iff every consecutive pair is an edge |
| Graphs.StepsCostErrIsFirstMissing | graphs/recursive_graph.py:64-68 | a failing step loop reports `EdgeAbsent(p[i], p[i+1])` for the first `i` whose pair is not an edge |
| Graphs.StepsCostPrefixErr | graphs/recursive_graph.py:64-68 | once a prefix of the path fails, the whole path fails with the same error |
| Graphs.StepsCostIsWalkCost | graphs/recursive_graph.py:64-70 | a successful cost is the sum of the weights of a walk along the path, each weight taken from the edge map |
| Graphs.WalkCostIsStepsCost | graphs/recursive_graph.py:64-70 | without repeated destinations, any walk along `p` costs `Sum(ws)` |
| Graphs.EdgeMap | graphs/recursive_graph.py:66 | the destination-to-weight map of an edge list, later entries overriding earlier ones; `EdgeMapSound` and `EdgeMapLastListed` state its meaning |
| Graphs.EdgeMapSound | graphs/recursive_graph.py:66 | the edge map's keys are exactly the listed destinations, and each mapped weight belongs to a listed edge |
| Graphs.EdgeMapLastListed | graphs/recursive_graph.py:66 | for a repeated destination, the edge map holds the weight listed last |
| Graphs.EdgeMapDistinct | graphs/recursive_graph.py:66 | with distinct destinations, each edge's weight is the mapped one |
| Graphs.Graph.VerifyShortestPath | graphs/recursive_graph.py:72-77 | as written: a `path_cost` failure passes through unchanged; otherwise the result is whether the cost is within `1e-9` of the cached optimum |
| Graphs.Graph.VerifyShortestPathTotal | graphs/recursive_graph.py:72-76 | as documented: true iff costing succeeds and the cost is within `1e-9` of the optimum |
| Graphs.OptimalPathVerifies | graphs/recursive_graph.py:59-77 | a graph whose cached path is a start-to-end walk of the cached cost, without repeated destinations, costs that path at exactly the cached cost, so `verify_shortest_path` on it is true |
| Graphs.RejectedPathIsNotFalse | graphs/recursive_graph.py:61-62 | the empty path, and `[start]` when `start != end`, are answered with the endpoint error, not with false |
| Template.Validate | graphs/recursive_graph.py:104-111 | success iff `base_nodes >= 2`, `max_edges >= 1`, exactly one weight spec, and `lo <= hi`; each failure in the source's order with its own error; on success the spec given |
| Template.SampleWeight | graphs/recursive_graph.py:234-238 | fails iff the choice list is empty; otherwise the weight is one of the choices or lies in `[lo, hi]` |
| Template.ScaleBetween | graphs/recursive_graph.py:237-238 | `lo + (hi - lo) * f` lies in `[lo, hi]` for a fraction `f` in `[0, 1]` |
| Template.PossibleNonNegative | graphs/recursive_graph.py:234-238 | with a non-negative spec every sampled weight is non-negative |
| Template.EmptyRows | graphs/recursive_graph.py:172 | the start table has exactly the keys `0 .. N-1`, each with an empty row |
| Template.Candidates | graphs/recursive_graph.py:189 | the candidate list: nodes below `N` other than `u` and the existing destinations, in increasing order; `CandidatesSound` states its meaning |
| Template.CandidatesSound | graphs/recursive_graph.py:189 | `cand` holds exactly the nodes `< N` other than `u` and the existing destinations, in increasing order |
| Template.CandidatesCount | graphs/recursive_graph.py:188-189 | with one existing destination `w`, `cand` has `N` nodes less one for `u` and one for `w` when they are distinct nodes below `N`; with the backbone edge alone that is `N - 2` |
| Template.Remove | graphs/recursive_graph.py:190 | taking one element from the pool shrinks it by one; if the pool was distinct, what remains is still distinct and no longer holds the taken element |
| Template.Sample | graphs/recursive_graph.py:190 | `random.sample` fails iff more picks than pool elements are requested; otherwise it returns as many nodes as picks |
| Template.SampleSound | graphs/recursive_graph.py:190 | a sample is drawn from the pool and has no repetition when the pool has none |
| Template.Weighted | graphs/recursive_graph.py:190-191 | one edge per chosen destination, in order, with the weight each draw gives; `WeightedShape` and `WeightedDests` state its meaning |
| Template.WeightedShape | graphs/recursive_graph.py:190-191 | the appended edges go to the chosen nodes, in order, with possible weights |
| Template.WeightedDests | graphs/recursive_graph.py:190-191 | distinct chosen nodes give distinct destinations |
| Template.AppendWeighted | graphs/recursive_graph.py:190-191 | the append loop leaves the row followed by one weighted edge per chosen node |
| Template.BuildBackbone | graphs/recursive_graph.py:172-176 | fails iff the choice list is empty; otherwise nodes `0 .. N-1` are keys, each `u < N-1` holds exactly `u -> u+1` with its drawn weight, and the end row is empty |
| Template.ExtraRow | graphs/recursive_graph.py:181-191 | a node's list after the extra-edge pass: its backbone edge, then an edge to each sampled candidate with its drawn weight |
| Template.SampleExtra | graphs/recursive_graph.py:187-191 | fails iff more extras are requested than there are candidates; otherwise the row is exactly `ExtraRow` for the draws: the backbone edge first, one edge per pick, and it is repetition-free, self-loop-free, within `max_edges` and within the nodes |
| Template.ExtendNode | graphs/recursive_graph.py:181-191 | one iteration of the extra-edge loop: only `u`'s row changes; it fails iff `k_extra > |cand|`; on success the new row is exactly `ExtraRow` for `u`'s draws (just the backbone edge when there is no room or `k_extra` is 0) and fits the template guarantees |
| Template.ChosenFit | graphs/recursive_graph.py:188-190 | the sampled destinations are distinct, below `N`, and neither `u` nor `u+1` |
| Template.SampledRowFits | graphs/recursive_graph.py:190-191 | the backbone edge followed by the sampled edges satisfies the per-row guarantees |
| Template.BackboneFirstFits | graphs/recursive_graph.py:174-191 | a backbone edge followed by fitting extra edges makes a fitting row |
| Template.RowsFitTemplate | graphs/recursive_graph.py:170-194 | keys `0 .. N-1`, a backbone edge first in each row, a sink end and fitting rows make a template |
| Template.ExtendedStep | graphs/recursive_graph.py:181-191 | one iteration of the extra-edge loop preserves the loop invariant |
| Template.ExtendReady | graphs/recursive_graph.py:181-183 | before node `u`'s iteration, its row is still exactly its backbone edge, so `room = max_edges - 1` |
| Template.ExtendedTemplate | graphs/recursive_graph.py:181-194 | after the loop the table is a template, and the sink assertion holds |
| Template.AddExtraEdges | graphs/recursive_graph.py:181-194 | the extra-edge loop succeeds iff no node asks for more than `N - 2` extras; on success the table is a template, and each row is exactly `ExtraRow`: its backbone edge followed by one edge per pick, to the sampled candidate, with its drawn weight |
| Template.BuildTemplate | graphs/recursive_graph.py:170-194 | the whole builder fails exactly on an empty choice list or an oversampled node; every result is a template (keys `0 .. N-1`, backbone first, sink end, no self-loops, no repeated or dangling destinations, out-degree at most `max_edges`, possible weights), and each non-end row is exactly `ExtraRow` for that node's backbone draw, picks and weight draws |
| Generator.RecursiveGraphGenerator.Create | graphs/recursive_graph.py:94-128 | `__init__` fails with the first failing configuration check; once the checks pass, it fails iff the template builder does, with `EmptyWeightChoices` exactly when the choice list is empty and `SampleLargerThanPopulation` otherwise; on success it yields a fresh generator with `_next_id = base_nodes`, holding a template whose rows are exactly `ExtraRow` for the draws |
| Generator.RecursiveGraphGenerator.constructor | graphs/recursive_graph.py:113-128 | the fields are set as given and `_next_id` starts at `base_nodes` |
| Expansion.MapId | graphs/recursive_graph.py:208-214 | `mapping[t]`: the template start goes to the expanded node, template node `t > 0` to fresh id `base + t - 1`; `MapIdInjective` states that no two template nodes share an id |
| Expansion.MapIdInjective | graphs/recursive_graph.py:208-214 | the mapping is injective |
| Expansion.Remap | graphs/recursive_graph.py:221-223 | a template row with every destination replaced by its global id, keeping weights and order; `RemapAt` and `RemapFits` state its meaning |
| Expansion.RemapAt | graphs/recursive_graph.py:221-223 | the `j`-th remapped edge goes to the mapped destination of the `j`-th template edge, with the same weight |
| Expansion.FreshIds | graphs/recursive_graph.py:209-214 | the `base_nodes - 1` consecutive fresh ids, from the counter's value before the expansion |
| Generator.RecursiveGraphGenerator.AllocateIds | graphs/recursive_graph.py:208-214 | the start maps to the node's own id, every other template node `t` to `_next_id + t - 1`, and `_next_id` advances by `base_nodes - 1` |
| Generator.InnerNodes | graphs/recursive_graph.py:228 | `inner_nodes` is exactly the `base_nodes - 1` fresh ids, in order; it never holds the node's own id |
| Generator.CloneEdges | graphs/recursive_graph.py:221-223 | the inner cloning loop appends the remapped template edges, in order |
| Generator.CloneTemplate | graphs/recursive_graph.py:219-223 | after the cloning loop every template row sits at its mapped id, and all other rows are as before |
| Generator.Rewire | graphs/recursive_graph.py:204-226 | the table `_expand_node` leaves behind: only the node and the fresh ids change, and `sub_end` is the last fresh id |
| Generator.RecursiveGraphGenerator.ExpandNode | graphs/recursive_graph.py:199-229 | the node's row becomes the remapped template start row; each fresh id holds its remapped template row; `sub_end` also receives the node's old out-edges; every other row is unchanged; `_next_id` advances by `base_nodes - 1`; `inner_nodes` is exactly `FreshIds` |
| Expansion.ExpandedRow | graphs/recursive_graph.py:204-226 | every row after an expansion is an untouched old row, or the remapped template row of the copy node it belongs to, extended by the old out-edges at the copy's end |
| Expansion.ExpandedEnd | graphs/recursive_graph.py:216-226 | the copy's end holds exactly the node's previous out-edges |
| Expansion.ExpandedKeys | graphs/recursive_graph.py:204-223 | the keys grow by exactly the `base_nodes - 1` fresh ids |
| Expansion.ExpandedShape | graphs/recursive_graph.py:204-226 | an expansion keeps the table free of self-loops, repeated destinations and dangling ids, with possible weights |
| Expansion.ExpandedReach | graphs/recursive_graph.py:204-226 | if the end was reachable from 0, the (possibly re-targeted) end stays reachable |
| Expansion.ExpandedCarries | graphs/recursive_graph.py:219-226 | each old edge `u -> v` can still be walked in the expanded table |
| Expansion.CopyBackbone | graphs/recursive_graph.py:219-223 | inside a copy, every copy node is reachable from the expanded node along the backbone |
| Expansion.ExpandKeeps | graphs/recursive_graph.py:145-151 | an expansion preserves the build invariant, with the end re-targeted to `sub_end` exactly when the node was the end |
| Expansion.TemplateGrown | graphs/recursive_graph.py:133-137 | the copied template satisfies the build invariant with end `N-1` reachable from start `0` |
| Expansion.AtDepth | graphs/recursive_graph.py:154 | the queue entries `(v, d)` for the listed nodes, in order (also the initial queue at line 141); `AtDepthAt` states them entry by entry |
| Expansion.AtDepthAt | graphs/recursive_graph.py:154 | entry `i` is `(nodes[i], d)` |
| Expansion.Iota | graphs/recursive_graph.py:141 | `range(base_nodes)`, the template nodes in order; `IotaAt` states them entry by entry |
| Expansion.IotaAt | graphs/recursive_graph.py:141 | entry `i` is `i` |
| Expansion.DrainedSkip | graphs/recursive_graph.py:143-146 | skipping an entry deeper than `recursion_depth` keeps the queue invariant and the outstanding work |
| Expansion.DrainedExpand | graphs/recursive_graph.py:146-154 | expanding the front entry and re-queuing its inner nodes at `depth + 1`, only when `depth < recursion_depth`, keeps the queue invariant and strictly reduces the outstanding expansions |
| Expansion.PendingRequeue | graphs/recursive_graph.py:153-154 | the re-queued inner nodes carry exactly one expansion less than the removed entry |
| Expansion.RequeueIn | graphs/recursive_graph.py:153-154 | every queued node is a key of the table |
| Expansion.NodeCountDepthZero | graphs/recursive_graph.py:143-146 | with `recursion_depth <= 0` nothing is expanded, so the graph has `base_nodes` nodes |
| Expansion.NodeCountDepthOne | graphs/recursive_graph.py:140-154 | at depth 1 the graph has `base_nodes * base_nodes` nodes |
| Expansion.ExpansionsDeeper | graphs/recursive_graph.py:140-154 | one more level multiplies the expansions below each template node by `base_nodes - 1` and adds one |
| Expansion.CountComplete | graphs/recursive_graph.py:140-154 | the counting identity that links the queue loop's expansion count to `NodeCount`: once all `base_nodes * Expansions` expansions are done, `base_nodes + done * (base_nodes - 1)` is `NodeCount` |
| Generator.RecursiveGraphGenerator.ExpandGrown | graphs/recursive_graph.py:146-151 | the new table is exactly `ExpandedFrom` the old one, with inner nodes `FreshIds`; `_next_id` advances by `base_nodes - 1`; the end follows `sub_end` iff the node was the end; the build invariant is preserved |
| Generator.RecursiveGraphGenerator.ExpandEntry | graphs/recursive_graph.py:146-154 | handling an entry with `depth <= recursion_depth` counts one more expansion and gives the state `Expanded` names: `_next_id` advanced by `base_nodes - 1`, the table `ExpandedFrom` the old one at the entry's node, the end re-targeted iff it was that node, and the queue `q[1..]` followed by the fresh ids at `depth + 1` only when `depth < recursion_depth`; it keeps the queue invariant and reduces the outstanding work |
| Generator.RecursiveGraphGenerator.Step | graphs/recursive_graph.py:142-154 | an entry deeper than `recursion_depth` is dropped: table, end and counter unchanged, queue `q[1..]`; any other entry is expanded as `ExpandEntry` states; the expansion count grows by one exactly when the entry is expanded; either way the queue invariant holds and the work left decreases |
| Generator.RecursiveGraphGenerator.Expand | graphs/recursive_graph.py:133-154 | after the queue is drained: start `0`, an end that is a key, a sink and reachable from `0`, no self-loops or dangling ids, and exactly `NodeCount` nodes; `_next_id` has advanced by exactly `NodeCount - base_nodes`, the fresh ids handed out, which is where a later `build` starts; depth `<= 0` returns the template unchanged |
| Generator.RecursiveGraphGenerator.Build | graphs/recursive_graph.py:131-165 | `build` never fails; it returns start `0`, a sink end, a table with no self-loops, repeated destinations or dangling ids, `n_nodes == NodeCount`, and a cached path that is a start-to-end walk of the cached cost, with no cheaper walk; `path_cost` of the cached path is exactly the cached cost, so it passes `verify_shortest_path`; `_next_id` has advanced by exactly `NodeCount - base_nodes`, since `build` never resets it |
| ShortestPath.Dijkstra | graphs/recursive_graph.py:243-272 | with non-negative weights: on success the path is a walk from start to end whose weights sum to the cost, and no walk is cheaper; it fails with the not-connected error iff no walk reaches end |
| ShortestPath.Reversed | graphs/recursive_graph.py:260 | `path[::-1]`; `ReversedSnoc` states how it grows |
| ShortestPath.ReversedSnoc | graphs/recursive_graph.py:256-260 | appending `x` to the collected nodes puts `x` first in the reversed path |
| ShortestPath.WalkBack | graphs/recursive_graph.py:255-260 | the predecessor walk from `end` reaches `start` and traces a walk of weight `best[end]` |
| ShortestPath.RelaxOne | graphs/recursive_graph.py:265-270 | when `v` is unknown or `cost_u + w < best[v]`, it sets `best[v]` to `cost_u + w` and `prev[v]` to `u` and pushes `(cost_u + w, v)`; otherwise the heap, `best` and `prev` are unchanged; either way the search invariant is kept |
| ShortestPath.RelaxPrefix | graphs/recursive_graph.py:265-270 | the heap, `best` and `prev` after relaxing `u`'s first `i` out-edges in order: the known nodes grow by exactly those destinations, no known cost rises, and each destination costs at most `cost_u + w` |
| ShortestPath.RelaxPrefixStep | graphs/recursive_graph.py:265-270 | relaxing edge `i` as `RelaxOne` does extends the relaxed prefix by that edge |
| ShortestPath.RelaxOutEdges | graphs/recursive_graph.py:265-270 | after the loop over `u`'s out-edges the heap, `best` and `prev` are exactly `RelaxPrefix` over all of them, and the search invariant holds again, with every settled node relaxed |
| SearchState.EntryLe | graphs/recursive_graph.py:254 | Python's order on `(cost, node)` tuples: by cost, then by node |
| ShortestPath.MinEntryExists | graphs/recursive_graph.py:253-254 | a non-empty heap has a least `(cost, node)` entry in tuple order |
| ShortestPath.PopStale | graphs/recursive_graph.py:262-263 | skipping an entry dearer than `best[u]` keeps the search invariant |
| ShortestPath.PopFresh | graphs/recursive_graph.py:253-263 | a popped entry that is not stale belongs to a node not yet settled, its cost is `best[u]`, settling `u` shrinks the unsettled nodes, and the invariant is kept with only `u` left to relax |
| ShortestPath.NoCheaperWalk | graphs/recursive_graph.py:253-260 | while `end` is unsettled and every settled node has been relaxed, no walk from `start` to `end` weighs less than the least queued cost |
| ShortestPath.PopEnd | graphs/recursive_graph.py:253-260 | when `end` is popped, its entry's cost is `best[end]`, and no walk from `start` to `end` is cheaper |
| ShortestPath.Exhausted | graphs/recursive_graph.py:272 | an empty heap before `end` is popped means no walk reaches `end` |

## Left out

- Random draws: `random.Random`, `randint`, `sample`, `choice` and `uniform` are not modelled. Their results are inputs: a `WeightDraw` per weight and pick lists per node. `random.sample` is selection without replacement by pick index, which reaches every ordered selection but not the library's particular one. Seed determinism is not modelled.
- Floating point: weights, sums and the `1e-9` tolerance are exact reals. Rounding of `cost_u + w` and of the `path_cost` accumulator is not modelled.
- The heap is a multiset of `(cost, node)` entries, and a pop takes a least entry in tuple order. `heapq`'s array layout is not modelled.
- `undirected_neighbors` returns `list(set)`. The model returns the set, so the list's order is not modelled.
- Aliasing of per-node lists: the table is a map of sequence values that each method reassigns. `build` copies every template list, and `_expand_node` rebinds the node's entry before it appends, so no two keys of the source share a list either.
- `recursion_depth`, `max_edges` and `base_nodes` are unbounded integers. The source has no width limits.
- Generator.RecursiveGraphGenerator.ExpandNode: requires the node to be a key and all keys to be below `_next_id`. `_expand_node` also accepts an unknown node (`g_adj.get(node_id, [])`), but `build` only queues keys, so that path is not modelled.
- Generator.RecursiveGraphGenerator.Build: requires a weight spec whose weights are non-negative. The source does not check this (`weight_range` may have `lo < 0`). Dijkstra's optimality depends on it: with negative weights, the result is not modelled.
- ShortestPath.Dijkstra: requires non-negative weights, which the source never checks. With negative weights, neither termination nor correctness is modelled.
- Generator.RecursiveGraphGenerator.constructor: takes the template as a parameter. `Create` runs the checks and the builder and then calls it, so it carries the `__init__` guarantees.
- Graphs.Graph.Neighbors: the source returns the stored list object itself; the model returns its value.
- The tool-layer wrappers, the game handler and the entry points are not part of this model: they add only a neighbour-membership check over global state and calls into `Graph`.

## Findings

| source | as written | input that shows it | evidently intended | confidence | as-written member | corrected member |
|---|---|---|---|---|---|---|
| graphs/recursive_graph.py:72-77 | `verify_shortest_path` calls `path_cost` without catching its `ValueError`, so an invalid path raises | the path `[]`, or `[start]` when `start != end`: `path_cost` raises "Path must start at graph.start and finish at graph.end" | the docstring's "True iff *path* is valid **and** its cost equals the cached optimum": an invalid path gives false | medium, not executed | Graphs.Graph.VerifyShortestPath, Graphs.RejectedPathIsNotFalse | Graphs.Graph.VerifyShortestPathTotal |
