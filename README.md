# Two representations of a weighted directed graph

This project models the two Java implementations of a mutable, weighted, directed graph over `String` labels:

- `ConcreteEdgesGraph` keeps a `HashSet` of labels and a flat `ArrayList<Edge>`. `set` updates the matching edge's weight in place or appends a new edge. `remove` drops the label and, only when the label was present, filters out every edge touching it.
- `ConcreteVerticesGraph` keeps an `ArrayList<Vertex>`. Each vertex owns the list of its outgoing edges. `set` first looks up both endpoints and throws when either is missing. It then updates the weight where the source's list already has an edge to the target, or appends a new edge, and returns the previous weight or 0. `remove` takes the vertex out of the list and then filters the edge list of every remaining vertex.

Both are Dafny classes, operating in place:

- `EdgesGraph.ConcreteEdgesGraph` has the `vertices` set and a sequence of `edges`. Its `Edge` objects carry a mutable `weight`.
- `VerticesGraph.ConcreteVerticesGraph` has a sequence of `Vertex` objects. Each vertex holds a sequence of the nested class's `Edge` objects.

Each class carries ghost state and two specifications:

- A ghost copy of its edges as values: `EdgeList` in the edges graph, `Adjacency` (one list per vertex) in the vertices graph.
- A `Valid()` invariant.
  - For the vertices graph it is the `checkRep` condition (unique labels). It adds what `set` and `remove` maintain: every edge in a vertex's list has that vertex as source and a vertex as target, and a list never holds two edges to the same target.
  - For the edges graph it is the one `Edge.checkRep` check (weight at least 0), plus "at most one edge per ordered pair".
- An abstraction `View(vertices, edges)`: a set of labels and a set of edge records.

Module `Graph` holds what the two share. It defines the list edit `set` makes (`Upsert`) and its effect on the edge set (`UpsertSet`). It defines the cascade `remove` makes (`Detach` on lists, `Strip` on sets). It defines the maps that `sources` and `targets` must return (`SourcesOf`, `TargetsOf`).

Every mutating method states its new abstract state, and the list-level details as well. Every observer is proved, loop by loop, to return the map of its specification. Lemmas connect each list edit to its set edit, and each edit to what the observers see afterwards.

Module `Equivalence` steps the two representations side by side, both on their abstractions and as objects. Along any trace where `set` is called only between existing vertices and with a weight of at least 0, the two agree on `vertices()`, `sources(x)` and `targets(x)`. Outside those traces they differ exactly on `set` with a missing endpoint; `EdgesApply` and `VerticesApply` prove that each class does what its step function says on every call. The results of `set` differ in general: the edges graph returns the new weight, the vertices graph the previous weight or 0. They coincide exactly when the previous weight (0 for a new edge) equals the new weight.

Module `Scenarios` replays the tests' cases on both classes. The test labels "A", "B" and "C" are any distinct strings.

A Java exception is modelled as `Result.Failure` with the same message. A Java `assert` in `checkRep` becomes a precondition or part of `Valid()`.

## Model

| member | source | states |
|---|---|---|
| Graph.FindPair | src/graph/ConcreteEdgesGraph.java:39-45 | the scan's stopping position: the first edge with that source and target, or the list length when none has them |
| Graph.Upsert | src/graph/ConcreteEdgesGraph.java:39-47 | set's list edit: other edges keep their positions; the edge s -> t w is in the result; the list grows by one, at the end, exactly when it had no edge from s to t |
| Graph.PreviousWeight | src/graph/ConcreteVerticesGraph.java:59-69 | the weight of the first edge from s to t in the list, or 0 when the list has none |
| Graph.Detach | src/graph/ConcreteEdgesGraph.java:57 | `removeIf` on records: keeps exactly the edges that neither start nor end at the label, and never lengthens the list |
| Graph.DetachConcat | src/graph/ConcreteEdgesGraph.java:57 | the filter keeps the surviving edges in their order: filtering a concatenation concatenates the filtered parts |
| Graph.UpsertSetMembers | src/graph/ConcreteEdgesGraph.java:37-49 | UpsertSet, set's effect on the edge set: it holds s -> t w, no other edge from s to t, and exactly the old edges for every other pair |
| Graph.StripMembers | src/graph/ConcreteEdgesGraph.java:55-58 | Strip, remove's effect on the edge set: exactly the old edges that neither start nor end at the label |
| Graph.SourcesOf | src/graph/ConcreteEdgesGraph.java:68-76 | on a graph with one edge per pair: each edge into t contributes source -> weight, and each entry is a stored edge into t |
| Graph.TargetsOf | src/graph/ConcreteEdgesGraph.java:79-87 | each edge out of s contributes target -> weight, and each entry is a stored edge out of s |
| Graph.TargetWeight | src/graph/ConcreteVerticesGraph.java:59-69 | the weight of the stored edge s -> t, or 0 when there is none |
| Graph.SourcesMapUnique | src/graph/ConcreteEdgesGraph.java:68-76 | any map with the sources(t) property is SourcesOf: the result is determined |
| Graph.TargetsMapUnique | src/graph/ConcreteEdgesGraph.java:79-87 | any map with the targets(s) property is TargetsOf |
| Graph.UniqueFunctional | src/graph/ConcreteEdgesGraph.java:37-49 | a list without two edges for one pair gives a set without two edges for one pair |
| Graph.UpsertUnique | src/graph/ConcreteEdgesGraph.java:37-49 | set's update-or-append keeps at most one edge per ordered pair |
| Graph.UpsertElements | src/graph/ConcreteEdgesGraph.java:37-49 | the stored edges after set are the old ones without s -> t, plus s -> t with the new weight |
| Graph.DetachUnique | src/graph/ConcreteEdgesGraph.java:57 | filtering keeps at most one edge per ordered pair |
| Graph.DetachElements | src/graph/ConcreteEdgesGraph.java:57 | the stored edges after the filter are the old ones not touching the label |
| Graph.UpsertSetFunctional | src/graph/ConcreteEdgesGraph.java:37-49 | set keeps the edge set functional |
| Graph.StripFunctional | src/graph/ConcreteEdgesGraph.java:52-60 | remove keeps the edge set functional |
| Graph.SourcesInsert | src/graph/ConcreteEdgesGraph.java:70-74 | one more scanned edge updates the sources map as `HashMap.put` does |
| Graph.TargetsInsert | src/graph/ConcreteEdgesGraph.java:81-85 | one more scanned edge updates the targets map as `HashMap.put` does |
| Graph.SetSources | src/graph/ConcreteEdgesGraph.java:37-49 | after set(s, t, w), sources(t) maps s to w; every other entry of every sources map is unchanged |
| Graph.SetTargets | src/graph/ConcreteEdgesGraph.java:37-49 | after set(s, t, w), targets(s) maps t to w; every other entry of every targets map is unchanged |
| Graph.KeptSources | src/graph/ConcreteEdgesGraph.java:39-44 | taking out the old edge s -> t drops exactly s from sources(t) |
| Graph.KeptTargets | src/graph/ConcreteEdgesGraph.java:39-44 | taking out the old edge s -> t drops exactly t from targets(s) |
| Graph.RemoveSources | src/graph/ConcreteEdgesGraph.java:52-60 | after remove(l), sources(l) is empty and l leaves every other sources map, which is otherwise unchanged |
| Graph.RemoveTargets | src/graph/ConcreteEdgesGraph.java:52-60 | after remove(l), targets(l) is empty and l leaves every other targets map, which is otherwise unchanged |
| Graph.ScanStep | src/graph/ConcreteVerticesGraph.java:103-107 | one step of the inner scan, for both maps, on top of the edges already scanned |
| EdgesGraph.Edge.constructor | src/graph/ConcreteEdgesGraph.java:118-123 | a new edge requires weight >= 0 (checkRep), and stores its endpoints and weight |
| EdgesGraph.Edge.SetWeight | src/graph/ConcreteEdgesGraph.java:144-147 | requires the new weight to be at least 0 (checkRep), and stores it |
| EdgesGraph.Unlinked | src/graph/ConcreteEdgesGraph.java:57 | `removeIf` on objects: keeps exactly the edge objects not touching the label |
| EdgesGraph.UnlinkedMirrors | src/graph/ConcreteEdgesGraph.java:57 | filtering the objects and filtering the records they stand for agree |
| EdgesGraph.UnlinkedConcat | src/graph/ConcreteEdgesGraph.java:57 | the filter keeps the surviving edge objects in their order |
| EdgesGraph.ConcreteEdgesGraph.constructor | src/graph/ConcreteEdgesGraph.java:27-29 | no vertices and no edges |
| EdgesGraph.ConcreteEdgesGraph.Add | src/graph/ConcreteEdgesGraph.java:32-34 | true exactly when the label was new; the vertex set grows by the label; the edges are untouched |
| EdgesGraph.ConcreteEdgesGraph.Set | src/graph/ConcreteEdgesGraph.java:37-49 | returns the new weight; never reads or changes the vertex set; the list is updated in place at the first match or extended at the end; one edge per pair holds |
| EdgesGraph.ConcreteEdgesGraph.FindEdge | src/graph/ConcreteEdgesGraph.java:39-45 | the position of the first edge from source to target, or the list length |
| EdgesGraph.ConcreteEdgesGraph.Remove | src/graph/ConcreteEdgesGraph.java:52-60 | true exactly when the label was a vertex; only then are the edges touching it filtered out, in order; otherwise the edges are untouched |
| EdgesGraph.ConcreteEdgesGraph.Vertices | src/graph/ConcreteEdgesGraph.java:63-65 | a copy of the vertex set |
| EdgesGraph.ConcreteEdgesGraph.Sources | src/graph/ConcreteEdgesGraph.java:68-76 | the scan returns sources(target) of the stored edges |
| EdgesGraph.ConcreteEdgesGraph.Targets | src/graph/ConcreteEdgesGraph.java:79-87 | the scan returns targets(source) of the stored edges |
| VerticesGraph.Edge.constructor | src/graph/ConcreteVerticesGraph.java:172-176 | stores endpoints and weight, with no check on the weight |
| VerticesGraph.Vertex.constructor | src/graph/ConcreteVerticesGraph.java:153-156 | a vertex with the label and no edges |
| VerticesGraph.Unlinked | src/graph/ConcreteVerticesGraph.java:83 | `removeIf` on one vertex's edge objects: keeps exactly those not touching the label |
| VerticesGraph.UnlinkedConcat | src/graph/ConcreteVerticesGraph.java:83 | the filter keeps the surviving edge objects of each vertex in their order |
| VerticesGraph.UnlinkedMirrors | src/graph/ConcreteVerticesGraph.java:83 | filtering the objects and filtering the records they stand for agree |
| VerticesGraph.FindLabel | src/graph/ConcreteVerticesGraph.java:137-144 | the position of the first vertex with the label, or the list length |
| VerticesGraph.RemoveFirstAt | src/graph/ConcreteVerticesGraph.java:80 | `ArrayList.remove(v)` takes out exactly the position of the vertex found |
| VerticesGraph.RemoveFirst | src/graph/ConcreteVerticesGraph.java:80 | removing an object from the vertex list: the list is unchanged when the object is absent, and one shorter when it is present |
| VerticesGraph.Cut | src/graph/ConcreteVerticesGraph.java:80 | the list with one position taken out, the others in order |
| VerticesGraph.DetachEach | src/graph/ConcreteVerticesGraph.java:82-84 | the loop of remove on values: every remaining vertex's list is filtered, and the number of lists is kept |
| VerticesGraph.CutLabelSet | src/graph/ConcreteVerticesGraph.java:80 | with unique labels, taking out a vertex takes exactly its label out of the label set |
| VerticesGraph.DistinctCount | src/graph/ConcreteVerticesGraph.java:28-33 | the label set is as large as the list exactly when no label repeats |
| VerticesGraph.WellFormedFunctional | src/graph/ConcreteVerticesGraph.java:59-68 | the invariant gives at most one edge per ordered pair, and both endpoints of every edge are vertices |
| VerticesGraph.AddKeeps | src/graph/ConcreteVerticesGraph.java:37-46 | appending a new label with no edges keeps the invariant and the edge set |
| VerticesGraph.SetKeeps | src/graph/ConcreteVerticesGraph.java:58-69 | update-or-append in the source's list keeps the invariant and makes the edge set's `set` edit |
| VerticesGraph.WeightChangeKeeps | src/graph/ConcreteVerticesGraph.java:62 | overwriting one stored weight keeps the invariant |
| VerticesGraph.RemoveKeeps | src/graph/ConcreteVerticesGraph.java:73-86 | taking out the vertex, then filtering every remaining list, keeps the invariant and strips the label from the edge set |
| VerticesGraph.PreviousWeightObserved | src/graph/ConcreteVerticesGraph.java:59-69 | what set returns, from the source's list, is what targets(source) reported for the target beforehand, or 0 |
| VerticesGraph.UnlinkEach | src/graph/ConcreteVerticesGraph.java:82-84 | each remaining vertex's list is filtered, and each still stands for its filtered record list |
| VerticesGraph.CollectSources | src/graph/ConcreteVerticesGraph.java:102-108 | the outer scan over all vertices returns sources(target) of all stored edges |
| VerticesGraph.CollectTargets | src/graph/ConcreteVerticesGraph.java:116-122 | the outer scan over all vertices returns targets(source) of all stored edges |
| VerticesGraph.ScanSources | src/graph/ConcreteVerticesGraph.java:103-107 | the inner scan adds one vertex's edges to the sources map built so far |
| VerticesGraph.ScanTargets | src/graph/ConcreteVerticesGraph.java:117-121 | the inner scan adds one vertex's edges to the targets map built so far |
| VerticesGraph.ConcreteVerticesGraph.constructor | src/graph/ConcreteVerticesGraph.java:21-23 | no vertices |
| VerticesGraph.ConcreteVerticesGraph.CheckRep | src/graph/ConcreteVerticesGraph.java:25-34 | the size comparison passes exactly when labels are unique |
| VerticesGraph.ConcreteVerticesGraph.FindVertex | src/graph/ConcreteVerticesGraph.java:137-144 | the first vertex with the label, or null exactly when no vertex has it |
| VerticesGraph.ConcreteVerticesGraph.Add | src/graph/ConcreteVerticesGraph.java:37-46 | false and nothing changed when the label exists; otherwise a new vertex with no edges at the end, and true; the invariant holds |
| VerticesGraph.ConcreteVerticesGraph.Set | src/graph/ConcreteVerticesGraph.java:49-70 | fails with "Source or target vertex not found", changing nothing, exactly when an endpoint is missing; otherwise only the source's list changes, and the result is the previous weight or 0 |
| VerticesGraph.ConcreteVerticesGraph.Update | src/graph/ConcreteVerticesGraph.java:58-69 | overwrite-or-append in the source's list, returning the old weight or 0; other lists untouched |
| VerticesGraph.ConcreteVerticesGraph.FindEdge | src/graph/ConcreteVerticesGraph.java:59-65 | the source's first edge to the target, or null |
| VerticesGraph.ConcreteVerticesGraph.Overwrite | src/graph/ConcreteVerticesGraph.java:62 | the one edge's weight changes in place; no list changes |
| VerticesGraph.ConcreteVerticesGraph.Append | src/graph/ConcreteVerticesGraph.java:68 | a new edge at the end of the source's list; other lists untouched |
| VerticesGraph.ConcreteVerticesGraph.Remove | src/graph/ConcreteVerticesGraph.java:73-86 | false and nothing changed when the label is absent; otherwise true, the vertex leaves the list and every other list loses exactly its edges touching the label, in order |
| VerticesGraph.ConcreteVerticesGraph.Delete | src/graph/ConcreteVerticesGraph.java:80-84 | the vertex at the found position leaves the list, then each remaining list is filtered |
| VerticesGraph.ConcreteVerticesGraph.Vertices | src/graph/ConcreteVerticesGraph.java:89-96 | the set of labels |
| VerticesGraph.ConcreteVerticesGraph.Sources | src/graph/ConcreteVerticesGraph.java:99-110 | sources(target) of all stored edges |
| VerticesGraph.ConcreteVerticesGraph.Targets | src/graph/ConcreteVerticesGraph.java:113-124 | targets(source) of all stored edges, whichever lists hold them |
| VerticesGraph.ConcreteVerticesGraph.SingleOwner | src/graph/ConcreteVerticesGraph.java:62 | no other stored edge object is the one overwritten |
| Equivalence.StepsAgree | src/graph/ConcreteVerticesGraph.java:54-56 | on a consistent graph, one call has the same effect on both representations if and only if it is not a set with a missing endpoint; EdgesApply and VerticesApply tie the two step functions to the classes |
| Equivalence.EdgesStep | src/graph/ConcreteEdgesGraph.java:32-60 | the edges graph's effect per call on its abstraction: it keeps at most one edge per pair, and set never changes the vertex set |
| Equivalence.VerticesStep | src/graph/ConcreteVerticesGraph.java:37-86 | the vertices graph's effect per call on its abstraction: every call keeps the graph consistent, and set never changes the vertex set |
| Equivalence.EdgesApply | src/graph/ConcreteEdgesGraph.java:32-60 | any call on the edges class with a weight of at least 0 changes its abstraction exactly as EdgesStep says |
| Equivalence.VerticesApply | src/graph/ConcreteVerticesGraph.java:37-86 | any call on the vertices class changes its abstraction exactly as VerticesStep says, a failing set included |
| Equivalence.StepKeeps | src/graph/ConcreteEdgesGraph.java:37-60 | admissible calls keep one edge per pair, with both endpoints vertices |
| Equivalence.RunsAgree | test/graph/GraphInstanceTest.java:11-13 | along an admissible trace both representations reach the same graph, and it stays consistent |
| Equivalence.AddBoth | src/graph/ConcreteVerticesGraph.java:37-46 | add on both classes keeps them equal |
| Equivalence.SetBoth | src/graph/ConcreteEdgesGraph.java:37-49 | admissible set on both keeps them equal; the edges graph returns the new weight, the vertices graph the previous targets(s) entry for t, or 0; the two results agree exactly when that entry already equals the new weight |
| Equivalence.RemoveBoth | src/graph/ConcreteEdgesGraph.java:52-60 | remove on both keeps them equal, and both return whether the label was a vertex |
| Equivalence.Apply | test/graph/GraphInstanceTest.java:11-13 | one admissible call on both classes |
| Equivalence.Lockstep | test/graph/ConcreteEdgesGraphTest.java:22-24 | the same admissible calls on two new graphs leave them equal, at the graph the trace describes |
| Equivalence.Observe | src/graph/ConcreteVerticesGraph.java:89-124 | on equal graphs, vertices(), sources(x) and targets(x) return the same values |
| Scenarios.FirstEdge | test/graph/GraphInstanceTest.java:36-47 | one edge s -> t carrying w: sources(t) is {s: w} and targets(s) is {t: w} |
| Scenarios.TwoWayFacts | test/graph/GraphInstanceTest.java:61-78 | with A -> B 5 and B -> A 10, sources(B) is {A: 5} and targets(A) is {B: 5} |
| Scenarios.ThreeEdgeFacts | test/graph/ConcreteVerticesGraphTest.java:107-124 | with A -> B 3, A -> C 4 and B -> C 2, sources(C) is {A: 4, B: 2} and targets(A) is {B: 3, C: 4} |
| Scenarios.EdgesInitialVerticesEmpty | test/graph/ConcreteEdgesGraphTest.java:74-78 | a new edges graph has no vertices |
| Scenarios.VerticesInitialVerticesEmpty | test/graph/ConcreteVerticesGraphTest.java:80-84 | a new vertices graph has no vertices |
| Scenarios.EdgesAddDuplicateVertex | test/graph/ConcreteEdgesGraphTest.java:87-93 | adding A twice: true, then false, and exactly one vertex |
| Scenarios.VerticesAddDuplicateVertex | test/graph/ConcreteVerticesGraphTest.java:59-65 | adding A twice: true, then false, and exactly one vertex |
| Scenarios.EdgesSetEdge | test/graph/ConcreteEdgesGraphTest.java:50-60 | set(A, B, 5) returns 5; sources(B) is {A: 5} and targets(A) is {B: 5} |
| Scenarios.VerticesSetEdge | test/graph/ConcreteVerticesGraphTest.java:94-105 | set(A, B, 5) returns 0; sources(B) is {A: 5} and targets(A) is {B: 5} |
| Scenarios.EdgesOverwriteEdge | src/graph/ConcreteEdgesGraph.java:39-44 | a second set(A, B, 7) returns 7, and targets(A) is {B: 7} |
| Scenarios.VerticesOverwriteEdge | src/graph/ConcreteVerticesGraph.java:59-64 | a second set(A, B, 7) returns 5, and targets(A) is {B: 7} |
| Scenarios.EdgesRemoveVertex | test/graph/ConcreteEdgesGraphTest.java:95-105 | remove(B) returns true; vertices() is {A} and targets(A) is empty |
| Scenarios.VerticesRemoveVertex | test/graph/ConcreteVerticesGraphTest.java:67-78 | remove(B) returns true; vertices() is {A} and targets(A) is empty |
| Scenarios.EdgesSourcesAndTargets | test/graph/GraphInstanceTest.java:61-78 | on the edges graph, sources(B) is {A: 5} and targets(A) is {B: 5} |
| Scenarios.VerticesSourcesAndTargets | test/graph/GraphInstanceTest.java:61-78 | on the vertices graph, sources(B) is {A: 5} and targets(A) is {B: 5} |
| Scenarios.EdgesThreeVertices | test/graph/ConcreteVerticesGraphTest.java:107-124 | the three-edge case on the edges graph: sources(C) is {A: 4, B: 2} and targets(A) is {B: 3, C: 4} |
| Scenarios.VerticesThreeVertices | test/graph/ConcreteVerticesGraphTest.java:107-124 | the same on the vertices graph |
| Scenarios.EdgesSetWithoutVertices | src/graph/ConcreteEdgesGraph.java:37-49 | on a new edges graph, set(A, B, 5) returns 5; there are still no vertices, yet sources(B) is {A: 5} |
| Scenarios.VerticesSetWithoutVertices | src/graph/ConcreteVerticesGraph.java:54-56 | on a new vertices graph, set(A, B, 5) fails with "Source or target vertex not found", and the graph stays empty |

## Left out

- `toString` in both classes: it only renders debug text, and `HashSet` iteration order is unspecified.
- Null checks in `checkRep` and the Java `assert` mechanics. Dafny references and strings are never null. The weight check of the edges graph's `Edge.checkRep` is a precondition; in Java it fires only when assertions are enabled.
- Hashing in `HashSet` and `HashMap`: results are Dafny `set` and `map` values. Each query's result is a value, so the model cannot express aliasing of a returned collection.
- The `Graph<L>` interface, which is not part of this model. Labels are `string`.
- The `testRemoveEdge` cases change a returned copy of `sources` and do nothing to the graph. `testToString` builds an expected string it never compares. None of these is modelled.
- Open design choices that the code does not implement are not settled here: weight 0 as a removal sentinel, `set` creating missing vertices, and a weight check in the vertices graph.
- The code departs in three places from the documented contract of a weighted graph (set returns the previous weight, set rejects missing vertices, weights are non-negative); the model follows the code.
  - The edges graph's `set` returns the new weight, not the previous one.
  - The edges graph's `set` stores edges between labels that are not vertices.
  - The vertices graph accepts negative weights.
- The step and fixture methods of `Scenarios` (`EdgesSetStep`, `VerticesGraphWith` and the like) drive the classes and state only the abstract effect of each call. They model no source lines of their own.
- EdgesGraph.ConcreteEdgesGraph.Set: a negative weight is excluded by a precondition rather than modelled. In Java it fails `Edge.checkRep` only when assertions are enabled, and otherwise the edge is stored as given.
- Equivalence.EdgesApply: a set with a negative weight is excluded, for the same reason as in `EdgesGraph.ConcreteEdgesGraph.Set`.
