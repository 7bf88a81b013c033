// The shared test suite's cases, replayed by calling each class, with what each call
// returns. The labels a, b, c are any distinct strings ("A", "B", "C" in the
// tests).

module Scenarios {
  import opened Graph
  import opened EdgesGraph
  import opened VerticesGraph

  // ---------------------------------------------------------------------------
  // What the observers see on the tests' small graphs.

  /** The vertex set after add(l) for each l in ls, in order, on a new graph. */
  function Added(ls: seq<Label>): (vs: set<Label>)
    ensures forall l :: l in vs <==> l in ls
    decreases |ls|
  {
    if ls == [] then {} else Added(ls[..|ls| - 1]) + {ls[|ls| - 1]}
  }

  /** The edge set after set(e.source, e.target, e.weight) for each e in es, in
      order, on a graph without edges. */
  function Built(es: seq<EdgeRecord>): set<EdgeRecord>
    decreases |es|
  {
    if es == [] then {}
    else
      var e := es[|es| - 1];
      UpsertSet(Built(es[..|es| - 1]), e.source, e.target, e.weight)
  }

  lemma BuiltSnoc(es: seq<EdgeRecord>, i: nat)
    requires i < |es|
    ensures Built(es[..i + 1]) == UpsertSet(Built(es[..i]), es[i].source, es[i].target, es[i].weight)
  {
    assert es[..i + 1][..i] == es[..i];
  }

  lemma AddedSnoc(ls: seq<Label>, i: nat)
    requires i < |ls|
    ensures Added(ls[..i + 1]) == Added(ls[..i]) + {ls[i]}
  {
    assert ls[..i + 1][..i] == ls[..i];
  }

  /** The vertex sets the tests' adds produce. */
  lemma TwoLabels(a: Label, b: Label)
    ensures Added([a, b]) == {a, b}
  {
  }

  lemma ThreeLabels(a: Label, b: Label, c: Label)
    ensures Added([a, b, c]) == {a, b, c}
  {
  }

  /** A graph without edges: every sources and targets map is empty. */
  lemma NoEdges(x: Label)
    ensures Functional({})
    ensures SourcesOf({}, x) == map[] && TargetsOf({}, x) == map[]
  {
    SourcesMapUnique({}, x, map[]);
    TargetsMapUnique({}, x, map[]);
  }

  /** The graph after a first set(s, t, w): one edge, seen by both observers. */
  lemma FirstEdge(s: Label, t: Label, w: int)
    ensures Built([EdgeRecord(s, t, w)]) == UpsertSet({}, s, t, w)
    ensures Functional(UpsertSet({}, s, t, w))
    ensures SourcesOf(UpsertSet({}, s, t, w), t) == map[s := w]
    ensures TargetsOf(UpsertSet({}, s, t, w), s) == map[t := w]
    ensures TargetWeight(UpsertSet({}, s, t, w), s, t) == w
  {
    assert [EdgeRecord(s, t, w)][..0] == [];
    NoEdges(s);
    NoEdges(t);
    SetSources({}, s, t, w, t);
    SetTargets({}, s, t, w, s);
  }

  /** The second set(a, b, 7) over set(a, b, 5): targets(a) sees the new weight. */
  lemma OverwriteFacts(a: Label, b: Label)
    ensures Functional(UpsertSet(UpsertSet({}, a, b, 5), a, b, 7))
    ensures TargetsOf(UpsertSet(UpsertSet({}, a, b, 5), a, b, 7), a) == map[b := 7]
    ensures TargetWeight(UpsertSet({}, a, b, 5), a, b) == 5
  {
    FirstEdge(a, b, 5);
    SetTargets(UpsertSet({}, a, b, 5), a, b, 7, a);
  }

  /** remove(b) after set(a, b, 5): the edge a -> b leaves targets(a). */
  lemma RemoveFacts(a: Label, b: Label)
    ensures Functional(Strip(UpsertSet({}, a, b, 5), b))
    ensures TargetsOf(Strip(UpsertSet({}, a, b, 5), b), a) == map[]
  {
    FirstEdge(a, b, 5);
    RemoveTargets(UpsertSet({}, a, b, 5), b, a);
  }

  /** Edges a -> b of weight 5 and b -> a of weight 10: sources(b) and
      targets(a) each see only the first. */
  lemma TwoWayFacts(a: Label, b: Label)
    requires a != b
    ensures Built([EdgeRecord(a, b, 5), EdgeRecord(b, a, 10)]) ==
      UpsertSet(UpsertSet({}, a, b, 5), b, a, 10)
    ensures Functional(UpsertSet(UpsertSet({}, a, b, 5), b, a, 10))
    ensures SourcesOf(UpsertSet(UpsertSet({}, a, b, 5), b, a, 10), b) == map[a := 5]
    ensures TargetsOf(UpsertSet(UpsertSet({}, a, b, 5), b, a, 10), a) == map[b := 5]
  {
    FirstEdge(a, b, 5);
    assert [EdgeRecord(a, b, 5), EdgeRecord(b, a, 10)][..1] == [EdgeRecord(a, b, 5)];
    SetSources(UpsertSet({}, a, b, 5), b, a, 10, b);
    SetTargets(UpsertSet({}, a, b, 5), b, a, 10, a);
  }

  /** Edges a -> b 3, a -> c 4 and b -> c 2: sources(c) and targets(a). */
  lemma ThreeEdgeFacts(a: Label, b: Label, c: Label)
    requires a != b && b != c && a != c
    ensures Built([EdgeRecord(a, b, 3), EdgeRecord(a, c, 4), EdgeRecord(b, c, 2)]) ==
      UpsertSet(UpsertSet(UpsertSet({}, a, b, 3), a, c, 4), b, c, 2)
    ensures Functional(UpsertSet(UpsertSet(UpsertSet({}, a, b, 3), a, c, 4), b, c, 2))
    ensures SourcesOf(UpsertSet(UpsertSet(UpsertSet({}, a, b, 3), a, c, 4), b, c, 2), c) ==
      map[a := 4, b := 2]
    ensures TargetsOf(UpsertSet(UpsertSet(UpsertSet({}, a, b, 3), a, c, 4), b, c, 2), a) ==
      map[b := 3, c := 4]
  {
    var es := [EdgeRecord(a, b, 3), EdgeRecord(a, c, 4), EdgeRecord(b, c, 2)];
    FirstEdge(a, b, 3);
    assert es[..2][..1] == [EdgeRecord(a, b, 3)];
    var g1 := UpsertSet({}, a, b, 3);
    var g2 := UpsertSet(g1, a, c, 4);
    NoEdges(c);
    SetSources({}, a, b, 3, c);
    SetSources(g1, a, c, 4, c);
    SetSources(g2, b, c, 2, c);
    SetTargets(g1, a, c, 4, a);
    SetTargets(g2, b, c, 2, a);
  }

  // ---------------------------------------------------------------------------
  // The tests' common start: a new graph, add(l) for each label l, then
  // set(e.source, e.target, e.weight) for each edge e.

  /** set(e.source, e.target, e.weight) on an edges graph, seen through the
      abstraction; every edge object it keeps was there before or is new. */
  method EdgesSetStep(g: ConcreteEdgesGraph, e: EdgeRecord)
    requires g.Valid() && e.weight >= 0
    modifies g, g.edges
    ensures g.Valid()
    ensures g.Abstraction() == View(old(g.Abstraction()).vertices,
      UpsertSet(old(g.Abstraction()).edges, e.source, e.target, e.weight))
    ensures forall i :: 0 <= i < |g.edges| ==> g.edges[i] in old(g.edges) || fresh(g.edges[i])
  {
    var _ := g.Set(e.source, e.target, e.weight);
  }

  /** remove(l) on an edges graph, seen through the abstraction. */
  method EdgesRemoveStep(g: ConcreteEdgesGraph, l: Label) returns (removed: bool)
    requires g.Valid()
    modifies g
    ensures g.Valid()
    ensures removed <==> l in old(g.Abstraction()).vertices
    ensures g.Abstraction() == if !removed then old(g.Abstraction())
      else View(old(g.Abstraction()).vertices - {l}, Strip(old(g.Abstraction()).edges, l))
  {
    removed := g.Remove(l);
  }

  /** A new edges graph after the adds and sets; weights are at least 0, as the
      edges graph's Edge demands. */
  method EdgesGraphWith(ls: seq<Label>, es: seq<EdgeRecord>) returns (g: ConcreteEdgesGraph)
    requires forall i :: 0 <= i < |es| ==> es[i].weight >= 0
    ensures g.Valid() && fresh(g)
    ensures forall i :: 0 <= i < |g.edges| ==> fresh(g.edges[i])
    ensures g.Abstraction() == View(Added(ls), Built(es))
  {
    g := new ConcreteEdgesGraph();
    for i := 0 to |ls|
      invariant g.Valid() && fresh(g) && g.edges == []
      invariant g.Abstraction() == View(Added(ls[..i]), {})
    {
      var _ := g.Add(ls[i]);
      AddedSnoc(ls, i);
    }
    assert ls[..|ls|] == ls;
    for i := 0 to |es|
      invariant g.Valid() && fresh(g)
      invariant forall j :: 0 <= j < |g.edges| ==> fresh(g.edges[j])
      invariant g.Abstraction() == View(Added(ls), Built(es[..i]))
    {
      EdgesSetStep(g, es[i]);
      BuiltSnoc(es, i);
    }
    assert es[..|es|] == es;
  }

  /** add(l), seen through the abstraction. */
  method VerticesAddStep(g: ConcreteVerticesGraph, l: Label)
    requires g.Valid()
    modifies g
    ensures g.Valid() && fresh(g.Repr - old(g.Repr))
    ensures g.Abstraction() == View(old(g.Abstraction()).vertices + {l}, old(g.Abstraction()).edges)
  {
    var _ := g.Add(l);
  }

  /** remove(l), seen through the abstraction. */
  method VerticesRemoveStep(g: ConcreteVerticesGraph, l: Label) returns (removed: bool)
    requires g.Valid()
    modifies g.Repr
    ensures g.Valid() && g.Repr == old(g.Repr)
    ensures removed <==> l in old(g.Abstraction()).vertices
    ensures g.Abstraction() == if !removed then old(g.Abstraction())
      else View(old(g.Abstraction()).vertices - {l}, Strip(old(g.Abstraction()).edges, l))
  {
    removed := g.Remove(l);
  }

  /** A new vertices graph after the adds. */
  method VerticesGraphOn(ls: seq<Label>) returns (g: ConcreteVerticesGraph)
    ensures g.Valid() && fresh(g.Repr)
    ensures g.Abstraction() == View(Added(ls), {})
  {
    g := new ConcreteVerticesGraph();
    for i := 0 to |ls|
      invariant g.Valid() && fresh(g.Repr)
      invariant g.Abstraction() == View(Added(ls[..i]), {})
    {
      VerticesAddStep(g, ls[i]);
      AddedSnoc(ls, i);
    }
    assert ls[..|ls|] == ls;
  }

  /** set(e.source, e.target, e.weight) when both endpoints are vertices. */
  method VerticesSetStep(g: ConcreteVerticesGraph, e: EdgeRecord)
    requires g.Valid()
    requires e.source in g.Abstraction().vertices && e.target in g.Abstraction().vertices
    modifies g.Repr
    ensures g.Valid() && fresh(g.Repr - old(g.Repr))
    ensures g.Abstraction() == View(old(g.Abstraction()).vertices,
      UpsertSet(old(g.Abstraction()).edges, e.source, e.target, e.weight))
  {
    var _ := g.Set(e.source, e.target, e.weight);
  }

  /** A new vertices graph after the adds and sets; every edge joins two of
      the labels, so no set fails. */
  method VerticesGraphWith(ls: seq<Label>, es: seq<EdgeRecord>) returns (g: ConcreteVerticesGraph)
    requires forall i :: 0 <= i < |es| ==> es[i].source in Added(ls) && es[i].target in Added(ls)
    ensures g.Valid() && fresh(g.Repr)
    ensures g.Abstraction() == View(Added(ls), Built(es))
  {
    g := VerticesGraphOn(ls);
    for i := 0 to |es|
      invariant g.Valid() && fresh(g.Repr)
      invariant g.Abstraction() == View(Added(ls), Built(es[..i]))
    {
      VerticesSetStep(g, es[i]);
      BuiltSnoc(es, i);
    }
    assert es[..|es|] == es;
  }

  // ---------------------------------------------------------------------------
  // testInitialVerticesEmpty

  method EdgesInitialVerticesEmpty() returns (vs: set<Label>)
    ensures vs == {}
  {
    var g := new ConcreteEdgesGraph();
    vs := g.Vertices();
  }

  method VerticesInitialVerticesEmpty() returns (vs: set<Label>)
    ensures vs == {}
  {
    var g := new ConcreteVerticesGraph();
    vs := g.Vertices();
  }

  // ---------------------------------------------------------------------------
  // testAddDuplicateVertex: the second add reports false, and there is one vertex.

  method EdgesAddDuplicateVertex(a: Label) returns (first: bool, second: bool, vs: set<Label>)
    ensures first && !second && vs == {a} && |vs| == 1
  {
    var g := new ConcreteEdgesGraph();
    first := g.Add(a);
    second := g.Add(a);
    vs := g.Vertices();
  }

  method VerticesAddDuplicateVertex(a: Label) returns (first: bool, second: bool, vs: set<Label>)
    ensures first && !second && vs == {a} && |vs| == 1
  {
    var g := new ConcreteVerticesGraph();
    first := g.Add(a);
    second := g.Add(a);
    vs := g.Vertices();
  }

  // ---------------------------------------------------------------------------
  // testSetEdge: after set(a, b, 5), sources(b) maps a to 5. The edges graph
  // returns the new weight, the vertices graph the previous one, 0.

  method EdgesSetEdge(a: Label, b: Label) returns (r: int, sources: map<Label, int>, targets: map<Label, int>)
    ensures r == 5 && sources == map[a := 5] && targets == map[b := 5]
  {
    FirstEdge(a, b, 5);
    TwoLabels(a, b);
    var g := EdgesGraphWith([a, b], []);
    assert g.Abstraction() == View({a, b}, {});
    r := g.Set(a, b, 5);
    sources := g.Sources(b);
    targets := g.Targets(a);
  }

  method VerticesSetEdge(a: Label, b: Label) returns (r: Result<int>, sources: map<Label, int>, targets: map<Label, int>)
    ensures r == Ok(0) && sources == map[a := 5] && targets == map[b := 5]
  {
    NoEdges(a);
    FirstEdge(a, b, 5);
    TwoLabels(a, b);
    var g := VerticesGraphWith([a, b], []);
    assert g.Abstraction() == View({a, b}, {});
    r := g.Set(a, b, 5);
    sources := g.Sources(b);
    targets := g.Targets(a);
  }

  // ---------------------------------------------------------------------------
  // set(a, b, 7) over the edge that set(a, b, 5) made: one edge remains, with
  // the new weight; the edges graph returns 7, the vertices graph 5.

  method EdgesOverwriteEdge(a: Label, b: Label) returns (r: int, targets: map<Label, int>)
    ensures r == 7 && targets == map[b := 7]
  {
    OverwriteFacts(a, b);
    FirstEdge(a, b, 5);
    TwoLabels(a, b);
    var g := EdgesGraphWith([a, b], [EdgeRecord(a, b, 5)]);
    assert g.Abstraction() == View({a, b}, UpsertSet({}, a, b, 5));
    r := g.Set(a, b, 7);
    targets := g.Targets(a);
  }

  method VerticesOverwriteEdge(a: Label, b: Label) returns (r: Result<int>, targets: map<Label, int>)
    ensures r == Ok(5) && targets == map[b := 7]
  {
    OverwriteFacts(a, b);
    FirstEdge(a, b, 5);
    TwoLabels(a, b);
    var g := VerticesGraphWith([a, b], [EdgeRecord(a, b, 5)]);
    assert g.Abstraction() == View({a, b}, UpsertSet({}, a, b, 5));
    r := g.Set(a, b, 7);
    targets := g.Targets(a);
  }

  // ---------------------------------------------------------------------------
  // testRemoveVertex: remove(b) after set(a, b, 5) reports true, and b and the
  // edge into it are gone.

  method EdgesRemoveVertex(a: Label, b: Label) returns (removed: bool, vs: set<Label>, targets: map<Label, int>)
    requires a != b
    ensures removed && vs == {a} && targets == map[]
  {
    RemoveFacts(a, b);
    FirstEdge(a, b, 5);
    TwoLabels(a, b);
    var g := EdgesGraphWith([a, b], [EdgeRecord(a, b, 5)]);
    assert g.Abstraction() == View({a, b}, UpsertSet({}, a, b, 5));
    removed := EdgesRemoveStep(g, b);
    vs := g.Vertices();
    targets := g.Targets(a);
  }

  method VerticesRemoveVertex(a: Label, b: Label) returns (removed: bool, vs: set<Label>, targets: map<Label, int>)
    requires a != b
    ensures removed && vs == {a} && targets == map[]
  {
    RemoveFacts(a, b);
    FirstEdge(a, b, 5);
    TwoLabels(a, b);
    var g := VerticesGraphWith([a, b], [EdgeRecord(a, b, 5)]);
    assert g.Abstraction() == View({a, b}, UpsertSet({}, a, b, 5));
    removed := VerticesRemoveStep(g, b);
    assert g.Abstraction() == View({a}, Strip(UpsertSet({}, a, b, 5), b));
    vs := g.Vertices();
    targets := g.Targets(a);
  }

  // ---------------------------------------------------------------------------
  // testSourcesAndTargets (shared suite): a -> b 5 and b -> a 10.

  method EdgesSourcesAndTargets(a: Label, b: Label) returns (sources: map<Label, int>, targets: map<Label, int>)
    requires a != b
    ensures sources == map[a := 5] && targets == map[b := 5]
  {
    TwoWayFacts(a, b);
    TwoLabels(a, b);
    var g := EdgesGraphWith([a, b], [EdgeRecord(a, b, 5), EdgeRecord(b, a, 10)]);
    sources := g.Sources(b);
    targets := g.Targets(a);
  }

  method VerticesSourcesAndTargets(a: Label, b: Label) returns (sources: map<Label, int>, targets: map<Label, int>)
    requires a != b
    ensures sources == map[a := 5] && targets == map[b := 5]
  {
    TwoWayFacts(a, b);
    TwoLabels(a, b);
    var g := VerticesGraphWith([a, b], [EdgeRecord(a, b, 5), EdgeRecord(b, a, 10)]);
    sources := g.Sources(b);
    targets := g.Targets(a);
  }

  // ---------------------------------------------------------------------------
  // testSourcesAndTargets (vertices graph suite): a -> b 3, a -> c 4, b -> c 2.

  method EdgesThreeVertices(a: Label, b: Label, c: Label) returns (sources: map<Label, int>, targets: map<Label, int>)
    requires a != b && b != c && a != c
    ensures sources == map[a := 4, b := 2] && targets == map[b := 3, c := 4]
  {
    ThreeEdgeFacts(a, b, c);
    ThreeLabels(a, b, c);
    var g := EdgesGraphWith([a, b, c], [EdgeRecord(a, b, 3), EdgeRecord(a, c, 4), EdgeRecord(b, c, 2)]);
    sources := g.Sources(c);
    targets := g.Targets(a);
  }

  /** The vertices graph of that test. */
  method VerticesThreeEdges(a: Label, b: Label, c: Label) returns (g: ConcreteVerticesGraph)
    requires a != b && b != c && a != c
    ensures g.Valid() && fresh(g.Repr)
    ensures g.Abstraction() ==
      View({a, b, c}, UpsertSet(UpsertSet(UpsertSet({}, a, b, 3), a, c, 4), b, c, 2))
  {
    ThreeLabels(a, b, c);
    ThreeEdgeFacts(a, b, c);
    g := VerticesGraphWith([a, b, c], [EdgeRecord(a, b, 3), EdgeRecord(a, c, 4), EdgeRecord(b, c, 2)]);
  }

  method VerticesThreeVertices(a: Label, b: Label, c: Label) returns (sources: map<Label, int>, targets: map<Label, int>)
    requires a != b && b != c && a != c
    ensures sources == map[a := 4, b := 2] && targets == map[b := 3, c := 4]
  {
    var g := VerticesThreeEdges(a, b, c);
    ThreeEdgeFacts(a, b, c);
    sources := g.Sources(c);
    targets := g.Targets(a);
  }

  // ---------------------------------------------------------------------------
  // set(a, b, 5) on a new graph: the edges graph stores the edge without adding
  // either vertex, the vertices graph fails and stays empty.

  method EdgesSetWithoutVertices(a: Label, b: Label) returns (r: int, vs: set<Label>, sources: map<Label, int>)
    ensures r == 5 && vs == {} && sources == map[a := 5]
  {
    FirstEdge(a, b, 5);
    var g := new ConcreteEdgesGraph();
    assert g.Abstraction() == View({}, {});
    r := g.Set(a, b, 5);
    vs := g.Vertices();
    sources := g.Sources(b);
  }

  method VerticesSetWithoutVertices(a: Label, b: Label) returns (r: Result<int>, vs: set<Label>, sources: map<Label, int>)
    ensures r == Failure("Source or target vertex not found") && vs == {} && sources == map[]
  {
    NoEdges(b);
    var g := new ConcreteVerticesGraph();
    assert g.Abstraction() == View({}, {});
    r := g.Set(a, b, 5);
    vs := g.Vertices();
    sources := g.Sources(b);
  }
}
