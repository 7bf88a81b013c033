// The two representations side by side: what each does to the abstract graph
// per call, when they agree, and both classes run in lockstep.

module Equivalence {
  import opened Graph
  import EdgesGraph
  import VerticesGraph

  /** One mutating call on a graph. */
  datatype Op =
    | AddOp(vertex: Label)
    | SetOp(source: Label, target: Label, weight: int)
    | RemoveOp(vertex: Label)

  /** The edges graph on its abstraction: set never looks at the vertex set, and
      remove strips edges only when the label was a vertex. */
  function EdgesStep(g: View, op: Op): (r: View)
    ensures Functional(g.edges) ==> Functional(r.edges)
    ensures op.SetOp? ==> r.vertices == g.vertices
  {
    match op
    case AddOp(l) => View(g.vertices + {l}, g.edges)
    case SetOp(s, t, w) => View(g.vertices, UpsertSet(g.edges, s, t, w))
    case RemoveOp(l) => View(g.vertices - {l}, if l in g.vertices then Strip(g.edges, l) else g.edges)
  }

  /** The vertices graph on its abstraction: set with a missing endpoint fails
      and changes nothing. */
  function VerticesStep(g: View, op: Op): (r: View)
    ensures Consistent(g) ==> Consistent(r)
    ensures op.SetOp? ==> r.vertices == g.vertices
  {
    match op
    case AddOp(l) => View(g.vertices + {l}, g.edges)
    case SetOp(s, t, w) =>
      if s in g.vertices && t in g.vertices then View(g.vertices, UpsertSet(g.edges, s, t, w)) else g
    case RemoveOp(l) => if l in g.vertices then View(g.vertices - {l}, Strip(g.edges, l)) else g
  }

  /** A call both classes accept and treat alike: set only between vertices,
      and never with a negative weight (the edges graph's Edge rejects it). */
  predicate Admissible(g: View, op: Op) {
    op.SetOp? ==> op.source in g.vertices && op.target in g.vertices && op.weight >= 0
  }

  predicate AdmissibleTrace(g: View, ops: seq<Op>)
    decreases |ops|
  {
    ops == [] || (Admissible(g, ops[0]) && AdmissibleTrace(EdgesStep(g, ops[0]), ops[1..]))
  }

  function RunEdges(g: View, ops: seq<Op>): View
    decreases |ops|
  {
    if ops == [] then g else RunEdges(EdgesStep(g, ops[0]), ops[1..])
  }

  function RunVertices(g: View, ops: seq<Op>): View
    decreases |ops|
  {
    if ops == [] then g else RunVertices(VerticesStep(g, ops[0]), ops[1..])
  }

  /** A graph in which each ordered pair has at most one edge and every edge
      joins two vertices: the states the vertices graph can be in. */
  predicate Consistent(g: View) {
    Functional(g.edges) && Integral(g.vertices, g.edges)
  }

  /** On a consistent graph, one call has the same effect on both
      representations exactly when it is not a set with a missing endpoint. */
  lemma StepsAgree(g: View, op: Op)
    requires Consistent(g)
    ensures EdgesStep(g, op) == VerticesStep(g, op) <==>
      (op.SetOp? ==> op.source in g.vertices && op.target in g.vertices)
  {
    if op.SetOp? && !(op.source in g.vertices && op.target in g.vertices) {
      var e := EdgeRecord(op.source, op.target, op.weight);
      assert e in EdgesStep(g, op).edges;
      assert e !in g.edges;
    }
  }

  /** Admissible calls keep a graph consistent. */
  lemma StepKeeps(g: View, op: Op)
    requires Consistent(g) && Admissible(g, op)
    ensures Consistent(EdgesStep(g, op))
  {
    match op
    case AddOp(l) =>
    case SetOp(s, t, w) =>
      UpsertSetFunctional(g.edges, s, t, w);
    case RemoveOp(l) =>
      StripFunctional(g.edges, l);
  }

  /** Along an admissible trace from a consistent graph both representations
      reach the same graph, and it is consistent. */
  lemma {:induction false} RunsAgree(g: View, ops: seq<Op>)
    requires Consistent(g) && AdmissibleTrace(g, ops)
    ensures RunEdges(g, ops) == RunVertices(g, ops)
    ensures Consistent(RunEdges(g, ops))
    decreases |ops|
  {
    if ops != [] {
      StepsAgree(g, ops[0]);
      StepKeeps(g, ops[0]);
      RunsAgree(EdgesStep(g, ops[0]), ops[1..]);
    }
  }

  /** The empty graph both constructors build. */
  function Empty(): View {
    View({}, {})
  }

  // ---------------------------------------------------------------------------
  // Both classes, driven by the same calls.

  /** Both graphs start equal; the vertices graph's objects and the edges
      graph's objects never overlap. */
  ghost predicate Paired(eg: EdgesGraph.ConcreteEdgesGraph, vg: VerticesGraph.ConcreteVerticesGraph)
    reads eg, eg.edges, vg, vg.Repr
  {
    eg.Valid() && vg.Valid() &&
    eg !in vg.Repr && (forall i :: 0 <= i < |eg.edges| ==> eg.edges[i] !in vg.Repr) &&
    eg.Abstraction() == vg.Abstraction()
  }

  /** The edges graph's objects after a call: the old ones and new ones. */
  twostate predicate EdgesGrown(eg: EdgesGraph.ConcreteEdgesGraph)
    reads eg
  {
    forall i :: 0 <= i < |eg.edges| ==> eg.edges[i] in old(eg.edges) || fresh(eg.edges[i])
  }

  /** add on both graphs. */
  method AddBoth(eg: EdgesGraph.ConcreteEdgesGraph, vg: VerticesGraph.ConcreteVerticesGraph, l: Label)
    requires Paired(eg, vg)
    modifies eg, vg.Repr
    ensures Paired(eg, vg) && EdgesGrown(eg) && fresh(vg.Repr - old(vg.Repr))
    ensures eg.Abstraction() == EdgesStep(old(eg.Abstraction()), AddOp(l))
  {
    var _ := eg.Add(l);
    var _ := vg.Add(l);
  }

  /** set on both graphs, between two vertices and with a weight of at least 0:
      the edges graph returns the new weight, the vertices graph what
      targets(s) held for t beforehand, or 0. */
  method SetBoth(eg: EdgesGraph.ConcreteEdgesGraph, vg: VerticesGraph.ConcreteVerticesGraph,
                 s: Label, t: Label, w: int)
    returns (edgesResult: int, verticesResult: Result<int>)
    requires Paired(eg, vg) && Admissible(eg.Abstraction(), SetOp(s, t, w))
    modifies eg, eg.edges, vg.Repr
    ensures eg.Valid() && vg.Valid()
    ensures eg !in vg.Repr && (forall i :: 0 <= i < |eg.edges| ==> eg.edges[i] !in vg.Repr)
    ensures EdgesGrown(eg) && fresh(vg.Repr - old(vg.Repr))
    ensures eg.Abstraction() == EdgesStep(old(eg.Abstraction()), SetOp(s, t, w))
    ensures eg.Abstraction() == vg.Abstraction()
    ensures Functional(old(eg.Abstraction()).edges)
    ensures edgesResult == w
    ensures verticesResult == Ok(TargetWeight(old(eg.Abstraction()).edges, s, t))
    ensures verticesResult == Ok(edgesResult) <==> TargetWeight(old(eg.Abstraction()).edges, s, t) == w
  {
    UniqueFunctional(eg.EdgeList);
    verticesResult := SetVerticesSide(vg, [eg as object] + eg.edges, s, t, w);
    edgesResult := SetEdgesSide(eg, vg, s, t, w);
  }

  /** The first half of SetBoth: the vertices graph's set between two of its
      vertices succeeds, and the objects `os` stay outside its footprint. */
  method SetVerticesSide(vg: VerticesGraph.ConcreteVerticesGraph, ghost os: seq<object>, s: Label, t: Label, w: int)
    returns (r: Result<int>)
    requires vg.Valid() && forall i :: 0 <= i < |os| ==> os[i] !in vg.Repr
    requires s in vg.Abstraction().vertices && t in vg.Abstraction().vertices
    modifies vg.Repr
    ensures vg.Valid() && fresh(vg.Repr - old(vg.Repr))
    ensures forall i :: 0 <= i < |os| ==> os[i] !in vg.Repr
    ensures vg.Abstraction() == View(old(vg.Abstraction()).vertices, UpsertSet(old(vg.Abstraction()).edges, s, t, w))
    ensures Functional(old(vg.Abstraction()).edges)
    ensures r == Ok(TargetWeight(old(vg.Abstraction()).edges, s, t))
  {
    r := vg.Set(s, t, w);
    forall i | 0 <= i < |os| ensures os[i] !in vg.Repr {
      assert old(allocated(os[i]));
    }
  }

  /** The second half of SetBoth: the edges graph's set leaves the vertices
      graph as it was and keeps the two apart. */
  method SetEdgesSide(eg: EdgesGraph.ConcreteEdgesGraph, vg: VerticesGraph.ConcreteVerticesGraph,
                      s: Label, t: Label, w: int)
    returns (r: int)
    requires eg.Valid() && vg.Valid() && w >= 0
    requires eg !in vg.Repr && forall i :: 0 <= i < |eg.edges| ==> eg.edges[i] !in vg.Repr
    modifies eg, eg.edges
    ensures eg.Valid() && vg.Valid() && EdgesGrown(eg)
    ensures eg !in vg.Repr && forall i :: 0 <= i < |eg.edges| ==> eg.edges[i] !in vg.Repr
    ensures eg.Abstraction() == EdgesStep(old(eg.Abstraction()), SetOp(s, t, w))
    ensures vg.Abstraction() == old(vg.Abstraction()) && vg.Repr == old(vg.Repr)
    ensures r == w
  {
    r := eg.Set(s, t, w);
    forall i | 0 <= i < |eg.edges| ensures eg.edges[i] !in vg.Repr {
      if i >= |old(eg.edges)| {
        assert fresh(eg.edges[i]);
      }
    }
  }

  /** remove on both graphs. */
  method RemoveBoth(eg: EdgesGraph.ConcreteEdgesGraph, vg: VerticesGraph.ConcreteVerticesGraph, l: Label)
    returns (edgesResult: bool, verticesResult: bool)
    requires Paired(eg, vg)
    modifies eg, vg.Repr
    ensures Paired(eg, vg) && EdgesGrown(eg) && fresh(vg.Repr - old(vg.Repr))
    ensures eg.Abstraction() == EdgesStep(old(eg.Abstraction()), RemoveOp(l))
    ensures edgesResult == verticesResult == (l in old(eg.Abstraction()).vertices)
  {
    edgesResult := eg.Remove(l);
    verticesResult := vg.Remove(l);
  }

  /** Any call on the edges graph alone has the effect EdgesStep describes; the
      only calls excluded are those its Edge rejects, with a negative weight. */
  method EdgesApply(eg: EdgesGraph.ConcreteEdgesGraph, op: Op)
    requires eg.Valid() && (op.SetOp? ==> op.weight >= 0)
    modifies eg, eg.edges
    ensures eg.Valid() && eg.Abstraction() == EdgesStep(old(eg.Abstraction()), op)
  {
    match op
    case AddOp(l) =>
      var _ := eg.Add(l);
    case SetOp(s, t, w) =>
      var _ := eg.Set(s, t, w);
    case RemoveOp(l) =>
      var _ := eg.Remove(l);
  }

  /** Any call on the vertices graph alone has the effect VerticesStep
      describes, a set with a missing endpoint included. */
  method VerticesApply(vg: VerticesGraph.ConcreteVerticesGraph, op: Op)
    requires vg.Valid()
    modifies vg.Repr
    ensures vg.Valid() && fresh(vg.Repr - old(vg.Repr))
    ensures vg.Abstraction() == VerticesStep(old(vg.Abstraction()), op)
  {
    match op
    case AddOp(l) =>
      var _ := vg.Add(l);
    case SetOp(s, t, w) =>
      var _ := vg.Set(s, t, w);
    case RemoveOp(l) =>
      var _ := vg.Remove(l);
  }

  /** One admissible call on both graphs. */
  method Apply(eg: EdgesGraph.ConcreteEdgesGraph, vg: VerticesGraph.ConcreteVerticesGraph, op: Op)
    requires Paired(eg, vg) && Admissible(eg.Abstraction(), op)
    modifies eg, eg.edges, vg.Repr
    ensures Paired(eg, vg) && EdgesGrown(eg) && fresh(vg.Repr - old(vg.Repr))
    ensures eg.Abstraction() == EdgesStep(old(eg.Abstraction()), op)
  {
    match op
    case AddOp(l) =>
      AddBoth(eg, vg, l);
    case SetOp(s, t, w) =>
      var _, _ := SetBoth(eg, vg, s, t, w);
    case RemoveOp(l) =>
      var _, _ := RemoveBoth(eg, vg, l);
  }

  /** Running the same admissible calls on two new graphs leaves them equal on
      vertices, sources and targets, at the graph the trace describes. */
  method Lockstep(ops: seq<Op>) returns (eg: EdgesGraph.ConcreteEdgesGraph, vg: VerticesGraph.ConcreteVerticesGraph)
    requires AdmissibleTrace(Empty(), ops)
    ensures Paired(eg, vg)
    ensures eg.Abstraction() == RunEdges(Empty(), ops) == RunVertices(Empty(), ops)
  {
    RunsAgree(Empty(), ops);
    eg := new EdgesGraph.ConcreteEdgesGraph();
    vg := new VerticesGraph.ConcreteVerticesGraph();
    assert eg.Abstraction() == Empty();
    assert ops[0..] == ops;
    for n := 0 to |ops|
      invariant Paired(eg, vg) && fresh(vg.Repr)
      invariant forall i :: 0 <= i < |eg.edges| ==> fresh(eg.edges[i])
      invariant AdmissibleTrace(eg.Abstraction(), ops[n..])
      invariant RunEdges(eg.Abstraction(), ops[n..]) == RunEdges(Empty(), ops)
    {
      assert ops[n..][1..] == ops[n + 1..];
      Apply(eg, vg, ops[n]);
    }
  }

  /** On paired graphs the three observers return the same values: the vertex
      set, and the sources and targets of `x` in the shared graph. */
  method Observe(eg: EdgesGraph.ConcreteEdgesGraph, vg: VerticesGraph.ConcreteVerticesGraph, x: Label)
    returns (ev: set<Label>, vv: set<Label>, es: map<Label, int>, vs: map<Label, int>,
             et: map<Label, int>, vt: map<Label, int>)
    requires Paired(eg, vg)
    ensures ev == vv == eg.Abstraction().vertices
    ensures Functional(eg.Abstraction().edges)
    ensures es == vs == SourcesOf(eg.Abstraction().edges, x)
    ensures et == vt == TargetsOf(eg.Abstraction().edges, x)
  {
    ev := eg.Vertices();
    vv := vg.Vertices();
    es := eg.Sources(x);
    vs := vg.Sources(x);
    et := eg.Targets(x);
    vt := vg.Targets(x);
  }
}
