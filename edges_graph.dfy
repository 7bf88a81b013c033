/**
 The edge-centric representation, ConcreteEdgesGraph: a set of vertex labels and
 a flat list of edge objects whose weight is updated in place.
 */
module EdgesGraph {
  import opened Graph

  /** The top-level Edge class: fixed endpoints, a mutable weight. */
  class Edge {
    const source: Label
    const target: Label
    var weight: int

    /** checkRep: the weight is non-negative (endpoints are never null here). */
    ghost predicate Valid()
      reads this
    {
      weight >= 0
    }

    constructor (source: Label, target: Label, weight: int)
      requires weight >= 0
      ensures Valid()
      ensures this.source == source && this.target == target && this.weight == weight
    {
      this.source := source;
      this.target := target;
      this.weight := weight;
    }

    method SetWeight(weight: int)
      requires weight >= 0
      modifies this
      ensures Valid() && this.weight == weight
    {
      this.weight := weight;
    }

    /** The value this edge currently stands for. */
    function Record(): EdgeRecord
      reads this
    {
      EdgeRecord(source, target, weight)
    }
  }

  /** The edge objects `es` stand, position by position, for the records `rs`. */
  ghost predicate Mirrors(es: seq<Edge>, rs: seq<EdgeRecord>)
    reads es
  {
    |es| == |rs| && forall i :: 0 <= i < |es| ==> es[i].Record() == rs[i]
  }

  /** remove's filter on the edge objects: drop every edge whose source or
      target is l, and keep the others. */
  function Unlinked(es: seq<Edge>, l: Label): (r: seq<Edge>)
    ensures forall i :: 0 <= i < |r| ==> r[i] in es && r[i].source != l && r[i].target != l
    ensures forall i :: 0 <= i < |es| && es[i].source != l && es[i].target != l ==> es[i] in r
  {
    if es == [] then []
    else (if es[0].source == l || es[0].target == l then [] else [es[0]]) + Unlinked(es[1..], l)
  }

  /** Filtering the objects and filtering the records they stand for agree. */
  lemma {:induction false} UnlinkedMirrors(es: seq<Edge>, rs: seq<EdgeRecord>, l: Label)
    requires Mirrors(es, rs)
    ensures Mirrors(Unlinked(es, l), Detach(rs, l))
  {
    if es != [] {
      assert Mirrors(es[1..], rs[1..]) by {
        forall i | 0 <= i < |es| - 1 ensures es[1..][i].Record() == rs[1..][i] {
          assert es[1..][i] == es[i + 1];
        }
      }
      UnlinkedMirrors(es[1..], rs[1..], l);
      assert es[0].Record() == rs[0];
      var h := if es[0].source == l || es[0].target == l then [] else [es[0]];
      var hr := if Touches(rs[0], l) then [] else [rs[0]];
      MirrorsConcat(h, Unlinked(es[1..], l), hr, Detach(rs[1..], l));
    }
  }

  /** The filter keeps the surviving edge objects in their order. */
  lemma {:induction false} UnlinkedConcat(a: seq<Edge>, b: seq<Edge>, l: Label)
    ensures Unlinked(a + b, l) == Unlinked(a, l) + Unlinked(b, l)
  {
    if a == [] {
      assert a + b == b;
    } else {
      assert (a + b)[1..] == a[1..] + b;
      UnlinkedConcat(a[1..], b, l);
    }
  }

  lemma MirrorsConcat(a: seq<Edge>, b: seq<Edge>, ra: seq<EdgeRecord>, rb: seq<EdgeRecord>)
    requires Mirrors(a, ra) && Mirrors(b, rb)
    ensures Mirrors(a + b, ra + rb)
  {
    forall i | 0 <= i < |a + b| ensures (a + b)[i].Record() == (ra + rb)[i] {
      if i >= |a| {
        assert (a + b)[i] == b[i - |a|] && (ra + rb)[i] == rb[i - |a|];
      }
    }
  }


  class ConcreteEdgesGraph {
    var vertices: set<Label>
    var edges: seq<Edge>
    /** The edges as values, in list order. */
    ghost var EdgeList: seq<EdgeRecord>

    /** Every edge is a valid Edge, the list mirrors EdgeList, and no ordered
        pair has two edges (set never appends a second one). */
    ghost predicate Valid()
      reads this, edges
    {
      Mirrors(edges, EdgeList) &&
      (forall i :: 0 <= i < |edges| ==> edges[i].Valid()) &&
      UniquePairs(EdgeList)
    }

    /** The abstraction function: the vertex set and the set of stored edges. */
    ghost function Abstraction(): View
      reads this
    {
      View(vertices, Elements(EdgeList))
    }

    constructor ()
      ensures Valid()
      ensures vertices == {} && edges == [] && EdgeList == []
    {
      vertices := {};
      edges := [];
      EdgeList := [];
    }

    /** add: HashSet.add, true exactly when the label was new. */
    method Add(vertex: Label) returns (added: bool)
      requires Valid()
      modifies this
      ensures Valid()
      ensures added == (vertex !in old(vertices))
      ensures Abstraction() == View(old(Abstraction()).vertices + {vertex}, old(Abstraction()).edges)
      ensures vertices == old(vertices) + {vertex}
      ensures edges == old(edges) && EdgeList == old(EdgeList)
    {
      added := vertex !in vertices;
      vertices := vertices + {vertex};
    }

    /** set: update the matching edge in place or append a new one; the vertex
        set is neither read nor changed, and the result is the new weight. */
    method Set(source: Label, target: Label, weight: int) returns (r: int)
      requires Valid()
      requires weight >= 0
      modifies this, edges
      ensures Valid()
      ensures r == weight
      ensures Abstraction() == View(old(Abstraction()).vertices, UpsertSet(old(Abstraction()).edges, source, target, weight))
      ensures vertices == old(vertices)
      ensures EdgeList == Upsert(old(EdgeList), source, target, weight)
      ensures |edges| >= |old(edges)| && edges[..|old(edges)|] == old(edges)
      ensures forall i :: |old(edges)| <= i < |edges| ==> fresh(edges[i])
    {
      UpsertElements(EdgeList, source, target, weight);
      var i := FindEdge(source, target);
      if i < |edges| {
        var edge := edges[i];
        assert edge.Record() == EdgeList[i];
        forall j | 0 <= j < |edges| && j != i ensures edges[j] != edge {
          assert edges[j].Record() == EdgeList[j];
        }
        edge.SetWeight(weight);
        EdgeList := EdgeList[i := EdgeRecord(source, target, weight)];
        return weight;
      }
      var edge := new Edge(source, target, weight);
      edges := edges + [edge];
      EdgeList := EdgeList + [edge.Record()];
      return weight;
    }

    /** The loop of `set`: the position of the first edge from source to
        target, or the length of the list when there is none. */
    method FindEdge(source: Label, target: Label) returns (i: nat)
      requires Valid()
      ensures i == FindPair(EdgeList, source, target)
    {
      i := 0;
      while i < |edges|
        invariant i <= |edges|
        invariant forall j :: 0 <= j < i ==> !SamePair(EdgeList[j], source, target)
      {
        assert edges[i].Record() == EdgeList[i];
        if edges[i].source == source && edges[i].target == target {
          return;
        }
        i := i + 1;
      }
    }

    /** remove: HashSet.remove, and only when the label was present, drop every
        edge from or to it, keeping the others in order. */
    method Remove(vertex: Label) returns (removed: bool)
      requires Valid()
      modifies this
      ensures Valid()
      ensures removed == (vertex in old(vertices))
      ensures Abstraction() == View(old(Abstraction()).vertices - {vertex},
        if removed then Strip(old(Abstraction()).edges, vertex) else old(Abstraction()).edges)
      ensures vertices == old(vertices) - {vertex}
      ensures edges == if removed then Unlinked(old(edges), vertex) else old(edges)
      ensures EdgeList == if removed then Detach(old(EdgeList), vertex) else old(EdgeList)
    {
      removed := vertex in vertices;
      vertices := vertices - {vertex};
      if removed {
        UnlinkedMirrors(edges, EdgeList, vertex);
        DetachUnique(EdgeList, vertex);
        DetachElements(EdgeList, vertex);
        edges := Unlinked(edges, vertex);
        EdgeList := Detach(EdgeList, vertex);
      }
    }

    /** vertices: a copy of the vertex set. */
    method Vertices() returns (r: set<Label>)
      ensures r == vertices
    {
      r := vertices;
    }

    /** sources: scan the edge list, putting source -> weight for each edge into target. */
    method Sources(target: Label) returns (m: map<Label, int>)
      requires Valid()
      ensures Functional(Elements(EdgeList))
      ensures m == SourcesOf(Elements(EdgeList), target)
    {
      UniqueFunctional(EdgeList);
      m := map[];
      for i := 0 to |edges|
        invariant m == SourcesOf(Elements(EdgeList[..i]), target)
      {
        ElementsSnoc(EdgeList, i);
        FunctionalSubset(Elements(EdgeList[..i + 1]), Elements(EdgeList));
        SourcesInsert(Elements(EdgeList[..i]), EdgeList[i], target);
        var edge := edges[i];
        assert edge.Record() == EdgeList[i];
        if edge.target == target {
          m := m[edge.source := edge.weight];
        }
      }
      assert EdgeList[..|edges|] == EdgeList;
    }

    /** targets: scan the edge list, putting target -> weight for each edge out of source. */
    method Targets(source: Label) returns (m: map<Label, int>)
      requires Valid()
      ensures Functional(Elements(EdgeList))
      ensures m == TargetsOf(Elements(EdgeList), source)
    {
      UniqueFunctional(EdgeList);
      m := map[];
      for i := 0 to |edges|
        invariant m == TargetsOf(Elements(EdgeList[..i]), source)
      {
        ElementsSnoc(EdgeList, i);
        FunctionalSubset(Elements(EdgeList[..i + 1]), Elements(EdgeList));
        TargetsInsert(Elements(EdgeList[..i]), EdgeList[i], source);
        var edge := edges[i];
        assert edge.Record() == EdgeList[i];
        if edge.source == source {
          m := m[edge.target := edge.weight];
        }
      }
      assert EdgeList[..|edges|] == EdgeList;
    }
  }
}
