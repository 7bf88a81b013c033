/**
 The vertex-centric representation, ConcreteVerticesGraph: a list of vertex
 objects, each owning the list of its outgoing edge objects.
 */
module VerticesGraph {
  import opened Graph

  /** The nested Edge class: fixed endpoints and a mutable weight, with no check on it. */
  class Edge {
    const source: Label
    const target: Label
    var weight: int

    constructor (source: Label, target: Label, weight: int)
      ensures this.source == source && this.target == target && this.weight == weight
    {
      this.source := source;
      this.target := target;
      this.weight := weight;
    }

    /** The value this edge currently stands for. */
    function Record(): EdgeRecord
      reads this
    {
      EdgeRecord(source, target, weight)
    }
  }

  /** The nested Vertex class: a fixed label (`name`; `label` is a Dafny keyword)
      and the list of its outgoing edges. */
  class Vertex {
    const name: Label
    var edges: seq<Edge>

    constructor (name: Label)
      ensures this.name == name && edges == []
    {
      this.name := name;
      edges := [];
    }
  }

  /** The edge objects `es` stand, position by position, for the records `rs`. */
  ghost predicate Mirrors(es: seq<Edge>, rs: seq<EdgeRecord>)
    reads es
  {
    |es| == |rs| && forall i :: 0 <= i < |es| ==> es[i].Record() == rs[i]
  }

  /** remove's filter on one vertex's edge objects: drop every edge whose
      target or source is l, and keep the others. */
  function Unlinked(es: seq<Edge>, l: Label): (r: seq<Edge>)
    ensures forall i :: 0 <= i < |r| ==> r[i] in es && r[i].source != l && r[i].target != l
    ensures forall i :: 0 <= i < |es| && es[i].source != l && es[i].target != l ==> es[i] in r
  {
    if es == [] then []
    else (if es[0].target == l || es[0].source == l then [] else [es[0]]) + Unlinked(es[1..], l)
  }

  /** Filtering the objects and filtering the records they stand for agree. */
  lemma {:induction false} UnlinkedMirrors(es: seq<Edge>, rs: seq<EdgeRecord>, l: Label)
    requires Mirrors(es, rs)
    ensures Mirrors(Unlinked(es, l), Detach(rs, l))
  {
    if es != [] {
      assert Mirrors(es[1..], rs[1..]) by {
        forall i | 0 <= i < |es| - 1 ensures es[1..][i].Record() == rs[1..][i] {
          assert es[1..][i] == es[i + 1];
        }
      }
      UnlinkedMirrors(es[1..], rs[1..], l);
      assert es[0].Record() == rs[0];
      var h := if es[0].source == l || es[0].target == l then [] else [es[0]];
      var hr := if Touches(rs[0], l) then [] else [rs[0]];
      MirrorsConcat(h, Unlinked(es[1..], l), hr, Detach(rs[1..], l));
    }
  }

  /** The filter keeps the surviving edge objects in their order. */
  lemma {:induction false} UnlinkedConcat(a: seq<Edge>, b: seq<Edge>, l: Label)
    ensures Unlinked(a + b, l) == Unlinked(a, l) + Unlinked(b, l)
  {
    if a == [] {
      assert a + b == b;
    } else {
      assert (a + b)[1..] == a[1..] + b;
      UnlinkedConcat(a[1..], b, l);
    }
  }

  lemma MirrorsConcat(a: seq<Edge>, b: seq<Edge>, ra: seq<EdgeRecord>, rb: seq<EdgeRecord>)
    requires Mirrors(a, ra) && Mirrors(b, rb)
    ensures Mirrors(a + b, ra + rb)
  {
    forall i | 0 <= i < |a + b| ensures (a + b)[i].Record() == (ra + rb)[i] {
      if i >= |a| {
        assert (a + b)[i] == b[i - |a|] && (ra + rb)[i] == rb[i - |a|];
      }
    }
  }


  function LabelsOf(vs: seq<Vertex>): (ls: seq<Label>)
    ensures |ls| == |vs| && forall i :: 0 <= i < |vs| ==> ls[i] == vs[i].name
  {
    seq(|vs|, i requires 0 <= i < |vs| => vs[i].name)
  }

  /** The first position of label l, or |ls| when there is none (findVertex). */
  function FindLabel(ls: seq<Label>, l: Label): (k: nat)
    ensures k <= |ls|
    ensures k < |ls| ==> ls[k] == l
    ensures forall j :: 0 <= j < k ==> ls[j] != l
  {
    if ls == [] then 0
    else if ls[0] == l then 0
    else 1 + FindLabel(ls[1..], l)
  }

  /** Removing one object from a list: drop the first element identical to v. */
  function RemoveFirst(vs: seq<Vertex>, v: Vertex): (r: seq<Vertex>)
    ensures v !in vs ==> r == vs
    ensures v in vs ==> |r| == |vs| - 1
  {
    if vs == [] then []
    else if vs[0] == v then vs[1..]
    else [vs[0]] + RemoveFirst(vs[1..], v)
  }

  lemma {:induction false} RemoveFirstAt(vs: seq<Vertex>, v: Vertex, i: nat)
    requires i < |vs| && vs[i] == v
    requires forall j :: 0 <= j < i ==> vs[j] != v
    ensures RemoveFirst(vs, v) == Cut(vs, i)
  {
    if i == 0 {
      assert vs[..0] + vs[1..] == vs[1..];
    } else {
      var t := vs[1..];
      RemoveFirstAt(t, v, i - 1);
      ConsCut(vs[0], t, i - 1);
      assert [vs[0]] + t == vs;
    }
  }

  /** Putting an element in front shifts the cut position by one. */
  lemma ConsCut<T>(x: T, t: seq<T>, j: nat)
    requires j < |t|
    ensures [x] + Cut(t, j) == Cut([x] + t, j + 1)
  {
    assert ([x] + t)[..j + 1] == [x] + t[..j];
    assert ([x] + t)[j + 2..] == t[j + 1..];
  }

  /** The sequence with position i taken out. */
  function Cut<T>(s: seq<T>, i: nat): (r: seq<T>)
    requires i < |s|
    ensures |r| == |s| - 1
    ensures forall k :: 0 <= k < |r| ==> r[k] == s[if k < i then k else k + 1]
  {
    s[..i] + s[i + 1..]
  }

  /** Every adjacency list filtered by removeIf for label l. */
  function DetachEach(adj: seq<seq<EdgeRecord>>, l: Label): (r: seq<seq<EdgeRecord>>)
    ensures |r| == |adj| && forall k :: 0 <= k < |adj| ==> r[k] == Detach(adj[k], l)
  {
    seq(|adj|, k requires 0 <= k < |adj| => Detach(adj[k], l))
  }

  // ---------------------------------------------------------------------------
  // The representation invariant, on values.

  predicate Distinct(ls: seq<Label>) {
    forall i, j :: 0 <= i < j < |ls| ==> ls[i] != ls[j]
  }

  /** checkRep's condition (unique labels), and what set and remove maintain:
      every edge in vertex i's list has label i as source and a vertex as
      target, and no target appears twice in one list. */
  predicate WellFormed(ls: seq<Label>, adj: seq<seq<EdgeRecord>>) {
    |ls| == |adj| && Distinct(ls) &&
    forall i :: 0 <= i < |adj| ==>
      UniquePairs(adj[i]) &&
      forall j :: 0 <= j < |adj[i]| ==> adj[i][j].source == ls[i] && adj[i][j].target in ls
  }

  /** All stored edges, whichever list holds them. */
  function AllEdges(adj: seq<seq<EdgeRecord>>): set<EdgeRecord> {
    set i, e | 0 <= i < |adj| && e in adj[i] :: e
  }

  function LabelSet(ls: seq<Label>): set<Label> {
    set l | l in ls
  }

  lemma WellFormedFunctional(ls: seq<Label>, adj: seq<seq<EdgeRecord>>)
    requires WellFormed(ls, adj)
    ensures Functional(AllEdges(adj))
    ensures Integral(LabelSet(ls), AllEdges(adj))
  {
    forall e, f | e in AllEdges(adj) && f in AllEdges(adj) && SamePair(f, e.source, e.target)
      ensures e == f
    {
      var a :| 0 <= a < |adj| && e in adj[a];
      var b :| 0 <= b < |adj| && f in adj[b];
      assert ls[a] == ls[b];
      assert a == b;
      UniqueFunctional(adj[a]);
      assert e in Elements(adj[a]) && f in Elements(adj[a]);
    }
  }

  lemma AddKeeps(ls: seq<Label>, adj: seq<seq<EdgeRecord>>, l: Label)
    requires WellFormed(ls, adj) && l !in ls
    ensures WellFormed(ls + [l], adj + [[]])
    ensures AllEdges(adj + [[]]) == AllEdges(adj)
  {
    var ls', adj' := ls + [l], adj + [[]];
    forall i | 0 <= i < |adj'| ensures UniquePairs(adj'[i]) &&
      forall j :: 0 <= j < |adj'[i]| ==> adj'[i][j].source == ls'[i] && adj'[i][j].target in ls'
    {
      if i < |adj| {
        assert adj'[i] == adj[i] && ls'[i] == ls[i];
      }
    }
    forall e | e in AllEdges(adj') ensures e in AllEdges(adj) {
      var a :| 0 <= a < |adj'| && e in adj'[a];
      assert a < |adj| && adj'[a] == adj[a];
    }
    forall e | e in AllEdges(adj) ensures e in AllEdges(adj') {
      var a :| 0 <= a < |adj| && e in adj[a];
      assert adj'[a] == adj[a];
    }
  }

  lemma SetKeeps(ls: seq<Label>, adj: seq<seq<EdgeRecord>>, i: nat, t: Label, w: int)
    requires WellFormed(ls, adj) && i < |ls| && t in ls
    ensures WellFormed(ls, adj[i := Upsert(adj[i], ls[i], t, w)])
    ensures AllEdges(adj[i := Upsert(adj[i], ls[i], t, w)]) == UpsertSet(AllEdges(adj), ls[i], t, w)
  {
    var s := ls[i];
    var row := Upsert(adj[i], s, t, w);
    var adj' := adj[i := row];
    UpsertUnique(adj[i], s, t, w);
    UpsertElements(adj[i], s, t, w);
    forall j | 0 <= j < |row| ensures row[j].source == s && row[j].target in ls {
      assert row[j] in Elements(row);
    }
    forall e | e in AllEdges(adj') ensures e in UpsertSet(AllEdges(adj), s, t, w) {
      var a :| 0 <= a < |adj'| && e in adj'[a];
      if a == i {
        assert e in Elements(row);
      } else {
        var j :| 0 <= j < |adj[a]| && adj[a][j] == e;
        assert e.source == ls[a] != s;
      }
    }
    forall e | e in UpsertSet(AllEdges(adj), s, t, w) ensures e in AllEdges(adj') {
      if e == EdgeRecord(s, t, w) {
        assert e in Elements(row);
        assert e in adj'[i];
      } else {
        var a :| 0 <= a < |adj| && e in adj[a];
        if a == i {
          assert e in Elements(adj[i]);
          assert e in Elements(row);
          assert e in adj'[i];
        } else {
          assert adj'[a] == adj[a];
          assert e in adj'[a];
        }
      }
    }
  }

  lemma WeightChangeKeeps(ls: seq<Label>, adj: seq<seq<EdgeRecord>>, i: nat, k: nat, w: int)
    requires WellFormed(ls, adj) && i < |adj| && k < |adj[i]|
    ensures WellFormed(ls, adj[i := adj[i][k := adj[i][k].(weight := w)]])
  {
    var row := adj[i][k := adj[i][k].(weight := w)];
    assert forall j :: 0 <= j < |row| ==> SamePair(row[j], adj[i][j].source, adj[i][j].target);
    assert UniquePairs(row);
  }

  lemma RemoveKeeps(ls: seq<Label>, adj: seq<seq<EdgeRecord>>, i: nat)
    requires WellFormed(ls, adj) && i < |ls|
    ensures WellFormed(Cut(ls, i), DetachEach(Cut(adj, i), ls[i]))
    ensures AllEdges(DetachEach(Cut(adj, i), ls[i])) == Strip(AllEdges(adj), ls[i])
  {
    var l := ls[i];
    var ls', adj' := Cut(ls, i), DetachEach(Cut(adj, i), l);
    CutDistinct(ls, i);
    forall k | 0 <= k < |adj'| ensures RowWellFormed(ls', adj'[k], k) {
      RemoveKeepsRow(ls, adj, i, k);
    }
    RemoveKeepsEdges(ls, adj, i);
  }

  predicate RowWellFormed(ls: seq<Label>, row: seq<EdgeRecord>, k: nat) {
    k < |ls| && UniquePairs(row) &&
    forall j :: 0 <= j < |row| ==> row[j].source == ls[k] && row[j].target in ls
  }

  /** Taking a unique label out of the list takes it out of the label set. */
  lemma CutLabelSet(ls: seq<Label>, i: nat)
    requires Distinct(ls) && i < |ls|
    ensures LabelSet(Cut(ls, i)) == LabelSet(ls) - {ls[i]}
  {
    var r := Cut(ls, i);
    forall l | l in LabelSet(ls) - {ls[i]} ensures l in LabelSet(r) {
      var k :| 0 <= k < |ls| && ls[k] == l;
      assert r[if k < i then k else k - 1] == l;
    }
    forall l | l in LabelSet(r) ensures l in LabelSet(ls) - {ls[i]} {
      var k :| 0 <= k < |r| && r[k] == l;
      assert ls[if k < i then k else k + 1] == l;
    }
  }

  lemma CutDistinct(ls: seq<Label>, i: nat)
    requires Distinct(ls) && i < |ls|
    ensures Distinct(Cut(ls, i))
  {
    var ls' := Cut(ls, i);
    forall a, b | 0 <= a < b < |ls'| ensures ls'[a] != ls'[b] {
      var a', b' := if a < i then a else a + 1, if b < i then b else b + 1;
      assert ls'[a] == ls[a'] && ls'[b] == ls[b'] && a' < b';
    }
  }

  lemma RemoveKeepsRow(ls: seq<Label>, adj: seq<seq<EdgeRecord>>, i: nat, k: nat)
    requires WellFormed(ls, adj) && i < |ls| && k < |ls| - 1
    ensures RowWellFormed(Cut(ls, i), DetachEach(Cut(adj, i), ls[i])[k], k)
  {
    var l := ls[i];
    var ls' := Cut(ls, i);
    var k' := if k < i then k else k + 1;
    var row := Detach(adj[k'], l);
    assert DetachEach(Cut(adj, i), l)[k] == row;
    DetachUnique(adj[k'], l);
    forall j | 0 <= j < |row| ensures row[j].source == ls'[k] && row[j].target in ls' {
      var e := row[j];
      assert e in adj[k'];
      var m :| 0 <= m < |ls| && ls[m] == e.target;
      assert m != i;
      assert ls'[if m < i then m else m - 1] == e.target;
    }
  }

  lemma RemoveKeepsEdges(ls: seq<Label>, adj: seq<seq<EdgeRecord>>, i: nat)
    requires WellFormed(ls, adj) && i < |ls|
    ensures AllEdges(DetachEach(Cut(adj, i), ls[i])) == Strip(AllEdges(adj), ls[i])
  {
    var l := ls[i];
    var adj' := DetachEach(Cut(adj, i), l);
    forall e | e in AllEdges(adj') ensures e in Strip(AllEdges(adj), l) {
      var a :| 0 <= a < |adj'| && e in adj'[a];
      DetachedFrom(adj, i, l, a, e);
    }
    forall e | e in Strip(AllEdges(adj), l) ensures e in AllEdges(adj') {
      var a :| 0 <= a < |adj| && e in adj[a];
      assert e.source == ls[a];
      assert a != i;
      KeptIn(adj, i, l, a, e);
    }
  }

  lemma DetachedFrom(adj: seq<seq<EdgeRecord>>, i: nat, l: Label, a: nat, e: EdgeRecord)
    requires i < |adj| && a < |adj| - 1 && e in DetachEach(Cut(adj, i), l)[a]
    ensures e in Strip(AllEdges(adj), l)
  {
    var a' := if a < i then a else a + 1;
    assert DetachEach(Cut(adj, i), l)[a] == Detach(adj[a'], l);
    assert e in adj[a'] && !Touches(e, l);
  }

  lemma KeptIn(adj: seq<seq<EdgeRecord>>, i: nat, l: Label, a: nat, e: EdgeRecord)
    requires i < |adj| && a < |adj| && a != i && e in adj[a] && !Touches(e, l)
    ensures e in AllEdges(DetachEach(Cut(adj, i), l))
  {
    var a' := if a < i then a else a - 1;
    var adj' := DetachEach(Cut(adj, i), l);
    assert adj'[a'] == Detach(adj[a], l);
    assert e in adj'[a'];
  }

  lemma AllEdgesSnoc(adj: seq<seq<EdgeRecord>>, i: nat)
    requires i < |adj|
    ensures AllEdges(adj[..i + 1]) == AllEdges(adj[..i]) + Elements(adj[i])
    ensures AllEdges(adj[..i + 1]) <= AllEdges(adj)
  {
    var p, q := adj[..i], adj[..i + 1];
    forall e | e in AllEdges(q) ensures e in AllEdges(p) + Elements(adj[i]) {
      var a :| 0 <= a < |q| && e in q[a];
      if a < i { assert p[a] == q[a]; }
    }
    forall e | e in AllEdges(p) + Elements(adj[i]) ensures e in AllEdges(q) {
      if e in AllEdges(p) {
        var a :| 0 <= a < |p| && e in p[a];
        assert q[a] == p[a];
      } else {
        assert q[i] == adj[i];
      }
    }
    forall e | e in AllEdges(q) ensures e in AllEdges(adj) {
      var a :| 0 <= a < |q| && e in q[a];
      assert adj[a] == q[a];
    }
  }

  /** What set returns, the weight of the source's edge to t or 0, is what
      targets(source) reported for t beforehand. */
  lemma PreviousWeightObserved(ls: seq<Label>, adj: seq<seq<EdgeRecord>>, i: nat, t: Label)
    requires WellFormed(ls, adj) && i < |ls|
    ensures Functional(AllEdges(adj))
    ensures PreviousWeight(adj[i], ls[i], t) == TargetWeight(AllEdges(adj), ls[i], t)
  {
    WellFormedFunctional(ls, adj);
    var s := ls[i];
    var k := FindPair(adj[i], s, t);
    var m := TargetsOf(AllEdges(adj), s);
    if k < |adj[i]| {
      assert adj[i][k] in adj[i];
      assert adj[i][k] in AllEdges(adj);
    } else if t in m {
      var e := EdgeRecord(s, t, m[t]);
      assert e in AllEdges(adj);
      var a :| 0 <= a < |adj| && e in adj[a];
      assert false;
    }
  }

  /** Scanning vertex i after vertices 0..i-1 covers the prefix up to i. */
  lemma AllEdgesStep(adj: seq<seq<EdgeRecord>>, i: nat)
    requires i < |adj| && Functional(AllEdges(adj))
    ensures AllEdges(adj[..i + 1]) == AllEdges(adj[..i]) + Elements(adj[i])
    ensures Functional(AllEdges(adj[..i]) + Elements(adj[i]))
  {
    AllEdgesSnoc(adj, i);
    FunctionalSubset(AllEdges(adj[..i + 1]), AllEdges(adj));
  }

  /** A list's distinct elements number its length exactly when no label repeats:
      the size comparison that checkRep makes. */
  lemma {:induction false} DistinctCount(ls: seq<Label>)
    ensures |LabelSet(ls)| <= |ls|
    ensures |LabelSet(ls)| == |ls| <==> Distinct(ls)
  {
    if ls != [] {
      var p, x := ls[..|ls| - 1], ls[|ls| - 1];
      assert ls == p + [x];
      DistinctCount(p);
      DistinctSnoc(p, x);
      assert LabelSet(ls) == LabelSet(p) + {x};
      assert x in p <==> x in LabelSet(p);
    }
  }

  lemma DistinctSnoc(p: seq<Label>, x: Label)
    ensures Distinct(p + [x]) <==> Distinct(p) && x !in p
  {
    var ls := p + [x];
    if Distinct(ls) {
      forall a, b | 0 <= a < b < |p| ensures p[a] != p[b] {
        assert ls[a] == p[a] && ls[b] == p[b];
      }
      forall m | 0 <= m < |p| ensures p[m] != x {
        assert ls[m] != ls[|p|];
      }
    }
    if Distinct(p) && x !in p {
      forall a, b | 0 <= a < b < |ls| ensures ls[a] != ls[b] {
        if b == |p| {
          assert ls[a] == p[a];
        } else {
          assert ls[a] == p[a] && ls[b] == p[b];
        }
      }
    }
  }


  /** The loop of `remove`: `removeIf` on the edge list of each vertex. The
      lists keep standing for their rows, now detached from l. */
  method UnlinkEach(vs: seq<Vertex>, ghost rows: seq<seq<EdgeRecord>>, l: Label)
    requires |vs| == |rows|
    requires forall a, b :: 0 <= a < b < |vs| ==> vs[a] != vs[b]
    requires forall a :: 0 <= a < |vs| ==> Mirrors(vs[a].edges, rows[a])
    modifies set v | v in vs
    ensures forall a :: 0 <= a < |vs| ==> vs[a].edges == Unlinked(old(vs[a].edges), l)
    ensures forall a :: 0 <= a < |vs| ==> Mirrors(vs[a].edges, Detach(rows[a], l))
  {
    for a := 0 to |vs|
      invariant forall b :: 0 <= b < a ==> vs[b].edges == Unlinked(old(vs[b].edges), l)
      invariant forall b :: a <= b < |vs| ==> vs[b].edges == old(vs[b].edges)
    {
      vs[a].edges := Unlinked(vs[a].edges, l);
    }
    forall a | 0 <= a < |vs| ensures Mirrors(vs[a].edges, Detach(rows[a], l)) {
      ghost var es := vs[a].edges;
      assert old(Mirrors(Unlinked(vs[a].edges, l), Detach(rows[a], l))) by {
        UnlinkedMirrors(old(vs[a].edges), rows[a], l);
      }
      forall j | 0 <= j < |es| ensures es[j].Record() == old(es[j].Record()) {
        assert (es[j] as object) !in set v | v in vs :: v as object;
      }
    }
  }

  /** The outer loop of sources: scan the edge list of every vertex in turn. */
  method CollectSources(vs: seq<Vertex>, ghost adj: seq<seq<EdgeRecord>>, target: Label) returns (m: map<Label, int>)
    requires |vs| == |adj| && Functional(AllEdges(adj))
    requires forall i :: 0 <= i < |vs| ==> Mirrors(vs[i].edges, adj[i])
    ensures m == SourcesOf(AllEdges(adj), target)
  {
    m := map[];
    for i := 0 to |vs|
      invariant Functional(AllEdges(adj[..i]))
      invariant m == SourcesOf(AllEdges(adj[..i]), target)
    {
      AllEdgesStep(adj, i);
      m := ScanSources(vs[i].edges, adj[i], AllEdges(adj[..i]), target, m);
    }
    assert adj[..|vs|] == adj;
  }

  /** The outer loop of targets: scan the edge list of every vertex in turn. */
  method CollectTargets(vs: seq<Vertex>, ghost adj: seq<seq<EdgeRecord>>, source: Label) returns (m: map<Label, int>)
    requires |vs| == |adj| && Functional(AllEdges(adj))
    requires forall i :: 0 <= i < |vs| ==> Mirrors(vs[i].edges, adj[i])
    ensures m == TargetsOf(AllEdges(adj), source)
  {
    m := map[];
    for i := 0 to |vs|
      invariant Functional(AllEdges(adj[..i]))
      invariant m == TargetsOf(AllEdges(adj[..i]), source)
    {
      AllEdgesStep(adj, i);
      m := ScanTargets(vs[i].edges, adj[i], AllEdges(adj[..i]), source, m);
    }
    assert adj[..|vs|] == adj;
  }

  /** The inner loop of sources over one vertex's list: put source -> weight for each edge into target
      on top of the map m0 built from the edges `done` already scanned. */
  method ScanSources(es: seq<Edge>, ghost row: seq<EdgeRecord>, ghost done: set<EdgeRecord>,
                    target: Label, m0: map<Label, int>) returns (m: map<Label, int>)
    requires Mirrors(es, row) && Functional(done + Elements(row))
    requires Functional(done) && m0 == SourcesOf(done, target)
    ensures m == SourcesOf(done + Elements(row), target)
  {
    m := m0;
    assert done + Elements(row[..0]) == done;
    for j := 0 to |es|
      invariant Functional(done + Elements(row[..j]))
      invariant m == SourcesOf(done + Elements(row[..j]), target)
    {
      var e := es[j];
      assert e.Record() == row[j];
      ScanStep(done, row, j, target);
      if e.target == target {
        m := m[e.source := e.weight];
      }
    }
    assert row[..|es|] == row;
  }

  /** The inner loop of targets over one vertex's list: put target -> weight for each edge out of source
      on top of the map m0 built from the edges `done` already scanned. */
  method ScanTargets(es: seq<Edge>, ghost row: seq<EdgeRecord>, ghost done: set<EdgeRecord>,
                    source: Label, m0: map<Label, int>) returns (m: map<Label, int>)
    requires Mirrors(es, row) && Functional(done + Elements(row))
    requires Functional(done) && m0 == TargetsOf(done, source)
    ensures m == TargetsOf(done + Elements(row), source)
  {
    m := m0;
    assert done + Elements(row[..0]) == done;
    for j := 0 to |es|
      invariant Functional(done + Elements(row[..j]))
      invariant m == TargetsOf(done + Elements(row[..j]), source)
    {
      var e := es[j];
      assert e.Record() == row[j];
      ScanStep(done, row, j, source);
      if e.source == source {
        m := m[e.target := e.weight];
      }
    }
    assert row[..|es|] == row;
  }

  class ConcreteVerticesGraph {
    var vertices: seq<Vertex>
    /** The edge lists as values, vertex by vertex, in list order. */
    ghost var Adjacency: seq<seq<EdgeRecord>>
    /** Every object the representation uses. */
    ghost var Repr: set<object>

    ghost predicate Valid()
      reads this, Repr
    {
      this in Repr &&
      |Adjacency| == |vertices| &&
      (forall i :: 0 <= i < |vertices| ==>
        vertices[i] in Repr &&
        (forall j :: 0 <= j < |vertices[i].edges| ==> vertices[i].edges[j] in Repr) &&
        Mirrors(vertices[i].edges, Adjacency[i])) &&
      WellFormed(LabelsOf(vertices), Adjacency)
    }

    /** The abstraction function: the set of labels and the set of stored edges. */
    ghost function Abstraction(): View
      reads this
    {
      View(LabelSet(LabelsOf(vertices)), AllEdges(Adjacency))
    }

    constructor ()
      ensures Valid() && fresh(Repr)
      ensures vertices == [] && Adjacency == []
    {
      vertices := [];
      Adjacency := [];
      Repr := {this};
    }

    /** checkRep: collect the labels into a set and compare its size with the
        number of vertices; the check passes exactly when labels are unique. */
    method CheckRep() returns (ok: bool)
      ensures ok <==> Distinct(LabelsOf(vertices))
    {
      var uniqueLabels: set<Label> := {};
      for i := 0 to |vertices|
        invariant uniqueLabels == LabelSet(LabelsOf(vertices)[..i])
      {
        assert LabelsOf(vertices)[..i + 1] == LabelsOf(vertices)[..i] + [vertices[i].name];
        uniqueLabels := uniqueLabels + {vertices[i].name};
      }
      assert LabelsOf(vertices)[..|vertices|] == LabelsOf(vertices);
      DistinctCount(LabelsOf(vertices));
      ok := |uniqueLabels| == |vertices|;
    }

    /** findVertex: the first vertex with the label, or null. */
    method FindVertex(lookup: Label) returns (v: Vertex?)
      ensures var k := FindLabel(LabelsOf(vertices), lookup);
        v == if k < |vertices| then vertices[k] else null
      ensures v == null <==> lookup !in LabelsOf(vertices)
    {
      for i := 0 to |vertices|
        invariant forall j :: 0 <= j < i ==> vertices[j].name != lookup
      {
        if vertices[i].name == lookup {
          return vertices[i];
        }
      }
      return null;
    }

    /** add: scan for the label; if absent, append a vertex with no edges. */
    method Add(vertex: Label) returns (added: bool)
      requires Valid()
      modifies this
      ensures Valid() && fresh(Repr - old(Repr))
      ensures added <==> vertex !in LabelsOf(old(vertices))
      ensures Abstraction() == View(old(Abstraction()).vertices + {vertex}, old(Abstraction()).edges)
      ensures !added ==> vertices == old(vertices) && Adjacency == old(Adjacency)
      ensures added ==>
        |vertices| == |old(vertices)| + 1 && vertices[..|old(vertices)|] == old(vertices) &&
        fresh(vertices[|old(vertices)|]) && vertices[|old(vertices)|].name == vertex &&
        vertices[|old(vertices)|].edges == [] &&
        Adjacency == old(Adjacency) + [[]]
    {
      for i := 0 to |vertices|
        invariant forall j :: 0 <= j < i ==> vertices[j].name != vertex
      {
        if vertices[i].name == vertex {
          return false;
        }
      }
      AddKeeps(LabelsOf(vertices), Adjacency, vertex);
      var v := new Vertex(vertex);
      vertices := vertices + [v];
      Adjacency := Adjacency + [[]];
      Repr := Repr + {v};
      assert LabelsOf(vertices) == LabelsOf(old(vertices)) + [vertex];
      return true;
    }
  
    /** set: both endpoints must be vertices; then overwrite the weight of the
        source's edge to target and return the old weight, or append a new
        edge to the source's list and return 0. No other list changes. */
    method Set(source: Label, target: Label, weight: int) returns (r: Result<int>)
      requires Valid()
      modifies Repr
      ensures Valid() && fresh(Repr - old(Repr))
      ensures vertices == old(vertices)
      ensures r.Failure? <==> source !in LabelsOf(old(vertices)) || target !in LabelsOf(old(vertices))
      ensures Abstraction() == if r.Failure? then old(Abstraction())
        else View(old(Abstraction()).vertices, UpsertSet(old(Abstraction()).edges, source, target, weight))
      ensures r.Ok? ==>
        Functional(old(Abstraction()).edges) &&
        r.value == TargetWeight(old(Abstraction()).edges, source, target)
      ensures r.Failure? ==>
        r.message == "Source or target vertex not found" && Adjacency == old(Adjacency) &&
        forall v :: v in vertices ==> v.edges == old(v.edges)
      ensures r.Ok? ==>
        var i := FindLabel(LabelsOf(old(vertices)), source);
        i < |vertices| &&
        r.value == PreviousWeight(old(Adjacency)[i], source, target) &&
        Adjacency == old(Adjacency)[i := Upsert(old(Adjacency)[i], source, target, weight)]
    {
      var src := FindVertex(source);
      var tgt := FindVertex(target);
      if src == null || tgt == null {
        return Failure("Source or target vertex not found");
      }
      ghost var ls := LabelsOf(vertices);
      ghost var i := FindLabel(ls, source);
      assert src == vertices[i] && ls[i] == source;
      SetKeeps(ls, Adjacency, i, target, weight);
      PreviousWeightObserved(ls, Adjacency, i, target);
      var prevWeight := Update(src, i, target, weight);
      return Ok(prevWeight);
    }

    /** The part of `set` after both endpoints are found: overwrite the weight
        of the source's edge to target, or append a new edge. */
    method Update(src: Vertex, ghost i: nat, target: Label, weight: int) returns (prevWeight: int)
      requires Valid() && i < |vertices| && src == vertices[i] && target in LabelsOf(vertices)
      modifies Repr
      ensures Valid() && fresh(Repr - old(Repr)) && vertices == old(vertices)
      ensures prevWeight == PreviousWeight(old(Adjacency)[i], src.name, target)
      ensures Adjacency == old(Adjacency)[i := Upsert(old(Adjacency)[i], src.name, target, weight)]
      ensures |vertices[i].edges| >= |old(vertices[i].edges)|
      ensures vertices[i].edges[..|old(vertices[i].edges)|] == old(vertices[i].edges)
      ensures forall a :: 0 <= a < |vertices| && a != i ==> vertices[a].edges == old(vertices[a].edges)
    {
      SetKeeps(LabelsOf(vertices), Adjacency, i, target, weight);
      ghost var k := FindPair(Adjacency[i], src.name, target);
      var edge := FindEdge(src, i, target);
      if edge != null {
        prevWeight := edge.weight;
        assert Adjacency[i][k].(weight := weight) == EdgeRecord(src.name, target, weight);
        Overwrite(edge, i, k, weight);
        return;
      }
      Append(src, i, target, weight);
      return 0;
    }

    /** The loop of `set` over `src.edges`: the first edge to `target`, if any. */
    method FindEdge(src: Vertex, ghost i: nat, target: Label) returns (edge: Edge?)
      requires Valid() && i < |vertices| && src == vertices[i]
      ensures var k := FindPair(Adjacency[i], vertices[i].name, target);
        if k < |Adjacency[i]| then edge == vertices[i].edges[k] && edge.weight == Adjacency[i][k].weight
        else edge == null
    {
      for k := 0 to |src.edges|
        invariant forall j :: 0 <= j < k ==> !SamePair(Adjacency[i][j], src.name, target)
      {
        assert src.edges[k].Record() == Adjacency[i][k];
        if src.edges[k].target == target {
          assert FindPair(Adjacency[i], src.name, target) == k;
          return src.edges[k];
        }
      }
      assert FindPair(Adjacency[i], src.name, target) == |Adjacency[i]|;
      return null;
    }

    /** Store the new weight in the k-th edge object of vertex i, in place. */
    method Overwrite(edge: Edge, ghost i: nat, ghost k: nat, weight: int)
      requires Valid() && i < |vertices| && k < |vertices[i].edges| && edge == vertices[i].edges[k]
      modifies this, edge
      ensures Valid() && Repr == old(Repr) && vertices == old(vertices)
      ensures Adjacency == old(Adjacency)[i := old(Adjacency)[i][k := old(Adjacency)[i][k].(weight := weight)]]
      ensures forall a :: 0 <= a < |vertices| ==> vertices[a].edges == old(vertices[a].edges)
    {
      assert edge.Record() == Adjacency[i][k];
      SingleOwner(i, k);
      WeightChangeKeeps(LabelsOf(vertices), Adjacency, i, k, weight);
      label Before:
      edge.weight := weight;
      Adjacency := Adjacency[i := Adjacency[i][k := Adjacency[i][k].(weight := weight)]];
      forall a, j | 0 <= a < |vertices| && 0 <= j < |vertices[a].edges|
        ensures vertices[a].edges[j].Record() == Adjacency[a][j]
      {
        if (a, j) != (i, k) {
          assert vertices[a].edges[j].Record() == old@Before(vertices[a].edges[j].Record());
        }
      }
    }

    /** Append a new edge object to the edge list of the vertex at i. */
    method Append(src: Vertex, ghost i: nat, target: Label, weight: int)
      requires Valid() && i < |vertices| && src == vertices[i]
      requires WellFormed(LabelsOf(vertices),
        Adjacency[i := Adjacency[i] + [EdgeRecord(vertices[i].name, target, weight)]])
      modifies this, src
      ensures Valid() && fresh(Repr - old(Repr)) && vertices == old(vertices)
      ensures Adjacency == old(Adjacency)[i := old(Adjacency)[i] + [EdgeRecord(vertices[i].name, target, weight)]]
      ensures |vertices[i].edges| == |old(vertices[i].edges)| + 1
      ensures vertices[i].edges[..|old(vertices[i].edges)|] == old(vertices[i].edges)
      ensures forall a :: 0 <= a < |vertices| && a != i ==> vertices[a].edges == old(vertices[a].edges)
    {
      SingleVertex(i);
      label Before:
      var edge := new Edge(src.name, target, weight);
      src.edges := src.edges + [edge];
      Adjacency := Adjacency[i := Adjacency[i] + [edge.Record()]];
      Repr := Repr + {edge};
      forall a | 0 <= a < |vertices|
        ensures (forall j :: 0 <= j < |vertices[a].edges| ==> vertices[a].edges[j] in Repr) &&
          Mirrors(vertices[a].edges, Adjacency[a])
      {
        if a != i {
          assert vertices[a].edges == old@Before(vertices[a].edges);
          assert old@Before(Mirrors(vertices[a].edges, Adjacency[a]));
        } else {
          assert vertices[i].edges == old@Before(vertices[i].edges) + [edge];
          assert old@Before(Mirrors(vertices[i].edges, Adjacency[i]));
        }
      }
      assert vertices[i].edges[..|old(vertices[i].edges)|] == old(vertices[i].edges);
    }

    /** remove: drop the first vertex with the label from the list, then filter
        every remaining vertex's edge list with the removeIf predicate. */
    method Remove(vertex: Label) returns (removed: bool)
      requires Valid()
      modifies Repr
      ensures Valid() && Repr == old(Repr)
      ensures removed <==> vertex in LabelsOf(old(vertices))
      ensures Abstraction() == if !removed then old(Abstraction())
        else View(old(Abstraction()).vertices - {vertex}, Strip(old(Abstraction()).edges, vertex))
      ensures !removed ==>
        vertices == old(vertices) && Adjacency == old(Adjacency) &&
        forall v :: v in vertices ==> v.edges == old(v.edges)
      ensures removed ==>
        var i := FindLabel(LabelsOf(old(vertices)), vertex);
        i < |old(vertices)| &&
        vertices == Cut(old(vertices), i) &&
        Adjacency == DetachEach(Cut(old(Adjacency), i), vertex) &&
        forall v :: v in vertices ==> v.edges == Unlinked(old(v.edges), vertex)
    {
      var v := FindVertex(vertex);
      if v == null {
        return false;
      }
      ghost var ls := LabelsOf(vertices);
      ghost var i := FindLabel(ls, vertex);
      forall j | 0 <= j < i ensures vertices[j] != v {
        assert ls[j] != vertex;
      }
      RemoveFirstAt(vertices, v, i);
      Delete(v, i, vertex);
      forall u | u in vertices ensures u.edges == Unlinked(old(u.edges), vertex) {
        var a :| 0 <= a < |vertices| && vertices[a] == u;
        assert u == old(Cut(vertices, i)[a]);
      }
      return true;
    }

    /** The part of `remove` after the vertex is found at position i: take it
        out of the list, then filter the edge list of every remaining vertex. */
    method Delete(v: Vertex, ghost i: nat, vertex: Label)
      requires Valid() && i < |vertices| && v == vertices[i] && vertices[i].name == vertex
      requires RemoveFirst(vertices, v) == Cut(vertices, i)
      modifies Repr
      ensures Valid() && Repr == old(Repr)
      ensures vertices == Cut(old(vertices), i)
      ensures Adjacency == DetachEach(Cut(old(Adjacency), i), vertex)
      ensures forall a :: 0 <= a < |vertices| ==> vertices[a].edges == Unlinked(old(Cut(vertices, i)[a].edges), vertex)
      ensures Abstraction() == View(old(Abstraction()).vertices - {vertex}, Strip(old(Abstraction()).edges, vertex))
    {
      CutReady(i);
      CutLabelSet(LabelsOf(vertices), i);
      RemoveKeeps(LabelsOf(vertices), Adjacency, i);
      vertices := RemoveFirst(vertices, v);
      Adjacency := DetachEach(Cut(Adjacency, i), vertex);
      UnlinkEach(vertices, Cut(old(Adjacency), i), vertex);
    }

    /** vertices: the labels collected into a set. */
    method Vertices() returns (r: set<Label>)
      ensures r == Abstraction().vertices
    {
      r := {};
      for i := 0 to |vertices|
        invariant r == LabelSet(LabelsOf(vertices)[..i])
      {
        assert LabelsOf(vertices)[..i + 1] == LabelsOf(vertices)[..i] + [vertices[i].name];
        r := r + {vertices[i].name};
      }
      assert LabelsOf(vertices)[..|vertices|] == LabelsOf(vertices);
    }

    /** sources: every edge of every vertex whose target matches, put into the
        result map by source. */
    method Sources(target: Label) returns (m: map<Label, int>)
      requires Valid()
      ensures Functional(Abstraction().edges)
      ensures m == SourcesOf(Abstraction().edges, target)
    {
      WellFormedFunctional(LabelsOf(vertices), Adjacency);
      m := CollectSources(vertices, Adjacency, target);
    }

    /** targets: every edge of every vertex whose source matches, put into the
        result map by target. */
    method Targets(source: Label) returns (m: map<Label, int>)
      requires Valid()
      ensures Functional(Abstraction().edges)
      ensures m == TargetsOf(Abstraction().edges, source)
    {
      WellFormedFunctional(LabelsOf(vertices), Adjacency);
      m := CollectTargets(vertices, Adjacency, source);
    }

    /** Cutting vertex i out of the list keeps the objects distinct, each
        remaining list mirroring its row, and all of them in Repr. */
    lemma CutReady(i: nat)
      requires Valid() && i < |vertices|
      ensures LabelsOf(Cut(vertices, i)) == Cut(LabelsOf(vertices), i)
      ensures forall a, b :: 0 <= a < b < |vertices| - 1 ==> Cut(vertices, i)[a] != Cut(vertices, i)[b]
      ensures forall a :: 0 <= a < |vertices| - 1 ==>
        Cut(vertices, i)[a] in Repr &&
        Mirrors(Cut(vertices, i)[a].edges, Cut(Adjacency, i)[a]) &&
        forall j :: 0 <= j < |Cut(vertices, i)[a].edges| ==> Cut(vertices, i)[a].edges[j] in Repr
    {
      var cut := Cut(vertices, i);
      var ls := LabelsOf(vertices);
      assert LabelsOf(cut) == Cut(ls, i);
      CutDistinct(ls, i);
      forall a, b | 0 <= a < b < |cut| ensures cut[a] != cut[b] {
        assert LabelsOf(cut)[a] != LabelsOf(cut)[b];
      }
      forall a | 0 <= a < |cut|
        ensures cut[a] in Repr
        ensures Mirrors(cut[a].edges, Cut(Adjacency, i)[a])
        ensures forall j :: 0 <= j < |cut[a].edges| ==> cut[a].edges[j] in Repr
      {
        var b := if a < i then a else a + 1;
        assert cut[a] == vertices[b] && Cut(Adjacency, i)[a] == Adjacency[b];
      }
    }

    /** No edge object but the one at (i, k) is the edge at (i, k): all stored
        pairs differ and an object's endpoints are fixed. */
    lemma SingleOwner(i: nat, k: nat)
      requires Valid() && i < |vertices| && k < |vertices[i].edges|
      ensures forall a, j :: 0 <= a < |vertices| && 0 <= j < |vertices[a].edges| && (a, j) != (i, k) ==>
        vertices[a].edges[j] != vertices[i].edges[k]
    {
      var ls := LabelsOf(vertices);
      forall a, j | 0 <= a < |vertices| && 0 <= j < |vertices[a].edges| && (a, j) != (i, k)
        ensures vertices[a].edges[j] != vertices[i].edges[k]
      {
        assert vertices[a].edges[j].Record() == Adjacency[a][j];
        assert vertices[i].edges[k].Record() == Adjacency[i][k];
        if a != i {
          assert Adjacency[a][j].source == ls[a] != ls[i] == Adjacency[i][k].source;
        } else if j < k {
          assert !SamePair(Adjacency[i][k], Adjacency[i][j].source, Adjacency[i][j].target);
        } else {
          assert !SamePair(Adjacency[i][j], Adjacency[i][k].source, Adjacency[i][k].target);
        }
      }
    }

    /** No vertex object but the one at i is the vertex at i: labels are unique. */
    lemma SingleVertex(i: nat)
      requires Valid() && i < |vertices|
      ensures forall a :: 0 <= a < |vertices| && a != i ==> vertices[a] != vertices[i]
    {
      var ls := LabelsOf(vertices);
      forall a | 0 <= a < |vertices| && a != i ensures vertices[a] != vertices[i] {
        assert ls[a] != ls[i];
      }
    }
  }
}
