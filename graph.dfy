/**
 The value-level view shared by both graph representations: the records that a
 stored edge denotes, the edit that `set` makes to a list of edges, the cascade
 that `remove` makes, and the maps that `sources` and `targets` return.
 */
module Graph {

  /** Vertex labels are Java strings. */
  type Label = string

  /** A copy of one stored edge: its two endpoints and its current weight. */
  datatype EdgeRecord = EdgeRecord(source: Label, target: Label, weight: int)

  /** Outcome of an operation that may throw IllegalArgumentException. */
  datatype Result<T> = Ok(value: T) | Failure(message: string)

  /** The abstract state of a graph: its vertex set and the set of its edges. */
  datatype View = View(vertices: set<Label>, edges: set<EdgeRecord>)

  predicate SamePair(e: EdgeRecord, s: Label, t: Label) {
    e.source == s && e.target == t
  }

  /** Does the edge have `l` as its source or its target? */
  predicate Touches(e: EdgeRecord, l: Label) {
    e.source == l || e.target == l
  }

  /** At most one record per ordered pair in a list of edges. */
  predicate UniquePairs(rs: seq<EdgeRecord>) {
    forall i, j :: 0 <= i < j < |rs| ==> !SamePair(rs[j], rs[i].source, rs[i].target)
  }

  /** At most one record per ordered pair in a set of edges. */
  predicate Functional(es: set<EdgeRecord>) {
    forall e, f :: e in es && f in es && SamePair(f, e.source, e.target) ==> e == f
  }

  function Elements(rs: seq<EdgeRecord>): set<EdgeRecord> {
    set e | e in rs
  }

  /** Every edge has both endpoints in `vs`. */
  predicate Integral(vs: set<Label>, es: set<EdgeRecord>) {
    forall e :: e in es ==> e.source in vs && e.target in vs
  }

  // ---------------------------------------------------------------------------
  // The scan that `set` performs: the first edge for (s, t), front to back.

  function FindPair(rs: seq<EdgeRecord>, s: Label, t: Label): (k: nat)
    ensures k <= |rs|
    ensures k < |rs| ==> SamePair(rs[k], s, t)
    ensures forall j :: 0 <= j < k ==> !SamePair(rs[j], s, t)
  {
    if rs == [] then 0
    else if SamePair(rs[0], s, t) then 0
    else 1 + FindPair(rs[1..], s, t)
  }

  /** The list after set(s, t, w): the matching edge gets weight w where it
      stands, or a new edge is appended at the end. */
  function Upsert(rs: seq<EdgeRecord>, s: Label, t: Label, w: int): (r: seq<EdgeRecord>)
    ensures |r| == |rs| || (|r| == |rs| + 1 && r[|rs|] == EdgeRecord(s, t, w))
    ensures |r| == |rs| + 1 <==> forall j :: 0 <= j < |rs| ==> !SamePair(rs[j], s, t)
    ensures EdgeRecord(s, t, w) in r
    ensures forall i :: 0 <= i < |rs| && !SamePair(rs[i], s, t) ==> r[i] == rs[i]
  {
    var k := FindPair(rs, s, t);
    if k < |rs| then
      var r := rs[k := EdgeRecord(s, t, w)];
      assert r[k] == EdgeRecord(s, t, w);
      r
    else rs + [EdgeRecord(s, t, w)]
  }

  /** The weight the matching edge had before set(s, t, w), or 0 if there was none. */
  function PreviousWeight(rs: seq<EdgeRecord>, s: Label, t: Label): (r: int)
    ensures (forall j :: 0 <= j < |rs| ==> !SamePair(rs[j], s, t)) ==> r == 0
    ensures forall j :: 0 <= j < |rs| ==>
      (SamePair(rs[j], s, t) && (forall i :: 0 <= i < j ==> !SamePair(rs[i], s, t)) ==> r == rs[j].weight)
  {
    var k := FindPair(rs, s, t);
    if k < |rs| then rs[k].weight else 0
  }

  /** The edge set after set(s, t, w), independently of any list order. */
  function UpsertSet(es: set<EdgeRecord>, s: Label, t: Label, w: int): set<EdgeRecord> {
    WithoutPair(es, s, t) + {EdgeRecord(s, t, w)}
  }

  /** The edge set with any edge from s to t taken out. */
  function WithoutPair(es: set<EdgeRecord>, s: Label, t: Label): set<EdgeRecord> {
    set e | e in es && !SamePair(e, s, t)
  }

  /** remove's filter on a list of records: drop every edge that starts or ends
      at l, and keep the others. */
  function Detach(rs: seq<EdgeRecord>, l: Label): (r: seq<EdgeRecord>)
    ensures |r| <= |rs|
    ensures forall e :: e in r <==> e in rs && !Touches(e, l)
  {
    if rs == [] then []
    else (if Touches(rs[0], l) then [] else [rs[0]]) + Detach(rs[1..], l)
  }

  /** The edge set after removing vertex l, independently of any list order. */
  function Strip(es: set<EdgeRecord>, l: Label): set<EdgeRecord> {
    set e | e in es && !Touches(e, l)
  }

  // ---------------------------------------------------------------------------
  // The observers.

  /** m is what sources(t) must return: each edge into t, source mapped to weight. */
  predicate IsSourcesMap(es: set<EdgeRecord>, t: Label, m: map<Label, int>) {
    (forall e :: e in es && e.target == t ==> e.source in m && m[e.source] == e.weight) &&
    (forall s :: s in m ==> EdgeRecord(s, t, m[s]) in es)
  }

  /** m is what targets(s) must return: each edge out of s, target mapped to weight. */
  predicate IsTargetsMap(es: set<EdgeRecord>, s: Label, m: map<Label, int>) {
    (forall e :: e in es && e.source == s ==> e.target in m && m[e.target] == e.weight) &&
    (forall t :: t in m ==> EdgeRecord(s, t, m[t]) in es)
  }

  /** The weight of the one edge from s to t. */
  ghost function WeightOf(es: set<EdgeRecord>, s: Label, t: Label): (w: int)
    requires exists e :: e in es && SamePair(e, s, t)
    ensures EdgeRecord(s, t, w) in es
  {
    var e :| e in es && SamePair(e, s, t); e.weight
  }

  /** sources(t) of an edge set: each source of an edge into t, mapped to its weight. */
  ghost function SourcesOf(es: set<EdgeRecord>, t: Label): (m: map<Label, int>)
    requires Functional(es)
    ensures IsSourcesMap(es, t, m)
  {
    map s | s in (set e | e in es && e.target == t :: e.source) :: WeightOf(es, s, t)
  }

  /** targets(s) of an edge set: each target of an edge out of s, mapped to its weight. */
  ghost function TargetsOf(es: set<EdgeRecord>, s: Label): (m: map<Label, int>)
    requires Functional(es)
    ensures IsTargetsMap(es, s, m)
  {
    map t | t in (set e | e in es && e.source == s :: e.target) :: WeightOf(es, s, t)
  }

  /** The weight targets(s) reports for t, or 0 when t is not a target of s. */
  ghost function TargetWeight(es: set<EdgeRecord>, s: Label, t: Label): (w: int)
    requires Functional(es)
    ensures (exists e :: e in es && SamePair(e, s, t) && e.weight == w) ||
      (w == 0 && forall e :: e in es ==> !SamePair(e, s, t))
  {
    var m := TargetsOf(es, s);
    if t in m then m[t] else 0
  }

  /** The characterisation determines sources(t): no other map satisfies it. */
  lemma SourcesMapUnique(es: set<EdgeRecord>, t: Label, m: map<Label, int>)
    requires Functional(es) && IsSourcesMap(es, t, m)
    ensures m == SourcesOf(es, t)
  {
    var m' := SourcesOf(es, t);
    forall s | s in m ensures s in m' && m'[s] == m[s] {
      assert EdgeRecord(s, t, m[s]) in es;
    }
    forall s | s in m' ensures s in m {
      assert EdgeRecord(s, t, m'[s]) in es;
    }
  }

  /** The characterisation determines targets(s): no other map satisfies it. */
  lemma TargetsMapUnique(es: set<EdgeRecord>, s: Label, m: map<Label, int>)
    requires Functional(es) && IsTargetsMap(es, s, m)
    ensures m == TargetsOf(es, s)
  {
    var m' := TargetsOf(es, s);
    forall t | t in m ensures t in m' && m'[t] == m[t] {
      assert EdgeRecord(s, t, m[t]) in es;
    }
    forall t | t in m' ensures t in m {
      assert EdgeRecord(s, t, m'[t]) in es;
    }
  }

  // ---------------------------------------------------------------------------
  // Lemmas: the list edits agree with the set edits, and keep pairs unique.

  lemma UniqueFunctional(rs: seq<EdgeRecord>)
    requires UniquePairs(rs)
    ensures Functional(Elements(rs))
  {
    forall e, f | e in Elements(rs) && f in Elements(rs) && SamePair(f, e.source, e.target)
      ensures e == f
    {
      var i :| 0 <= i < |rs| && rs[i] == e;
      var j :| 0 <= j < |rs| && rs[j] == f;
      if i < j {
        assert false;
      } else if j < i {
        assert false;
      }
    }
  }

  lemma UpsertUnique(rs: seq<EdgeRecord>, s: Label, t: Label, w: int)
    requires UniquePairs(rs)
    ensures UniquePairs(Upsert(rs, s, t, w))
  {
    var k := FindPair(rs, s, t);
    var r := Upsert(rs, s, t, w);
    forall i, j | 0 <= i < j < |r| ensures !SamePair(r[j], r[i].source, r[i].target) {
      if k == |rs| && j == |rs| {
        assert !SamePair(rs[i], s, t);
      } else {
        assert SamePair(r[i], rs[i].source, rs[i].target) && SamePair(r[j], rs[j].source, rs[j].target);
      }
    }
  }

  lemma UpsertElements(rs: seq<EdgeRecord>, s: Label, t: Label, w: int)
    requires UniquePairs(rs)
    ensures Elements(Upsert(rs, s, t, w)) == UpsertSet(Elements(rs), s, t, w)
  {
    var k := FindPair(rs, s, t);
    var r := Upsert(rs, s, t, w);
    var n := EdgeRecord(s, t, w);
    forall e | e in Elements(r) ensures e in UpsertSet(Elements(rs), s, t, w) {
      var i :| 0 <= i < |r| && r[i] == e;
      if e != n {
        assert i < |rs| && i != k && rs[i] == e;
        if k < |rs| && SamePair(e, s, t) {
          assert false;
        }
      }
    }
    forall e | e in UpsertSet(Elements(rs), s, t, w) ensures e in Elements(r) {
      if e == n {
        assert r[if k < |rs| then k else |rs|] == n;
      } else {
        var i :| 0 <= i < |rs| && rs[i] == e;
        assert i != k;
        assert r[i] == e;
      }
    }
  }

  /** The filter keeps the surviving edges in their order: filtering a
      concatenation filters each part and concatenates the results. */
  lemma {:induction false} DetachConcat(a: seq<EdgeRecord>, b: seq<EdgeRecord>, l: Label)
    ensures Detach(a + b, l) == Detach(a, l) + Detach(b, l)
  {
    if a == [] {
      assert a + b == b;
    } else {
      assert (a + b)[1..] == a[1..] + b;
      DetachConcat(a[1..], b, l);
    }
  }

  lemma {:induction false} DetachUnique(rs: seq<EdgeRecord>, l: Label)
    requires UniquePairs(rs)
    ensures UniquePairs(Detach(rs, l))
  {
    if rs != [] {
      UniqueTail(rs);
      DetachUnique(rs[1..], l);
      if !Touches(rs[0], l) {
        UniqueCons(rs[0], Detach(rs[1..], l));
      }
    }
  }

  /** Dropping the head keeps pairs unique, and no later record has the head's pair. */
  lemma UniqueTail(rs: seq<EdgeRecord>)
    requires UniquePairs(rs) && rs != []
    ensures UniquePairs(rs[1..])
    ensures forall e :: e in rs[1..] ==> !SamePair(e, rs[0].source, rs[0].target)
  {
    var tail := rs[1..];
    forall i, j | 0 <= i < j < |tail| ensures !SamePair(tail[j], tail[i].source, tail[i].target) {
      assert tail[i] == rs[i + 1] && tail[j] == rs[j + 1];
    }
    forall e | e in tail ensures !SamePair(e, rs[0].source, rs[0].target) {
      var m :| 0 <= m < |tail| && tail[m] == e;
      assert rs[m + 1] == e;
    }
  }

  /** A record whose pair no later record has can be put in front. */
  lemma UniqueCons(x: EdgeRecord, d: seq<EdgeRecord>)
    requires UniquePairs(d)
    requires forall e :: e in d ==> !SamePair(e, x.source, x.target)
    ensures UniquePairs([x] + d)
  {
    var r := [x] + d;
    forall i, j | 0 <= i < j < |r| ensures !SamePair(r[j], r[i].source, r[i].target) {
      assert r[j] == d[j - 1];
      if i > 0 {
        assert r[i] == d[i - 1];
      }
    }
  }


  /** After set(s, t, w) the graph has the edge s -> t with weight w, no other
      edge from s to t, and every other edge it had before. */
  lemma UpsertSetMembers(es: set<EdgeRecord>, s: Label, t: Label, w: int)
    ensures EdgeRecord(s, t, w) in UpsertSet(es, s, t, w)
    ensures forall e :: e in UpsertSet(es, s, t, w) && SamePair(e, s, t) ==> e == EdgeRecord(s, t, w)
    ensures forall e :: !SamePair(e, s, t) ==> (e in UpsertSet(es, s, t, w) <==> e in es)
  {
  }

  /** After remove(l) the graph keeps exactly the edges that do not touch l. */
  lemma StripMembers(es: set<EdgeRecord>, l: Label)
    ensures Strip(es, l) <= es
    ensures forall e :: e in Strip(es, l) <==> e in es && !Touches(e, l)
  {
  }

  lemma DetachElements(rs: seq<EdgeRecord>, l: Label)
    ensures Elements(Detach(rs, l)) == Strip(Elements(rs), l)
  {
  }

  lemma UpsertSetFunctional(es: set<EdgeRecord>, s: Label, t: Label, w: int)
    requires Functional(es)
    ensures Functional(UpsertSet(es, s, t, w))
  {
  }

  lemma StripFunctional(es: set<EdgeRecord>, l: Label)
    requires Functional(es)
    ensures Functional(Strip(es, l))
  {
  }

  // ---------------------------------------------------------------------------
  // Lemmas: what the observers see after each edit.

  /** Recording one more edge updates sources(x) as a HashMap.put would. */
  lemma SourcesInsert(es: set<EdgeRecord>, e: EdgeRecord, x: Label)
    requires Functional(es + {e})
    ensures Functional(es)
    ensures SourcesOf(es + {e}, x) ==
      if e.target == x then SourcesOf(es, x)[e.source := e.weight] else SourcesOf(es, x)
  {
    assert Functional(es);
    var before, after := SourcesOf(es, x), es + {e};
    var m := if e.target == x then before[e.source := e.weight] else before;
    forall f | f in after && f.target == x ensures f.source in m && m[f.source] == f.weight {
    }
    SourcesMapUnique(after, x, m);
  }

  /** Recording one more edge updates targets(x) as a HashMap.put would. */
  lemma TargetsInsert(es: set<EdgeRecord>, e: EdgeRecord, x: Label)
    requires Functional(es + {e})
    ensures Functional(es)
    ensures TargetsOf(es + {e}, x) ==
      if e.source == x then TargetsOf(es, x)[e.target := e.weight] else TargetsOf(es, x)
  {
    assert Functional(es);
    var before, after := TargetsOf(es, x), es + {e};
    var m := if e.source == x then before[e.target := e.weight] else before;
    forall f | f in after && f.source == x ensures f.target in m && m[f.target] == f.weight {
    }
    TargetsMapUnique(after, x, m);
  }

  /** After set(s, t, w): sources(t) maps s to w, and every other entry of
      every sources map is what it was. */
  lemma SetSources(es: set<EdgeRecord>, s: Label, t: Label, w: int, x: Label)
    requires Functional(es)
    ensures Functional(UpsertSet(es, s, t, w))
    ensures SourcesOf(UpsertSet(es, s, t, w), x) ==
      if x == t then SourcesOf(es, x)[s := w] else SourcesOf(es, x)
  {
    UpsertSetFunctional(es, s, t, w);
    SourcesInsert(WithoutPair(es, s, t), EdgeRecord(s, t, w), x);
    KeptSources(es, s, t, x);
    if x == t {
      assert (SourcesOf(es, x) - {s})[s := w] == SourcesOf(es, x)[s := w];
    }
  }

  /** After set(s, t, w): targets(s) maps t to w, and every other entry of
      every targets map is what it was. */
  lemma SetTargets(es: set<EdgeRecord>, s: Label, t: Label, w: int, x: Label)
    requires Functional(es)
    ensures Functional(UpsertSet(es, s, t, w))
    ensures TargetsOf(UpsertSet(es, s, t, w), x) ==
      if x == s then TargetsOf(es, x)[t := w] else TargetsOf(es, x)
  {
    UpsertSetFunctional(es, s, t, w);
    TargetsInsert(WithoutPair(es, s, t), EdgeRecord(s, t, w), x);
    KeptTargets(es, s, t, x);
    if x == s {
      assert (TargetsOf(es, x) - {t})[t := w] == TargetsOf(es, x)[t := w];
    }
  }

  /** Dropping the edge (s, t) drops s from sources(t). */
  lemma KeptSources(es: set<EdgeRecord>, s: Label, t: Label, x: Label)
    requires Functional(es)
    ensures Functional(WithoutPair(es, s, t))
    ensures SourcesOf(WithoutPair(es, s, t), x) ==
      if x == t then SourcesOf(es, x) - {s} else SourcesOf(es, x)
  {
    var kept := WithoutPair(es, s, t);
    assert Functional(kept);
    var m := if x == t then SourcesOf(es, x) - {s} else SourcesOf(es, x);
    assert IsSourcesMap(kept, x, m);
    SourcesMapUnique(kept, x, m);
  }

  /** Dropping the edge (s, t) drops t from targets(s). */
  lemma KeptTargets(es: set<EdgeRecord>, s: Label, t: Label, x: Label)
    requires Functional(es)
    ensures Functional(WithoutPair(es, s, t))
    ensures TargetsOf(WithoutPair(es, s, t), x) ==
      if x == s then TargetsOf(es, x) - {t} else TargetsOf(es, x)
  {
    var kept := WithoutPair(es, s, t);
    assert Functional(kept);
    var m := if x == s then TargetsOf(es, x) - {t} else TargetsOf(es, x);
    assert IsTargetsMap(kept, x, m);
    TargetsMapUnique(kept, x, m);
  }

  /** After remove(l): l has no sources and is a source of nothing, and every
      other entry of every sources map is what it was. */
  lemma RemoveSources(es: set<EdgeRecord>, l: Label, x: Label)
    requires Functional(es)
    ensures Functional(Strip(es, l))
    ensures SourcesOf(Strip(es, l), x) == if x == l then map[] else SourcesOf(es, x) - {l}
  {
    StripFunctional(es, l);
    var m: map<Label, int> := if x == l then map[] else SourcesOf(es, x) - {l};
    assert IsSourcesMap(Strip(es, l), x, m);
    SourcesMapUnique(Strip(es, l), x, m);
  }

  /** After remove(l): l has no targets and is a target of nothing, and every
      other entry of every targets map is what it was. */
  lemma RemoveTargets(es: set<EdgeRecord>, l: Label, x: Label)
    requires Functional(es)
    ensures Functional(Strip(es, l))
    ensures TargetsOf(Strip(es, l), x) == if x == l then map[] else TargetsOf(es, x) - {l}
  {
    StripFunctional(es, l);
    var m: map<Label, int> := if x == l then map[] else TargetsOf(es, x) - {l};
    assert IsTargetsMap(Strip(es, l), x, m);
    TargetsMapUnique(Strip(es, l), x, m);
  }

  // ---------------------------------------------------------------------------
  // Lemmas used by the scanning loops of the observers.

  lemma ElementsSnoc(rs: seq<EdgeRecord>, i: nat)
    requires i < |rs|
    ensures Elements(rs[..i + 1]) == Elements(rs[..i]) + {rs[i]}
  {
    assert rs[..i + 1] == rs[..i] + [rs[i]];
  }

  /** One step of a scan that puts the stored edges of a list into a result map,
      in list order, on top of the edges `done` already scanned. */
  lemma ScanStep(done: set<EdgeRecord>, rs: seq<EdgeRecord>, j: nat, x: Label)
    requires j < |rs| && Functional(done + Elements(rs))
    ensures Functional(done + Elements(rs[..j])) && Functional(done + Elements(rs[..j + 1]))
    ensures SourcesOf(done + Elements(rs[..j + 1]), x) ==
      if rs[j].target == x then SourcesOf(done + Elements(rs[..j]), x)[rs[j].source := rs[j].weight]
      else SourcesOf(done + Elements(rs[..j]), x)
    ensures TargetsOf(done + Elements(rs[..j + 1]), x) ==
      if rs[j].source == x then TargetsOf(done + Elements(rs[..j]), x)[rs[j].target := rs[j].weight]
      else TargetsOf(done + Elements(rs[..j]), x)
  {
    ElementsSnoc(rs, j);
    forall e | e in Elements(rs[..j + 1]) ensures e in Elements(rs) {
      var k :| 0 <= k < j + 1 && rs[..j + 1][k] == e;
      assert rs[k] == e;
    }
    assert done + Elements(rs[..j + 1]) == (done + Elements(rs[..j])) + {rs[j]};
    FunctionalSubset(done + Elements(rs[..j + 1]), done + Elements(rs));
    SourcesInsert(done + Elements(rs[..j]), rs[j], x);
    TargetsInsert(done + Elements(rs[..j]), rs[j], x);
  }

  lemma FunctionalSubset(small: set<EdgeRecord>, big: set<EdgeRecord>)
    requires Functional(big) && small <= big
    ensures Functional(small)
  {
  }
}
