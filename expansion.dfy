/** What one node expansion (RecursiveGraphGenerator._expand_node) does to the
    global adjacency table, the invariants build keeps across expansions, and
    the bookkeeping of build's work queue. */
module Expansion {
  import opened Graphs
  import opened Template
  import opened Reach

  /** mapping[t] of an expansion of x whose fresh ids start at base: the
      template start becomes x, template node t > 0 becomes base + t - 1. */
  function MapId(x: Node, base: Node, t: Node): Node
  {
    if t == 0 then x else base + t - 1
  }

  /** The template node an expanded id comes from (0 for x and for old ids). */
  function Origin(x: Node, base: Node, v: Node): Node
  {
    if v == x || v < base then 0 else v - base + 1
  }

  lemma MapIdInjective(x: Node, base: Node, s: Node, t: Node)
    requires x < base
    ensures MapId(x, base, s) == MapId(x, base, t) <==> s == t
  {
  }

  /** A template row with every destination replaced by its global id. */
  function Remap(es: seq<Edge>, x: Node, base: Node): (r: seq<Edge>)
    ensures |r| == |es|
    decreases |es|
  {
    if es == [] then []
    else Remap(es[..|es| - 1], x, base) + [Edge(MapId(x, base, es[|es| - 1].dst), es[|es| - 1].weight)]
  }

  lemma {:induction false} RemapAt(es: seq<Edge>, x: Node, base: Node)
    ensures forall j :: 0 <= j < |es| ==> Remap(es, x, base)[j] == Edge(MapId(x, base, es[j].dst), es[j].weight)
    decreases |es|
  {
    if es != [] {
      RemapAt(es[..|es| - 1], x, base);
    }
  }

  /** A remapped template row of node t keeps its weights, points into the
      copy, has no edge back to the copy of t and no repeated destination. */
  lemma RemapFits(n: nat, maxEdges: int, spec: WeightSpec, tpl: Adj, x: Node, base: Node, t: Node)
    requires IsTemplate(n, maxEdges, spec, tpl) && t < n && x < base
    ensures forall e :: e in Remap(tpl[t], x, base) ==>
              && e.dst != MapId(x, base, t)
              && (e.dst == x || base <= e.dst < base + n - 1)
              && Possible(spec, e.weight)
    ensures DistinctDests(Remap(tpl[t], x, base))
  {
    var es := tpl[t];
    var r := Remap(es, x, base);
    RemapAt(es, x, base);
    forall e | e in r
      ensures && e.dst != MapId(x, base, t)
              && (e.dst == x || base <= e.dst < base + n - 1)
              && Possible(spec, e.weight)
    {
      var j :| 0 <= j < |r| && r[j] == e;
      assert es[j] in tpl[t];
      if e.dst == MapId(x, base, t) {
        MapIdInjective(x, base, es[j].dst, t);
      }
    }
    forall i, j | 0 <= i < j < |r| ensures r[i].dst != r[j].dst {
      if r[i].dst == r[j].dst {
        MapIdInjective(x, base, es[i].dst, es[j].dst);
      }
    }
  }

  /** The table r after expanding x in g with fresh ids base, base + 1, ...:
      the copy of template node t holds t's remapped edges, the copy's end also
      x's previous out-edges, and every other node is as it was. */
  ghost predicate ExpandedFrom(tpl: Adj, n: nat, g: Adj, x: Node, base: Node, r: Adj)
    requires n >= 2 && forall t: Node :: t in tpl <==> t < n
  {
    && (forall v: Node :: v in r <==> v in g || v == x || base <= v < base + n - 1)
    && (forall t: Node {:trigger tpl[t]} {:trigger r[MapId(x, base, t)]} :: t < n ==>
          r[MapId(x, base, t)] == Remap(tpl[t], x, base) + (if t == n - 1 then Out(g, x) else []))
    && (forall v {:trigger r[v]} {:trigger g[v]} :: v in g && v != x && v < base ==> r[v] == g[v])
  }

  /** The cloning loop over g with x's row cleared, before template row t:
      rows below t are cloned into their copies, x's row is still empty, and
      every other row is as in g. */
  ghost predicate ClonedBelow(tpl: Adj, n: nat, x: Node, base: Node, g: Adj, c: Adj, t: nat)
    requires n >= 2 && (forall s: Node :: s in tpl <==> s < n) && t <= n
  {
    && (forall v: Node :: v in c <==> v in g || v == x || base <= v < base + t - 1)
    && (t == 0 ==> c[x] == [])
    && (forall s: Node {:trigger tpl[s]} {:trigger c[MapId(x, base, s)]} :: s < t ==> c[MapId(x, base, s)] == Remap(tpl[s], x, base))
    && (forall v {:trigger c[v]} {:trigger g[v]} :: v in g && v != x ==> c[v] == g[v])
  }

  /** setdefault finds the copy's row empty: x's row was cleared, a fresh id is new. */
  lemma ClonedStart(tpl: Adj, n: nat, x: Node, base: Node, g: Adj, c: Adj, t: nat)
    requires n >= 2 && (forall s: Node :: s in tpl <==> s < n) && t < n
    requires x < base && (forall v :: v in g ==> v < base)
    requires ClonedBelow(tpl, n, x, base, g, c, t)
    ensures (if MapId(x, base, t) in c then c[MapId(x, base, t)] else []) == []
  {
  }

  lemma ClonedStep(tpl: Adj, n: nat, x: Node, base: Node, g: Adj, c: Adj, t: nat)
    requires n >= 2 && (forall s: Node :: s in tpl <==> s < n) && t < n
    requires x < base && (forall v :: v in g ==> v < base)
    requires ClonedBelow(tpl, n, x, base, g, c, t)
    ensures ClonedBelow(tpl, n, x, base, g, c[MapId(x, base, t) := Remap(tpl[t], x, base)], t + 1)
  {
    var c' := c[MapId(x, base, t) := Remap(tpl[t], x, base)];
    forall s: Node | s < t
      ensures MapId(x, base, s) in c && c[MapId(x, base, s)] == Remap(tpl[s], x, base)
    {
    }
    ClonedRowsStep(tpl, n, x, base, c, t);
    forall v | v in g && v != x
      ensures c'[v] == g[v]
    {
      assert v != MapId(x, base, t) && c[v] == g[v];
    }
    forall v: Node
      ensures v in c' <==> v in g || v == x || base <= v < base + (t + 1) - 1
    {
    }
  }

  lemma ClonedRowsStep(tpl: Adj, n: nat, x: Node, base: Node, c: Adj, t: nat)
    requires (forall s: Node :: s in tpl <==> s < n) && t < n && x < base
    requires forall s: Node {:trigger tpl[s]} {:trigger c[MapId(x, base, s)]} :: s < t ==>
               MapId(x, base, s) in c && c[MapId(x, base, s)] == Remap(tpl[s], x, base)
    ensures var c' := c[MapId(x, base, t) := Remap(tpl[t], x, base)];
            forall s: Node {:trigger tpl[s]} {:trigger c'[MapId(x, base, s)]} :: s < t + 1 ==>
              MapId(x, base, s) in c' && c'[MapId(x, base, s)] == Remap(tpl[s], x, base)
  {
    var c' := c[MapId(x, base, t) := Remap(tpl[t], x, base)];
    forall s: Node | s < t + 1 ensures c'[MapId(x, base, s)] == Remap(tpl[s], x, base) {
      MapIdInjective(x, base, s, t);
    }
  }

  /** After the last row and the move of x's old edges to the copy's end, the table is expanded. */
  lemma ClonedExpanded(tpl: Adj, n: nat, x: Node, base: Node, g: Adj, c: Adj, subEnd: Node, outgoing: seq<Edge>)
    requires n >= 2 && (forall s: Node :: s in tpl <==> s < n)
    requires x < base && tpl[n - 1] == []
    requires ClonedBelow(tpl, n, x, base, g, c, n)
    requires subEnd == base + n - 2 && outgoing == Out(g, x)
    ensures subEnd in c
    ensures ExpandedFrom(tpl, n, g, x, base, c[subEnd := c[subEnd] + outgoing])
  {
    assert MapId(x, base, n - 1) == subEnd;
    var r := c[subEnd := c[subEnd] + outgoing];
    ClonedRows(tpl, n, x, base, g, c, subEnd, outgoing, r);
    forall v | v in g && v != x && v < base
      ensures r[v] == g[v]
    {
      assert v != subEnd && c[v] == g[v];
    }
  }

  lemma ClonedRows(tpl: Adj, n: nat, x: Node, base: Node, g: Adj, c: Adj, subEnd: Node, outgoing: seq<Edge>, r: Adj)
    requires n >= 2 && (forall s: Node :: s in tpl <==> s < n)
    requires x < base && tpl[n - 1] == []
    requires ClonedBelow(tpl, n, x, base, g, c, n)
    requires subEnd == base + n - 2 && outgoing == Out(g, x) && r == c[subEnd := c[subEnd] + outgoing]
    ensures forall t: Node {:trigger tpl[t]} {:trigger r[MapId(x, base, t)]} :: t < n ==>
              r[MapId(x, base, t)] == Remap(tpl[t], x, base) + (if t == n - 1 then Out(g, x) else [])
  {
    forall t: Node | t < n
      ensures r[MapId(x, base, t)] == Remap(tpl[t], x, base) + (if t == n - 1 then Out(g, x) else [])
    {
      if t == n - 1 {
        assert MapId(x, base, t) == subEnd;
        assert c[subEnd] == Remap(tpl[t], x, base);
      } else {
        MapIdInjective(x, base, t, n - 1);
        assert r[MapId(x, base, t)] == Remap(tpl[t], x, base);
        assert Remap(tpl[t], x, base) + [] == Remap(tpl[t], x, base);
      }
    }
  }

  /** The invariants of the table build grows: every id is below the id
      counter, start 0 and the current end are nodes, the end is a sink,
      there are no self-loops, repeated destinations or dangling ids, every
      weight is one the sampler can draw, and the end is reachable from 0. */
  ghost predicate Grown(spec: WeightSpec, g: Adj, end: Node, next: Node)
  {
    && (forall v :: v in g ==> v < next)
    && 0 in g && end in g && g[end] == []
    && NoSelfLoops(g) && NoDuplicateDests(g) && NoDanglingIds(g)
    && (forall u, e {:trigger e in g[u]} :: u in g && e in g[u] ==> Possible(spec, e.weight))
    && Reaches(g, 0, end)
  }

  /** Each row of an expanded table is an old row or a (possibly extended) remapped template row. */
  lemma ExpandedRow(n: nat, maxEdges: int, spec: WeightSpec, tpl: Adj, g: Adj, end: Node, x: Node, base: Node, r: Adj, v: Node)
    requires IsTemplate(n, maxEdges, spec, tpl) && Grown(spec, g, end, base) && x in g
    requires ExpandedFrom(tpl, n, g, x, base, r) && v in r
    ensures v in g && v != x ==> v < base && r[v] == g[v]
    ensures !(v in g && v != x) ==>
              && Origin(x, base, v) < n && MapId(x, base, Origin(x, base, v)) == v
              && r[v] == Remap(tpl[Origin(x, base, v)], x, base)
                         + (if Origin(x, base, v) == n - 1 then Out(g, x) else [])
  {
  }

  /** The template's end row is empty, so the copy's end holds exactly x's old edges. */
  lemma ExpandedEnd(n: nat, maxEdges: int, spec: WeightSpec, tpl: Adj, g: Adj, x: Node, base: Node, r: Adj)
    requires IsTemplate(n, maxEdges, spec, tpl) && x in g
    requires ExpandedFrom(tpl, n, g, x, base, r)
    ensures r[base + n - 2] == g[x]
  {
    assert MapId(x, base, n - 1) == base + n - 2;
    assert Remap(tpl[n - 1], x, base) == [];
  }

  lemma ExpandedKeys(n: nat, maxEdges: int, spec: WeightSpec, tpl: Adj, g: Adj, end: Node, x: Node, base: Node, r: Adj)
    requires IsTemplate(n, maxEdges, spec, tpl) && Grown(spec, g, end, base) && x in g
    requires ExpandedFrom(tpl, n, g, x, base, r)
    ensures forall v: Node :: v in r <==> v in g || base <= v < base + n - 1
    ensures |r.Keys| == |g.Keys| + (n - 1)
  {
    var ids := Ids(base, n - 1);
    assert r.Keys == g.Keys + ids;
    assert g.Keys * ids == {};
  }

  /** The k consecutive ids starting at base, in increasing order: the
      inner nodes of an expansion whose fresh ids start at base. */
  function FreshIds(base: Node, k: nat): (r: seq<Node>)
    ensures |r| == k && forall i :: 0 <= i < k ==> r[i] == base + i
  {
    if k == 0 then [] else FreshIds(base, k - 1) + [base + k - 1]
  }

  /** The k consecutive ids starting at base, as a set. */
  function Ids(base: Node, k: nat): (r: set<Node>)
    ensures forall v: Node :: v in r <==> base <= v < base + k
    ensures |r| == k
  {
    if k == 0 then {} else Ids(base, k - 1) + {base + k - 1}
  }

  /** Each row of an expanded table has distinct destinations, none of them
      the row's own node, all of them nodes, at weights the sampler can draw. */
  lemma ExpandedRowFits(n: nat, maxEdges: int, spec: WeightSpec, tpl: Adj, g: Adj, end: Node, x: Node, base: Node, r: Adj, u: Node)
    requires IsTemplate(n, maxEdges, spec, tpl) && Grown(spec, g, end, base) && x in g
    requires ExpandedFrom(tpl, n, g, x, base, r) && u in r
    ensures DistinctDests(r[u])
    ensures forall e :: e in r[u] ==> e.dst != u && e.dst in r && Possible(spec, e.weight)
  {
    if u in g && u != x {
      OldRowFits(n, maxEdges, spec, tpl, g, end, x, base, r, u);
    } else if Origin(x, base, u) == n - 1 {
      EndCopyFits(n, maxEdges, spec, tpl, g, end, x, base, r, u);
    } else {
      InnerCopyFits(n, maxEdges, spec, tpl, g, end, x, base, r, u);
    }
  }

  lemma OldRowFits(n: nat, maxEdges: int, spec: WeightSpec, tpl: Adj, g: Adj, end: Node, x: Node, base: Node, r: Adj, u: Node)
    requires IsTemplate(n, maxEdges, spec, tpl) && Grown(spec, g, end, base) && x in g
    requires ExpandedFrom(tpl, n, g, x, base, r) && u in r && u in g && u != x
    ensures DistinctDests(r[u])
    ensures forall e :: e in r[u] ==> e.dst != u && e.dst in r && Possible(spec, e.weight)
  {
    ExpandedRow(n, maxEdges, spec, tpl, g, end, x, base, r, u);
    MovedRowFits(spec, g, r, u, u, base);
  }

  lemma EndCopyFits(n: nat, maxEdges: int, spec: WeightSpec, tpl: Adj, g: Adj, end: Node, x: Node, base: Node, r: Adj, u: Node)
    requires IsTemplate(n, maxEdges, spec, tpl) && Grown(spec, g, end, base) && x in g
    requires ExpandedFrom(tpl, n, g, x, base, r) && u in r && !(u in g && u != x)
    requires Origin(x, base, u) == n - 1
    ensures DistinctDests(r[u])
    ensures forall e :: e in r[u] ==> e.dst != u && e.dst in r && Possible(spec, e.weight)
  {
    ExpandedRow(n, maxEdges, spec, tpl, g, end, x, base, r, u);
    ExpandedEnd(n, maxEdges, spec, tpl, g, x, base, r);
    MovedRowFits(spec, g, r, x, u, base);
  }

  lemma InnerCopyFits(n: nat, maxEdges: int, spec: WeightSpec, tpl: Adj, g: Adj, end: Node, x: Node, base: Node, r: Adj, u: Node)
    requires IsTemplate(n, maxEdges, spec, tpl) && Grown(spec, g, end, base) && x in g
    requires ExpandedFrom(tpl, n, g, x, base, r) && u in r && !(u in g && u != x)
    requires Origin(x, base, u) != n - 1
    ensures DistinctDests(r[u])
    ensures forall e :: e in r[u] ==> e.dst != u && e.dst in r && Possible(spec, e.weight)
  {
    ExpandedRow(n, maxEdges, spec, tpl, g, end, x, base, r, u);
    ExpandedKeys(n, maxEdges, spec, tpl, g, end, x, base, r);
    var t := Origin(x, base, u);
    RemapFits(n, maxEdges, spec, tpl, x, base, t);
    assert Remap(tpl[t], x, base) + [] == Remap(tpl[t], x, base);
    CopyRowFits(n, spec, r, x, base, u, Remap(tpl[t], x, base));
  }

  /** A row of g that r holds at u, where u is v itself or a fresh id. */
  lemma MovedRowFits(spec: WeightSpec, g: Adj, r: Adj, v: Node, u: Node, base: Node)
    requires v in g && u in r && r[u] == g[v] && (u == v || forall w :: w in g ==> w < base <= u)
    requires NoSelfLoops(g) && NoDuplicateDests(g) && NoDanglingIds(g)
    requires forall w, e {:trigger e in g[w]} :: w in g && e in g[w] ==> Possible(spec, e.weight)
    requires forall w :: w in g ==> w in r
    ensures DistinctDests(r[u])
    ensures forall e :: e in r[u] ==> e.dst != u && e.dst in r && Possible(spec, e.weight)
  {
    assert DistinctDests(g[v]);
    forall e | e in r[u]
      ensures e.dst != u && e.dst in r && Possible(spec, e.weight)
    {
      assert e in g[v] && e.dst in g;
    }
  }

  /** A remapped template row at its copy u. */
  lemma CopyRowFits(n: nat, spec: WeightSpec, r: Adj, x: Node, base: Node, u: Node, row: seq<Edge>)
    requires u in r && r[u] == row && DistinctDests(row)
    requires x in r && forall v: Node :: base <= v < base + n - 1 ==> v in r
    requires forall e :: e in row ==> e.dst != u && (e.dst == x || base <= e.dst < base + n - 1) && Possible(spec, e.weight)
    ensures DistinctDests(r[u])
    ensures forall e :: e in r[u] ==> e.dst != u && e.dst in r && Possible(spec, e.weight)
  {
  }

  lemma ExpandedShape(n: nat, maxEdges: int, spec: WeightSpec, tpl: Adj, g: Adj, end: Node, x: Node, base: Node, r: Adj)
    requires IsTemplate(n, maxEdges, spec, tpl) && Grown(spec, g, end, base) && x in g
    requires ExpandedFrom(tpl, n, g, x, base, r)
    ensures NoSelfLoops(r) && NoDuplicateDests(r) && NoDanglingIds(r)
    ensures forall u, e {:trigger e in r[u]} :: u in r && e in r[u] ==> Possible(spec, e.weight)
  {
    forall u | u in r
      ensures DistinctDests(r[u])
      ensures forall e :: e in r[u] ==> e.dst != u && e.dst in r && Possible(spec, e.weight)
    {
      ExpandedRowFits(n, maxEdges, spec, tpl, g, end, x, base, r, u);
    }
  }

  /** Along the copy's backbone, the copy of every template node is reachable from x. */
  lemma {:induction false} CopyBackbone(n: nat, maxEdges: int, spec: WeightSpec, tpl: Adj, g: Adj, x: Node, base: Node, r: Adj, t: Node)
    requires IsTemplate(n, maxEdges, spec, tpl) && x in g && x < base
    requires ExpandedFrom(tpl, n, g, x, base, r) && t < n
    ensures Reaches(r, x, MapId(x, base, t))
    decreases t
  {
    if t == 0 {
      ReachesSelf(r, x);
    } else {
      var s := t - 1;
      CopyBackbone(n, maxEdges, spec, tpl, g, x, base, r, s);
      RemapAt(tpl[s], x, base);
      var e := Remap(tpl[s], x, base)[0];
      assert e.dst == MapId(x, base, t);
      assert s != n - 1;
      assert e in Out(r, MapId(x, base, s));
      ReachesStep(r, x, MapId(x, base, s), e);
    }
  }

  /** An edge u -> v of g can still be walked after the expansion: directly,
      or through the copy's backbone when u is the expanded node. */
  lemma ExpandedCarriesEdge(n: nat, maxEdges: int, spec: WeightSpec, tpl: Adj, g: Adj, x: Node, base: Node, r: Adj,
                            u: Node, e: Edge)
    requires IsTemplate(n, maxEdges, spec, tpl) && x in g && x < base && (forall v :: v in g ==> v < base)
    requires ExpandedFrom(tpl, n, g, x, base, r) && e in Out(g, u)
    ensures Reaches(r, u, e.dst)
  {
    if u == x {
      CopyBackbone(n, maxEdges, spec, tpl, g, x, base, r, n - 1);
      ExpandedEnd(n, maxEdges, spec, tpl, g, x, base, r);
      ReachesStep(r, x, base + n - 2, e);
    } else {
      assert Out(r, u) == Out(g, u);
      ReachesSelf(r, u);
      ReachesStep(r, u, u, e);
    }
  }

  lemma ExpandedCarries(n: nat, maxEdges: int, spec: WeightSpec, tpl: Adj, g: Adj, x: Node, base: Node, r: Adj)
    requires IsTemplate(n, maxEdges, spec, tpl) && x in g && x < base && (forall v :: v in g ==> v < base)
    requires ExpandedFrom(tpl, n, g, x, base, r)
    ensures forall u, e {:trigger e in Out(g, u)} :: e in Out(g, u) ==> Reaches(r, u, e.dst)
  {
    forall u, e | e in Out(g, u) ensures Reaches(r, u, e.dst) {
      ExpandedCarriesEdge(n, maxEdges, spec, tpl, g, x, base, r, u, e);
    }
  }

  /** The end stays reachable from 0: every old walk can still be walked,
      and the new end, when it moves, lies at the end of the copy's backbone. */
  lemma ExpandedReach(n: nat, maxEdges: int, spec: WeightSpec, tpl: Adj, g: Adj, end: Node, x: Node, base: Node, r: Adj)
    requires IsTemplate(n, maxEdges, spec, tpl) && x in g && x < base && (forall v :: v in g ==> v < base)
    requires Reaches(g, 0, end)
    requires ExpandedFrom(tpl, n, g, x, base, r)
    ensures Reaches(r, 0, if x == end then base + n - 2 else end)
  {
    ExpandedCarries(n, maxEdges, spec, tpl, g, x, base, r);
    var p, ws :| WalkFromTo(g, p, ws, 0, end);
    ReachesCarried(g, r, 0, p, ws);
    if x == end {
      CopyBackbone(n, maxEdges, spec, tpl, g, x, base, r, n - 1);
      var q, qs :| WalkFromTo(r, q, qs, x, base + n - 2);
      ReachesTrans(r, 0, x, base + n - 2, q, qs);
    }
  }

  /** One expansion keeps every invariant of build; the end follows the copy
      when the end itself is expanded, and exactly n - 1 fresh ids appear. */
  lemma ExpandKeeps(n: nat, maxEdges: int, spec: WeightSpec, tpl: Adj, g: Adj, end: Node, x: Node, base: Node, r: Adj)
    requires IsTemplate(n, maxEdges, spec, tpl) && Grown(spec, g, end, base) && x in g
    requires ExpandedFrom(tpl, n, g, x, base, r)
    ensures Grown(spec, r, if x == end then base + n - 2 else end, base + n - 1)
    ensures forall v: Node :: v in r <==> v in g || base <= v < base + n - 1
    ensures |r.Keys| == |g.Keys| + (n - 1)
  {
    ExpandedKeys(n, maxEdges, spec, tpl, g, end, x, base, r);
    ExpandedShape(n, maxEdges, spec, tpl, g, end, x, base, r);
    ExpandedEnd(n, maxEdges, spec, tpl, g, x, base, r);
    ExpandedReach(n, maxEdges, spec, tpl, g, end, x, base, r);
  }

  /** The template itself: ids below n, end n - 1 a sink reachable from 0. */
  lemma {:induction false} TemplateBackbone(n: nat, maxEdges: int, spec: WeightSpec, tpl: Adj, t: Node)
    requires IsTemplate(n, maxEdges, spec, tpl) && t < n
    ensures Reaches(tpl, 0, t)
    decreases t
  {
    if t == 0 {
      ReachesSelf(tpl, 0);
    } else {
      TemplateBackbone(n, maxEdges, spec, tpl, t - 1);
      ReachesStep(tpl, 0, t - 1, tpl[t - 1][0]);
    }
  }

  lemma TemplateGrown(n: nat, maxEdges: int, spec: WeightSpec, tpl: Adj, next: Node)
    requires IsTemplate(n, maxEdges, spec, tpl) && n <= next
    ensures Grown(spec, tpl, n - 1, next)
    ensures |tpl.Keys| == n
  {
    TemplateBackbone(n, maxEdges, spec, tpl, n - 1);
    assert tpl.Keys == Ids(0, n);
  }

  // The work queue of build

  /** How many expansions an entry at depth d causes, itself and its
      descendants included, when the recursion depth is depth. */
  function Expansions(n: nat, depth: int, d: int): nat
    decreases if d < depth then depth - d else 0
  {
    if d > depth then 0
    else if d == depth then 1
    else 1 + (n - 1) * Expansions(n, depth, d + 1)
  }

  /** The expansions a queue has still to cause. */
  function Pending(n: nat, depth: int, q: seq<(Node, int)>): nat
    decreases |q|
  {
    if q == [] then 0 else Expansions(n, depth, q[0].1) + Pending(n, depth, q[1..])
  }

  lemma {:induction false} PendingAppend(n: nat, depth: int, a: seq<(Node, int)>, b: seq<(Node, int)>)
    ensures Pending(n, depth, a + b) == Pending(n, depth, a) + Pending(n, depth, b)
    decreases |a|
  {
    if a == [] {
      assert a + b == b;
    } else {
      assert (a + b)[0] == a[0] && (a + b)[1..] == a[1..] + b;
      PendingAppend(n, depth, a[1..], b);
    }
  }

  /** The queue entries for nodes, in order, all at depth d. */
  function AtDepth(nodes: seq<Node>, d: int): (r: seq<(Node, int)>)
    ensures |r| == |nodes|
    decreases |nodes|
  {
    if nodes == [] then [] else [(nodes[0], d)] + AtDepth(nodes[1..], d)
  }

  lemma {:induction false} AtDepthAt(nodes: seq<Node>, d: int)
    ensures forall i :: 0 <= i < |nodes| ==> AtDepth(nodes, d)[i] == (nodes[i], d)
    decreases |nodes|
  {
    if nodes != [] {
      AtDepthAt(nodes[1..], d);
    }
  }

  lemma {:induction false} PendingAtDepth(n: nat, depth: int, nodes: seq<Node>, d: int)
    ensures Pending(n, depth, AtDepth(nodes, d)) == |nodes| * Expansions(n, depth, d)
    decreases |nodes|
  {
    if nodes != [] {
      PendingAtDepth(n, depth, nodes[1..], d);
    }
  }

  /** The nodes 0 .. k-1 in increasing order. */
  function Iota(k: nat): (r: seq<Node>)
    ensures |r| == k
  {
    if k == 0 then [] else Iota(k - 1) + [k - 1]
  }

  lemma {:induction false} IotaAt(k: nat)
    ensures forall i :: 0 <= i < k ==> Iota(k)[i] == i
  {
    if k != 0 {
      IotaAt(k - 1);
    }
  }

  /** The number of ids after build's expansions: n template nodes and
      n - 1 fresh ids per expansion. */
  function NodeCount(n: nat, depth: int): nat
  {
    n + n * Expansions(n, depth, 1) * (n - 1)
  }

  /** The id count after done expansions, once all expansions are done. */
  lemma CountComplete(n: nat, depth: int, done: nat, k: int)
    requires k == n + done * (n - 1) && done == n * Expansions(n, depth, 1)
    ensures k == NodeCount(n, depth)
  {
  }

  /** One more expansion adds n - 1 ids to a count that started at k0. */
  lemma CountStep(n: nat, k0: int, done: nat, k: int)
    requires n >= 1 && k == k0 + done * (n - 1)
    ensures k + (n - 1) == k0 + (done + 1) * (n - 1)
  {
  }

  /** The state of build's queue loop: the table grown so far (ids below
      next), its end, the queue of nodes still in it, and the number of
      expansions done; those done and those the queue still causes add up
      to the total for the recursion depth. */
  ghost predicate Drained(n: nat, depth: int, spec: WeightSpec, tpl: Adj, g: Adj, end: Node,
                          q: seq<(Node, int)>, done: nat, next: Node)
  {
    && Grown(spec, g, end, next)
    && (forall i :: 0 <= i < |q| ==> q[i].0 in g)
    && |g.Keys| == n + done * (n - 1)
    && done + Pending(n, depth, q) == n * Expansions(n, depth, 1)
    && (done == 0 ==> g == tpl && end == n - 1)
  }

  /** An entry deeper than the recursion depth is dropped: nothing changes,
      and the queue shrinks without changing what it still causes. */
  lemma DrainedSkip(n: nat, depth: int, spec: WeightSpec, tpl: Adj, g: Adj, end: Node,
                    q: seq<(Node, int)>, done: nat, next: Node)
    requires q != [] && q[0].1 > depth && Drained(n, depth, spec, tpl, g, end, q, done, next)
    ensures Drained(n, depth, spec, tpl, g, end, q[1..], done, next)
    ensures Pending(n, depth, q[1..]) == Pending(n, depth, q)
  {
  }

  /** r is g grown by one expansion: still grown (with end end' and ids
      below next'), with n - 1 more ids, the old ids kept, and the inner
      nodes of the copy among its nodes. */
  ghost predicate GrewBy(n: nat, spec: WeightSpec, g: Adj, r: Adj, end': Node, inner: seq<Node>, next': Node)
  {
    && Grown(spec, r, end', next') && |r.Keys| == |g.Keys| + (n - 1)
    && (forall v :: v in g ==> v in r)
    && |inner| == n - 1 && (forall i :: 0 <= i < |inner| ==> inner[i] in r)
  }

  /** An entry within the recursion depth is expanded: r is the grown table
      with n - 1 more ids, and the inner nodes of the copy re-enter the
      queue one level deeper while that level is within the depth. What the
      queue causes drops by exactly the one expansion done. */
  lemma DrainedExpand(n: nat, depth: int, spec: WeightSpec, tpl: Adj, g: Adj, end: Node,
                      q: seq<(Node, int)>, done: nat, next: Node,
                      r: Adj, end': Node, inner: seq<Node>, next': Node, q': seq<(Node, int)>)
    requires n >= 1 && q != [] && q[0].1 <= depth && Drained(n, depth, spec, tpl, g, end, q, done, next)
    requires GrewBy(n, spec, g, r, end', inner, next')
    requires Requeued(q, inner, depth, q')
    ensures Drained(n, depth, spec, tpl, r, end', q', done + 1, next')
    ensures Pending(n, depth, q') < Pending(n, depth, q)
  {
    CountStep(n, n, done, |g.Keys|);
    PendingRequeue(n, depth, q, inner, q');
    RequeueIn(q, inner, q', depth, g, r);
  }

  /** The queue after one expansion, without its first entry and with the
      inner nodes one level deeper while that level is within the depth. */
  ghost predicate Requeued(q: seq<(Node, int)>, inner: seq<Node>, depth: int, q': seq<(Node, int)>)
    requires q != []
  {
    q' == q[1..] + (if q[0].1 < depth then AtDepth(inner, q[0].1 + 1) else [])
  }

  lemma PendingRequeue(n: nat, depth: int, q: seq<(Node, int)>, inner: seq<Node>, q': seq<(Node, int)>)
    requires q != [] && q[0].1 <= depth && |inner| == n - 1 && Requeued(q, inner, depth, q')
    ensures Pending(n, depth, q') + 1 == Pending(n, depth, q)
  {
    var d := q[0].1;
    assert Pending(n, depth, q) == Expansions(n, depth, d) + Pending(n, depth, q[1..]);
    if d < depth {
      var e := Expansions(n, depth, d + 1);
      assert Expansions(n, depth, d) == 1 + (n - 1) * e;
      PendingAppend(n, depth, q[1..], AtDepth(inner, d + 1));
      PendingAtDepth(n, depth, inner, d + 1);
      assert Pending(n, depth, AtDepth(inner, d + 1)) == (n - 1) * e;
    } else {
      assert q' == q[1..] + [];
      PendingAppend(n, depth, q[1..], []);
    }
  }

  lemma RequeueIn(q: seq<(Node, int)>, inner: seq<Node>, q': seq<(Node, int)>, depth: int, g: Adj, r: Adj)
    requires q != [] && Requeued(q, inner, depth, q')
    requires (forall i :: 0 <= i < |q| ==> q[i].0 in g) && (forall v :: v in g ==> v in r)
    requires forall i :: 0 <= i < |inner| ==> inner[i] in r
    ensures forall i :: 0 <= i < |q'| ==> q'[i].0 in r
  {
    var d := q[0].1;
    var tail := if d < depth then AtDepth(inner, d + 1) else [];
    assert q' == q[1..] + tail;
    AtDepthAt(inner, d + 1);
    forall i | 0 <= i < |q'|
      ensures q'[i].0 in r
    {
      if i < |q| - 1 {
        assert q'[i] == q[i + 1];
      } else {
        assert q'[i] == tail[i - (|q| - 1)];
      }
    }
  }

  /** Depth 0 (or less) expands nothing. */
  lemma NodeCountDepthZero(n: nat, depth: int)
    requires depth <= 0
    ensures NodeCount(n, depth) == n
  {
  }

  /** Depth 1 expands each of the n template nodes once: n * n nodes. */
  lemma NodeCountDepthOne(n: nat)
    ensures NodeCount(n, 1) == n * n
  {
    calc {
      NodeCount(n, 1);
      n + n * 1 * (n - 1);
      n * n;
    }
  }

  /** One level deeper multiplies the expansions below the top by n - 1. */
  lemma {:induction false} ExpansionsDeeper(n: nat, depth: int)
    requires depth >= 1
    ensures Expansions(n, depth + 1, 1) == 1 + (n - 1) * Expansions(n, depth, 1)
  {
    ExpansionsShift(n, depth, 1);
  }

  lemma {:induction false} ExpansionsShift(n: nat, depth: int, d: int)
    requires 1 <= d <= depth
    ensures Expansions(n, depth + 1, d) == 1 + (n - 1) * Expansions(n, depth, d)
    decreases depth - d
  {
    if d < depth {
      ExpansionsShift(n, depth, d + 1);
      calc {
        Expansions(n, depth + 1, d);
        1 + (n - 1) * Expansions(n, depth + 1, d + 1);
        1 + (n - 1) * (1 + (n - 1) * Expansions(n, depth, d + 1));
        1 + (n - 1) * Expansions(n, depth, d);
      }
    }
  }
}
