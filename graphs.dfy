/** The graph container: an adjacency table with start/end nodes and the cached
    optimum, its neighbour queries, and path validation / costing. */
module Graphs {
  import opened Results

  /** Node ids are non-negative integers. */
  type Node = nat

  /** One entry (v, w) of an adjacency list: an edge to v of weight w. */
  datatype Edge = Edge(dst: Node, weight: real)

  /** node -> ordered list of its outgoing edges */
  type Adj = map<Node, seq<Edge>>

  /** The out-edges of u; an unknown node has none. */
  function Out(adj: Adj, u: Node): seq<Edge>
  {
    if u in adj then adj[u] else []
  }

  predicate HasEdge(adj: Adj, u: Node, v: Node)
  {
    exists e :: e in Out(adj, u) && e.dst == v
  }

  /** Every consecutive pair of p is an edge. */
  predicate IsPath(adj: Adj, p: seq<Node>)
  {
    forall i :: 0 <= i < |p| - 1 ==> HasEdge(adj, p[i], p[i + 1])
  }

  /** p is a non-empty walk and ws[i] is the weight of an edge p[i] -> p[i+1]. */
  predicate IsWalk(adj: Adj, p: seq<Node>, ws: seq<real>)
  {
    && |p| >= 1
    && |ws| == |p| - 1
    && forall i :: 0 <= i < |ws| ==> Edge(p[i + 1], ws[i]) in Out(adj, p[i])
  }

  predicate WalkFromTo(adj: Adj, p: seq<Node>, ws: seq<real>, s: Node, t: Node)
  {
    IsWalk(adj, p, ws) && p[0] == s && p[|p| - 1] == t
  }

  /** Left-to-right sum, as an accumulator loop adds the terms. */
  function Sum(ws: seq<real>): real
  {
    if ws == [] then 0.0 else Sum(ws[..|ws| - 1]) + ws[|ws| - 1]
  }

  lemma {:induction false} SumCons(w: real, ws: seq<real>)
    ensures Sum([w] + ws) == w + Sum(ws)
    decreases |ws|
  {
    if ws != [] {
      var front := ws[..|ws| - 1];
      assert ([w] + ws)[..|ws|] == [w] + front;
      SumCons(w, front);
    }
  }

  predicate DistinctDests(es: seq<Edge>)
  {
    forall i, j :: 0 <= i < j < |es| ==> es[i].dst != es[j].dst
  }

  predicate NoDuplicateDests(adj: Adj)
  {
    forall u {:trigger adj[u]} :: u in adj ==> DistinctDests(adj[u])
  }

  predicate NoSelfLoops(adj: Adj)
  {
    forall u, e {:trigger e in adj[u]} :: u in adj && e in adj[u] ==> e.dst != u
  }

  /** Every destination is itself a node of the table. */
  predicate NoDanglingIds(adj: Adj)
  {
    forall u, e {:trigger e in adj[u]} :: u in adj && e in adj[u] ==> e.dst in adj
  }

  /** The edge list as a map from destination to weight; a destination listed
      twice keeps its last weight. */
  function EdgeMap(es: seq<Edge>): map<Node, real>
    decreases |es|
  {
    if es == [] then map[] else EdgeMap(es[..|es| - 1])[es[|es| - 1].dst := es[|es| - 1].weight]
  }

  /** The keys are the listed destinations, and each key maps to the weight of a listed edge to it. */
  lemma {:induction false} EdgeMapSound(es: seq<Edge>)
    ensures forall v :: v in EdgeMap(es) <==> exists e :: e in es && e.dst == v
    ensures forall v :: v in EdgeMap(es) ==> Edge(v, EdgeMap(es)[v]) in es
    decreases |es|
  {
    if es != [] {
      var front := es[..|es| - 1];
      EdgeMapSound(front);
      assert forall e :: e in es <==> e in front || e == es[|es| - 1];
    }
  }

  /** A later edge to the same destination overrides an earlier one. */
  lemma {:induction false} EdgeMapLastListed(es: seq<Edge>, i: nat)
    requires i < |es|
    requires forall j :: i < j < |es| ==> es[j].dst != es[i].dst
    ensures es[i].dst in EdgeMap(es) && EdgeMap(es)[es[i].dst] == es[i].weight
    decreases |es|
  {
    if i < |es| - 1 {
      var front := es[..|es| - 1];
      EdgeMapLastListed(front, i);
    }
  }

  lemma EdgeMapDistinct(es: seq<Edge>, k: nat)
    requires DistinctDests(es) && k < |es|
    ensures es[k].dst in EdgeMap(es) && EdgeMap(es)[es[k].dst] == es[k].weight
  {
    EdgeMapLastListed(es, k);
  }

  /** cost of the steps of p, left to right; the first step that is not an
      edge is the failure reported */
  function StepsCost(adj: Adj, p: seq<Node>): Result<real>
    decreases |p|
  {
    if |p| < 2 then Ok(0.0)
    else
      match StepsCost(adj, p[..|p| - 1])
      case Err(e) => Err(e)
      case Ok(c) =>
        var m := EdgeMap(Out(adj, p[|p| - 2]));
        if p[|p| - 1] in m then Ok(c + m[p[|p| - 1]])
        else Err(EdgeAbsent(p[|p| - 2], p[|p| - 1]))
  }

  /** A failure in a prefix is the failure of the whole path. */
  lemma {:induction false} StepsCostPrefixErr(adj: Adj, p: seq<Node>, k: nat)
    requires k <= |p|
    requires StepsCost(adj, p[..k]).Err?
    ensures StepsCost(adj, p) == StepsCost(adj, p[..k])
    decreases |p|
  {
    if k == |p| {
      assert p[..k] == p;
    } else {
      var front := p[..|p| - 1];
      assert front[..k] == p[..k];
      StepsCostPrefixErr(adj, front, k);
    }
  }

  /** The step costs are defined exactly when every step is an edge. */
  lemma {:induction false} StepsCostOkIff(adj: Adj, p: seq<Node>)
    ensures StepsCost(adj, p).Ok? <==> IsPath(adj, p)
    decreases |p|
  {
    if |p| >= 2 {
      var front := p[..|p| - 1];
      StepsCostOkIff(adj, front);
      assert forall i :: 0 <= i < |front| ==> front[i] == p[i];
      EdgeMapSound(Out(adj, p[|p| - 2]));
      assert p[|p| - 1] in EdgeMap(Out(adj, p[|p| - 2])) <==> HasEdge(adj, p[|p| - 2], p[|p| - 1]);
    }
  }

  /** A failing path fails at its first missing edge. */
  lemma {:induction false} StepsCostErrIsFirstMissing(adj: Adj, p: seq<Node>)
    requires StepsCost(adj, p).Err?
    ensures exists i :: && 0 <= i < |p| - 1
                        && StepsCost(adj, p).error == EdgeAbsent(p[i], p[i + 1])
                        && !HasEdge(adj, p[i], p[i + 1])
                        && IsPath(adj, p[..i + 1])
    decreases |p|
  {
    var front := p[..|p| - 1];
    var n := |p|;
    if StepsCost(adj, front).Err? {
      StepsCostErrIsFirstMissing(adj, front);
      var i :| && 0 <= i < |front| - 1
               && StepsCost(adj, front).error == EdgeAbsent(front[i], front[i + 1])
               && !HasEdge(adj, front[i], front[i + 1])
               && IsPath(adj, front[..i + 1]);
      assert front[..i + 1] == p[..i + 1];
      assert front[i] == p[i] && front[i + 1] == p[i + 1];
    } else {
      StepsCostOkIff(adj, front);
      assert front == p[..n - 2 + 1];
      EdgeMapSound(Out(adj, p[n - 2]));
      assert !HasEdge(adj, p[n - 2], p[n - 1]);
    }
  }

  /** The weights path_cost adds, step by step: the last-listed weight of each step. */
  function StepWeights(adj: Adj, p: seq<Node>): seq<real>
    decreases |p|
  {
    if |p| < 2 then []
    else
      var m := EdgeMap(Out(adj, p[|p| - 2]));
      StepWeights(adj, p[..|p| - 1]) + [if p[|p| - 1] in m then m[p[|p| - 1]] else 0.0]
  }

  /** Extending a walk by an edge out of its last node gives a walk. */
  lemma WalkSnoc(adj: Adj, p: seq<Node>, ws: seq<real>, w: real)
    requires |p| >= 2 && IsWalk(adj, p[..|p| - 1], ws)
    requires Edge(p[|p| - 1], w) in Out(adj, p[|p| - 2])
    ensures IsWalk(adj, p, ws + [w])
  {
    var front, ws' := p[..|p| - 1], ws + [w];
    forall i | 0 <= i < |ws'| ensures Edge(p[i + 1], ws'[i]) in Out(adj, p[i]) {
      if i < |ws| {
        assert Edge(front[i + 1], ws[i]) in Out(adj, front[i]);
      }
    }
  }

  lemma SumSnoc(ws: seq<real>, w: real)
    ensures Sum(ws + [w]) == Sum(ws) + w
  {
    assert (ws + [w])[..|ws|] == ws;
  }

  /** A successful cost is the weight of a walk along the path. */
  lemma {:induction false} StepsCostIsWalkCost(adj: Adj, p: seq<Node>)
    requires |p| >= 1 && StepsCost(adj, p).Ok?
    ensures IsWalk(adj, p, StepWeights(adj, p))
    ensures StepsCost(adj, p).value == Sum(StepWeights(adj, p))
    decreases |p|
  {
    if |p| >= 2 {
      var front := p[..|p| - 1];
      var es := Out(adj, p[|p| - 2]);
      assert StepsCost(adj, front).Ok?;
      StepsCostIsWalkCost(adj, front);
      EdgeMapSound(es);
      var w := EdgeMap(es)[p[|p| - 1]];
      WalkSnoc(adj, p, StepWeights(adj, front), w);
      SumSnoc(StepWeights(adj, front), w);
    }
  }

  /** Dropping the last step of a walk leaves a walk. */
  lemma WalkFront(adj: Adj, p: seq<Node>, ws: seq<real>)
    requires IsWalk(adj, p, ws) && |p| >= 2
    ensures IsWalk(adj, p[..|p| - 1], ws[..|ws| - 1])
  {
    var front, wfront := p[..|p| - 1], ws[..|ws| - 1];
    forall i | 0 <= i < |wfront| ensures Edge(front[i + 1], wfront[i]) in Out(adj, front[i]) {
      assert Edge(p[i + 1], ws[i]) in Out(adj, p[i]);
    }
  }

  /** With no repeated destinations, path_cost reads the walk's own weight for its last step. */
  lemma WalkLastStep(adj: Adj, p: seq<Node>, ws: seq<real>)
    requires NoDuplicateDests(adj) && IsWalk(adj, p, ws) && |p| >= 2
    ensures p[|p| - 1] in EdgeMap(Out(adj, p[|p| - 2]))
    ensures EdgeMap(Out(adj, p[|p| - 2]))[p[|p| - 1]] == ws[|ws| - 1]
  {
    var n := |p|;
    var es := Out(adj, p[n - 2]);
    assert Edge(p[n - 1], ws[n - 2]) in es;
    var k :| 0 <= k < |es| && es[k] == Edge(p[n - 1], ws[n - 2]);
    assert p[n - 2] in adj && DistinctDests(adj[p[n - 2]]);
    EdgeMapDistinct(es, k);
  }

  /** With no repeated destinations, the cost of a walk is what path_cost reports. */
  lemma {:induction false} WalkCostIsStepsCost(adj: Adj, p: seq<Node>, ws: seq<real>)
    requires NoDuplicateDests(adj) && IsWalk(adj, p, ws)
    ensures StepsCost(adj, p) == Ok(Sum(ws))
    decreases |p|
  {
    if |p| >= 2 {
      var front, wfront := p[..|p| - 1], ws[..|ws| - 1];
      WalkFront(adj, p, ws);
      WalkCostIsStepsCost(adj, front, wfront);
      WalkLastStep(adj, p, ws);
      assert StepsCost(adj, front) == Ok(Sum(wfront));
    }
  }

  /** The absolute tolerance of verify_shortest_path. */
  const Tolerance: real := 0.000000001

  function Abs(x: real): real
  {
    if x < 0.0 then -x else x
  }

  /** Destinations of u's out-edges. */
  function OutDests(adj: Adj, u: Node): set<Node>
  {
    set e | e in Out(adj, u) :: e.dst
  }

  /** Nodes other than u with an edge into u. */
  function InSources(adj: Adj, u: Node): set<Node>
  {
    set x | x in adj && x != u && HasEdge(adj, x, u)
  }

  function Undirected(adj: Adj, u: Node): set<Node>
  {
    OutDests(adj, u) + InSources(adj, u)
  }

  /** The undirected neighbours of u: every out-destination (u itself when it
      has a self-loop) and every other node with an edge into u. */
  lemma UndirectedMembership(adj: Adj, u: Node, v: Node)
    ensures v in Undirected(adj, u) <==> HasEdge(adj, u, v) || (v != u && HasEdge(adj, v, u))
  {
    if HasEdge(adj, u, v) {
      var e :| e in Out(adj, u) && e.dst == v;
      assert v in OutDests(adj, u);
    }
  }

  lemma UndirectedSymmetric(adj: Adj, u: Node, v: Node)
    requires u != v
    ensures v in Undirected(adj, u) <==> u in Undirected(adj, v)
  {
    UndirectedMembership(adj, u, v);
    UndirectedMembership(adj, v, u);
  }

  datatype Graph = Graph(adj: Adj, start: Node, end: Node, optimalPathCost: real, optimalPath: seq<Node>)
  {
    function Neighbors(u: Node): (r: seq<Edge>)
      ensures u in adj ==> r == adj[u]
      ensures u !in adj ==> r == []
      ensures forall v :: HasEdge(adj, u, v) <==> exists e :: e in r && e.dst == v
    {
      Out(adj, u)
    }

    function NNodes(): (r: nat)
      ensures r == |adj.Keys|
    {
      |adj|
    }

    method UndirectedNeighbors(u: Node) returns (r: set<Node>)
      ensures r == Undirected(adj, u)
    {
      r := {};
      var out := Out(adj, u);
      for i := 0 to |out|
        invariant r == set j | 0 <= j < i :: out[j].dst
      {
        r := r + {out[i].dst};
      }
      assert r == OutDests(adj, u) by {
        forall v | v in OutDests(adj, u) ensures v in r {
          var e :| e in out && e.dst == v;
          var j :| 0 <= j < |out| && out[j] == e;
        }
      }
      var todo := adj.Keys;
      ghost var seen: set<Node> := {};
      while todo != {}
        invariant todo + seen == adj.Keys && todo !! seen
        invariant r == OutDests(adj, u) + set x | x in seen && x != u && HasEdge(adj, x, u)
        decreases todo
      {
        var node :| node in todo;
        var edges := adj[node];
        ghost var before := r;
        for j := 0 to |edges|
          invariant r == before + if node != u && exists k :: 0 <= k < j && edges[k].dst == u then {node} else {}
        {
          if edges[j].dst == u && node != u {
            r := r + {node};
          }
        }
        assert (node != u && HasEdge(adj, node, u)) <==> node != u && exists k :: 0 <= k < |edges| && edges[k].dst == u;
        todo := todo - {node};
        seen := seen + {node};
      }
    }

    /** path_cost without its loop: endpoints first, then the steps. */
    function PathCostSpec(path: seq<Node>): Result<real>
    {
      if |path| == 0 || path[0] != start || path[|path| - 1] != end then Err(PathEndpoints)
      else StepsCost(adj, path)
    }

    method PathCost(path: seq<Node>) returns (r: Result<real>)
      ensures r == PathCostSpec(path)
    {
      if |path| == 0 || path[0] != start || path[|path| - 1] != end {
        return Err(PathEndpoints);
      }
      var cost := 0.0;
      for i := 0 to |path| - 1
        invariant StepsCost(adj, path[..i + 1]) == Ok(cost)
      {
        var edgeMap := EdgeMap(Out(adj, path[i]));
        assert path[..i + 2][..i + 1] == path[..i + 1];
        if path[i + 1] !in edgeMap {
          StepsCostPrefixErr(adj, path, i + 2);
          return Err(EdgeAbsent(path[i], path[i + 1]));
        }
        cost := cost + edgeMap[path[i + 1]];
      }
      assert path[..|path|] == path;
      return Ok(cost);
    }

    /** As written, a path that path_cost rejects propagates its error. */
    method VerifyShortestPath(path: seq<Node>) returns (r: Result<bool>)
      ensures PathCostSpec(path).Err? ==> r == Err(PathCostSpec(path).error)
      ensures PathCostSpec(path).Ok? ==>
                r == Ok(Abs(PathCostSpec(path).value - optimalPathCost) < Tolerance)
    {
      var c := PathCost(path);
      if c.Err? {
        return Err(c.error);
      }
      return Ok(Abs(c.value - optimalPathCost) < Tolerance);
    }

    /** The evidently intended behaviour: an invalid path is answered with false. */
    method VerifyShortestPathTotal(path: seq<Node>) returns (ok: bool)
      ensures ok <==> PathCostSpec(path).Ok? && Abs(PathCostSpec(path).value - optimalPathCost) < Tolerance
    {
      var c := PathCost(path);
      ok := c.Ok? && Abs(c.value - optimalPathCost) < Tolerance;
    }
  }

  /** A graph whose cached path is a start-to-end walk weighing the cached
      cost passes its own check: path_cost returns exactly that cost, so
      verify_shortest_path on the cached path is true. */
  lemma OptimalPathVerifies(g: Graph)
    requires NoDuplicateDests(g.adj)
    requires exists ws :: WalkFromTo(g.adj, g.optimalPath, ws, g.start, g.end) && Sum(ws) == g.optimalPathCost
    ensures g.PathCostSpec(g.optimalPath) == Ok(g.optimalPathCost)
    ensures Abs(g.PathCostSpec(g.optimalPath).value - g.optimalPathCost) < Tolerance
  {
    var ws :| WalkFromTo(g.adj, g.optimalPath, ws, g.start, g.end) && Sum(ws) == g.optimalPathCost;
    WalkCostIsStepsCost(g.adj, g.optimalPath, ws);
  }

  /** path_cost succeeds exactly on non-empty start-to-end paths of edges. */
  lemma PathCostOkIff(g: Graph, p: seq<Node>)
    ensures g.PathCostSpec(p).Ok? <==>
              |p| >= 1 && p[0] == g.start && p[|p| - 1] == g.end && IsPath(g.adj, p)
  {
    StepsCostOkIff(g.adj, p);
  }

  /** path_cost's failures: wrong endpoints, or the first step that is not an edge. */
  lemma PathCostErrors(g: Graph, p: seq<Node>)
    ensures g.PathCostSpec(p) == Err(PathEndpoints) <==>
              |p| == 0 || p[0] != g.start || p[|p| - 1] != g.end
    ensures g.PathCostSpec(p).Err? && g.PathCostSpec(p) != Err(PathEndpoints) ==>
              exists i :: && 0 <= i < |p| - 1
                          && g.PathCostSpec(p).error == EdgeAbsent(p[i], p[i + 1])
                          && !HasEdge(g.adj, p[i], p[i + 1])
                          && IsPath(g.adj, p[..i + 1])
  {
    if |p| >= 1 && p[0] == g.start && p[|p| - 1] == g.end && StepsCost(g.adj, p).Err? {
      StepsCostErrIsFirstMissing(g.adj, p);
    }
  }

  /** A submission that path_cost rejects makes verify_shortest_path fail
      instead of answering false. */
  lemma RejectedPathIsNotFalse(g: Graph)
    ensures g.PathCostSpec([]) == Err(PathEndpoints)
    ensures g.end != g.start ==> g.PathCostSpec([g.start]) == Err(PathEndpoints)
  {
  }
}
