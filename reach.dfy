/** Reachability over an adjacency table: t can be reached from s when some
    walk leads from s to t. */
module Reach {
  import opened Graphs

  ghost predicate Reaches(adj: Adj, s: Node, t: Node)
  {
    exists p, ws :: WalkFromTo(adj, p, ws, s, t)
  }

  lemma ReachesSelf(adj: Adj, s: Node)
    ensures Reaches(adj, s, s)
  {
    assert WalkFromTo(adj, [s], [], s, s);
  }

  /** A walk to m followed by an edge m -> t is a walk to t. */
  lemma ReachesStep(adj: Adj, s: Node, m: Node, e: Edge)
    requires Reaches(adj, s, m) && e in Out(adj, m)
    ensures Reaches(adj, s, e.dst)
  {
    var p, ws :| WalkFromTo(adj, p, ws, s, m);
    var p' := p + [e.dst];
    assert p'[..|p'| - 1] == p;
    WalkSnoc(adj, p', ws, e.weight);
    assert WalkFromTo(adj, p', ws + [e.weight], s, e.dst);
  }

  /** Walking from s to m and then from m to t walks from s to t. */
  lemma {:induction false} ReachesTrans(adj: Adj, s: Node, m: Node, t: Node, p: seq<Node>, ws: seq<real>)
    requires Reaches(adj, s, m) && WalkFromTo(adj, p, ws, m, t)
    ensures Reaches(adj, s, t)
    decreases |p|
  {
    if |p| == 1 {
    } else {
      WalkFront(adj, p, ws);
      var front := p[..|p| - 1];
      ReachesTrans(adj, s, m, front[|front| - 1], front, ws[..|ws| - 1]);
      assert Edge(p[|p| - 1], ws[|ws| - 1]) in Out(adj, p[|p| - 2]);
      ReachesStep(adj, s, p[|p| - 2], Edge(p[|p| - 1], ws[|ws| - 1]));
    }
  }

  /** When every edge u -> v of a can be walked in b, every walk of a can be
      walked in b. */
  lemma {:induction false} ReachesCarried(a: Adj, b: Adj, s: Node, p: seq<Node>, ws: seq<real>)
    requires IsWalk(a, p, ws) && p[0] == s
    requires forall u, e {:trigger e in Out(a, u)} :: e in Out(a, u) ==> Reaches(b, u, e.dst)
    ensures Reaches(b, s, p[|p| - 1])
    decreases |p|
  {
    if |p| == 1 {
      ReachesSelf(b, s);
    } else {
      WalkFront(a, p, ws);
      ReachesCarried(a, b, s, p[..|p| - 1], ws[..|ws| - 1]);
      var e := Edge(p[|p| - 1], ws[|ws| - 1]);
      assert e in Out(a, p[|p| - 2]);
      assert Reaches(b, p[|p| - 2], e.dst);
      var q, qs :| WalkFromTo(b, q, qs, p[|p| - 2], e.dst);
      ReachesTrans(b, s, p[|p| - 2], e.dst, q, qs);
    }
  }
}
