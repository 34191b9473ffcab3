/** Single-source Dijkstra with a lazy-deletion priority queue, early exit at
    the target and predecessor walk-back (RecursiveGraphGenerator._dijkstra_with_path). */
module ShortestPath {
  import opened Results
  import opened Graphs
  import opened SearchState

  /** A non-empty queue has an entry heappop may return. */
  lemma {:induction false} MinEntryExists(pq: multiset<(real, Node)>)
    requires pq != multiset{}
    ensures exists e :: IsMinEntry(e, pq)
    decreases |pq|
  {
    var x :| x in pq;
    var rest := pq - multiset{x};
    if rest == multiset{} {
      assert pq == multiset{x};
      assert IsMinEntry(x, pq);
    } else {
      MinEntryExists(rest);
      var m :| IsMinEntry(m, rest);
      var c := if EntryLe(x, m) then x else m;
      forall f | f in pq ensures EntryLe(c, f) {
        if f != x { assert f in rest; }
      }
      assert IsMinEntry(c, pq);
    }
  }

  /** The sequence in reverse order. */
  function Reversed(s: seq<Node>): (r: seq<Node>)
    ensures |r| == |s|
  {
    if s == [] then [] else Reversed(s[1..]) + [s[0]]
  }

  lemma {:induction false} ReversedSnoc(s: seq<Node>, x: Node)
    ensures Reversed(s + [x]) == [x] + Reversed(s)
    decreases |s|
  {
    if s != [] {
      assert (s + [x])[1..] == s[1..] + [x];
      ReversedSnoc(s[1..], x);
    }
  }

  /** On a walk whose first k nodes are settled, best[p[k]] is at most the
      weight of the walk up to p[k]. */
  lemma {:induction false} SettledPrefixBound(adj: Adj, best: map<Node, real>, done: set<Node>,
                                              p: seq<Node>, ws: seq<real>, k: nat)
    requires IsWalk(adj, p, ws) && p[0] in best && best[p[0]] <= 0.0
    requires done <= best.Keys
    requires k < |p|
    requires forall j :: 0 <= j < k ==> p[j] in done
    requires forall x, e :: x in done && e in Out(adj, x) ==>
                              e.dst in best && best[e.dst] <= best[x] + e.weight
    ensures p[k] in best && best[p[k]] <= Sum(ws[..k])
    decreases k
  {
    if k == 0 {
      assert ws[..0] == [];
    } else {
      SettledPrefixBound(adj, best, done, p, ws, k - 1);
      assert Edge(p[k], ws[k - 1]) in Out(adj, p[k - 1]);
      assert ws[..k][..k - 1] == ws[..k - 1];
    }
  }

  lemma {:induction false} SumPrefixLe(ws: seq<real>, k: nat)
    requires forall i :: 0 <= i < |ws| ==> ws[i] >= 0.0
    requires k <= |ws|
    ensures Sum(ws[..k]) <= Sum(ws)
    decreases |ws|
  {
    if k == |ws| {
      assert ws[..k] == ws;
    } else {
      var front := ws[..|ws| - 1];
      assert front[..k] == ws[..k];
      SumPrefixLe(front, k);
    }
  }

  lemma WalkWeightsNonNegative(adj: Adj, p: seq<Node>, ws: seq<real>)
    requires NonNegative(adj) && IsWalk(adj, p, ws)
    ensures forall i :: 0 <= i < |ws| ==> ws[i] >= 0.0
  {
    forall i | 0 <= i < |ws| ensures ws[i] >= 0.0 {
      assert Edge(p[i + 1], ws[i]) in Out(adj, p[i]);
    }
  }

  /** When the least queue cost is c and the target is not settled, no walk
      from start to end weighs less than c. */
  lemma NoCheaperWalk(adj: Adj, start: Node, end: Node, best: map<Node, real>, done: set<Node>,
                      pq: multiset<(real, Node)>, c: real, p: seq<Node>, ws: seq<real>)
    requires NonNegative(adj)
    requires start in best && best[start] == 0.0
    requires done <= best.Keys
    requires forall x, e :: x in done && e in Out(adj, x) ==>
                              e.dst in best && best[e.dst] <= best[x] + e.weight
    requires forall v :: v in best && v !in done ==> (best[v], v) in pq
    requires forall f :: f in pq ==> c <= f.0
    requires end !in done
    requires WalkFromTo(adj, p, ws, start, end)
    ensures c <= Sum(ws)
  {
    var k := 0;
    while p[k] in done
      invariant 0 <= k < |p|
      invariant forall j :: 0 <= j < k ==> p[j] in done
      decreases |p| - k
    {
      k := k + 1;
    }
    SettledPrefixBound(adj, best, done, p, ws, k);
    assert (best[p[k]], p[k]) in pq;
    WalkWeightsNonNegative(adj, p, ws);
    SumPrefixLe(ws, k);
  }

  /** A set that holds start and is closed under edges holds every node a
      walk from start reaches. */
  lemma {:induction false} ClosedSetTraps(adj: Adj, s: set<Node>, p: seq<Node>, ws: seq<real>)
    requires IsWalk(adj, p, ws) && p[0] in s
    requires forall x, e :: x in s && e in Out(adj, x) ==> e.dst in s
    ensures p[|p| - 1] in s
    decreases |p|
  {
    if |p| > 1 {
      var front := p[..|p| - 1];
      assert IsWalk(adj, front, ws[..|ws| - 1]);
      ClosedSetTraps(adj, s, front, ws[..|ws| - 1]);
      assert Edge(p[|p| - 1], ws[|ws| - 1]) in Out(adj, p[|p| - 2]);
    }
  }

  lemma SearchInit(adj: Adj, start: Node, end: Node)
    ensures var s := Search(multiset{(0.0, start)}, map[start := 0.0], map[start := None], {}, 0.0, map[], 0, map[]);
            Core(adj, start, end, s) && Relaxed(adj, s, {})
  {
  }

  /** Dropping a stale entry (cost above best) keeps the queue invariant. */
  lemma PopStaleQueue(s: Search, entry: (real, Node), s': Search)
    requires Queue(s) && entry in s.pq && entry.1 in s.best && entry.0 > s.best[entry.1]
    requires s'.pq == s.pq - multiset{entry} && s'.best == s.best && s'.done == s.done && s'.last == s.last
    ensures Queue(s')
  {
    assert forall f :: f in s'.pq ==> f in s.pq;
    forall v | v in s'.best && v !in s'.done ensures (s'.best[v], v) in s'.pq {
      assert (s.best[v], v) in s.pq && (s.best[v], v) != entry;
    }
  }

  /** The tables, the chain and the relaxed edges do not involve the queue. */
  lemma QueueAside(adj: Adj, start: Node, end: Node, s: Search, s': Search)
    requires Tables(adj, start, end, s) && Known(adj, start, s) && Chain(adj, start, s) && Relaxed(adj, s, {})
    requires s' == s.(pq := s'.pq)
    ensures Tables(adj, start, end, s') && Known(adj, start, s') && Chain(adj, start, s') && Relaxed(adj, s', {})
  {
  }

  /** Popping a stale entry keeps every invariant. */
  lemma PopStale(adj: Adj, start: Node, end: Node, s: Search, entry: (real, Node), s': Search)
    requires Core(adj, start, end, s) && Relaxed(adj, s, {})
    requires IsMinEntry(entry, s.pq) && entry.1 in s.best && entry.0 > s.best[entry.1]
    requires s' == s.(pq := s.pq - multiset{entry})
    ensures Core(adj, start, end, s') && Relaxed(adj, s', {})
  {
    PopStaleQueue(s, entry, s');
    QueueAside(adj, start, end, s, s');
  }

  lemma PopFreshTables(adj: Adj, start: Node, end: Node, s: Search, entry: (real, Node), s': Search)
    requires Tables(adj, start, end, s) && Known(adj, start, s)
    requires entry.1 != end && entry.1 in s.best && entry.0 == s.best[entry.1] && s.last <= entry.0
    requires Settles(s, entry, s')
    ensures Tables(adj, start, end, s') && Known(adj, start, s')
  {
    assert s'.best == s.best && s'.prev == s.prev;
  }

  lemma PopFreshQueue(s: Search, entry: (real, Node), s': Search)
    requires Queue(s) && s.done <= s.best.Keys
    requires IsMinEntry(entry, s.pq) && entry.1 in s.best && entry.1 !in s.done && entry.0 == s.best[entry.1]
    requires Settles(s, entry, s')
    ensures Queue(s')
  {
    var u := entry.1;
    assert s'.best == s.best;
    assert forall f :: f in s'.pq ==> f in s.pq;
    assert s'.pq[(s.best[u], u)] == 0;
    forall v | v in s'.best && v !in s'.done ensures (s'.best[v], v) in s'.pq {
      assert (s.best[v], v) in s.pq && (s.best[v], v) != entry;
    }
    forall f | f in s'.pq ensures s'.last <= f.0 {
      assert EntryLe(entry, f);
    }
  }

  lemma PopFreshChain(adj: Adj, start: Node, s: Search, entry: (real, Node), s': Search)
    requires Chain(adj, start, s) && Relaxed(adj, s, {})
    requires s.prev.Keys == s.best.Keys && start in s.prev && s.prev[start] == None && s.done <= s.best.Keys
    requires entry.1 in s.best && entry.1 !in s.done
    requires Settles(s, entry, s')
    ensures Chain(adj, start, s') && Relaxed(adj, s', {entry.1})
  {
    assert s'.best == s.best && s'.prev == s.prev && s'.via == s.via;
  }

  /** Popping a fresh entry settles its node, which was not settled before. */
  lemma PopFresh(adj: Adj, start: Node, end: Node, s: Search, entry: (real, Node), s': Search)
    requires Core(adj, start, end, s) && Relaxed(adj, s, {})
    requires IsMinEntry(entry, s.pq) && entry.1 != end && entry.1 in s.best && entry.0 <= s.best[entry.1]
    requires Settles(s, entry, s')
    ensures entry.1 !in s.done && entry.0 == s.best[entry.1]
    ensures Universe(adj, start) - s'.done < Universe(adj, start) - s.done
    ensures Core(adj, start, end, s') && Relaxed(adj, s', {entry.1})
  {
    assert Queue(s) && Tables(adj, start, end, s) && Known(adj, start, s);
    assert entry.1 !in s.done && entry.0 == s.best[entry.1];
    PopFreshTables(adj, start, end, s, entry, s');
    PopFreshQueue(s, entry, s');
    PopFreshChain(adj, start, s, entry, s');
    assert entry.1 in Universe(adj, start) - s.done;
  }

  /** A relaxation that changes best[v] finds v unsettled: settled costs are at most costU. */
  lemma RelaxedTargetUnsettled(adj: Adj, start: Node, end: Node, s: Search, u: Node, costU: real, e: Edge)
    requires NonNegative(adj) && e in Out(adj, u)
    requires Tables(adj, start, end, s) && s.last == costU
    requires e.dst !in s.best || costU + e.weight < s.best[e.dst]
    ensures e.dst !in s.done
  {
    assert u in adj && e in adj[u];
  }

  lemma RelaxTables(adj: Adj, start: Node, end: Node, s: Search, u: Node, costU: real, e: Edge, s': Search)
    requires NonNegative(adj) && e in Out(adj, u)
    requires Tables(adj, start, end, s) && Known(adj, start, s)
    requires u in s.done && u in s.best && s.best[u] == costU && s.last == costU
    requires e.dst !in s.best || costU + e.weight < s.best[e.dst]
    requires Lowers(s, u, costU, e, s')
    ensures Tables(adj, start, end, s') && Known(adj, start, s')
  {
    RelaxedTargetUnsettled(adj, start, end, s, u, costU, e);
    assert u in adj && e in adj[u];
    assert e.dst in Universe(adj, start);
  }

  lemma PushBounds(s: Search, v: Node, alt: real, s': Search)
    requires Queue(s) && s.done <= s.best.Keys && s.last <= alt && v !in s.done
    requires v !in s.best || alt < s.best[v]
    requires Pushed(s, v, alt, s')
    ensures forall f :: f in s'.pq ==> f.1 in s'.best && s'.best[f.1] <= f.0 && s'.last <= f.0
    ensures forall f :: f in s'.pq && f.1 in s'.done ==> s'.best[f.1] < f.0
  {
    forall f | f in s'.pq ensures f.1 in s'.best && s'.best[f.1] <= f.0 && s'.last <= f.0 {
      if f != (alt, v) { assert f in s.pq; }
    }
    forall f | f in s'.pq && f.1 in s'.done ensures s'.best[f.1] < f.0 {
      assert f != (alt, v) && f in s.pq;
    }
  }

  lemma PushQueued(s: Search, v: Node, alt: real, s': Search)
    requires Queue(s) && s.done <= s.best.Keys && v !in s.done
    requires v !in s.best || alt < s.best[v]
    requires Pushed(s, v, alt, s')
    ensures forall x :: x in s'.best && x !in s'.done ==> (s'.best[x], x) in s'.pq
  {
    forall x | x in s'.best && x !in s'.done ensures (s'.best[x], x) in s'.pq {
      if x != v { assert (s.best[x], x) in s.pq; }
    }
  }

  lemma PushUnique(s: Search, v: Node, alt: real, s': Search)
    requires Queue(s) && s.done <= s.best.Keys && v !in s.done
    requires v !in s.best || alt < s.best[v]
    requires Pushed(s, v, alt, s')
    ensures forall x :: x in s'.best ==> s'.pq[(s'.best[x], x)] <= 1
  {
    assert s.pq[(alt, v)] == 0;
    forall x | x in s'.best ensures s'.pq[(s'.best[x], x)] <= 1 {
      if x != v { assert (s'.best[x], x) != (alt, v); }
    }
  }

  lemma RelaxQueue(s: Search, u: Node, costU: real, e: Edge, s': Search)
    requires Queue(s) && s.done <= s.best.Keys && s.last == costU && e.weight >= 0.0
    requires e.dst !in s.done
    requires e.dst !in s.best || costU + e.weight < s.best[e.dst]
    requires Lowers(s, u, costU, e, s')
    ensures Queue(s')
  {
    var v, alt := e.dst, costU + e.weight;
    assert Pushed(s, v, alt, s');
    PushBounds(s, v, alt, s');
    PushQueued(s, v, alt, s');
    PushUnique(s, v, alt, s');
  }

  lemma RelaxChain(adj: Adj, start: Node, s: Search, u: Node, costU: real, e: Edge, s': Search)
    requires e in Out(adj, u) && e.dst != start
    requires Chain(adj, start, s) && s.done <= s.best.Keys
    requires u in s.done && u in s.best && s.best[u] == costU
    requires e.dst !in s.done
    requires e.dst !in s.best || costU + e.weight < s.best[e.dst]
    requires Lowers(s, u, costU, e, s')
    ensures Chain(adj, start, s')
  {
  }

  lemma RelaxRest(adj: Adj, s: Search, u: Node, costU: real, edges: seq<Edge>, i: nat, s': Search)
    requires Relaxed(adj, s, {u}) && s.done <= s.best.Keys
    requires u in s.done && u in s.best && s.best[u] == costU
    requires i < |edges| && PrefixRelaxed(s, costU, edges, i)
    requires edges[i].dst !in s.done
    requires edges[i].dst !in s.best || costU + edges[i].weight < s.best[edges[i].dst]
    requires Lowers(s, u, costU, edges[i], s')
    ensures Relaxed(adj, s', {u}) && PrefixRelaxed(s', costU, edges, i + 1)
    ensures u in s'.done && u in s'.best && s'.best[u] == costU && s'.last == s.last
  {
  }

  /** Relaxing an edge that lowers best[v] keeps every invariant and extends the relaxed prefix. */
  lemma RelaxLowers(adj: Adj, start: Node, end: Node, s: Search, u: Node, costU: real,
                    edges: seq<Edge>, i: nat, s': Search)
    requires NonNegative(adj)
    requires Settling(adj, start, end, s, u, costU)
    requires edges == Out(adj, u) && i < |edges| && PrefixRelaxed(s, costU, edges, i)
    requires edges[i].dst !in s.best || costU + edges[i].weight < s.best[edges[i].dst]
    requires Lowers(s, u, costU, edges[i], s')
    ensures Settling(adj, start, end, s', u, costU) && PrefixRelaxed(s', costU, edges, i + 1)
  {
    var e := edges[i];
    assert Tables(adj, start, end, s) && Queue(s) && Chain(adj, start, s);
    assert u in adj && e in adj[u];
    RelaxedTargetUnsettled(adj, start, end, s, u, costU, e);
    assert e.dst != start;
    RelaxTables(adj, start, end, s, u, costU, e, s');
    RelaxQueue(s, u, costU, e, s');
    RelaxChain(adj, start, s, u, costU, e, s');
    RelaxRest(adj, s, u, costU, edges, i, s');
  }

  /** The state after relaxing the edge e out of u at cost costU, when that lowers best[e.dst]. */
  lemma LowersBuilt(s: Search, u: Node, costU: real, e: Edge)
    ensures Lowers(s, u, costU, e, Search(s.pq + multiset{(costU + e.weight, e.dst)}, s.best[e.dst := costU + e.weight],
                                          s.prev[e.dst := Some(u)], s.done, s.last, s.time, s.clock, s.via[e.dst := e.weight]))
  {
  }

  /** RelaxLowers, with the state after the relaxation written out. */
  lemma RelaxLowersAt(adj: Adj, start: Node, end: Node, u: Node, costU: real, edges: seq<Edge>, i: nat,
                      pq: multiset<(real, Node)>, best: map<Node, real>, prev: map<Node, Option<Node>>,
                      done: set<Node>, last: real, time: map<Node, nat>, clock: nat, via: map<Node, real>)
    requires NonNegative(adj)
    requires var s := Search(pq, best, prev, done, last, time, clock, via);
             Settling(adj, start, end, s, u, costU) && PrefixRelaxed(s, costU, edges, i)
    requires edges == Out(adj, u) && i < |edges|
    requires edges[i].dst !in best || costU + edges[i].weight < best[edges[i].dst]
    ensures var s' := Search(pq + multiset{(costU + edges[i].weight, edges[i].dst)},
                             best[edges[i].dst := costU + edges[i].weight], prev[edges[i].dst := Some(u)],
                             done, last, time, clock, via[edges[i].dst := edges[i].weight]);
            Settling(adj, start, end, s', u, costU) && PrefixRelaxed(s', costU, edges, i + 1)
  {
    var s := Search(pq, best, prev, done, last, time, clock, via);
    LowersBuilt(s, u, costU, edges[i]);
    RelaxLowers(adj, start, end, s, u, costU, edges, i,
                Search(s.pq + multiset{(costU + edges[i].weight, edges[i].dst)}, s.best[edges[i].dst := costU + edges[i].weight],
                       s.prev[edges[i].dst := Some(u)], s.done, s.last, s.time, s.clock, s.via[edges[i].dst := edges[i].weight]));
  }

  /** An edge that does not lower best[v] is already relaxed. */
  lemma RelaxKeeps(s: Search, u: Node, costU: real, edges: seq<Edge>, i: nat)
    requires i < |edges| && PrefixRelaxed(s, costU, edges, i)
    requires edges[i].dst in s.best && costU + edges[i].weight >= s.best[edges[i].dst]
    ensures PrefixRelaxed(s, costU, edges, i + 1)
  {
  }

  /** Once all of u's edges are relaxed, every settled node is. */
  lemma RelaxAll(adj: Adj, start: Node, end: Node, s: Search, u: Node, costU: real, edges: seq<Edge>)
    requires Settling(adj, start, end, s, u, costU)
    requires edges == Out(adj, u) && PrefixRelaxed(s, costU, edges, |edges|)
    ensures Core(adj, start, end, s) && Relaxed(adj, s, {})
  {
    forall x, e | x in s.done && e in Out(adj, x)
      ensures x in s.best && e.dst in s.best && s.best[e.dst] <= s.best[x] + e.weight
    {
      if x == u {
        var j :| 0 <= j < |edges| && edges[j] == e;
      }
    }
  }

  /** When end is popped its entry is its best cost, and no walk is cheaper. */
  lemma PopEnd(adj: Adj, start: Node, end: Node, s: Search, entry: (real, Node))
    requires NonNegative(adj)
    requires Core(adj, start, end, s) && Relaxed(adj, s, {})
    requires IsMinEntry(entry, s.pq) && entry.1 == end
    ensures end in s.best && entry.0 == s.best[end]
    ensures forall p, ws :: WalkFromTo(adj, p, ws, start, end) ==> entry.0 <= Sum(ws)
  {
    assert (s.best[end], end) in s.pq;
    assert EntryLe(entry, (s.best[end], end));
    forall f | f in s.pq ensures entry.0 <= f.0 {
      assert EntryLe(entry, f);
    }
    assert s.done <= s.best.Keys;
    forall p, ws | WalkFromTo(adj, p, ws, start, end) ensures entry.0 <= Sum(ws) {
      NoCheaperWalk(adj, start, end, s.best, s.done, s.pq, entry.0, p, ws);
    }
  }

  /** An exhausted queue leaves a settled set closed under edges without end. */
  lemma Exhausted(adj: Adj, start: Node, end: Node, s: Search)
    requires Core(adj, start, end, s) && Relaxed(adj, s, {}) && s.pq == multiset{}
    ensures forall p, ws :: !WalkFromTo(adj, p, ws, start, end)
  {
    assert s.best.Keys == s.done;
    forall p, ws | WalkFromTo(adj, p, ws, start, end) ensures false {
      ClosedSetTraps(adj, s.done, p, ws);
    }
  }

  lemma {:induction false} WalkCons(adj: Adj, x: Node, w: real, p: seq<Node>, ws: seq<real>)
    requires IsWalk(adj, p, ws) && Edge(p[0], w) in Out(adj, x)
    ensures IsWalk(adj, [x] + p, [w] + ws)
  {
    var p', ws' := [x] + p, [w] + ws;
    forall i | 0 <= i < |ws'| ensures Edge(p'[i + 1], ws'[i]) in Out(adj, p'[i]) {
      if i > 0 {
        assert p'[i + 1] == p[i] && ws'[i] == ws[i - 1] && p'[i] == p[i - 1];
      }
    }
  }

  /** The walk-back from end along prev: following the predecessors reaches
      start, and the walk it traces weighs best[end]. */
  method WalkBack(ghost adj: Adj, start: Node, end: Node, prev: map<Node, Option<Node>>, ghost s: Search)
    returns (path: seq<Node>, ghost ws: seq<real>)
    requires Chain(adj, start, s) && s.prev == prev && prev.Keys == s.best.Keys && end in prev && end !in s.done
    requires start in s.best && s.best[start] == 0.0 && start in prev && prev[start] == None
    ensures WalkFromTo(adj, path, ws, start, end) && Sum(ws) == s.best[end]
  {
    ws := [];
    var back: seq<Node> := [];
    var cur: Option<Node> := Some(end);
    ghost var fwd: seq<Node> := [];
    while cur.Some?
      invariant fwd == Reversed(back)
      invariant cur.Some? ==> cur.value in prev && cur.value in s.best
      invariant back == [] ==> cur == Some(end) && ws == []
      invariant back != [] ==> && IsWalk(adj, fwd, ws) && fwd[|fwd| - 1] == end
                               && fwd[0] in s.best && Sum(ws) + s.best[fwd[0]] == s.best[end]
                               && fwd[0] in prev && prev[fwd[0]] == cur
                               && (cur.None? ==> fwd[0] == start)
      invariant back != [] && cur.Some? ==> cur.value in s.done
      decreases if cur.None? then 0 else if cur.value in s.done then s.time[cur.value] + 1 else s.clock + 1
    {
      var x := cur.value;
      ReversedSnoc(back, x);
      if back != [] {
        var f0 := fwd[0];
        SumCons(s.via[f0], ws);
        WalkCons(adj, x, s.via[f0], fwd, ws);
        ws := [s.via[f0]] + ws;
      }
      back := back + [x];
      fwd := [x] + fwd;
      cur := prev[x];
    }
    path := Reversed(back);
  }

  /** One iteration of the loop over u's out-edges: the edge u -> v of weight
      w is relaxed when costU + w is new or lower than best[v], which sets
      best[v] and prev[v] and pushes (costU + w, v). */
  method RelaxOne(adj: Adj, ghost start: Node, ghost end: Node, u: Node, costU: real, edges: seq<Edge>, i: nat,
                  pq0: multiset<(real, Node)>, best0: map<Node, real>, prev0: map<Node, Option<Node>>,
                  ghost done: set<Node>, ghost last: real, ghost time: map<Node, nat>, ghost clock: nat,
                  ghost via0: map<Node, real>)
    returns (pq: multiset<(real, Node)>, best: map<Node, real>, prev: map<Node, Option<Node>>, ghost via: map<Node, real>)
    requires NonNegative(adj) && edges == Out(adj, u) && i < |edges|
    requires var s := Search(pq0, best0, prev0, done, last, time, clock, via0);
             Settling(adj, start, end, s, u, costU) && PrefixRelaxed(s, costU, edges, i)
    ensures var s' := Search(pq, best, prev, done, last, time, clock, via);
            Settling(adj, start, end, s', u, costU) && PrefixRelaxed(s', costU, edges, i + 1)
    ensures if edges[i].dst !in best0 || costU + edges[i].weight < best0[edges[i].dst] then
              && pq == pq0 + multiset{(costU + edges[i].weight, edges[i].dst)}
              && best == best0[edges[i].dst := costU + edges[i].weight]
              && prev == prev0[edges[i].dst := Some(u)]
            else pq == pq0 && best == best0 && prev == prev0
  {
    if edges[i].dst !in best0 || costU + edges[i].weight < best0[edges[i].dst] {
      RelaxLowersAt(adj, start, end, u, costU, edges, i, pq0, best0, prev0, done, last, time, clock, via0);
      pq := pq0 + multiset{(costU + edges[i].weight, edges[i].dst)};
      best := best0[edges[i].dst := costU + edges[i].weight];
      prev := prev0[edges[i].dst := Some(u)];
      via := via0[edges[i].dst := edges[i].weight];
    } else {
      RelaxKeeps(Search(pq0, best0, prev0, done, last, time, clock, via0), u, costU, edges, i);
      pq, best, prev, via := pq0, best0, prev0, via0;
    }
  }

  /** The heap, best and prev after relaxing the first i of u's out-edges in
      order: every relaxed destination is known, at a cost no higher than
      through u, and no known cost rises. */
  function RelaxPrefix(u: Node, costU: real, edges: seq<Edge>, i: nat,
                       pq0: multiset<(real, Node)>, best0: map<Node, real>, prev0: map<Node, Option<Node>>)
    : (r: (multiset<(real, Node)>, map<Node, real>, map<Node, Option<Node>>))
    requires i <= |edges|
    ensures r.1.Keys == best0.Keys + set j | 0 <= j < i :: edges[j].dst
    ensures forall v :: v in best0 ==> r.1[v] <= best0[v]
    ensures forall j :: 0 <= j < i ==> r.1[edges[j].dst] <= costU + edges[j].weight
  {
    if i == 0 then (pq0, best0, prev0)
    else
      var (pq, best, prev) := RelaxPrefix(u, costU, edges, i - 1, pq0, best0, prev0);
      var e := edges[i - 1];
      if e.dst !in best || costU + e.weight < best[e.dst] then
        (pq + multiset{(costU + e.weight, e.dst)}, best[e.dst := costU + e.weight], prev[e.dst := Some(u)])
      else (pq, best, prev)
  }

  /** Relaxing edge i as RelaxOne does extends the relaxed prefix by that edge. */
  lemma RelaxPrefixStep(u: Node, costU: real, edges: seq<Edge>, i: nat,
                        pq0: multiset<(real, Node)>, best0: map<Node, real>, prev0: map<Node, Option<Node>>,
                        pq: multiset<(real, Node)>, best: map<Node, real>, prev: map<Node, Option<Node>>,
                        pq': multiset<(real, Node)>, best': map<Node, real>, prev': map<Node, Option<Node>>)
    requires i < |edges| && (pq, best, prev) == RelaxPrefix(u, costU, edges, i, pq0, best0, prev0)
    requires if edges[i].dst !in best || costU + edges[i].weight < best[edges[i].dst] then
               && pq' == pq + multiset{(costU + edges[i].weight, edges[i].dst)}
               && best' == best[edges[i].dst := costU + edges[i].weight]
               && prev' == prev[edges[i].dst := Some(u)]
             else pq' == pq && best' == best && prev' == prev
    ensures (pq', best', prev') == RelaxPrefix(u, costU, edges, i + 1, pq0, best0, prev0)
  {
  }

  /** The loop over u's out-edges. Afterwards every settled node is relaxed. */
  method RelaxOutEdges(adj: Adj, ghost start: Node, ghost end: Node, u: Node, costU: real,
                       pq0: multiset<(real, Node)>, best0: map<Node, real>, prev0: map<Node, Option<Node>>,
                       ghost done: set<Node>, ghost last: real, ghost time: map<Node, nat>, ghost clock: nat,
                       ghost via0: map<Node, real>)
    returns (pq: multiset<(real, Node)>, best: map<Node, real>, prev: map<Node, Option<Node>>, ghost via: map<Node, real>)
    requires NonNegative(adj)
    requires Settling(adj, start, end, Search(pq0, best0, prev0, done, last, time, clock, via0), u, costU)
    ensures var s' := Search(pq, best, prev, done, last, time, clock, via);
            Core(adj, start, end, s') && Relaxed(adj, s', {})
    ensures (pq, best, prev) == RelaxPrefix(u, costU, Out(adj, u), |Out(adj, u)|, pq0, best0, prev0)
  {
    pq, best, prev, via := pq0, best0, prev0, via0;
    var edges := Out(adj, u);
    for i := 0 to |edges|
      invariant Settling(adj, start, end, Search(pq, best, prev, done, last, time, clock, via), u, costU)
      invariant PrefixRelaxed(Search(pq, best, prev, done, last, time, clock, via), costU, edges, i)
      invariant (pq, best, prev) == RelaxPrefix(u, costU, edges, i, pq0, best0, prev0)
    {
      var pq1, best1, prev1 := pq, best, prev;
      pq, best, prev, via := RelaxOne(adj, start, end, u, costU, edges, i, pq, best, prev, done, last, time, clock, via);
      RelaxPrefixStep(u, costU, edges, i, pq0, best0, prev0, pq1, best1, prev1, pq, best, prev);
    }
    RelaxAll(adj, start, end, Search(pq, best, prev, done, last, time, clock, via), u, costU, edges);
  }

  datatype Shortest = Shortest(cost: real, path: seq<Node>)

  /** On success: the path is a walk from start to end whose weight is the
      returned cost, and no walk from start to end is cheaper. The search fails
      exactly when no walk reaches end. */
  method Dijkstra(adj: Adj, start: Node, end: Node) returns (r: Result<Shortest>, ghost ws: seq<real>)
    requires NonNegative(adj)
    ensures r.Ok? ==> WalkFromTo(adj, r.value.path, ws, start, end) && Sum(ws) == r.value.cost
    ensures r.Ok? ==> forall p, ws' :: WalkFromTo(adj, p, ws', start, end) ==> r.value.cost <= Sum(ws')
    ensures r.Err? ==> r.error == NotConnected
    ensures r.Err? <==> forall p, ws' :: !WalkFromTo(adj, p, ws', start, end)
  {
    var pq: multiset<(real, Node)> := multiset{(0.0, start)};
    var best: map<Node, real> := map[start := 0.0];
    var prev: map<Node, Option<Node>> := map[start := None];
    ghost var done: set<Node> := {};
    ghost var last: real := 0.0;
    ghost var time: map<Node, nat> := map[];
    ghost var clock: nat := 0;
    ghost var via: map<Node, real> := map[];
    SearchInit(adj, start, end);

    while pq != multiset{}
      invariant Core(adj, start, end, Search(pq, best, prev, done, last, time, clock, via))
      invariant Relaxed(adj, Search(pq, best, prev, done, last, time, clock, via), {})
      decreases Universe(adj, start) - done, |pq|
    {
      ghost var s := Search(pq, best, prev, done, last, time, clock, via);
      MinEntryExists(pq);
      var entry :| IsMinEntry(entry, pq);
      pq := pq - multiset{entry};
      var costU, u := entry.0, entry.1;

      if u == end {
        PopEnd(adj, start, end, s, entry);
        var path;
        path, ws := WalkBack(adj, start, end, prev, s);
        return Ok(Shortest(costU, path)), ws;
      }

      if costU > best[u] {
        PopStale(adj, start, end, s, entry, Search(pq, best, prev, done, last, time, clock, via));
        continue;
      }

      done := done + {u};
      time := time[u := clock];
      clock := clock + 1;
      last := costU;
      PopFresh(adj, start, end, s, entry, Search(pq, best, prev, done, last, time, clock, via));

      pq, best, prev, via := RelaxOutEdges(adj, start, end, u, costU, pq, best, prev, done, last, time, clock, via);
    }

    Exhausted(adj, start, end, Search(pq, best, prev, done, last, time, clock, via));
    return Err(NotConnected), [];
  }
}
