/** The state of the shortest-path search and the invariants its loops keep:
    the queue and the best/prev tables, extended with ghost bookkeeping. */
module SearchState {
  import opened Results
  import opened Graphs

  predicate NonNegative(adj: Adj)
  {
    forall u, e {:trigger e in adj[u]} :: u in adj && e in adj[u] ==> e.weight >= 0.0
  }

  /** heapq compares its (cost, node) entries as tuples: by cost, then by node id. */
  predicate EntryLe(a: (real, Node), b: (real, Node))
  {
    a.0 < b.0 || (a.0 == b.0 && a.1 <= b.1)
  }

  /** heappop returns an entry no greater than any other. */
  predicate IsMinEntry(entry: (real, Node), pq: multiset<(real, Node)>)
  {
    entry in pq && forall f :: f in pq ==> EntryLe(entry, f)
  }

  /** Every node the search can meet: the start, the keys and the destinations. */
  function Universe(adj: Adj, start: Node): set<Node>
  {
    adj.Keys + {start} + set u, e | u in adj && e in adj[u] :: e.dst
  }

  /** The ghost-augmented state of the search: the queue and the best/prev
      tables of the source, plus the settled set, the cost last settled, the
      order of settlement and the weight of each predecessor edge. */
  datatype Search = Search(pq: multiset<(real, Node)>, best: map<Node, real>, prev: map<Node, Option<Node>>,
                           done: set<Node>, last: real, time: map<Node, nat>, clock: nat, via: map<Node, real>)

  /** The tables: start costs 0, best and prev share their keys, settled
      nodes are known, costs are non-negative and no more than the last cost settled. */
  ghost predicate Tables(adj: Adj, start: Node, end: Node, s: Search)
  {
    && start in s.best && s.best[start] == 0.0
    && s.prev.Keys == s.best.Keys && s.prev[start] == None
    && s.done <= s.best.Keys && end !in s.done
    && s.last >= 0.0
    && (forall v :: v in s.best ==> s.best[v] >= 0.0)
    && (forall x :: x in s.done ==> s.best[x] <= s.last)
  }

  /** The queue: every entry is at least the best cost of its node and the
      last cost settled; every unsettled known node is queued at its best cost
      exactly once; entries of settled nodes are stale. */
  ghost predicate Queue(s: Search)
  {
    && (forall f :: f in s.pq ==> f.1 in s.best && s.best[f.1] <= f.0 && s.last <= f.0)
    && (forall v :: v in s.best && v !in s.done ==> (s.best[v], v) in s.pq)
    && (forall f :: f in s.pq && f.1 in s.done ==> s.best[f.1] < f.0)
    && (forall v :: v in s.best ==> s.pq[(s.best[v], v)] <= 1)
  }

  /** The predecessor chain: each known node other than start was reached
      from a settled node over an edge whose weight accounts for its cost, and
      that node was settled earlier. */
  ghost predicate Chain(adj: Adj, start: Node, s: Search)
  {
    && s.done == s.time.Keys && (forall x :: x in s.done ==> s.time[x] < s.clock)
    && (forall v {:trigger s.prev[v]} :: v in s.prev && v != start ==>
                     && v in s.best && s.prev[v].Some? && s.prev[v].value in s.done
                     && s.prev[v].value in s.best && v in s.via
                     && Edge(v, s.via[v]) in Out(adj, s.prev[v].value)
                     && s.best[v] == s.best[s.prev[v].value] + s.via[v])
    && (forall v {:trigger s.prev[v]} :: v in s.done && v != start ==>
                     v in s.prev && s.prev[v].Some? && s.time[s.prev[v].value] < s.time[v])
  }

  /** Only nodes the search can meet are known. */
  ghost predicate Known(adj: Adj, start: Node, s: Search)
  {
    s.best.Keys <= Universe(adj, start)
  }

  ghost predicate Core(adj: Adj, start: Node, end: Node, s: Search)
  {
    Tables(adj, start, end, s) && Known(adj, start, s) && Queue(s) && Chain(adj, start, s)
  }

  /** The settled nodes outside `except` have had all their edges relaxed. */
  ghost predicate Relaxed(adj: Adj, s: Search, except: set<Node>)
  {
    forall x, e :: x in s.done && x !in except && e in Out(adj, x) ==>
                     x in s.best && e.dst in s.best && s.best[e.dst] <= s.best[x] + e.weight
  }

  /** The first i out-edges of u have been relaxed. */
  ghost predicate PrefixRelaxed(s: Search, costU: real, edges: seq<Edge>, i: nat)
  {
    forall j :: 0 <= j < i && j < |edges| ==>
                  edges[j].dst in s.best && s.best[edges[j].dst] <= costU + edges[j].weight
  }

  /** Settling the popped node u: the pop and the settled set, last cost and clock. */
  ghost predicate Settles(s: Search, entry: (real, Node), s': Search)
  {
    s' == s.(pq := s.pq - multiset{entry}, done := s.done + {entry.1}, last := entry.0,
             time := s.time[entry.1 := s.clock], clock := s.clock + 1)
  }

  /** The body of the inner loop when the edge e out of u lowers best[e.dst]
      (or finds it unknown): best, prev and the predecessor weight of e.dst are
      set and (costU + e.weight, e.dst) is pushed; nothing else changes. */
  ghost predicate Lowers(s: Search, u: Node, costU: real, e: Edge, s': Search)
  {
    && s'.done == s.done && s'.last == s.last && s'.time == s.time && s'.clock == s.clock
    && s'.best == s.best[e.dst := costU + e.weight] && s'.prev == s.prev[e.dst := Some(u)]
    && s'.via == s.via[e.dst := e.weight] && s'.pq == s.pq + multiset{(costU + e.weight, e.dst)}
  }

  /** What holds throughout the inner loop over u's edges. */
  ghost predicate Settling(adj: Adj, start: Node, end: Node, s: Search, u: Node, costU: real)
  {
    && Core(adj, start, end, s) && Relaxed(adj, s, {u})
    && u in s.done && u in s.best && s.best[u] == costU && s.last == costU
  }

  /** The queue after best[v] drops to alt and (alt, v) is pushed. */
  ghost predicate Pushed(s: Search, v: Node, alt: real, s': Search)
  {
    && s'.pq == s.pq + multiset{(alt, v)} && s'.best == s.best[v := alt]
    && s'.done == s.done && s'.last == s.last
  }
}
