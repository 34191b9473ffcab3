/** The generator object (RecursiveGraphGenerator): its validated
    configuration, its template, and the global id counter that node
    expansion advances; build expands the template breadth-first and caches
    the shortest start -> end path. */
module Generator {
  import opened Results
  import opened Graphs
  import opened Template
  import opened Reach
  import opened Expansion
  import opened SearchState
  import opened ShortestPath

  /** The inner cloning loop: each template edge is appended to the row with
      its destination replaced by that node's global id. */
  method CloneEdges(x: Node, ghost base: Node, mapping: map<Node, Node>, row0: seq<Edge>, es: seq<Edge>)
    returns (row: seq<Edge>)
    requires forall e :: e in es ==> e.dst in mapping && mapping[e.dst] == MapId(x, base, e.dst)
    ensures row == row0 + Remap(es, x, base)
  {
    row := row0;
    for j := 0 to |es|
      invariant row == row0 + Remap(es[..j], x, base)
    {
      assert es[..j + 1][..j] == es[..j];
      row := row + [Edge(mapping[es[j].dst], es[j].weight)];
    }
    assert es[..|es|] == es;
  }

  /** The global ids of the copy other than x itself, listed in the order
      of their template nodes, which is the order they were handed out. */
  method InnerNodes(x: Node, ghost base: Node, n: nat, mapping: map<Node, Node>) returns (inner: seq<Node>)
    requires x < base && n >= 1
    requires forall t: Node :: t in mapping <==> t < n
    requires forall t :: t in mapping ==> mapping[t] == MapId(x, base, t)
    ensures |inner| == n - 1
    ensures forall i :: 0 <= i < |inner| ==> inner[i] == base + i
  {
    inner := [];
    for t := 0 to n
      invariant |inner| == if t == 0 then 0 else t - 1
      invariant forall i :: 0 <= i < |inner| ==> inner[i] == base + i
    {
      if mapping[t] != x {
        inner := inner + [mapping[t]];
      }
    }
  }

  /** Weights the sampler draws under a non-negative specification are non-negative. */
  lemma GrownNonNegative(spec: WeightSpec, g: Adj, end: Node, next: Node)
    requires Grown(spec, g, end, next) && NonNegativeSpec(spec)
    ensures NonNegative(g)
  {
    forall u, e | u in g && e in g[u] ensures e.weight >= 0.0 {
      PossibleNonNegative(spec, e.weight);
    }
  }

  /** The cloning loop of _expand_node, over the template's rows in key
      order: each copy row starts from setdefault's list (empty, as x's row
      was just cleared and the fresh ids are new) and receives the remapped
      template edges. */
  method CloneTemplate(tpl: Adj, n: nat, x: Node, ghost base: Node, mapping: map<Node, Node>, ghost g: Adj, cleared: Adj)
    returns (c: Adj)
    requires n >= 2 && (forall t: Node :: t in tpl <==> t < n) && NoDanglingIds(tpl)
    requires x < base && x in g && (forall v :: v in g ==> v < base) && cleared == g[x := []]
    requires forall t: Node :: t in mapping <==> t < n
    requires forall t :: t in mapping ==> mapping[t] == MapId(x, base, t)
    ensures ClonedBelow(tpl, n, x, base, g, c, n)
  {
    c := cleared;
    for t := 0 to n
      invariant ClonedBelow(tpl, n, x, base, g, c, t)
    {
      var src := mapping[t];
      var row := if src in c then c[src] else [];
      ClonedStart(tpl, n, x, base, g, c, t);
      row := CloneEdges(x, base, mapping, row, tpl[t]);
      ClonedStep(tpl, n, x, base, g, c, t);
      c := c[src := row];
    }
  }

  /** The table part of _expand_node: clear x's row, clone the template
      under the mapping, and move x's old out-edges to the copy's end. */
  method Rewire(tpl: Adj, n: nat, x: Node, ghost base: Node, mapping: map<Node, Node>, gAdj: Adj)
    returns (r: Adj, subEnd: Node)
    requires n >= 2 && (forall t: Node :: t in tpl <==> t < n) && NoDanglingIds(tpl) && tpl[n - 1] == []
    requires x < base && x in gAdj && (forall v :: v in gAdj ==> v < base)
    requires forall t: Node :: t in mapping <==> t < n
    requires forall t :: t in mapping ==> mapping[t] == MapId(x, base, t)
    ensures ExpandedFrom(tpl, n, gAdj, x, base, r)
    ensures subEnd == base + n - 2
  {
    var outgoing := Out(gAdj, x);
    var cleared := gAdj[x := []];
    subEnd := mapping[n - 1];
    var c := CloneTemplate(tpl, n, x, base, mapping, gAdj, cleared);
    ClonedExpanded(tpl, n, x, base, gAdj, c, subEnd, outgoing);
    r := c[subEnd := c[subEnd] + outgoing];
  }

  class RecursiveGraphGenerator {
    const baseNodes: nat
    const maxEdges: int
    const recursionDepth: int
    const spec: WeightSpec
    /** _tpl_adj; the template's start is node 0 and its end node baseNodes - 1 */
    const tplAdj: Adj
    /** _next_id: the next fresh global node id */
    var nextId: nat

    /** The template is one _build_template can return, and no fresh id
        handed out so far collides with a template id. */
    ghost predicate Valid()
      reads this
    {
      IsTemplate(baseNodes, maxEdges, spec, tplAdj) && baseNodes <= nextId
    }

    constructor (baseNodes: nat, maxEdges: int, recursionDepth: int, spec: WeightSpec, tplAdj: Adj)
      requires IsTemplate(baseNodes, maxEdges, spec, tplAdj)
      ensures this.baseNodes == baseNodes && this.maxEdges == maxEdges && this.recursionDepth == recursionDepth
      ensures this.spec == spec && this.tplAdj == tplAdj
      ensures nextId == baseNodes
      ensures Valid()
    {
      this.baseNodes := baseNodes;
      this.maxEdges := maxEdges;
      this.recursionDepth := recursionDepth;
      this.spec := spec;
      this.tplAdj := tplAdj;
      nextId := baseNodes;
    }

    /** __init__: the configuration checks, then the template built from the
        draws; a failing check or a failing draw is the constructor's error. */
    static method Create(baseNodes: int, maxEdges: int, recursionDepth: int,
                         choices: Option<seq<real>>, range: Option<(real, real)>, d: TemplateDraws)
      returns (r: Result<RecursiveGraphGenerator>)
      requires baseNodes >= 2 && maxEdges >= 1 ==> DrawsFit(baseNodes, maxEdges, d)
      ensures Validate(baseNodes, maxEdges, choices, range).Err? ==>
                r == Err(Validate(baseNodes, maxEdges, choices, range).error)
      ensures Validate(baseNodes, maxEdges, choices, range).Ok? ==>
                (r.Ok? <==> TemplateBuilds(baseNodes, Validate(baseNodes, maxEdges, choices, range).value, d))
      ensures r.Ok? ==> && fresh(r.value) && r.value.Valid()
                        && r.value.baseNodes == baseNodes && r.value.maxEdges == maxEdges
                        && r.value.recursionDepth == recursionDepth
                        && r.value.spec == Validate(baseNodes, maxEdges, choices, range).value
                        && r.value.nextId == baseNodes
      ensures r.Ok? ==> forall u :: 0 <= u < baseNodes - 1 ==>
                          && |r.value.tplAdj[u]| == 1 + |d.picks[u]|
                          && r.value.tplAdj[u][0] == Edge(u + 1, SampleWeight(r.value.spec, d.backbone[u]).value)
      ensures r.Ok? ==> forall u :: 0 <= u < baseNodes - 1 ==>
                          r.value.tplAdj[u] == ExtraRow(baseNodes, r.value.spec, u,
                                                        Edge(u + 1, SampleWeight(r.value.spec, d.backbone[u]).value),
                                                        d.picks[u], d.weights[u])
      ensures Validate(baseNodes, maxEdges, choices, range).Ok? && r.Err? ==>
                (r.error == EmptyWeightChoices <==> Validate(baseNodes, maxEdges, choices, range).value == Choices([]))
      ensures Validate(baseNodes, maxEdges, choices, range).Ok? && r.Err? ==>
                r.error == EmptyWeightChoices || r.error == SampleLargerThanPopulation
    {
      var v := Validate(baseNodes, maxEdges, choices, range);
      if v.Err? {
        return Err(v.error);
      }
      var tpl := BuildTemplate(baseNodes, maxEdges, v.value, d);
      if tpl.Err? {
        return Err(tpl.error);
      }
      var gen := new RecursiveGraphGenerator(baseNodes, maxEdges, recursionDepth, v.value, tpl.value);
      return Ok(gen);
    }

    /** The mapping loop of _expand_node: the template start maps to x, every
        other template node to the next fresh id, in template order. */
    method AllocateIds(x: Node) returns (mapping: map<Node, Node>)
      requires Valid()
      modifies this
      ensures Valid() && nextId == old(nextId) + baseNodes - 1
      ensures forall t: Node :: t in mapping <==> t < baseNodes
      ensures forall t :: t in mapping ==> mapping[t] == MapId(x, old(nextId), t)
    {
      mapping := map[0 := x];
      for t := 0 to baseNodes
        invariant Valid() && nextId == old(nextId) + (if t == 0 then 0 else t - 1)
        invariant forall s: Node :: s in mapping <==> s == 0 || s < t
        invariant forall s :: s in mapping ==> mapping[s] == MapId(x, old(nextId), s)
      {
        if t != 0 {
          mapping := mapping[t := nextId];
          nextId := nextId + 1;
        }
      }
    }

    /** _expand_node: x becomes the start of a fresh copy of the template;
        the copy's other nodes take the next baseNodes - 1 ids, and x's old
        out-edges move to the copy's end. Returns the fresh ids and the
        copy's end. */
    method ExpandNode(x: Node, gAdj: Adj) returns (r: Adj, inner: seq<Node>, subEnd: Node)
      requires Valid() && x in gAdj && forall v :: v in gAdj ==> v < nextId
      modifies this
      ensures Valid() && nextId == old(nextId) + baseNodes - 1
      ensures ExpandedFrom(tplAdj, baseNodes, gAdj, x, old(nextId), r)
      ensures inner == FreshIds(old(nextId), baseNodes - 1)
      ensures subEnd == old(nextId) + baseNodes - 2
    {
      ghost var base := nextId;
      var mapping := AllocateIds(x);
      r, subEnd := Rewire(tplAdj, baseNodes, x, base, mapping, gAdj);
      inner := InnerNodes(x, base, baseNodes, mapping);
      assert inner == FreshIds(base, baseNodes - 1);
    }

    /** _expand_node on a grown table keeps it grown: the end follows the
        copy when x is the end, the old ids stay, and the fresh inner ids
        are nodes of the result. */
    method ExpandGrown(x: Node, g: Adj, end: Node) returns (r: Adj, end': Node, inner: seq<Node>)
      requires Valid() && Grown(spec, g, end, nextId) && x in g
      modifies this
      ensures Valid() && nextId == old(nextId) + baseNodes - 1
      ensures ExpandedFrom(tplAdj, baseNodes, g, x, old(nextId), r) && inner == FreshIds(old(nextId), baseNodes - 1)
      ensures end' == if x == end then old(nextId) + baseNodes - 2 else end
      ensures GrewBy(baseNodes, spec, g, r, end', inner, nextId)
    {
      ghost var base := nextId;
      var subEnd;
      r, inner, subEnd := ExpandNode(x, g);
      ExpandKeeps(baseNodes, maxEdges, spec, tplAdj, g, end, x, base, r);
      end' := if x == end then subEnd else end;
    }

    /** The state of build's queue loop, on this generator's ids. */
    ghost predicate Draining(g: Adj, end: Node, q: seq<(Node, int)>, done: nat)
      reads this
    {
      Valid() && Drained(baseNodes, recursionDepth, spec, tplAdj, g, end, q, done, nextId)
    }

    /** The state after the queue loop expands its first entry (x, depth),
        with fresh ids from base on: the counter has advanced to next', g' is
        g with x replaced by a copy of the template, the end follows the
        copy's end when x was the end, and q' is the rest of the queue
        followed by the fresh ids at depth + 1 while that is within
        recursionDepth. */
    ghost predicate Expanded(g: Adj, end: Node, q: seq<(Node, int)>, base: Node, next': Node,
                             g': Adj, end': Node, q': seq<(Node, int)>)
      requires q != []
    {
      && next' == base + baseNodes - 1
      && baseNodes >= 2 && (forall t: Node :: t in tplAdj <==> t < baseNodes)
      && ExpandedFrom(tplAdj, baseNodes, g, q[0].0, base, g')
      && end' == (if q[0].0 == end then base + baseNodes - 2 else end)
      && q' == q[1..] + if q[0].1 < recursionDepth then AtDepth(FreshIds(base, baseNodes - 1), q[0].1 + 1) else []
    }

    /** The expanding pass of build's queue loop: the first entry is within
        recursionDepth, so its node is expanded, the end follows the copy
        when the end was expanded, and the inner nodes re-enter the queue
        one level deeper while that level is within recursionDepth. */
    method ExpandEntry(g: Adj, end: Node, q: seq<(Node, int)>, ghost done: nat)
      returns (g': Adj, end': Node, q': seq<(Node, int)>, ghost done': nat)
      requires q != [] && q[0].1 <= recursionDepth && Draining(g, end, q, done)
      modifies this
      ensures Draining(g', end', q', done')
      ensures Pending(baseNodes, recursionDepth, q') < Pending(baseNodes, recursionDepth, q)
      ensures Expanded(g, end, q, old(nextId), nextId, g', end', q') && done' == done + 1
    {
      var nodeId, depth := q[0].0, q[0].1;
      ghost var base := nextId;
      var inner;
      g', end', inner := ExpandGrown(nodeId, g, end);
      q' := q[1..] + (if depth < recursionDepth then AtDepth(inner, depth + 1) else []);
      DrainedExpand(baseNodes, recursionDepth, spec, tplAdj, g, end, q, done, base,
                    g', end', inner, nextId, q');
      done' := done + 1;
    }

    /** One pass of build's queue loop: pop the first entry and drop it when
        it is deeper than recursionDepth, otherwise expand it. */
    method Step(g: Adj, end: Node, q: seq<(Node, int)>, ghost done: nat)
      returns (g': Adj, end': Node, q': seq<(Node, int)>, ghost done': nat)
      requires q != [] && Draining(g, end, q, done)
      modifies this
      ensures Draining(g', end', q', done') && old(nextId) <= nextId
      ensures Pending(baseNodes, recursionDepth, q') < Pending(baseNodes, recursionDepth, q)
              || (Pending(baseNodes, recursionDepth, q') == Pending(baseNodes, recursionDepth, q) && |q'| < |q|)
      ensures q[0].1 > recursionDepth ==> g' == g && end' == end && q' == q[1..] && nextId == old(nextId)
      ensures q[0].1 <= recursionDepth ==> Expanded(g, end, q, old(nextId), nextId, g', end', q')
      ensures done' == if q[0].1 > recursionDepth then done else done + 1
    {
      if q[0].1 > recursionDepth {
        DrainedSkip(baseNodes, recursionDepth, spec, tplAdj, g, end, q, done, nextId);
        return g, end, q[1..], done;
      }
      g', end', q', done' := ExpandEntry(g, end, q, done);
    }

    /** The queue loop of build: every template node enters at depth 1, and
        the loop runs until the queue is empty. */
    method Expand() returns (g: Adj, end: Node)
      requires Valid()
      modifies this
      ensures Valid() && nextId == old(nextId) + NodeCount(baseNodes, recursionDepth) - baseNodes
      ensures Grown(spec, g, end, nextId)
      ensures |g.Keys| == NodeCount(baseNodes, recursionDepth)
      ensures recursionDepth <= 0 ==> g == tplAdj && end == baseNodes - 1
    {
      g := tplAdj;
      end := baseNodes - 1;
      var q := AtDepth(Iota(baseNodes), 1);
      ghost var done: nat := 0;
      TemplateGrown(baseNodes, maxEdges, spec, tplAdj, nextId);
      IotaAt(baseNodes);
      AtDepthAt(Iota(baseNodes), 1);
      PendingAtDepth(baseNodes, recursionDepth, Iota(baseNodes), 1);
      while q != []
        invariant Draining(g, end, q, done) && nextId == old(nextId) + done * (baseNodes - 1)
        decreases Pending(baseNodes, recursionDepth, q), |q|
      {
        ghost var done0 := done;
        g, end, q, done := Step(g, end, q, done);
        if done != done0 {
          CountStep(baseNodes, old(nextId), done0, nextId - (baseNodes - 1));
        }
      }
      CountComplete(baseNodes, recursionDepth, done, |g.Keys|);
      CountComplete(baseNodes, recursionDepth, done, nextId - old(nextId) + baseNodes);
    }

    /** build: expand, then search the expanded graph once. The search cannot
        fail, because the end stays reachable from 0; the graph holds the
        optimal path and its cost. */
    method Build() returns (r: Result<Graph>)
      requires Valid() && NonNegativeSpec(spec)
      modifies this
      ensures Valid() && nextId == old(nextId) + NodeCount(baseNodes, recursionDepth) - baseNodes
      ensures r.Ok?
      ensures r.value.start == 0 && r.value.end in r.value.adj && r.value.adj[r.value.end] == []
      ensures NoSelfLoops(r.value.adj) && NoDuplicateDests(r.value.adj) && NoDanglingIds(r.value.adj)
      ensures r.value.NNodes() == NodeCount(baseNodes, recursionDepth)
      ensures recursionDepth <= 0 ==> r.value.adj == tplAdj && r.value.end == baseNodes - 1
      ensures exists ws :: WalkFromTo(r.value.adj, r.value.optimalPath, ws, 0, r.value.end)
                           && Sum(ws) == r.value.optimalPathCost
      ensures forall p, ws :: WalkFromTo(r.value.adj, p, ws, 0, r.value.end) ==> r.value.optimalPathCost <= Sum(ws)
      ensures r.value.PathCostSpec(r.value.optimalPath) == Ok(r.value.optimalPathCost)
    {
      var g, end := Expand();
      GrownNonNegative(spec, g, end, nextId);
      var sp;
      ghost var ws;
      sp, ws := Dijkstra(g, 0, end);
      if sp.Err? {
        assert false;
      }
      r := Ok(Graph(g, 0, end, sp.value.cost, sp.value.path));
      OptimalPathVerifies(r.value);
    }
  }
}
