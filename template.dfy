/** The generator's configuration checks, its weight sampler, and the random
    base template (RecursiveGraphGenerator.__init__, _sample_weight and
    _build_template). The random library is not modelled: every draw it would
    make is an explicit input. */
module Template {
  import opened Results
  import opened Graphs

  /** The weight specification: exactly one of weight_choices and weight_range. */
  datatype WeightSpec = Choices(ws: seq<real>) | Range(lo: real, hi: real)

  /** The constructor's checks, in the order it makes them; on success, the
      weight specification it keeps. */
  function Validate(baseNodes: int, maxEdges: int, choices: Option<seq<real>>, range: Option<(real, real)>)
    : (r: Result<WeightSpec>)
    ensures r.Ok? <==> (&& baseNodes >= 2 && maxEdges >= 1 && (choices.Some? != range.Some?)
                        && (range.Some? ==> range.value.0 <= range.value.1))
    ensures baseNodes < 2 ==> r == Err(BaseNodesTooSmall)
    ensures baseNodes >= 2 && maxEdges < 1 ==> r == Err(MaxEdgesNotPositive)
    ensures baseNodes >= 2 && maxEdges >= 1 && choices.Some? == range.Some? ==> r == Err(NotExactlyOneWeightSpec)
    ensures (&& baseNodes >= 2 && maxEdges >= 1 && choices.None? && range.Some?
             && range.value.0 > range.value.1) ==> r == Err(WeightRangeInverted)
    ensures r.Ok? && choices.Some? ==> r.value == Choices(choices.value)
    ensures r.Ok? && range.Some? ==> r.value == Range(range.value.0, range.value.1)
  {
    if baseNodes < 2 then Err(BaseNodesTooSmall)
    else if maxEdges < 1 then Err(MaxEdgesNotPositive)
    else if choices.None? == range.None? then Err(NotExactlyOneWeightSpec)
    else if range.Some? && range.value.0 > range.value.1 then Err(WeightRangeInverted)
    else if choices.Some? then Ok(Choices(choices.value))
    else Ok(Range(range.value.0, range.value.1))
  }

  /** A value of random.random(): random.uniform(lo, hi) is lo + (hi - lo) * f for such an f. */
  type Fraction = f: real | 0.0 <= f <= 1.0

  /** One draw of the random library for a weight: an index for
      random.choice and a fraction for random.uniform. */
  datatype WeightDraw = WeightDraw(index: nat, fraction: Fraction)

  /** A weight the sampler can return under spec. */
  predicate Possible(spec: WeightSpec, w: real)
  {
    match spec
    case Choices(ws) => w in ws
    case Range(lo, hi) => (lo <= w <= hi) || (hi <= w <= lo)
  }

  /** Every weight the sampler can return is non-negative. */
  predicate NonNegativeSpec(spec: WeightSpec)
  {
    match spec
    case Choices(ws) => forall i :: 0 <= i < |ws| ==> ws[i] >= 0.0
    case Range(lo, hi) => lo >= 0.0 && hi >= 0.0
  }

  lemma PossibleNonNegative(spec: WeightSpec, w: real)
    requires NonNegativeSpec(spec) && Possible(spec, w)
    ensures w >= 0.0
  {
    if spec.Choices? {
      var i :| 0 <= i < |spec.ws| && spec.ws[i] == w;
    }
  }

  lemma MulNonNegative(a: real, b: real)
    requires 0.0 <= a && 0.0 <= b
    ensures 0.0 <= a * b
  {
  }

  /** lo + (hi - lo) * f lies between lo and hi for every f in [0, 1]. */
  lemma ScaleBetween(lo: real, hi: real, f: real)
    requires 0.0 <= f <= 1.0
    ensures Possible(Range(lo, hi), lo + (hi - lo) * f)
  {
    if lo <= hi {
      MulNonNegative(hi - lo, f);
      MulNonNegative(hi - lo, 1.0 - f);
      assert (hi - lo) * (1.0 - f) == (hi - lo) - (hi - lo) * f;
    } else {
      MulNonNegative(lo - hi, f);
      MulNonNegative(lo - hi, 1.0 - f);
      assert (lo - hi) * (1.0 - f) == (lo - hi) - (lo - hi) * f;
      assert (hi - lo) * f == -((lo - hi) * f);
    }
  }

  /** _sample_weight: random.choice over the choices (which fails on an empty
      list) or random.uniform over the range. */
  function SampleWeight(spec: WeightSpec, d: WeightDraw): (r: Result<real>)
    ensures r.Err? <==> spec == Choices([])
    ensures r.Err? ==> r.error == EmptyWeightChoices
    ensures r.Ok? ==> Possible(spec, r.value)
  {
    match spec
    case Choices(ws) => if |ws| == 0 then Err(EmptyWeightChoices) else Ok(ws[d.index % |ws|])
    case Range(lo, hi) =>
      ScaleBetween(lo, hi, d.fraction);
      Ok(lo + (hi - lo) * d.fraction)
  }

  /** The starting table: every template node 0 .. n-1 with an empty list. */
  function EmptyRows(n: nat): (r: Adj)
    ensures forall v: Node :: v in r <==> v < n
    ensures forall v :: v in r ==> r[v] == []
  {
    if n == 0 then map[] else EmptyRows(n - 1)[n - 1 := []]
  }

  predicate Distinct(s: seq<Node>)
  {
    forall i, j :: 0 <= i < j < |s| ==> s[i] != s[j]
  }

  /** The candidate destinations of u: the nodes below n other than u and its
      existing destinations, in increasing order. */
  function Candidates(n: nat, u: Node, existing: set<Node>): seq<Node>
  {
    if n == 0 then []
    else Candidates(n - 1, u, existing) + if n - 1 != u && n - 1 !in existing then [n - 1] else []
  }

  /** The candidates are exactly the nodes below n other than u and the
      existing destinations, each listed once, in increasing order. */
  lemma {:induction false} CandidatesSound(n: nat, u: Node, existing: set<Node>)
    ensures var r := Candidates(n, u, existing);
            && (forall v: Node :: v in r <==> v < n && v != u && v !in existing)
            && (forall i :: 0 <= i < |r| ==> r[i] < n)
            && (forall i, j :: 0 <= i < j < |r| ==> r[i] < r[j])
  {
    if n > 0 {
      CandidatesSound(n - 1, u, existing);
      var c := Candidates(n - 1, u, existing);
      var last := if n - 1 != u && n - 1 !in existing then [n - 1] else [];
      assert Candidates(n, u, existing) == c + last;
    }
  }

  /** With one existing destination w, the candidates are the n nodes less u and w. */
  lemma {:induction false} CandidatesCount(n: nat, u: Node, w: Node)
    ensures |Candidates(n, u, {w})| == n - (if u < n then 1 else 0) - (if w < n && w != u then 1 else 0)
  {
    if n > 0 {
      CandidatesCount(n - 1, u, w);
      var last := if n - 1 != u && n - 1 !in {w} then [n - 1] else [];
      assert Candidates(n, u, {w}) == Candidates(n - 1, u, {w}) + last;
      assert |last| == if n - 1 != u && n - 1 != w then 1 else 0;
    }
  }

  /** pool without its element at i. */
  function Remove(pool: seq<Node>, i: nat): (r: seq<Node>)
    requires i < |pool|
    ensures |r| == |pool| - 1
    ensures forall x :: x in r ==> x in pool
    ensures Distinct(pool) ==> Distinct(r) && pool[i] !in r
  {
    pool[..i] + pool[i + 1..]
  }

  /** random.sample(pool, |picks|) as a selection without replacement: each
      pick takes, by its index modulo the number left, one element not yet
      taken. Asking for more elements than the pool holds is an error. */
  function Sample(pool: seq<Node>, picks: seq<nat>): (r: Result<seq<Node>>)
    ensures r.Err? <==> |picks| > |pool|
    ensures r.Err? ==> r.error == SampleLargerThanPopulation
    ensures r.Ok? ==> |r.value| == |picks|
    decreases |picks|
  {
    if |picks| > |pool| then Err(SampleLargerThanPopulation)
    else if picks == [] then Ok([])
    else
      var i := picks[0] % |pool|;
      match Sample(Remove(pool, i), picks[1..])
      case Err(e) => Err(e)
      case Ok(rest) => Ok([pool[i]] + rest)
  }

  /** A sample takes its elements from the pool, each at most once. */
  lemma {:induction false} SampleSound(pool: seq<Node>, picks: seq<nat>)
    requires |picks| <= |pool|
    ensures forall x :: x in Sample(pool, picks).value ==> x in pool
    ensures Distinct(pool) ==> Distinct(Sample(pool, picks).value)
    decreases |picks|
  {
    if picks != [] {
      var i := picks[0] % |pool|;
      SampleSound(Remove(pool, i), picks[1..]);
    }
  }

  /** The draws of _build_template: one weight draw per backbone edge
      u -> u+1; and per non-end node u the indices random.sample uses for its
      extra destinations (randint's k_extra is their number) and one weight
      draw per extra destination. */
  datatype TemplateDraws = TemplateDraws(backbone: seq<WeightDraw>, picks: seq<seq<nat>>, weights: seq<seq<WeightDraw>>)

  /** What the random library guarantees of its draws besides their
      fractions: randint(0, room) asks for at most room extra edges, room
      being max_edges less the backbone edge. */
  predicate DrawsFit(n: nat, maxEdges: int, d: TemplateDraws)
  {
    && |d.backbone| == n - 1 && |d.picks| == n - 1 && |d.weights| == n - 1
    && (forall u :: 0 <= u < n - 1 ==> |d.weights[u]| == |d.picks[u]|)
    && (forall u :: 0 <= u < |d.picks| ==> |d.picks[u]| <= if maxEdges > 1 then maxEdges - 1 else 0)
  }

  /** The template is built without error: a weight can be drawn, and no node
      asks random.sample for more than the n - 2 nodes other than itself and
      its successor. */
  predicate TemplateBuilds(n: nat, spec: WeightSpec, d: TemplateDraws)
  {
    spec != Choices([]) && forall u :: 0 <= u < |d.picks| ==> |d.picks[u]| <= n - 2
  }

  /** The chosen destinations, in order, each with the weight its draw gives. */
  function Weighted(spec: WeightSpec, chosen: seq<Node>, draws: seq<WeightDraw>): (r: seq<Edge>)
    requires spec != Choices([]) && |chosen| == |draws|
  {
    if chosen == [] then []
    else
      Weighted(spec, chosen[..|chosen| - 1], draws[..|draws| - 1])
        + [Edge(chosen[|chosen| - 1], SampleWeight(spec, draws[|draws| - 1]).value)]
  }

  /** Weighting keeps the destinations and their order, and draws possible weights. */
  lemma {:induction false} WeightedShape(spec: WeightSpec, chosen: seq<Node>, draws: seq<WeightDraw>)
    requires spec != Choices([]) && |chosen| == |draws|
    ensures var r := Weighted(spec, chosen, draws);
            && |r| == |chosen|
            && (forall j :: 0 <= j < |r| ==> r[j].dst == chosen[j] && Possible(spec, r[j].weight))
  {
    if chosen != [] {
      WeightedShape(spec, chosen[..|chosen| - 1], draws[..|draws| - 1]);
    }
  }

  /** Distinct chosen destinations give distinct edge destinations, each a chosen one. */
  lemma WeightedDests(spec: WeightSpec, chosen: seq<Node>, draws: seq<WeightDraw>)
    requires spec != Choices([]) && |chosen| == |draws|
    ensures var r := Weighted(spec, chosen, draws);
            && (forall e :: e in r ==> e.dst in chosen && Possible(spec, e.weight))
            && (Distinct(chosen) ==> DistinctDests(r))
  {
    WeightedShape(spec, chosen, draws);
    var r := Weighted(spec, chosen, draws);
    forall e | e in r ensures e.dst in chosen && Possible(spec, e.weight) {
      var j :| 0 <= j < |r| && r[j] == e;
      assert chosen[j] in chosen;
    }
  }

  /** The template's guarantees: nodes 0 .. n-1, the backbone u -> u+1 listed
      first, the end node a sink, no self-loops, no repeated destinations, no
      destination outside the nodes, out-degrees at most maxEdges, and weights
      the sampler can return. */
  ghost predicate IsTemplate(n: nat, maxEdges: int, spec: WeightSpec, adj: Adj)
  {
    && n >= 2
    && (forall v: Node :: v in adj <==> v < n)
    && (forall u :: 0 <= u < n - 1 ==> |adj[u]| >= 1 && adj[u][0].dst == u + 1)
    && adj[n - 1] == []
    && NoSelfLoops(adj) && NoDuplicateDests(adj) && NoDanglingIds(adj)
    && (forall u {:trigger adj[u]} :: u in adj ==> |adj[u]| <= maxEdges)
    && (forall u, e {:trigger e in adj[u]} :: u in adj && e in adj[u] ==> Possible(spec, e.weight))
  }

  /** The per-node guarantees of a template: distinct destinations, at most
      maxEdges of them, all nodes below n other than u, at possible weights. */
  ghost predicate RowFits(n: nat, maxEdges: int, spec: WeightSpec, u: Node, row: seq<Edge>)
  {
    && DistinctDests(row) && |row| <= maxEdges
    && forall e :: e in row ==> e.dst < n && e.dst != u && Possible(spec, e.weight)
  }

  /** An edge u -> u + 1 followed by edges to distinct other nodes below n is a row that fits. */
  lemma BackboneFirstFits(n: nat, maxEdges: int, spec: WeightSpec, u: Node, b: Edge, es: seq<Edge>)
    requires u + 1 < n && b.dst == u + 1 && Possible(spec, b.weight) && |es| < maxEdges && DistinctDests(es)
    requires forall e :: e in es ==> e.dst < n && e.dst != u && e.dst != u + 1 && Possible(spec, e.weight)
    ensures RowFits(n, maxEdges, spec, u, [b] + es)
  {
    var row := [b] + es;
    forall e | e in row ensures e.dst < n && e.dst != u && Possible(spec, e.weight) {
      if e != b { assert e in es; }
    }
    forall i, j | 0 <= i < j < |row| ensures row[i].dst != row[j].dst {
      if i > 0 {
        assert row[i] == es[i - 1] && row[j] == es[j - 1];
      } else {
        assert row[j] in es;
      }
    }
  }

  /** A table whose rows fit, with the backbone first and the end node a sink, is a template. */
  lemma RowsFitTemplate(n: nat, maxEdges: int, spec: WeightSpec, adj: Adj)
    requires n >= 2 && (forall v: Node :: v in adj <==> v < n)
    requires forall u :: 0 <= u < n - 1 ==> |adj[u]| >= 1 && adj[u][0].dst == u + 1
    requires adj[n - 1] == []
    requires forall u {:trigger adj[u]} :: u in adj ==> RowFits(n, maxEdges, spec, u, adj[u])
    ensures IsTemplate(n, maxEdges, spec, adj)
  {
  }

  /** The append loop over the sampled destinations: one edge to each, in
      order, with a freshly sampled weight. */
  method AppendWeighted(spec: WeightSpec, row0: seq<Edge>, chosen: seq<Node>, draws: seq<WeightDraw>)
    returns (row: seq<Edge>)
    requires spec != Choices([]) && |chosen| == |draws|
    ensures row == row0 + Weighted(spec, chosen, draws)
  {
    row := row0;
    for j := 0 to |chosen|
      invariant row == row0 + Weighted(spec, chosen[..j], draws[..j])
    {
      var w := SampleWeight(spec, draws[j]).value;
      assert chosen[..j + 1][..j] == chosen[..j] && draws[..j + 1][..j] == draws[..j];
      row := row + [Edge(chosen[j], w)];
    }
    assert chosen[..|chosen|] == chosen && draws[..|draws|] == draws;
  }

  /** One pass of the extra-edge loop for node u < n - 1, whose list holds
      only its backbone edge: unless there is no room or randint drew 0,
      sample extra destinations among the candidates and append an edge to
      each, with a fresh weight. Only u's list changes. */
  method ExtendNode(n: nat, maxEdges: int, spec: WeightSpec, d: TemplateDraws, u: Node, adj: Adj)
    returns (r: Result<Adj>)
    requires n >= 2 && maxEdges >= 1 && DrawsFit(n, maxEdges, d) && spec != Choices([]) && u < n - 1
    requires u in adj && adj[u] == [Edge(u + 1, SampleWeight(spec, d.backbone[u]).value)]
    ensures r.Ok? <==> |d.picks[u]| <= n - 2
    ensures r.Err? ==> r.error == SampleLargerThanPopulation
    ensures r.Ok? ==> u in r.value && r.value == adj[u := r.value[u]]
    ensures r.Ok? ==> && |r.value[u]| == 1 + |d.picks[u]| && r.value[u][0] == adj[u][0]
                      && RowFits(n, maxEdges, spec, u, r.value[u])
    ensures r.Ok? ==> r.value[u] == ExtraRow(n, spec, u, adj[u][0], d.picks[u], d.weights[u])
  {
    var room := maxEdges - |adj[u]|;
    if room <= 0 {
      BackboneFirstFits(n, maxEdges, spec, u, adj[u][0], []);
      assert adj[u] == [adj[u][0]] + [];
      return Ok(adj[u := adj[u]]);
    }
    var picks := d.picks[u];
    var kExtra := |picks|;
    if kExtra == 0 {
      BackboneFirstFits(n, maxEdges, spec, u, adj[u][0], []);
      assert adj[u] == [adj[u][0]] + [];
      return Ok(adj[u := adj[u]]);
    }
    var row := SampleExtra(n, maxEdges, spec, u, adj[u][0], picks, d.weights[u]);
    if row.Err? {
      return Err(row.error);
    }
    return Ok(adj[u := row.value]);
  }

  /** The list of non-end node u after the extra-edge pass: its backbone edge
      b, then an edge to each destination random.sample draws from u's
      candidates, in the order drawn, each with its drawn weight. */
  function ExtraRow(n: nat, spec: WeightSpec, u: Node, b: Edge, picks: seq<nat>, ws: seq<WeightDraw>): seq<Edge>
    requires spec != Choices([]) && u + 1 < n && |ws| == |picks| && |picks| <= n - 2
  {
    CandidatesCount(n, u, u + 1);
    [b] + Weighted(spec, Sample(Candidates(n, u, {u + 1}), picks).value, ws)
  }

  /** The sampling part of the extra-edge pass for node u, whose list holds
      only its backbone edge b: random.sample draws |picks| distinct
      destinations among the candidates (failing when there are fewer),
      and each gets an edge with a fresh weight. */
  method SampleExtra(n: nat, maxEdges: int, spec: WeightSpec, u: Node, b: Edge, picks: seq<nat>, ws: seq<WeightDraw>)
    returns (r: Result<seq<Edge>>)
    requires n >= 2 && spec != Choices([]) && u < n - 1 && b.dst == u + 1 && Possible(spec, b.weight)
    requires |ws| == |picks| && |picks| < maxEdges
    ensures r.Ok? <==> |picks| <= n - 2
    ensures r.Err? ==> r.error == SampleLargerThanPopulation
    ensures r.Ok? ==> |r.value| == 1 + |picks| && r.value[0] == b && RowFits(n, maxEdges, spec, u, r.value)
    ensures r.Ok? ==> r.value == ExtraRow(n, spec, u, b, picks, ws)
  {
    var existing := set e | e in [b] :: e.dst;
    assert existing == {u + 1};
    var cand := Candidates(n, u, existing);
    CandidatesCount(n, u, u + 1);
    var chosen := Sample(cand, picks);
    if chosen.Err? {
      return Err(chosen.error);
    }
    ChosenFit(n, u, cand, picks);
    var row := AppendWeighted(spec, [b], chosen.value, ws);
    SampledRowFits(n, maxEdges, spec, u, b, chosen.value, ws);
    return Ok(row);
  }

  /** The sampled destinations are distinct nodes below n other than u and u + 1. */
  lemma ChosenFit(n: nat, u: Node, cand: seq<Node>, picks: seq<nat>)
    requires cand == Candidates(n, u, {u + 1}) && |picks| <= |cand|
    ensures Distinct(Sample(cand, picks).value)
    ensures forall v :: v in Sample(cand, picks).value ==> v < n && v != u && v != u + 1
  {
    CandidatesSound(n, u, {u + 1});
    assert Distinct(cand);
    SampleSound(cand, picks);
  }

  /** The backbone edge followed by an edge with a drawn weight to each of
      the chosen destinations is a row that fits. */
  lemma SampledRowFits(n: nat, maxEdges: int, spec: WeightSpec, u: Node, b: Edge, chosen: seq<Node>, ws: seq<WeightDraw>)
    requires spec != Choices([]) && u + 1 < n && b.dst == u + 1 && Possible(spec, b.weight)
    requires |ws| == |chosen| && |chosen| < maxEdges && Distinct(chosen)
    requires forall v :: v in chosen ==> v < n && v != u && v != u + 1
    ensures |[b] + Weighted(spec, chosen, ws)| == 1 + |chosen|
    ensures RowFits(n, maxEdges, spec, u, [b] + Weighted(spec, chosen, ws))
  {
    WeightedShape(spec, chosen, ws);
    WeightedDests(spec, chosen, ws);
    BackboneFirstFits(n, maxEdges, spec, u, b, Weighted(spec, chosen, ws));
  }

  /** The backbone loop of _build_template: edge u -> u+1 for every u < n - 1,
      each with a drawn weight; drawing fails exactly on empty weight choices. */
  method BuildBackbone(n: nat, spec: WeightSpec, d: TemplateDraws) returns (r: Result<Adj>)
    requires n >= 2 && |d.backbone| == n - 1
    ensures r.Err? <==> spec == Choices([])
    ensures r.Err? ==> r.error == EmptyWeightChoices
    ensures r.Ok? ==> BackboneRows(n, spec, d, r.value)
  {
    var adj: Adj := EmptyRows(n);
    for u := 0 to n - 1
      invariant forall v: Node :: v in adj <==> v < n
      invariant u > 0 ==> spec != Choices([])
      invariant forall v :: 0 <= v < u ==> adj[v] == [Edge(v + 1, SampleWeight(spec, d.backbone[v]).value)]
      invariant forall v :: u <= v < n ==> adj[v] == []
    {
      var w := SampleWeight(spec, d.backbone[u]);
      if w.Err? {
        return Err(w.error);
      }
      adj := adj[u := adj[u] + [Edge(u + 1, w.value)]];
    }
    return Ok(adj);
  }

  /** What the backbone loop leaves: node v < n - 1 holds only its edge to
      v + 1, weighted by the v-th backbone draw, and the end node has none. */
  ghost predicate BackboneRows(n: nat, spec: WeightSpec, d: TemplateDraws, adj: Adj)
    requires n >= 2 && |d.backbone| == n - 1 && spec != Choices([])
  {
    && (forall v: Node :: v in adj <==> v < n)
    && adj[n - 1] == []
    && forall v :: 0 <= v < n - 1 ==> adj[v] == [Edge(v + 1, SampleWeight(spec, d.backbone[v]).value)]
  }

  /** The state of the extra-edge loop before node u: the nodes below u
      have their extra edges, the others still hold their backbone lists. */
  ghost predicate ExtendedBelow(n: nat, maxEdges: int, spec: WeightSpec, d: TemplateDraws, adj0: Adj, adj: Adj, u: nat)
    requires n >= 2 && DrawsFit(n, maxEdges, d) && u <= n - 1
    requires (forall v: Node :: v in adj0 <==> v < n) && (forall v :: 0 <= v < n - 1 ==> |adj0[v]| >= 1)
  {
    && (forall v: Node :: v in adj <==> v < n)
    && adj[n - 1] == adj0[n - 1]
    && (forall v :: 0 <= v < u ==> RowExtended(n, maxEdges, spec, v, |d.picks[v]|, adj0[v][0], adj[v]))
    && (forall v :: u <= v < n - 1 ==> adj[v] == adj0[v])
  }

  /** Node v's list after its pass: k <= n - 2 extra edges after its
      backbone edge b, and the list fits. */
  ghost predicate RowExtended(n: nat, maxEdges: int, spec: WeightSpec, v: Node, k: nat, b: Edge, row: seq<Edge>)
  {
    k <= n - 2 && |row| == 1 + k && row[0] == b && RowFits(n, maxEdges, spec, v, row)
  }

  lemma ExtendedStep(n: nat, maxEdges: int, spec: WeightSpec, d: TemplateDraws, adj0: Adj, adj: Adj, u: nat, row: seq<Edge>)
    requires n >= 2 && DrawsFit(n, maxEdges, d) && u < n - 1
    requires (forall v: Node :: v in adj0 <==> v < n) && (forall v :: 0 <= v < n - 1 ==> |adj0[v]| >= 1)
    requires ExtendedBelow(n, maxEdges, spec, d, adj0, adj, u)
    requires |d.picks[u]| <= n - 2 && |row| == 1 + |d.picks[u]| && row[0] == adj0[u][0]
    requires RowFits(n, maxEdges, spec, u, row)
    ensures ExtendedBelow(n, maxEdges, spec, d, adj0, adj[u := row], u + 1)
  {
    var adj' := adj[u := row];
    forall v | 0 <= v < u + 1
      ensures RowExtended(n, maxEdges, spec, v, |d.picks[v]|, adj0[v][0], adj'[v])
    {
      if v < u {
        assert adj'[v] == adj[v];
      }
    }
  }

  /** Before node u's pass, its list is still its backbone list. */
  lemma ExtendReady(n: nat, maxEdges: int, spec: WeightSpec, d: TemplateDraws, adj0: Adj, adj: Adj, u: nat)
    requires n >= 2 && DrawsFit(n, maxEdges, d) && spec != Choices([]) && u < n - 1
    requires BackboneRows(n, spec, d, adj0) && ExtendedBelow(n, maxEdges, spec, d, adj0, adj, u)
    ensures u in adj && adj[u] == [Edge(u + 1, SampleWeight(spec, d.backbone[u]).value)]
  {
  }

  /** After the last pass every node's list fits, so the table is a template. */
  lemma ExtendedTemplate(n: nat, maxEdges: int, spec: WeightSpec, d: TemplateDraws, adj0: Adj, adj: Adj)
    requires n >= 2 && maxEdges >= 1 && DrawsFit(n, maxEdges, d) && spec != Choices([])
    requires (forall v: Node :: v in adj0 <==> v < n) && adj0[n - 1] == []
    requires forall v :: 0 <= v < n - 1 ==> |adj0[v]| >= 1 && adj0[v][0].dst == v + 1
    requires ExtendedBelow(n, maxEdges, spec, d, adj0, adj, n - 1)
    ensures TemplateBuilds(n, spec, d)
    ensures IsTemplate(n, maxEdges, spec, adj)
    ensures forall u :: 0 <= u < n - 1 ==> && |adj[u]| == 1 + |d.picks[u]| && adj[u][0] == adj0[u][0]
  {
    assert RowFits(n, maxEdges, spec, n - 1, adj[n - 1]);
    forall u | 0 <= u < n - 1
      ensures |d.picks[u]| <= n - 2 && |adj[u]| == 1 + |d.picks[u]| && adj[u][0] == adj0[u][0]
      ensures RowFits(n, maxEdges, spec, u, adj[u])
    {
      assert RowExtended(n, maxEdges, spec, u, |d.picks[u]|, adj0[u][0], adj[u]);
    }
    RowsFitTemplate(n, maxEdges, spec, adj);
  }

  /** The extra-edge loop of _build_template, over the non-end nodes of a
      backbone; it stops at the first node whose sample cannot be taken. */
  method AddExtraEdges(n: nat, maxEdges: int, spec: WeightSpec, d: TemplateDraws, adj0: Adj) returns (r: Result<Adj>)
    requires n >= 2 && maxEdges >= 1 && DrawsFit(n, maxEdges, d) && spec != Choices([])
    requires BackboneRows(n, spec, d, adj0)
    ensures r.Ok? <==> TemplateBuilds(n, spec, d)
    ensures r.Err? ==> r.error == SampleLargerThanPopulation
    ensures r.Ok? ==> IsTemplate(n, maxEdges, spec, r.value)
    ensures r.Ok? ==> forall u :: 0 <= u < n - 1 ==>
              && |r.value[u]| == 1 + |d.picks[u]|
              && r.value[u][0] == adj0[u][0]
    ensures r.Ok? ==> forall u :: 0 <= u < n - 1 ==>
              r.value[u] == ExtraRow(n, spec, u, adj0[u][0], d.picks[u], d.weights[u])
  {
    var adj: Adj := adj0;
    assert forall v :: 0 <= v < n - 1 ==> |adj0[v]| >= 1 && adj0[v][0].dst == v + 1;
    for u := 0 to n - 1
      invariant ExtendedBelow(n, maxEdges, spec, d, adj0, adj, u)
      invariant forall v :: 0 <= v < u ==>
                  |d.picks[v]| <= n - 2 && adj[v] == ExtraRow(n, spec, v, adj0[v][0], d.picks[v], d.weights[v])
    {
      ExtendReady(n, maxEdges, spec, d, adj0, adj, u);
      var next := ExtendNode(n, maxEdges, spec, d, u, adj);
      if next.Err? {
        return Err(next.error);
      }
      ExtendedStep(n, maxEdges, spec, d, adj0, adj, u, next.value[u]);
      adj := next.value;
    }
    ExtendedTemplate(n, maxEdges, spec, d, adj0, adj);
    return Ok(adj);
  }

  /** _build_template: the backbone loop, then the extra-edge loop. A failing
      draw (random.choice on no choices, random.sample asked for too many)
      ends the construction with its error. On success the table is a
      template whose backbone weights are the backbone draws' and whose node
      u has one extra edge per pick. */
  method BuildTemplate(n: nat, maxEdges: int, spec: WeightSpec, d: TemplateDraws) returns (r: Result<Adj>)
    requires n >= 2 && maxEdges >= 1 && DrawsFit(n, maxEdges, d)
    ensures r.Ok? <==> TemplateBuilds(n, spec, d)
    ensures r.Err? ==> (r.error == EmptyWeightChoices <==> spec == Choices([]))
    ensures r.Err? ==> r.error == EmptyWeightChoices || r.error == SampleLargerThanPopulation
    ensures r.Ok? ==> IsTemplate(n, maxEdges, spec, r.value)
    ensures r.Ok? ==> forall u :: 0 <= u < n - 1 ==>
              && |r.value[u]| == 1 + |d.picks[u]|
              && r.value[u][0] == Edge(u + 1, SampleWeight(spec, d.backbone[u]).value)
    ensures r.Ok? ==> forall u :: 0 <= u < n - 1 ==>
              r.value[u] == ExtraRow(n, spec, u, Edge(u + 1, SampleWeight(spec, d.backbone[u]).value),
                                     d.picks[u], d.weights[u])
  {
    var backbone := BuildBackbone(n, spec, d);
    if backbone.Err? {
      return Err(backbone.error);
    }
    r := AddExtraEdges(n, maxEdges, spec, d, backbone.value);
  }
}
