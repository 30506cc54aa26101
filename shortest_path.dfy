/**
 * ShortestPath: Dijkstra's algorithm over the adaptable heap, the reconstruction of the
 * shortest-path tree, and the loop that adds random edges until the end vertex is reachable.
 *
 * Distances are unbounded integers and Integer.MAX_VALUE is the distance of a vertex not
 * reached. The source adds edge weights to MAX_VALUE in 32-bit arithmetic; that relaxation
 * is modelled separately (Relax32) and the algorithm itself is the one without wrap-around.
 */
module ShortestPath {
  import opened Wrappers
  import opened Digraph
  import opened Paths
  import H = HeapAdaptablePriorityQueue

  /** Integer.MAX_VALUE, the "infinite" distance of a vertex not reached. */
  const MAX_VALUE: int := 0x7fff_ffff

  /** Integer.MIN_VALUE. */
  const MIN_VALUE: int := -0x8000_0000

  type Queue = H.HeapAdaptablePriorityQueue<Label>

  type Token = H.AdaptablePQEntry<Label>

  // ---------------------------------------------------------------------------------------
  // What the distances mean
  // ---------------------------------------------------------------------------------------

  /**
   * `d` gives every vertex its distance from `src`: no path from `src` is lighter, and unless
   * the distance is MAX_VALUE some path from `src` weighs exactly that.
   */
  ghost predicate Shortest(s: GraphState, src: Label, d: map<Label, int>) {
    && (forall v :: v in d <==> v in s.vertices)
    && (forall v | v in d :: 0 <= d[v] <= MAX_VALUE)
    && (forall p {:trigger PathWeight(s, p)} | IsPath(s, p) && p[0] == src && p[|p| - 1] in d :: PathWeight(s, p) >= d[p[|p| - 1]])
    && (forall v | v in d && d[v] < MAX_VALUE :: exists p :: PathFromTo(s, p, src, v) && PathWeight(s, p) == d[v])
  }

  /** Every path from `src` to a vertex of `settled` weighs at least that vertex's `d`. */
  ghost predicate LowerBound(s: GraphState, src: Label, d: map<Label, int>, settled: set<Label>) {
    && settled <= d.Keys
    && forall p {:trigger PathWeight(s, p)} | IsPath(s, p) && p[0] == src && p[|p| - 1] in settled :: PathWeight(s, p) >= d[p[|p| - 1]]
  }

  /** Each distance below MAX_VALUE is the weight of the path from `src` recorded in `via`. */
  ghost predicate Witnessed(s: GraphState, src: Label, d: map<Label, int>, via: map<Label, seq<Label>>) {
    forall v {:trigger d[v]} | v in d && d[v] < MAX_VALUE :: v in via && PathFromTo(s, via[v], src, v) && PathWeight(s, via[v]) == d[v]
  }

  /** Every edge from `settled` to `waiting` has been relaxed. */
  ghost predicate Relaxed(s: GraphState, d: map<Label, int>, settled: set<Label>, waiting: set<Label>) {
    && settled <= d.Keys && waiting <= d.Keys
    && forall x, y {:trigger s.edges[(x, y)]} | x in settled && y in waiting && (x, y) in s.edges :: d[y] <= d[x] + s.edges[(x, y)]
  }

  /**
   * pqTokens and the queue hold the same entries: each waiting vertex's token is in the heap,
   * carries the vertex as its value and its distance as its key, and each heap entry is the
   * token of its value.
   */
  ghost predicate Mirrors(pq: Queue, tokens: map<Label, Token>, d: map<Label, int>)
    reads pq, pq.heap
  {
    && (forall v | v in tokens :: tokens[v] in pq.heap && tokens[v].value == v && v in d && tokens[v].key == d[v])
    && (forall e | e in pq.heap :: e.value in tokens && tokens[e.value] == e)
  }

  /** The queue is a valid heap whose entries are exactly the tokens. */
  ghost predicate Queued(pq: Queue, tokens: map<Label, Token>, d: map<Label, int>)
    reads pq, pq.heap
  {
    pq.Valid() && Mirrors(pq, tokens, d)
  }

  /**
   * The state of a run between two extractions, except for the relaxation of edges: `d`
   * covers every vertex; the waiting vertices are those not in the cloud; the cloud holds
   * final distances; every distance is a path weight or MAX_VALUE.
   */
  ghost predicate Progress(s: GraphState, src: Label, waiting: set<Label>, d: map<Label, int>,
                           cloud: map<Label, int>, via: map<Label, seq<Label>>)
  {
    && (forall v :: v in d <==> v in s.vertices)
    && (forall v :: v in waiting <==> v in s.vertices && v !in cloud)
    && (forall v | v in cloud :: v in d && cloud[v] == d[v])
    && (forall v | v in d :: 0 <= d[v] <= MAX_VALUE)
    && src in d && d[src] == 0
    && LowerBound(s, src, d, cloud.Keys)
    && Witnessed(s, src, d, via)
  }

  // ---------------------------------------------------------------------------------------
  // Lemmas about distances
  // ---------------------------------------------------------------------------------------

  /**
   * Settling the waiting vertex `u` of least distance keeps the state of the run: no path from
   * `src` to `u` is lighter than `d[u]`, so `u` joins the cloud with that distance.
   */
  lemma Settle(s: GraphState, src: Label, waiting: set<Label>, d: map<Label, int>, cloud: map<Label, int>,
               via: map<Label, seq<Label>>, u: Label)
    requires ValidState(s) && NonNegative(s) && src in s.vertices
    requires Progress(s, src, waiting, d, cloud, via) && Relaxed(s, d, cloud.Keys, waiting)
    requires u in waiting && forall y | y in waiting :: d[u] <= d[y]
    ensures Progress(s, src, waiting - {u}, d, cloud[u := d[u]], via)
    ensures Relaxed(s, d, cloud[u := d[u]].Keys - {u}, waiting - {u})
  {
    var cloud' := cloud[u := d[u]];
    assert cloud'.Keys == cloud.Keys + {u};
    assert cloud'.Keys - {u} == cloud.Keys;
    assert u !in cloud;
    forall x, y | x in cloud.Keys && y in waiting - {u} && (x, y) in s.edges
      ensures d[y] <= d[x] + s.edges[(x, y)]
    {
      assert y in waiting;
    }
    assert Relaxed(s, d, cloud.Keys, waiting - {u});
    forall v
      ensures v in waiting - {u} <==> v in s.vertices && v !in cloud'
    {
    }
    forall v | v in cloud'
      ensures v in d && cloud'[v] == d[v]
    {
      if v != u {
        assert v in cloud;
      }
    }
    forall p | IsPath(s, p) && p[0] == src && p[|p| - 1] in cloud'.Keys
      ensures PathWeight(s, p) >= d[p[|p| - 1]]
    {
      if p[|p| - 1] !in cloud {
        FrontierBound(s, src, d, cloud.Keys, waiting, u, p);
      }
    }
    assert LowerBound(s, src, d, cloud'.Keys);
  }

  /** A lowered distance of a vertex outside `settled` keeps the lower bound of `settled`. */
  lemma LowerBoundKept(s: GraphState, src: Label, d: map<Label, int>, settled: set<Label>, v: Label, x: int)
    requires LowerBound(s, src, d, settled) && v !in settled
    ensures LowerBound(s, src, d[v := x], settled)
  {
    forall p | IsPath(s, p) && p[0] == src && p[|p| - 1] in settled
      ensures PathWeight(s, p) >= d[v := x][p[|p| - 1]]
    {
      assert d[v := x][p[|p| - 1]] == d[p[|p| - 1]];
    }
  }

  /** Distances that are shortest from the same vertex are the same distances. */
  lemma ShortestUnique(s: GraphState, src: Label, d1: map<Label, int>, d2: map<Label, int>)
    requires Shortest(s, src, d1) && Shortest(s, src, d2)
    ensures d1 == d2
  {
    forall v | v in d1
      ensures d1[v] == d2[v]
    {
      if d1[v] < MAX_VALUE {
        var p :| PathFromTo(s, p, src, v) && PathWeight(s, p) == d1[v];
      }
      if d2[v] < MAX_VALUE {
        var p :| PathFromTo(s, p, src, v) && PathWeight(s, p) == d2[v];
      }
    }
  }

  /** The start vertex is at distance 0. */
  lemma StartAtZero(s: GraphState, src: Label, d: map<Label, int>)
    requires Shortest(s, src, d) && src in s.vertices
    ensures d[src] == 0
  {
    assert IsPath(s, [src]) && PathWeight(s, [src]) == 0;
  }

  /**
   * Shortest distances satisfy the triangle inequality on every edge: `d[v]` is at most
   * `d[u]` plus the weight of the edge from `u` to `v`.
   */
  lemma Triangle(s: GraphState, src: Label, d: map<Label, int>, u: Label, v: Label)
    requires ValidState(s) && NonNegative(s) && Shortest(s, src, d) && (u, v) in s.edges
    ensures u in d && v in d && d[v] <= d[u] + s.edges[(u, v)]
  {
    assert u in s.outgoing && v in s.incoming;
    if d[u] < MAX_VALUE {
      var p :| PathFromTo(s, p, src, u) && PathWeight(s, p) == d[u];
      Extend(s, p, v);
      assert (p + [v])[|p + [v]| - 1] == v;
    }
  }

  // ---------------------------------------------------------------------------------------
  // dijkstra
  // ---------------------------------------------------------------------------------------

  /**
   * The first loop of dijkstra: every vertex gets distance 0 (the start) or MAX_VALUE, and its
   * queue entry, whose handle is saved in pqTokens.
   */
  method Initialise(s: GraphState, src: Label) returns (pq: Queue, tokens: map<Label, Token>, d: map<Label, int>)
    requires ValidState(s) && src in s.vertices
    ensures fresh(pq) && pq.Valid() && forall e | e in pq.heap :: fresh(e)
    ensures forall v :: v in d <==> v in s.vertices
    ensures forall v :: v in tokens <==> v in s.vertices
    ensures d[src] == 0 && forall v | v in d && v != src :: d[v] == MAX_VALUE
    ensures Mirrors(pq, tokens, d)
  {
    pq := new H.HeapAdaptablePriorityQueue<Label>();
    tokens, d := map[], map[];
    for i := 0 to |s.vertices|
      invariant fresh(pq) && pq.Valid() && forall e | e in pq.heap :: fresh(e)
      invariant forall v :: v in d <==> v in s.vertices[..i]
      invariant forall v :: v in tokens <==> v in s.vertices[..i]
      invariant forall v | v in d :: d[v] == if v == src then 0 else MAX_VALUE
      invariant Mirrors(pq, tokens, d)
    {
      var v := s.vertices[i];
      assert v !in tokens && v !in d by {
        assert v !in s.vertices[..i];
      }
      ghost var d0 := d;
      if v == src {
        d := d[v := 0];
      } else {
        d := d[v := MAX_VALUE];
      }
      forall k | 0 <= k < |pq.heap|
        ensures fresh(pq.heap[k])
      {
        assert pq.heap[k] in pq.heap;
      }
      tokens := Enqueue(pq, tokens, d0, v, d[v]);
      assert forall u :: u in s.vertices[..i + 1] <==> u in s.vertices[..i] || u == v by {
        assert s.vertices[..i + 1] == s.vertices[..i] + [v];
      }
    }
    assert s.vertices[..|s.vertices|] == s.vertices;
  }

  /** pq.insert(d.get(v), v), with the handle saved in pqTokens. */
  method Enqueue(pq: Queue, tokens0: map<Label, Token>, ghost d: map<Label, int>, v: Label, key: int)
    returns (tokens: map<Label, Token>)
    requires pq.Valid() && v !in tokens0 && Mirrors(pq, tokens0, d)
    modifies pq, pq.heap`index
    ensures pq.Valid() && Mirrors(pq, tokens, d[v := key])
    ensures tokens.Keys == tokens0.Keys + {v}
    ensures forall e | e in pq.heap :: e in old(pq.heap) || fresh(e)
  {
    ghost var heap0 := pq.heap;
    var e := pq.Insert(key, v);
    tokens := tokens0[v := e];
    forall x | x in tokens
      ensures tokens[x] in pq.heap && tokens[x].value == x && x in d[v := key] && tokens[x].key == d[v := key][x]
    {
      if x != v {
        assert tokens0[x] in multiset(heap0);
      } else {
        assert e in multiset(pq.heap);
      }
    }
    forall f | f in pq.heap
      ensures f.value in tokens && tokens[f.value] == f
    {
      assert f in multiset(pq.heap);
      if f != e {
        assert f in multiset(heap0);
      }
    }
  }

  /** pq.replaceKey(pqTokens.get(v), key): the queue key of the waiting vertex `v` follows `d`. */
  method Rekey(pq: Queue, tokens: map<Label, Token>, ghost d: map<Label, int>, v: Label, key: int)
    requires Queued(pq, tokens, d) && v in tokens
    modifies pq, pq.heap`index, pq.heap`key
    ensures Queued(pq, tokens, d[v := key])
    ensures multiset(pq.heap) == multiset(old(pq.heap))
  {
    var token := tokens[v];
    assert token in multiset(pq.heap);
    var _ := pq.ReplaceKey(token, key);
    forall x | x in tokens
      ensures tokens[x] in pq.heap && tokens[x].value == x && x in d[v := key] && tokens[x].key == d[v := key][x]
    {
      assert tokens[x] in multiset(old(pq.heap));
    }
    forall f | f in pq.heap
      ensures f.value in tokens && tokens[f.value] == f
    {
      assert f in multiset(old(pq.heap));
    }
  }

  /**
   * pq.removeMin() and pqTokens.remove(u): the waiting vertex `u` of least distance leaves the
   * queue and the tokens.
   */
  method Dequeue(pq: Queue, tokens0: map<Label, Token>, ghost d: map<Label, int>)
    returns (u: Label, key: int, tokens: map<Label, Token>)
    requires Queued(pq, tokens0, d) && pq.heap != []
    modifies pq, pq.heap`index
    ensures u in tokens0 && u in d && key == d[u]
    ensures forall y | y in tokens0 :: d[u] <= d[y]
    ensures tokens == tokens0 - {u}
    ensures Queued(pq, tokens, d)
    ensures |pq.heap| < |old(pq.heap)|
    ensures forall e | e in pq.heap :: e in old(pq.heap)
  {
    ghost var heap0 := pq.heap;
    var r := pq.RemoveMin();
    var entry := r.value;
    key := entry.key;
    u := entry.value;
    tokens := tokens0 - {u};
    assert multiset(pq.heap) == multiset(heap0) - multiset{entry};
    assert |multiset(pq.heap)| == |multiset(heap0)| - 1;
    forall y | y in tokens0
      ensures d[u] <= d[y]
    {
      assert tokens0[y] in heap0;
    }
    forall x | x in tokens
      ensures tokens[x] in pq.heap && tokens[x].value == x && x in d && tokens[x].key == d[x]
    {
      assert tokens0[x] in multiset(heap0) && tokens0[x] != entry;
      assert tokens0[x] in multiset(pq.heap);
    }
    forall f | f in pq.heap
      ensures f in heap0 && f.value in tokens && tokens[f.value] == f
    {
      assert f in multiset(pq.heap);
      assert f in multiset(heap0);
    }
  }

  /**
   * The relaxation of the edge `e` leaving a settled vertex: when its target is not in the
   * cloud and the way through `e` is lighter, the target's distance drops to that weight
   * (an edge between vertices without distances changes nothing).
   */
  function Relax(d: map<Label, int>, cloud: map<Label, int>, e: Edge): (r: map<Label, int>)
    ensures r.Keys == d.Keys
  {
    if Lighter(d, cloud, e) then d[e.target := d[e.source] + e.weight] else d
  }

  /** The target of `e` waits and the way through `e` is lighter than its distance. */
  predicate Lighter(d: map<Label, int>, cloud: map<Label, int>, e: Edge) {
    e.source in d && e.target in d && e.target !in cloud && d[e.source] + e.weight < d[e.target]
  }

  /**
   * Relax lowers at most the distance of the edge's target, leaves the cloud alone, and
   * afterwards the edge into a waiting target is relaxed.
   */
  lemma RelaxLowers(d: map<Label, int>, cloud: map<Label, int>, e: Edge)
    ensures forall x | x in d :: Relax(d, cloud, e)[x] <= d[x]
    ensures forall x | x in d && x != e.target :: Relax(d, cloud, e)[x] == d[x]
    ensures e.target in cloud ==> Relax(d, cloud, e) == d
    ensures e.source in d && e.target in d && e.target !in cloud ==> Relax(d, cloud, e)[e.target] <= d[e.source] + e.weight
  {
  }

  /** Java's int addition: the sum wrapped into the range of a 32-bit two's-complement integer. */
  function Wrap32(x: int): (r: int)
    ensures MIN_VALUE <= r <= MAX_VALUE
    ensures (r - x) % 0x1_0000_0000 == 0
    ensures MIN_VALUE <= x <= MAX_VALUE ==> r == x
  {
    (x - MIN_VALUE) % 0x1_0000_0000 + MIN_VALUE
  }

  /**
   * The relaxation test and update of dijkstra as written, in 32-bit arithmetic: the new
   * distance of the target given the distance `du` of the source, the weight `w` and the
   * target's distance `dv`.
   */
  function Relax32(du: int, w: int, dv: int): (r: int)
    ensures r == dv || r < dv
  {
    if Wrap32(du + w) < dv then Wrap32(du + w) else dv
  }

  /**
   * As written, relaxing an edge of weight 1 out of a vertex never reached (distance
   * MAX_VALUE) into a waiting vertex never reached gives that vertex the distance MIN_VALUE.
   */
  lemma Relax32Unreached()
    ensures Relax32(MAX_VALUE, 1, MAX_VALUE) == MIN_VALUE
  {
    assert Wrap32(MAX_VALUE + 1) == MIN_VALUE;
  }

  /** Without overflow, the 32-bit relaxation is the unbounded one. */
  lemma Relax32Agrees(d: map<Label, int>, cloud: map<Label, int>, e: Edge)
    requires e.source in d && e.target in d && e.target !in cloud
    requires MIN_VALUE <= d[e.source] + e.weight <= MAX_VALUE
    ensures Relax(d, cloud, e)[e.target] == Relax32(d[e.source], e.weight, d[e.target])
  {
  }

  /**
   * Unbounded, a vertex never reached lowers nothing: with distances at most MAX_VALUE and a
   * non-negative weight, relaxing an edge out of a vertex at MAX_VALUE leaves `d` as it is.
   */
  lemma UnreachedRelaxesNothing(d: map<Label, int>, cloud: map<Label, int>, e: Edge)
    requires e.source in d && d[e.source] == MAX_VALUE && e.weight >= 0
    requires forall x | x in d :: d[x] <= MAX_VALUE
    ensures Relax(d, cloud, e) == d
  {
  }

  /** The paths recorded for the distances of Relax: a lowered target is reached through `e`. */
  ghost function Route(via: map<Label, seq<Label>>, d: map<Label, int>, cloud: map<Label, int>, e: Edge)
    : map<Label, seq<Label>>
  {
    if Lighter(d, cloud, e) then
      via[e.target := (if e.source in via then via[e.source] else [e.source]) + [e.target]]
    else via
  }

  /** The edges `es` relaxed one after the other, in their order. */
  function RelaxAll(d: map<Label, int>, cloud: map<Label, int>, es: seq<Edge>): (r: map<Label, int>)
    ensures r.Keys == d.Keys
    decreases |es|
  {
    if es == [] then d
    else Relax(RelaxAll(d, cloud, es[..|es| - 1]), cloud, es[|es| - 1])
  }

  /** RelaxAll and RouteAll of a non-empty run end with the last edge. */
  lemma LastRelaxed(d: map<Label, int>, cloud: map<Label, int>, via: map<Label, seq<Label>>, es: seq<Edge>)
    requires |es| > 0
    ensures RelaxAll(d, cloud, es) == Relax(RelaxAll(d, cloud, es[..|es| - 1]), cloud, es[|es| - 1])
    ensures RouteAll(via, d, cloud, es) == Route(RouteAll(via, d, cloud, es[..|es| - 1]), RelaxAll(d, cloud, es[..|es| - 1]), cloud, es[|es| - 1])
  {
  }

  /** Relaxing a run of edges lowers distances and leaves those of the cloud alone. */
  lemma {:induction false} RelaxAllLowers(d: map<Label, int>, cloud: map<Label, int>, es: seq<Edge>)
    ensures forall x | x in d :: RelaxAll(d, cloud, es)[x] <= d[x]
    ensures forall x | x in cloud && x in d :: RelaxAll(d, cloud, es)[x] == d[x]
    decreases |es|
  {
    if es != [] {
      var q := es[..|es| - 1];
      RelaxAllLowers(d, cloud, q);
      RelaxLowers(RelaxAll(d, cloud, q), cloud, es[|es| - 1]);
    }
  }

  /** The paths recorded along RelaxAll. */
  ghost function RouteAll(via: map<Label, seq<Label>>, d: map<Label, int>, cloud: map<Label, int>, es: seq<Edge>)
    : map<Label, seq<Label>>
    decreases |es|
  {
    if es == [] then via
    else
      var q := es[..|es| - 1];
      Route(RouteAll(via, d, cloud, q), RelaxAll(d, cloud, q), cloud, es[|es| - 1])
  }

  /**
   * Relaxing one edge leaving the settled vertex `u` keeps the state of the run and the edges
   * from the rest of the cloud relaxed, relaxes the edge, and lowers no other distance.
   */
  lemma RelaxEdgeKeeps(s: GraphState, src: Label, waiting: set<Label>, d: map<Label, int>,
                       cloud: map<Label, int>, via: map<Label, seq<Label>>, u: Label, e: Edge)
    requires NonNegative(s) && Progress(s, src, waiting, d, cloud, via) && u in cloud
    requires Relaxed(s, d, cloud.Keys - {u}, waiting)
    requires e.source == u && (u, e.target) in s.edges && e.target in d && e.weight == s.edges[(u, e.target)]
    ensures Progress(s, src, waiting, Relax(d, cloud, e), cloud, Route(via, d, cloud, e))
    ensures Relaxed(s, Relax(d, cloud, e), cloud.Keys - {u}, waiting)
    ensures e.target in waiting ==> Relax(d, cloud, e)[e.target] <= d[u] + e.weight
    ensures forall x | x in d :: Relax(d, cloud, e)[x] <= d[x]
  {
    var v := e.target;
    RelaxLowers(d, cloud, e);
    if v !in cloud && d[u] + e.weight < d[v] {
      assert e.weight >= 0 && d[v] <= MAX_VALUE;
      assert d[u] < MAX_VALUE;
      assert u in via;
      assert Relax(d, cloud, e) == d[v := d[u] + e.weight];
      assert Route(via, d, cloud, e) == via[v := via[u] + [v]];
      assert v in waiting;
      RelaxStep(s, src, waiting, d, cloud, via, cloud.Keys - {u}, u, v, e.weight);
    }
  }

  /**
   * Relaxing the edges leaving the settled vertex `u` keeps the state of the run, keeps the
   * edges from the rest of the cloud relaxed, and relaxes every one of the edges.
   */
  lemma {:induction false} RelaxAllKeeps(s: GraphState, src: Label, waiting: set<Label>, d: map<Label, int>,
                                         cloud: map<Label, int>, via: map<Label, seq<Label>>, u: Label, es: seq<Edge>)
    requires NonNegative(s) && Progress(s, src, waiting, d, cloud, via) && u in cloud
    requires Relaxed(s, d, cloud.Keys - {u}, waiting)
    requires forall i | 0 <= i < |es| :: es[i].source == u && (u, es[i].target) in s.edges && es[i].target in d
    requires forall i | 0 <= i < |es| :: es[i].weight == s.edges[(u, es[i].target)]
    ensures Progress(s, src, waiting, RelaxAll(d, cloud, es), cloud, RouteAll(via, d, cloud, es))
    ensures Relaxed(s, RelaxAll(d, cloud, es), cloud.Keys - {u}, waiting)
    ensures forall i | 0 <= i < |es| && es[i].target in waiting :: RelaxAll(d, cloud, es)[es[i].target] <= d[u] + es[i].weight
    decreases |es|
  {
    if es != [] {
      var q := es[..|es| - 1];
      assert forall i | 0 <= i < |q| :: q[i] == es[i];
      RelaxAllKeeps(s, src, waiting, d, cloud, via, u, q);
      var d1, via1 := RelaxAll(d, cloud, q), RouteAll(via, d, cloud, q);
      var e := es[|es| - 1];
      var r := RelaxAll(d, cloud, es);
      LastRelaxed(d, cloud, via, es);
      RelaxAllLowers(d, cloud, q);
      assert d1[u] == d[u];
      RelaxEdgeKeeps(s, src, waiting, d1, cloud, via1, u, e);
      forall i | 0 <= i < |es| && es[i].target in waiting
        ensures r[es[i].target] <= d[u] + es[i].weight
      {
        var t := es[i].target;
        if i < |q| {
          assert q[i] == es[i] && t in d1;
          assert r[t] <= d1[t];
          assert d1[t] <= d[u] + es[i].weight;
        } else {
          assert i == |es| - 1;
        }
      }
    }
  }

  /**
   * One pass of the inner loop of dijkstra, over the edge `e` leaving `u`: the distance of
   * its waiting target drops when the way through `e` is lighter, and the target's queue key
   * follows.
   */
  method RelaxEdge(pq: Queue, tokens: map<Label, Token>, d0: map<Label, int>, cloud: map<Label, int>,
                   u: Label, e: Edge)
    returns (d: map<Label, int>)
    requires Queued(pq, tokens, d0) && e.source == u && u in d0 && e.target in d0
    requires e.target !in cloud ==> e.target in tokens
    modifies pq, pq.heap`index, pq.heap`key
    ensures Queued(pq, tokens, d) && d == Relax(d0, cloud, e)
    ensures multiset(pq.heap) == multiset(old(pq.heap))
  {
    d := d0;
    // opposite(u, e) is the target, since e leaves u
    var v := e.target;
    var wgt := e.weight;
    if v !in cloud {
      if d[u] + wgt < d[v] {
        d := d[v := d[u] + wgt];
        Rekey(pq, tokens, d0, v, d[v]);
      }
    }
  }

  /**
   * The inner loop of dijkstra over the edges `es` leaving the settled vertex `u`, in the
   * order of its outgoing map: each edge is relaxed and the queue key of each lowered vertex
   * follows its distance.
   */
  method RelaxOutgoing(pq: Queue, tokens: map<Label, Token>, d0: map<Label, int>, cloud: map<Label, int>,
                       u: Label, es: seq<Edge>)
    returns (d: map<Label, int>)
    requires Queued(pq, tokens, d0) && u in d0
    requires forall k | 0 <= k < |es| :: es[k].source == u && es[k].target in d0
    requires forall k | 0 <= k < |es| && es[k].target !in cloud :: es[k].target in tokens
    modifies pq, pq.heap`index, pq.heap`key
    ensures Queued(pq, tokens, d) && d == RelaxAll(d0, cloud, es)
    ensures multiset(pq.heap) == multiset(old(pq.heap))
  {
    d := d0;
    for i := 0 to |es|
      invariant Queued(pq, tokens, d) && d.Keys == d0.Keys
      invariant d == RelaxAll(d0, cloud, es[..i])
      invariant multiset(pq.heap) == multiset(old(pq.heap))
    {
      ghost var p, q := es[..i + 1], es[..i];
      assert p[..i] == q && p[i] == es[i];
      assert RelaxAll(d0, cloud, p) == Relax(d, cloud, es[i]);
      forall k | 0 <= k < |pq.heap|
        ensures pq.heap[k] in multiset(old(pq.heap))
      {
        assert pq.heap[k] in multiset(pq.heap);
      }
      d := RelaxEdge(pq, tokens, d, cloud, u, es[i]);
    }
    assert es[..|es|] == es;
  }

  /**
   * A relaxation of the edge from the settled `u` to the waiting `v` keeps the state of the
   * run and the relaxation of the edges already relaxed.
   */
  lemma RelaxStep(s: GraphState, src: Label, waiting: set<Label>, d: map<Label, int>, cloud: map<Label, int>,
                  via: map<Label, seq<Label>>, settled: set<Label>, u: Label, v: Label, w: int)
    requires NonNegative(s) && Progress(s, src, waiting, d, cloud, via) && Relaxed(s, d, settled, waiting)
    requires (u, v) in s.edges && w == s.edges[(u, v)] && u in cloud && v in waiting
    requires settled <= cloud.Keys && d[u] + w < d[v]
    ensures Progress(s, src, waiting, d[v := d[u] + w], cloud, via[v := via[u] + [v]])
    ensures Relaxed(s, d[v := d[u] + w], settled, waiting)
  {
    var x := d[u] + w;
    var d', via' := d[v := x], via[v := via[u] + [v]];
    assert 0 <= x < MAX_VALUE;
    assert v != src;
    assert LowerBound(s, src, d', cloud.Keys) by {
      LowerBoundKept(s, src, d, cloud.Keys, v, x);
    }
    assert Witnessed(s, src, d', via') by {
      WitnessStep(s, src, d, via, u, v, x);
    }
    assert Relaxed(s, d', settled, waiting) by {
      RelaxedStep(s, d, settled, waiting, v, x);
    }
    forall y | y in cloud
      ensures y in d' && cloud[y] == d'[y]
    {
      assert y != v;
    }
  }

  /** Recording the path to `u` extended by the edge to `v` witnesses the new distance of `v`. */
  lemma WitnessStep(s: GraphState, src: Label, d: map<Label, int>, via: map<Label, seq<Label>>, u: Label, v: Label, x: int)
    requires Witnessed(s, src, d, via) && u in d && d[u] < MAX_VALUE && (u, v) in s.edges
    requires x == d[u] + s.edges[(u, v)]
    ensures Witnessed(s, src, d[v := x], via[v := via[u] + [v]])
  {
    var d', via' := d[v := x], via[v := via[u] + [v]];
    Extend(s, via[u], v);
    forall w | w in d' && d'[w] < MAX_VALUE
      ensures w in via' && PathFromTo(s, via'[w], src, w) && PathWeight(s, via'[w]) == d'[w]
    {
      if w != v {
        assert d'[w] == d[w] && via'[w] == via[w];
      }
    }
  }

  /** Lowering the distance of a vertex outside `settled` keeps the relaxed edges relaxed. */
  lemma RelaxedStep(s: GraphState, d: map<Label, int>, settled: set<Label>, waiting: set<Label>, v: Label, x: int)
    requires Relaxed(s, d, settled, waiting) && NonNegative(s) && v in d && x <= d[v] && v !in settled
    ensures Relaxed(s, d[v := x], settled, waiting)
  {
    var d' := d[v := x];
    forall a, b | a in settled && b in waiting && (a, b) in s.edges
      ensures d'[b] <= d'[a] + s.edges[(a, b)]
    {
      assert d[b] <= d[a] + s.edges[(a, b)];
      assert d'[b] <= d[b] && d'[a] == d[a];
    }
  }

  /**
   * Relaxing every edge leaving the vertex `u` just settled keeps the state of the run and
   * relaxes every edge from the cloud, `u`'s included.
   */
  lemma SettleEdges(s: GraphState, src: Label, waiting: set<Label>, d: map<Label, int>, cloud: map<Label, int>,
                    via: map<Label, seq<Label>>, u: Label, es: seq<Edge>)
    requires ValidState(s) && NonNegative(s) && u in s.vertices && es == OutgoingEdges(s, u).value
    requires Progress(s, src, waiting, d, cloud, via) && u in cloud
    requires Relaxed(s, d, cloud.Keys - {u}, waiting)
    ensures Progress(s, src, waiting, RelaxAll(d, cloud, es), cloud, RouteAll(via, d, cloud, es))
    ensures Relaxed(s, RelaxAll(d, cloud, es), cloud.Keys, waiting)
  {
    forall i | 0 <= i < |es|
      ensures es[i].source == u && (u, es[i].target) in s.edges && es[i].target in d
      ensures es[i].weight == s.edges[(u, es[i].target)]
    {
      assert es[i] in es;
    }
    RelaxAllKeeps(s, src, waiting, d, cloud, via, u, es);
    LeavingRelaxed(s, RelaxAll(d, cloud, es), cloud.Keys, waiting, u, es);
  }

  /**
   * When every edge from the cloud but `u`'s is relaxed and each edge leaving `u` is, then
   * every edge from the cloud is.
   */
  lemma LeavingRelaxed(s: GraphState, d: map<Label, int>, settled: set<Label>, waiting: set<Label>,
                       u: Label, es: seq<Edge>)
    requires Relaxed(s, d, settled - {u}, waiting) && u in settled && u in d
    requires forall y | (u, y) in s.edges :: StoredEdge(s, u, y) in es
    requires forall i | 0 <= i < |es| && es[i].target in waiting ::
               es[i].source == u && (u, es[i].target) in s.edges && d[es[i].target] <= d[u] + es[i].weight
    ensures Relaxed(s, d, settled, waiting)
  {
    forall x, y | x in settled && y in waiting && (x, y) in s.edges
      ensures d[y] <= d[x] + s.edges[(x, y)]
    {
      if x == u {
        var i :| 0 <= i < |es| && es[i] == StoredEdge(s, u, y);
      }
    }
  }

  /**
   * Once no vertex waits, every vertex is in the cloud with its final distance, and those
   * distances are the shortest.
   */
  lemma Finished(s: GraphState, src: Label, d: map<Label, int>, cloud: map<Label, int>, via: map<Label, seq<Label>>)
    requires Progress(s, src, {}, d, cloud, via)
    ensures Shortest(s, src, d) && cloud == d
  {
    forall v | v in d && d[v] < MAX_VALUE
      ensures exists p :: PathFromTo(s, p, src, v) && PathWeight(s, p) == d[v]
    {
      assert PathFromTo(s, via[v], src, v);
    }
  }

  /**
   * dijkstra: the finished cloud holds the distance of every vertex from `start`; the result
   * is whether `end` was reached, and `weight` is its distance.
   */
  method Dijkstra(s: GraphState, start: Label, end: Label) returns (ok: bool, weight: int, d: map<Label, int>)
    requires ValidState(s) && NonNegative(s) && start in s.vertices && end in s.vertices
    ensures Shortest(s, start, d)
    ensures weight == d[end]
    ensures ok <==> d[end] < MAX_VALUE
  {
    var pq, tokens, d0 := Initialise(s, start);
    d := d0;
    var cloud: map<Label, int> := map[];
    ghost var via: map<Label, seq<Label>> := map[start := [start]];
    assert PathWeight(s, [start]) == 0;
    while !pq.Empty()
      invariant fresh(pq) && forall e | e in pq.heap :: fresh(e)
      invariant Queued(pq, tokens, d) && Progress(s, start, tokens.Keys, d, cloud, via)
      invariant Relaxed(s, d, cloud.Keys, tokens.Keys)
      decreases |pq.heap|
    {
      forall k | 0 <= k < |pq.heap|
        ensures fresh(pq.heap[k])
      {
        assert pq.heap[k] in pq.heap;
      }
      var u, key, rest := Dequeue(pq, tokens, d);
      ghost var left := multiset(pq.heap);
      Settle(s, start, tokens.Keys, d, cloud, via, u);
      assert rest.Keys == tokens.Keys - {u};
      cloud := cloud[u := key];
      tokens := rest;
      forall k | 0 <= k < |pq.heap|
        ensures fresh(pq.heap[k])
      {
        assert pq.heap[k] in pq.heap;
      }
      var es := OutgoingEdges(s, u).value;
      forall i | 0 <= i < |es|
        ensures es[i].source == u && (u, es[i].target) in s.edges && es[i].target in d
        ensures es[i].weight == s.edges[(u, es[i].target)]
      {
        assert es[i] in es;
      }
      ghost var d1 := d;
      d := RelaxOutgoing(pq, tokens, d, cloud, u, es);
      assert |pq.heap| == |multiset(pq.heap)| == |left|;
      SettleEdges(s, start, tokens.Keys, d1, cloud, via, u, es);
      via := RouteAll(via, d1, cloud, es);
    }
    assert tokens.Keys == {};
    Finished(s, start, d, cloud, via);
    weight := cloud[end];
    if cloud[end] >= MAX_VALUE {
      ok := false;
    } else {
      ok := cloud[end] >= 0;
    }
  }

  // ---------------------------------------------------------------------------------------
  // generatePath
  // ---------------------------------------------------------------------------------------

  /** The edge `e` into `v` lies on a shortest path: d at `v` is d at its source plus its weight. */
  predicate TightEdge(d: map<Label, int>, v: Label, e: Edge) {
    e.source in d && v in d && d[v] == d[e.source] + e.weight
  }

  /**
   * The edge generatePath keeps for `v` among its incoming edges `es`: the last tight one,
   * since each match overwrites the one before.
   */
  function LastTight(d: map<Label, int>, v: Label, es: seq<Edge>): (r: Option<Edge>)
    ensures r.Some? ==> r.value in es && TightEdge(d, v, r.value)
    ensures r.None? ==> forall i | 0 <= i < |es| :: !TightEdge(d, v, es[i])
    decreases |es|
  {
    if es == [] then None
    else if TightEdge(d, v, es[|es| - 1]) then Some(es[|es| - 1])
    else
      var r := LastTight(d, v, es[..|es| - 1]);
      assert forall i | 0 <= i < |es| - 1 :: es[..|es| - 1][i] == es[i];
      r
  }

  /** No tight edge after the one LastTight returns: a tight edge at `i` means a result at `i` or later. */
  lemma {:induction false} LastTightIsLast(d: map<Label, int>, v: Label, es: seq<Edge>, i: nat)
    requires i < |es| && TightEdge(d, v, es[i])
    ensures LastTight(d, v, es).Some? && LastTight(d, v, es).value in es[i..]
    decreases |es|
  {
    if !TightEdge(d, v, es[|es| - 1]) {
      var q := es[..|es| - 1];
      assert q[i] == es[i];
      LastTightIsLast(d, v, q, i);
      assert q[i..] <= es[i..];
    }
  }

  /**
   * tree and parentsOfVertices as generatePath builds them: each vertex other than the start
   * that has a tight incoming edge is mapped to the last such edge, and to that edge's source.
   */
  ghost predicate TreeOf(s: GraphState, start: Label, d: map<Label, int>, tree: map<Label, Edge>,
                         parents: map<Label, Label>)
    requires ValidState(s)
  {
    && parents.Keys == tree.Keys
    && (forall v :: v in tree <==> v in s.vertices && v != start && LastTight(d, v, IncomingEdges(s, v).value).Some?)
    && (forall v | v in tree :: tree[v] == LastTight(d, v, IncomingEdges(s, v).value).value && parents[v] == tree[v].source)
  }

  /** LastTight on one more edge: a tight edge replaces the earlier choice. */
  lemma LastTightStep(d: map<Label, int>, v: Label, es: seq<Edge>, j: nat)
    requires j < |es|
    ensures LastTight(d, v, es[..j + 1]) == if TightEdge(d, v, es[j]) then Some(es[j]) else LastTight(d, v, es[..j])
  {
    assert es[..j + 1][..j] == es[..j];
  }

  /** The inner loop of generatePath's first loop: the last tight edge among those entering `v`. */
  method TightIncoming(s: GraphState, d: map<Label, int>, v: Label) returns (found: Option<Edge>)
    requires ValidState(s) && v in s.vertices && forall x | x in s.vertices :: x in d
    ensures found == LastTight(d, v, IncomingEdges(s, v).value)
  {
    var es := IncomingEdges(s, v).value;
    forall i | 0 <= i < |es|
      ensures es[i].source in d && es[i].target == v
    {
      assert es[i] in es;
    }
    found := LastTightAmong(d, v, es);
  }

  /** That loop over the edges `es` entering `v`: each tight edge overwrites the one kept before. */
  method LastTightAmong(d: map<Label, int>, v: Label, es: seq<Edge>) returns (found: Option<Edge>)
    requires v in d && forall i | 0 <= i < |es| :: es[i].source in d && es[i].target == v
    ensures found == LastTight(d, v, es)
  {
    found := None;
    for j := 0 to |es|
      invariant found == LastTight(d, v, es[..j])
    {
      var edge := es[j];
      // opposite(v, edge) is the source, since the edge enters v
      var u := edge.source;
      var wgt := edge.weight;
      assert LastTight(d, v, es[..j + 1]) == if d[v] == d[u] + wgt then Some(edge) else LastTight(d, v, es[..j]) by {
        LastTightStep(d, v, es, j);
      }
      if d[v] == d[u] + wgt {
        found := Some(edge);
      }
    }
    assert es[..|es|] == es;
  }

  /** The first loop of generatePath: the shortest-path tree. */
  method ShortestPathTree(s: GraphState, start: Label, d: map<Label, int>)
    returns (tree: map<Label, Edge>, parents: map<Label, Label>)
    requires ValidState(s) && forall v | v in s.vertices :: v in d
    ensures TreeOf(s, start, d, tree, parents)
  {
    tree, parents := map[], map[];
    // d.keySet() holds the vertices, in the order of the vertex list
    for i := 0 to |s.vertices|
      invariant parents.Keys == tree.Keys
      invariant forall v :: v in tree <==> v in s.vertices[..i] && v != start && LastTight(d, v, IncomingEdges(s, v).value).Some?
      invariant forall v | v in tree :: tree[v] == LastTight(d, v, IncomingEdges(s, v).value).value && parents[v] == tree[v].source
    {
      var vertex := s.vertices[i];
      assert s.vertices[..i + 1] == s.vertices[..i] + [vertex];
      if vertex != start {
        var found := TightIncoming(s, d, vertex);
        if found.Some? {
          tree := tree[vertex := found.value];
          parents := parents[vertex := found.value.source];
        }
      }
    }
    assert s.vertices[..|s.vertices|] == s.vertices;
  }

  /** The last edge of a shortest path into a reachable vertex other than the start is tight. */
  lemma TightInto(s: GraphState, start: Label, d: map<Label, int>, v: Label) returns (x: Label)
    requires ValidState(s) && NonNegative(s) && Shortest(s, start, d)
    requires v in s.vertices && v != start && d[v] < MAX_VALUE
    ensures (x, v) in s.edges && x in d && d[v] == d[x] + s.edges[(x, v)]
  {
    var p :| PathFromTo(s, p, start, v) && PathWeight(s, p) == d[v];
    Shorten(s, p);
    var q := p[..|p| - 1];
    x := p[|p| - 2];
    assert q[0] == start && q[|q| - 1] == x;
    assert x in s.outgoing;
    assert PathWeight(s, q) >= d[x];
    Triangle(s, start, d, x, v);
  }

  /** A vertex other than the start with a tight incoming edge has its last tight one in the tree. */
  lemma InTree(s: GraphState, start: Label, d: map<Label, int>, tree: map<Label, Edge>,
               parents: map<Label, Label>, v: Label, x: Label)
    requires ValidState(s) && TreeOf(s, start, d, tree, parents)
    requires v in s.vertices && v != start && (x, v) in s.edges && x in d && v in d && d[v] == d[x] + s.edges[(x, v)]
    ensures v in tree && parents[v] == tree[v].source && tree[v].target == v
    ensures (parents[v], v) in s.edges && tree[v] == StoredEdge(s, parents[v], v)
    ensures parents[v] in d && d[v] == d[parents[v]] + s.edges[(parents[v], v)]
  {
    var es := IncomingEdges(s, v).value;
    var e := StoredEdge(s, x, v);
    assert e in es;
    var i :| 0 <= i < |es| && es[i] == e;
    assert TightEdge(d, v, es[i]);
  }

  /**
   * With positive weights, a reachable vertex other than the start has a tree edge, whose
   * source is strictly closer to the start.
   */
  lemma ParentStep(s: GraphState, start: Label, d: map<Label, int>, tree: map<Label, Edge>,
                   parents: map<Label, Label>, v: Label)
    requires ValidState(s) && Positive(s) && Shortest(s, start, d) && TreeOf(s, start, d, tree, parents)
    requires v in s.vertices && v != start && d[v] < MAX_VALUE
    ensures v in tree && parents[v] == tree[v].source && tree[v].target == v
    ensures (parents[v], v) in s.edges && tree[v] == StoredEdge(s, parents[v], v)
    ensures parents[v] in d && d[v] == d[parents[v]] + s.edges[(parents[v], v)]
    ensures 0 <= d[parents[v]] < d[v]
  {
    var x := TightInto(s, start, d, v);
    InTree(s, start, d, tree, parents, v, x);
    assert s.edges[(parents[v], v)] > 0;
  }

  /** The edge from the i-th vertex of `w` to the next is an edge of `s` and tight under `d`. */
  ghost predicate TightStep(s: GraphState, d: map<Label, int>, w: seq<Label>, i: int)
    requires 0 <= i < |w| - 1
  {
    w[i] in d && w[i + 1] in d && (w[i], w[i + 1]) in s.edges && d[w[i + 1]] == d[w[i]] + s.edges[(w[i], w[i + 1])]
  }

  /** Consecutive vertices of `w` are joined by tight edges. */
  ghost predicate TightPath(s: GraphState, d: map<Label, int>, w: seq<Label>) {
    && |w| >= 1
    && (forall i | 0 <= i < |w| :: w[i] in d)
    && forall i | 0 <= i < |w| - 1 :: TightStep(s, d, w, i)
  }

  /** A path of tight edges weighs the difference of the distances of its ends. */
  lemma {:induction false} TightWeight(s: GraphState, d: map<Label, int>, w: seq<Label>)
    requires TightPath(s, d, w)
    ensures IsPath(s, w) && PathWeight(s, w) == d[w[|w| - 1]] - d[w[0]]
    decreases |w|
  {
    if |w| >= 2 {
      var n := |w|;
      var q := w[..n - 1];
      assert TightPath(s, d, q) by {
        forall i | 0 <= i < |q| - 1
          ensures TightStep(s, d, q, i)
        {
          assert TightStep(s, d, w, i);
          assert q[i] == w[i] && q[i + 1] == w[i + 1];
        }
        forall i | 0 <= i < |q|
          ensures q[i] in d
        {
          assert q[i] == w[i];
        }
      }
      TightWeight(s, d, q);
      assert IsPath(s, w) by {
        forall i | 0 <= i < n - 1
          ensures (w[i], w[i + 1]) in s.edges
        {
          assert TightStep(s, d, w, i);
        }
      }
      assert TightStep(s, d, w, n - 2);
    }
  }

  /**
   * `w` follows the tree: each vertex after the first is a tree vertex other than the start,
   * reached by its tree edge from the vertex before it, and that edge is tight.
   */
  ghost predicate TreeChain(s: GraphState, start: Label, d: map<Label, int>, tree: map<Label, Edge>, w: seq<Label>) {
    && TightPath(s, d, w)
    && forall i {:trigger w[i]} | 0 < i < |w| :: w[i] in tree && w[i] != start && (w[i - 1], w[i]) in s.edges && tree[w[i]] == StoredEdge(s, w[i - 1], w[i])
  }

  /** Stepping back along a tree edge extends a tree chain at its front. */
  lemma ChainPrepend(s: GraphState, start: Label, d: map<Label, int>, tree: map<Label, Edge>, w: seq<Label>, u: Label)
    requires TreeChain(s, start, d, tree, w) && u in d
    requires w[0] in tree && w[0] != start && (u, w[0]) in s.edges && tree[w[0]] == StoredEdge(s, u, w[0])
    requires d[w[0]] == d[u] + s.edges[(u, w[0])]
    ensures TreeChain(s, start, d, tree, [u] + w)
  {
    var w' := [u] + w;
    assert forall i | 0 < i < |w'| :: w'[i] == w[i - 1];
    forall i | 0 <= i < |w'| - 1
      ensures TightStep(s, d, w', i)
    {
      if i > 0 {
        assert TightStep(s, d, w, i - 1);
        assert w'[i] == w[i - 1] && w'[i + 1] == w[i];
      }
    }
  }

  /**
   * Every reachable vertex other than the start has a tree edge from its parent, tight and
   * strictly closer to the start.
   */
  ghost predicate ParentsTight(s: GraphState, start: Label, d: map<Label, int>, tree: map<Label, Edge>,
                               parents: map<Label, Label>) {
    forall v | v in d && v != start && d[v] < MAX_VALUE ::
      && v in tree && v in parents && parents[v] in d && (parents[v], v) in s.edges
      && tree[v] == StoredEdge(s, parents[v], v)
      && d[v] == d[parents[v]] + s.edges[(parents[v], v)] && 0 <= d[parents[v]] < d[v]
  }

  /** With positive weights, the tree generatePath builds from shortest distances is tight. */
  lemma TreeTight(s: GraphState, start: Label, d: map<Label, int>, tree: map<Label, Edge>, parents: map<Label, Label>)
    requires ValidState(s) && Positive(s) && Shortest(s, start, d) && TreeOf(s, start, d, tree, parents)
    ensures ParentsTight(s, start, d, tree, parents)
  {
    forall v | v in d && v != start && d[v] < MAX_VALUE
      ensures v in tree && v in parents && parents[v] in d && (parents[v], v) in s.edges
      ensures tree[v] == StoredEdge(s, parents[v], v)
      ensures d[v] == d[parents[v]] + s.edges[(parents[v], v)] && 0 <= d[parents[v]] < d[v]
    {
      ParentStep(s, start, d, tree, parents, v);
    }
  }

  /**
   * The second loop of generatePath and the push of the start: the stack, its top first, holds
   * the walk along the parents from the start to the end.
   */
  method WalkBack(s: GraphState, start: Label, end: Label, d: map<Label, int>, tree: map<Label, Edge>,
                  parents: map<Label, Label>) returns (path: seq<Label>)
    requires ParentsTight(s, start, d, tree, parents)
    requires start in d && end in d && d[end] < MAX_VALUE
    ensures TreeChain(s, start, d, tree, path) && path[0] == start && path[|path| - 1] == end
  {
    path := [];
    var v := end;
    while v != start
      invariant v in d && d[v] < MAX_VALUE
      invariant TreeChain(s, start, d, tree, [v] + path) && ([v] + path)[|path|] == end
      decreases d[v]
    {
      var u := parents[v];
      ChainPrepend(s, start, d, tree, [v] + path, u);
      path := [v] + path;
      assert ([u] + path)[|path|] == path[|path| - 1];
      v := u;
    }
    path := [start] + path;
  }

  /**
   * The third loop of generatePath: popping the stack highlights each vertex in turn and
   * writes the tree edge of each one other than the start.
   */
  method PopPath(start: Label, tree: map<Label, Edge>, stack: seq<Label>) returns (highlighted: seq<Label>, written: seq<Edge>)
    requires |stack| >= 1 && stack[0] == start
    requires forall i | 0 < i < |stack| :: stack[i] in tree && stack[i] != start
    ensures highlighted == stack
    ensures |written| == |stack| - 1 && forall i | 0 <= i < |written| :: written[i] == tree[stack[i + 1]]
  {
    var path := stack;
    highlighted, written := [], [];
    while path != []
      invariant highlighted + path == stack
      invariant |written| == if highlighted == [] then 0 else |highlighted| - 1
      invariant forall i | 0 <= i < |written| :: written[i] == tree[stack[i + 1]]
    {
      var x := path[0];
      path := path[1..];
      assert x == stack[|highlighted|];
      if x != start {
        assert |highlighted| > 0;
        written := written + [tree[x]];
      }
      highlighted := highlighted + [x];
    }
  }

  /** A tree chain from the start is a path of the weight of its end, over the graph's vertices. */
  lemma ChainIsPath(s: GraphState, start: Label, end: Label, d: map<Label, int>, tree: map<Label, Edge>, stack: seq<Label>)
    requires ValidState(s) && start in s.vertices && start in d && d[start] == 0
    requires TreeChain(s, start, d, tree, stack) && stack[0] == start && stack[|stack| - 1] == end
    ensures PathFromTo(s, stack, start, end) && PathWeight(s, stack) == d[end]
    ensures forall i | 0 <= i < |stack| :: stack[i] in s.vertices
  {
    TightWeight(s, d, stack);
    OnVertices(s, stack);
  }

  /** The tree edges along a tree chain are the stored edges between consecutive vertices. */
  lemma ChainEdgesStored(s: GraphState, start: Label, d: map<Label, int>, tree: map<Label, Edge>,
                         stack: seq<Label>, written: seq<Edge>)
    requires TreeChain(s, start, d, tree, stack)
    requires |written| == |stack| - 1 && forall i | 0 <= i < |written| :: written[i] == tree[stack[i + 1]]
    ensures forall i | 0 <= i < |written| :: (stack[i], stack[i + 1]) in s.edges && written[i] == StoredEdge(s, stack[i], stack[i + 1])
  {
    forall i | 0 <= i < |written|
      ensures (stack[i], stack[i + 1]) in s.edges && written[i] == StoredEdge(s, stack[i], stack[i + 1])
    {
      assert stack[i + 1] in tree;
    }
  }

  /** The edges of a tree chain are the ones the tree keeps: the last tight edge into each vertex. */
  lemma ChainEdgesLast(s: GraphState, start: Label, d: map<Label, int>, tree: map<Label, Edge>,
                       parents: map<Label, Label>, stack: seq<Label>, written: seq<Edge>)
    requires ValidState(s) && TreeOf(s, start, d, tree, parents)
    requires forall i | 0 < i < |stack| :: stack[i] in tree && stack[i] in s.vertices
    requires |written| == |stack| - 1 && forall i | 0 <= i < |written| :: written[i] == tree[stack[i + 1]]
    ensures forall i | 0 <= i < |written| :: LastTight(d, stack[i + 1], IncomingEdges(s, stack[i + 1]).value) == Some(written[i])
  {
    forall i | 0 <= i < |written|
      ensures LastTight(d, stack[i + 1], IncomingEdges(s, stack[i + 1]).value) == Some(written[i])
    {
      assert stack[i + 1] in tree;
    }
  }

  /** generatePath: the vertices of the path from the start to the end, and its edges in order. */
  method GeneratePath(s: GraphState, start: Label, end: Label, d: map<Label, int>)
    returns (highlighted: seq<Label>, written: seq<Edge>)
    requires ValidState(s) && Positive(s) && Shortest(s, start, d)
    requires start in s.vertices && end in s.vertices && d[end] < MAX_VALUE
    ensures PathFromTo(s, highlighted, start, end) && PathWeight(s, highlighted) == d[end]
    ensures forall i | 0 <= i < |highlighted| :: highlighted[i] in s.vertices
    ensures |written| == |highlighted| - 1
    ensures forall i | 0 <= i < |written| :: written[i] == StoredEdge(s, highlighted[i], highlighted[i + 1])
    ensures forall i | 0 <= i < |written| :: LastTight(d, highlighted[i + 1], IncomingEdges(s, highlighted[i + 1]).value) == Some(written[i])
  {
    var tree, parents := ShortestPathTree(s, start, d);
    StartAtZero(s, start, d);
    TreeTight(s, start, d, tree, parents);
    var stack := WalkBack(s, start, end, d, tree, parents);
    highlighted, written := PopPath(start, tree, stack);
    ChainIsPath(s, start, end, d, tree, highlighted);
    ChainEdgesStored(s, start, d, tree, highlighted, written);
    ChainEdgesLast(s, start, d, tree, parents, highlighted, written);
  }

  // ---------------------------------------------------------------------------------------
  // start: add random edges until the end vertex is reachable
  // ---------------------------------------------------------------------------------------

  /** Every weight is positive and below MAX_VALUE, as the weights generateRandomEdge is given. */
  ghost predicate WeightsInRange(s: GraphState) {
    forall p | p in s.edges :: 0 < s.edges[p] < MAX_VALUE
  }

  /**
   * An end vertex at distance MAX_VALUE means the graph still lacks an edge: in a complete
   * graph the edge from the start to the end is itself a path lighter than MAX_VALUE.
   */
  lemma Unfilled(s: GraphState, start: Label, end: Label, d: map<Label, int>)
    requires ValidState(s) && Loopless(s) && WeightsInRange(s) && Shortest(s, start, d)
    requires start in s.vertices && end in s.vertices && d[end] >= MAX_VALUE
    ensures NumEdges(s) < MaxEdges(s)
  {
    EdgeCountBound(s);
    StartAtZero(s, start, d);
    if start != end && (start, end) in s.edges {
      Triangle(s, start, d, start, end);
    }
  }

  /** `s` is `before` with `n` edges added, and every weight is below MAX_VALUE. */
  ghost predicate Extended(before: GraphState, s: GraphState, n: nat) {
    WeightsInRange(s) && Grew(before, s, n)
  }

  /** Adding one new edge of weight 1 to 20 extends the graph by one more edge. */
  lemma ExtendedStep(before: GraphState, s: GraphState, n: nat, s': GraphState, u: Label, v: Label, w: int)
    requires Extended(before, s, n)
    requires 1 <= w <= 20 && (u, v) !in s.edges
    requires s'.vertices == s.vertices && s'.edges == s.edges[(u, v) := w]
    ensures Extended(before, s', n + 1)
  {
    forall p | p in s'.edges
      ensures 0 < s'.edges[p] < MAX_VALUE
    {
      if p != (u, v) {
        assert p in s.edges;
      }
    }
    GrewStep(before, s, n, s', u, v, w);
  }

  /**
   * start: run Dijkstra's algorithm, adding an edge of random weight 1 to 20 between random
   * vertices after each run that does not reach the end, then reconstruct the path. The loop
   * ends because each failed run leaves an edge to add, and a complete graph reaches the end.
   */
  method Start(g: AdjacencyMapDigraph, start: Label, end: Label)
    returns (generated: seq<Generation>, highlighted: seq<Label>, written: seq<Edge>, weight: int)
    requires g.Valid() && Loopless(g.State()) && WeightsInRange(g.State())
    requires start in g.vertices && end in g.vertices
    modifies g
    ensures g.Valid() && Loopless(g.State())
    ensures Extended(old(g.State()), g.State(), |generated|) && Logged(old(g.State()), g.State(), generated)
    ensures PathFromTo(g.State(), highlighted, start, end) && PathWeight(g.State(), highlighted) == weight
    ensures forall p {:trigger PathWeight(g.State(), p)} | PathFromTo(g.State(), p, start, end) :: PathWeight(g.State(), p) >= weight
    ensures |written| == |highlighted| - 1
    ensures forall i | 0 <= i < |written| :: written[i] == StoredEdge(g.State(), highlighted[i], highlighted[i + 1])
  {
    generated := [];
    var ok, d;
    ok, weight, d := Dijkstra(g.State(), start, end);
    while !ok
      invariant Extended(old(g.State()), g.State(), |generated|) && Logged(old(g.State()), g.State(), generated)
      invariant g.Valid() && Loopless(g.State()) && start in g.vertices && end in g.vertices
      invariant Shortest(g.State(), start, d) && weight == d[end] && (ok <==> d[end] < MAX_VALUE)
      decreases MaxEdges(g.State()) - NumEdges(g.State())
    {
      ghost var s0 := g.State();
      Unfilled(s0, start, end, d);
      var w :| 1 <= w <= 20;
      var r := g.GenerateRandomEdge(w);
      ExtendedStep(old(g.State()), s0, |generated|, g.State(), r.edge.source, r.edge.target, w);
      LoggedStep(old(g.State()), s0, generated, g.State(), r);
      generated := generated + [r];
      ok, weight, d := Dijkstra(g.State(), start, end);
    }
    highlighted, written := GeneratePath(g.State(), start, end, d);
  }
}
