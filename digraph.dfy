/**
 * The adjacency-map digraph (AdjacencyMapDigraph): an insertion-ordered map from label to
 * vertex, a set of edges, and per vertex two insertion-ordered maps, outgoing edges keyed by
 * target and incoming edges keyed by source.
 *
 * A vertex is its label (DVertex equality and hashing use only the label). An edge is keyed by
 * its ordered end-vertex pair (DEdge equality), so the edge set is a map from that pair to the
 * edge's element, its integer weight. A neighbour map is the sequence of its keys in insertion
 * order; the edge it maps to is the one the edge set holds for the pair, which is how the source
 * shares one DEdge object between the edge set and both neighbour maps.
 */
module Digraph {
  import opened Wrappers

  type Label = string

  /** An edge handle: its two end vertices and its element. */
  datatype Edge = Edge(source: Label, target: Label, weight: int)

  /** The two exceptions of the graph ADT, split by the condition that raises them. */
  datatype GraphError =
    | UnknownVertex    // InvalidVertexException: the vertex does not belong to this graph
    | DuplicateVertex  // InvalidVertexException: a vertex with this label already exists
    | UnknownEdge      // InvalidEdgeException: the edge does not belong to this graph
    | DuplicateEdge    // InvalidEdgeException: an edge from u to v already exists
    | NotIncident      // InvalidEdgeException: v is not incident to this edge

  /** The outcome of generateRandomEdge: the "maximum number of edges" message, or the new edge. */
  datatype Generation = MaximumEdges | Generated(edge: Edge)

  // ---------------------------------------------------------------------------------------
  // Key sequences of the insertion-ordered maps
  // ---------------------------------------------------------------------------------------

  predicate Distinct<T(==)>(s: seq<T>) {
    forall i, j | 0 <= i < j < |s| :: s[i] != s[j]
  }

  /** `s` with `x` taken out and the rest in order: LinkedHashMap.remove on the key order. */
  function Without(s: seq<Label>, x: Label): (r: seq<Label>)
    ensures forall y :: y in r <==> y in s && y != x
    ensures x !in s ==> r == s
    ensures |r| <= |s|
    ensures Distinct(s) ==> Distinct(r) && (x in s ==> |r| == |s| - 1)
  {
    if s == [] then []
    else if s[0] == x then Without(s[1..], x)
    else
      var rest := Without(s[1..], x);
      assert Distinct(s) ==> s[0] !in s[1..];
      [s[0]] + rest
  }

  /** The elements of `s` that are in `keep`, in order. */
  function Filter(s: seq<Label>, keep: set<Label>): (r: seq<Label>)
    ensures forall y :: y in r <==> y in s && y in keep
    ensures Distinct(s) ==> Distinct(r)
  {
    if s == [] then []
    else
      var rest := Filter(s[1..], keep);
      assert Distinct(s) ==> s[0] !in s[1..];
      if s[0] in keep then [s[0]] + rest else rest
  }

  lemma {:induction false} FilterKeepsAll(s: seq<Label>, keep: set<Label>)
    requires forall y | y in s :: y in keep
    ensures Filter(s, keep) == s
  {
    if s != [] {
      FilterKeepsAll(s[1..], keep);
    }
  }

  lemma {:induction false} FilterWithout(s: seq<Label>, keep: set<Label>, x: Label)
    ensures Without(Filter(s, keep), x) == Filter(s, keep - {x})
  {
    if s != [] {
      FilterWithout(s[1..], keep, x);
      var rest := Filter(s[1..], keep);
      if s[0] in keep {
        assert Filter(s, keep) == [s[0]] + rest;
        assert ([s[0]] + rest)[1..] == rest;
      }
    }
  }

  /** Filtering by every element but `x` is taking `x` out. */
  lemma {:induction false} FilterIsWithout(s: seq<Label>, keep: set<Label>, x: Label)
    requires forall y | y in s :: y in keep <==> y != x
    ensures Filter(s, keep) == Without(s, x)
  {
    if s != [] {
      FilterIsWithout(s[1..], keep, x);
    }
  }

  // ---------------------------------------------------------------------------------------
  // The state of a graph and its invariant
  // ---------------------------------------------------------------------------------------

  /**
   * The four fields of an AdjacencyMapDigraph: the vertex labels in insertion order, each
   * vertex's outgoing-map keys (targets) and incoming-map keys (sources) in insertion order,
   * and the edge set keyed by endpoint pair.
   */
  datatype GraphState = GraphState(
    vertices: seq<Label>,
    outgoing: map<Label, seq<Label>>,
    incoming: map<Label, seq<Label>>,
    edges: map<(Label, Label), int>)

  /**
   * The structural invariant: labels are unique, every vertex has both neighbour maps, every
   * edge (u, v) appears as v in u's outgoing map and as u in v's incoming map and nowhere else,
   * and a neighbour map has each key once, so no two edges share a source and a target.
   */
  ghost predicate ValidState(s: GraphState) {
    && Distinct(s.vertices)
    && (forall v :: v in s.outgoing <==> v in s.vertices)
    && (forall v :: v in s.incoming <==> v in s.vertices)
    && (forall u | u in s.outgoing :: Distinct(s.outgoing[u]))
    && (forall v | v in s.incoming :: Distinct(s.incoming[v]))
    && OutgoingStored(s)
    && IncomingStored(s)
    && (forall u, v | (u, v) in s.edges ::
          u in s.outgoing && v in s.incoming && v in s.outgoing[u] && u in s.incoming[v])
  }

  /** Every stored edge is listed at both of its ends. */
  ghost predicate EdgesListed(s: GraphState) {
    forall u, v | (u, v) in s.edges ::
      u in s.outgoing && v in s.incoming && v in s.outgoing[u] && u in s.incoming[v]
  }

  /** Every key of an outgoing map is the target of a stored edge. */
  ghost predicate OutgoingStored(s: GraphState) {
    forall u, t | u in s.outgoing && t in s.outgoing[u] :: (u, t) in s.edges
  }

  /** Every key of an incoming map is the source of a stored edge. */
  ghost predicate IncomingStored(s: GraphState) {
    forall t, v | v in s.incoming && t in s.incoming[v] :: (t, v) in s.edges
  }

  /** No edge from a vertex to itself; generateRandomEdge never makes one. */
  ghost predicate Loopless(s: GraphState) {
    forall p | p in s.edges :: p.0 != p.1
  }

  /** The graph has every edge a simple digraph can have. */
  ghost predicate Complete(s: GraphState) {
    forall u, v | u in s.vertices && v in s.vertices && u != v :: (u, v) in s.edges
  }

  function NumVertices(s: GraphState): nat { |s.vertices| }

  function NumEdges(s: GraphState): nat { |s.edges| }

  /** n(n - 1): the number of ordered pairs of distinct vertices among n. */
  function OrderedPairs(n: nat): nat { n * (n - 1) }

  /** The number of edges generateRandomEdge treats as the maximum. */
  function MaxEdges(s: GraphState): nat { OrderedPairs(|s.vertices|) }

  // ---------------------------------------------------------------------------------------
  // Queries
  // ---------------------------------------------------------------------------------------

  /** validateVertex: the handle belongs to this graph. */
  function ValidateVertex(s: GraphState, v: Label): (r: Result<Label, GraphError>)
    requires ValidState(s)
    ensures r.Success? <==> v in s.vertices
    ensures r.Success? ==> r.value == v
    ensures r.Failure? ==> r.error == UnknownVertex
  {
    if v in s.outgoing then Success(v) else Failure(UnknownVertex)
  }

  /** validateEdge: some stored edge equals `e`, that is, has its source and target. */
  function ValidateEdge(s: GraphState, e: Edge): (r: Result<Edge, GraphError>)
    requires ValidState(s)
    ensures r.Success? <==> e.source in s.outgoing && e.target in s.outgoing[e.source]
    ensures r.Success? ==> r.value == e
    ensures r.Failure? ==> r.error == UnknownEdge
  {
    if (e.source, e.target) in s.edges then Success(e) else Failure(UnknownEdge)
  }

  /** DEdge.equals: edges are equal when their ordered end-vertex pairs are. */
  predicate SameEnds(a: Edge, b: Edge) {
    a.source == b.source && a.target == b.target
  }

  /** The edge the graph stores from `u` to `t`. */
  function StoredEdge(s: GraphState, u: Label, t: Label): Edge
    requires (u, t) in s.edges
  {
    Edge(u, t, s.edges[(u, t)])
  }

  /** The values of u's outgoing map, in insertion order. */
  function OutEdgesOf(s: GraphState, u: Label): (r: seq<Edge>)
    requires OutgoingStored(s) && u in s.outgoing
    ensures |r| == |s.outgoing[u]|
    ensures forall i | 0 <= i < |r| :: r[i] == StoredEdge(s, u, s.outgoing[u][i])
  {
    seq(|s.outgoing[u]|, i requires 0 <= i < |s.outgoing[u]| => StoredEdge(s, u, s.outgoing[u][i]))
  }

  /** The values of v's incoming map, in insertion order. */
  function InEdgesOf(s: GraphState, v: Label): (r: seq<Edge>)
    requires IncomingStored(s) && v in s.incoming
    ensures |r| == |s.incoming[v]|
    ensures forall i | 0 <= i < |r| :: r[i] == StoredEdge(s, s.incoming[v][i], v)
  {
    seq(|s.incoming[v]|, i requires 0 <= i < |s.incoming[v]| => StoredEdge(s, s.incoming[v][i], v))
  }

  /** outgoingEdges(v): every stored edge leaving `v`, once each, in insertion order. */
  function OutgoingEdges(s: GraphState, v: Label): (r: Result<seq<Edge>, GraphError>)
    requires ValidState(s)
    ensures r.Success? <==> v in s.vertices
    ensures r.Failure? ==> r.error == UnknownVertex
    ensures r.Success? ==> forall e :: e in r.value <==> e.source == v && (v, e.target) in s.edges && e == StoredEdge(s, v, e.target)
    ensures r.Success? ==> forall i, j | 0 <= i < j < |r.value| :: r.value[i].target != r.value[j].target
    ensures r.Success? ==> r.value == OutEdgesOf(s, v)
  {
    if v !in s.outgoing then Failure(UnknownVertex)
    else
      var es := OutEdgesOf(s, v);
      assert forall e: Edge | e.source == v && (v, e.target) in s.edges && e == StoredEdge(s, v, e.target) :: e in es by {
        forall e: Edge | e.source == v && (v, e.target) in s.edges && e == StoredEdge(s, v, e.target) ensures e in es {
          var i :| 0 <= i < |s.outgoing[v]| && s.outgoing[v][i] == e.target;
          assert es[i] == e;
        }
      }
      Success(es)
  }

  /** incomingEdges(v): every stored edge entering `v`, once each, in insertion order. */
  function IncomingEdges(s: GraphState, v: Label): (r: Result<seq<Edge>, GraphError>)
    requires ValidState(s)
    ensures r.Success? <==> v in s.vertices
    ensures r.Failure? ==> r.error == UnknownVertex
    ensures r.Success? ==> forall e :: e in r.value <==> e.target == v && (e.source, v) in s.edges && e == StoredEdge(s, e.source, v)
    ensures r.Success? ==> forall i, j | 0 <= i < j < |r.value| :: r.value[i].source != r.value[j].source
    ensures r.Success? ==> r.value == InEdgesOf(s, v)
  {
    if v !in s.incoming then Failure(UnknownVertex)
    else
      var es := InEdgesOf(s, v);
      assert forall e: Edge | e.target == v && (e.source, v) in s.edges && e == StoredEdge(s, e.source, v) :: e in es by {
        forall e: Edge | e.target == v && (e.source, v) in s.edges && e == StoredEdge(s, e.source, v) ensures e in es {
          var i :| 0 <= i < |s.incoming[v]| && s.incoming[v][i] == e.source;
          assert es[i] == e;
        }
      }
      Success(es)
  }

  /**
   * getEdge(u, v): the edge from `u` to `v`, or none when there is no such edge; only a `u`
   * that is not a vertex is an error.
   */
  function GetEdge(s: GraphState, u: Label, v: Label): (r: Result<Option<Edge>, GraphError>)
    requires ValidState(s)
    ensures r.Failure? <==> u !in s.vertices
    ensures r.Failure? ==> r.error == UnknownVertex
    ensures r.Success? ==> (r.value.Some? <==> (u, v) in s.edges)
    ensures r.Success? && r.value.Some? ==> r.value.value == Edge(u, v, s.edges[(u, v)])
  {
    if u !in s.outgoing then Failure(UnknownVertex)
    else if v in s.outgoing[u] then Success(Some(StoredEdge(s, u, v)))
    else Success(None)
  }

  /** opposite(v, e): the end of `e` that is not `v`. */
  function Opposite(s: GraphState, v: Label, e: Edge): (r: Result<Label, GraphError>)
    requires ValidState(s)
    ensures v !in s.vertices ==> r == Failure(UnknownVertex)
    ensures v in s.vertices && (e.source, e.target) !in s.edges ==> r == Failure(UnknownEdge)
    ensures v in s.vertices && (e.source, e.target) in s.edges ==>
              (r.Success? <==> v == e.source || v == e.target) &&
              (r.Failure? ==> r.error == NotIncident)
    ensures r.Success? ==> (v == e.source && r.value == e.target) || (v == e.target && r.value == e.source)
  {
    if v !in s.outgoing then Failure(UnknownVertex)
    else if ValidateEdge(s, e).Failure? then Failure(UnknownEdge)
    else if e.source == v then Success(e.target)
    else if e.target == v then Success(e.source)
    else Failure(NotIncident)
  }

  // ---------------------------------------------------------------------------------------
  // The state changes of the mutating operations
  // ---------------------------------------------------------------------------------------

  /** insertVertex: a new vertex with empty neighbour maps at the end of the vertex order. */
  function AddVertex(s: GraphState, x: Label): GraphState {
    GraphState(s.vertices + [x], s.outgoing[x := []], s.incoming[x := []], s.edges)
  }

  /** insertEdge: the edge set gains (u, v); v goes last in u's outgoing map, u last in v's incoming map. */
  function AddEdge(s: GraphState, u: Label, v: Label, w: int): GraphState
    requires u in s.outgoing && v in s.incoming
  {
    GraphState(s.vertices,
               s.outgoing[u := s.outgoing[u] + [v]],
               s.incoming[v := s.incoming[v] + [u]],
               s.edges[(u, v) := w])
  }

  /** removeEdge: (u, v) leaves the edge set, u's outgoing map and v's incoming map. */
  function DeleteEdge(s: GraphState, u: Label, v: Label): GraphState
    requires u in s.outgoing && v in s.incoming
  {
    GraphState(s.vertices,
               s.outgoing[u := Without(s.outgoing[u], v)],
               s.incoming[v := Without(s.incoming[v], u)],
               s.edges - {(u, v)})
  }

  /** removeVertex: `x`, every edge incident to it, and `x` from every neighbour map. */
  function DeleteVertex(s: GraphState, x: Label): GraphState {
    GraphState(Without(s.vertices, x),
               map u | u in s.outgoing && u != x :: Without(s.outgoing[u], x),
               map v | v in s.incoming && v != x :: Without(s.incoming[v], x),
               map p | p in s.edges && p.0 != x && p.1 != x :: s.edges[p])
  }

  lemma AddVertexValid(s: GraphState, x: Label)
    requires ValidState(s) && x !in s.vertices
    ensures ValidState(AddVertex(s, x)) && Loopless(AddVertex(s, x)) == Loopless(s)
    ensures NumVertices(AddVertex(s, x)) == NumVertices(s) + 1 && NumEdges(AddVertex(s, x)) == NumEdges(s)
  {
    var t := AddVertex(s, x);
    forall i, j | 0 <= i < j < |t.vertices| ensures t.vertices[i] != t.vertices[j] {
      if j == |s.vertices| {
        assert t.vertices[i] in s.vertices;
      }
    }
  }

  /** Inserting an absent edge keeps the invariant and adds exactly one edge. */
  lemma AddEdgeValid(s: GraphState, u: Label, v: Label, w: int)
    requires ValidState(s) && u in s.vertices && v in s.vertices && (u, v) !in s.edges
    ensures ValidState(AddEdge(s, u, v, w))
    ensures NumEdges(AddEdge(s, u, v, w)) == NumEdges(s) + 1
    ensures Loopless(s) && u != v ==> Loopless(AddEdge(s, u, v, w))
  {
    var t := AddEdge(s, u, v, w);
    assert v !in s.outgoing[u] && u !in s.incoming[v];
    AppendDistinct(s.outgoing[u], v);
    AppendDistinct(s.incoming[v], u);
  }

  lemma AppendDistinct(s: seq<Label>, x: Label)
    requires Distinct(s) && x !in s
    ensures Distinct(s + [x])
  {
    forall i, j | 0 <= i < j < |s + [x]| ensures (s + [x])[i] != (s + [x])[j] {
      if j == |s| {
        assert (s + [x])[i] == s[i];
      }
    }
  }

  /** Removing a present edge keeps the invariant and removes exactly one edge. */
  lemma DeleteEdgeValid(s: GraphState, u: Label, v: Label)
    requires ValidState(s) && (u, v) in s.edges
    ensures ValidState(DeleteEdge(s, u, v))
    ensures NumEdges(DeleteEdge(s, u, v)) == NumEdges(s) - 1
    ensures Loopless(s) ==> Loopless(DeleteEdge(s, u, v))
  {
  }

  /**
   * Round trip: inserting an edge that was absent and then removing it restores the graph,
   * neighbour-map order included.
   */
  lemma {:induction false} DeleteAfterAdd(s: GraphState, u: Label, v: Label, w: int)
    requires ValidState(s) && u in s.vertices && v in s.vertices && (u, v) !in s.edges
    ensures DeleteEdge(AddEdge(s, u, v, w), u, v) == s
  {
    assert v !in s.outgoing[u] && u !in s.incoming[v];
    NeighbourRestored(s.outgoing, u, v);
    NeighbourRestored(s.incoming, v, u);
    assert (s.edges[(u, v) := w] - {(u, v)}).Keys == s.edges.Keys;
  }

  /** Appending `x` to the list at `k` and then removing it gives back the same map. */
  lemma NeighbourRestored(m: map<Label, seq<Label>>, k: Label, x: Label)
    requires k in m && x !in m[k]
    ensures m[k := m[k] + [x]][k := Without(m[k] + [x], x)] == m
  {
    WithoutAppended(m[k], x);
    assert m[k := m[k]] == m;
  }

  lemma {:induction false} WithoutAppended(s: seq<Label>, x: Label)
    requires x !in s
    ensures Without(s + [x], x) == s
  {
    if s != [] {
      assert (s + [x])[1..] == s[1..] + [x];
      WithoutAppended(s[1..], x);
    }
  }

  /**
   * After insertEdge(u, v, w), getEdge(u, v) finds an edge with element w, and getEdge(v, u)
   * answers as it did before.
   */
  lemma GetEdgeAfterAdd(s: GraphState, u: Label, v: Label, w: int)
    requires ValidState(s) && u in s.vertices && v in s.vertices && u != v && (u, v) !in s.edges
    ensures ValidState(AddEdge(s, u, v, w))
    ensures GetEdge(AddEdge(s, u, v, w), u, v) == Success(Some(Edge(u, v, w)))
    ensures GetEdge(AddEdge(s, u, v, w), v, u) == GetEdge(s, v, u)
  {
    AddEdgeValid(s, u, v, w);
  }

  /** Every edge is one of the ordered pairs of distinct vertices... */
  function DistinctPairs(vs: seq<Label>): set<(Label, Label)> {
    set u, v | u in vs && v in vs && u != v :: (u, v)
  }

  function Row(x: Label, vs: seq<Label>): set<(Label, Label)> {
    set v | v in vs :: (x, v)
  }

  function Column(x: Label, vs: seq<Label>): set<(Label, Label)> {
    set u | u in vs :: (u, x)
  }

  lemma {:induction false} RowCount(x: Label, vs: seq<Label>)
    requires Distinct(vs)
    ensures |Row(x, vs)| == |vs| && |Column(x, vs)| == |vs|
  {
    if vs != [] {
      var init := vs[..|vs| - 1];
      var y := vs[|vs| - 1];
      assert vs == init + [y];
      RowCount(x, init);
      assert Row(x, vs) == Row(x, init) + {(x, y)};
      assert Column(x, vs) == Column(x, init) + {(y, x)};
    }
  }

  /** ...and there are n(n - 1) of them. */
  lemma {:induction false} DistinctPairsCount(vs: seq<Label>)
    requires Distinct(vs)
    ensures |DistinctPairs(vs)| == OrderedPairs(|vs|)
  {
    if vs != [] {
      var init := vs[..|vs| - 1];
      var x := vs[|vs| - 1];
      assert vs == init + [x];
      assert x !in init;
      DistinctPairsCount(init);
      RowCount(x, init);
      PairsSplit(init, x);
      PairsArithmetic(|init|);
    }
  }

  /** A new last vertex adds its row and its column of pairs, disjoint from the old ones. */
  lemma PairsSplit(init: seq<Label>, x: Label)
    requires x !in init
    ensures DistinctPairs(init + [x]) == DistinctPairs(init) + Row(x, init) + Column(x, init)
    ensures DistinctPairs(init) !! Row(x, init)
    ensures DistinctPairs(init) + Row(x, init) !! Column(x, init)
  {
    var vs := init + [x];
    forall u, v | u in vs && v in vs && u != v
      ensures (u, v) in DistinctPairs(init) + Row(x, init) + Column(x, init)
    {
      if u == x {
        assert v in init;
      } else if v == x {
        assert u in init;
      } else {
        assert u in init && v in init;
      }
    }
  }

  lemma PairsArithmetic(n: nat)
    ensures OrderedPairs(n) + 2 * n == OrderedPairs(n + 1)
  {
  }

  lemma SubsetCount<T>(a: set<T>, b: set<T>)
    requires a <= b
    ensures |a| <= |b| && (|a| == |b| ==> a == b)
  {
    assert b == a + (b - a);
    if |a| == |b| {
      assert |b - a| == 0;
    }
  }

  /**
   * numEdges never exceeds n(n - 1) in a graph without self-loops, and reaches it exactly when
   * the graph is complete: the test generateRandomEdge uses for "maximum number of edges".
   */
  lemma EdgeCountBound(s: GraphState)
    requires ValidState(s) && Loopless(s)
    ensures NumEdges(s) <= MaxEdges(s)
    ensures NumEdges(s) == MaxEdges(s) <==> Complete(s)
  {
    DistinctPairsCount(s.vertices);
    EdgesArePairs(s);
    SubsetCount(s.edges.Keys, DistinctPairs(s.vertices));
    assert |s.edges| == |s.edges.Keys|;
  }

  /** The edge keys are distinct-vertex pairs, and all of them exactly when the graph is complete. */
  lemma EdgesArePairs(s: GraphState)
    requires ValidState(s) && Loopless(s)
    ensures s.edges.Keys <= DistinctPairs(s.vertices)
    ensures s.edges.Keys == DistinctPairs(s.vertices) <==> Complete(s)
  {
    forall p | p in s.edges ensures p in DistinctPairs(s.vertices) {
      assert p == (p.0, p.1);
      assert p.0 in s.vertices && p.1 in s.vertices && p.0 != p.1;
    }
    if Complete(s) {
      forall u, v | u in s.vertices && v in s.vertices && u != v ensures (u, v) in s.edges.Keys {
      }
    }
    if s.edges.Keys == DistinctPairs(s.vertices) {
      forall u, v | u in s.vertices && v in s.vertices && u != v ensures (u, v) in s.edges {
        assert (u, v) in DistinctPairs(s.vertices);
      }
    }
  }

  // ---------------------------------------------------------------------------------------
  // removeVertex, edge by edge
  // ---------------------------------------------------------------------------------------

  function Targets(keys: set<(Label, Label)>, u: Label): set<Label> {
    set p | p in keys && p.0 == u :: p.1
  }

  function Sources(keys: set<(Label, Label)>, v: Label): set<Label> {
    set p | p in keys && p.1 == v :: p.0
  }

  /** The graph with only the edges keyed in `keep` left, neighbour orders kept. */
  function Prune(s: GraphState, keep: set<(Label, Label)>): GraphState {
    GraphState(s.vertices,
               map u | u in s.outgoing :: Filter(s.outgoing[u], Targets(keep, u)),
               map v | v in s.incoming :: Filter(s.incoming[v], Sources(keep, v)),
               map p | p in s.edges && p in keep :: s.edges[p])
  }

  lemma PruneAll(s: GraphState)
    requires ValidState(s)
    ensures Prune(s, s.edges.Keys) == s
  {
    PruneAllOutgoing(s);
    PruneAllIncoming(s);
    assert Prune(s, s.edges.Keys).edges == s.edges;
  }

  lemma PruneAllOutgoing(s: GraphState)
    requires OutgoingStored(s)
    ensures Prune(s, s.edges.Keys).outgoing == s.outgoing
  {
    var t := Prune(s, s.edges.Keys);
    forall u | u in s.outgoing ensures t.outgoing[u] == s.outgoing[u] {
      FilterKeepsAll(s.outgoing[u], Targets(s.edges.Keys, u));
    }
  }

  lemma PruneAllIncoming(s: GraphState)
    requires IncomingStored(s)
    ensures Prune(s, s.edges.Keys).incoming == s.incoming
  {
    var t := Prune(s, s.edges.Keys);
    forall v | v in s.incoming ensures t.incoming[v] == s.incoming[v] {
      forall x | x in s.incoming[v] ensures x in Sources(s.edges.Keys, v) {
        assert (x, v) in s.edges.Keys;
      }
      FilterKeepsAll(s.incoming[v], Sources(s.edges.Keys, v));
    }
  }

  lemma PruneValid(s: GraphState, keep: set<(Label, Label)>)
    requires ValidState(s) && keep <= s.edges.Keys
    ensures ValidState(Prune(s, keep))
  {
    var t := Prune(s, keep);
    forall p | p in t.edges
      ensures p.0 in t.outgoing && p.1 in t.incoming && p.1 in t.outgoing[p.0] && p.0 in t.incoming[p.1]
    {
      assert p.1 in Targets(keep, p.0);
      assert p.0 in Sources(keep, p.1);
    }
  }

  /** Removing one more kept edge from a pruned graph prunes it further. */
  lemma PruneStep(s: GraphState, keep: set<(Label, Label)>, u: Label, v: Label)
    requires u in s.outgoing && v in s.incoming
    ensures u in Prune(s, keep).outgoing && v in Prune(s, keep).incoming
    ensures DeleteEdge(Prune(s, keep), u, v) == Prune(s, keep - {(u, v)})
  {
    PruneStepOutgoing(s, keep, u, v);
    PruneStepIncoming(s, keep, u, v);
  }

  lemma PruneStepOutgoing(s: GraphState, keep: set<(Label, Label)>, u: Label, v: Label)
    requires u in s.outgoing && v in s.incoming
    ensures DeleteEdge(Prune(s, keep), u, v).outgoing == Prune(s, keep - {(u, v)}).outgoing
  {
    var a := DeleteEdge(Prune(s, keep), u, v);
    var b := Prune(s, keep - {(u, v)});
    forall x | x in s.outgoing ensures a.outgoing[x] == b.outgoing[x] {
      TargetsLess(keep, u, v, x);
      if x == u {
        FilterWithout(s.outgoing[u], Targets(keep, u), v);
      }
    }
  }

  lemma PruneStepIncoming(s: GraphState, keep: set<(Label, Label)>, u: Label, v: Label)
    requires u in s.outgoing && v in s.incoming
    ensures DeleteEdge(Prune(s, keep), u, v).incoming == Prune(s, keep - {(u, v)}).incoming
  {
    var a := DeleteEdge(Prune(s, keep), u, v);
    var b := Prune(s, keep - {(u, v)});
    forall x | x in s.incoming ensures a.incoming[x] == b.incoming[x] {
      SourcesLess(keep, u, v, x);
      if x == v {
        FilterWithout(s.incoming[v], Sources(keep, v), u);
      }
    }
  }

  lemma TargetsLess(keep: set<(Label, Label)>, u: Label, v: Label, x: Label)
    ensures Targets(keep - {(u, v)}, x) == if x == u then Targets(keep, x) - {v} else Targets(keep, x)
  {
  }

  lemma SourcesLess(keep: set<(Label, Label)>, u: Label, v: Label, x: Label)
    ensures Sources(keep - {(u, v)}, x) == if x == v then Sources(keep, x) - {u} else Sources(keep, x)
  {
  }

  /** The edges removeVertex collects: incident keys of `x`. */
  function Incident(s: GraphState, x: Label): set<(Label, Label)> {
    set p | p in s.edges && (p.0 == x || p.1 == x)
  }

  /** Pruning every edge incident to `x` and then dropping `x` is removeVertex's state change. */
  lemma PruneIncident(s: GraphState, x: Label)
    requires OutgoingStored(s) && IncomingStored(s)
    ensures DropVertex(Prune(s, s.edges.Keys - Incident(s, x)), x) == DeleteVertex(s, x)
  {
    PruneIncidentOutgoing(s, x);
    PruneIncidentIncoming(s, x);
    PruneIncidentEdges(s, x);
  }

  lemma PruneIncidentEdges(s: GraphState, x: Label)
    ensures DeleteVertex(s, x).edges == Prune(s, s.edges.Keys - Incident(s, x)).edges
  {
    var d, t := DeleteVertex(s, x).edges, Prune(s, s.edges.Keys - Incident(s, x)).edges;
    assert d.Keys == t.Keys;
  }

  lemma PruneIncidentOutgoing(s: GraphState, x: Label)
    requires OutgoingStored(s)
    ensures DeleteVertex(s, x).outgoing == Prune(s, s.edges.Keys - Incident(s, x)).outgoing - {x}
  {
    var keep := s.edges.Keys - Incident(s, x);
    var d, t := DeleteVertex(s, x).outgoing, Prune(s, keep).outgoing - {x};
    assert d.Keys == t.Keys;
    forall u | u in d ensures d[u] == t[u] {
      forall y | y in s.outgoing[u] ensures y in Targets(keep, u) <==> y != x {
        assert (u, y) in s.edges;
        if y != x {
          assert (u, y) in keep;
        }
      }
      FilterIsWithout(s.outgoing[u], Targets(keep, u), x);
    }
  }

  lemma PruneIncidentIncoming(s: GraphState, x: Label)
    requires IncomingStored(s)
    ensures DeleteVertex(s, x).incoming == Prune(s, s.edges.Keys - Incident(s, x)).incoming - {x}
  {
    var keep := s.edges.Keys - Incident(s, x);
    var d, t := DeleteVertex(s, x).incoming, Prune(s, keep).incoming - {x};
    assert d.Keys == t.Keys;
    forall v | v in d ensures d[v] == t[v] {
      forall y | y in s.incoming[v] ensures y in Sources(keep, v) <==> y != x {
        assert (y, v) in s.edges;
        if y != x {
          assert (y, v) in keep;
        }
      }
      FilterIsWithout(s.incoming[v], Sources(keep, v), x);
    }
  }

  /**
   * removeVertex drops numEdges by the in-degree plus the out-degree of `x` when `x` has no
   * self-loop, and keeps the invariant.
   */
  lemma DeleteVertexCount(s: GraphState, x: Label)
    requires ValidState(s) && x in s.vertices && (x, x) !in s.edges
    ensures ValidState(DeleteVertex(s, x))
    ensures NumVertices(DeleteVertex(s, x)) == NumVertices(s) - 1
    ensures NumEdges(DeleteVertex(s, x)) == NumEdges(s) - |s.incoming[x]| - |s.outgoing[x]|
  {
    DeleteVertexValid(s, x);
    var d := DeleteVertex(s, x);
    IncidentSplit(s, x);
    InjectiveCount(s.incoming[x], x);
    InjectiveCount(s.outgoing[x], x);
    DeleteVertexEdges(s, x);
    DisjointCount(s.edges.Keys, (set y | y in s.incoming[x] :: (y, x)), (set y | y in s.outgoing[x] :: (x, y)));
  }

  lemma DeleteVertexEdges(s: GraphState, x: Label)
    ensures DeleteVertex(s, x).edges.Keys == s.edges.Keys - Incident(s, x)
  {
  }

  lemma DisjointCount<T>(keys: set<T>, a: set<T>, b: set<T>)
    requires a <= keys && b <= keys && a !! b
    ensures |keys - (a + b)| == |keys| - |a| - |b|
  {
    assert keys == (keys - (a + b)) + a + b;
  }

  lemma DeleteVertexValid(s: GraphState, x: Label)
    requires ValidState(s) && x in s.vertices
    ensures ValidState(DeleteVertex(s, x))
    ensures NumVertices(DeleteVertex(s, x)) == NumVertices(s) - 1
  {
    var d := DeleteVertex(s, x);
    forall v | v in d.incoming ensures Distinct(d.incoming[v]) { }
    forall u | u in d.outgoing ensures Distinct(d.outgoing[u]) { }
  }

  /** Without a self-loop, the edges at `x` split into those entering it and those leaving it. */
  lemma IncidentSplit(s: GraphState, x: Label)
    requires ValidState(s) && x in s.vertices && (x, x) !in s.edges
    ensures Incident(s, x) == (set y | y in s.incoming[x] :: (y, x)) + (set y | y in s.outgoing[x] :: (x, y))
    ensures (set y | y in s.incoming[x] :: (y, x)) !! (set y | y in s.outgoing[x] :: (x, y))
    ensures Incident(s, x) <= s.edges.Keys
  {
    forall p | p in Incident(s, x)
      ensures p in (set y | y in s.incoming[x] :: (y, x)) + (set y | y in s.outgoing[x] :: (x, y))
    {
      assert p == (p.0, p.1);
      if p.1 == x {
        assert p.0 in s.incoming[x];
      } else {
        assert p.1 in s.outgoing[x];
      }
    }
  }

  lemma {:induction false} InjectiveCount(vs: seq<Label>, x: Label)
    requires Distinct(vs)
    ensures |set y | y in vs :: (y, x)| == |vs| && |set y | y in vs :: (x, y)| == |vs|
  {
    RowCount(x, vs);
    assert (set y | y in vs :: (y, x)) == Column(x, vs);
    assert (set y | y in vs :: (x, y)) == Row(x, vs);
  }

  /** The endpoint pairs of the first `i` edges of `es`. */
  function EdgeKeys(es: seq<Edge>, i: nat): set<(Label, Label)>
    requires i <= |es|
  {
    set j | 0 <= j < i :: (es[j].source, es[j].target)
  }

  /** The edges removeVertex collects: the incoming map's values, then the outgoing map's. */
  function Removed(s: GraphState, x: Label): (r: seq<Edge>)
    requires OutgoingStored(s) && IncomingStored(s) && x in s.outgoing && x in s.incoming
    ensures |r| == |s.incoming[x]| + |s.outgoing[x]|
  {
    InEdgesOf(s, x) + OutEdgesOf(s, x)
  }

  /** removeEdge applied to each edge of `es` in turn, skipping any whose ends are gone. */
  function DeleteEdges(s: GraphState, es: seq<Edge>): GraphState {
    if es == [] then s
    else
      var t := DeleteEdges(s, es[..|es| - 1]);
      var e := es[|es| - 1];
      if e.source in t.outgoing && e.target in t.incoming then DeleteEdge(t, e.source, e.target) else t
  }

  function IndexOf(s: seq<Label>, x: Label): (i: nat)
    requires x in s
    ensures i < |s| && s[i] == x
  {
    if s[0] == x then 0 else 1 + IndexOf(s[1..], x)
  }

  /**
   * Where removeVertex's loop stops: at the outgoing copy of the self-loop of `x` when there is
   * one, which is removed already, and otherwise after the last collected edge.
   */
  ghost function SelfLoopCopy(s: GraphState, x: Label): (r: nat)
    requires ValidState(s) && x in s.vertices
    ensures r <= |s.incoming[x]| + |s.outgoing[x]|
    ensures r < |s.incoming[x]| + |s.outgoing[x]| <==> (x, x) in s.edges
    ensures r < |s.incoming[x]| + |s.outgoing[x]| ==> r >= |s.incoming[x]|
  {
    if x in s.outgoing[x] then |s.incoming[x]| + IndexOf(s.outgoing[x], x)
    else |s.incoming[x]| + |s.outgoing[x]|
  }

  /**
   * The edges removeVertex collects are all stored, and only a self-loop repeats: its copy
   * among the outgoing edges repeats its copy among the incoming ones.
   */
  lemma RemovedKeys(s: GraphState, x: Label, i: nat)
    requires ValidState(s) && x in s.vertices
    requires i < |Removed(s, x)|
    ensures var removed := Removed(s, x);
            var k := (removed[i].source, removed[i].target);
            k in s.edges && (k in EdgeKeys(removed, i) <==> k == (x, x) && i >= |s.incoming[x]|)
  {
    var ins, outs := InEdgesOf(s, x), OutEdgesOf(s, x);
    var removed := ins + outs;
    var n := |ins|;
    var k := (removed[i].source, removed[i].target);
    if i < n {
      assert removed[i] == ins[i];
      forall j | 0 <= j < i ensures (removed[j].source, removed[j].target) != k {
        assert removed[j] == ins[j];
      }
    } else {
      assert removed[i] == outs[i - n];
      forall j | 0 <= j < i && (removed[j].source, removed[j].target) == k ensures k == (x, x) {
        if j < n {
          assert removed[j] == ins[j];
        }
      }
      if k == (x, x) {
        var a :| 0 <= a < n && s.incoming[x][a] == x;
        assert removed[a] == ins[a];
        assert (removed[a].source, removed[a].target) == k;
      }
    }
  }

  /** The edges removeVertex collects are exactly the edges incident to `x`. */
  lemma IncidentKeys(s: GraphState, x: Label)
    requires OutgoingStored(s) && IncomingStored(s) && EdgesListed(s) && x in s.outgoing && x in s.incoming
    ensures var removed := Removed(s, x);
            EdgeKeys(removed, |removed|) == Incident(s, x)
  {
    IncidentCollected(s, x);
    CollectedIncident(s, x);
  }

  lemma IncidentCollected(s: GraphState, x: Label)
    requires OutgoingStored(s) && IncomingStored(s) && EdgesListed(s) && x in s.outgoing && x in s.incoming
    ensures Incident(s, x) <= EdgeKeys(Removed(s, x), |Removed(s, x)|)
  {
    var ins, outs := InEdgesOf(s, x), OutEdgesOf(s, x);
    var removed := ins + outs;
    forall p | p in Incident(s, x) ensures p in EdgeKeys(removed, |removed|) {
      if p.1 == x {
        var a :| 0 <= a < |ins| && s.incoming[x][a] == p.0;
        assert removed[a] == ins[a];
      } else {
        var b :| 0 <= b < |outs| && s.outgoing[x][b] == p.1;
        assert removed[|ins| + b] == outs[b];
      }
    }
  }

  lemma CollectedIncident(s: GraphState, x: Label)
    requires OutgoingStored(s) && IncomingStored(s) && x in s.outgoing && x in s.incoming
    ensures EdgeKeys(Removed(s, x), |Removed(s, x)|) <= Incident(s, x)
  {
    var ins, outs := InEdgesOf(s, x), OutEdgesOf(s, x);
    var removed := ins + outs;
    forall p | p in EdgeKeys(removed, |removed|) ensures p in Incident(s, x) {
      var j :| 0 <= j < |removed| && (removed[j].source, removed[j].target) == p;
      if j < |ins| {
        var y := s.incoming[x][j];
        assert removed[j] == ins[j] == StoredEdge(s, y, x);
        assert (y, x) in s.edges;
      } else {
        var y := s.outgoing[x][j - |ins|];
        assert removed[j] == outs[j - |ins|] == StoredEdge(s, x, y);
        assert (x, y) in s.edges;
      }
    }
  }

  /**
   * One turn of removeVertex's loop: the i-th collected edge is still stored unless it is the
   * second copy of a self-loop, and removing it prunes one more key.
   */
  lemma RemoveVertexStep(s: GraphState, x: Label, i: nat)
    requires ValidState(s) && x in s.vertices
    requires i < |Removed(s, x)|
    ensures var removed := Removed(s, x);
            var k := (removed[i].source, removed[i].target);
            var keep := s.edges.Keys - EdgeKeys(removed, i);
            && k.0 in s.outgoing && k.1 in s.incoming
            && (k in keep <==> !(k == (x, x) && i >= |s.incoming[x]|))
            && DeleteEdge(Prune(s, keep), k.0, k.1) == Prune(s, s.edges.Keys - EdgeKeys(removed, i + 1))
  {
    var removed := Removed(s, x);
    RemovedKeys(s, x, i);
    PruneNext(s, removed, i);
  }

  /** Removing the i-th edge's key from the pruned graph prunes the first i + 1 keys. */
  lemma PruneNext(s: GraphState, es: seq<Edge>, i: nat)
    requires i < |es| && es[i].source in s.outgoing && es[i].target in s.incoming
    ensures DeleteEdge(Prune(s, s.edges.Keys - EdgeKeys(es, i)), es[i].source, es[i].target)
            == Prune(s, s.edges.Keys - EdgeKeys(es, i + 1))
  {
    var k := (es[i].source, es[i].target);
    var keep := s.edges.Keys - EdgeKeys(es, i);
    PruneStep(s, keep, k.0, k.1);
    EdgeKeysNext(es, i);
    assert keep - {k} == s.edges.Keys - EdgeKeys(es, i + 1);
  }

  lemma EdgeKeysNone(es: seq<Edge>)
    ensures EdgeKeys(es, 0) == {}
  {
  }

  lemma EdgeKeysNext(es: seq<Edge>, i: nat)
    requires i < |es|
    ensures EdgeKeys(es, i + 1) == EdgeKeys(es, i) + {(es[i].source, es[i].target)}
  {
  }

  /** Before the self-loop's second copy, the loop has pruned exactly the keys it has passed. */
  lemma {:induction false} RemovalPrefix(s: GraphState, x: Label, i: nat)
    requires ValidState(s) && x in s.vertices && i <= SelfLoopCopy(s, x)
    ensures DeleteEdges(s, Removed(s, x)[..i]) == Prune(s, s.edges.Keys - EdgeKeys(Removed(s, x), i))
  {
    var removed := Removed(s, x);
    if i == 0 {
      assert removed[..0] == [];
      EdgeKeysNone(removed);
      assert s.edges.Keys - EdgeKeys(removed, 0) == s.edges.Keys;
      PruneAll(s);
    } else {
      RemovalPrefix(s, x, i - 1);
      RemoveVertexStep(s, x, i - 1);
      SelfLoopAt(s, x, i - 1);
      DeleteEdgesNext(s, removed, i - 1);
    }
  }

  /** One turn of the loop, in terms of the edges removed so far. */
  lemma RemovalNext(s: GraphState, x: Label, i: nat)
    requires ValidState(s) && x in s.vertices && i <= SelfLoopCopy(s, x) && i < |Removed(s, x)|
    ensures var t := DeleteEdges(s, Removed(s, x)[..i]);
            var e := Removed(s, x)[i];
            && ValidState(t) && t.vertices == s.vertices
            && ((e.source, e.target) in t.edges <==> i != SelfLoopCopy(s, x))
            && ((e.source, e.target) in t.edges ==>
                  DeleteEdges(s, Removed(s, x)[..i + 1]) == DeleteEdge(t, e.source, e.target))
  {
    var removed := Removed(s, x);
    var keep := s.edges.Keys - EdgeKeys(removed, i);
    RemovalPrefix(s, x, i);
    PruneValid(s, keep);
    RemoveVertexStep(s, x, i);
    SelfLoopAt(s, x, i);
    DeleteEdgesNext(s, removed, i);
  }

  lemma DeleteEdgesNext(s: GraphState, es: seq<Edge>, i: nat)
    requires i < |es|
    ensures var t := DeleteEdges(s, es[..i]);
            DeleteEdges(s, es[..i + 1]) ==
              if es[i].source in t.outgoing && es[i].target in t.incoming
              then DeleteEdge(t, es[i].source, es[i].target) else t
  {
    assert es[..i + 1][..i] == es[..i];
  }

  /** The collected edge at `i` is the outgoing copy of a self-loop exactly at SelfLoopCopy. */
  lemma SelfLoopAt(s: GraphState, x: Label, i: nat)
    requires ValidState(s) && x in s.vertices && i < |Removed(s, x)|
    ensures (Removed(s, x)[i].source, Removed(s, x)[i].target) == (x, x) && i >= |s.incoming[x]|
            <==> i == SelfLoopCopy(s, x)
  {
    var removed, n := Removed(s, x), |s.incoming[x]|;
    if i >= n {
      assert removed[i] == OutEdgesOf(s, x)[i - n];
      if x in s.outgoing[x] {
        var b := IndexOf(s.outgoing[x], x);
        assert Distinct(s.outgoing[x]);
        assert s.outgoing[x][i - n] == x ==> i - n == b;
      }
    }
  }

  /** Without a self-loop the loop ends with every edge of `x` gone, and dropping `x` is removeVertex. */
  lemma RemovalDone(s: GraphState, x: Label, t: GraphState)
    requires ValidState(s) && x in s.vertices && (x, x) !in s.edges
    requires t == DeleteEdges(s, Removed(s, x)[..|s.incoming[x]| + |s.outgoing[x]|])
    ensures DropVertex(t, x) == DeleteVertex(s, x)
  {
    RemovalPrefix(s, x, |Removed(s, x)|);
    DropCollected(s, x, t);
  }

  /** Pruning the collected keys and dropping `x` is removeVertex's state change. */
  lemma DropCollected(s: GraphState, x: Label, t: GraphState)
    requires OutgoingStored(s) && IncomingStored(s) && EdgesListed(s) && x in s.outgoing && x in s.incoming
    requires t == Prune(s, s.edges.Keys - EdgeKeys(Removed(s, x), |Removed(s, x)|))
    ensures DropVertex(t, x) == DeleteVertex(s, x)
  {
    var removed := Removed(s, x);
    IncidentKeys(s, x);
    var keep := s.edges.Keys - EdgeKeys(removed, |removed|);
    assert keep == s.edges.Keys - Incident(s, x);
    PruneIncident(s, x);
  }

  /** The last step of removeVertex: the vertex leaves the vertex map, taking its neighbour maps. */
  function DropVertex(t: GraphState, x: Label): GraphState {
    GraphState(Without(t.vertices, x), t.outgoing - {x}, t.incoming - {x}, t.edges)
  }

  // ---------------------------------------------------------------------------------------
  // What the retry loops of the algorithms add to the graph
  // ---------------------------------------------------------------------------------------

  /** `s` is `before` with `n` edges added: the same vertices, and every old edge kept as it was. */
  ghost predicate Grew(before: GraphState, s: GraphState, n: nat) {
    && s.vertices == before.vertices && before.edges.Keys <= s.edges.Keys
    && (forall p | p in before.edges :: s.edges[p] == before.edges[p])
    && |s.edges| == |before.edges| + n
  }

  /** Adding an edge between a pair not yet joined grows the graph by one edge. */
  lemma GrewStep(before: GraphState, s: GraphState, n: nat, s': GraphState, u: Label, v: Label, w: int)
    requires Grew(before, s, n) && (u, v) !in s.edges
    requires s'.vertices == s.vertices && s'.edges == s.edges[(u, v) := w]
    ensures Grew(before, s', n + 1)
  {
    forall p | p in before.edges
      ensures p in s'.edges && s'.edges[p] == before.edges[p]
    {
      assert p in s.edges && p != (u, v);
    }
    assert |s'.edges| == |s.edges| + 1;
  }

  /** `e` is an edge of `s` that `before` did not have, with its weight. */
  ghost predicate GeneratedIn(s: GraphState, before: map<(Label, Label), int>, e: Edge) {
    (e.source, e.target) in s.edges && (e.source, e.target) !in before && s.edges[(e.source, e.target)] == e.weight
  }

  /**
   * Each edge in `generated` was generated with a weight from 1 to 20 between two distinct
   * vertices that `before` did not join, and is an edge of `s`.
   */
  ghost predicate Logged(before: GraphState, s: GraphState, generated: seq<Generation>) {
    && (forall k | 0 <= k < |generated| :: generated[k].Generated? && 1 <= generated[k].edge.weight <= 20)
    && (forall k | 0 <= k < |generated| :: generated[k].edge.source != generated[k].edge.target)
    && (forall k | 0 <= k < |generated| :: GeneratedIn(s, before.edges, generated[k].edge))
  }

  /** Adding a newly generated edge to the graph and to the record keeps the record. */
  lemma LoggedStep(before: GraphState, s: GraphState, generated: seq<Generation>, s': GraphState, r: Generation)
    requires Logged(before, s, generated) && before.edges.Keys <= s.edges.Keys
    requires r.Generated? && 1 <= r.edge.weight <= 20 && r.edge.source != r.edge.target
    requires (r.edge.source, r.edge.target) !in s.edges
    requires s'.edges == s.edges[(r.edge.source, r.edge.target) := r.edge.weight]
    ensures Logged(before, s', generated + [r])
  {
    var gs := generated + [r];
    forall k | 0 <= k < |gs|
      ensures GeneratedIn(s', before.edges, gs[k].edge)
    {
      if k < |generated| {
        assert gs[k] == generated[k];
        assert GeneratedIn(s, before.edges, generated[k].edge);
      }
    }
  }

  // ---------------------------------------------------------------------------------------
  // The graph object
  // ---------------------------------------------------------------------------------------

  class AdjacencyMapDigraph {
    var vertices: seq<Label>
    var outgoing: map<Label, seq<Label>>
    var incoming: map<Label, seq<Label>>
    var edges: map<(Label, Label), int>

    function State(): GraphState
      reads this
    {
      GraphState(vertices, outgoing, incoming, edges)
    }

    ghost predicate Valid()
      reads this
    {
      ValidState(State())
    }

    constructor ()
      ensures Valid() && State() == GraphState([], map[], map[], map[])
    {
      vertices, outgoing, incoming, edges := [], map[], map[], map[];
    }

    /** The four fields take the values of `t` together. */
    method Commit(t: GraphState)
      requires ValidState(t)
      modifies this
      ensures Valid() && State() == t
    {
      vertices, outgoing, incoming, edges := t.vertices, t.outgoing, t.incoming, t.edges;
    }

    /** insertVertex: a duplicate label throws and changes nothing. */
    method InsertVertex(x: Label) returns (r: Result<Label, GraphError>)
      requires Valid()
      modifies this
      ensures Valid()
      ensures x in old(vertices) ==> r == Failure(DuplicateVertex) && State() == old(State())
      ensures x !in old(vertices) ==> r == Success(x) && State() == AddVertex(old(State()), x)
    {
      if x in outgoing {
        return Failure(DuplicateVertex);
      }
      AddVertexValid(State(), x);
      Commit(AddVertex(State(), x));
      r := Success(x);
    }

    /**
     * insertEdge, by vertex handle or by label: both ends must be vertices, and an existing
     * edge from u to v throws; otherwise the one new edge is in the edge set and in both
     * neighbour maps.
     */
    method InsertEdge(u: Label, v: Label, w: int) returns (r: Result<Edge, GraphError>)
      requires Valid()
      modifies this
      ensures Valid()
      ensures u !in old(vertices) || v !in old(vertices) ==>
                r == Failure(UnknownVertex) && State() == old(State())
      ensures u in old(vertices) && v in old(vertices) && (u, v) in old(edges) ==>
                r == Failure(DuplicateEdge) && State() == old(State())
      ensures u in old(vertices) && v in old(vertices) && (u, v) !in old(edges) ==>
                r == Success(Edge(u, v, w)) && State() == AddEdge(old(State()), u, v, w)
    {
      if u !in outgoing || v !in outgoing {
        return Failure(UnknownVertex);
      }
      if v in outgoing[u] {
        return Failure(DuplicateEdge);
      }
      AddEdgeValid(State(), u, v, w);
      Commit(AddEdge(State(), u, v, w));
      r := Success(Edge(u, v, w));
    }

    /**
     * removeEdge: a handle equal to no stored edge throws; otherwise the edge leaves the edge
     * set and both neighbour maps, and the handle's element is returned.
     */
    method RemoveEdge(e: Edge) returns (r: Result<int, GraphError>)
      requires Valid()
      modifies this
      ensures Valid()
      ensures (e.source, e.target) !in old(edges) ==> r == Failure(UnknownEdge) && State() == old(State())
      ensures (e.source, e.target) in old(edges) ==>
                r == Success(e.weight) && State() == DeleteEdge(old(State()), e.source, e.target)
    {
      if ValidateEdge(State(), e).Failure? {
        return Failure(UnknownEdge);
      }
      DeleteEdgeValid(State(), e.source, e.target);
      Commit(DeleteEdge(State(), e.source, e.target));
      r := Success(e.weight);
    }

    /**
     * removeVertex: every incoming and then every outgoing edge is removed, then the vertex.
     * A self-loop sits in both lists, so its second removal throws InvalidEdgeException and
     * the vertex stays, with every incoming edge and the outgoing ones listed before the
     * self-loop already gone.
     */
    method RemoveVertex(x: Label) returns (r: Result<Label, GraphError>)
      requires Valid()
      modifies this
      ensures Valid()
      ensures x !in old(vertices) ==> r == Failure(UnknownVertex) && State() == old(State())
      ensures x in old(vertices) && (x, x) in old(edges) ==>
                && r == Failure(UnknownEdge) && x in vertices
                && State() == Prune(old(State()), old(edges).Keys - EdgeKeys(Removed(old(State()), x), SelfLoopCopy(old(State()), x)))
      ensures x in old(vertices) && (x, x) !in old(edges) ==>
                r == Success(x) && State() == DeleteVertex(old(State()), x)
    {
      if ValidateVertex(State(), x).Failure? {
        return Failure(UnknownVertex);
      }
      ghost var s0 := State();
      var removed := Removed(State(), x);
      ghost var stop := SelfLoopCopy(s0, x);
      var i := 0;
      assert removed[..0] == [];
      while i < |removed|
        invariant 0 <= i <= stop
        invariant Valid() && State() == DeleteEdges(s0, removed[..i])
      {
        RemovalNext(s0, x, i);
        var res := RemoveEdge(removed[i]);
        if res.Failure? {
          assert i == stop;
          RemovalPrefix(s0, x, i);
          return Failure(res.error);
        }
        assert State() == DeleteEdges(s0, removed[..i + 1]);
        i := i + 1;
      }
      RemovalDone(s0, x, State());
      DeleteVertexValid(s0, x);
      Commit(DropVertex(State(), x));
      r := Success(x);
    }

    /**
     * generateRandomEdge: when numEdges is n(n - 1) nothing changes and the "maximum" message
     * is the result; otherwise one edge is inserted between two distinct vertices, in a
     * direction that was missing. The random draws are a nondeterministic choice of the pair.
     */
    method GenerateRandomEdge(weight: int) returns (r: Generation)
      requires Valid() && Loopless(State())
      modifies this
      ensures Valid() && Loopless(State())
      ensures NumEdges(old(State())) == MaxEdges(old(State())) ==>
                r == MaximumEdges && State() == old(State())
      ensures NumEdges(old(State())) != MaxEdges(old(State())) ==>
                && r.Generated? && r.edge.weight == weight
                && r.edge.source in old(vertices) && r.edge.target in old(vertices)
                && r.edge.source != r.edge.target
                && (r.edge.source, r.edge.target) !in old(edges)
                && State() == AddEdge(old(State()), r.edge.source, r.edge.target, weight)
    {
      EdgeCountBound(State());
      if |edges| == |vertices| * (|vertices| - 1) {
        return MaximumEdges;
      }
      var u, v :| u in vertices && v in vertices && u != v && ((u, v) !in edges || (v, u) !in edges);
      if GetEdge(State(), u, v).value.None? {
        AddEdgeValid(State(), u, v, weight);
        var e := InsertEdge(u, v, weight);
        r := Generated(e.value);
      } else {
        AddEdgeValid(State(), v, u, weight);
        var e := InsertEdge(v, u, weight);
        r := Generated(e.value);
      }
    }
  }
}
