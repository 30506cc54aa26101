/**
 * Paths in a digraph state: the vocabulary the graph algorithms are specified in.
 *
 * A path is a non-empty list of vertices whose consecutive pairs are edges; its weight is the
 * sum of the weights of those edges.
 */
module Paths {
  import opened Digraph

  /** Consecutive vertices of `p` are joined by an edge. */
  ghost predicate IsPath(s: GraphState, p: seq<Label>) {
    |p| >= 1 && forall i | 0 <= i < |p| - 1 :: (p[i], p[i + 1]) in s.edges
  }

  /** `p` is a path from `a` to `b`. */
  ghost predicate PathFromTo(s: GraphState, p: seq<Label>, a: Label, b: Label) {
    IsPath(s, p) && p[0] == a && p[|p| - 1] == b
  }

  /** The sum of the weights of the edges along `p`. */
  ghost function PathWeight(s: GraphState, p: seq<Label>): int
    requires IsPath(s, p)
    decreases |p|
  {
    if |p| == 1 then 0
    else
      var q := p[..|p| - 1];
      assert IsPath(s, q) by {
        assert forall i | 0 <= i < |q| :: q[i] == p[i];
      }
      PathWeight(s, q) + s.edges[(p[|p| - 2], p[|p| - 1])]
  }

  /** No edge has a negative weight. */
  ghost predicate NonNegative(s: GraphState) {
    forall p | p in s.edges :: s.edges[p] >= 0
  }

  /** Every edge has a positive weight. */
  ghost predicate Positive(s: GraphState) {
    forall p | p in s.edges :: s.edges[p] > 0
  }

  /** Extending a path by an edge adds that edge's weight. */
  lemma Extend(s: GraphState, p: seq<Label>, v: Label)
    requires IsPath(s, p) && (p[|p| - 1], v) in s.edges
    ensures IsPath(s, p + [v])
    ensures PathWeight(s, p + [v]) == PathWeight(s, p) + s.edges[(p[|p| - 1], v)]
  {
    var q := p + [v];
    forall i | 0 <= i < |q| - 1
      ensures (q[i], q[i + 1]) in s.edges
    {
      if i < |p| - 1 {
        assert q[i] == p[i] && q[i + 1] == p[i + 1];
      }
    }
    assert q[..|q| - 1] == p && q[|q| - 2] == p[|p| - 1] && q[|q| - 1] == v;
    Shorten(s, q);
  }

  /** The path `[a, b]` along one edge weighs that edge's weight. */
  lemma SingleEdge(s: GraphState, a: Label, b: Label)
    requires (a, b) in s.edges
    ensures PathFromTo(s, [a, b], a, b) && PathWeight(s, [a, b]) == s.edges[(a, b)]
  {
    assert IsPath(s, [a]);
    Extend(s, [a], b);
    assert [a] + [b] == [a, b];
  }

  /** Dropping the last vertex of a longer path leaves a path. */
  lemma Shorten(s: GraphState, p: seq<Label>)
    requires IsPath(s, p) && |p| >= 2
    ensures IsPath(s, p[..|p| - 1])
    ensures PathWeight(s, p) == PathWeight(s, p[..|p| - 1]) + s.edges[(p[|p| - 2], p[|p| - 1])]
  {
    var q := p[..|p| - 1];
    assert forall i | 0 <= i < |q| :: q[i] == p[i];
  }

  /** With no negative weight, a path weighs at least nothing. */
  lemma {:induction false} WeightNonNegative(s: GraphState, p: seq<Label>)
    requires NonNegative(s) && IsPath(s, p)
    ensures PathWeight(s, p) >= 0
  {
    if |p| >= 2 {
      Shorten(s, p);
      WeightNonNegative(s, p[..|p| - 1]);
    }
  }

  /** Every vertex on a path that starts at a vertex is a vertex. */
  lemma {:induction false} OnVertices(s: GraphState, p: seq<Label>)
    requires ValidState(s) && IsPath(s, p) && p[0] in s.vertices
    ensures forall i | 0 <= i < |p| :: p[i] in s.vertices
  {
    forall i | 0 < i < |p|
      ensures p[i] in s.vertices
    {
      assert (p[i - 1], p[i]) in s.edges;
      assert p[i] in s.incoming;
    }
  }

  /**
   * The frontier argument of Dijkstra's algorithm. The vertices are split into a settled part
   * `settled` and a waiting part `waiting`; every path from `src` to a settled vertex weighs at
   * least its `d`, every edge from a settled to a waiting vertex has been relaxed, `src` waits
   * only with distance 0, and `u` has a least `d` among the waiting vertices. Then every path
   * from `src` to a waiting vertex weighs at least `d[u]`.
   */
  lemma {:induction false} FrontierBound(s: GraphState, src: Label, d: map<Label, int>,
                                         settled: set<Label>, waiting: set<Label>, u: Label, p: seq<Label>)
    requires ValidState(s) && NonNegative(s) && src in s.vertices
    requires forall v | v in s.vertices :: v in settled || v in waiting
    requires settled <= d.Keys && waiting <= d.Keys && u in waiting
    requires forall q {:trigger PathWeight(s, q)} | IsPath(s, q) && q[0] == src && q[|q| - 1] in settled :: PathWeight(s, q) >= d[q[|q| - 1]]
    requires forall x, y {:trigger s.edges[(x, y)]} | x in settled && y in waiting && (x, y) in s.edges :: d[y] <= d[x] + s.edges[(x, y)]
    requires src in waiting ==> d[src] == 0
    requires forall y | y in waiting :: d[u] <= d[y]
    requires IsPath(s, p) && p[0] == src && p[|p| - 1] in waiting
    ensures PathWeight(s, p) >= d[u]
  {
    OnVertices(s, p);
    if |p| == 1 {
      assert p[0] == src;
    } else {
      Shorten(s, p);
      var q := p[..|p| - 1];
      var x, y := p[|p| - 2], p[|p| - 1];
      assert q[0] == src && q[|q| - 1] == x;
      assert x in s.vertices;
      if x in settled {
        assert PathWeight(s, q) >= d[x];
      } else {
        FrontierBound(s, src, d, settled, waiting, u, q);
      }
    }
  }
}
