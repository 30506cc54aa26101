/**
 * The growth loop shared by the start methods of CycleDetection and StrongConnectivity: while
 * the search fails, sb.append(digraph.generateRandomEdge(new Random().nextInt(20) + 1)) adds
 * one new edge and logs it.
 */
module RandomEdges {
  import opened Digraph

  /**
   * The graph a start loop has reached from `initial` by adding the edges in `generated`: it is a
   * valid, loopless graph on the same vertices whose old edges kept their weights, and it
   * is still the initial graph when nothing was generated.
   */
  ghost predicate Grown(initial: GraphState, s: GraphState, generated: seq<Generation>) {
    && ValidState(s) && Loopless(s)
    && Grew(initial, s, |generated|) && Logged(initial, s, generated)
    && (generated == [] ==> s == initial)
  }

  /**
   * digraph.generateRandomEdge(new Random().nextInt(20) + 1) in a graph with room for another
   * edge, its result appended to the log: the weight is a nondeterministic choice from 1 to 20.
   */
  method AddRandomEdge(g: AdjacencyMapDigraph, ghost initial: GraphState, ghost s0: GraphState, generated: seq<Generation>)
    returns (generated': seq<Generation>)
    requires g.State() == s0 && Grown(initial, s0, generated) && NumEdges(s0) < MaxEdges(s0)
    modifies g
    ensures Grown(initial, g.State(), generated')
    ensures MaxEdges(g.State()) - NumEdges(g.State()) < MaxEdges(s0) - NumEdges(s0)
    ensures |generated'| == |generated| + 1 && generated'[..|generated|] == generated
  {
    var w :| 1 <= w <= 20;
    var r := g.GenerateRandomEdge(w);
    GrewStep(initial, s0, |generated|, g.State(), r.edge.source, r.edge.target, w);
    LoggedStep(initial, s0, generated, g.State(), r);
    generated' := generated + [r];
  }
}
