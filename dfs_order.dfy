/**
 * The facts about a depth-first search that checkCycle relies on: cycles and closed walks,
 * the finishing order of the vertices a search has left, and one step of the search state
 * (entering, adopting, leaving a vertex) as a function of its parts.
 */
module DfsOrder {
  import opened Digraph
  import opened Paths

  // ---------------------------------------------------------------------------------------
  // Cycles
  // ---------------------------------------------------------------------------------------

  /** A closed walk: a path along at least one edge that ends where it starts. */
  ghost predicate Closed(s: GraphState, c: seq<Label>) {
    IsPath(s, c) && |c| >= 2 && c[0] == c[|c| - 1]
  }

  /** The graph has a cycle. */
  ghost predicate HasCycle(s: GraphState) {
    exists c :: Closed(s, c)
  }

  /**
   * A cycle as checkCycle prints it: distinct vertices, each joined to the next by an edge,
   * and the last joined back to the first.
   */
  ghost predicate SimpleCycle(s: GraphState, c: seq<Label>) {
    IsPath(s, c) && (c[|c| - 1], c[0]) in s.edges && Distinct(c)
  }

  /** The vertex set of a cycle: new HashSet<>(cycleStack). */
  function Elements(c: seq<Label>): (r: set<Label>)
    ensures forall x :: x in r <==> x in c
  {
    set x | x in c
  }

  /**
   * The cycles checkCycle has counted: each is a cycle of `s` with its vertex set kept in
   * `foundCycles`, no two with the same vertex set, `cycleCount` counts them, and `isCyclic`
   * says whether there is any.
   */
  ghost predicate RecordedIn(s: GraphState, cycles: seq<seq<Label>>, foundCycles: seq<set<Label>>,
                             cycleCount: int, isCyclic: bool) {
    && |cycles| == |foundCycles| && cycleCount == |foundCycles|
    && (forall i | 0 <= i < |cycles| :: SimpleCycle(s, cycles[i]) && foundCycles[i] == Elements(cycles[i]))
    && (forall i, j | 0 <= i < j < |foundCycles| :: foundCycles[i] != foundCycles[j])
    && (isCyclic <==> |foundCycles| > 0)
  }

  /** Counting a cycle whose vertex set is new keeps the record of found cycles. */
  lemma RecordNew(s: GraphState, cycles: seq<seq<Label>>, foundCycles: seq<set<Label>>, cycleCount: int,
                  isCyclic: bool, c: seq<Label>)
    requires RecordedIn(s, cycles, foundCycles, cycleCount, isCyclic)
    requires SimpleCycle(s, c) && Elements(c) !in foundCycles
    ensures RecordedIn(s, cycles + [c], foundCycles + [Elements(c)], cycleCount + 1, true)
  {
    var cs, fs := cycles + [c], foundCycles + [Elements(c)];
    forall i | 0 <= i < |cs|
      ensures SimpleCycle(s, cs[i]) && fs[i] == Elements(cs[i])
    {
      if i < |cycles| {
        assert cs[i] == cycles[i] && fs[i] == foundCycles[i];
      }
    }
    forall i, j | 0 <= i < j < |fs|
      ensures fs[i] != fs[j]
    {
      if j < |foundCycles| {
        assert fs[i] == foundCycles[i] && fs[j] == foundCycles[j];
      } else {
        assert fs[i] == foundCycles[i] && fs[j] == Elements(c);
      }
    }
  }

  /** A printed cycle, closed by its first vertex, is a cycle of the graph. */
  lemma SimpleCycleCloses(s: GraphState, c: seq<Label>)
    requires SimpleCycle(s, c)
    ensures Closed(s, c + [c[0]])
  {
    Extend(s, c, c[0]);
  }

  /** A complete graph with two vertices or more has a cycle: there and back along two edges. */
  lemma CompleteCyclic(s: GraphState)
    requires ValidState(s) && |s.vertices| >= 2 && Complete(s)
    ensures HasCycle(s)
  {
    var u, v := s.vertices[0], s.vertices[1];
    assert u != v;
    assert IsPath(s, [u, v, u]);
    assert Closed(s, [u, v, u]);
  }

  /** An acyclic loopless graph on two vertices or more still has room for an edge. */
  lemma AcyclicUnfilled(s: GraphState)
    requires ValidState(s) && Loopless(s) && |s.vertices| >= 2 && !HasCycle(s)
    ensures NumEdges(s) < MaxEdges(s)
  {
    EdgeCountBound(s);
    if NumEdges(s) == MaxEdges(s) {
      CompleteCyclic(s);
    }
  }

  // ---------------------------------------------------------------------------------------
  // Finishing order
  // ---------------------------------------------------------------------------------------

  /** Every edge out of a vertex the search has left leads to one it left earlier. */
  ghost predicate Ordered(s: GraphState, finish: map<Label, nat>) {
    forall x, y | x in finish && (x, y) in s.edges :: y in finish && finish[y] < finish[x]
  }

  /** Along a path from a finished vertex, each later vertex finished earlier. */
  lemma {:induction false} OrderedPath(s: GraphState, finish: map<Label, nat>, c: seq<Label>)
    requires Ordered(s, finish) && IsPath(s, c) && c[0] in finish
    ensures c[|c| - 1] in finish && (|c| >= 2 ==> finish[c[|c| - 1]] < finish[c[0]])
    decreases |c|
  {
    if |c| >= 2 {
      Shorten(s, c);
      var q := c[..|c| - 1];
      OrderedPath(s, finish, q);
      assert q[|q| - 1] == c[|c| - 2] && q[0] == c[0];
    }
  }

  /** No closed walk starts at a vertex with a finishing order. */
  lemma OrderedAcyclic(s: GraphState, finish: map<Label, nat>)
    requires Ordered(s, finish)
    ensures forall c | Closed(s, c) :: c[0] !in finish
  {
    forall c | Closed(s, c)
      ensures c[0] !in finish
    {
      if c[0] in finish {
        OrderedPath(s, finish, c);
      }
    }
  }

  /** Finishing a vertex whose edges all lead to finished vertices keeps the order. */
  lemma OrderedFinish(s: GraphState, finish: map<Label, nat>, clock: nat, v: Label)
    requires Ordered(s, finish) && v !in finish
    requires forall x | x in finish :: finish[x] < clock
    requires forall y | (v, y) in s.edges :: y in finish
    ensures Ordered(s, finish[v := clock])
  {
  }

  // ---------------------------------------------------------------------------------------
  // The DFS state, one step at a time
  // ---------------------------------------------------------------------------------------

  /**
   * `path` is the recursion stack of a DFS: its vertices are the on-stack ones, in order,
   * each reached from the one before by an edge and recorded as its parent.
   */
  ghost predicate StackedIn(s: GraphState, path: seq<Label>, onStack: set<Label>, visited: set<Label>,
                            parents: map<Label, Label>) {
    && onStack == Elements(path) && Distinct(path) && onStack <= visited
    && (forall x | x in visited :: x in s.vertices)
    && (forall i | 0 < i < |path| :: path[i] in parents && parents[path[i]] == path[i - 1] && (path[i - 1], path[i]) in s.edges)
  }

  /**
   * The vertices a DFS has left are the visited ones off the stack; unless a cycle has been
   * found, their finishing order is a topological order.
   */
  ghost predicate FinishingIn(s: GraphState, finish: map<Label, nat>, clock: nat, visited: set<Label>,
                              onStack: set<Label>, isCyclic: bool) {
    && finish.Keys == visited - onStack
    && (forall x | x in finish :: finish[x] < clock)
    && (!isCyclic ==> Ordered(s, finish))
  }

  /** Entering `v` from the top of the stack pushes it and marks it visited. */
  lemma Enter(s: GraphState, path: seq<Label>, onStack: set<Label>, visited: set<Label>, parents: map<Label, Label>,
              finish: map<Label, nat>, clock: nat, isCyclic: bool, v: Label)
    requires StackedIn(s, path, onStack, visited, parents) && FinishingIn(s, finish, clock, visited, onStack, isCyclic)
    requires v in s.vertices && v !in visited
    requires path != [] ==> v in parents && parents[v] == path[|path| - 1] && (path[|path| - 1], v) in s.edges
    ensures StackedIn(s, path + [v], onStack + {v}, visited + {v}, parents)
    ensures FinishingIn(s, finish, clock, visited + {v}, onStack + {v}, isCyclic)
  {
    var here := path + [v];
    assert forall i | 0 <= i < |path| :: here[i] == path[i];
  }

  /** Recording `v` as the parent of an unvisited `y` leaves the stack as it was. */
  lemma Adopt(s: GraphState, path: seq<Label>, onStack: set<Label>, visited: set<Label>, parents: map<Label, Label>,
              v: Label, y: Label)
    requires StackedIn(s, path, onStack, visited, parents) && y !in visited
    ensures StackedIn(s, path, onStack, visited, parents[y := v])
  {
  }

  /**
   * Leaving `v`, the top of the stack, once every edge out of it leads to a visited vertex
   * (finished unless a cycle was found): pop it and give it the next finishing number.
   */
  lemma Leave(s: GraphState, path: seq<Label>, onStack: set<Label>, visited: set<Label>, parents: map<Label, Label>,
              finish: map<Label, nat>, clock: nat, isCyclic: bool, v: Label)
    requires StackedIn(s, path + [v], onStack, visited, parents) && FinishingIn(s, finish, clock, visited, onStack, isCyclic)
    requires forall y | (v, y) in s.edges :: y in visited && (!isCyclic ==> y in finish)
    ensures v !in finish
    ensures StackedIn(s, path, onStack - {v}, visited, parents)
    ensures FinishingIn(s, finish[v := clock], clock + 1, visited, onStack - {v}, isCyclic)
  {
    var here := path + [v];
    forall k | 0 <= k < |path|
      ensures path[k] != v
    {
      assert here[k] == path[k] && here[|path|] == v;
    }
    assert forall i | 0 <= i < |path| :: here[i] == path[i];
    if !isCyclic {
      OrderedFinish(s, finish, clock, v);
    }
  }

  /** The visited set, finishing order, parents, verdict and remaining roots at one moment. */
  datatype Snapshot = Snapshot(visited: set<Label>, finish: map<Label, nat>, parents: map<Label, Label>,
                               isCyclic: bool, roots: seq<Label>)

  /**
   * From `a` to `b` the search only went forward: more vertices visited, finished ones kept
   * with their order, the parents of visited vertices kept, a found cycle stays found, and
   * the roots still to try are the earlier ones not yet visited.
   */
  ghost predicate Growth(a: Snapshot, b: Snapshot) {
    && a.visited <= b.visited
    && (forall x | x in a.finish :: x in b.finish && b.finish[x] == a.finish[x])
    && (forall x | x in a.visited && x in a.parents :: x in b.parents && b.parents[x] == a.parents[x])
    && (a.isCyclic ==> b.isCyclic)
    && Elements(b.roots) == Elements(a.roots) - b.visited && |b.roots| <= |a.roots|
  }

  /** Going forward twice is going forward. */
  lemma GrowthTrans(a: Snapshot, b: Snapshot, c: Snapshot)
    requires Growth(a, b) && Growth(b, c)
    ensures Growth(a, c)
  {
  }

  /** A suffix of a sequence is its first element followed by the rest. */
  lemma ConsSlice(p: seq<Label>, k: nat)
    requires k < |p|
    ensures [p[k]] + p[k + 1..] == p[k..]
  {
    assert forall i | 0 <= i < |p| - k :: ([p[k]] + p[k + 1..])[i] == p[k..][i];
  }
}
