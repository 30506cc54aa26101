/**
 * CycleDetection: a depth-first search that reports a cycle for each edge into a vertex on
 * the recursion stack, keeps one cycle per vertex set, and the loop that adds random edges
 * until some cycle exists.
 *
 * The static fields isCyclic and cycleCount, and the collections start creates and passes to
 * checkCycle, are the fields of one object here.
 */
module CycleDetection {
  import opened Digraph
  import opened RandomEdges
  import opened Paths
  import opened DfsOrder

  // ---------------------------------------------------------------------------------------
  // The search
  // ---------------------------------------------------------------------------------------

  class CycleDetection {
    var visited: set<Label>           // visitedVertices
    var onStack: set<Label>           // onStackVertices
    var parents: map<Label, Label>    // parentsOfVertices
    var roots: seq<Label>             // the vertex list start empties, one DFS root at a time
    var foundCycles: seq<set<Label>>
    var cycles: seq<seq<Label>>       // each counted cycle, its vertices in printed order
    var isCyclic: bool
    var cycleCount: int
    ghost var finish: map<Label, nat> // the order in which the current DFS left its vertices
    ghost var clock: nat

    /** The cycles found so far, as RecordedIn describes them. */
    ghost predicate Recorded(s: GraphState)
      reads this`cycles, this`foundCycles, this`cycleCount, this`isCyclic
    {
      RecordedIn(s, cycles, foundCycles, cycleCount, isCyclic)
    }

    /** `path` is the recursion stack of the current DFS. */
    ghost predicate Stacked(s: GraphState, path: seq<Label>)
      reads this`onStack, this`visited, this`parents
    {
      StackedIn(s, path, onStack, visited, parents)
    }

    /** The finishing order of the vertices the current DFS has left. */
    ghost predicate Finishing(s: GraphState)
      reads this`finish, this`clock, this`visited, this`onStack, this`isCyclic
    {
      FinishingIn(s, finish, clock, visited, onStack, isCyclic)
    }

    /** What holds throughout a DFS whose recursion stack is `path`. */
    ghost predicate Searching(s: GraphState, path: seq<Label>)
      reads this
    {
      Stacked(s, path) && Finishing(s) && Recorded(s) && Distinct(roots) && Elements(roots) !! visited
    }

    /** The part of the search state that only grows during a DFS. */
    ghost function Snap(): Snapshot
      reads this`visited, this`finish, this`parents, this`isCyclic, this`roots
    {
      Snapshot(visited, finish, parents, isCyclic, roots)
    }

    /** Whether `newCycle` is the vertex set of a cycle found before. */
    method Repeated(newCycle: set<Label>) returns (isRepeated: bool)
      ensures isRepeated <==> newCycle in foundCycles
    {
      isRepeated := false;
      for i := 0 to |foundCycles|
        invariant !isRepeated && newCycle !in foundCycles[..i]
      {
        assert foundCycles[..i + 1] == foundCycles[..i] + [foundCycles[i]];
        if newCycle == foundCycles[i] {
          isRepeated := true;
          break;
        }
      }
      assert foundCycles[..|foundCycles|] == foundCycles;
    }

    /**
     * The walk from `v` back along the parents to the on-stack vertex `y`, pushed on a stack
     * whose top is the front: the stretch of the recursion stack from `y` to `v`.
     */
    method CycleOnStack(s: GraphState, v: Label, y: Label, ghost path: seq<Label>) returns (cycle: seq<Label>)
      requires Stacked(s, path) && path != [] && path[|path| - 1] == v && y in path
      ensures 1 <= |cycle| <= |path| && cycle == path[|path| - |cycle|..] && cycle[0] == y
    {
      var x := v;
      cycle := [];
      ghost var k := |path| - 1;
      while x != y
        invariant 0 <= k < |path| && x == path[k] && cycle == path[k + 1..]
        invariant y in path[..k + 1]
        decreases k
      {
        assert path[..k + 1] == path[..k] + [path[k]];
        assert y in path[..k];
        assert parents[path[k]] == path[k - 1];
        ConsSlice(path, k);
        cycle := [x] + cycle;
        x := parents[x];
        k := k - 1;
      }
      ConsSlice(path, k);
      cycle := [y] + cycle;
    }

    /** The stretch of the recursion stack from an on-stack `y` to `v`, with the edge v->y, is a cycle. */
    lemma StackCycle(s: GraphState, path: seq<Label>, cycle: seq<Label>, v: Label)
      requires Stacked(s, path) && path != [] && path[|path| - 1] == v
      requires 1 <= |cycle| <= |path| && cycle == path[|path| - |cycle|..] && (v, cycle[0]) in s.edges
      ensures SimpleCycle(s, cycle)
    {
      var m := |path| - |cycle|;
      forall i | 0 <= i < |cycle| - 1
        ensures (cycle[i], cycle[i + 1]) in s.edges
      {
        assert cycle[i] == path[m + i] && cycle[i + 1] == path[m + i + 1];
      }
      forall i, j | 0 <= i < j < |cycle|
        ensures cycle[i] != cycle[j]
      {
        assert cycle[i] == path[m + i] && cycle[j] == path[m + j];
      }
    }

    /**
     * The branch of checkCycle for an edge v->y into an on-stack vertex: a cycle exists, and
     * its vertex set is counted and the cycle printed unless a cycle on the same set was.
     * The cycle found is returned: the stretch of the recursion stack from `y` to `v`.
     */
    method RecordCycle(s: GraphState, v: Label, y: Label, ghost path: seq<Label>) returns (cycle: seq<Label>)
      requires Stacked(s, path) && Recorded(s) && path != [] && path[|path| - 1] == v
      requires y in onStack && (v, y) in s.edges
      modifies this`isCyclic, this`cycleCount, this`foundCycles, this`cycles
      ensures Recorded(s) && isCyclic
      ensures SimpleCycle(s, cycle) && cycle[0] == y && cycle[|cycle| - 1] == v
      ensures Elements(cycle) in old(foundCycles) ==>
                foundCycles == old(foundCycles) && cycles == old(cycles) && cycleCount == old(cycleCount)
      ensures Elements(cycle) !in old(foundCycles) ==>
                && foundCycles == old(foundCycles) + [Elements(cycle)]
                && cycles == old(cycles) + [cycle]
                && cycleCount == old(cycleCount) + 1
    {
      isCyclic := true;
      cycle := CycleOnStack(s, v, y, path);
      StackCycle(s, path, cycle, v);
      var newCycle := Elements(cycle);
      var isRepeated := Repeated(newCycle);
      if !isRepeated {
        RecordNew(s, cycles, foundCycles, cycleCount, old(isCyclic), cycle);
        cycleCount := cycleCount + 1;
        foundCycles := foundCycles + [newCycle];
        cycles := cycles + [cycle];
      }
    }

    /**
     * checkCycle: enter `v`, follow each of its outgoing edges in order, then leave `v`,
     * finishing it after everything it reached.
     */
    method CheckCycle(s: GraphState, v: Label, ghost path: seq<Label>)
      requires ValidState(s) && v in s.vertices && v !in visited && Searching(s, path)
      requires path != [] ==> v in parents && parents[v] == path[|path| - 1] && (path[|path| - 1], v) in s.edges
      modifies this
      ensures Searching(s, path) && onStack == old(onStack) && v in finish
      ensures Growth(old(Snap()), Snap())
      ensures v in old(parents) ==> v in parents && parents[v] == old(parents)[v]
      decreases (set x | x in s.vertices) - visited, 2
    {
      ghost var entry := Snap();
      ghost var unvisited := (set x | x in s.vertices) - visited;
      ghost var stacked := onStack;
      Push(s, v, path);
      ghost var entered := Snap();
      assert ((set x | x in s.vertices) - visited) + {v} == unvisited;
      var es := OutgoingEdges(s, v).value;
      Explore(s, v, path + [v], es);
      ghost var explored := Snap();
      GrowthTrans(entry, entered, explored);
      Pop(s, v, path);
      GrowthTrans(entry, explored, Snap());
      assert onStack == stacked;
    }

    /** Entering `v` in checkCycle: it leaves the roots still to try, is visited and on the stack. */
    method Push(s: GraphState, v: Label, ghost path: seq<Label>)
      requires v in s.vertices && v !in visited && Searching(s, path)
      requires path != [] ==> v in parents && parents[v] == path[|path| - 1] && (path[|path| - 1], v) in s.edges
      modifies this`roots, this`visited, this`onStack
      ensures Searching(s, path + [v]) && Growth(old(Snap()), Snap())
      ensures visited == old(visited) + {v} && onStack == old(onStack) + {v}
    {
      Enter(s, path, onStack, visited, parents, finish, clock, isCyclic, v);
      roots := Without(roots, v);
      visited := visited + {v};
      onStack := onStack + {v};
    }

    /** Leaving `v` at the end of checkCycle: it is taken off the stack and finished. */
    method Pop(s: GraphState, v: Label, ghost path: seq<Label>)
      requires Searching(s, path + [v])
      requires forall y | (v, y) in s.edges :: y in visited && (!isCyclic ==> y in finish)
      modifies this`onStack, this`finish, this`clock
      ensures Searching(s, path) && onStack == old(onStack) - {v} && v in finish
      ensures Growth(old(Snap()), Snap())
    {
      Leave(s, path, onStack, visited, parents, finish, clock, isCyclic, v);
      onStack := onStack - {v};
      finish := finish[v := clock];
      clock := clock + 1;
    }

    /** The loop of checkCycle over the outgoing edges of `v`, the top of the recursion stack. */
    method Explore(s: GraphState, v: Label, ghost path: seq<Label>, es: seq<Edge>)
      requires ValidState(s) && v in s.vertices && Searching(s, path) && path != [] && path[|path| - 1] == v
      requires es == OutgoingEdges(s, v).value
      modifies this
      ensures Searching(s, path) && onStack == old(onStack) && Growth(old(Snap()), Snap())
      ensures forall y | (v, y) in s.edges :: y in visited && (!isCyclic ==> y in finish)
      decreases ((set x | x in s.vertices) - visited) + {v}, 1
    {
      ghost var entry := Snap();
      for j := 0 to |es|
        invariant Searching(s, path) && onStack == old(onStack) && Growth(entry, Snap())
        invariant forall k | 0 <= k < j :: es[k].target in visited && (!isCyclic ==> es[k].target in finish)
      {
        ghost var before := Snap();
        assert es[j] in es;
        // opposite(startVertex, edge): the child of v along this edge
        Follow(s, v, es[j].target, path);
        GrowthTrans(entry, before, Snap());
      }
      forall y | (v, y) in s.edges
        ensures y in visited && (!isCyclic ==> y in finish)
      {
        var k :| 0 <= k < |es| && es[k] == StoredEdge(s, v, y);
      }
    }

    /**
     * One edge v->y of checkCycle: recurse into an unvisited `y` with `v` as its parent, or
     * record a cycle if `y` is on the stack; a vertex the DFS has left is passed over.
     */
    method Follow(s: GraphState, v: Label, y: Label, ghost path: seq<Label>)
      requires ValidState(s) && Searching(s, path) && path != [] && path[|path| - 1] == v && (v, y) in s.edges
      modifies this
      ensures Searching(s, path) && onStack == old(onStack) && Growth(old(Snap()), Snap())
      ensures y in visited && (!isCyclic ==> y in finish)
      decreases ((set x | x in s.vertices) - visited) + {v}, 0
    {
      assert v in visited;
      if y !in visited {
        assert y in s.incoming;
        Adopt(s, path, onStack, visited, parents, v, y);
        parents := parents[y := v];
        CheckCycle(s, y, path);
      } else if y in onStack {
        var cycle := RecordCycle(s, v, y, path);
      }
    }

    /**
     * One DFS of a sweep from the root `v`, followed by clearing the visited set and the
     * parents. Without a cycle found, no closed walk starts at a vertex it reached.
     */
    method SearchFrom(s: GraphState, v: Label) returns (ghost reached: set<Label>)
      requires ValidState(s) && v in s.vertices && Recorded(s)
      requires visited == {} && onStack == {} && parents == map[] && Distinct(roots)
      modifies this
      ensures Recorded(s) && (old(isCyclic) ==> isCyclic)
      ensures visited == {} && onStack == {} && parents == map[] && Distinct(roots)
      ensures v in reached && Elements(roots) == Elements(old(roots)) - reached && |roots| <= |old(roots)|
      ensures !isCyclic ==> forall c | Closed(s, c) :: c[0] !in reached
    {
      finish, clock := map[], 0;
      CheckCycle(s, v, []);
      if !isCyclic {
        OrderedAcyclic(s, finish);
      }
      reached := visited;
      visited := {};
      parents := map[];
    }

    /**
     * One sweep of start: every vertex in turn is a DFS root unless an earlier DFS of the
     * sweep entered it, with the visited set and the parents cleared after each DFS. A sweep
     * that finds no cycle has shown the graph acyclic.
     */
    method Sweep(s: GraphState)
      requires ValidState(s) && Recorded(s)
      requires Idle()
      modifies this
      ensures Recorded(s) && (old(isCyclic) ==> isCyclic) && Idle()
      ensures !isCyclic ==> !HasCycle(s)
    {
      roots := roots + s.vertices;
      ghost var covered: set<Label> := {};
      while roots != []
        invariant Recorded(s) && (old(isCyclic) ==> isCyclic) && Distinct(roots)
        invariant forall x | x in roots :: x in s.vertices
        invariant visited == {} && onStack == {} && parents == map[]
        invariant forall x | x in s.vertices :: x in roots || x in covered
        invariant !isCyclic ==> forall c | Closed(s, c) :: c[0] !in covered
        decreases |roots|
      {
        var v := roots[0];
        roots := roots[1..];
        ghost var reached := SearchFrom(s, v);
        covered := covered + reached;
      }
      if !isCyclic {
        forall c | Closed(s, c)
          ensures c[0] in s.vertices
        {
          assert (c[0], c[1]) in s.edges;
          assert c[0] in s.outgoing;
        }
      }
    }

    /** No DFS under way: no roots left, nothing visited, stacked or parented. */
    predicate Idle()
      reads this`roots, this`visited, this`onStack, this`parents
    {
      roots == [] && visited == {} && onStack == {} && parents == map[]
    }

    /** The state start begins with: no DFS under way and no cycle found. */
    method Reset()
      modifies this`roots, this`visited, this`onStack, this`parents
      modifies this`foundCycles, this`cycles, this`isCyclic, this`cycleCount
      ensures Idle() && foundCycles == [] && cycles == [] && !isCyclic && cycleCount == 0
    {
      roots, visited, onStack, parents := [], {}, {}, map[];
      foundCycles, cycles := [], [];
      isCyclic, cycleCount := false, 0;
    }

    /**
     * start: sweep the graph for cycles, adding an edge of random weight 1 to 20 after each
     * sweep that finds none. With two vertices or more the loop ends, since an acyclic graph
     * has room for another edge and a complete one has a cycle.
     */
    method Start(g: AdjacencyMapDigraph) returns (generated: seq<Generation>)
      requires g.Valid() && Loopless(g.State()) && |g.vertices| >= 2
      modifies this, g
      ensures g.Valid() && Loopless(g.State())
      ensures Grew(old(g.State()), g.State(), |generated|) && Logged(old(g.State()), g.State(), generated)
      ensures Recorded(g.State()) && isCyclic && cycleCount >= 1
      ensures HasCycle(old(g.State())) ==> generated == [] && g.State() == old(g.State())
    {
      ghost var initial := g.State();
      Reset();
      generated := [];
      assert Grown(initial, g.State(), generated);
      while !isCyclic
        invariant Grown(initial, g.State(), generated) && |g.vertices| >= 2
        invariant Recorded(g.State()) && Idle()
        invariant generated != [] ==> !HasCycle(initial)
        decreases if isCyclic then 0 else 1, MaxEdges(g.State()) - NumEdges(g.State())
      {
        var s0 := g.State();
        Sweep(s0);
        if !isCyclic {
          AcyclicUnfilled(s0);
          generated := AddRandomEdge(g, initial, s0, generated);
        }
      }
    }
  }
}
