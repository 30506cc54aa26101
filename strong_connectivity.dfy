/**
 * StrongConnectivity: Tarjan's depth-first search, which numbers the vertices in visiting
 * order, keeps a low-link per vertex and counts one strongly connected component each time a
 * vertex's low-link equals its own number; and the loop that adds random edges until that
 * count is one.
 *
 * The static fields of the Java class are the fields of one object here. Vertices are
 * indexed by their position in the vertex list, the numbering setRef builds.
 */
module StrongConnectivity {
  import opened Digraph
  import opened RandomEdges
  import opened Paths

  /** The id of a vertex the current run has not visited. */
  const UNVISITED: int := -1

  // ---------------------------------------------------------------------------------------
  // Reachability
  // ---------------------------------------------------------------------------------------

  /** There is a path from `a` to `b`. */
  ghost predicate Reaches(s: GraphState, a: Label, b: Label) {
    exists p :: PathFromTo(s, p, a, b)
  }

  /** Every vertex reaches every vertex. */
  ghost predicate StronglyConnected(s: GraphState) {
    forall a, b | a in s.vertices && b in s.vertices :: Reaches(s, a, b)
  }

  /** Every edge has both ends among the vertices. */
  ghost predicate EdgesOn(s: GraphState) {
    forall a, b | (a, b) in s.edges :: a in s.vertices && b in s.vertices
  }

  lemma ValidEdgesOn(s: GraphState)
    requires ValidState(s)
    ensures EdgesOn(s)
  {
  }

  lemma ReachesSelf(s: GraphState, a: Label)
    ensures Reaches(s, a, a)
  {
    assert PathFromTo(s, [a], a, a);
  }

  lemma ReachesTrans(s: GraphState, a: Label, b: Label, c: Label)
    requires Reaches(s, a, b) && Reaches(s, b, c)
    ensures Reaches(s, a, c)
  {
    var p :| PathFromTo(s, p, a, b);
    var q :| PathFromTo(s, q, b, c);
    var r := p + q[1..];
    forall i | 0 <= i < |r| - 1
      ensures (r[i], r[i + 1]) in s.edges
    {
      if i < |p| - 1 {
        assert r[i] == p[i] && r[i + 1] == p[i + 1];
      } else {
        var k := i - |p| + 1;
        assert r[i] == q[k] && r[i + 1] == q[k + 1];
      }
    }
    assert PathFromTo(s, r, a, c);
  }

  /** One edge followed by a path. */
  lemma ReachesStep(s: GraphState, a: Label, b: Label, c: Label)
    requires (a, b) in s.edges && Reaches(s, b, c)
    ensures Reaches(s, a, c)
  {
    SingleEdge(s, a, b);
    assert PathFromTo(s, [a, b], a, b);
    ReachesTrans(s, a, b, c);
  }

  /** A path from inside a set of vertices to outside it leaves the set along some edge. */
  lemma {:induction false} Crossing(s: GraphState, p: seq<Label>, inside: set<Label>) returns (i: nat)
    requires IsPath(s, p) && p[0] in inside && p[|p| - 1] !in inside
    ensures i < |p| - 1 && p[i] in inside && p[i + 1] !in inside && (p[i], p[i + 1]) in s.edges
    decreases |p|
  {
    if p[1] !in inside {
      i := 0;
    } else {
      var j := Crossing(s, p[1..], inside);
      i := j + 1;
      assert p[i] == p[1..][j] && p[i + 1] == p[1..][j + 1];
    }
  }

  // ---------------------------------------------------------------------------------------
  // setRef
  // ---------------------------------------------------------------------------------------

  /** `ref` numbers the vertices 0 to n - 1 in list order, and knows no other label. */
  ghost predicate RefOf(s: GraphState, ref: map<Label, int>) {
    && (forall i | 0 <= i < |s.vertices| :: s.vertices[i] in ref && ref[s.vertices[i]] == i)
    && (forall x | x in ref :: x in s.vertices)
  }

  /** The numbering depends on the vertex list alone. */
  lemma RefOfSame(s: GraphState, s': GraphState, ref: map<Label, int>)
    requires RefOf(s, ref) && s'.vertices == s.vertices
    ensures RefOf(s', ref)
  {
  }

  /** The numbering is a bijection onto 0 .. n - 1. */
  lemma RefBijection(s: GraphState, ref: map<Label, int>)
    requires RefOf(s, ref)
    ensures forall x | x in ref :: 0 <= ref[x] < |s.vertices| && s.vertices[ref[x]] == x
    ensures forall x, y | x in ref && y in ref && ref[x] == ref[y] :: x == y
  {
    forall x | x in ref
      ensures 0 <= ref[x] < |s.vertices| && s.vertices[ref[x]] == x
    {
      var i :| 0 <= i < |s.vertices| && s.vertices[i] == x;
    }
  }

  // ---------------------------------------------------------------------------------------
  // The state of one run of Tarjan's search
  // ---------------------------------------------------------------------------------------

  /**
   * The arrays ids, low and onStack, the stack of vertex indices (top first, as a Deque
   * pushes), the counters id and sccCount, and `order`: the vertices in the order they were
   * numbered, so that order[k] is the vertex whose id is k.
   */
  datatype Run = Run(ids: seq<int>, low: seq<int>, onStack: seq<bool>, stack: seq<int>,
                     id: int, sccCount: int, order: seq<int>)

  /** The three arrays have one entry per vertex. */
  ghost predicate Shape(r: Run) {
    |r.low| == |r.ids| && |r.onStack| == |r.ids|
  }

  /**
   * Every visited vertex has an id below `id`, no two the same, and order lists them by id;
   * a visited vertex's low-link is an id no greater than its own.
   */
  ghost predicate Numbered(r: Run) {
    && Shape(r) && |r.order| == r.id
    && (forall k | 0 <= k < |r.order| :: 0 <= r.order[k] < |r.ids| && r.ids[r.order[k]] == k)
    && (forall i | 0 <= i < |r.ids| :: r.ids[i] == UNVISITED || (0 <= r.ids[i] < r.id && r.order[r.ids[i]] == i && 0 <= r.low[i] <= r.ids[i]))
  }

  /** The arrays have one entry per vertex and the stack holds vertex indices. */
  ghost predicate StackIn(r: Run) {
    Shape(r) && forall a | 0 <= a < |r.stack| :: 0 <= r.stack[a] < |r.ids|
  }

  /**
   * The stack holds visited vertices, exactly those marked onStack, with ids decreasing from
   * the top: each vertex lies above every vertex visited before it.
   */
  ghost predicate StackOk(r: Run) {
    && Shape(r)
    && (forall a | 0 <= a < |r.stack| :: 0 <= r.stack[a] < |r.ids| && r.ids[r.stack[a]] != UNVISITED)
    && (forall i | 0 <= i < |r.ids| :: r.onStack[i] <==> i in r.stack)
    && (forall a, b | 0 <= a < b < |r.stack| :: r.ids[r.stack[a]] > r.ids[r.stack[b]])
  }

  /** The vertex whose id is the low-link of `x`. */
  ghost function LowVertex(r: Run, x: int): int
    requires Numbered(r) && 0 <= x < |r.ids| && r.ids[x] != UNVISITED
  {
    r.order[r.low[x]]
  }

  /**
   * Each vertex on the stack reaches the vertex its low-link names, which is on the stack too;
   * and one whose search is over (not on the active `path` of calls) has a low-link below its
   * own id, or it would have been popped.
   */
  ghost predicate LowLinks(s: GraphState, r: Run, path: seq<int>)
    requires Numbered(r) && StackOk(r) && |r.ids| == |s.vertices|
  {
    forall x | x in r.stack ::
      && r.onStack[LowVertex(r, x)]
      && Reaches(s, s.vertices[x], s.vertices[LowVertex(r, x)])
      && (x !in path ==> r.low[x] < r.ids[x])
  }

  /** The invariant of Tarjan's search while the calls on `path` are active. */
  ghost predicate Tarjan(s: GraphState, r: Run, path: seq<int>) {
    Numbered(r) && StackOk(r) && |r.ids| == |s.vertices| && LowLinks(s, r, path)
  }

  /** Every vertex on the path of active calls is visited. */
  ghost predicate Active(r: Run, path: seq<int>) {
    forall y | y in path :: 0 <= y < |r.ids| && r.ids[y] != UNVISITED
  }

  /** The vertices still unvisited. */
  ghost function Unvisited(r: Run): set<int> {
    set i | 0 <= i < |r.ids| && r.ids[i] == UNVISITED
  }

  // ---------------------------------------------------------------------------------------
  // The steps of checkStronglyConnected
  // ---------------------------------------------------------------------------------------

  /** Entering `at`: push it, mark it on the stack, and give it the next id as id and low-link. */
  ghost function Entered(r: Run, at: int): (r': Run)
    requires Shape(r) && 0 <= at < |r.ids|
  {
    r.(ids := r.ids[at := r.id], low := r.low[at := r.id], onStack := r.onStack[at := true],
       stack := [at] + r.stack, id := r.id + 1, order := r.order + [at])
  }

  lemma EnterNumbered(r: Run, at: int)
    requires Numbered(r) && 0 <= at < |r.ids| && r.ids[at] == UNVISITED
    ensures Numbered(Entered(r, at))
    ensures Unvisited(Entered(r, at)) == Unvisited(r) - {at}
  {
    var r' := Entered(r, at);
    forall i | 0 <= i < |r'.ids| && r'.ids[i] != UNVISITED
      ensures 0 <= r'.ids[i] < r'.id && r'.order[r'.ids[i]] == i && 0 <= r'.low[i] <= r'.ids[i]
    {
      if i != at {
        assert r'.order[r.ids[i]] == r.order[r.ids[i]];
      }
    }
  }

  lemma EnterStack(r: Run, at: int)
    requires Numbered(r) && StackOk(r) && 0 <= at < |r.ids| && r.ids[at] == UNVISITED
    ensures StackOk(Entered(r, at))
  {
    var r' := Entered(r, at);
    forall a, b | 0 <= a < b < |r'.stack|
      ensures r'.ids[r'.stack[a]] > r'.ids[r'.stack[b]]
    {
      assert r'.stack[b] == r.stack[b - 1];
      if a > 0 {
        assert r'.stack[a] == r.stack[a - 1];
      }
    }
  }

  lemma EnterOk(s: GraphState, r: Run, path: seq<int>, at: int)
    requires Tarjan(s, r, path) && 0 <= at < |r.ids| && r.ids[at] == UNVISITED
    ensures Tarjan(s, Entered(r, at), path + [at])
    ensures Unvisited(Entered(r, at)) == Unvisited(r) - {at}
  {
    var r' := Entered(r, at);
    EnterNumbered(r, at);
    EnterStack(r, at);
    forall x | x in r'.stack
      ensures && r'.onStack[LowVertex(r', x)]
              && Reaches(s, s.vertices[x], s.vertices[LowVertex(r', x)])
              && (x !in path + [at] ==> r'.low[x] < r'.ids[x])
    {
      if x == at {
        ReachesSelf(s, s.vertices[at]);
      } else {
        assert LowVertex(r', x) == LowVertex(r, x);
      }
    }
  }

  /** low[at] = min(low[at], low[j]) for an edge at->j into a vertex on the stack. */
  ghost function Lowered(r: Run, at: int, j: int): (r': Run)
    requires Shape(r) && 0 <= at < |r.ids| && 0 <= j < |r.ids|
  {
    r.(low := r.low[at := if r.low[j] < r.low[at] then r.low[j] else r.low[at]])
  }

  lemma LowerOk(s: GraphState, r: Run, path: seq<int>, at: int, j: int)
    requires Tarjan(s, r, path) && 0 <= at < |r.ids| && 0 <= j < |r.ids|
    requires r.onStack[at] && at in path && r.onStack[j] && (s.vertices[at], s.vertices[j]) in s.edges
    ensures Tarjan(s, Lowered(r, at, j), path)
  {
    var r' := Lowered(r, at, j);
    LowerNumbered(r, at, j);
    forall x | x in r'.stack
      ensures && r'.onStack[LowVertex(r', x)]
              && Reaches(s, s.vertices[x], s.vertices[LowVertex(r', x)])
              && (x !in path ==> r'.low[x] < r'.ids[x])
    {
      LowerLink(s, r, path, at, j, x);
    }
  }

  lemma LowerNumbered(r: Run, at: int, j: int)
    requires Numbered(r) && StackOk(r) && 0 <= at < |r.ids| && 0 <= j < |r.ids| && r.onStack[j]
    ensures Numbered(Lowered(r, at, j)) && StackOk(Lowered(r, at, j))
  {
  }

  /** Lowering `at` keeps the low-link facts of each vertex on the stack. */
  lemma LowerLink(s: GraphState, r: Run, path: seq<int>, at: int, j: int, x: int)
    requires Tarjan(s, r, path) && 0 <= at < |r.ids| && 0 <= j < |r.ids|
    requires at in path && r.onStack[j] && (s.vertices[at], s.vertices[j]) in s.edges
    requires Numbered(Lowered(r, at, j)) && x in r.stack
    ensures var r' := Lowered(r, at, j);
      && r'.onStack[LowVertex(r', x)]
      && Reaches(s, s.vertices[x], s.vertices[LowVertex(r', x)])
      && (x !in path ==> r'.low[x] < r'.ids[x])
  {
    var r' := Lowered(r, at, j);
    if x == at && r.low[j] < r.low[at] {
      assert LowVertex(r', x) == LowVertex(r, j);
      ReachesStep(s, s.vertices[at], s.vertices[j], s.vertices[LowVertex(r, j)]);
    } else {
      assert LowVertex(r', x) == LowVertex(r, x);
    }
  }

  /** One pop of the loop that closes a component: the top goes off the stack with low-link `v`. */
  ghost function PopOne(r: Run, v: int): (r': Run)
    requires StackIn(r) && r.stack != []
  {
    r.(stack := r.stack[1..], onStack := r.onStack[r.stack[0] := false], low := r.low[r.stack[0] := v])
  }

  lemma PopOneOk(s: GraphState, r: Run, path: seq<int>, v: int)
    requires Tarjan(s, r, path) && r.stack != [] && 0 <= v <= r.ids[r.stack[0]]
    ensures Tarjan(s, PopOne(r, v), path)
  {
    var r' := PopOne(r, v);
    var top := r.stack[0];
    assert top !in r.stack[1..] by {
      forall b | 0 < b < |r.stack|
        ensures r.stack[b] != top
      {
        assert r.ids[r.stack[0]] > r.ids[r.stack[b]];
      }
    }
    assert Numbered(r');
    assert StackOk(r') by {
      forall a, b | 0 <= a < b < |r'.stack|
        ensures r'.ids[r'.stack[a]] > r'.ids[r'.stack[b]]
      {
        assert r'.stack[a] == r.stack[a + 1] && r'.stack[b] == r.stack[b + 1];
      }
    }
    forall x | x in r'.stack
      ensures && r'.onStack[LowVertex(r', x)]
              && Reaches(s, s.vertices[x], s.vertices[LowVertex(r', x)])
              && (x !in path ==> r'.low[x] < r'.ids[x])
    {
      assert x != top && LowVertex(r', x) == LowVertex(r, x);
      var b :| 0 < b < |r.stack| && r.stack[b] == x;
      assert r.ids[top] > r.ids[x];
      // the vertex named by x's low-link was numbered no later than x, so lies below the top
      var w := LowVertex(r, x);
      assert r.ids[w] == r.low[x] <= r.ids[x];
      assert w != top;
    }
  }

  /** A pop keeps the stack well formed, and a vertex below the top stays on it. */
  lemma PopOneStack(r: Run, v: int)
    requires StackOk(r) && r.stack != []
    ensures StackOk(PopOne(r, v))
    ensures forall x | x in r.stack && x != r.stack[0] :: x in PopOne(r, v).stack
    ensures r.stack[0] !in PopOne(r, v).stack
  {
    var r1 := PopOne(r, v);
    forall b | 0 < b < |r.stack|
      ensures r.stack[b] != r.stack[0]
    {
      assert r.ids[r.stack[0]] > r.ids[r.stack[b]];
    }
    forall a, b | 0 <= a < b < |r1.stack|
      ensures r1.ids[r1.stack[a]] > r1.ids[r1.stack[b]]
    {
      assert r1.stack[a] == r.stack[a + 1] && r1.stack[b] == r.stack[b + 1];
    }
    forall x | x in r.stack && x != r.stack[0]
      ensures x in r1.stack
    {
      var b :| 0 <= b < |r.stack| && r.stack[b] == x;
      assert r1.stack[b - 1] == x;
    }
  }

  /** The pop loop: pop until `at` has been popped, each popped vertex getting low-link `v`. */
  ghost function PopUntil(r: Run, at: int, v: int): (r': Run)
    requires StackIn(r)
    ensures Shape(r') && r'.ids == r.ids && r'.id == r.id && r'.order == r.order && r'.sccCount == r.sccCount
    decreases |r.stack|
  {
    if r.stack == [] then r
    else
      var r1 := PopOne(r, v);
      if r.stack[0] == at then r1 else PopOneIn(r, v); PopUntil(r1, at, v)
  }

  lemma PopOneIn(r: Run, v: int)
    requires StackIn(r) && r.stack != []
    ensures StackIn(PopOne(r, v))
  {
    var r1 := PopOne(r, v);
    forall a | 0 <= a < |r1.stack|
      ensures 0 <= r1.stack[a] < |r1.ids|
    {
      assert r1.stack[a] == r.stack[a + 1];
    }
  }

  lemma {:induction false} PopUntilIn(r: Run, at: int, v: int)
    requires StackIn(r)
    ensures StackIn(PopUntil(r, at, v))
    decreases |r.stack|
  {
    if r.stack != [] {
      PopOneIn(r, v);
      if r.stack[0] != at {
        PopUntilIn(PopOne(r, v), at, v);
      }
    }
  }

  /** Popping to an `at` that lies above the bottom `m` entries of the stack keeps those entries. */
  lemma {:induction false} PopKeepsBottom(r: Run, at: int, v: int, m: nat)
    requires StackIn(r) && m <= |r.stack| && at in r.stack[..|r.stack| - m]
    ensures var r' := PopUntil(r, at, v);
      |r'.stack| >= m && r'.stack[|r'.stack| - m..] == r.stack[|r.stack| - m..]
    decreases |r.stack|
  {
    if r.stack[0] != at {
      var r1 := PopOne(r, v);
      assert r1.stack[..|r1.stack| - m] == r.stack[1..|r.stack| - m];
      assert r1.stack[|r1.stack| - m..] == r.stack[|r.stack| - m..];
      PopKeepsBottom(r1, at, v, m);
    }
  }

  /** Popping never changes the ids and stops just below `at`. */
  lemma {:induction false} PopUntilStack(r: Run, at: int, v: int) returns (k: nat)
    requires StackOk(r) && at in r.stack
    ensures k < |r.stack| && r.stack[k] == at
    ensures var r' := PopUntil(r, at, v);
      r'.stack == r.stack[k + 1..]
    decreases |r.stack|
  {
    var r1 := PopOne(r, v);
    PopOneStack(r, v);
    if r.stack[0] == at {
      k := 0;
    } else {
      var j := PopUntilStack(r1, at, v);
      k := j + 1;
      assert r.stack[k + 1..] == r1.stack[j + 1..];
    }
  }

  /** Each popped vertex is off the stack with low-link `v`; every other vertex is as it was. */
  lemma {:induction false} PopUntilMarks(r: Run, at: int, v: int)
    requires StackOk(r) && at in r.stack
    ensures var r' := PopUntil(r, at, v);
      forall i | 0 <= i < |r.ids| ::
        if i in r.stack && i !in r'.stack then !r'.onStack[i] && r'.low[i] == v
        else r'.onStack[i] == r.onStack[i] && r'.low[i] == r.low[i]
    decreases |r.stack|
  {
    var r1 := PopOne(r, v);
    PopOneStack(r, v);
    if r.stack[0] != at {
      PopUntilMarks(r1, at, v);
      var k := PopUntilStack(r1, at, v);
    }
  }

  /** Popping to `at`, the first popped having the largest id, keeps the invariant. */
  lemma {:induction false} PopUntilOk(s: GraphState, r: Run, path: seq<int>, at: int)
    requires Tarjan(s, r, path + [at]) && at in r.stack
    ensures Tarjan(s, PopUntil(r, at, r.ids[at]), path)
    decreases |r.stack|
  {
    var v := r.ids[at];
    var b :| 0 <= b < |r.stack| && r.stack[b] == at;
    if b > 0 {
      assert r.ids[r.stack[0]] > r.ids[r.stack[b]];
    }
    PopOneOk(s, r, path + [at], v);
    var r1 := PopOne(r, v);
    if r.stack[0] == at {
      assert at !in r1.stack;
      assert LowLinks(s, r1, path);
    } else {
      assert r1.stack[b - 1] == at;
      assert r1.ids[at] == v;
      PopUntilOk(s, r1, path, at);
    }
  }

  // ---------------------------------------------------------------------------------------
  // What one call of checkStronglyConnected does to the run
  // ---------------------------------------------------------------------------------------

  /** `x` was visited between `r0` and `r`. */
  ghost predicate IsNew(r0: Run, r: Run, x: int) {
    0 <= x < |r0.ids| && x < |r.ids| && r0.ids[x] == UNVISITED && r.ids[x] != UNVISITED
  }

  /**
   * From `r0` to `r` the run only went forward: the vertices visited in `r0` keep their id,
   * low-link and stack mark, the stack keeps `r0`'s stack at its bottom, and the numbering and
   * the count only grow.
   */
  ghost predicate Since(r0: Run, r: Run) {
    && Shape(r0) && Shape(r) && |r.ids| == |r0.ids|
    && r0.order <= r.order && r0.sccCount <= r.sccCount
    && (forall x | 0 <= x < |r0.ids| && r0.ids[x] != UNVISITED ::
          r.ids[x] == r0.ids[x] && r.low[x] == r0.low[x] && r.onStack[x] == r0.onStack[x])
    && |r0.stack| <= |r.stack| && r.stack[|r.stack| - |r0.stack|..] == r0.stack
  }

  lemma SinceTrans(r0: Run, r1: Run, r2: Run)
    requires Since(r0, r1) && Since(r1, r2)
    ensures Since(r0, r2)
  {
    assert r2.stack[|r2.stack| - |r0.stack|..] == r1.stack[|r1.stack| - |r0.stack|..];
  }

  /** The vertices visited since `r0` are those with an id from r0.id on. */
  lemma NewIds(r0: Run, r: Run, x: int)
    requires Numbered(r0) && Numbered(r) && Since(r0, r) && 0 <= x < |r.ids|
    ensures IsNew(r0, r, x) <==> r.ids[x] != UNVISITED && r.ids[x] >= r0.id
  {
    if r.ids[x] != UNVISITED && r.ids[x] < r0.id {
      assert r0.order[r.ids[x]] == r.order[r.ids[x]];
    }
  }

  /** Without a component closed since `r0`, every vertex visited since is still on the stack. */
  ghost predicate Quiet(r0: Run, r: Run)
    requires Shape(r)
  {
    r.sccCount == r0.sccCount ==> forall x | IsNew(r0, r, x) :: r.onStack[x]
  }

  /** Without a component closed since `r0`, no vertex visited since has a lower low-link than `at`. */
  ghost predicate LowBelow(r0: Run, r: Run, at: int)
    requires Shape(r) && 0 <= at < |r.ids|
  {
    r.sccCount == r0.sccCount ==> forall x | IsNew(r0, r, x) :: r.low[at] <= r.low[x]
  }

  /** `at` reaches every vertex visited since `r0`. */
  ghost predicate FromRoot(s: GraphState, r0: Run, r: Run, at: int)
    requires |r.ids| == |s.vertices| && 0 <= at < |r.ids|
  {
    forall x | IsNew(r0, r, x) :: Reaches(s, s.vertices[at], s.vertices[x])
  }

  /**
   * The edge u->j has been followed: j is visited, and unless a component has been closed
   * since `r0`, a j visited before `r0` and still on the stack has bounded u's low-link.
   */
  ghost predicate EdgeDone(r0: Run, r: Run, u: int, j: int)
    requires Shape(r) && |r0.ids| == |r.ids| && 0 <= u < |r.ids| && 0 <= j < |r.ids|
  {
    && r.ids[j] != UNVISITED
    && (r.sccCount == r0.sccCount ==> r0.ids[j] == UNVISITED || !r.onStack[j] || r.low[u] <= r.low[j])
  }

  /** Every edge out of `u` has been followed. */
  ghost predicate Processed(s: GraphState, r0: Run, r: Run, u: int)
    requires Shape(r) && |r0.ids| == |r.ids| && |r.ids| == |s.vertices| && 0 <= u < |r.ids|
  {
    forall j | 0 <= j < |r.ids| && (s.vertices[u], s.vertices[j]) in s.edges :: EdgeDone(r0, r, u, j)
  }

  /** Every vertex visited since `r0`, except `at`, has had all its edges followed. */
  ghost predicate OthersProcessed(s: GraphState, r0: Run, r: Run, at: int)
    requires Shape(r) && |r0.ids| == |r.ids| && |r.ids| == |s.vertices|
  {
    forall u | IsNew(r0, r, u) && u != at :: Processed(s, r0, r, u)
  }

  /** Every visited vertex is on the stack: no component has been closed yet. */
  ghost predicate AllOnStack(r: Run)
    requires Shape(r)
  {
    forall x | 0 <= x < |r.ids| && r.ids[x] != UNVISITED :: r.onStack[x]
  }

  /**
   * While the call for `at`, begun in `r0`, follows its edges: `at` is on the stack above
   * `r0`'s stack, every vertex visited since `r0` is reachable from `at`, those other than
   * `at` have had all their edges followed, and in a strongly connected graph whose every
   * visited vertex was on the stack no component has been closed.
   */
  ghost predicate Progress(s: GraphState, r0: Run, r: Run, at: int) {
    && Since(r0, r) && |r.ids| == |s.vertices| && IsNew(r0, r, at) && r.onStack[at] && r.ids[at] == r0.id
    && |r.stack| > |r0.stack| && r.stack[|r.stack| - |r0.stack| - 1] == at
    && Quiet(r0, r) && FromRoot(s, r0, r, at)
    && OthersProcessed(s, r0, r, at)
    && (StronglyConnected(s) && AllOnStack(r0) ==> r.sccCount == r0.sccCount)
  }

  /**
   * What the call for `at`, begun in `r0`, has done once it returns: `at` and all it newly
   * reached are visited, reachable from `at`, and have had their edges followed; `at` is
   * either still on the stack with a lower low-link or popped with everything above it,
   * closing at least one component; if exactly one was closed, everything it visited
   * reaches `at`; and in a strongly connected graph whose every visited vertex was on the
   * stack, only a call from an empty stack closes a component, exactly one.
   */
  ghost predicate Visited(s: GraphState, r0: Run, r: Run, at: int) {
    && Since(r0, r) && |r.ids| == |s.vertices| && IsNew(r0, r, at)
    && (r.onStack[at] ==> r.low[at] < r.ids[at])
    && (!r.onStack[at] ==> r.stack == r0.stack && r.sccCount > r0.sccCount)
    && (r0.stack == [] ==> !r.onStack[at])
    && Quiet(r0, r) && LowBelow(r0, r, at) && FromRoot(s, r0, r, at)
    && (forall u | IsNew(r0, r, u) :: Processed(s, r0, r, u))
    && (r.sccCount == r0.sccCount + 1 && !r.onStack[at] ==>
          forall x | IsNew(r0, r, x) :: Reaches(s, s.vertices[x], s.vertices[at]))
    && (StronglyConnected(s) && AllOnStack(r0) ==>
          r.sccCount == r0.sccCount + (if r0.stack == [] then 1 else 0))
  }

  /**
   * Between the call for a child `c` of `at` and the low-link update that follows it, each
   * vertex visited since `r0` has a low-link no lower than that of `at` or of `c`.
   */
  ghost predicate LowVia(r0: Run, r: Run, at: int, c: int)
    requires Shape(r) && 0 <= at < |r.ids| && 0 <= c < |r.ids|
  {
    r.sccCount == r0.sccCount ==>
      forall x | IsNew(r0, r, x) :: r.low[at] <= r.low[x] || (r.onStack[c] && r.low[c] <= r.low[x])
  }

  /** From `r1` to `r2` the facts an edge of `at` followed in `r1` rests on stay put. */
  ghost predicate Kept(r0: Run, r1: Run, r2: Run, at: int)
    requires Shape(r1) && Shape(r2) && |r0.ids| == |r1.ids| == |r2.ids| && 0 <= at < |r1.ids|
  {
    && r1.sccCount <= r2.sccCount && r2.low[at] <= r1.low[at]
    && (forall j | 0 <= j < |r1.ids| && r1.ids[j] != UNVISITED :: r2.ids[j] != UNVISITED)
    && (forall j | 0 <= j < |r0.ids| && r0.ids[j] != UNVISITED :: r2.onStack[j] == r1.onStack[j] && r2.low[j] == r1.low[j])
  }

  lemma KeptTrans(r0: Run, r1: Run, r2: Run, r3: Run, at: int)
    requires Shape(r1) && Shape(r2) && Shape(r3) && |r0.ids| == |r1.ids| == |r2.ids| == |r3.ids| && 0 <= at < |r1.ids|
    requires Kept(r0, r1, r2, at) && Kept(r0, r2, r3, at)
    ensures Kept(r0, r1, r3, at)
  {
  }

  lemma EdgeDoneKept(r0: Run, r1: Run, r2: Run, at: int, j: int)
    requires Shape(r1) && Shape(r2) && |r0.ids| == |r1.ids| == |r2.ids| && 0 <= at < |r1.ids| && 0 <= j < |r1.ids|
    requires r0.sccCount <= r1.sccCount && Kept(r0, r1, r2, at) && EdgeDone(r0, r1, at, j)
    ensures EdgeDone(r0, r2, at, j)
  {
  }

  /** Entering `at` starts its call. */
  lemma EnterProgress(s: GraphState, r0: Run, path: seq<int>, at: int)
    requires Tarjan(s, r0, path) && 0 <= at < |r0.ids| && r0.ids[at] == UNVISITED
    ensures Progress(s, r0, Entered(r0, at), at) && LowBelow(r0, Entered(r0, at), at)
  {
    var r := Entered(r0, at);
    assert forall x | IsNew(r0, r, x) :: x == at;
    ReachesSelf(s, s.vertices[at]);
    assert r.stack[|r.stack| - |r0.stack|..] == r0.stack;
  }

  /** An edge a child's call followed counts as followed for the call that began at `r0`. */
  lemma ProcessedWiden(s: GraphState, r0: Run, r1: Run, r2: Run, u: int)
    requires Since(r0, r1) && Since(r1, r2) && |r2.ids| == |s.vertices| && 0 <= u < |r2.ids|
    requires Processed(s, r1, r2, u)
    ensures Processed(s, r0, r2, u)
  {
  }

  /** An edge followed before a child's call stays followed after it. */
  lemma ProcessedKept(s: GraphState, r0: Run, r1: Run, r2: Run, u: int)
    requires Since(r0, r1) && Since(r1, r2) && |r2.ids| == |s.vertices| && 0 <= u < |r2.ids|
    requires r1.ids[u] != UNVISITED && Processed(s, r0, r1, u)
    ensures Processed(s, r0, r2, u)
  {
    forall j | 0 <= j < |r2.ids| && (s.vertices[u], s.vertices[j]) in s.edges
      ensures EdgeDone(r0, r2, u, j)
    {
      assert EdgeDone(r0, r1, u, j);
    }
  }

  lemma ChildStack(r0: Run, r1: Run, r2: Run, at: int)
    requires Since(r0, r1) && Since(r1, r2)
    requires |r1.stack| > |r0.stack| && r1.stack[|r1.stack| - |r0.stack| - 1] == at
    ensures Since(r0, r2) && |r2.stack| > |r0.stack| && r2.stack[|r2.stack| - |r0.stack| - 1] == at
  {
    SinceTrans(r0, r1, r2);
    assert r2.stack[|r2.stack| - |r1.stack|..] == r1.stack;
    assert r2.stack[|r2.stack| - |r0.stack| - 1] == r2.stack[|r2.stack| - |r1.stack|..][|r1.stack| - |r0.stack| - 1];
  }

  lemma ChildQuiet(r0: Run, r1: Run, r2: Run)
    requires Since(r0, r1) && Since(r1, r2) && Quiet(r0, r1) && Quiet(r1, r2)
    ensures Quiet(r0, r2)
  {
    if r2.sccCount == r0.sccCount {
      forall x | IsNew(r0, r2, x)
        ensures r2.onStack[x]
      {
        if !IsNew(r1, r2, x) {
          assert IsNew(r0, r1, x);
        }
      }
    }
  }

  lemma ChildFromRoot(s: GraphState, r0: Run, r1: Run, r2: Run, at: int, c: int)
    requires Since(r0, r1) && Since(r1, r2) && |r2.ids| == |s.vertices| && 0 <= at < |r2.ids| && 0 <= c < |r2.ids|
    requires FromRoot(s, r0, r1, at) && FromRoot(s, r1, r2, c) && (s.vertices[at], s.vertices[c]) in s.edges
    ensures FromRoot(s, r0, r2, at)
  {
    forall x | IsNew(r0, r2, x)
      ensures Reaches(s, s.vertices[at], s.vertices[x])
    {
      if IsNew(r1, r2, x) {
        ReachesStep(s, s.vertices[at], s.vertices[c], s.vertices[x]);
      } else {
        assert IsNew(r0, r1, x);
      }
    }
  }

  lemma ChildLowVia(r0: Run, r1: Run, r2: Run, at: int, c: int)
    requires Since(r0, r1) && Since(r1, r2) && IsNew(r0, r1, at) && IsNew(r1, r2, c)
    requires LowBelow(r0, r1, at) && Quiet(r1, r2) && LowBelow(r1, r2, c)
    ensures LowVia(r0, r2, at, c)
  {
    if r2.sccCount == r0.sccCount {
      forall x | IsNew(r0, r2, x)
        ensures r2.low[at] <= r2.low[x] || (r2.onStack[c] && r2.low[c] <= r2.low[x])
      {
        if !IsNew(r1, r2, x) {
          assert IsNew(r0, r1, x);
        }
      }
    }
  }

  lemma ChildProcessed(s: GraphState, r0: Run, r1: Run, r2: Run, at: int)
    requires Since(r0, r1) && Since(r1, r2) && |r2.ids| == |s.vertices|
    requires OthersProcessed(s, r0, r1, at) && forall u | IsNew(r1, r2, u) :: Processed(s, r1, r2, u)
    ensures OthersProcessed(s, r0, r2, at)
  {
    forall u | IsNew(r0, r2, u) && u != at
      ensures Processed(s, r0, r2, u)
    {
      if IsNew(r1, r2, u) {
        ProcessedWiden(s, r0, r1, r2, u);
      } else {
        ProcessedKept(s, r0, r1, r2, u);
      }
    }
  }

  lemma ChildAllOnStack(r0: Run, r1: Run)
    requires Since(r0, r1) && Quiet(r0, r1) && AllOnStack(r0) && r1.sccCount == r0.sccCount
    ensures AllOnStack(r1)
  {
    forall x | 0 <= x < |r1.ids| && r1.ids[x] != UNVISITED
      ensures r1.onStack[x]
    {
      if r0.ids[x] != UNVISITED {
        assert r0.onStack[x];
      } else {
        assert IsNew(r0, r1, x);
      }
    }
  }

  lemma ChildKept(r0: Run, r1: Run, r2: Run, at: int)
    requires Since(r0, r1) && Since(r1, r2) && 0 <= at < |r1.ids| && r1.ids[at] != UNVISITED
    ensures Kept(r0, r1, r2, at)
  {
  }

  /** After the call for a child `c` of `at`, the call for `at` is still in progress. */
  lemma ChildStep(s: GraphState, r0: Run, r1: Run, r2: Run, at: int, c: int)
    requires Progress(s, r0, r1, at) && LowBelow(r0, r1, at)
    requires Visited(s, r1, r2, c) && (s.vertices[at], s.vertices[c]) in s.edges
    ensures Progress(s, r0, r2, at) && LowVia(r0, r2, at, c) && Kept(r0, r1, r2, at)
  {
    ChildStack(r0, r1, r2, at);
    ChildQuiet(r0, r1, r2);
    ChildFromRoot(s, r0, r1, r2, at, c);
    ChildLowVia(r0, r1, r2, at, c);
    ChildProcessed(s, r0, r1, r2, at);
    ChildKept(r0, r1, r2, at);
    if StronglyConnected(s) && AllOnStack(r0) {
      ChildAllOnStack(r0, r1);
    }
  }

  lemma LoweredProgress(s: GraphState, r0: Run, r: Run, at: int, c: int)
    requires Progress(s, r0, r, at) && 0 <= c < |r.ids|
    ensures Progress(s, r0, Lowered(r, at, c), at)
  {
    var r' := Lowered(r, at, c);
    forall u | IsNew(r0, r', u) && u != at
      ensures Processed(s, r0, r', u)
    {
      assert Processed(s, r0, r, u);
    }
  }

  /** low[at] = min(low[at], low[c]) for an edge into `c` on the stack: the call is still in progress. */
  lemma LowerStep(s: GraphState, r0: Run, r: Run, at: int, c: int)
    requires Progress(s, r0, r, at) && 0 <= c < |r.ids| && LowVia(r0, r, at, c)
    requires r.onStack[c] && r.ids[c] != UNVISITED
    ensures Progress(s, r0, Lowered(r, at, c), at)
    ensures LowBelow(r0, Lowered(r, at, c), at) && EdgeDone(r0, Lowered(r, at, c), at, c)
    ensures Kept(r0, r, Lowered(r, at, c), at)
  {
    LoweredProgress(s, r0, r, at, c);
  }

  /** An edge into a vertex off the stack changes nothing. */
  lemma SkipStep(r0: Run, r: Run, at: int, c: int)
    requires Shape(r) && |r0.ids| == |r.ids| && 0 <= at < |r.ids| && 0 <= c < |r.ids|
    requires LowVia(r0, r, at, c) && !r.onStack[c] && r.ids[c] != UNVISITED
    ensures LowBelow(r0, r, at) && EdgeDone(r0, r, at, c) && Kept(r0, r, r, at)
  {
  }

  // ---------------------------------------------------------------------------------------
  // Leaving the call for `at`
  // ---------------------------------------------------------------------------------------

  /** What LowLinks says of one vertex on the stack. */
  lemma LowLinkOf(s: GraphState, r: Run, path: seq<int>, x: int)
    requires Tarjan(s, r, path) && x in r.stack
    ensures 0 <= x < |r.ids| && r.ids[x] != UNVISITED
    ensures var w := LowVertex(r, x);
      && 0 <= w < |r.ids| && r.ids[w] == r.low[x] && r.onStack[w]
      && Reaches(s, s.vertices[x], s.vertices[w])
      && (x !in path ==> r.low[x] < r.ids[x])
  {
  }

  /** A call from an empty stack always closes a component at its root. */
  lemma RootPops(s: GraphState, r0: Run, r: Run, path: seq<int>, at: int)
    requires Numbered(r0) && StackOk(r0) && r0.stack == [] && Tarjan(s, r, path)
    requires Since(r0, r) && IsNew(r0, r, at) && r.onStack[at] && r.ids[at] == r0.id
    ensures r.low[at] == r.ids[at]
  {
    LowLinkOf(s, r, path, at);
    var w := LowVertex(r, at);
    assert !r0.onStack[w];
    assert r0.ids[w] == UNVISITED;
    NewIds(r0, r, w);
  }

  /**
   * In a strongly connected graph whose every visited vertex was on the stack, a call from a
   * non-empty stack does not close a component: a path from `at` back to the bottom of the
   * stack leaves the vertices the call visited along an edge into an older stacked vertex,
   * which bounds the low-link of `at` below its id.
   */
  lemma NoEarlyPop(s: GraphState, r0: Run, r: Run, at: int)
    requires Distinct(s.vertices) && EdgesOn(s) && Numbered(r0) && StackOk(r0) && Numbered(r)
    requires Progress(s, r0, r, at) && LowBelow(r0, r, at) && Processed(s, r0, r, at)
    requires StronglyConnected(s) && AllOnStack(r0) && r0.stack != [] && r.sccCount == r0.sccCount
    ensures r.low[at] < r.ids[at]
  {
    var u, w := LeavingEdge(s, r0, r, at);
    if u != at {
      assert Processed(s, r0, r, u);
    }
    assert EdgeDone(r0, r, u, w);
    assert r0.onStack[w];
  }

  /** A path from `at` to the bottom of a non-empty stack leaves the vertices visited since `r0`. */
  lemma LeavingEdge(s: GraphState, r0: Run, r: Run, at: int) returns (u: int, w: int)
    requires Distinct(s.vertices) && EdgesOn(s) && StronglyConnected(s)
    requires StackOk(r0) && r0.stack != [] && Since(r0, r) && |r.ids| == |s.vertices| && IsNew(r0, r, at)
    ensures IsNew(r0, r, u) && 0 <= w < |r.ids| && !IsNew(r0, r, w)
    ensures (s.vertices[u], s.vertices[w]) in s.edges
  {
    var n := |s.vertices|;
    var inside := set x | 0 <= x < n && IsNew(r0, r, x) :: s.vertices[x];
    var b := r0.stack[0];
    forall x | 0 <= x < n && IsNew(r0, r, x)
      ensures s.vertices[x] != s.vertices[b]
    {
      assert x != b;
    }
    assert s.vertices[at] in inside && s.vertices[b] !in inside;
    assert s.vertices[at] in s.vertices && s.vertices[b] in s.vertices;
    assert Reaches(s, s.vertices[at], s.vertices[b]);
    var p :| PathFromTo(s, p, s.vertices[at], s.vertices[b]);
    var i := Crossing(s, p, inside);
    u :| 0 <= u < n && IsNew(r0, r, u) && s.vertices[u] == p[i];
    w := StrongIndex(s, p[i + 1]);
  }

  /** The index of a vertex in the vertex list. */
  lemma StrongIndex(s: GraphState, v: Label) returns (i: int)
    requires v in s.vertices
    ensures 0 <= i < |s.vertices| && s.vertices[i] == v
  {
    i :| 0 <= i < |s.vertices| && s.vertices[i] == v;
  }

  /**
   * When the call for `at` closes its component with none closed before it, every vertex
   * the call visited reaches `at`: each has a smaller low-link naming a vertex the call
   * visited, so following low-links descends to `at`.
   */
  lemma {:induction false} Gather(s: GraphState, r0: Run, r: Run, path: seq<int>, at: int, x: int)
    requires Numbered(r0) && Tarjan(s, r, path + [at]) && Since(r0, r) && IsNew(r0, r, at) && r.ids[at] == r0.id
    requires Quiet(r0, r) && LowBelow(r0, r, at)
    requires Active(r0, path)
    requires r.sccCount == r0.sccCount && r.low[at] == r.ids[at] && IsNew(r0, r, x)
    ensures Reaches(s, s.vertices[x], s.vertices[at])
    decreases r.ids[x]
  {
    if x == at {
      ReachesSelf(s, s.vertices[at]);
    } else {
      var w := GatherStep(s, r0, r, path, at, x);
      Gather(s, r0, r, path, at, w);
      ReachesTrans(s, s.vertices[x], s.vertices[w], s.vertices[at]);
    }
  }

  /** A vertex the call visited, other than its root, has its low-link at a vertex visited later in the call. */
  lemma GatherStep(s: GraphState, r0: Run, r: Run, path: seq<int>, at: int, x: int) returns (w: int)
    requires Numbered(r0) && Tarjan(s, r, path + [at]) && Since(r0, r) && IsNew(r0, r, at) && r.ids[at] == r0.id
    requires Quiet(r0, r) && LowBelow(r0, r, at) && Active(r0, path)
    requires r.sccCount == r0.sccCount && r.low[at] == r.ids[at] && IsNew(r0, r, x) && x != at
    ensures IsNew(r0, r, w) && r.ids[w] < r.ids[x]
    ensures Reaches(s, s.vertices[x], s.vertices[w])
  {
    assert x in r.stack && x !in path + [at] by {
      assert r.onStack[x];
      ActiveOff(r0, path, x);
    }
    w := LowVertex(r, x);
    assert 0 <= w < |r.ids| && r.ids[w] == r.low[x] < r.ids[x] && Reaches(s, s.vertices[x], s.vertices[w]) by {
      LowLinkOf(s, r, path + [at], x);
    }
    assert IsNew(r0, r, w) by {
      NewIds(r0, r, w);
    }
  }

  /** A vertex unvisited in `r0` is not on the path of calls active in it. */
  lemma ActiveOff(r0: Run, path: seq<int>, x: int)
    requires Active(r0, path) && 0 <= x < |r0.ids| && r0.ids[x] == UNVISITED
    ensures x !in path
  {
    forall y | y in path
      ensures y != x
    {
    }
  }

  /** The pop loop followed by sccCount++: the component rooted at `at` is closed. */
  ghost function CloseScc(r: Run, at: int): (r': Run)
    requires StackIn(r) && 0 <= at < |r.ids|
  {
    PopUntil(r, at, r.ids[at]).(sccCount := r.sccCount + 1)
  }

  /** The pop loop stops exactly at the stack the call began with, popping only what the call visited. */
  lemma PopSince(r0: Run, r: Run, at: int)
    requires Numbered(r0) && StackOk(r0) && StackOk(r) && Since(r0, r)
    requires IsNew(r0, r, at) && r.ids[at] == r0.id
    requires |r.stack| > |r0.stack| && r.stack[|r.stack| - |r0.stack| - 1] == at
    ensures var r' := PopUntil(r, at, r.ids[at]);
      r'.stack == r0.stack && Since(r0, r') && !r'.onStack[at]
  {
    var v := r.ids[at];
    PopExact(r, at, v, |r0.stack|);
    UnvisitedOff(r0, at);
    PopOldStays(r0, r, at, v);
  }

  /** A vertex not yet visited is not on the stack. */
  lemma UnvisitedOff(r: Run, x: int)
    requires StackOk(r) && 0 <= x < |r.ids| && r.ids[x] == UNVISITED
    ensures x !in r.stack
  {
    forall a | 0 <= a < |r.stack|
      ensures r.stack[a] != x
    {
    }
  }

  /** Popping down to the stack the call began with leaves every vertex visited before it alone. */
  lemma PopOldStays(r0: Run, r: Run, at: int, v: int)
    requires Numbered(r0) && StackOk(r) && Since(r0, r) && |r0.stack| < |r.stack|
    requires 0 <= at < |r.ids| && r.ids[at] == r0.id && r.stack[|r.stack| - |r0.stack| - 1] == at
    requires PopUntil(r, at, v).stack == r0.stack && at !in r0.stack
    ensures Since(r0, PopUntil(r, at, v)) && !PopUntil(r, at, v).onStack[at]
  {
    var r' := PopUntil(r, at, v);
    assert at in r.stack;
    PopUntilMarks(r, at, v);
    OldBelow(r0, r, at);
    forall x | 0 <= x < |r0.ids| && r0.ids[x] != UNVISITED
      ensures r'.onStack[x] == r.onStack[x] && r'.low[x] == r.low[x]
    {
      OldStays(r0, r, r', at, x);
    }
  }

  lemma OldStays(r0: Run, r: Run, r': Run, at: int, x: int)
    requires Shape(r0) && StackIn(r) && |r0.ids| == |r.ids| && |r0.stack| < |r.stack| && r'.stack == r0.stack
    requires r.stack[|r.stack| - |r0.stack|..] == r0.stack
    requires forall a | 0 <= a <= |r.stack| - |r0.stack| - 1 :: r0.ids[r.stack[a]] == UNVISITED
    requires 0 <= x < |r0.ids| && r0.ids[x] != UNVISITED
    ensures !(x in r.stack && x !in r'.stack)
  {
    if x in r.stack {
      var a :| 0 <= a < |r.stack| && r.stack[a] == x;
      assert r.stack[|r.stack| - |r0.stack|..][a - (|r.stack| - |r0.stack|)] == x;
    }
  }

  /** On a stack of distinct vertices, popping to `at` leaves exactly what lay below it. */
  lemma PopExact(r: Run, at: int, v: int, m: nat)
    requires StackOk(r) && m < |r.stack| && r.stack[|r.stack| - m - 1] == at
    ensures PopUntil(r, at, v).stack == r.stack[|r.stack| - m..]
  {
    var k := PopUntilStack(r, at, v);
    assert k == |r.stack| - m - 1;
  }

  /** What lies on the stack above the root of a call, and the root, were visited by the call. */
  lemma OldBelow(r0: Run, r: Run, at: int)
    requires Numbered(r0) && StackOk(r) && Since(r0, r) && 0 <= at < |r.ids| && r.ids[at] == r0.id
    requires |r.stack| > |r0.stack| && r.stack[|r.stack| - |r0.stack| - 1] == at
    ensures forall a | 0 <= a <= |r.stack| - |r0.stack| - 1 :: r0.ids[r.stack[a]] == UNVISITED
  {
    var k0 := |r.stack| - |r0.stack| - 1;
    forall a | 0 <= a <= k0
      ensures r0.ids[r.stack[a]] == UNVISITED
    {
      assert r.ids[r.stack[a]] >= r.ids[r.stack[k0]];
    }
  }

  /** The call for `at` being in progress, its vertices visited and its edges followed, closes nothing when low[at] < ids[at]. */
  lemma RootOnly(s: GraphState, r0: Run, r: Run, path: seq<int>, at: int)
    requires Numbered(r0) && StackOk(r0) && Tarjan(s, r, path) && Progress(s, r0, r, at)
    requires r.low[at] != r.ids[at]
    ensures r0.stack != []
  {
    if r0.stack == [] {
      RootPops(s, r0, r, path, at);
    }
  }

  /** In a strongly connected graph, a call from a non-empty stack whose visited vertices were all on it does not pop. */
  lemma NestedOnly(s: GraphState, r0: Run, r: Run, at: int)
    requires Distinct(s.vertices) && EdgesOn(s) && Numbered(r0) && StackOk(r0) && Numbered(r)
    requires Progress(s, r0, r, at) && LowBelow(r0, r, at) && Processed(s, r0, r, at)
    requires StronglyConnected(s) && AllOnStack(r0) && r.low[at] == r.ids[at]
    ensures r0.stack == []
  {
    if r0.stack != [] {
      NoEarlyPop(s, r0, r, at);
    }
  }

  /** The exit of checkStronglyConnected when low[at] == ids[at]: the component is popped and counted. */
  lemma PopVisited(s: GraphState, r0: Run, r: Run, at: int)
    requires Numbered(r0) && StackOk(r0) && StackOk(r) && Since(r0, r) && |r.ids| == |s.vertices|
    requires IsNew(r0, r, at) && r.ids[at] == r0.id && r.low[at] == r.ids[at]
    requires |r.stack| > |r0.stack| && r.stack[|r.stack| - |r0.stack| - 1] == at
    requires FromRoot(s, r0, r, at) && Gathered(s, r0, r, at) && AllProcessed(s, r0, r)
    requires StronglyConnected(s) && AllOnStack(r0) ==> r0.stack == [] && r.sccCount == r0.sccCount
    ensures Visited(s, r0, CloseScc(r, at), at)
  {
    var r' := CloseScc(r, at);
    PopSince(r0, r, at);
    forall u | IsNew(r0, r', u)
      ensures Processed(s, r0, r', u)
    {
      assert Processed(s, r0, r, u);
    }
  }

  /** Every vertex visited since `r0` has had all its edges followed. */
  ghost predicate AllProcessed(s: GraphState, r0: Run, r: Run)
    requires Shape(r) && |r0.ids| == |r.ids| && |r.ids| == |s.vertices|
  {
    forall u | IsNew(r0, r, u) :: Processed(s, r0, r, u)
  }

  lemma ProcessedAll(s: GraphState, r0: Run, r: Run, at: int)
    requires Progress(s, r0, r, at) && Processed(s, r0, r, at)
    ensures AllProcessed(s, r0, r)
  {
    forall u | IsNew(r0, r, u)
      ensures Processed(s, r0, r, u)
    {
      if u != at {
        assert OthersProcessed(s, r0, r, at);
      }
    }
  }

  /** With no component closed since `r0`, everything visited since reaches `at`. */
  ghost predicate Gathered(s: GraphState, r0: Run, r: Run, at: int)
    requires |r.ids| == |s.vertices| && 0 <= at < |r.ids|
  {
    r.sccCount == r0.sccCount ==> forall x | IsNew(r0, r, x) :: Reaches(s, s.vertices[x], s.vertices[at])
  }

  lemma PopGathered(s: GraphState, r0: Run, r: Run, path: seq<int>, at: int)
    requires Numbered(r0) && Tarjan(s, r, path + [at]) && Since(r0, r) && IsNew(r0, r, at) && r.ids[at] == r0.id
    requires Quiet(r0, r) && LowBelow(r0, r, at) && Active(r0, path) && r.low[at] == r.ids[at]
    ensures Gathered(s, r0, r, at)
  {
    if r.sccCount == r0.sccCount {
      forall x | IsNew(r0, r, x)
        ensures Reaches(s, s.vertices[x], s.vertices[at])
      {
        Gather(s, r0, r, path, at, x);
      }
    }
  }

  /** Closing the component at `at` keeps the invariant for the calls below it. */
  lemma CloseTarjan(s: GraphState, r: Run, path: seq<int>, at: int)
    requires Tarjan(s, r, path + [at]) && at in r.stack
    ensures Tarjan(s, CloseScc(r, at), path)
  {
    PopUntilOk(s, r, path, at);
    assert LowLinks(s, PopUntil(r, at, r.ids[at]), path);
  }

  /** The exit of checkStronglyConnected when low[at] < ids[at]: nothing is popped. */
  lemma StayVisited(s: GraphState, r0: Run, r: Run, path: seq<int>, at: int)
    requires Numbered(r0) && StackOk(r0)
    requires Tarjan(s, r, path + [at]) && Progress(s, r0, r, at) && LowBelow(r0, r, at) && Processed(s, r0, r, at)
    requires r.low[at] != r.ids[at]
    ensures Visited(s, r0, r, at)
  {
    RootOnly(s, r0, r, path + [at], at);
    forall u | IsNew(r0, r, u)
      ensures Processed(s, r0, r, u)
    {
      if u != at {
        assert OthersProcessed(s, r0, r, at);
      }
    }
  }

  /** Leaving the call for `at` with low[at] < ids[at]: `at` keeps its place on the stack. */
  lemma StayTarjan(s: GraphState, r: Run, path: seq<int>, at: int)
    requires Tarjan(s, r, path + [at]) && 0 <= at < |r.ids| && r.ids[at] != UNVISITED
    requires r.low[at] != r.ids[at]
    ensures Tarjan(s, r, path)
  {
    forall x | x in r.stack
      ensures && r.onStack[LowVertex(r, x)]
              && Reaches(s, s.vertices[x], s.vertices[LowVertex(r, x)])
              && (x !in path ==> r.low[x] < r.ids[x])
    {
      LowLinkOf(s, r, path + [at], x);
    }
  }

  // ---------------------------------------------------------------------------------------
  // checkStronglyConnected as a function of the run
  // ---------------------------------------------------------------------------------------

  /**
   * The graph as the search sees it: for each vertex index, the indices of the targets of its
   * outgoing edges, in the order those edges are listed.
   */
  type Adjacency = adj: seq<seq<int>> | forall at, k | 0 <= at < |adj| && 0 <= k < |adj[at]| :: 0 <= adj[at][k] < |adj|

  /** The children of `at`: ref of the target of each outgoing edge of `at`, in order. */
  ghost function Children(s: GraphState, ref: map<Label, int>, at: int): (cs: seq<int>)
    requires ValidState(s) && RefOf(s, ref) && 0 <= at < |s.vertices|
    ensures var es := OutgoingEdges(s, s.vertices[at]).value;
      && |cs| == |es|
      && forall k | 0 <= k < |es| :: es[k].target in ref && cs[k] == ref[es[k].target] && 0 <= cs[k] < |s.vertices|
  {
    var es := OutgoingEdges(s, s.vertices[at]).value;
    OutTargets(s, ref, at, es);
    seq(|es|, k requires 0 <= k < |es| => ref[es[k].target])
  }

  /** Every outgoing edge of `at` targets a numbered vertex that `at` has an edge to. */
  lemma OutTargets(s: GraphState, ref: map<Label, int>, at: int, es: seq<Edge>)
    requires ValidState(s) && RefOf(s, ref) && 0 <= at < |s.vertices| && es == OutgoingEdges(s, s.vertices[at]).value
    ensures forall e | e in es ::
      && e.target in ref && 0 <= ref[e.target] < |s.vertices|
      && (s.vertices[at], s.vertices[ref[e.target]]) in s.edges
  {
    RefBijection(s, ref);
    forall e | e in es
      ensures e.target in ref && (s.vertices[at], e.target) in s.edges
    {
      assert e.target in s.vertices;
    }
  }

  /** An adjacency lists, for each vertex, exactly the vertices it has an edge to. */
  ghost predicate Models(s: GraphState, adj: Adjacency) {
    && |adj| == |s.vertices|
    && forall at, j | 0 <= at < |adj| && 0 <= j < |adj| ::
         j in adj[at] <==> (s.vertices[at], s.vertices[j]) in s.edges
  }

  /** `adj` lists, for each vertex index, the indices of the targets of its outgoing edges in order. */
  ghost predicate Links(s: GraphState, ref: map<Label, int>, adj: Adjacency)
    requires ValidState(s) && RefOf(s, ref)
  {
    |adj| == |s.vertices| && forall at | 0 <= at < |adj| :: adj[at] == Children(s, ref, at)
  }

  /** The k-th outgoing edge of `v` leads to the k-th child of `v` in `adj`. */
  lemma EdgeTargets(s: GraphState, ref: map<Label, int>, adj: Adjacency, v: Label)
    requires ValidState(s) && RefOf(s, ref) && Links(s, ref, adj) && v in ref
    ensures v in s.vertices && 0 <= ref[v] < |adj|
    ensures var es := OutgoingEdges(s, v).value;
      && |es| == |adj[ref[v]]|
      && forall k | 0 <= k < |es| ::
           Opposite(s, v, es[k]).Success? && Opposite(s, v, es[k]).value in ref && ref[Opposite(s, v, es[k]).value] == adj[ref[v]][k]
  {
    RefBijection(s, ref);
    var es := OutgoingEdges(s, v).value;
    var cs := Children(s, ref, ref[v]);
    forall k | 0 <= k < |es|
      ensures Opposite(s, v, es[k]).Success? && Opposite(s, v, es[k]).value in ref && ref[Opposite(s, v, es[k]).value] == cs[k]
    {
      assert es[k] in es;
    }
  }

  /** The adjacency of a valid graph under its numbering. */
  ghost function AdjacencyOf(s: GraphState, ref: map<Label, int>): (adj: Adjacency)
    requires ValidState(s) && RefOf(s, ref)
    ensures Models(s, adj) && Links(s, ref, adj)
  {
    var adj := seq(|s.vertices|, at requires 0 <= at < |s.vertices| => Children(s, ref, at));
    AdjacencyModels(s, ref, adj);
    adj
  }

  /** The adjacency of a valid graph under its numbering, as a ghost value to work with. */
  lemma NumberedAdjacency(s: GraphState, ref: map<Label, int>) returns (adj: Adjacency)
    requires ValidState(s) && RefOf(s, ref)
    ensures Sound(s, adj) && Links(s, ref, adj)
  {
    ValidEdgesOn(s);
    adj := AdjacencyOf(s, ref);
  }

  lemma AdjacencyModels(s: GraphState, ref: map<Label, int>, adj: seq<seq<int>>)
    requires ValidState(s) && RefOf(s, ref) && |adj| == |s.vertices|
    requires forall at | 0 <= at < |adj| :: adj[at] == Children(s, ref, at)
    ensures forall at, k | 0 <= at < |adj| && 0 <= k < |adj[at]| :: 0 <= adj[at][k] < |adj|
    ensures forall at, j | 0 <= at < |adj| && 0 <= j < |adj| ::
      j in adj[at] <==> (s.vertices[at], s.vertices[j]) in s.edges
  {
    RefBijection(s, ref);
    forall at, j | 0 <= at < |adj| && 0 <= j < |adj|
      ensures j in adj[at] <==> (s.vertices[at], s.vertices[j]) in s.edges
    {
      var es := OutgoingEdges(s, s.vertices[at]).value;
      OutTargets(s, ref, at, es);
      if j in adj[at] {
        var k :| 0 <= k < |adj[at]| && adj[at][k] == j;
        assert es[k] in es;
      }
      if (s.vertices[at], s.vertices[j]) in s.edges {
        var e := StoredEdge(s, s.vertices[at], s.vertices[j]);
        assert e in es;
        var k :| 0 <= k < |es| && es[k] == e;
        assert adj[at][k] == j;
      }
    }
  }

  /** What a call needs to be defined: a run sized to the graph. */
  ghost predicate Fits(adj: Adjacency, r: Run) {
    |r.ids| == |adj| && StackIn(r) && r.id >= 0
  }

  /** The stack of `r` lies at the bottom of the stack of `r'`. */
  ghost predicate Above(r: Run, r': Run) {
    |r.stack| <= |r'.stack| && r'.stack[|r'.stack| - |r.stack|..] == r.stack
  }

  lemma AboveTrans(r0: Run, r1: Run, r2: Run)
    requires Above(r0, r1) && Above(r1, r2)
    ensures Above(r0, r2)
  {
    assert r2.stack[|r2.stack| - |r0.stack|..] == r2.stack[|r2.stack| - |r1.stack|..][|r1.stack| - |r0.stack|..];
  }

  /** The vertices on the path of active calls stay visited. */
  lemma ActiveKept(r: Run, r': Run, path: seq<int>)
    requires Active(r, path) && |r'.ids| == |r.ids| && Unvisited(r') <= Unvisited(r)
    ensures Active(r', path)
  {
    forall y | y in path
      ensures r'.ids[y] != UNVISITED
    {
      assert y !in Unvisited(r);
    }
  }

  lemma EnterFits(adj: Adjacency, r: Run, at: int)
    requires Fits(adj, r) && 0 <= at < |r.ids| && r.ids[at] == UNVISITED
    ensures Fits(adj, Entered(r, at)) && Above(r, Entered(r, at))
    ensures Unvisited(Entered(r, at)) == Unvisited(r) - {at}
  {
    var r1 := Entered(r, at);
    forall a | 0 <= a < |r1.stack|
      ensures 0 <= r1.stack[a] < |r1.ids|
    {
      if a > 0 {
        assert r1.stack[a] == r.stack[a - 1];
      }
    }
    assert r1.stack[|r1.stack| - |r.stack|..] == r.stack;
  }

  /** Closing a component whose root lies just above the bottom `m` entries keeps those entries. */
  lemma CloseFits(adj: Adjacency, r: Run, at: int, m: nat)
    requires Fits(adj, r) && 0 <= at < |r.ids| && m < |r.stack| && r.stack[|r.stack| - m - 1] == at
    ensures Fits(adj, CloseScc(r, at))
    ensures var r' := CloseScc(r, at); |r'.stack| >= m && r'.stack[|r'.stack| - m..] == r.stack[|r.stack| - m..]
  {
    PopUntilIn(r, at, r.ids[at]);
    assert at in r.stack[..|r.stack| - m];
    PopKeepsBottom(r, at, r.ids[at], m);
  }

  /** Every child in `cs` is a vertex index. */
  ghost predicate Within(adj: Adjacency, cs: seq<int>) {
    forall c | c in cs :: 0 <= c < |adj|
  }

  /**
   * checkStronglyConnected(at): enter `at`, follow each of its outgoing edges in turn, and
   * close the component rooted at `at` when its low-link is its own id.
   */
  ghost function VisitRun(adj: Adjacency, r: Run, at: int): (r': Run)
    requires Fits(adj, r) && 0 <= at < |r.ids| && r.ids[at] == UNVISITED
    ensures Fits(adj, r') && Unvisited(r') <= Unvisited(r) - {at} && Above(r, r')
    decreases Unvisited(r), 2
  {
    EnterFits(adj, r, at);
    var r1 := Entered(r, at);
    assert Within(adj, adj[at]);
    var r2 := ExploreRun(adj, r1, at, adj[at]);
    VisitClose(adj, r, at, r2);
    if r2.ids[at] == r2.low[at] then CloseScc(r2, at) else r2
  }

  /** After the loop over the children of `at`, closing its component keeps the call's frame. */
  lemma VisitClose(adj: Adjacency, r: Run, at: int, r2: Run)
    requires Fits(adj, r) && 0 <= at < |r.ids| && r.ids[at] == UNVISITED
    requires Fits(adj, r2) && Above(Entered(r, at), r2)
    ensures Above(r, r2)
    ensures r2.ids[at] == r2.low[at] ==>
      Fits(adj, CloseScc(r2, at)) && CloseScc(r2, at).ids == r2.ids && Above(r, CloseScc(r2, at))
  {
    var r1 := Entered(r, at);
    AboveTrans(r, r1, r2);
    if r2.ids[at] == r2.low[at] {
      assert r2.stack[|r2.stack| - |r.stack| - 1] == r2.stack[|r2.stack| - |r1.stack|..][0];
      CloseFits(adj, r2, at, |r.stack|);
    }
  }

  /** The loop over the children `cs` of `at`, as far as it has gone. */
  ghost function ExploreRun(adj: Adjacency, r: Run, at: int, cs: seq<int>): (r': Run)
    requires Fits(adj, r) && 0 <= at < |r.ids| && r.ids[at] != UNVISITED && Within(adj, cs)
    ensures Fits(adj, r') && Unvisited(r') <= Unvisited(r) && Above(r, r') && r'.ids[at] != UNVISITED
    decreases Unvisited(r) + {at}, 1, |cs|
  {
    if cs == [] then
      r
    else
      assert cs[|cs| - 1] in cs;
      var pre := cs[..|cs| - 1];
      assert Within(adj, pre) by {
        forall d | d in pre
          ensures 0 <= d < |adj|
        {
          assert d in cs;
        }
      }
      var r1 := ExploreRun(adj, r, at, pre);
      var r2 := FollowRun(adj, r1, at, cs[|cs| - 1]);
      AboveTrans(r, r1, r2);
      r2
  }

  /**
   * One edge at->c: call checkStronglyConnected on an unvisited `c`, then, if `c` is on the
   * stack, take the smaller of the two low-links.
   */
  ghost function FollowRun(adj: Adjacency, r: Run, at: int, c: int): (r': Run)
    requires Fits(adj, r) && 0 <= at < |r.ids| && 0 <= c < |r.ids| && r.ids[at] != UNVISITED
    ensures Fits(adj, r') && Unvisited(r') <= Unvisited(r) && Above(r, r')
    ensures r'.ids[at] != UNVISITED && r'.ids[c] != UNVISITED
    decreases Unvisited(r) + {at}, 0
  {
    assert at !in Unvisited(r);
    var r1 := if r.ids[c] == UNVISITED then VisitRun(adj, r, c) else r;
    assert r1.stack[|r1.stack| - |r.stack|..] == r.stack;
    if r1.onStack[c] then Lowered(r1, at, c) else r1
  }

  /** The graph facts the correctness argument rests on. */
  ghost predicate Sound(s: GraphState, adj: Adjacency) {
    Distinct(s.vertices) && EdgesOn(s) && Models(s, adj)
  }

  /** The invariant and the contract of checkStronglyConnected hold of VisitRun. */
  lemma {:induction false} VisitOk(s: GraphState, adj: Adjacency, r: Run, path: seq<int>, at: int)
    requires Sound(s, adj) && Fits(adj, r) && 0 <= at < |r.ids| && r.ids[at] == UNVISITED
    requires Tarjan(s, r, path) && Active(r, path)
    ensures Tarjan(s, VisitRun(adj, r, at), path) && Visited(s, r, VisitRun(adj, r, at), at)
    decreases Unvisited(r), 2
  {
    EnterFits(adj, r, at);
    var r1 := Entered(r, at);
    EnterOk(s, r, path, at);
    EnterProgress(s, r, path, at);
    ActiveKept(r, r1, path);
    assert Within(adj, adj[at]);
    ExploreOk(s, adj, r, r1, path, at, adj[at]);
    var r2 := ExploreRun(adj, r1, at, adj[at]);
    EdgesProcessed(s, adj, r, r2, at);
    LeaveOk(s, r, r2, path, at);
  }

  /** Every edge out of `at` leads to one of its children, so following those processes `at`. */
  lemma EdgesProcessed(s: GraphState, adj: Adjacency, r0: Run, r: Run, at: int)
    requires Models(s, adj) && Shape(r) && |r0.ids| == |r.ids| == |adj| && 0 <= at < |adj|
    requires EdgesDone(r0, r, at, adj[at])
    ensures Processed(s, r0, r, at)
  {
    forall j | 0 <= j < |r.ids| && (s.vertices[at], s.vertices[j]) in s.edges
      ensures EdgeDone(r0, r, at, j)
    {
      assert j in adj[at];
    }
  }

  /** Leaving the call for `at`: closing its component or not, the call has done its work. */
  lemma LeaveOk(s: GraphState, r0: Run, r: Run, path: seq<int>, at: int)
    requires Distinct(s.vertices) && EdgesOn(s) && Tarjan(s, r0, path) && Active(r0, path)
    requires Tarjan(s, r, path + [at]) && Progress(s, r0, r, at) && LowBelow(r0, r, at) && Processed(s, r0, r, at)
    ensures var r' := if r.ids[at] == r.low[at] then CloseScc(r, at) else r;
      Tarjan(s, r', path) && Visited(s, r0, r', at)
  {
    if r.ids[at] == r.low[at] {
      CloseTarjan(s, r, path, at);
      PopGathered(s, r0, r, path, at);
      ProcessedAll(s, r0, r, at);
      if StronglyConnected(s) && AllOnStack(r0) {
        NestedOnly(s, r0, r, at);
      }
      PopVisited(s, r0, r, at);
    } else {
      StayTarjan(s, r, path, at);
      StayVisited(s, r0, r, path, at);
    }
  }

  /**
   * The loop over the children `cs` of `at`, begun in `r`, has reached `r'`: the invariant
   * holds, the call for `at` is in progress and each edge to a child in `cs` is followed.
   */
  ghost predicate Explored(s: GraphState, r0: Run, r: Run, r': Run, path: seq<int>, at: int, cs: seq<int>) {
    && Shape(r) && |r.ids| == |r0.ids| && Tarjan(s, r', path + [at]) && Progress(s, r0, r', at) && LowBelow(r0, r', at) && Active(r', path)
    && EdgesDone(r0, r', at, cs) && Kept(r0, r, r', at)
  }

  /** The loop over `cs` is the loop over all but the last child, then the last child. */
  lemma ExploreRunLast(adj: Adjacency, r: Run, at: int, cs: seq<int>)
    requires Fits(adj, r) && 0 <= at < |r.ids| && r.ids[at] != UNVISITED && Within(adj, cs) && cs != []
    ensures Within(adj, cs[..|cs| - 1]) && 0 <= cs[|cs| - 1] < |adj|
    ensures ExploreRun(adj, r, at, cs) == FollowRun(adj, ExploreRun(adj, r, at, cs[..|cs| - 1]), at, cs[|cs| - 1])
  {
    assert cs[|cs| - 1] in cs;
    var pre := cs[..|cs| - 1];
    forall d | d in pre
      ensures 0 <= d < |adj|
    {
      assert d in cs;
    }
  }

  /** A prefix of a list of vertex indices is a list of vertex indices. */
  lemma WithinPrefix(adj: Adjacency, cs: seq<int>, n: int)
    requires Within(adj, cs) && 0 <= n <= |cs|
    ensures Within(adj, cs[..n])
  {
    forall d | d in cs[..n]
      ensures 0 <= d < |adj|
    {
      assert d in cs;
    }
  }

  /** The loop over the first k + 1 children is the loop over the first k, then child k. */
  lemma ExploreRunNext(adj: Adjacency, r: Run, at: int, cs: seq<int>, k: int)
    requires Fits(adj, r) && 0 <= at < |r.ids| && r.ids[at] != UNVISITED && Within(adj, cs) && 0 <= k < |cs|
    ensures Within(adj, cs[..k]) && Within(adj, cs[..k + 1]) && 0 <= cs[k] < |adj|
    ensures ExploreRun(adj, r, at, cs[..k + 1]) == FollowRun(adj, ExploreRun(adj, r, at, cs[..k]), at, cs[k])
  {
    assert cs[k] in cs;
    WithinPrefix(adj, cs, k);
    WithinPrefix(adj, cs, k + 1);
    var next := cs[..k + 1];
    assert next[..|next| - 1] == cs[..k];
    ExploreRunLast(adj, r, at, next);
  }

  /** The search from an unvisited `at` strictly shrinks the unvisited set, even counting `at`. */
  lemma ExploreShrinks(adj: Adjacency, r0: Run, at: int, r: Run)
    requires Fits(adj, r0) && 0 <= at < |r0.ids| && r0.ids[at] == UNVISITED
    requires Fits(adj, r) && Unvisited(r) <= Unvisited(Entered(r0, at))
    ensures Unvisited(r) + {at} < Unvisited(r0) || Unvisited(r) + {at} == Unvisited(r0)
  {
    EnterFits(adj, r0, at);
  }

  /** VisitRun in terms of the run after the loop over the children of `at`. */
  lemma VisitRunIs(adj: Adjacency, r0: Run, at: int, r2: Run)
    requires Fits(adj, r0) && 0 <= at < |r0.ids| && r0.ids[at] == UNVISITED
    requires Fits(adj, Entered(r0, at)) && Within(adj, adj[at])
    requires r2 == ExploreRun(adj, Entered(r0, at), at, adj[at][..|adj[at]|])
    ensures 0 <= at < |r2.ids| && at in r2.stack
    ensures VisitRun(adj, r0, at) == if r2.ids[at] == r2.low[at] then CloseScc(r2, at) else r2
  {
    EnterFits(adj, r0, at);
    var r1 := Entered(r0, at);
    assert adj[at][..|adj[at]|] == adj[at];
    assert r2 == ExploreRun(adj, r1, at, adj[at]);
    assert r2.stack[|r2.stack| - |r1.stack|..][0] == at;
  }

  /** A subset is either a smaller set or the same set. */
  lemma ShrinksOrStays(a: set<int>, b: set<int>)
    requires a <= b
    ensures a < b || a == b
  {
  }

  lemma ExploredSame(s: GraphState, r0: Run, r: Run, ra: Run, rb: Run, path: seq<int>, at: int, cs: seq<int>)
    requires Explored(s, r0, r, ra, path, at, cs) && ra == rb
    ensures Explored(s, r0, r, rb, path, at, cs)
  {
  }

  /** The invariant holds along the loop over the children of `at`, and each edge is followed. */
  lemma {:induction false} ExploreOk(s: GraphState, adj: Adjacency, r0: Run, r: Run, path: seq<int>, at: int, cs: seq<int>)
    requires Sound(s, adj) && Fits(adj, r) && 0 <= at < |r.ids| && r.ids[at] != UNVISITED
    requires Within(adj, cs) && forall c | c in cs :: c in adj[at]
    requires Tarjan(s, r, path + [at]) && Progress(s, r0, r, at) && LowBelow(r0, r, at) && Active(r, path)
    ensures Explored(s, r0, r, ExploreRun(adj, r, at, cs), path, at, cs)
    decreases Unvisited(r) + {at}, 1, |cs|, 1
  {
    if cs != [] {
      var pre := cs[..|cs| - 1];
      var c := cs[|cs| - 1];
      assert c in cs;
      assert Within(adj, pre) && forall d | d in pre :: d in adj[at] by {
        forall d | d in pre
          ensures 0 <= d < |adj| && d in adj[at]
        {
          assert d in cs;
        }
      }
      ExploreOk(s, adj, r0, r, path, at, pre);
      var r1 := ExploreRun(adj, r, at, pre);
      ShrinksOrStays(Unvisited(r1) + {at}, Unvisited(r) + {at});
      ExploreStep(s, adj, r0, r, r1, path, at, cs);
      ExploreRunLast(adj, r, at, cs);
      ExploredSame(s, r0, r, FollowRun(adj, r1, at, c), ExploreRun(adj, r, at, cs), path, at, cs);
    }
  }

  /** Following the last child of `cs` once the others have been followed. */
  lemma {:induction false} ExploreStep(s: GraphState, adj: Adjacency, r0: Run, r: Run, r1: Run, path: seq<int>, at: int, cs: seq<int>)
    requires Sound(s, adj) && Shape(r) && Fits(adj, r1) && |r.ids| == |r1.ids| && 0 <= at < |r.ids| && r1.ids[at] != UNVISITED
    requires cs != [] && 0 <= cs[|cs| - 1] < |adj| && cs[|cs| - 1] in adj[at]
    requires Tarjan(s, r1, path + [at]) && Progress(s, r0, r1, at) && LowBelow(r0, r1, at) && Active(r1, path)
    requires EdgesDone(r0, r1, at, cs[..|cs| - 1]) && Kept(r0, r, r1, at)
    ensures Explored(s, r0, r, FollowRun(adj, r1, at, cs[|cs| - 1]), path, at, cs)
    decreases Unvisited(r1) + {at}, 1, |cs|, 0
  {
    var c := cs[|cs| - 1];
    FollowOk(s, adj, r0, r1, path, at, c);
    EdgesDoneStep(r0, r, r1, FollowRun(adj, r1, at, c), at, cs);
  }

  /** Every edge to a child in `cs` has been followed. */
  ghost predicate EdgesDone(r0: Run, r: Run, at: int, cs: seq<int>)
    requires Shape(r) && |r0.ids| == |r.ids| && 0 <= at < |r.ids|
  {
    forall c | c in cs && 0 <= c < |r.ids| :: EdgeDone(r0, r, at, c)
  }

  /** Following the last child of `cs` after the others keeps those followed. */
  lemma EdgesDoneStep(r0: Run, r: Run, r1: Run, r2: Run, at: int, cs: seq<int>)
    requires Shape(r) && Shape(r1) && Shape(r2) && |r0.ids| == |r.ids| == |r1.ids| == |r2.ids| && 0 <= at < |r.ids|
    requires cs != [] && r0.sccCount <= r1.sccCount
    requires EdgesDone(r0, r1, at, cs[..|cs| - 1]) && Kept(r0, r, r1, at) && Kept(r0, r1, r2, at)
    requires 0 <= cs[|cs| - 1] < |r.ids| && EdgeDone(r0, r2, at, cs[|cs| - 1])
    ensures EdgesDone(r0, r2, at, cs) && Kept(r0, r, r2, at)
  {
    forall c | c in cs && 0 <= c < |r.ids|
      ensures EdgeDone(r0, r2, at, c)
    {
      if c in cs[..|cs| - 1] {
        EdgeDoneKept(r0, r1, r2, at, c);
      }
    }
    KeptTrans(r0, r, r1, r2, at);
  }

  /** The invariant holds after one edge is followed, and the edge counts as followed. */
  lemma {:induction false} FollowOk(s: GraphState, adj: Adjacency, r0: Run, r: Run, path: seq<int>, at: int, c: int)
    requires Sound(s, adj) && Fits(adj, r) && 0 <= at < |r.ids| && 0 <= c < |r.ids| && r.ids[at] != UNVISITED
    requires c in adj[at]
    requires Tarjan(s, r, path + [at]) && Progress(s, r0, r, at) && LowBelow(r0, r, at) && Active(r, path)
    ensures var r' := FollowRun(adj, r, at, c);
      && Tarjan(s, r', path + [at]) && Progress(s, r0, r', at) && LowBelow(r0, r', at) && Active(r', path)
      && EdgeDone(r0, r', at, c) && Kept(r0, r, r', at)
    decreases Unvisited(r) + {at}, 0, 1
  {
    FollowChild(s, adj, r0, r, path, at, c);
    FollowLower(s, adj, r0, r, if r.ids[c] == UNVISITED then VisitRun(adj, r, c) else r, path, at, c);
  }

  /** The call for `c`, if it is unvisited, leaves the call for `at` in progress. */
  lemma {:induction false} FollowChild(s: GraphState, adj: Adjacency, r0: Run, r: Run, path: seq<int>, at: int, c: int)
    requires Sound(s, adj) && Fits(adj, r) && 0 <= at < |r.ids| && 0 <= c < |r.ids| && r.ids[at] != UNVISITED
    requires c in adj[at]
    requires Tarjan(s, r, path + [at]) && Progress(s, r0, r, at) && LowBelow(r0, r, at) && Active(r, path)
    ensures var r1 := if r.ids[c] == UNVISITED then VisitRun(adj, r, c) else r;
      && Fits(adj, r1) && r1.ids[c] != UNVISITED
      && Tarjan(s, r1, path + [at]) && Progress(s, r0, r1, at) && Active(r1, path)
      && LowVia(r0, r1, at, c) && Kept(r0, r, r1, at)
    decreases Unvisited(r) + {at}, 0, 0
  {
    if r.ids[c] == UNVISITED {
      assert at !in Unvisited(r);
      assert (s.vertices[at], s.vertices[c]) in s.edges;
      VisitOk(s, adj, r, path + [at], c);
      var r1 := VisitRun(adj, r, c);
      ChildStep(s, r0, r, r1, at, c);
      ActiveKept(r, r1, path);
    }
  }

  /** The low-link update of one edge at->c, once `c` is visited. */
  lemma FollowLower(s: GraphState, adj: Adjacency, r0: Run, r: Run, r1: Run, path: seq<int>, at: int, c: int)
    requires Models(s, adj) && Fits(adj, r1) && Shape(r) && |r.ids| == |r1.ids| && 0 <= at < |r.ids| && 0 <= c < |r.ids|
    requires r1.ids[at] != UNVISITED && r1.ids[c] != UNVISITED && c in adj[at]
    requires Tarjan(s, r1, path + [at]) && Progress(s, r0, r1, at) && Active(r1, path)
    requires LowVia(r0, r1, at, c) && Kept(r0, r, r1, at)
    ensures var r' := if r1.onStack[c] then Lowered(r1, at, c) else r1;
      && Tarjan(s, r', path + [at]) && Progress(s, r0, r', at) && LowBelow(r0, r', at) && Active(r', path)
      && EdgeDone(r0, r', at, c) && Kept(r0, r, r', at)
  {
    assert (s.vertices[at], s.vertices[c]) in s.edges;
    if r1.onStack[c] {
      LowerOk(s, r1, path + [at], at, c);
      LowerStep(s, r0, r1, at, c);
      KeptTrans(r0, r, r1, Lowered(r1, at, c), at);
    } else {
      SkipStep(r0, r1, at, c);
    }
  }

  // ---------------------------------------------------------------------------------------
  // The sweep of start: one call from each vertex still unvisited
  // ---------------------------------------------------------------------------------------

  ghost predicate NoneVisited(r: Run) {
    forall i | 0 <= i < |r.ids| :: r.ids[i] == UNVISITED
  }

  ghost predicate AllVisited(r: Run) {
    forall i | 0 <= i < |r.ids| :: r.ids[i] != UNVISITED
  }

  /** Every edge out of a visited vertex leads to a visited vertex. */
  ghost predicate EdgeClosed(s: GraphState, r: Run)
    requires |r.ids| == |s.vertices|
  {
    forall u, j | 0 <= u < |r.ids| && 0 <= j < |r.ids| && r.ids[u] != UNVISITED && (s.vertices[u], s.vertices[j]) in s.edges ::
      r.ids[j] != UNVISITED
  }

  /** Every visited vertex reaches `root` and is reached from it. */
  ghost predicate Hub(s: GraphState, r: Run, root: int)
    requires |r.ids| == |s.vertices|
  {
    && 0 <= root < |r.ids|
    && forall x | 0 <= x < |r.ids| && r.ids[x] != UNVISITED ::
         Reaches(s, s.vertices[x], s.vertices[root]) && Reaches(s, s.vertices[root], s.vertices[x])
  }

  /** In a strongly connected graph, a visited set closed under edges is everything. */
  lemma ClosedAll(s: GraphState, r: Run, at: int)
    requires Distinct(s.vertices) && EdgesOn(s) && StronglyConnected(s) && |r.ids| == |s.vertices| && EdgeClosed(s, r)
    requires 0 <= at < |r.ids| && r.ids[at] != UNVISITED
    ensures AllVisited(r)
  {
    var n := |s.vertices|;
    var inside := set x | 0 <= x < n && r.ids[x] != UNVISITED :: s.vertices[x];
    forall x | 0 <= x < n
      ensures r.ids[x] != UNVISITED
    {
      if r.ids[x] == UNVISITED {
        assert s.vertices[x] !in inside;
        assert s.vertices[at] in s.vertices && s.vertices[x] in s.vertices;
        assert Reaches(s, s.vertices[at], s.vertices[x]);
        var p :| PathFromTo(s, p, s.vertices[at], s.vertices[x]);
        var i := Crossing(s, p, inside);
        assert false;
      }
    }
  }

  /** Every vertex reaching and reached from one hub: the graph is strongly connected. */
  lemma HubConnected(s: GraphState, r: Run, root: int)
    requires |r.ids| == |s.vertices| && AllVisited(r) && Hub(s, r, root)
    ensures StronglyConnected(s)
  {
    forall a, b | a in s.vertices && b in s.vertices
      ensures Reaches(s, a, b)
    {
      var i := StrongIndex(s, a);
      var j := StrongIndex(s, b);
      ReachesTrans(s, a, s.vertices[root], b);
    }
  }

  /** A complete graph is strongly connected. */
  lemma CompleteConnected(s: GraphState)
    requires Complete(s)
    ensures StronglyConnected(s)
  {
    forall a, b | a in s.vertices && b in s.vertices
      ensures Reaches(s, a, b)
    {
      if a == b {
        ReachesSelf(s, a);
      } else {
        SingleEdge(s, a, b);
        assert PathFromTo(s, [a, b], a, b);
      }
    }
  }

  /** A graph that is not strongly connected has room for another edge. */
  lemma DisconnectedUnfilled(s: GraphState)
    requires ValidState(s) && Loopless(s) && !StronglyConnected(s)
    ensures NumEdges(s) < MaxEdges(s)
  {
    EdgeCountBound(s);
    if Complete(s) {
      CompleteConnected(s);
    }
  }

  /**
   * One top-level call of the sweep, from an empty stack: it leaves the stack empty, closes at
   * least one component and keeps the visited set closed under edges; the first call closes
   * exactly one component exactly when everything it visited reaches its root and back, and
   * in a strongly connected graph the first call visits everything.
   */
  lemma SweepStep(s: GraphState, r0: Run, r: Run, at: int)
    requires Distinct(s.vertices) && EdgesOn(s)
    requires Tarjan(s, r0, []) && r0.stack == [] && EdgeClosed(s, r0) && (NoneVisited(r0) ==> r0.sccCount == 0)
    requires Visited(s, r0, r, at)
    ensures r.stack == [] && r.sccCount > r0.sccCount && EdgeClosed(s, r)
    ensures NoneVisited(r0) && r.sccCount == 1 ==> Hub(s, r, at)
    ensures NoneVisited(r0) && StronglyConnected(s) ==> r.sccCount == 1 && AllVisited(r)
  {
    forall u, j | 0 <= u < |r.ids| && 0 <= j < |r.ids| && r.ids[u] != UNVISITED && (s.vertices[u], s.vertices[j]) in s.edges
      ensures r.ids[j] != UNVISITED
    {
      if IsNew(r0, r, u) {
        assert Processed(s, r0, r, u);
        assert EdgeDone(r0, r, u, j);
      }
    }
    if NoneVisited(r0) {
      if r.sccCount == 1 {
        assert forall x | 0 <= x < |r.ids| && r.ids[x] != UNVISITED :: IsNew(r0, r, x);
      }
      if StronglyConnected(s) {
        ClosedAll(s, r, at);
      }
    }
  }

  /**
   * The state of the sweep of start after the first `i` vertices of the vertex list: the
   * stack is empty, those vertices are visited, and the count so far says whether the graph
   * is strongly connected as far as the first search from vertex 0 can tell.
   */
  ghost predicate Swept(s: GraphState, adj: Adjacency, r: Run, i: int) {
    && Fits(adj, r) && Tarjan(s, r, []) && r.stack == [] && EdgeClosed(s, r) && 0 <= i <= |r.ids|
    && (forall j | 0 <= j < i :: r.ids[j] != UNVISITED)
    && (NoneVisited(r) ==> r.sccCount == 0)
    && (i == 0 ==> NoneVisited(r))
    && (i > 0 ==> r.sccCount >= 1)
    && (i > 0 && r.sccCount == 1 ==> Hub(s, r, 0))
    && (i > 0 && StronglyConnected(s) ==> r.sccCount == 1 && AllVisited(r))
  }

  /** The sweep starts from the run init leaves. */
  lemma SweepStart(s: GraphState, adj: Adjacency)
    requires |adj| == |s.vertices|
    ensures Swept(s, adj, Fresh(|s.vertices|), 0)
  {
    FreshOk(s, adj);
  }

  /** What one top-level search from an unvisited `at` does to the sweep state. */
  lemma TopSearch(s: GraphState, adj: Adjacency, r: Run, r': Run, at: int)
    requires Sound(s, adj) && Fits(adj, r) && Tarjan(s, r, []) && r.stack == [] && EdgeClosed(s, r)
    requires NoneVisited(r) ==> r.sccCount == 0
    requires 0 <= at < |r.ids| && r.ids[at] == UNVISITED && r' == VisitRun(adj, r, at)
    ensures Fits(adj, r') && Tarjan(s, r', []) && r'.stack == [] && EdgeClosed(s, r')
    ensures r'.sccCount > r.sccCount && r'.ids[at] != UNVISITED && Unvisited(r') <= Unvisited(r)
    ensures NoneVisited(r) && r'.sccCount == 1 ==> Hub(s, r', at)
    ensures NoneVisited(r) && StronglyConnected(s) ==> r'.sccCount == 1 && AllVisited(r')
  {
    VisitOk(s, adj, r, [], at);
    SweepStep(s, r, r', at);
  }

  /** A vertex whose turn comes while it is unvisited: the search from it keeps the sweep state. */
  lemma SweepVisit(s: GraphState, adj: Adjacency, r: Run, r': Run, i: int)
    requires Sound(s, adj) && Swept(s, adj, r, i) && i < |r.ids| && r.ids[i] == UNVISITED
    requires r' == VisitRun(adj, r, i)
    ensures Swept(s, adj, r', i + 1)
  {
    TopSearch(s, adj, r, r', i);
    VisitedPrefix(r, r', i);
    assert !NoneVisited(r');
    if i > 0 {
      assert !AllVisited(r);
      assert !StronglyConnected(s) && r'.sccCount > 1;
    }
  }

  /** The vertices before `i` stay visited, and `i` is now visited too. */
  lemma VisitedPrefix(r: Run, r': Run, i: int)
    requires 0 <= i < |r.ids| == |r'.ids| && Unvisited(r') <= Unvisited(r) && r'.ids[i] != UNVISITED
    requires forall j | 0 <= j < i :: r.ids[j] != UNVISITED
    ensures forall j | 0 <= j < i + 1 :: r'.ids[j] != UNVISITED
  {
    forall j | 0 <= j < i + 1
      ensures r'.ids[j] != UNVISITED
    {
      if j < i {
        assert j !in Unvisited(r);
      }
    }
  }

  /** A vertex already visited when its turn comes: nothing happens. */
  lemma SweepSkip(s: GraphState, adj: Adjacency, r: Run, i: int)
    requires Swept(s, adj, r, i) && i < |r.ids| && r.ids[i] != UNVISITED
    ensures Swept(s, adj, r, i + 1)
  {
  }

  /** After the whole vertex list, sccCount is one exactly when the graph is strongly connected. */
  lemma SweepDone(s: GraphState, adj: Adjacency, r: Run)
    requires Swept(s, adj, r, |s.vertices|) && |r.ids| == |s.vertices|
    ensures r.sccCount == 1 <==> |s.vertices| > 0 && StronglyConnected(s)
  {
    if |s.vertices| > 0 && r.sccCount == 1 {
      HubConnected(s, r, 0);
    }
  }

  /** FollowRun in terms of the run after the optional recursive search. */
  lemma FollowRunIs(adj: Adjacency, r: Run, at: int, c: int, r1: Run)
    requires Fits(adj, r) && 0 <= at < |r.ids| && 0 <= c < |r.ids| && r.ids[at] != UNVISITED
    requires r1 == if r.ids[c] == UNVISITED then VisitRun(adj, r, c) else r
    ensures |r1.ids| == |r.ids| && |r1.onStack| == |r.ids|
    ensures FollowRun(adj, r, at, c) == if r1.onStack[c] then Lowered(r1, at, c) else r1
  {
  }

  /** The run state init leaves: every vertex unvisited, off the stack, with low-link 0. */
  ghost function Fresh(n: nat): Run {
    Run(seq(n, _ => UNVISITED), seq(n, _ => 0), seq(n, _ => false), [], 0, 0, [])
  }

  /** A fresh run satisfies the invariant, with nothing visited and nothing counted. */
  lemma FreshOk(s: GraphState, adj: Adjacency)
    requires |adj| == |s.vertices|
    ensures var r := Fresh(|s.vertices|);
      Fits(adj, r) && Tarjan(s, r, []) && r.stack == [] && EdgeClosed(s, r) && NoneVisited(r) && r.sccCount == 0
  {
  }

  /** A set inside another with one of its members left out is smaller. */
  lemma Smaller(a: set<int>, b: set<int>, x: int)
    requires a <= b - {x} && x in b
    ensures a < b
  {
  }

  // ---------------------------------------------------------------------------------------
  // The search
  // ---------------------------------------------------------------------------------------

  /** setRef: number the vertices 0 to n - 1 in the order of the vertex list. */
  method SetRef(vertices: seq<Label>) returns (ref: map<Label, int>)
    requires Distinct(vertices)
    ensures forall i | 0 <= i < |vertices| :: vertices[i] in ref && ref[vertices[i]] == i
    ensures forall x | x in ref :: x in vertices
  {
    ref := map[];
    var list := vertices;
    var count := 0;
    while list != []
      invariant 0 <= count <= |vertices| && list == vertices[count..]
      invariant forall i | 0 <= i < count :: vertices[i] in ref && ref[vertices[i]] == i
      invariant forall x | x in ref :: x in vertices[..count]
    {
      assert vertices[..count + 1] == vertices[..count] + [list[0]];
      ref := ref[list[0] := count];
      list := list[1..];
      count := count + 1;
    }
  }

  /**
   * The static fields of the Java class except the numbering ref, which is passed along: the
   * arrays ids, low and onStack, the stack of vertex indices (top first), and the counters id
   * and sccCount; `order` lists the vertices in the order they were numbered. The arrays are
   * allocated once for the n vertices of the graph, and init refills them.
   */
  class StrongConnectivity {
    const ids: array<int>
    const low: array<int>
    const onStack: array<bool>
    var stack: seq<int>
    var id: int
    var sccCount: int
    ghost var order: seq<int>

    /** The three arrays are different objects of one length. */
    ghost predicate Arrays() {
      ids != low && ids.Length == low.Length == onStack.Length
    }

    /** The run state the fields hold. */
    ghost function Current(): Run
      reads this, ids, low, onStack
    {
      Run(ids[..], low[..], onStack[..], stack, id, sccCount, order)
    }

    /** Arrays for `n` vertices. */
    constructor(n: nat)
      ensures Arrays() && ids.Length == n
      ensures fresh(ids) && fresh(low) && fresh(onStack)
    {
      ids := new int[n];
      low := new int[n];
      onStack := new bool[n];
      stack := [];
      id := 0;
      sccCount := 0;
      order := [];
    }

    /**
     * init: id = 0, ids all UNVISITED, low all 0 and onStack all false (as in a new array),
     * an empty stack and sccCount = 0.
     */
    method Init()
      requires Arrays()
      modifies this`stack, this`id, this`sccCount, this`order, ids, low, onStack
      ensures Current() == Fresh(ids.Length)
    {
      id := 0;
      stack := [];
      // Arrays.fill(ids, UNVISITED), and the zeroed low and onStack of new arrays
      for i := 0 to ids.Length
        modifies ids, low, onStack
        invariant forall k | 0 <= k < i :: ids[k] == UNVISITED && low[k] == 0 && !onStack[k]
      {
        ids[i] := UNVISITED;
        low[i] := 0;
        onStack[i] := false;
      }
      sccCount := 0;
      order := [];
      assert ids[..] == seq(ids.Length, _ => UNVISITED);
      assert low[..] == seq(ids.Length, _ => 0);
      assert onStack[..] == seq(ids.Length, _ => false);
    }

    /** Entering checkStronglyConnected: push `at`, mark it on the stack, ids[at] = low[at] = id++. */
    method Push(at: int)
      requires Arrays() && 0 <= at < ids.Length
      modifies this`stack, this`id, this`order, ids, low, onStack
      ensures Arrays() && Current() == Entered(old(Current()), at)
    {
      stack := [at] + stack;
      onStack[at] := true;
      ids[at] := id;
      low[at] := id;
      id := id + 1;
      order := order + [at];
    }

    /** low[at] = min(low[at], low[c]). */
    method Lower(at: int, c: int)
      requires Arrays() && 0 <= at < ids.Length && 0 <= c < ids.Length
      modifies low
      ensures Current() == Lowered(old(Current()), at, c)
    {
      low[at] := if low[at] <= low[c] then low[at] else low[c];
    }

    /**
     * The exit of checkStronglyConnected when ids[at] == low[at]: pop down to and including
     * `at`, each popped vertex going off the stack with low-link ids[at], then sccCount++.
     */
    method CloseComponent(at: int)
      requires Arrays() && StackIn(Current()) && 0 <= at < ids.Length && at in stack
      modifies this`stack, this`sccCount, low, onStack
      ensures Arrays() && Current() == CloseScc(old(Current()), at)
    {
      ghost var r0 := Current();
      var v := ids[at];
      while true
        invariant Arrays() && StackIn(Current()) && at in stack && ids[at] == v
        invariant Current().(sccCount := r0.sccCount) == Current() && PopUntil(Current(), at, v) == PopUntil(r0, at, v)
        decreases |stack|
      {
        ghost var r := Current();
        var node := stack[0];
        stack := stack[1..];
        onStack[node] := false;
        low[node] := v;
        assert Current() == PopOne(r, v);
        if node == at {
          break;
        }
        PopOneIn(r, v);
        assert at in r.stack[1..];
      }
      sccCount := sccCount + 1;
    }

    /**
     * checkStronglyConnected(v): number `v` and push it, follow each of its outgoing edges, and
     * close the component rooted at `v` if its low-link is its own id.
     */
    method CheckStronglyConnected(s: GraphState, ref: map<Label, int>, ghost adj: Adjacency, v: Label)
      requires ValidState(s) && RefOf(s, ref) && Links(s, ref, adj)
      requires Arrays() && Fits(adj, Current()) && v in ref && 0 <= ref[v] < ids.Length && ids[ref[v]] == UNVISITED
      modifies this`stack, this`id, this`order, this`sccCount, ids, low, onStack
      ensures Current() == VisitRun(adj, old(Current()), ref[v])
      decreases Unvisited(Current()), 2
    {
      ghost var r0 := Current();
      var at := ref[v];
      Push(at);
      EnterFits(adj, r0, at);
      ExploreShrinks(adj, r0, at, Current());
      Explore(s, ref, adj, v);
      ghost var r2 := Current();
      VisitRunIs(adj, r0, at, r2);
      if ids[at] == low[at] {
        CloseComponent(at);
      }
    }

    /**
     * The loop of checkStronglyConnected over the outgoing edges of `v`, in the order
     * outgoingEdges lists them: follow the edge to the vertex opposite `v`.
     */
    method Explore(s: GraphState, ref: map<Label, int>, ghost adj: Adjacency, v: Label)
      requires ValidState(s) && RefOf(s, ref) && Links(s, ref, adj) && v in ref && 0 <= ref[v] < |adj|
      requires Arrays() && Fits(adj, Current()) && Current().ids[ref[v]] != UNVISITED
      modifies this`stack, this`id, this`order, this`sccCount, ids, low, onStack
      ensures Current() == ExploreRun(adj, old(Current()), ref[v], adj[ref[v]][..|adj[ref[v]]|])
      decreases Unvisited(Current()) + {ref[v]}, 1
    {
      ghost var r1 := Current();
      EdgeTargets(s, ref, adj, v);
      var at := ref[v];
      var es := OutgoingEdges(s, v).value;
      ghost var cs := adj[at];
      assert Within(adj, cs) && |cs| == |es|;
      for k := 0 to |es|
        invariant Within(adj, cs[..k])
        invariant Current() == ExploreRun(adj, r1, at, cs[..k])
      {
        // opposite(startVertex, edge): the target of the edge
        var y := Opposite(s, v, es[k]).value;
        ShrinksOrStays(Unvisited(Current()) + {at}, Unvisited(r1) + {at});
        ExploreRunNext(adj, r1, at, cs, k);
        Follow(s, ref, adj, at, y);
      }
    }

    /**
     * The body of the loop of checkStronglyConnected for an edge at->y: search from `y` if it
     * is unvisited, then, if `y` is on the stack, low[at] = min(low[at], low[y]).
     */
    method Follow(s: GraphState, ref: map<Label, int>, ghost adj: Adjacency, at: int, y: Label)
      requires ValidState(s) && RefOf(s, ref) && Links(s, ref, adj)
      requires Arrays() && Fits(adj, Current()) && 0 <= at < |adj| && Current().ids[at] != UNVISITED
      requires y in ref && 0 <= ref[y] < |adj|
      modifies this`stack, this`id, this`order, this`sccCount, ids, low, onStack
      ensures Arrays() && Current() == FollowRun(adj, old(Current()), at, ref[y])
      decreases Unvisited(Current()) + {at}, 0
    {
      ghost var r := Current();
      var c := ref[y];
      if ids[c] == UNVISITED {
        Smaller(Unvisited(r), Unvisited(r) + {at}, at);
        ghost var arrays := (ids, low, onStack);
        CheckStronglyConnected(s, ref, adj, y);
        assert (ids, low, onStack) == arrays;
      }
      ghost var r1 := Current();
      assert r1 == if r.ids[c] == UNVISITED then VisitRun(adj, r, c) else r;
      FollowRunIs(adj, r, at, c, r1);
      if onStack[c] {
        Lower(at, c);
      }
    }

    /**
     * The inner loop of start: init, then checkStronglyConnected from each vertex of the
     * vertex list that is still unvisited when its turn comes. Afterwards sccCount is one
     * exactly when the graph has a vertex and is strongly connected.
     */
    method Sweep(s: GraphState, ref: map<Label, int>)
      requires ValidState(s) && RefOf(s, ref) && Arrays() && ids.Length == |s.vertices|
      modifies this`stack, this`id, this`order, this`sccCount, ids, low, onStack
      ensures sccCount == 1 <==> |s.vertices| > 0 && StronglyConnected(s)
    {
      ghost var adj := NumberedAdjacency(s, ref);
      Init();
      SweepStart(s, adj);
      var list := s.vertices;
      ghost var i := 0;
      while list != []
        invariant 0 <= i <= |s.vertices| && list == s.vertices[i..]
        invariant Swept(s, adj, Current(), i)
      {
        var obj := list[0];
        list := list[1..];
        SweepOne(s, ref, adj, obj, i);
        i := i + 1;
      }
      SweepDone(s, adj, Current());
    }

    /** One turn of the sweep: search from the i-th vertex when it is still unvisited. */
    method SweepOne(s: GraphState, ref: map<Label, int>, ghost adj: Adjacency, obj: Label, ghost i: int)
      requires ValidState(s) && RefOf(s, ref) && Links(s, ref, adj) && Sound(s, adj) && Arrays()
      requires 0 <= i < |s.vertices| && obj == s.vertices[i] && Swept(s, adj, Current(), i)
      modifies this`stack, this`id, this`order, this`sccCount, ids, low, onStack
      ensures Swept(s, adj, Current(), i + 1)
    {
      if ids[ref[obj]] == UNVISITED {
        ghost var r0 := Current();
        CheckStronglyConnected(s, ref, adj, obj);
        SweepVisit(s, adj, r0, Current(), i);
      } else {
        SweepSkip(s, adj, Current(), i);
      }
    }

    /**
     * start: number the vertices once, then sweep; while the sweep counts other than one
     * component, add a random edge of weight 1 to 20 and sweep again. The random weight is a
     * nondeterministic choice, and so are the endpoints generateRandomEdge draws. The loop
     * ends because every added edge is new and a complete graph is strongly connected.
     */
    method Start(g: AdjacencyMapDigraph) returns (generated: seq<Generation>)
      requires g.Valid() && Loopless(g.State()) && |g.vertices| >= 1
      requires Arrays() && ids.Length == |g.vertices|
      modifies this, ids, low, onStack, g
      ensures g.Valid() && Loopless(g.State()) && StronglyConnected(g.State())
      ensures Grew(old(g.State()), g.State(), |generated|) && Logged(old(g.State()), g.State(), generated)
      ensures generated == [] <==> StronglyConnected(old(g.State()))
      ensures generated == [] ==> g.State() == old(g.State())
    {
      ghost var initial := g.State();
      var ref := SetRef(g.vertices);
      generated := [];
      var connected := false;
      while !connected
        invariant Grown(initial, g.State(), generated) && RefOf(initial, ref)
        invariant connected ==> StronglyConnected(g.State())
        invariant generated != [] ==> !StronglyConnected(initial)
        decreases if connected then 0 else 1, MaxEdges(g.State()) - NumEdges(g.State())
      {
        var s0 := g.State();
        assert RefOf(s0, ref) by { RefOfSame(initial, s0, ref); }
        Sweep(s0, ref);
        connected := sccCount == 1;
        if !connected {
          assert NumEdges(s0) < MaxEdges(s0) by { DisconnectedUnfilled(s0); }
          generated := AddRandomEdge(g, initial, s0, generated);
          assert Grown(initial, g.State(), generated);
        } else {
          assert Grown(initial, g.State(), generated);
        }
      }
    }
  }
}
