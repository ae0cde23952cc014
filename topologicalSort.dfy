/**
 * The topological sort simulator: a depth-first search over a fixed graph
 * whose every call spends one unit of a step budget. The nodes A .. H are
 * numbered 0 .. 7; `visited` keeps insertion order (as a JavaScript Set
 * iterates), finished nodes are put at the front of `stack`, and
 * `processing` holds the calls entered and not yet finished.
 */
module TopologicalSort {
  import opened Wrappers
  import opened Text

  /** A: [C, D], B: [D], C: [E], D: [F], E: [F, H], F: [G], G: [], H: []. */
  const Graph: seq<seq<nat>> := [[2, 3], [3], [4], [5], [5, 7], [6], [], []]

  const Names: seq<string> := ["A", "B", "C", "D", "E", "F", "G", "H"]

  /** Every neighbour names a node of the graph. */
  predicate WellFormed(g: seq<seq<nat>>)
  {
    forall u, k :: 0 <= u < |g| && 0 <= k < |g[u]| ==> g[u][k] < |g|
  }

  /** `Object.keys(graph)`: the nodes in their declared order. */
  function Nodes(n: nat): (r: seq<nat>)
    ensures |r| == n && forall i :: 0 <= i < n ==> r[i] == i
  {
    seq(n, i requires 0 <= i < n => i)
  }

  /** The closure's state: the visited set, the stack, the processing path, currentNode and stepCount. */
  datatype St = St(visited: seq<nat>, stack: seq<nat>, processing: seq<nat>, current: Option<nat>, count: nat)

  const Empty: St := St([], [], [], None, 0)

  /** `processing.pop()`, which leaves an empty array empty. */
  function Pop(p: seq<nat>): seq<nat>
  {
    if p == [] then [] else p[..|p| - 1]
  }

  /** `dfs(node, …, maxSteps)`: the new state and whether the budget lasted. */
  function DfsCall(g: seq<seq<nat>>, st: St, node: nat, max: nat): (r: (St, bool))
    requires WellFormed(g) && node < |g| && st.count <= max
    ensures st.count <= r.0.count <= max
    decreases max - st.count, 0, 0
  {
    if st.count >= max then (st, false)
    else
      var entered := st.(count := st.count + 1, processing := st.processing + [node]);
      if node in st.visited then (entered.(processing := Pop(entered.processing)), true)
      else
        var r := Neighbors(g, entered.(visited := st.visited + [node]), g[node], max);
        if !r.1 then r
        else (r.0.(stack := [node] + r.0.stack, processing := Pop(r.0.processing)), true)
  }

  /** The loop over `graph[node]`: unvisited neighbours are searched in order until one runs out. */
  function Neighbors(g: seq<seq<nat>>, st: St, ns: seq<nat>, max: nat): (r: (St, bool))
    requires WellFormed(g) && (forall k :: 0 <= k < |ns| ==> ns[k] < |g|) && st.count <= max
    ensures st.count <= r.0.count <= max
    decreases max - st.count, 1, |ns|
  {
    if ns == [] then (st, true)
    else if ns[0] in st.visited then Neighbors(g, st, ns[1..], max)
    else
      var r := DfsCall(g, st.(current := Some(ns[0])), ns[0], max);
      if !r.1 then r else Neighbors(g, r.0, ns[1..], max)
  }

  /** The outer loop over the nodes, stopping at the first search that runs out. */
  function Outer(g: seq<seq<nat>>, st: St, nodes: seq<nat>, step: nat): (r: St)
    requires WellFormed(g) && (forall k :: 0 <= k < |nodes| ==> nodes[k] < |g|) && st.count <= step
    ensures st.count <= r.count <= step
    decreases |nodes|
  {
    if nodes == [] then st
    else if nodes[0] !in st.visited && st.count < step then
      var r := DfsCall(g, st.(current := Some(nodes[0])), nodes[0], step);
      if !r.1 then r.0 else Outer(g, r.0, nodes[1..], step)
    else Outer(g, st, nodes[1..], step)
  }

  function Run(g: seq<seq<nat>>, step: nat): St
    requires WellFormed(g)
  {
    Outer(g, Empty, Nodes(|g|), step)
  }

  datatype Desc =
    | Initial
    | Processed(visited: seq<nat>)
    | Complete(order: seq<nat>)
    | Processing(node: nat)
    | Blank

  /** What a step shows: node colours come from processing (first) and visited; the order boxes from the stack. */
  datatype Frame = Frame(visited: seq<nat>, stack: seq<nat>, processing: seq<nat>, desc: Desc)

  function DescOf(g: seq<seq<nat>>, st: St, step: nat): Desc
  {
    if st.count < step then Blank
    else if |st.stack| == |g| then Complete(st.stack)
    else if st.processing != [] then Processing(st.processing[|st.processing| - 1])
    else Processed(st.visited)
  }

  function FrameOn(g: seq<seq<nat>>, step: nat): Frame
    requires WellFormed(g)
  {
    if step == 0 then Frame([], [], [], Initial)
    else
      var st := Run(g, step);
      Frame(st.visited, st.stack, st.processing, DescOf(g, st, step))
  }

  lemma GraphWellFormed()
    ensures WellFormed(Graph)
  {
  }

  function FrameAt(step: nat): Frame
  {
    GraphWellFormed();
    FrameOn(Graph, step)
  }

  function Name(n: nat): string
  {
    if n < |Names| then Names[n] else ""
  }

  function NamesOf(s: seq<nat>): (r: seq<string>)
    ensures |r| == |s| && forall i :: 0 <= i < |s| ==> r[i] == Name(s[i])
  {
    seq(|s|, i requires 0 <= i < |s| => Name(s[i]))
  }

  function Describe(d: Desc): string
  {
    match d
    case Initial => "Initial graph, topological sort starts with DFS"
    case Processed(v) => "Processed nodes: " + JoinStrings(NamesOf(v), ", ")
    case Complete(o) => "Topological sort complete: " + JoinStrings(NamesOf(o), " → ")
    case Processing(n) => "Processing node: " + Name(n)
    case Blank => ""
  }

  /** The closure variables of one run, updated in place by the recursive search. */
  class Search {
    var visited: seq<nat>
    var stack: seq<nat>
    var processing: seq<nat>
    var currentNode: Option<nat>
    var stepCount: nat

    function State(): St
      reads this
    {
      St(visited, stack, processing, currentNode, stepCount)
    }

    constructor ()
      ensures State() == Empty
    {
      visited, stack, processing, currentNode, stepCount := [], [], [], None, 0;
    }

    method Dfs(node: nat, maxSteps: nat) returns (ok: bool)
      requires node < |Graph| && stepCount <= maxSteps
      modifies this
      ensures (State(), ok) == DfsCall(Graph, old(State()), node, maxSteps)
      decreases maxSteps - stepCount, 0
    {
      GraphWellFormed();
      if stepCount >= maxSteps {
        return false;
      }
      ghost var st0 := State();
      stepCount := stepCount + 1;
      processing := processing + [node];
      if node in visited {
        processing := Pop(processing);
        return true;
      }
      visited := visited + [node];
      ghost var entered := State();
      assert entered == st0.(count := st0.count + 1, processing := st0.processing + [node], visited := st0.visited + [node]);
      var finished := VisitNeighbors(Graph[node], maxSteps);
      if !finished {
        return false;
      }
      assert Neighbors(Graph, entered, Graph[node], maxSteps) == (State(), true);
      assert DfsCall(Graph, st0, node, maxSteps) ==
        (State().(stack := [node] + stack, processing := Pop(processing)), true);
      stack := [node] + stack;
      processing := Pop(processing);
      return true;
    }

    /** The loop over the neighbours of the node just entered. */
    method VisitNeighbors(neighbors: seq<nat>, maxSteps: nat) returns (ok: bool)
      requires (forall k :: 0 <= k < |neighbors| ==> neighbors[k] < |Graph|) && stepCount <= maxSteps
      modifies this
      ensures (State(), ok) == Neighbors(Graph, old(State()), neighbors, maxSteps)
      decreases maxSteps - stepCount, 1
    {
      GraphWellFormed();
      ghost var entered := State();
      for i := 0 to |neighbors|
        invariant entered.count <= stepCount <= maxSteps
        invariant Neighbors(Graph, entered, neighbors, maxSteps) == Neighbors(Graph, State(), neighbors[i..], maxSteps)
      {
        var neighbor := neighbors[i];
        assert neighbors[i..][1..] == neighbors[i + 1..];
        if neighbor !in visited {
          currentNode := Some(neighbor);
          var found := Dfs(neighbor, maxSteps);
          if !found {
            assert Neighbors(Graph, entered, neighbors, maxSteps) == (State(), false);
            return false;
          }
        }
      }
      return true;
    }
  }

  method Animate(step: nat) returns (f: Frame)
    ensures f == FrameAt(step)
  {
    GraphWellFormed();
    if step == 0 {
      return Frame([], [], [], Initial);
    }
    var search := new Search();
    var nodes := Nodes(|Graph|);
    for i := 0 to |nodes|
      invariant search.stepCount <= step
      invariant Run(Graph, step) == Outer(Graph, search.State(), nodes[i..], step)
    {
      var node := nodes[i];
      assert nodes[i..][1..] == nodes[i + 1..];
      if node !in search.visited && search.stepCount < step {
        search.currentNode := Some(node);
        var finished := search.Dfs(node, step);
        if !finished {
          assert Run(Graph, step) == search.State();
          break;
        }
      }
    }
    assert Run(Graph, step) == search.State();
    var st := search.State();
    f := Frame(st.visited, st.stack, st.processing, DescOf(Graph, st, step));
  }

  // ---------------------------------------------------------------------
  // The search invariant, for any graph that has a rank strictly increasing
  // along its edges (a graph without cycles, as the sample is).

  /** `rank` numbers the nodes so that every edge climbs. */
  predicate Ranked(g: seq<seq<nat>>, rank: seq<nat>)
  {
    |rank| == |g| &&
    forall u, k :: 0 <= u < |g| && 0 <= k < |g[u]| && g[u][k] < |g| ==> rank[u] < rank[g[u][k]]
  }

  predicate Distinct(s: seq<nat>)
  {
    forall i, j :: 0 <= i < j < |s| ==> s[i] != s[j]
  }

  predicate Below(s: seq<nat>, n: nat)
  {
    forall i :: 0 <= i < |s| ==> s[i] < n
  }

  function Last(p: seq<nat>): nat
    requires p != []
  {
    p[|p| - 1]
  }

  /** Every neighbour of a node on the stack sits further along the stack. */
  predicate Ordered(g: seq<seq<nat>>, s: seq<nat>)
  {
    forall i, k :: 0 <= i < |s| && s[i] < |g| && 0 <= k < |g[s[i]]| ==> g[s[i]][k] in s[i + 1..]
  }

  /** Consecutive entries of the processing list are edges of the graph. */
  predicate Path(g: seq<seq<nat>>, p: seq<nat>)
  {
    forall i :: 0 < i < |p| && p[i - 1] < |g| ==> p[i] in g[p[i - 1]]
  }

  predicate Climbs(rank: seq<nat>, p: seq<nat>)
  {
    forall i, j :: 0 <= i < j < |p| && p[i] < |rank| && p[j] < |rank| ==> rank[p[i]] < rank[p[j]]
  }

  /**
   * One call per visited node; a visited node is finished (on the stack) or
   * entered and unfinished (on the processing path), never both; the stack is
   * ordered and the processing list is a path of the graph.
   */
  ghost predicate Inv(g: seq<seq<nat>>, rank: seq<nat>, st: St)
  {
    Distinct(st.visited) && Below(st.visited, |g|) && st.count == |st.visited| &&
    Distinct(st.stack) && Distinct(st.processing) && Below(st.stack, |g|) && Below(st.processing, |g|) &&
    (forall x :: x in st.visited <==> x in st.stack || x in st.processing) &&
    (forall x :: x in st.stack ==> x !in st.processing) &&
    Ordered(g, st.stack) && Path(g, st.processing) && Climbs(rank, st.processing)
  }

  predicate Sub(a: seq<nat>, b: seq<nat>)
  {
    forall x :: x in a ==> x in b
  }

  /** Entering an unvisited node that extends the processing path keeps the invariant. */
  lemma Enter(g: seq<seq<nat>>, rank: seq<nat>, st: St, node: nat)
    requires WellFormed(g) && Ranked(g, rank) && node < |g| && Inv(g, rank, st) && node !in st.visited
    requires st.processing == [] || (Last(st.processing) < |g| && node in g[Last(st.processing)])
    ensures Inv(g, rank, st.(count := st.count + 1, processing := st.processing + [node], visited := st.visited + [node]))
  {
    var p := st.processing;
    var q := p + [node];
    assert forall i :: 0 <= i < |p| ==> q[i] == p[i];
    if p != [] {
      var k :| 0 <= k < |g[Last(p)]| && g[Last(p)][k] == node;
      assert rank[Last(p)] < rank[node];
      assert forall i :: 0 <= i < |p| ==> rank[p[i]] <= rank[Last(p)];
    }
  }

  /** Prepending a node whose neighbours are all on the stack keeps the stack ordered. */
  lemma OrderedCons(g: seq<seq<nat>>, s: seq<nat>, node: nat)
    requires node < |g| && Ordered(g, s) && forall k :: 0 <= k < |g[node]| ==> g[node][k] in s
    ensures Ordered(g, [node] + s)
  {
    var t := [node] + s;
    assert t[1..] == s;
    forall i | 1 <= i < |t|
      ensures t[i] == s[i - 1] && t[i + 1..] == s[i..]
    {
    }
  }

  /** Finishing the last node of the path once all its neighbours are visited keeps the invariant. */
  lemma Finish(g: seq<seq<nat>>, rank: seq<nat>, st: St, node: nat)
    requires WellFormed(g) && Ranked(g, rank) && node < |g| && Inv(g, rank, st)
    requires st.processing != [] && Last(st.processing) == node
    requires forall k :: 0 <= k < |g[node]| ==> g[node][k] in st.visited
    ensures Inv(g, rank, st.(stack := [node] + st.stack, processing := Pop(st.processing)))
  {
    var p := st.processing;
    assert forall i :: 0 <= i < |p| && p[i] < |rank| ==> rank[p[i]] <= rank[node];
    assert forall k :: 0 <= k < |g[node]| ==> g[node][k] !in p;
    OrderedCons(g, st.stack, node);
    var q := Pop(p);
    assert q == p[..|p| - 1];
    assert forall x :: x in p <==> x in q || x == node;
    assert node !in q;
  }

  lemma {:induction false} DfsKeeps(g: seq<seq<nat>>, rank: seq<nat>, st: St, node: nat, max: nat)
    requires WellFormed(g) && Ranked(g, rank) && node < |g| && st.count <= max
    requires Inv(g, rank, st) && node !in st.visited
    requires st.processing == [] || (Last(st.processing) < |g| && node in g[Last(st.processing)])
    ensures var r := DfsCall(g, st, node, max);
      Inv(g, rank, r.0) && Sub(st.visited, r.0.visited) &&
      (r.1 ==> r.0.processing == st.processing && node in r.0.visited) &&
      (!r.1 ==> st.processing <= r.0.processing)
    decreases max - st.count, 0, 1, 0
  {
    if st.count < max {
      DfsEnters(g, rank, st, node, max);
    }
  }

  /** A call with budget left: enter, search the neighbours, and finish if they all finished. */
  lemma {:induction false} DfsEnters(g: seq<seq<nat>>, rank: seq<nat>, st: St, node: nat, max: nat)
    requires WellFormed(g) && Ranked(g, rank) && node < |g| && st.count < max
    requires Inv(g, rank, st) && node !in st.visited
    requires st.processing == [] || (Last(st.processing) < |g| && node in g[Last(st.processing)])
    ensures var r := DfsCall(g, st, node, max);
      Inv(g, rank, r.0) && Sub(st.visited, r.0.visited) &&
      (r.1 ==> r.0.processing == st.processing && node in r.0.visited) &&
      (!r.1 ==> st.processing <= r.0.processing)
    decreases max - st.count, 0, 0, 0
  {
    var entered := st.(count := st.count + 1, processing := st.processing + [node], visited := st.visited + [node]);
    Enter(g, rank, st, node);
    assert Last(entered.processing) == node;
    assert forall k :: 0 <= k < |g[node]| ==> g[node][k] in g[node];
    NeighborsKeeps(g, rank, entered, g[node], max);
    var r := Neighbors(g, entered, g[node], max);
    assert Sub(st.visited, r.0.visited) by {
      assert Sub(st.visited, entered.visited);
    }
    if r.1 {
      Finish(g, rank, r.0, node);
      assert Pop(entered.processing) == st.processing;
      var f := r.0.(stack := [node] + r.0.stack, processing := Pop(r.0.processing));
      assert DfsCall(g, st, node, max) == (f, true);
    } else {
      assert DfsCall(g, st, node, max) == r;
      assert st.processing <= entered.processing;
    }
  }

  lemma {:induction false} NeighborsKeeps(g: seq<seq<nat>>, rank: seq<nat>, st: St, ns: seq<nat>, max: nat)
    requires WellFormed(g) && Ranked(g, rank) && (forall k :: 0 <= k < |ns| ==> ns[k] < |g|) && st.count <= max
    requires Inv(g, rank, st) && st.processing != []
    requires Last(st.processing) < |g| && forall k :: 0 <= k < |ns| ==> ns[k] in g[Last(st.processing)]
    ensures var r := Neighbors(g, st, ns, max);
      Inv(g, rank, r.0) && Sub(st.visited, r.0.visited) &&
      (r.1 ==> r.0.processing == st.processing && forall k :: 0 <= k < |ns| ==> ns[k] in r.0.visited) &&
      (!r.1 ==> st.processing <= r.0.processing)
    decreases max - st.count, 1, |ns|, 1
  {
    if ns != [] {
      if ns[0] in st.visited {
        var rest := ns[1..];
        assert forall k :: 0 <= k < |rest| ==> rest[k] == ns[k + 1];
        NeighborsKeeps(g, rank, st, rest, max);
        assert Neighbors(g, st, ns, max) == Neighbors(g, st, rest, max);
      } else {
        NeighborsCallKeeps(g, rank, st, ns, max);
      }
    }
  }

  /** The neighbour loop at an unvisited neighbour: search it, and go on only if that search finished. */
  lemma {:induction false} NeighborsCallKeeps(g: seq<seq<nat>>, rank: seq<nat>, st: St, ns: seq<nat>, max: nat)
    requires WellFormed(g) && Ranked(g, rank) && (forall k :: 0 <= k < |ns| ==> ns[k] < |g|) && st.count <= max
    requires Inv(g, rank, st) && st.processing != []
    requires Last(st.processing) < |g| && forall k :: 0 <= k < |ns| ==> ns[k] in g[Last(st.processing)]
    requires ns != [] && ns[0] !in st.visited
    ensures var r := Neighbors(g, st, ns, max);
      Inv(g, rank, r.0) && Sub(st.visited, r.0.visited) &&
      (r.1 ==> r.0.processing == st.processing && forall k :: 0 <= k < |ns| ==> ns[k] in r.0.visited) &&
      (!r.1 ==> st.processing <= r.0.processing)
    decreases max - st.count, 1, |ns|, 0
  {
    var rest := ns[1..];
    assert forall k :: 0 <= k < |rest| ==> rest[k] == ns[k + 1];
    var called := st.(current := Some(ns[0]));
    DfsKeeps(g, rank, called, ns[0], max);
    var r := DfsCall(g, called, ns[0], max);
    if r.1 {
      NeighborsKeeps(g, rank, r.0, rest, max);
      assert Neighbors(g, st, ns, max) == Neighbors(g, r.0, rest, max);
      assert Sub(st.visited, Neighbors(g, r.0, rest, max).0.visited) by {
        assert Sub(st.visited, r.0.visited);
      }
    } else {
      assert Neighbors(g, st, ns, max) == r;
    }
  }

  lemma {:induction false} OuterKeeps(g: seq<seq<nat>>, rank: seq<nat>, st: St, nodes: seq<nat>, step: nat)
    requires WellFormed(g) && Ranked(g, rank) && (forall k :: 0 <= k < |nodes| ==> nodes[k] < |g|) && st.count <= step
    requires Inv(g, rank, st) && st.processing == []
    ensures Inv(g, rank, Outer(g, st, nodes, step))
    decreases |nodes|
  {
    if nodes != [] {
      var rest := nodes[1..];
      assert forall k :: 0 <= k < |rest| ==> rest[k] == nodes[k + 1];
      if nodes[0] !in st.visited && st.count < step {
        var called := st.(current := Some(nodes[0]));
        DfsKeeps(g, rank, called, nodes[0], step);
        var r := DfsCall(g, called, nodes[0], step);
        if r.1 {
          OuterKeeps(g, rank, r.0, rest, step);
        }
      } else {
        OuterKeeps(g, rank, st, rest, step);
      }
    }
  }

  lemma RunKeeps(g: seq<seq<nat>>, rank: seq<nat>, step: nat)
    requires WellFormed(g) && Ranked(g, rank)
    ensures Inv(g, rank, Run(g, step))
  {
    var nodes := Nodes(|g|);
    OuterKeeps(g, rank, Empty, nodes, step);
  }

  /** The nodes 0 .. n-1. */
  function Range(n: nat): (r: set<nat>)
    ensures |r| == n && forall x: int :: x in r <==> 0 <= x < n
  {
    if n == 0 then {} else
      var r := Range(n - 1);
      assert n - 1 !in r;
      r + {n - 1}
  }

  /** The set of a list's entries, as large as the list when it has no repetitions. */
  function SetOf(s: seq<nat>): (r: set<nat>)
    ensures forall x :: x in r <==> x in s
    ensures Distinct(s) ==> |r| == |s|
  {
    if s == [] then {} else
      var init := s[..|s| - 1];
      assert s == init + [s[|s| - 1]];
      assert Distinct(s) ==> Distinct(init) && s[|s| - 1] !in init;
      SetOf(init) + {s[|s| - 1]}
  }

  /** A list of distinct nodes of an n-node graph has at most n entries, and all of them when it has n. */
  lemma Pigeonhole(s: seq<nat>, n: nat)
    requires Distinct(s) && Below(s, n)
    ensures |s| <= n
    ensures |s| == n ==> forall x: nat :: x < n ==> x in s
  {
    var e := SetOf(s);
    var r := Range(n);
    assert r * e == e;
    assert |r - e| == n - |e|;
    assert |s| == n ==> r - e == {};
    forall x: nat | x < n && |s| == n
      ensures x in s
    {
      assert x in r;
      assert x !in r - e;
    }
  }

  /** `u` comes before `v` in `s`. */
  predicate Before(s: seq<nat>, u: nat, v: nat)
  {
    exists i, j :: 0 <= i < j < |s| && s[i] == u && s[j] == v
  }

  /**
   * Every search on a graph without cycles calls `dfs` at most once per node; a
   * stack holding all nodes puts every edge's source before its target.
   */
  lemma RunIsTopological(g: seq<seq<nat>>, rank: seq<nat>, step: nat)
    requires WellFormed(g) && Ranked(g, rank)
    ensures var st := Run(g, step);
      st.count <= |g| && st.count <= step &&
      (|st.stack| == |g| ==> forall u, k :: 0 <= u < |g| && 0 <= k < |g[u]| ==> Before(st.stack, u, g[u][k]))
  {
    var st := Run(g, step);
    RunKeeps(g, rank, step);
    Pigeonhole(st.visited, |g|);
    if |st.stack| == |g| {
      Pigeonhole(st.stack, |g|);
      forall u, k | 0 <= u < |g| && 0 <= k < |g[u]|
        ensures Before(st.stack, u, g[u][k])
      {
        assert u in st.stack;
        var i :| 0 <= i < |st.stack| && st.stack[i] == u;
        var v := g[u][k];
        assert g[st.stack[i]][k] in st.stack[i + 1..];
        var j :| 0 <= j < |st.stack[i + 1..]| && st.stack[i + 1..][j] == v;
        assert st.stack[i + 1 + j] == v;
      }
    }
  }

  /**
   * Whenever the budget runs out the processing list is exactly the visited
   * nodes not yet on the stack, each an edge away from the one before it.
   */
  lemma AbortedPath(g: seq<seq<nat>>, rank: seq<nat>, step: nat)
    requires WellFormed(g) && Ranked(g, rank)
    ensures var st := Run(g, step);
      (forall x :: x in st.processing <==> x in st.visited && x !in st.stack) &&
      (forall i :: 0 <= i < |st.processing| - 1 ==> st.processing[i] < |g| && st.processing[i + 1] in g[st.processing[i]])
  {
    RunKeeps(g, rank, step);
  }

  // ---------------------------------------------------------------------
  // The sample graph.

  const SampleRank: seq<nat> := [0, 0, 1, 1, 2, 3, 4, 3]

  lemma GraphRanked()
    ensures Ranked(Graph, SampleRank)
  {
  }

  /** On the sample graph every search stays within eight calls and a full stack is a topological order. */
  lemma SampleIsTopological(step: nat)
    ensures var st := Run(Graph, step);
      st.count <= 8 &&
      (|st.stack| == 8 ==> forall u, k :: 0 <= u < 8 && 0 <= k < |Graph[u]| ==> Before(st.stack, u, Graph[u][k]))
  {
    GraphWellFormed();
    GraphRanked();
    RunIsTopological(Graph, SampleRank, step);
  }

  /** Past nodes that are visited, or once the budget is spent, the outer loop changes nothing. */
  lemma {:induction false} OuterSkips(g: seq<seq<nat>>, st: St, nodes: seq<nat>, step: nat)
    requires WellFormed(g) && (forall k :: 0 <= k < |nodes| ==> nodes[k] < |g|) && st.count <= step
    requires forall k :: 0 <= k < |nodes| ==> nodes[k] in st.visited || st.count >= step
    ensures Outer(g, st, nodes, step) == st
    decreases |nodes|
  {
    if nodes != [] {
      var rest := nodes[1..];
      assert forall k :: 0 <= k < |rest| ==> rest[k] == nodes[k + 1];
      OuterSkips(g, st, rest, step);
    }
  }

  /** The state a call moves to when it enters an unvisited node. */
  function Entering(st: St, node: nat): (r: St)
    ensures r.visited == st.visited + [node] && r.processing == st.processing + [node]
    ensures r.stack == st.stack && r.count == st.count + 1
  {
    St(st.visited + [node], st.stack, st.processing + [node], st.current, st.count + 1)
  }

  /** The state a call leaves when its node is finished. */
  function Finishing(st: St, node: nat): (r: St)
    ensures r.stack == [node] + st.stack && r.processing == Pop(st.processing)
    ensures r.visited == st.visited && r.count == st.count
  {
    st.(stack := [node] + st.stack, processing := Pop(st.processing))
  }

  /** One call on an unvisited node within budget: enter it, search its neighbours, finish it if they finished. */
  lemma DfsUnfold(g: seq<seq<nat>>, st: St, node: nat, m: nat)
    requires WellFormed(g) && node < |g| && st.count < m && node !in st.visited
    ensures var r := Neighbors(g, Entering(st, node), g[node], m);
      DfsCall(g, st, node, m) == if r.1 then (Finishing(r.0, node), true) else r
  {
  }

  /** Neighbours that are all visited already leave the state alone. */
  lemma {:induction false} NeighborsVisited(g: seq<seq<nat>>, st: St, ns: seq<nat>, m: nat)
    requires WellFormed(g) && (forall k :: 0 <= k < |ns| ==> ns[k] < |g| && ns[k] in st.visited) && st.count <= m
    ensures Neighbors(g, st, ns, m) == (st, true)
    decreases |ns|
  {
    if ns != [] {
      var rest := ns[1..];
      assert forall k :: 0 <= k < |rest| ==> rest[k] == ns[k + 1];
      NeighborsVisited(g, st, rest, m);
    }
  }

  /** The first neighbour is unvisited: search it, and go on with the rest if it finished. */
  lemma NeighborsCall(g: seq<seq<nat>>, st: St, ns: seq<nat>, m: nat)
    requires WellFormed(g) && (forall k :: 0 <= k < |ns| ==> ns[k] < |g|) && st.count <= m
    requires ns != [] && ns[0] !in st.visited
    ensures var r := DfsCall(g, st.(current := Some(ns[0])), ns[0], m);
      Neighbors(g, st, ns, m) == if r.1 then Neighbors(g, r.0, ns[1..], m) else r
  {
  }

  /** The next node is unvisited and the budget lasts: search it, and go on if it finished. */
  lemma OuterCall(g: seq<seq<nat>>, st: St, nodes: seq<nat>, step: nat)
    requires WellFormed(g) && (forall k :: 0 <= k < |nodes| ==> nodes[k] < |g|) && st.count < step
    requires nodes != [] && nodes[0] !in st.visited
    ensures var r := DfsCall(g, st.(current := Some(nodes[0])), nodes[0], step);
      Outer(g, st, nodes, step) == if r.1 then Outer(g, r.0, nodes[1..], step) else r.0
  {
  }

  const EnteredA: St := St([0], [], [0], Some(0), 1)
  const AfterA: St := St([0, 2, 4, 5, 6, 7, 3], [0, 3, 2, 4, 7, 5, 6], [], Some(3), 7)

  const EnteredC: St := St([0, 2], [], [0, 2], Some(2), 2)
  const AfterC: St := St([0, 2, 4, 5, 6, 7], [2, 4, 7, 5, 6], [0], Some(7), 6)

  const EnteredE: St := St([0, 2, 4], [], [0, 2, 4], Some(4), 3)
  const AfterE: St := St([0, 2, 4, 5, 6, 7], [4, 7, 5, 6], [0, 2], Some(7), 6)

  const EnteredF: St := St([0, 2, 4, 5], [], [0, 2, 4, 5], Some(5), 4)
  const AfterF: St := St([0, 2, 4, 5, 6], [5, 6], [0, 2, 4], Some(6), 5)

  const EnteredG: St := St([0, 2, 4, 5, 6], [], [0, 2, 4, 5, 6], Some(6), 5)
  const AfterG: St := St([0, 2, 4, 5, 6], [6], [0, 2, 4, 5], Some(6), 5)

  const EnteredH: St := St([0, 2, 4, 5, 6, 7], [5, 6], [0, 2, 4, 7], Some(7), 6)
  const AfterH: St := St([0, 2, 4, 5, 6, 7], [7, 5, 6], [0, 2, 4], Some(7), 6)

  const EnteredD: St := St([0, 2, 4, 5, 6, 7, 3], [2, 4, 7, 5, 6], [0, 3], Some(3), 7)
  const AfterD: St := St([0, 2, 4, 5, 6, 7, 3], [3, 2, 4, 7, 5, 6], [0], Some(3), 7)

  const EnteredB: St := St([0, 2, 4, 5, 6, 7, 3, 1], [0, 3, 2, 4, 7, 5, 6], [1], Some(1), 8)
  const AfterB: St := St([0, 2, 4, 5, 6, 7, 3, 1], [1, 0, 3, 2, 4, 7, 5, 6], [], Some(1), 8)

  lemma EnterA()
    ensures Entering(Empty.(current := Some(0)), 0) == EnteredA
  {
    assert [] + [0] == [0];
  }

  lemma FinishA()
    ensures Finishing(AfterD, 0) == AfterA
  {
    assert Pop([0]) == [];
    assert [0] + [3, 2, 4, 7, 5, 6] == [0, 3, 2, 4, 7, 5, 6];
  }

  lemma EnterC()
    ensures Entering(EnteredA.(current := Some(2)), 2) == EnteredC
  {
    assert [0] + [2] == [0, 2];
  }

  lemma FinishC()
    ensures Finishing(AfterE, 2) == AfterC
  {
    assert Pop([0, 2]) == [0];
    assert [2] + [4, 7, 5, 6] == [2, 4, 7, 5, 6];
  }

  lemma EnterE()
    ensures Entering(EnteredC.(current := Some(4)), 4) == EnteredE
  {
    assert [0, 2] + [4] == [0, 2, 4];
  }

  lemma FinishE()
    ensures Finishing(AfterH, 4) == AfterE
  {
    assert Pop([0, 2, 4]) == [0, 2];
    assert [4] + [7, 5, 6] == [4, 7, 5, 6];
  }

  lemma EnterF()
    ensures Entering(EnteredE.(current := Some(5)), 5) == EnteredF
  {
    assert [0, 2, 4] + [5] == [0, 2, 4, 5];
  }

  lemma FinishF()
    ensures Finishing(AfterG, 5) == AfterF
  {
    assert Pop([0, 2, 4, 5]) == [0, 2, 4];
    assert [5] + [6] == [5, 6];
  }

  lemma EnterG()
    ensures Entering(EnteredF.(current := Some(6)), 6) == EnteredG
  {
    assert [0, 2, 4, 5] + [6] == [0, 2, 4, 5, 6];
  }

  lemma FinishG()
    ensures Finishing(EnteredG, 6) == AfterG
  {
    assert Pop([0, 2, 4, 5, 6]) == [0, 2, 4, 5];
    assert [6] + [] == [6];
  }

  lemma EnterH()
    ensures Entering(AfterF.(current := Some(7)), 7) == EnteredH
  {
    assert [0, 2, 4, 5, 6] + [7] == [0, 2, 4, 5, 6, 7];
    assert [0, 2, 4] + [7] == [0, 2, 4, 7];
  }

  lemma FinishH()
    ensures Finishing(EnteredH, 7) == AfterH
  {
    assert Pop([0, 2, 4, 7]) == [0, 2, 4];
    assert [7] + [5, 6] == [7, 5, 6];
  }

  lemma EnterD()
    ensures Entering(AfterC.(current := Some(3)), 3) == EnteredD
  {
    assert [0, 2, 4, 5, 6, 7] + [3] == [0, 2, 4, 5, 6, 7, 3];
    assert [0] + [3] == [0, 3];
  }

  lemma FinishD()
    ensures Finishing(EnteredD, 3) == AfterD
  {
    assert Pop([0, 3]) == [0];
    assert [3] + [2, 4, 7, 5, 6] == [3, 2, 4, 7, 5, 6];
  }

  lemma EnterB()
    ensures Entering(AfterA.(current := Some(1)), 1) == EnteredB
  {
    assert [0, 2, 4, 5, 6, 7, 3] + [1] == [0, 2, 4, 5, 6, 7, 3, 1];
    assert [] + [1] == [1];
  }

  lemma FinishB()
    ensures Finishing(EnteredB, 1) == AfterB
  {
    assert Pop([1]) == [];
    assert [1] + [0, 3, 2, 4, 7, 5, 6] == [1, 0, 3, 2, 4, 7, 5, 6];
  }

  lemma CallG(m: nat)
    requires m >= 5
    ensures DfsCall(Graph, EnteredF.(current := Some(6)), 6, m) == (AfterG, true)
  {
    GraphWellFormed();
    var st := EnteredF.(current := Some(6));
    assert 6 !in st.visited;
    DfsUnfold(Graph, st, 6, m);
    EnterG();
    assert Graph[6] == [];
    NeighborsVisited(Graph, EnteredG, [], m);
    FinishG();
  }

  lemma CallF(m: nat)
    requires m >= 5
    ensures DfsCall(Graph, EnteredE.(current := Some(5)), 5, m) == (AfterF, true)
  {
    GraphWellFormed();
    var st := EnteredE.(current := Some(5));
    assert 5 !in st.visited;
    DfsUnfold(Graph, st, 5, m);
    EnterF();
    assert Graph[5] == [6];
    NeighborsCall(Graph, EnteredF, [6], m);
    CallG(m);
    assert [6][1..] == [];
    NeighborsVisited(Graph, AfterG, [], m);
    FinishF();
  }

  lemma CallH(m: nat)
    requires m >= 6
    ensures DfsCall(Graph, AfterF.(current := Some(7)), 7, m) == (AfterH, true)
  {
    GraphWellFormed();
    var st := AfterF.(current := Some(7));
    assert 7 !in st.visited;
    DfsUnfold(Graph, st, 7, m);
    EnterH();
    assert Graph[7] == [];
    NeighborsVisited(Graph, EnteredH, [], m);
    FinishH();
  }

  lemma CallE(m: nat)
    requires m >= 6
    ensures DfsCall(Graph, EnteredC.(current := Some(4)), 4, m) == (AfterE, true)
  {
    GraphWellFormed();
    var st := EnteredC.(current := Some(4));
    assert 4 !in st.visited;
    DfsUnfold(Graph, st, 4, m);
    EnterE();
    assert Graph[4] == [5, 7];
    NeighborsCall(Graph, EnteredE, [5, 7], m);
    CallF(m);
    assert [5, 7][1..] == [7];
    NeighborsCall(Graph, AfterF, [7], m);
    CallH(m);
    assert [7][1..] == [];
    NeighborsVisited(Graph, AfterH, [], m);
    FinishE();
  }

  lemma CallC(m: nat)
    requires m >= 6
    ensures DfsCall(Graph, EnteredA.(current := Some(2)), 2, m) == (AfterC, true)
  {
    GraphWellFormed();
    var st := EnteredA.(current := Some(2));
    assert 2 !in st.visited;
    DfsUnfold(Graph, st, 2, m);
    EnterC();
    assert Graph[2] == [4];
    NeighborsCall(Graph, EnteredC, [4], m);
    CallE(m);
    assert [4][1..] == [];
    NeighborsVisited(Graph, AfterE, [], m);
    FinishC();
  }

  lemma CallD(m: nat)
    requires m >= 7
    ensures DfsCall(Graph, AfterC.(current := Some(3)), 3, m) == (AfterD, true)
  {
    GraphWellFormed();
    var st := AfterC.(current := Some(3));
    assert 3 !in st.visited;
    DfsUnfold(Graph, st, 3, m);
    EnterD();
    assert Graph[3] == [5];
    assert 5 in EnteredD.visited;
    NeighborsVisited(Graph, EnteredD, [5], m);
    FinishD();
  }

  lemma CallA(m: nat)
    requires m >= 7
    ensures DfsCall(Graph, Empty.(current := Some(0)), 0, m) == (AfterA, true)
  {
    GraphWellFormed();
    var st := Empty.(current := Some(0));
    assert 0 !in st.visited;
    DfsUnfold(Graph, st, 0, m);
    EnterA();
    assert Graph[0] == [2, 3];
    NeighborsCall(Graph, EnteredA, [2, 3], m);
    CallC(m);
    assert [2, 3][1..] == [3];
    NeighborsCall(Graph, AfterC, [3], m);
    CallD(m);
    assert [3][1..] == [];
    NeighborsVisited(Graph, AfterD, [], m);
    FinishA();
  }

  lemma CallB(m: nat)
    requires m >= 8
    ensures DfsCall(Graph, AfterA.(current := Some(1)), 1, m) == (AfterB, true)
  {
    GraphWellFormed();
    var st := AfterA.(current := Some(1));
    assert 1 !in st.visited;
    DfsUnfold(Graph, st, 1, m);
    EnterB();
    assert Graph[1] == [3];
    assert 3 in EnteredB.visited;
    NeighborsVisited(Graph, EnteredB, [3], m);
    FinishB();
  }
  /** A's search is the first; it finishes after seven calls. */
  lemma RunStartsWithA(step: nat)
    requires step >= 7
    ensures Run(Graph, step) == Outer(Graph, AfterA, [1, 2, 3, 4, 5, 6, 7], step)
  {
    GraphWellFormed();
    var nodes := Nodes(|Graph|);
    assert nodes == [0, 1, 2, 3, 4, 5, 6, 7];
    OuterCall(Graph, Empty, nodes, step);
    CallA(step);
    assert nodes[1..] == [1, 2, 3, 4, 5, 6, 7];
  }

  lemma SkipAfterB(step: nat)
    requires step >= 8
    ensures Outer(Graph, AfterB, [2, 3, 4, 5, 6, 7], step) == AfterB
  {
    GraphWellFormed();
    OuterSkips(Graph, AfterB, [2, 3, 4, 5, 6, 7], step);
  }

  /** B's search is the second and last; every later node is visited already. */
  lemma OuterAfterA(step: nat)
    requires step >= 8
    ensures Outer(Graph, AfterA, [1, 2, 3, 4, 5, 6, 7], step) == AfterB
  {
    GraphWellFormed();
    OuterCall(Graph, AfterA, [1, 2, 3, 4, 5, 6, 7], step);
    CallB(step);
    assert [1, 2, 3, 4, 5, 6, 7][1..] == [2, 3, 4, 5, 6, 7];
    SkipAfterB(step);
  }

  lemma RunComplete(step: nat)
    requires step >= 8
    ensures Run(Graph, step) == AfterB
  {
    RunStartsWithA(step);
    OuterAfterA(step);
  }

  /** With seven steps A's search finishes and the budget stops the loop before B. */
  lemma RunSeven()
    ensures Run(Graph, 7) == AfterA
  {
    GraphWellFormed();
    RunStartsWithA(7);
    OuterSkips(Graph, AfterA, [1, 2, 3, 4, 5, 6, 7], 7);
  }

  /** With three steps the budget runs out when E's search would enter F. */
  lemma CallEThree()
    ensures DfsCall(Graph, EnteredC.(current := Some(4)), 4, 3) == (EnteredE.(current := Some(5)), false)
  {
    GraphWellFormed();
    DfsUnfold(Graph, EnteredC.(current := Some(4)), 4, 3);
    EnterE();
    assert Graph[4] == [5, 7];
    NeighborsCall(Graph, EnteredE, [5, 7], 3);
  }

  lemma CallCThree()
    ensures DfsCall(Graph, EnteredA.(current := Some(2)), 2, 3) == (EnteredE.(current := Some(5)), false)
  {
    GraphWellFormed();
    DfsUnfold(Graph, EnteredA.(current := Some(2)), 2, 3);
    EnterC();
    assert Graph[2] == [4];
    NeighborsCall(Graph, EnteredC, [4], 3);
    CallEThree();
  }

  lemma RunThree()
    ensures Run(Graph, 3) == St([0, 2, 4], [], [0, 2, 4], Some(5), 3)
  {
    GraphWellFormed();
    var nodes := Nodes(|Graph|);
    assert nodes == [0, 1, 2, 3, 4, 5, 6, 7];
    OuterCall(Graph, Empty, nodes, 3);
    DfsUnfold(Graph, Empty.(current := Some(0)), 0, 3);
    EnterA();
    assert Graph[0] == [2, 3];
    NeighborsCall(Graph, EnteredA, [2, 3], 3);
    CallCThree();
  }

  lemma SampleNames()
    ensures NamesOf(AfterB.stack) == ["B", "A", "D", "C", "E", "H", "F", "G"]
    ensures NamesOf(AfterA.visited) == ["A", "C", "E", "F", "G", "H", "D"]
  {
  }

  lemma ArrowJoinOrder()
    ensures JoinStrings(["B", "A", "D", "C", "E", "H", "F", "G"], " → ") ==
      "B" + " → " + "A" + " → " + "D" + " → " + "C" + " → " + "E" + " → " + "H" + " → " + "F" + " → " + "G"
  {
    JoinStringsFour("B", "A", "D", "C", " → ");
    JoinStringsSnoc(["B", "A", "D", "C"], "E", " → ");
    assert ["B", "A", "D", "C"] + ["E"] == ["B", "A", "D", "C", "E"];
    JoinStringsSnoc(["B", "A", "D", "C", "E"], "H", " → ");
    assert ["B", "A", "D", "C", "E"] + ["H"] == ["B", "A", "D", "C", "E", "H"];
    JoinStringsSnoc(["B", "A", "D", "C", "E", "H"], "F", " → ");
    assert ["B", "A", "D", "C", "E", "H"] + ["F"] == ["B", "A", "D", "C", "E", "H", "F"];
    JoinStringsSnoc(["B", "A", "D", "C", "E", "H", "F"], "G", " → ");
    assert ["B", "A", "D", "C", "E", "H", "F"] + ["G"] == ["B", "A", "D", "C", "E", "H", "F", "G"];
  }

  lemma CommaJoinVisited()
    ensures JoinStrings(["A", "C", "E", "F", "G", "H", "D"], ", ") ==
      "A" + ", " + "C" + ", " + "E" + ", " + "F" + ", " + "G" + ", " + "H" + ", " + "D"
  {
    JoinStringsFour("A", "C", "E", "F", ", ");
    JoinStringsSnoc(["A", "C", "E", "F"], "G", ", ");
    assert ["A", "C", "E", "F"] + ["G"] == ["A", "C", "E", "F", "G"];
    JoinStringsSnoc(["A", "C", "E", "F", "G"], "H", ", ");
    assert ["A", "C", "E", "F", "G"] + ["H"] == ["A", "C", "E", "F", "G", "H"];
    JoinStringsSnoc(["A", "C", "E", "F", "G", "H"], "D", ", ");
    assert ["A", "C", "E", "F", "G", "H"] + ["D"] == ["A", "C", "E", "F", "G", "H", "D"];
  }

  lemma SampleStepThree()
    ensures Describe(FrameAt(3).desc) == "Processing node: E"
  {
    GraphWellFormed();
    RunThree();
  }

  lemma FrameSeven()
    ensures FrameAt(7).desc == Processed(AfterA.visited)
  {
    GraphWellFormed();
    RunSeven();
  }

  lemma ProcessedText()
    ensures Describe(Processed(AfterA.visited)) == "Processed nodes: " + ("A" + ", " + "C" + ", " + "E" + ", " + "F" + ", " + "G" + ", " + "H" + ", " + "D")
  {
    SampleNames();
    CommaJoinVisited();
  }

  lemma SampleStepSeven()
    ensures Describe(FrameAt(7).desc) == "Processed nodes: " + ("A" + ", " + "C" + ", " + "E" + ", " + "F" + ", " + "G" + ", " + "H" + ", " + "D")
  {
    FrameSeven();
    ProcessedText();
  }

  lemma FrameEight()
    ensures FrameAt(8).desc == Complete(AfterB.stack)
  {
    GraphWellFormed();
    RunComplete(8);
  }

  lemma CompleteText()
    ensures Describe(Complete(AfterB.stack)) == "Topological sort complete: " + ("B" + " → " + "A" + " → " + "D" + " → " + "C" + " → " + "E" + " → " + "H" + " → " + "F" + " → " + "G")
  {
    SampleNames();
    ArrowJoinOrder();
  }

  lemma SampleComplete()
    ensures Describe(FrameAt(8).desc) == "Topological sort complete: " + ("B" + " → " + "A" + " → " + "D" + " → " + "C" + " → " + "E" + " → " + "H" + " → " + "F" + " → " + "G")
  {
    FrameEight();
    CompleteText();
  }

  lemma SampleAfterEnd(step: nat)
    requires step > 8
    ensures Describe(FrameAt(step).desc) == ""
  {
    GraphWellFormed();
    RunComplete(step);
  }

  /**
   * The sample's descriptions: the initial text, the path being searched when
   * three steps run out, the nodes processed after seven, the order after eight
   * and nothing after that.
   */
  lemma SampleTrace(step: nat)
    ensures step == 0 ==> Describe(FrameAt(step).desc) == "Initial graph, topological sort starts with DFS"
    ensures step == 3 ==> Describe(FrameAt(step).desc) == "Processing node: E"
    ensures step == 7 ==> Describe(FrameAt(step).desc) == "Processed nodes: " + ("A" + ", " + "C" + ", " + "E" + ", " + "F" + ", " + "G" + ", " + "H" + ", " + "D")
    ensures step == 8 ==> Describe(FrameAt(step).desc) == "Topological sort complete: " + ("B" + " → " + "A" + " → " + "D" + " → " + "C" + " → " + "E" + " → " + "H" + " → " + "F" + " → " + "G")
    ensures step > 8 ==> Describe(FrameAt(step).desc) == ""
  {
    if step == 3 {
      SampleStepThree();
    } else if step == 7 {
      SampleStepSeven();
    } else if step == 8 {
      SampleComplete();
    } else if step > 8 {
      SampleAfterEnd(step);
    }
  }
}
