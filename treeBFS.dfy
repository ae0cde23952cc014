/**
 * The tree BFS simulator. The traversal order and the level sizes are
 * constants; a loop hands out `step` nodes level by level, the queue is the
 * next `levelSizes[level]` nodes after the visited ones, and the tree is
 * then highlighted (visited over queued).
 */
module TreeBFS {
  import opened Text
  import opened Helpers

  const SampleTree: Tree :=
    Node(1, Node(2, Node(4, Nil, Nil), Node(5, Nil, Nil)), Node(3, Node(6, Nil, Nil), Node(7, Nil, Nil)))
  const BfsOrder: seq<int> := [1, 2, 3, 4, 5, 6, 7]
  const LevelSizes: seq<nat> := [1, 2, 4]

  datatype Desc =
    | Initial
    | Progress(visited: seq<int>, queue: seq<int>)
    | Complete(order: seq<int>)

  datatype Frame = Frame(visited: seq<int>, queue: seq<int>, desc: Desc)

  function Describe(d: Desc): string
  {
    match d
    case Initial => "Initial tree, BFS starts at root"
    case Progress(v, q) => "Visited: [" + JoinInts(v, ", ") + "], Queue: [" + JoinInts(q, ", ") + "]"
    case Complete(o) => "BFS traversal complete: " + JoinInts(o, " → ")
  }

  /** The sizes of the levels from `level` on. */
  function SumFrom(sizes: seq<nat>, level: nat): nat
    requires level <= |sizes|
    decreases |sizes| - level
  {
    if level == |sizes| then 0 else sizes[level] + SumFrom(sizes, level + 1)
  }

  datatype Walk = Walk(visited: seq<int>, level: nat)

  function Min(x: int, y: int): int { if x <= y then x else y }

  /**
   * The while loop: whole levels are taken while the remaining step count
   * covers them; a level it does not cover is taken in part, ending the loop.
   */
  function Consume(order: seq<int>, sizes: seq<nat>, remaining: nat, level: nat, visited: seq<int>): (w: Walk)
    requires level <= |sizes| && |visited| + SumFrom(sizes, level) <= |order|
    ensures level <= w.level <= |sizes| && |w.visited| <= |order|
    decreases |sizes| - level
  {
    if remaining == 0 || level >= |sizes| then Walk(visited, level)
    else
      var n := |visited|;
      if remaining >= sizes[level] then
        Consume(order, sizes, remaining - sizes[level], level + 1, visited + order[n..n + sizes[level]])
      else Walk(visited + order[n..n + remaining], level)
  }

  function Queue(order: seq<int>, sizes: seq<nat>, w: Walk): seq<int>
    requires w.level <= |sizes| && |w.visited| <= |order|
  {
    if w.level < |sizes| then
      order[|w.visited|..Min(|w.visited| + sizes[w.level], |order|)]
    else []
  }

  function FrameOn(order: seq<int>, sizes: seq<nat>, step: nat): Frame
    requires SumFrom(sizes, 0) <= |order|
  {
    if step == 0 then Frame([], [], Initial)
    else
      var w := Consume(order, sizes, step, 0, []);
      var queue := Queue(order, sizes, w);
      Frame(w.visited, queue,
            if |w.visited| == |order| then Complete(order) else Progress(w.visited, queue))
  }

  function FrameAt(step: nat): Frame
  {
    FrameOn(BfsOrder, LevelSizes, step)
  }

  /** The highlighting of the sample tree for a frame, at the initial spacing of 80. */
  function Highlights(f: Frame): seq<Mark>
  {
    Marks(SampleTree, f.visited, f.queue, 80.0, 0)
  }

  method Animate(step: nat) returns (f: Frame)
    ensures f == FrameAt(step)
  {
    f := Traverse(BfsOrder, LevelSizes, step);
  }

  /** The level loop on a traversal order and its level sizes. */
  method Traverse(order: seq<int>, sizes: seq<nat>, step: nat) returns (f: Frame)
    requires SumFrom(sizes, 0) <= |order|
    ensures f == FrameOn(order, sizes, step)
  {
    if step == 0 {
      return Frame([], [], Initial);
    }
    var currentStep := step;
    var level := 0;
    var nodesProcessed := 0;
    var visited: seq<int> := [];
    while currentStep > 0 && level < |sizes|
      invariant level <= |sizes| && nodesProcessed == |visited|
      invariant |visited| + SumFrom(sizes, level) <= |order|
      invariant Consume(order, sizes, currentStep, level, visited) == Consume(order, sizes, step, 0, [])
      decreases |sizes| - level
    {
      if currentStep >= sizes[level] {
        visited := visited + order[nodesProcessed..nodesProcessed + sizes[level]];
        nodesProcessed := nodesProcessed + sizes[level];
        currentStep := currentStep - sizes[level];
        level := level + 1;
      } else {
        visited := visited + order[nodesProcessed..nodesProcessed + currentStep];
        break;
      }
    }
    var w := Walk(visited, level);
    assert w == Consume(order, sizes, step, 0, []);
    var queue := Queue(order, sizes, w);
    var desc := Progress(visited, queue);
    if |visited| == |order| {
      desc := Complete(order);
    }
    f := Frame(visited, queue, desc);
  }

  /** The walk hands out nodes in traversal order: visited is always a prefix of it. */
  lemma {:induction false} ConsumeTakesPrefix(order: seq<int>, sizes: seq<nat>, remaining: nat, level: nat, p: nat)
    requires level <= |sizes| && p + SumFrom(sizes, level) <= |order|
    ensures Consume(order, sizes, remaining, level, order[..p]).visited
      == order[..p + Min(remaining, SumFrom(sizes, level))]
    decreases |sizes| - level
  {
    if remaining > 0 && level < |sizes| {
      var k := sizes[level];
      if remaining >= k {
        assert order[..p] + order[p..p + k] == order[..p + k];
        ConsumeTakesPrefix(order, sizes, remaining - k, level + 1, p + k);
      } else {
        assert order[..p] + order[p..p + remaining] == order[..p + remaining];
      }
    }
  }

  /**
   * visited is the first min(step, total) nodes of the traversal order, the
   * queue is the contiguous slice right after it, no longer than the size of
   * the current level.
   */
  lemma VisitedAndQueue(order: seq<int>, sizes: seq<nat>, step: nat)
    requires SumFrom(sizes, 0) <= |order|
    ensures var f := FrameOn(order, sizes, step);
      f.visited == order[..Min(step, SumFrom(sizes, 0))] &&
      f.visited + f.queue == order[..|f.visited| + |f.queue|]
    ensures var f := FrameOn(order, sizes, step); var w := Consume(order, sizes, step, 0, []);
      step > 0 && w.level < |sizes| ==> |f.queue| <= sizes[w.level]
  {
    if step > 0 {
      assert order[..0] == [];
      ConsumeTakesPrefix(order, sizes, step, 0, 0);
      var f := FrameOn(order, sizes, step);
      assert f.visited + f.queue == order[..|f.visited| + |f.queue|];
    }
  }

  /** With distinct node values, no node is both visited and queued. */
  lemma VisitedQueueDisjoint(order: seq<int>, sizes: seq<nat>, step: nat)
    requires SumFrom(sizes, 0) <= |order|
    requires forall i, j :: 0 <= i < j < |order| ==> order[i] != order[j]
    ensures var f := FrameOn(order, sizes, step);
      forall i, j :: 0 <= i < |f.visited| && 0 <= j < |f.queue| ==> f.visited[i] != f.queue[j]
  {
    VisitedAndQueue(order, sizes, step);
    var f := FrameOn(order, sizes, step);
    var all := f.visited + f.queue;
    forall i, j | 0 <= i < |f.visited| && 0 <= j < |f.queue| ensures f.visited[i] != f.queue[j] {
      assert all[i] == order[i] && all[|f.visited| + j] == order[|f.visited| + j];
    }
  }

  /** The traversal is complete iff every node was visited, i.e. from step `total` on. */
  lemma CompleteIff(order: seq<int>, sizes: seq<nat>, step: nat)
    requires SumFrom(sizes, 0) == |order|
    ensures FrameOn(order, sizes, step).desc.Complete? <==> step >= |order| && step > 0
  {
    VisitedAndQueue(order, sizes, step);
  }

  /** The values of the nodes at depth d, left to right. */
  function AtDepth(t: Tree, d: nat): seq<int>
  {
    match t
    case Nil => []
    case Node(v, l, r) => if d == 0 then [v] else AtDepth(l, d - 1) + AtDepth(r, d - 1)
  }

  /** The constant order and level sizes are the level order of the sample tree. */
  lemma SampleConstantsMatchTree()
    ensures BfsOrder == AtDepth(SampleTree, 0) + AtDepth(SampleTree, 1) + AtDepth(SampleTree, 2)
    ensures LevelSizes == [|AtDepth(SampleTree, 0)|, |AtDepth(SampleTree, 1)|, |AtDepth(SampleTree, 2)|]
    ensures AtDepth(SampleTree, 3) == []
  {
  }

  /** A drawn node is highlighted iff it is visited or queued, visited taking precedence. */
  lemma HighlightsFollowFrame(step: nat, k: nat)
    requires k < |Highlights(FrameAt(step))|
    ensures var f := FrameAt(step); var m := Highlights(f)[k];
      m.value == Preorder(SampleTree)[k] &&
      (m.highlight != NoMark <==> m.value in f.visited || m.value in f.queue) &&
      (m.highlight == VisitedMark <==> m.value in f.visited)
  {
    var f := FrameAt(step);
    MarkAt(SampleTree, f.visited, f.queue, 80.0, 0, k);
  }

  lemma SampleStep2()
    ensures FrameAt(2) == Frame([1, 2], [3, 4], Progress([1, 2], [3, 4]))
  {
    assert SumFrom(LevelSizes, 0) == 7;
    assert Consume(BfsOrder, LevelSizes, 2, 0, []) == Walk([1, 2], 1);
    assert BfsOrder[2..4] == [3, 4];
  }

  lemma SampleStep2Text()
    ensures Describe(FrameAt(2).desc) == "Visited: [" + ("1" + ", " + "2") + "], Queue: [" + ("3" + ", " + "4") + "]"
  {
    SampleStep2();
    JoinIntsSnoc([1], 2, ", ");
    JoinIntsSnoc([3], 4, ", ");
    assert [1] + [2] == [1, 2] && [3] + [4] == [3, 4];
  }

  lemma SampleComplete(step: nat)
    requires step >= 7
    ensures FrameAt(step) == Frame(BfsOrder, [], Complete(BfsOrder))
  {
    VisitedAndQueue(BfsOrder, LevelSizes, step);
    assert Consume(BfsOrder, LevelSizes, step, 0, []).level == 3 by {
      assert Consume(BfsOrder, LevelSizes, step, 0, []) == Consume(BfsOrder, LevelSizes, step - 1, 1, [1]);
      assert Consume(BfsOrder, LevelSizes, step - 1, 1, [1]) == Consume(BfsOrder, LevelSizes, step - 3, 2, [1, 2, 3]);
    }
  }

  lemma ArrowJoinOrder()
    ensures JoinInts(BfsOrder, " → ")
      == "1" + " → " + "2" + " → " + "3" + " → " + "4" + " → " + "5" + " → " + "6" + " → " + "7"
  {
    var sep := " → ";
    JoinIntsFour(1, 2, 3, 4, sep);
    JoinIntsSnoc([1, 2, 3, 4], 5, sep);
    assert [1, 2, 3, 4] + [5] == [1, 2, 3, 4, 5];
    JoinIntsSnoc([1, 2, 3, 4, 5], 6, sep);
    assert [1, 2, 3, 4, 5] + [6] == [1, 2, 3, 4, 5, 6];
    JoinIntsSnoc([1, 2, 3, 4, 5, 6], 7, sep);
    assert BfsOrder == [1, 2, 3, 4, 5, 6] + [7];
  }

  lemma SampleCompleteText(step: nat)
    requires step >= 7
    ensures Describe(FrameAt(step).desc) ==
      "BFS traversal complete: " + ("1" + " → " + "2" + " → " + "3" + " → " + "4" + " → " + "5" + " → " + "6" + " → " + "7")
  {
    SampleComplete(step);
    CompleteText();
  }

  lemma CompleteText()
    ensures Describe(Complete(BfsOrder)) ==
      "BFS traversal complete: " + ("1" + " → " + "2" + " → " + "3" + " → " + "4" + " → " + "5" + " → " + "6" + " → " + "7")
  {
    ArrowJoinOrder();
  }
}
