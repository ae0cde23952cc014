/**
 * The tree DFS simulator. The preorder is a constant; each step shows the
 * first `step` nodes as visited and a "stack" computed from the next node, its
 * parent and its sibling, found by the two recursive searches of the source
 * with JavaScript's `||` semantics.
 */
module TreeDFS {
  import opened Wrappers
  import opened Text
  import opened Helpers

  const SampleTree: Tree :=
    Node(1, Node(2, Node(4, Nil, Nil), Node(5, Nil, Nil)), Node(3, Node(6, Nil, Nil), Node(7, Nil, Nil)))
  const DfsOrder: seq<int> := [1, 2, 4, 5, 3, 6, 7]

  /** `a || b` on a value that is a number or null: null and 0 are falsy. */
  function JsOr(a: Option<int>, b: Option<int>): Option<int>
  {
    if a.Some? && a.value != 0 then a else b
  }

  function RootValue(t: Tree): Option<int>
  {
    match t
    case Nil => None
    case Node(v, _, _) => Some(v)
  }

  /** Some node of `t` holds `parent` and has a child holding `child`. */
  predicate HasEdge(t: Tree, parent: int, child: int)
  {
    match t
    case Nil => false
    case Node(v, l, r) =>
      (v == parent && (RootValue(l) == Some(child) || RootValue(r) == Some(child)))
      || HasEdge(l, parent, child) || HasEdge(r, parent, child)
  }

  /** No node of `t` holds 0, so no found parent is lost to `||`. */
  predicate NonZero(t: Tree)
  {
    match t
    case Nil => true
    case Node(v, l, r) => v != 0 && NonZero(l) && NonZero(r)
  }

  /** The value of a parent of the node holding `v`, searching the left subtree first. */
  function ParentValue(t: Tree, v: int): (r: Option<int>)
    ensures r.Some? ==> HasEdge(t, r.value, v)
  {
    match t
    case Nil => None
    case Node(x, l, rt) =>
      if RootValue(l) == Some(v) || RootValue(rt) == Some(v) then Some(x)
      else JsOr(ParentValue(l, v), ParentValue(rt, v))
  }

  /** The first subtree in preorder whose root holds `p` (an object is always truthy). */
  function FindParent(t: Tree, p: int): (r: Option<Tree>)
    ensures r.Some? <==> p in Preorder(t)
    ensures r.Some? ==> r.value.Node? && r.value.value == p
  {
    match t
    case Nil => None
    case Node(x, l, rt) =>
      if x == p then Some(t)
      else if FindParent(l, p).Some? then FindParent(l, p) else FindParent(rt, p)
  }

  /** The source's sibling list: at most one value, taken from the parent found. */
  function Siblings(t: Tree, parentValue: int, nodeValue: int): (s: seq<int>)
    ensures |s| <= 1
  {
    match FindParent(t, parentValue)
    case None => []
    case Some(p) =>
      if p.left.Node? && p.left.value != nodeValue && p.right.Node? then [p.right.value]
      else if p.right.Node? && p.right.value != nodeValue && p.left.Node? then [p.left.value]
      else []
  }

  datatype Desc =
    | Initial
    | Progress(visited: seq<int>, stack: seq<int>)
    | Complete(order: seq<int>)
    | Blank

  datatype Frame = Frame(visited: seq<int>, stack: seq<int>, desc: Desc)

  function Describe(d: Desc): string
  {
    match d
    case Initial => "Initial tree, DFS starts at root"
    case Progress(v, s) => "Visited: [" + JoinInts(v, ", ") + "], Stack: [" + JoinInts(s, ", ") + "]"
    case Complete(o) => "DFS traversal complete: " + JoinInts(o, " → ")
    case Blank => ""
  }

  /** The stack shown before visiting `next`: empty when it has no truthy parent. */
  function StackFor(t: Tree, next: int): seq<int>
  {
    var parent := ParentValue(t, next);
    if parent.Some? && parent.value != 0 then [next] + Siblings(t, parent.value, next) else []
  }

  function FrameOn(t: Tree, order: seq<int>, step: nat): Frame
  {
    if step == 0 then Frame([], [1], Initial)
    else if step > |order| then Frame([], [], Blank)
    else
      var visited := order[..step];
      var stack := if step < |order| then StackFor(t, order[step]) else [];
      Frame(visited, stack, if step == |order| then Complete(order) else Progress(visited, stack))
  }

  function FrameAt(step: nat): Frame
  {
    FrameOn(SampleTree, DfsOrder, step)
  }

  /** The highlighting of the sample tree for a frame, at the initial spacing of 80. */
  function Highlights(f: Frame): seq<Mark>
  {
    Marks(SampleTree, f.visited, f.stack, 80.0, 0)
  }

  /** In a tree without zeros the search finds a parent whenever one exists. */
  lemma {:induction false} ParentValueComplete(t: Tree, x: int, v: int)
    requires NonZero(t) && HasEdge(t, x, v)
    ensures ParentValue(t, v).Some?
  {
    match t
    case Node(y, l, r) =>
      if !(RootValue(l) == Some(v) || RootValue(r) == Some(v)) {
        if HasEdge(l, x, v) {
          ParentValueComplete(l, x, v);
          assert ParentValue(l, v).value != 0 by { ParentIsNode(l, v); }
        } else {
          ParentValueComplete(r, x, v);
        }
      }
  }

  /** A parent found is a value of the tree, hence non-zero in a tree without zeros. */
  lemma {:induction false} ParentIsNode(t: Tree, v: int)
    requires NonZero(t) && ParentValue(t, v).Some?
    ensures ParentValue(t, v).value != 0
  {
    match t
    case Node(y, l, r) =>
      if !(RootValue(l) == Some(v) || RootValue(r) == Some(v)) {
        if ParentValue(l, v).Some? && ParentValue(l, v).value != 0 {
        } else {
          ParentIsNode(r, v);
        }
      }
  }

  /** The `||` of the source loses a parent holding 0 found below the root. */
  lemma ZeroParentIsLost()
    ensures HasEdge(Node(1, Node(0, Node(5, Nil, Nil), Nil), Nil), 0, 5)
    ensures ParentValue(Node(1, Node(0, Node(5, Nil, Nil), Nil), Nil), 5) == None
  {
  }

  /**
   * When the parent found has two children with different values and the node
   * is one of them, the sibling list holds the node itself, not its sibling.
   */
  lemma SiblingsHoldTheNode(t: Tree, p: int, v: int)
    requires FindParent(t, p).Some?
    requires var n := FindParent(t, p).value;
      n.left.Node? && n.right.Node? && n.left.value != n.right.value &&
      (v == n.left.value || v == n.right.value)
    ensures Siblings(t, p, v) == [v]
  {
  }

  lemma SampleParents()
    ensures ParentValue(SampleTree, 2) == Some(1) && ParentValue(SampleTree, 3) == Some(1)
    ensures ParentValue(SampleTree, 4) == Some(2) && ParentValue(SampleTree, 5) == Some(2)
    ensures ParentValue(SampleTree, 6) == Some(3) && ParentValue(SampleTree, 7) == Some(3)
  {
  }

  /** The constant order is the preorder of the sample tree. */
  lemma SampleOrderIsPreorder()
    ensures DfsOrder == Preorder(SampleTree)
  {
  }

  /**
   * Every frame from 1 to the end shows the first `step` nodes of the preorder;
   * the traversal is complete exactly at step |order| and the frame is blank after it.
   */
  lemma FrameShape(t: Tree, order: seq<int>, step: nat)
    ensures var f := FrameOn(t, order, step);
      (1 <= step <= |order| ==> f.visited == order[..step]) &&
      (f.desc.Complete? <==> 1 <= step == |order|) &&
      (f.desc.Blank? <==> step > |order|) &&
      (step >= |order| && step > 0 ==> f.stack == [])
  {
  }

  /** Before node k+1 is visited, the stack holds that node twice. */
  lemma SampleStack(step: nat)
    requires 1 <= step < |DfsOrder|
    ensures FrameAt(step).stack == [DfsOrder[step], DfsOrder[step]]
  {
    SampleParents();
    var v := DfsOrder[step];
    var p := ParentValue(SampleTree, v).value;
    assert FindParent(SampleTree, 1) == Some(SampleTree);
    assert FindParent(SampleTree, 2) == Some(SampleTree.left);
    assert FindParent(SampleTree, 3) == Some(SampleTree.right);
    SiblingsHoldTheNode(SampleTree, p, v);
  }

  /** A drawn node is highlighted iff it is visited or on the stack, visited taking precedence. */
  lemma HighlightsFollowFrame(step: nat, k: nat)
    requires k < |Highlights(FrameAt(step))|
    ensures var f := FrameAt(step); var m := Highlights(f)[k];
      m.value == Preorder(SampleTree)[k] &&
      (m.highlight != NoMark <==> m.value in f.visited || m.value in f.stack) &&
      (m.highlight == VisitedMark <==> m.value in f.visited)
  {
    var f := FrameAt(step);
    MarkAt(SampleTree, f.visited, f.stack, 80.0, 0, k);
  }

  lemma SampleStepOne()
    ensures FrameAt(1) == Frame([1], [2, 2], Progress([1], [2, 2]))
  {
    SampleStack(1);
  }

  lemma StepOneText()
    ensures Describe(Progress([1], [2, 2])) == "Visited: [" + "1" + "], Stack: [" + ("2" + ", " + "2") + "]"
  {
    JoinIntsSnoc([2], 2, ", ");
    assert [2] + [2] == [2, 2];
  }

  lemma ArrowJoinOrder()
    ensures JoinInts(DfsOrder, " → ") == "1" + " → " + "2" + " → " + "4" + " → " + "5" + " → " + "3" + " → " + "6" + " → " + "7"
  {
    var sep := " → ";
    JoinIntsFour(1, 2, 4, 5, sep);
    JoinIntsSnoc([1, 2, 4, 5], 3, sep);
    assert [1, 2, 4, 5] + [3] == [1, 2, 4, 5, 3];
    JoinIntsSnoc([1, 2, 4, 5, 3], 6, sep);
    assert [1, 2, 4, 5, 3] + [6] == [1, 2, 4, 5, 3, 6];
    JoinIntsSnoc([1, 2, 4, 5, 3, 6], 7, sep);
    assert DfsOrder == [1, 2, 4, 5, 3, 6] + [7];
  }

  lemma CompleteText()
    ensures Describe(Complete(DfsOrder)) == "DFS traversal complete: " + ("1" + " → " + "2" + " → " + "4" + " → " + "5" + " → " + "3" + " → " + "6" + " → " + "7")
  {
    ArrowJoinOrder();
  }

  lemma SampleTrace(step: nat)
    ensures step == 0 ==> FrameAt(step) == Frame([], [1], Initial)
    ensures step == |DfsOrder| ==>
      Describe(FrameAt(step).desc) == "DFS traversal complete: " + ("1" + " → " + "2" + " → " + "4" + " → " + "5" + " → " + "3" + " → " + "6" + " → " + "7")
    ensures step > |DfsOrder| ==> Describe(FrameAt(step).desc) == ""
  {
    if step == |DfsOrder| {
      CompleteText();
    }
  }
}
