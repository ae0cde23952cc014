/**
 * The state-classification rules of the drawing helpers, without geometry:
 * which pointer colours a list node, which arrow a node of a partially
 * reversed list gets, which pointer labels are drawn, and how a tree
 * traversal highlights its nodes.
 */
module Helpers {
  import opened Wrappers

  // ---- linked lists ----

  datatype NodeTag = CurrentNode | PrevNode | NextNode | PlainNode

  /** The colour rule for node i: current wins over prev, prev over next. */
  function ListNodeTag(i: nat, prev: Option<nat>, current: Option<nat>, next: Option<nat>): (t: NodeTag)
    ensures t == CurrentNode <==> current == Some(i)
    ensures t == PrevNode <==> current != Some(i) && prev == Some(i)
    ensures t == NextNode <==> current != Some(i) && prev != Some(i) && next == Some(i)
    ensures t == PlainNode <==> Some(i) !in {prev, current, next}
  {
    if current == Some(i) then CurrentNode
    else if prev == Some(i) then PrevNode
    else if next == Some(i) then NextNode
    else PlainNode
  }

  /** The tags of all n nodes, in list order. */
  function ListTags(n: nat, prev: Option<nat>, current: Option<nat>, next: Option<nat>): (r: seq<NodeTag>)
    ensures |r| == n
    ensures forall i :: 0 <= i < n ==> r[i] == ListNodeTag(i, prev, current, next)
  {
    seq(n, i requires 0 <= i < n => ListNodeTag(i, prev, current, next))
  }

  /** Ignoring the pointers, at most one node carries each pointer tag. */
  lemma TagsAreUnique(n: nat, prev: Option<nat>, current: Option<nat>, next: Option<nat>, i: nat, j: nat)
    requires i < j < n
    ensures var r := ListTags(n, prev, current, next); r[i] == r[j] ==> r[i] == PlainNode
  {
  }

  /** The arrow leaving a node of a partially reversed list. */
  datatype Arrow = NoArrow | Forward | Back | ToPrev(target: nat)

  /**
   * Nodes before the node being processed point back (the first one points
   * nowhere); the node being processed points to prev once subStep >= 1;
   * every other node but the last points forward.
   */
  function ReversalArrow(i: nat, n: nat, nodeIndex: nat, prev: Option<nat>, subStep: nat): (a: Arrow)
    ensures a == Back <==> 0 < i < nodeIndex
    ensures a.ToPrev? <==> i == nodeIndex && subStep >= 1 && prev.Some?
    ensures a.ToPrev? ==> a.target == prev.value
    ensures a == Forward <==> i + 1 < n && (i > nodeIndex || (i == nodeIndex && subStep == 0))
  {
    if i < nodeIndex then (if i > 0 then Back else NoArrow)
    else if i == nodeIndex then
      if subStep >= 1 then (if prev.Some? then ToPrev(prev.value) else NoArrow)
      else if i + 1 < n then Forward else NoArrow
    else if i + 1 < n then Forward else NoArrow
  }

  function ReversalArrows(n: nat, nodeIndex: nat, prev: Option<nat>, subStep: nat): (r: seq<Arrow>)
    ensures |r| == n
    ensures forall i :: 0 <= i < n ==> r[i] == ReversalArrow(i, n, nodeIndex, prev, subStep)
  {
    seq(n, i requires 0 <= i < n => ReversalArrow(i, n, nodeIndex, prev, subStep))
  }

  datatype Label = PrevLabel(at: nat) | CurrentLabel(at: nat) | NextLabel(at: nat)

  /** The pointer labels, drawn in the order prev, current, next, for non-null pointers only. */
  function Labels(prev: Option<nat>, current: Option<nat>, next: Option<nat>): (r: seq<Label>)
    ensures forall k :: 0 <= k < |r| ==> r[k].PrevLabel? ==> prev == Some(r[k].at)
    ensures forall k :: 0 <= k < |r| ==> r[k].CurrentLabel? ==> current == Some(r[k].at)
    ensures forall k :: 0 <= k < |r| ==> r[k].NextLabel? ==> next == Some(r[k].at)
    ensures prev.Some? <==> PrevLabel(prev.GetOr(0)) in r
    ensures current.Some? <==> CurrentLabel(current.GetOr(0)) in r
    ensures next.Some? <==> NextLabel(next.GetOr(0)) in r
  {
    (if prev.Some? then [PrevLabel(prev.value)] else [])
    + (if current.Some? then [CurrentLabel(current.value)] else [])
    + (if next.Some? then [NextLabel(next.value)] else [])
  }

  // ---- binary trees ----

  datatype Tree = Nil | Node(value: int, left: Tree, right: Tree)

  function Preorder(t: Tree): seq<int>
  {
    match t
    case Nil => []
    case Node(v, l, r) => [v] + Preorder(l) + Preorder(r)
  }

  datatype Highlight = VisitedMark | QueuedMark | NoMark

  /** Visited takes precedence over being in the queue. */
  function HighlightOf(v: int, visited: seq<int>, queue: seq<int>): (h: Highlight)
    ensures h != NoMark <==> v in visited || v in queue
    ensures h == VisitedMark <==> v in visited
  {
    if v in visited then VisitedMark else if v in queue then QueuedMark else NoMark
  }

  /** One drawn node: its value, depth, horizontal child spacing and highlight. */
  datatype Mark = Mark(value: int, depth: nat, spacing: real, highlight: Highlight)

  /** The highlighting pass: preorder, stopping at null, halving the spacing per level. */
  function Marks(t: Tree, visited: seq<int>, queue: seq<int>, spacing: real, depth: nat): (r: seq<Mark>)
    ensures |r| == |Preorder(t)|
  {
    match t
    case Nil => []
    case Node(v, l, rt) =>
      [Mark(v, depth, spacing, HighlightOf(v, visited, queue))]
      + Marks(l, visited, queue, spacing / 2.0, depth + 1)
      + Marks(rt, visited, queue, spacing / 2.0, depth + 1)
  }

  /** `spacing` halved d times. */
  function Halved(spacing: real, d: nat): real
    decreases d
  {
    if d == 0 then spacing else Halved(spacing / 2.0, d - 1)
  }

  /**
   * The k-th mark is the k-th node in preorder, with the highlight its value
   * earns, and a node d levels below the start gets the spacing halved d times.
   */
  lemma {:induction false} MarkAt(t: Tree, visited: seq<int>, queue: seq<int>, spacing: real, depth: nat, k: nat)
    requires k < |Marks(t, visited, queue, spacing, depth)|
    ensures var m := Marks(t, visited, queue, spacing, depth)[k];
      m.value == Preorder(t)[k] &&
      m.highlight == HighlightOf(m.value, visited, queue) &&
      m.depth >= depth && m.spacing == Halved(spacing, m.depth - depth)
  {
    match t
    case Node(v, l, rt) =>
      var h := spacing / 2.0;
      var ml := Marks(l, visited, queue, h, depth + 1);
      var mr := Marks(rt, visited, queue, h, depth + 1);
      var r := Marks(t, visited, queue, spacing, depth);
      assert r == [Mark(v, depth, spacing, HighlightOf(v, visited, queue))] + ml + mr;
      if 0 < k <= |ml| {
        MarkAt(l, visited, queue, h, depth + 1, k - 1);
        assert r[k] == ml[k - 1];
        assert Preorder(t)[k] == Preorder(l)[k - 1];
      } else if k > |ml| {
        MarkAt(rt, visited, queue, h, depth + 1, k - 1 - |ml|);
        assert r[k] == mr[k - 1 - |ml|];
        assert Preorder(t)[k] == Preorder(rt)[k - 1 - |ml|];
      }
  }
}
