/**
 * The in-place linked-list reversal simulator. Each node takes three steps
 * (store next, point back, move forward), so step s >= 1 shows node
 * (s - 1) / 3 at sub-step (s - 1) % 3; past the last node it shows the
 * reversed list.
 */
module LinkedListReversal {
  import opened Wrappers
  import opened Text
  import opened Helpers

  const Sample: seq<int> := [1, 2, 3, 4, 5]
  const StepsPerNode: nat := 3

  datatype Desc =
    | Original
    | Complete
    | StoreNext(next: Option<int>)
    | PointBack(node: int, prev: Option<int>)
    | MoveForward

  /** The three pointers of the partially reversed list, as node indices. */
  datatype Pointers = Pointers(prev: Option<nat>, current: Option<nat>, next: Option<nat>)

  /**
   * `Whole(list)` is a plain drawing without pointers; `Partial` is the
   * drawing of the partially reversed list.
   */
  datatype View =
    | Whole(list: seq<int>)
    | Partial(nodeIndex: nat, subStep: nat, pointers: Pointers)

  datatype Frame = Frame(view: View, desc: Desc)

  function OrNull(v: Option<int>): string
  {
    match v
    case Some(x) => IntToString(x)
    case None => "null"
  }

  function Describe(d: Desc): string
  {
    match d
    case Original => "Original linked list"
    case Complete => "Reversal complete"
    case StoreNext(nx) => "Step 1: Store next pointer (node " + OrNull(nx) + ")"
    case PointBack(c, p) =>
      "Step 2: Point current node " + IntToString(c) + " to previous node " + OrNull(p)
    case MoveForward => "Step 3: Move prev and current pointers forward"
  }

  function Reverse(s: seq<int>): (r: seq<int>)
    ensures |r| == |s|
  {
    if |s| == 0 then [] else [s[|s| - 1]] + Reverse(s[..|s| - 1])
  }

  lemma {:induction false} ReverseAt(s: seq<int>, i: nat)
    requires i < |s|
    ensures Reverse(s)[i] == s[|s| - 1 - i]
    decreases |s|
  {
    if i > 0 {
      ReverseAt(s[..|s| - 1], i - 1);
    }
  }

  /** Reversing twice gives the list back. */
  lemma ReverseReverse(s: seq<int>)
    ensures Reverse(Reverse(s)) == s
  {
    forall i | 0 <= i < |s| ensures Reverse(Reverse(s))[i] == s[i] {
      ReverseAt(Reverse(s), i);
      ReverseAt(s, |s| - 1 - i);
    }
  }

  function Value(nodes: seq<int>, p: Option<nat>): Option<int>
  {
    if p.Some? && p.value < |nodes| then Some(nodes[p.value]) else None
  }

  function FrameOn(nodes: seq<int>, step: nat): (f: Frame)
  {
    if step == 0 then Frame(Whole(nodes), Original)
    else
      var nodeIndex := (step - 1) / StepsPerNode;
      var subStep := (step - 1) % StepsPerNode;
      if nodeIndex >= |nodes| then Frame(Whole(Reverse(nodes)), Complete)
      else
        var prev := if nodeIndex > 0 then Some(nodeIndex - 1) else None;
        var next := if nodeIndex < |nodes| - 1 then Some(nodeIndex + 1) else None;
        if subStep == 0 then
          Frame(Partial(nodeIndex, 0, Pointers(prev, Some(nodeIndex), next)), StoreNext(Value(nodes, next)))
        else if subStep == 1 then
          Frame(Partial(nodeIndex, 1, Pointers(prev, Some(nodeIndex), None)),
                PointBack(nodes[nodeIndex], Value(nodes, prev)))
        else
          var current := if nodeIndex < |nodes| - 1 then Some(nodeIndex + 1) else None;
          Frame(Partial(nodeIndex, 2, Pointers(Some(nodeIndex), current, next)), MoveForward)
  }

  function FrameAt(step: nat): Frame
  {
    FrameOn(Sample, step)
  }

  /**
   * Step 3k + s + 1 with s < 3 and k < n shows node k at sub-step s, with
   * current on node k (or the one after it at sub-step 2), prev just behind
   * and next just ahead; next is dropped at sub-step 1.
   */
  lemma StepDecomposes(nodes: seq<int>, k: nat, s: nat)
    requires s < 3 && k < |nodes|
    ensures var f := FrameOn(nodes, 3 * k + s + 1);
      f.view.Partial? && f.view.nodeIndex == k && f.view.subStep == s &&
      var p := f.view.pointers;
      (s < 2 ==> p.current == Some(k) && p.prev == (if k > 0 then Some(k - 1) else None)) &&
      (s == 0 ==> p.next == (if k + 1 < |nodes| then Some(k + 1) else None)) &&
      (s == 1 ==> p.next == None) &&
      (s == 2 ==> p.prev == Some(k) && p.current == (if k + 1 < |nodes| then Some(k + 1) else None))
  {
    assert (3 * k + s) / 3 == k && (3 * k + s) % 3 == s;
  }

  /** Every pointer names a node of the list. */
  lemma PointersInRange(nodes: seq<int>, step: nat)
    requires FrameOn(nodes, step).view.Partial?
    ensures var p := FrameOn(nodes, step).view.pointers;
      (p.prev.Some? ==> p.prev.value < |nodes|) &&
      (p.current.Some? ==> p.current.value < |nodes|) &&
      (p.next.Some? ==> p.next.value < |nodes|)
  {
  }

  /** 'Reversal complete' iff every node has had its three steps; the drawing is then the reverse. */
  lemma CompleteIff(nodes: seq<int>, step: nat)
    ensures FrameOn(nodes, step).desc == Complete <==> step >= 3 * |nodes| + 1
    ensures step >= 3 * |nodes| + 1 ==>
      FrameOn(nodes, step).view == Whole(Reverse(nodes)) &&
      forall i :: 0 <= i < |nodes| ==> Reverse(nodes)[i] == nodes[|nodes| - 1 - i]
  {
    if step >= 3 * |nodes| + 1 {
      forall i | 0 <= i < |nodes| ensures Reverse(nodes)[i] == nodes[|nodes| - 1 - i] {
        ReverseAt(nodes, i);
      }
    } else if step >= 1 {
      assert (step - 1) / 3 < |nodes|;
    }
  }

  /**
   * At sub-step 2 prev has already moved onto the node being processed, so
   * its reversed arrow is drawn towards itself.
   */
  lemma MoveStepArrowTargetsItself(nodes: seq<int>, k: nat)
    requires k < |nodes|
    ensures var v := FrameOn(nodes, 3 * k + 3).view;
      ReversalArrow(k, |nodes|, k, v.pointers.prev, v.subStep) == ToPrev(k)
  {
    StepDecomposes(nodes, k, 2);
  }

  /** The node tags of a partial frame: the processed node is current at sub-steps 0 and 1. */
  lemma ProcessedNodeIsCurrent(nodes: seq<int>, k: nat, s: nat)
    requires s < 2 && k < |nodes|
    ensures var p := FrameOn(nodes, 3 * k + s + 1).view.pointers;
      ListTags(|nodes|, p.prev, p.current, p.next)[k] == CurrentNode
  {
    StepDecomposes(nodes, k, s);
  }

  /** The first node's three sub-steps, and the store-next step of the last node. */
  lemma SampleTrace()
    ensures FrameAt(1).desc == StoreNext(Some(2))
    ensures FrameAt(2).desc == PointBack(1, None)
    ensures FrameAt(3).desc == MoveForward
    ensures FrameAt(13).desc == StoreNext(None)
  {
  }

  lemma SampleText()
    ensures Describe(FrameAt(0).desc) == "Original linked list"
    ensures Describe(FrameAt(1).desc) == "Step 1: Store next pointer (node " + "2" + ")"
    ensures Describe(FrameAt(2).desc) == "Step 2: Point current node " + "1" + " to previous node " + "null"
    ensures Describe(FrameAt(3).desc) == "Step 3: Move prev and current pointers forward"
    ensures Describe(FrameAt(13).desc) == "Step 1: Store next pointer (node " + "null" + ")"
  {
    SampleTrace();
  }

  lemma SampleComplete(step: nat)
    requires step >= 16
    ensures FrameAt(step) == Frame(Whole([5, 4, 3, 2, 1]), Complete)
    ensures Describe(FrameAt(step).desc) == "Reversal complete"
  {
    CompleteIff(Sample, step);
    assert Reverse(Sample) == [5, 4, 3, 2, 1] by {
      forall i | 0 <= i < 5 ensures Reverse(Sample)[i] == [5, 4, 3, 2, 1][i] {
        ReverseAt(Sample, i);
      }
    }
  }
}
