/**
 * The modified binary search simulator on a rotated sorted array: the first
 * `step` iterations of the search loop are replayed, each one either stopping
 * (target found, or the window empty) or halving the window towards the half
 * that is sorted and may hold the target.
 */
module BinarySearch {
  import opened Text

  const SampleArray: seq<int> := [4, 5, 6, 7, 0, 1, 2]
  const SampleTarget: int := 0

  datatype Desc =
    | Initialize(right: int, target: int)
    | NotFound(target: int)
    | Found(target: int, index: int)
    | LeftSortedIn(target: int, right: int)
    | LeftSortedOut(target: int, left: int)
    | RightSortedIn(target: int, left: int)
    | RightSortedOut(target: int, right: int)

  function Describe(d: Desc): string
  {
    match d
    case Initialize(r, t) => "Initialize: left = 0, right = " + IntToString(r) + ", target = " + IntToString(t)
    case NotFound(t) => "Target " + IntToString(t) + " not found"
    case Found(t, i) => "Found target " + IntToString(t) + " at index " + IntToString(i)
    case LeftSortedIn(t, r) =>
      "Left half is sorted and target " + IntToString(t) + " is in this half. Set right = " + IntToString(r)
    case LeftSortedOut(t, l) =>
      "Left half is sorted but target " + IntToString(t) + " is not in this half. Set left = " + IntToString(l)
    case RightSortedIn(t, l) =>
      "Right half is sorted and target " + IntToString(t) + " is in this half. Set left = " + IntToString(l)
    case RightSortedOut(t, r) =>
      "Right half is sorted but target " + IntToString(t) + " is not in this half. Set right = " + IntToString(r)
  }

  /** The loop's variables; `stopped` records that a `break` was taken. */
  datatype State = State(left: int, right: int, mid: int, found: bool, stopped: bool, desc: Desc)

  /** What the loop keeps: the window stays inside the array or is empty by one. */
  predicate Bounds(a: seq<int>, s: State)
  {
    0 <= s.left <= s.right + 1 && s.right < |a|
  }

  function Start(a: seq<int>, target: int): (s: State)
    ensures Bounds(a, s)
  {
    State(0, |a| - 1, 0, false, false, Initialize(|a| - 1, target))
  }

  /** `Math.floor((left + right) / 2)` on a non-empty window. */
  function Mid(s: State): (m: int)
    requires 0 <= s.left <= s.right
    ensures s.left <= m <= s.right
  {
    (s.left + s.right) / 2
  }

  /** One iteration of the loop body. */
  function Iteration(a: seq<int>, target: int, s: State): (r: State)
    requires Bounds(a, s)
    ensures Bounds(a, r)
  {
    if s.left > s.right then s.(stopped := true, desc := NotFound(target))
    else
      var mid := Mid(s);
      if a[mid] == target then s.(mid := mid, found := true, stopped := true, desc := Found(target, mid))
      else if a[s.left] <= a[mid] then
        if a[s.left] <= target < a[mid] then s.(mid := mid, right := mid - 1, desc := LeftSortedIn(target, mid - 1))
        else s.(mid := mid, left := mid + 1, desc := LeftSortedOut(target, mid + 1))
      else if a[mid] < target <= a[s.right] then s.(mid := mid, left := mid + 1, desc := RightSortedIn(target, mid + 1))
      else s.(mid := mid, right := mid - 1, desc := RightSortedOut(target, mid - 1))
  }

  /** The state after the first k iterations of the loop, or at the `break`. */
  function Run(a: seq<int>, target: int, k: nat): (s: State)
    ensures Bounds(a, s)
  {
    if k == 0 then Start(a, target)
    else
      var s := Run(a, target, k - 1);
      if s.stopped then s else Iteration(a, target, s)
  }

  /** What one step shows: the three pointers (drawn for step > 0), the found highlight and the text. */
  datatype Frame = Frame(left: int, right: int, mid: int, pointers: bool, found: bool, desc: Desc)

  function FrameOn(a: seq<int>, target: int, step: nat): Frame
  {
    var s := Run(a, target, step);
    Frame(s.left, s.right, s.mid, step > 0, s.found, s.desc)
  }

  function FrameAt(step: nat): Frame
  {
    FrameOn(SampleArray, SampleTarget, step)
  }

  method Animate(a: seq<int>, target: int, step: nat) returns (f: Frame)
    ensures f == FrameOn(a, target, step)
  {
    var s := State(0, |a| - 1, 0, false, false, Initialize(|a| - 1, target));
    for i := 0 to step
      invariant s == Run(a, target, i) && !s.stopped
    {
      s := Iterate(a, target, s);
      if s.stopped {
        StopsForGood(a, target, i + 1, step);
        return Frame(s.left, s.right, s.mid, true, s.found, s.desc);
      }
    }
    f := Frame(s.left, s.right, s.mid, step > 0, s.found, s.desc);
  }

  /** The loop body: stop on an empty window or a hit, otherwise narrow the window. */
  method Iterate(a: seq<int>, target: int, s: State) returns (r: State)
    requires Bounds(a, s)
    ensures r == Iteration(a, target, s)
  {
    var left, right := s.left, s.right;
    if left > right {
      return s.(stopped := true, desc := NotFound(target));
    }
    var mid := (left + right) / 2;
    if a[mid] == target {
      return s.(mid := mid, found := true, stopped := true, desc := Found(target, mid));
    }
    r := Narrow(a, target, s.(mid := mid));
  }

  /** The rest of an iteration that did not stop: keep the half that is sorted and may hold the target. */
  method Narrow(a: seq<int>, target: int, s: State) returns (r: State)
    requires Bounds(a, s) && s.left <= s.right && s.mid == Mid(s) && a[s.mid] != target
    ensures r == Iteration(a, target, s)
  {
    var left, right, mid := s.left, s.right, s.mid;
    if a[left] <= a[mid] {
      if a[left] <= target && target < a[mid] {
        right := mid - 1;
        r := s.(right := right, desc := LeftSortedIn(target, right));
      } else {
        left := mid + 1;
        r := s.(left := left, desc := LeftSortedOut(target, left));
      }
    } else {
      if a[mid] < target && target <= a[right] {
        left := mid + 1;
        r := s.(left := left, desc := RightSortedIn(target, left));
      } else {
        right := mid - 1;
        r := s.(right := right, desc := RightSortedOut(target, right));
      }
    }
  }

  /** Once the loop has broken out, later steps replay the same state. */
  lemma {:induction false} StopsForGood(a: seq<int>, target: int, k: nat, k': nat)
    requires k <= k' && Run(a, target, k).stopped
    ensures Run(a, target, k') == Run(a, target, k)
    decreases k' - k
  {
    if k' > k {
      StopsForGood(a, target, k, k' - 1);
    }
  }

  /** A live iteration reads a[mid] only with left <= mid <= right inside the array. */
  lemma MidInRange(a: seq<int>, s: State)
    requires Bounds(a, s) && s.left <= s.right
    ensures 0 <= s.left <= Mid(s) <= s.right < |a|
  {
  }

  /** 'Found' is reported exactly when the loop stopped on a[mid] == target. */
  lemma {:induction false} FoundIsHit(a: seq<int>, target: int, k: nat)
    ensures var s := Run(a, target, k);
      (s.found ==> s.stopped && 0 <= s.mid < |a| && a[s.mid] == target && s.desc == Found(target, s.mid)) &&
      (s.stopped && !s.found ==> s.desc == NotFound(target) && s.left > s.right)
  {
    if k > 0 {
      FoundIsHit(a, target, k - 1);
    }
  }

  /** Every iteration that does not stop strictly shrinks the window. */
  lemma IterationShrinks(a: seq<int>, target: int, s: State)
    requires Bounds(a, s) && !s.stopped
    ensures var r := Iteration(a, target, s);
      r.stopped || r.right - r.left < s.right - s.left
  {
  }

  /** `a[i]`, named so that the facts about a rotated array are used only where asked for. */
  function At(a: seq<int>, i: int): int
    requires 0 <= i < |a|
  {
    a[i]
  }

  /** Strictly ascending on positions lo .. hi - 1. */
  predicate Ascending(a: seq<int>, lo: int, hi: int)
    requires 0 <= lo <= hi <= |a|
  {
    forall i, j :: lo <= i < j < hi ==> At(a, i) < At(a, j)
  }

  /**
   * a is a sorted array of distinct numbers rotated at p: both a[..p] and
   * a[p..] ascend and every number of a[p..] is below every number of a[..p].
   */
  predicate RotatedAt(a: seq<int>, p: int)
  {
    0 <= p <= |a| && Ascending(a, 0, p) && Ascending(a, p, |a|) &&
    forall i, j :: 0 <= i < p <= j < |a| ==> At(a, j) < At(a, i)
  }

  /** A present target is either found at its index or stays inside the window. */
  predicate Keeps(a: seq<int>, s: State, idx: int)
  {
    if s.found then s.mid == idx else s.left <= idx <= s.right
  }

  /** The rotation case analysis: no iteration discards the half holding the target. */
  lemma IterationKeepsTarget(a: seq<int>, p: int, target: int, idx: int, s: State)
    requires RotatedAt(a, p) && Bounds(a, s) && !s.stopped && !s.found
    requires 0 <= idx < |a| && a[idx] == target && s.left <= idx <= s.right
    ensures Keeps(a, Iteration(a, target, s), idx)
  {
    var l, r, m := s.left, s.right, Mid(s);
    assert At(a, l) == a[l] && At(a, m) == a[m] && At(a, r) == a[r] && At(a, idx) == a[idx];
    assert a[l] <= a[m] ==> m < p || p <= l;
    assert a[l] > a[m] ==> l < p <= m;
    UniqueIndex(a, p, idx, m);
  }

  /** In a rotated sorted array a value sits at one index only. */
  lemma UniqueIndex(a: seq<int>, p: int, i: int, j: int)
    requires RotatedAt(a, p) && 0 <= i < |a| && 0 <= j < |a|
    ensures a[i] == a[j] ==> i == j
  {
    if i < j {
      DistinctRotated(a, p, i, j);
    } else if j < i {
      DistinctRotated(a, p, j, i);
    }
  }

  lemma DistinctRotated(a: seq<int>, p: int, i: int, j: int)
    requires RotatedAt(a, p) && 0 <= i < j < |a|
    ensures a[i] != a[j]
  {
    assert At(a, i) != At(a, j);
  }

  /** The target is kept, and the window has narrowed by one per step taken. */
  predicate Narrowed(a: seq<int>, s: State, idx: int, k: nat)
  {
    Keeps(a, s, idx) && (s.found || (!s.stopped && s.right - s.left <= |a| - 1 - k))
  }

  /**
   * On a rotated sorted array holding the target at idx, after k steps the
   * search has found idx or keeps it in a window of at most n - 1 - k.
   */
  lemma {:induction false} RunKeepsTarget(a: seq<int>, p: int, target: int, idx: int, k: nat)
    requires RotatedAt(a, p) && 0 <= idx < |a| && a[idx] == target
    ensures Narrowed(a, Run(a, target, k), idx, k)
  {
    if k > 0 {
      RunKeepsTarget(a, p, target, idx, k - 1);
      FoundStops(a, target, k - 1);
      NextNarrows(a, p, target, idx, Run(a, target, k - 1), k - 1);
    }
  }

  lemma FoundStops(a: seq<int>, target: int, k: nat)
    ensures Run(a, target, k).found ==> Run(a, target, k).stopped
  {
    FoundIsHit(a, target, k);
  }

  lemma NextNarrows(a: seq<int>, p: int, target: int, idx: int, s: State, k: nat)
    requires RotatedAt(a, p) && 0 <= idx < |a| && a[idx] == target && Bounds(a, s)
    requires Narrowed(a, s, idx, k) && (s.found ==> s.stopped)
    ensures Narrowed(a, if s.stopped then s else Iteration(a, target, s), idx, k + 1)
  {
    if !s.stopped {
      StepKeeps(a, p, target, idx, s);
    }
  }

  /** One live iteration keeps the target and narrows the window, or finds it. */
  lemma StepKeeps(a: seq<int>, p: int, target: int, idx: int, s: State)
    requires RotatedAt(a, p) && Bounds(a, s) && !s.stopped && !s.found
    requires 0 <= idx < |a| && a[idx] == target && s.left <= idx <= s.right
    ensures var r := Iteration(a, target, s);
      Keeps(a, r, idx) && (r.found || (!r.stopped && r.right - r.left < s.right - s.left))
  {
    IterationKeepsTarget(a, p, target, idx, s);
    IterationShrinks(a, target, s);
  }

  /** Hence a present target is found, at its own index, within n steps. */
  lemma FindsPresentTarget(a: seq<int>, p: int, target: int, idx: int, step: nat)
    requires RotatedAt(a, p) && 0 <= idx < |a| && a[idx] == target && step >= |a|
    ensures FrameOn(a, target, step).found && FrameOn(a, target, step).desc == Found(target, idx)
  {
    RunKeepsTarget(a, p, target, idx, |a|);
    FoundIsHit(a, target, |a|);
    StopsForGood(a, target, |a|, step);
  }

  /** An absent target is never reported found. */
  lemma AbsentNeverFound(a: seq<int>, target: int, step: nat)
    requires forall i :: 0 <= i < |a| ==> a[i] != target
    ensures !FrameOn(a, target, step).found
  {
    FoundIsHit(a, target, step);
  }

  lemma SampleIsRotated()
    ensures RotatedAt(SampleArray, 4)
  {
  }

  lemma SampleTrace()
    ensures FrameAt(0).desc == Initialize(6, 0) && !FrameAt(0).pointers
    ensures FrameAt(1).desc == LeftSortedOut(0, 4) && FrameAt(1).mid == 3
    ensures FrameAt(2).desc == LeftSortedIn(0, 4) && FrameAt(2).mid == 5
    ensures FrameAt(3).desc == Found(0, 4) && FrameAt(3).found
  {
  }

  /** Every step from 3 on reports the target at index 4. */
  lemma SampleFound(step: nat)
    requires step >= 3
    ensures Describe(FrameAt(step).desc) == "Found target 0 at index 4"
  {
    SampleTrace();
    StopsForGood(SampleArray, SampleTarget, 3, step);
  }

  lemma SampleInitialText()
    ensures Describe(FrameAt(0).desc) == "Initialize: left = 0, right = 6, target = 0"
  {
  }
}
