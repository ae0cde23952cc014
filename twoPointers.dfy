/**
 * The converging two-pointer simulator: on a sorted array, `left` starts at
 * the first cell and `right` at the last; each tick compares the pair's sum
 * with the target and stops on a hit, otherwise moves one pointer inward.
 */
module TwoPointers {
  import opened Wrappers
  import opened Text

  const Sample: seq<int> := [1, 3, 4, 5, 7, 11, 15]
  const Target: int := 9

  datatype Desc =
    | Initialize(right: int)
    | Found(x: int, y: int, target: int)
    | CurrentSum(x: int, y: int, sum: int, target: int)

  /** The pointers drawn and the description returned; `None` is the `null` end signal. */
  datatype Frame = Frame(left: int, right: int, desc: Desc)

  function Describe(d: Desc): string
  {
    match d
    case Initialize(r) => "Initialize: left = 0, right = " + IntToString(r)
    case Found(x, y, t) =>
      "Found solution: " + IntToString(x) + " + " + IntToString(y) + " = " + IntToString(t)
    case CurrentSum(x, y, s, t) =>
      "Current sum: " + IntToString(x) + " + " + IntToString(y) + " = " + IntToString(s)
      + (if s < t then TooSmall else TooLarge)
  }

  const TooSmall: string := " (too small, move left pointer)"
  const TooLarge: string := " (too large, move right pointer)"

  /**
   * The pointers after `fuel` iterations of the search loop started at
   * (l, r). An iteration stops on a hit, or right after a move that makes
   * the pointers cross.
   */
  function Converge(a: seq<int>, t: int, l: int, r: int, fuel: nat): (p: (int, int))
    requires 0 <= l <= r < |a|
    ensures l <= p.0 && p.1 <= r && p.0 <= p.1 + 1
    ensures (p.0 - l) + (r - p.1) <= fuel
    decreases fuel
  {
    if fuel == 0 || a[l] + a[r] == t then (l, r)
    else if a[l] + a[r] < t then
      if l + 1 > r then (l + 1, r) else Converge(a, t, l + 1, r, fuel - 1)
    else
      if l > r - 1 then (l, r - 1) else Converge(a, t, l, r - 1, fuel - 1)
  }

  /** The frame of the simulator run on array `a` and target `t` at `step`. */
  function FrameOn(a: seq<int>, t: int, step: nat): (f: Option<Frame>)
    requires |a| >= 1
    ensures f.Some? ==> 0 <= f.value.left <= f.value.right < |a|
  {
    if step == 0 then Some(Frame(0, |a| - 1, Initialize(|a| - 1)))
    else
      var (l, r) := Converge(a, t, 0, |a| - 1, step);
      if l > r then None
      else if a[l] + a[r] == t then Some(Frame(l, r, Found(a[l], a[r], t)))
      else Some(Frame(l, r, CurrentSum(a[l], a[r], a[l] + a[r], t)))
  }

  function FrameAt(step: nat): Option<Frame>
  {
    FrameOn(Sample, Target, step)
  }

  /** The simulator itself: re-runs the loop for `step` ticks from the start. */
  method Animate(step: nat) returns (f: Option<Frame>)
    ensures f == FrameAt(step)
  {
    var a, t := Sample, Target;
    var left, right := 0, |a| - 1;
    if step == 0 {
      return Some(Frame(0, |a| - 1, Initialize(|a| - 1)));
    }
    var i := 0;
    while i < step
      invariant 0 <= i <= step
      invariant 0 <= left <= right < |a|
      invariant Converge(a, t, left, right, step - i) == Converge(a, t, 0, |a| - 1, step)
    {
      var sum := a[left] + a[right];
      if sum == t {
        break;
      } else if sum < t {
        left := left + 1;
        if left > right { break; }
      } else {
        right := right - 1;
        if left > right { break; }
      }
      i := i + 1;
    }
    assert (left, right) == Converge(a, t, 0, |a| - 1, step);
    if left > right {
      return None;
    }
    if a[left] + a[right] == t {
      f := Some(Frame(left, right, Found(a[left], a[right], t)));
    } else {
      f := Some(Frame(left, right, CurrentSum(a[left], a[right], a[left] + a[right], t)));
    }
  }

  /** Every iteration that does not stop on a hit moves exactly one pointer by one. */
  lemma {:induction false} ConvergeMovesOncePerTick(a: seq<int>, t: int, l: int, r: int, fuel: nat)
    requires 0 <= l <= r < |a|
    ensures var p := Converge(a, t, l, r, fuel);
      p.0 <= p.1 && a[p.0] + a[p.1] != t ==> (p.0 - l) + (r - p.1) == fuel
    decreases fuel
  {
    if fuel > 0 && a[l] + a[r] != t {
      if a[l] + a[r] < t {
        if l + 1 <= r { ConvergeMovesOncePerTick(a, t, l + 1, r, fuel - 1); }
      } else {
        if l <= r - 1 { ConvergeMovesOncePerTick(a, t, l, r - 1, fuel - 1); }
      }
    }
  }

  /** Once the pair hits the target the loop breaks, so more fuel changes nothing. */
  lemma {:induction false} ConvergeStopsOnHit(a: seq<int>, t: int, l: int, r: int, fuel: nat, more: nat)
    requires 0 <= l <= r < |a| && fuel <= more
    requires var p := Converge(a, t, l, r, fuel); p.0 <= p.1 && a[p.0] + a[p.1] == t
    ensures Converge(a, t, l, r, more) == Converge(a, t, l, r, fuel)
    decreases fuel
  {
    if fuel > 0 && a[l] + a[r] != t {
      if a[l] + a[r] < t {
        ConvergeStopsOnHit(a, t, l + 1, r, fuel - 1, more - 1);
      } else {
        ConvergeStopsOnHit(a, t, l, r - 1, fuel - 1, more - 1);
      }
    }
  }

  /** A frame reporting a solution is repeated at every later step. */
  lemma FoundFrameIsFinal(a: seq<int>, t: int, step: nat, later: nat)
    requires |a| >= 1 && 0 < step <= later
    requires FrameOn(a, t, step).Some? && FrameOn(a, t, step).value.desc.Found?
    ensures FrameOn(a, t, later) == FrameOn(a, t, step)
  {
    ConvergeStopsOnHit(a, t, 0, |a| - 1, step, later);
  }

  predicate Sorted(a: seq<int>) { forall i, j :: 0 <= i < j < |a| ==> a[i] <= a[j] }

  /**
   * On a sorted array, a pair i <= j summing to the target inside [l, r] is
   * never skipped: with fuel r - l the loop ends on a pair that hits.
   */
  lemma {:induction false} ConvergeFindsPair(a: seq<int>, t: int, l: int, r: int, fuel: nat, i: int, j: int)
    requires Sorted(a) && 0 <= l <= i <= j <= r < |a| && a[i] + a[j] == t
    requires fuel >= r - l
    ensures var p := Converge(a, t, l, r, fuel); p.0 <= p.1 && a[p.0] + a[p.1] == t
    decreases fuel
  {
    if a[l] + a[r] != t {
      if a[l] + a[r] < t {
        ConvergeFindsPair(a, t, l + 1, r, fuel - 1, i, j);
      } else {
        ConvergeFindsPair(a, t, l, r - 1, fuel - 1, i, j);
      }
    }
  }

  /** The hint at the end of a "Current sum" description follows the sum. */
  lemma HintFollowsSum(x: int, y: int, s: int, t: int)
    ensures var text := Describe(CurrentSum(x, y, s, t));
      |text| >= |TooSmall| &&
      (text[|text| - |TooSmall|..] == TooSmall <==> s < t)
  {
    var text := Describe(CurrentSum(x, y, s, t));
    var head := "Current sum: " + IntToString(x) + " + " + IntToString(y) + " = " + IntToString(s);
    if s < t {
      assert text == head + TooSmall;
      assert text[|text| - |TooSmall|..] == TooSmall;
    } else {
      assert text == head + TooLarge;
      assert text[|text| - |TooSmall|..] == TooLarge[1..];
      assert TooLarge[1] != TooSmall[0];
    }
  }

  /** Step 0 of the sample: "Initialize: left = 0, right = 6". */
  lemma SampleStepZero()
    ensures FrameAt(0) == Some(Frame(0, 6, Initialize(6)))
    ensures Describe(FrameAt(0).value.desc) == "Initialize: left = 0, right = 6"
  {
  }

  /** The sample converges in five ticks to 4 + 5 and reports it from then on. */
  lemma SampleFindsSolution(step: nat)
    requires step >= 5
    ensures FrameAt(step) == Some(Frame(2, 3, Found(4, 5, 9)))
    ensures Describe(FrameAt(step).value.desc) == "Found solution: 4 + 5 = 9"
  {
    assert Converge(Sample, Target, 0, 6, 5) == (2, 3);
    ConvergeStopsOnHit(Sample, Target, 0, 6, 5, step);
  }

  /** No step of the sample yields the end signal. */
  lemma SampleNeverFinishes(step: nat)
    ensures FrameAt(step).Some?
  {
    if step >= 5 {
      SampleFindsSolution(step);
    } else if step > 0 {
      assert Converge(Sample, Target, 0, 6, 1) == (0, 5);
      assert Converge(Sample, Target, 0, 6, 2) == (0, 4);
      assert Converge(Sample, Target, 0, 6, 3) == (1, 4);
      assert Converge(Sample, Target, 0, 6, 4) == (1, 3);
    }
  }
}
