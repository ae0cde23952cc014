/**
 * The fixed-size sliding-window simulator: for step >= 1 the window start is
 * `min(step - 1, n - k)`; every window but the last reports its sum, and the
 * clamped last position reports the end of the array instead.
 */
module SlidingWindow {
  import opened Wrappers
  import opened Text

  const Sample: seq<int> := [1, 3, 2, 6, 8, 4, 7, 2, 5]
  const WindowSize: nat := 3

  datatype Desc =
    | Initialize(size: nat)
    | EndReached
    | WindowSum(sum: int)

  /** `window` is the highlighted start (none is drawn at step 0). */
  datatype Frame = Frame(window: Option<nat>, desc: Desc)

  function Describe(d: Desc): string
  {
    match d
    case Initialize(k) => "Initialize: window size = " + NatToString(k)
    case EndReached => "End of array reached"
    case WindowSum(s) => "Current window sum: " + IntToString(s)
  }

  /** The `reduce((a, b) => a + b, 0)` of a slice. */
  function Sum(s: seq<int>): int
  {
    if |s| == 0 then 0 else Sum(s[..|s| - 1]) + s[|s| - 1]
  }

  function Min(x: int, y: int): int { if x <= y then x else y }

  function WindowStart(n: nat, k: nat, step: nat): int
    requires step >= 1
  {
    Min(step - 1, n - k)
  }

  function FrameOn(a: seq<int>, k: nat, step: nat): (f: Frame)
    requires 1 <= k <= |a|
    ensures f.window.Some? <==> step >= 1
    ensures f.window.Some? ==> f.window.value <= |a| - k
    ensures f.desc.EndReached? <==> step >= |a| - k + 1
  {
    if step == 0 then Frame(None, Initialize(k))
    else
      var ws := WindowStart(|a|, k, step);
      if ws >= |a| - k then Frame(Some(ws), EndReached)
      else Frame(Some(ws), WindowSum(Sum(a[ws..ws + k])))
  }

  function FrameAt(step: nat): Frame
  {
    FrameOn(Sample, WindowSize, step)
  }

  /** The window never moves backwards as the step grows. */
  lemma WindowNeverMovesBack(a: seq<int>, k: nat, step: nat, later: nat)
    requires 1 <= k <= |a| && 1 <= step <= later
    ensures FrameOn(a, k, step).window.value <= FrameOn(a, k, later).window.value
  {
  }

  lemma {:induction false} SumAppend(s: seq<int>, t: seq<int>)
    ensures Sum(s + t) == Sum(s) + Sum(t)
    decreases |t|
  {
    if |t| == 0 {
      assert s + t == s;
    } else {
      assert (s + t)[..|s + t| - 1] == s + t[..|t| - 1];
      SumAppend(s, t[..|t| - 1]);
    }
  }

  /** A reported window sum is the sum of the k cells from the window start. */
  lemma ReportedSumIsWindowTotal(a: seq<int>, k: nat, step: nat)
    requires 1 <= k <= |a|
    requires FrameOn(a, k, step).desc.WindowSum?
    ensures var ws := FrameOn(a, k, step).window.value;
      ws + k < |a| &&
      FrameOn(a, k, step).desc.sum == Sum(a[ws..ws + k])
  {
  }

  /**
   * Sliding by one cell drops the leftmost value and adds the next one, so
   * consecutive reported sums differ by `a[ws + k] - a[ws]`.
   */
  lemma {:induction false} SlideByOne(a: seq<int>, i: nat, k: nat)
    requires 1 <= k && i + k < |a|
    ensures Sum(a[i + 1..i + 1 + k]) == Sum(a[i..i + k]) - a[i] + a[i + k]
  {
    assert a[i..i + k] == [a[i]] + a[i + 1..i + k];
    assert a[i + 1..i + 1 + k] == a[i + 1..i + k] + [a[i + k]];
    SumAppend([a[i]], a[i + 1..i + k]);
    SumAppend(a[i + 1..i + k], [a[i + k]]);
    assert Sum([a[i]]) == a[i] by { assert [a[i]][..0] == []; }
    assert Sum([a[i + k]]) == a[i + k] by { assert [a[i + k]][..0] == []; }
  }

  /** The last window of the sample (start 6) is never reported with its sum. */
  lemma SampleLastWindowNotReported(step: nat)
    ensures FrameAt(step).desc.WindowSum? ==> FrameAt(step).window.value < 6
    ensures FrameAt(step).desc.EndReached? <==> step >= 7
  {
  }

  /** For the sample, a reported sum is the three cells of the window. */
  lemma SampleSumOfThree(step: nat)
    requires FrameAt(step).desc.WindowSum?
    ensures var ws := FrameAt(step).window.value;
      FrameAt(step).desc.sum == Sample[ws] + Sample[ws + 1] + Sample[ws + 2]
  {
    ReportedSumIsWindowTotal(Sample, WindowSize, step);
    var ws := FrameAt(step).window.value;
    var w := Sample[ws..ws + 3];
    assert w == [Sample[ws], Sample[ws + 1], Sample[ws + 2]];
    assert w[..2] == [Sample[ws], Sample[ws + 1]];
    assert w[..2][..1] == [Sample[ws]];
    assert w[..2][..1][..0] == [];
    assert Sum(w) == Sum(w[..2]) + w[2] == Sum(w[..2][..1]) + w[1] + w[2];
  }

  lemma SampleStepZero()
    ensures Describe(FrameAt(0).desc) == "Initialize: window size = 3"
  {
  }
}
