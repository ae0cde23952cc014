/**
 * The variable-size sliding window simulator: a window [start, end] grows to
 * the right while its sum is below the target and shrinks from the left once
 * the sum reaches it, recording the shortest window seen at a shrink. The
 * smallest length starts out as Infinity, modelled here as `None`.
 */
module VariableWindow {
  import opened Wrappers
  import opened Text

  const Sample: seq<int> := [4, 2, 1, 7, 8, 1, 2, 8, 1, 0]
  const Target: int := 8

  /** The total of a[lo..hi]. */
  function SumRange(a: seq<int>, lo: int, hi: int): int
    requires 0 <= lo && hi <= |a|
    decreases hi - lo
  {
    if lo >= hi then 0 else SumRange(a, lo, hi - 1) + a[hi - 1]
  }

  lemma {:induction false} SumRangeFront(a: seq<int>, lo: int, hi: int)
    requires 0 <= lo < hi <= |a|
    ensures SumRange(a, lo, hi) == a[lo] + SumRange(a, lo + 1, hi)
    decreases hi - lo
  {
    if lo + 1 < hi {
      SumRangeFront(a, lo, hi - 1);
    }
  }

  /** The loop's variables; `minLength` is `None` while it still holds Infinity. */
  datatype W = W(start: int, end: int, sum: int, minLength: Option<int>, minStart: int, minEnd: int)

  predicate Shorter(len: int, m: Option<int>)
  {
    m.None? || len < m.value
  }

  function Init(a: seq<int>): W
    requires |a| >= 1
  {
    W(0, 0, a[0], None, 0, 0)
  }

  /** The window condition the source relies on: non-negative values and a positive target. */
  predicate Admissible(a: seq<int>, target: int)
  {
    |a| >= 1 && target >= 1 && forall i :: 0 <= i < |a| ==> a[i] >= 0
  }

  /** Both ends inside the array (end may reach n, where the loop stops) and the window sum kept. */
  predicate Good(a: seq<int>, w: W)
  {
    0 <= w.start <= w.end + 1 && 0 <= w.end <= |a| && w.start <= |a| &&
    w.sum == SumRange(a, w.start, if w.end < |a| then w.end + 1 else |a|)
  }

  /** A window whose sum reaches a positive target is not empty. */
  lemma ShrinkNonEmpty(a: seq<int>, target: int, w: W)
    requires Admissible(a, target) && Good(a, w) && w.end < |a|
    ensures w.sum >= target ==> w.start <= w.end
  {
  }

  /** `a[i]`, where the index is always in range once the window condition holds. */
  function At(a: seq<int>, i: int): int
  {
    if 0 <= i < |a| then a[i] else 0
  }

  /** One iteration of the loop body that does not break. */
  function Tick(a: seq<int>, target: int, w: W): W
  {
    if w.sum >= target then
      var w1 := if Shorter(w.end - w.start + 1, w.minLength)
        then w.(minLength := Some(w.end - w.start + 1), minStart := w.start, minEnd := w.end)
        else w;
      w1.(sum := w.sum - At(a, w.start), start := w.start + 1)
    else if w.end + 1 < |a| then w.(end := w.end + 1, sum := w.sum + At(a, w.end + 1))
    else w.(end := w.end + 1)
  }

  /** A shrink removes a[start] from the window's total; an expand adds the next element. */
  lemma TickGood(a: seq<int>, target: int, w: W)
    requires Good(a, w) && w.end < |a| && (w.sum >= target ==> w.start <= w.end)
    ensures Good(a, Tick(a, target, w))
  {
    if w.sum >= target {
      SumRangeFront(a, w.start, w.end + 1);
    }
  }

  /** The iterations applied forwards from a given state, stopping once end reaches n. */
  function From(a: seq<int>, target: int, w: W, k: nat): W
    decreases k
  {
    if k == 0 || w.end >= |a| then w else From(a, target, Tick(a, target, w), k - 1)
  }

  /** The state after k iterations; once end reaches n the loop has broken off. */
  function Iterate(a: seq<int>, target: int, k: nat): W
    requires |a| >= 1
  {
    From(a, target, Init(a), k)
  }

  lemma {:induction false} FromNext(a: seq<int>, target: int, w: W, k: nat)
    ensures var v := From(a, target, w, k);
      From(a, target, w, k + 1) == if v.end >= |a| then v else Tick(a, target, v)
    decreases k
  {
    if k > 0 && w.end < |a| {
      FromNext(a, target, Tick(a, target, w), k - 1);
    }
  }

  /** One more iteration: the loop body, unless the loop has broken off. */
  lemma Next(a: seq<int>, target: int, k: nat)
    requires |a| >= 1
    ensures var v := Iterate(a, target, k);
      Iterate(a, target, k + 1) == if v.end >= |a| then v else Tick(a, target, v)
  {
    FromNext(a, target, Init(a), k);
  }

  /**
   * While the array lasts the sum is the total of a[start..end], and after
   * that the total of a[start..]; a window shrunk is never empty, so
   * a[start] is always in range.
   */
  lemma {:induction false} IterateGood(a: seq<int>, target: int, k: nat)
    requires Admissible(a, target)
    ensures var w := Iterate(a, target, k);
      Good(a, w) && (w.end < |a| && w.sum >= target ==> w.start <= w.end)
  {
    if k > 0 {
      IterateGood(a, target, k - 1);
      Next(a, target, k - 1);
      var w := Iterate(a, target, k - 1);
      if w.end < |a| {
        TickGood(a, target, w);
        if Tick(a, target, w).end < |a| {
          ShrinkNonEmpty(a, target, Tick(a, target, w));
        }
      }
    } else {
      assert SumRange(a, 0, 1) == a[0];
    }
  }

  /** Whether the iteration after k shrinks the window. */
  predicate ShrinksAt(a: seq<int>, target: int, k: nat)
    requires Admissible(a, target)
  {
    var w := Iterate(a, target, k);
    w.end < |a| && w.sum >= target
  }

  /** The lengths of the windows at which the first k iterations shrank, in order. */
  function ShrinkLengths(a: seq<int>, target: int, k: nat): seq<int>
    requires Admissible(a, target)
  {
    if k == 0 then []
    else
      var w := Iterate(a, target, k - 1);
      ShrinkLengths(a, target, k - 1) + if ShrinksAt(a, target, k - 1) then [w.end - w.start + 1] else []
  }

  datatype Desc =
    | Initialize(first: int, target: int)
    | Minimum(length: int, from: int, to: int)
    | Shrinking(sum: int, target: int)
    | Expanding(sum: int, target: int)

  /**
   * The window the loop ended with and the description; `None` is the `null`
   * that ends playback. A `Minimum` frame draws minStart .. minEnd, which its
   * description carries, and not this window.
   */
  datatype Frame = Frame(start: int, end: int, desc: Desc)

  function Describe(d: Desc): string
  {
    match d
    case Initialize(x, t) =>
      "Initialize: start = 0, end = 0, sum = " + IntToString(x) + ", target = " + IntToString(t)
    case Minimum(len, i, j) =>
      "Minimum length subarray: " + IntToString(len) + " (from index " + IntToString(i) + " to " + IntToString(j) + ")"
    case Shrinking(s, t) => "Current window sum: " + IntToString(s) + " >= " + IntToString(t) + " (shrink from left)"
    case Expanding(s, t) => "Current window sum: " + IntToString(s) + " < " + IntToString(t) + " (expand to right)"
  }

  function FrameOn(a: seq<int>, target: int, step: nat): Option<Frame>
    requires Admissible(a, target)
  {
    if step == 0 then Some(Frame(0, 0, Initialize(a[0], target)))
    else
      var w := Iterate(a, target, step);
      if w.end >= |a| && w.sum < target then
        if w.minLength.None? then None
        else Some(Frame(w.start, w.end, Minimum(w.minLength.value, w.minStart, w.minEnd)))
      else Some(Frame(w.start, w.end, if w.sum >= target then Shrinking(w.sum, target) else Expanding(w.sum, target)))
  }

  lemma SampleAdmissible()
    ensures Admissible(Sample, Target)
  {
  }

  function FrameAt(step: nat): Option<Frame>
  {
    SampleAdmissible();
    FrameOn(Sample, Target, step)
  }

  /** Once the loop has broken off, further iterations change nothing. */
  lemma {:induction false} Halted(a: seq<int>, target: int, j: nat, k: nat)
    requires |a| >= 1 && j <= k && Iterate(a, target, j).end >= |a|
    ensures Iterate(a, target, k) == Iterate(a, target, j)
    decreases k
  {
    if j < k {
      Halted(a, target, j, k - 1);
      Next(a, target, k - 1);
    }
  }

  method Animate(values: seq<int>, targetSum: int, step: nat) returns (f: Option<Frame>)
    requires Admissible(values, targetSum)
    ensures f == FrameOn(values, targetSum, step)
  {
    var start, end, sum := 0, 0, values[0];
    var minLength: Option<int> := None;
    var minStart, minEnd := 0, 0;
    if step == 0 {
      return Some(Frame(0, 0, Initialize(values[0], targetSum)));
    }
    var i := 0;
    while i < step
      invariant 0 <= i <= step
      invariant W(start, end, sum, minLength, minStart, minEnd) == Iterate(values, targetSum, i)
      invariant end < |values|
    {
      IterateGood(values, targetSum, i);
      Next(values, targetSum, i);
      if sum >= targetSum {
        if Shorter(end - start + 1, minLength) {
          minLength := Some(end - start + 1);
          minStart := start;
          minEnd := end;
        }
        sum := sum - values[start];
        start := start + 1;
      } else {
        end := end + 1;
        if end < |values| {
          sum := sum + values[end];
        } else {
          Halted(values, targetSum, i + 1, step);
          break;
        }
      }
      i := i + 1;
    }
    assert W(start, end, sum, minLength, minStart, minEnd) == Iterate(values, targetSum, step);
    if end >= |values| && sum < targetSum {
      if minLength.None? {
        return None;
      }
      return Some(Frame(start, end, Minimum(minLength.value, minStart, minEnd)));
    }
    if sum >= targetSum {
      f := Some(Frame(start, end, Shrinking(sum, targetSum)));
    } else {
      f := Some(Frame(start, end, Expanding(sum, targetSum)));
    }
  }

  /** The smallest length is Infinity exactly until the first shrink, the only place start moves. */
  lemma {:induction false} InfinityUntilShrink(a: seq<int>, target: int, k: nat)
    requires Admissible(a, target)
    ensures var w := Iterate(a, target, k);
      (w.minLength.None? <==> ShrinkLengths(a, target, k) == []) && (w.minLength.None? <==> w.start == 0)
  {
    if k > 0 {
      InfinityUntilShrink(a, target, k - 1);
      Next(a, target, k - 1);
      var w := Iterate(a, target, k - 1);
      if w.end < |a| {
        IterateGood(a, target, k - 1);
      }
    }
  }

  /** After the first shrink the smallest length is the length of one of the windows shrunk. */
  lemma {:induction false} MinimumAttained(a: seq<int>, target: int, k: nat)
    requires Admissible(a, target)
    ensures var w := Iterate(a, target, k);
      w.minLength.Some? ==> w.minLength.value in ShrinkLengths(a, target, k)
  {
    if k > 0 {
      MinimumAttained(a, target, k - 1);
      Next(a, target, k - 1);
      var ls := ShrinkLengths(a, target, k - 1);
      if ShrinksAt(a, target, k - 1) {
        var w := Iterate(a, target, k - 1);
        assert ShrinkLengths(a, target, k) == ls + [w.end - w.start + 1];
      } else {
        assert ShrinkLengths(a, target, k) == ls;
      }
    }
  }

  /** A recorded minimum that is no larger than any of the lengths `ls`. */
  predicate Least(m: Option<int>, ls: seq<int>)
  {
    forall i :: 0 <= i < |ls| ==> m.Some? && m.value <= ls[i]
  }

  lemma LeastAppend(m0: Option<int>, m: Option<int>, ls: seq<int>, x: int)
    requires Least(m0, ls) && m.Some? && m.value <= x && (m0.Some? ==> m.value <= m0.value)
    ensures Least(m, ls + [x])
  {
    var ls' := ls + [x];
    forall i | 0 <= i < |ls'| ensures m.Some? && m.value <= ls'[i] {
      if i < |ls| {
        assert ls'[i] == ls[i];
      }
    }
  }

  /** The smallest length is no longer than any window shrunk so far. */
  lemma {:induction false} MinimumIsLeast(a: seq<int>, target: int, k: nat)
    requires Admissible(a, target)
    ensures Least(Iterate(a, target, k).minLength, ShrinkLengths(a, target, k))
  {
    if k > 0 {
      MinimumIsLeast(a, target, k - 1);
      Next(a, target, k - 1);
      var ls := ShrinkLengths(a, target, k - 1);
      var w := Iterate(a, target, k - 1);
      var m := Iterate(a, target, k).minLength;
      if ShrinksAt(a, target, k - 1) {
        assert ShrinkLengths(a, target, k) == ls + [w.end - w.start + 1];
        assert m.Some? && m.value <= w.end - w.start + 1;
        assert w.minLength.Some? ==> m.value <= w.minLength.value;
        LeastAppend(w.minLength, m, ls, w.end - w.start + 1);
      } else {
        assert ShrinkLengths(a, target, k) == ls;
        assert m == w.minLength;
      }
    } else {
      assert ShrinkLengths(a, target, k) == [];
    }
  }

  /** The recorded shortest window lies inside the array, has the recorded length and reached the target. */
  lemma {:induction false} MinimumWindow(a: seq<int>, target: int, k: nat)
    requires Admissible(a, target)
    ensures var w := Iterate(a, target, k);
      w.minLength.Some? ==>
        w.minLength.value == w.minEnd - w.minStart + 1 &&
        0 <= w.minStart <= w.minEnd < |a| && SumRange(a, w.minStart, w.minEnd + 1) >= target
  {
    if k > 0 {
      MinimumWindow(a, target, k - 1);
      Next(a, target, k - 1);
      var w := Iterate(a, target, k - 1);
      if w.end < |a| {
        IterateGood(a, target, k - 1);
      }
    }
  }

  /** Playback ends (a null frame) exactly when the array ran out below target before any shrink. */
  lemma NullIff(a: seq<int>, target: int, step: nat)
    requires Admissible(a, target)
    ensures var w := Iterate(a, target, step);
      FrameOn(a, target, step).None? <==> step >= 1 && w.end >= |a| && w.sum < target && w.start == 0
  {
    InfinityUntilShrink(a, target, step);
  }

  const S0: W := W(0, 0, 4, None, 0, 0)
  const S1: W := W(0, 1, 6, None, 0, 0)
  const S2: W := W(0, 2, 7, None, 0, 0)
  const S3: W := W(0, 3, 14, None, 0, 0)
  const S4: W := W(1, 3, 10, Some(4), 0, 3)
  const S5: W := W(2, 3, 8, Some(3), 1, 3)
  const S6: W := W(3, 3, 7, Some(2), 2, 3)
  const S7: W := W(3, 4, 15, Some(2), 2, 3)
  const S8: W := W(4, 4, 8, Some(2), 2, 3)
  const S9: W := W(5, 4, 0, Some(1), 4, 4)
  const S10: W := W(5, 5, 1, Some(1), 4, 4)
  const S11: W := W(5, 6, 3, Some(1), 4, 4)
  const S12: W := W(5, 7, 11, Some(1), 4, 4)
  const S13: W := W(6, 7, 10, Some(1), 4, 4)
  const S14: W := W(7, 7, 8, Some(1), 4, 4)
  const S15: W := W(8, 7, 0, Some(1), 4, 4)
  const S16: W := W(8, 8, 1, Some(1), 4, 4)
  const S17: W := W(8, 9, 1, Some(1), 4, 4)
  const S18: W := W(8, 10, 1, Some(1), 4, 4)

  /** The loop body on each of the sample's states. */
  lemma SampleTickOne()
    ensures Tick(Sample, Target, S0) == S1
  {
  }

  lemma SampleTickTwo()
    ensures Tick(Sample, Target, S1) == S2
  {
  }

  lemma SampleTickThree()
    ensures Tick(Sample, Target, S2) == S3
  {
  }

  lemma SampleTickFour()
    ensures Tick(Sample, Target, S3) == S4
  {
  }

  lemma SampleTickFive()
    ensures Tick(Sample, Target, S4) == S5
  {
  }

  lemma SampleTickSix()
    ensures Tick(Sample, Target, S5) == S6
  {
  }

  lemma SampleTickSeven()
    ensures Tick(Sample, Target, S6) == S7
  {
  }

  lemma SampleTickEight()
    ensures Tick(Sample, Target, S7) == S8
  {
  }

  lemma SampleTickNine()
    ensures Tick(Sample, Target, S8) == S9
  {
  }

  lemma SampleTickTen()
    ensures Tick(Sample, Target, S9) == S10
  {
  }

  lemma SampleTickEleven()
    ensures Tick(Sample, Target, S10) == S11
  {
  }

  lemma SampleTickTwelve()
    ensures Tick(Sample, Target, S11) == S12
  {
  }

  lemma SampleTickThirteen()
    ensures Tick(Sample, Target, S12) == S13
  {
  }

  lemma SampleTickFourteen()
    ensures Tick(Sample, Target, S13) == S14
  {
  }

  lemma SampleTickFifteen()
    ensures Tick(Sample, Target, S14) == S15
  {
  }

  lemma SampleTickSixteen()
    ensures Tick(Sample, Target, S15) == S16
  {
  }

  lemma SampleTickSeventeen()
    ensures Tick(Sample, Target, S16) == S17
  {
  }

  lemma SampleTickEighteen()
    ensures Tick(Sample, Target, S17) == S18
  {
  }

  /** The sample's state after each of its eighteen iterations; the last one breaks off. */
  lemma SampleAfterOne()
    ensures Iterate(Sample, Target, 1) == S1
  {
    Next(Sample, Target, 0);
    SampleTickOne();
  }

  lemma SampleAfterTwo()
    ensures Iterate(Sample, Target, 2) == S2
  {
    SampleAfterOne();
    Next(Sample, Target, 1);
    SampleTickTwo();
  }

  lemma SampleAfterThree()
    ensures Iterate(Sample, Target, 3) == S3
  {
    SampleAfterTwo();
    Next(Sample, Target, 2);
    SampleTickThree();
  }

  lemma SampleAfterFour()
    ensures Iterate(Sample, Target, 4) == S4
  {
    SampleAfterThree();
    Next(Sample, Target, 3);
    SampleTickFour();
  }

  lemma SampleAfterFive()
    ensures Iterate(Sample, Target, 5) == S5
  {
    SampleAfterFour();
    Next(Sample, Target, 4);
    SampleTickFive();
  }

  lemma SampleAfterSix()
    ensures Iterate(Sample, Target, 6) == S6
  {
    SampleAfterFive();
    Next(Sample, Target, 5);
    SampleTickSix();
  }

  lemma SampleAfterSeven()
    ensures Iterate(Sample, Target, 7) == S7
  {
    SampleAfterSix();
    Next(Sample, Target, 6);
    SampleTickSeven();
  }

  lemma SampleAfterEight()
    ensures Iterate(Sample, Target, 8) == S8
  {
    SampleAfterSeven();
    Next(Sample, Target, 7);
    SampleTickEight();
  }

  lemma SampleAfterNine()
    ensures Iterate(Sample, Target, 9) == S9
  {
    SampleAfterEight();
    Next(Sample, Target, 8);
    SampleTickNine();
  }

  lemma SampleAfterTen()
    ensures Iterate(Sample, Target, 10) == S10
  {
    SampleAfterNine();
    Next(Sample, Target, 9);
    SampleTickTen();
  }

  lemma SampleAfterEleven()
    ensures Iterate(Sample, Target, 11) == S11
  {
    SampleAfterTen();
    Next(Sample, Target, 10);
    SampleTickEleven();
  }

  lemma SampleAfterTwelve()
    ensures Iterate(Sample, Target, 12) == S12
  {
    SampleAfterEleven();
    Next(Sample, Target, 11);
    SampleTickTwelve();
  }

  lemma SampleAfterThirteen()
    ensures Iterate(Sample, Target, 13) == S13
  {
    SampleAfterTwelve();
    Next(Sample, Target, 12);
    SampleTickThirteen();
  }

  lemma SampleAfterFourteen()
    ensures Iterate(Sample, Target, 14) == S14
  {
    SampleAfterThirteen();
    Next(Sample, Target, 13);
    SampleTickFourteen();
  }

  lemma SampleAfterFifteen()
    ensures Iterate(Sample, Target, 15) == S15
  {
    SampleAfterFourteen();
    Next(Sample, Target, 14);
    SampleTickFifteen();
  }

  lemma SampleAfterSixteen()
    ensures Iterate(Sample, Target, 16) == S16
  {
    SampleAfterFifteen();
    Next(Sample, Target, 15);
    SampleTickSixteen();
  }

  lemma SampleAfterSeventeen()
    ensures Iterate(Sample, Target, 17) == S17
  {
    SampleAfterSixteen();
    Next(Sample, Target, 16);
    SampleTickSeventeen();
  }

  lemma SampleAfterEighteen()
    ensures Iterate(Sample, Target, 18) == S18
  {
    SampleAfterSeventeen();
    Next(Sample, Target, 17);
    SampleTickEighteen();
  }

  /** From step 18 on the sample reports its shortest window, one element at index 4; it never ends playback. */
  lemma SampleFinal(step: nat)
    requires step >= 18
    ensures FrameAt(step) == Some(Frame(8, 10, Minimum(1, 4, 4)))
  {
    SampleAdmissible();
    SampleAfterEighteen();
    Halted(Sample, Target, 18, step);
  }

  lemma MinimumText()
    ensures Describe(Minimum(1, 4, 4)) == "Minimum length subarray: " + "1" + " (from index " + "4" + " to " + "4" + ")"
  {
    assert NatToString(1) == "1";
    assert NatToString(4) == "4";
  }

  /** Before the loop ends the sample's frames are never `null`. */
  lemma SampleEarlyFrames(step: nat)
    requires 1 <= step <= 9
    ensures FrameAt(step).Some?
  {
    SampleAdmissible();
    NullIff(Sample, Target, step);
    if step == 1 {
      SampleAfterOne();
    } else if step == 2 {
      SampleAfterTwo();
    } else if step == 3 {
      SampleAfterThree();
    } else if step == 4 {
      SampleAfterFour();
    } else if step == 5 {
      SampleAfterFive();
    } else if step == 6 {
      SampleAfterSix();
    } else if step == 7 {
      SampleAfterSeven();
    } else if step == 8 {
      SampleAfterEight();
    } else if step == 9 {
      SampleAfterNine();
    }
  }

  lemma SampleLateFrames(step: nat)
    requires 10 <= step <= 17
    ensures FrameAt(step).Some?
  {
    SampleAdmissible();
    NullIff(Sample, Target, step);
    if step == 10 {
      SampleAfterTen();
    } else if step == 11 {
      SampleAfterEleven();
    } else if step == 12 {
      SampleAfterTwelve();
    } else if step == 13 {
      SampleAfterThirteen();
    } else if step == 14 {
      SampleAfterFourteen();
    } else if step == 15 {
      SampleAfterFifteen();
    } else if step == 16 {
      SampleAfterSixteen();
    } else if step == 17 {
      SampleAfterSeventeen();
    }
  }

  /** The sample reaches the target, so its playback never ends with `null`. */
  lemma SampleNeverNull(step: nat)
    ensures FrameAt(step).Some?
  {
    if step == 0 {
    } else if step <= 9 {
      SampleEarlyFrames(step);
    } else if step <= 17 {
      SampleLateFrames(step);
    } else {
      SampleFinal(step);
    }
  }
}
