/**
 * The subsets simulator: the power set of the sample array is generated by
 * doubling (each element is appended to a copy of every subset so far), the
 * first min(step, 2^n) subsets are shown, and the current one is traced down
 * the include/exclude decision tree.
 */
module Subsets {
  import opened Wrappers
  import opened Text

  const SampleArray: seq<int> := [1, 2, 3]

  function Pow2(k: nat): (p: nat)
    ensures p >= 1
  {
    if k == 0 then 1 else 2 * Pow2(k - 1)
  }

  /** Bit j of i, least significant first. */
  predicate Bit(i: nat, j: nat)
  {
    if j == 0 then i % 2 == 1 else Bit(i / 2, j - 1)
  }

  /** Every subset of p with x appended: the `newSubsets` of one round. */
  function Extend(p: seq<seq<int>>, x: int): (r: seq<seq<int>>)
    ensures |r| == |p| && forall i :: 0 <= i < |p| ==> r[i] == p[i] + [x]
  {
    seq(|p|, i requires 0 <= i < |p| => p[i] + [x])
  }

  /** `allSubsets` after the rounds for the first k elements of a. */
  function Doubling(a: seq<int>, k: nat): (r: seq<seq<int>>)
    requires k <= |a|
    ensures |r| == Pow2(k)
  {
    if k == 0 then [[]]
    else
      var p := Doubling(a, k - 1);
      p + Extend(p, a[k - 1])
  }

  /** The independent description: a[j] is chosen, in array order, iff bit j of i is set. */
  function Select(a: seq<int>, k: nat, i: nat): seq<int>
    requires k <= |a|
  {
    if k == 0 then [] else Select(a, k - 1, i) + (if Bit(i, k - 1) then [a[k - 1]] else [])
  }

  function PowerSet(a: seq<int>): seq<seq<int>>
  {
    Doubling(a, |a|)
  }

  /** The nested loops of the source, building the power set by doubling. */
  method Generate(a: seq<int>) returns (allSubsets: seq<seq<int>>)
    ensures allSubsets == PowerSet(a)
  {
    allSubsets := [[]];
    for k := 0 to |a|
      invariant allSubsets == Doubling(a, k)
    {
      var num := a[k];
      var newSubsets: seq<seq<int>> := [];
      for i := 0 to |allSubsets|
        invariant |newSubsets| == i
        invariant forall j :: 0 <= j < i ==> newSubsets[j] == allSubsets[j] + [num]
      {
        newSubsets := newSubsets + [allSubsets[i] + [num]];
      }
      assert newSubsets == Extend(allSubsets, num);
      allSubsets := allSubsets + newSubsets;
    }
  }

  datatype Desc =
    | Initial(array: seq<int>)
    | Generated(count: nat, total: nat)

  /**
   * What one step shows: the subsets drawn in the grid, the current subset
   * (drawn when 0 < step < 2^n) and, for it, whether each array element is
   * included on the decision-tree path.
   */
  datatype Frame = Frame(shown: seq<seq<int>>, current: Option<seq<int>>, path: seq<bool>, desc: Desc)

  function Describe(d: Desc): string
  {
    match d
    case Initial(a) => "Initial array: [" + JoinInts(a, ", ") + "]"
    case Generated(k, n) => "Generated " + NatToString(k) + " of " + NatToString(n) + " subsets"
  }

  /** The label of a subset box: the empty set is drawn as ∅. */
  function SubsetLabel(s: seq<int>): string
  {
    if s == [] then "∅" else "[" + JoinInts(s, ", ") + "]"
  }

  /** `currentSubset.includes(array[i])` for every element, in order. */
  function PathOf(a: seq<int>, s: seq<int>): (p: seq<bool>)
    ensures |p| == |a| && forall i :: 0 <= i < |a| ==> (p[i] <==> a[i] in s)
  {
    seq(|a|, i requires 0 <= i < |a| => a[i] in s)
  }

  function FrameOn(a: seq<int>, step: nat): Frame
  {
    var all := PowerSet(a);
    var count := if step < |all| then step else |all|;
    var current := if 0 < step < |all| then Some(all[step]) else None;
    Frame(
      all[..count],
      current,
      if current.Some? then PathOf(a, current.value) else [],
      if step == 0 then Initial(a) else Generated(count, |all|))
  }

  function FrameAt(step: nat): Frame
  {
    FrameOn(SampleArray, step)
  }

  method Animate(a: seq<int>, step: nat) returns (f: Frame)
    ensures f == FrameOn(a, step)
  {
    var allSubsets := Generate(a);
    var currentStep := 0;
    var desc: Desc;
    if step == 0 {
      desc := Initial(a);
      currentStep := 0;
    } else {
      currentStep := if step < |allSubsets| then step else |allSubsets|;
      desc := Generated(currentStep, |allSubsets|);
    }
    var current: Option<seq<int>> := None;
    var path: seq<bool> := [];
    if step > 0 && step < |allSubsets| {
      var currentSubset := allSubsets[step];
      current := Some(currentSubset);
      for i := 0 to |a|
        invariant path == PathOf(a[..i], currentSubset)
      {
        assert a[..i + 1] == a[..i] + [a[i]];
        path := path + [a[i] in currentSubset];
      }
      assert a[..|a|] == a;
    }
    f := Frame(allSubsets[..currentStep], current, path, desc);
  }

  /** Adding 2^m to a number leaves its bits below m unchanged... */
  lemma {:induction false} BitAbove(i: nat, m: nat, j: nat)
    requires j < m
    ensures Bit(i + Pow2(m), j) <==> Bit(i, j)
    decreases j
  {
    assert Pow2(m) == 2 * Pow2(m - 1);
    if j > 0 {
      assert (i + Pow2(m)) / 2 == i / 2 + Pow2(m - 1);
      BitAbove(i / 2, m - 1, j - 1);
    }
  }

  /** ... and bit m of a number below 2^(m+1) is set iff the number is at least 2^m. */
  lemma {:induction false} TopBit(i: nat, m: nat)
    requires i < 2 * Pow2(m)
    ensures Bit(i, m) <==> i >= Pow2(m)
    decreases m
  {
    if m > 0 {
      assert Pow2(m) == 2 * Pow2(m - 1);
      TopBit(i / 2, m - 1);
    }
  }

  /** The lower bits of i and i - 2^m agree when 2^m <= i. */
  lemma {:induction false} SelectDropsTop(a: seq<int>, k: nat, i: nat, m: nat)
    requires k <= m && k <= |a| && Pow2(m) <= i
    ensures Select(a, k, i) == Select(a, k, i - Pow2(m))
    decreases k
  {
    if k > 0 {
      SelectDropsTop(a, k - 1, i, m);
      BitAbove(i - Pow2(m), m, k - 1);
    }
  }

  /** Subset i of the doubling is the selection of the elements whose bit is set in i. */
  lemma {:induction false} DoublingSelects(a: seq<int>, k: nat, i: nat)
    requires k <= |a| && i < Pow2(k)
    ensures Doubling(a, k)[i] == Select(a, k, i)
    decreases k
  {
    if k > 0 {
      var p := Doubling(a, k - 1);
      TopBit(i, k - 1);
      if i < |p| {
        DoublingSelects(a, k - 1, i);
      } else {
        DoublingSelects(a, k - 1, i - |p|);
        SelectDropsTop(a, k - 1, i, k - 1);
      }
    }
  }

  /** The power set has 2^n subsets, the first of them empty, built by the bit rule. */
  lemma PowerSetShape(a: seq<int>)
    ensures |PowerSet(a)| == Pow2(|a|)
    ensures PowerSet(a)[0] == []
    ensures forall i :: 0 <= i < Pow2(|a|) ==> PowerSet(a)[i] == Select(a, |a|, i)
  {
    forall i | 0 <= i < Pow2(|a|) ensures PowerSet(a)[i] == Select(a, |a|, i) {
      DoublingSelects(a, |a|, i);
    }
    ZeroSelectsNothing(a, |a|);
    DoublingSelects(a, |a|, 0);
  }

  lemma {:induction false} ZeroSelectsNothing(a: seq<int>, k: nat)
    requires k <= |a|
    ensures Select(a, k, 0) == []
    decreases k
  {
    if k > 0 {
      ZeroSelectsNothing(a, k - 1);
      ZeroHasNoBits(k - 1);
    }
  }

  lemma {:induction false} ZeroHasNoBits(j: nat)
    ensures !Bit(0, j)
    decreases j
  {
    if j > 0 {
      ZeroHasNoBits(j - 1);
    }
  }

  predicate Distinct(a: seq<int>)
  {
    forall i, j :: 0 <= i < j < |a| ==> a[i] != a[j]
  }

  /** Every subset after k rounds draws its elements from the first k of the array. */
  lemma {:induction false} DoublingElements(a: seq<int>, k: nat, i: nat, x: int)
    requires k <= |a| && i < Pow2(k)
    ensures x in Doubling(a, k)[i] ==> x in a[..k]
    decreases k
  {
    if k > 0 {
      var p := Doubling(a, k - 1);
      PrefixHas(a, k, x);
      DoublingAt(a, k, i);
      if i < |p| {
        DoublingElements(a, k - 1, i, x);
      } else {
        DoublingElements(a, k - 1, i - |p|, x);
      }
    }
  }

  /** Subset i after k rounds: an old subset, or an old one with the k-th element appended. */
  lemma DoublingAt(a: seq<int>, k: nat, i: nat)
    requires 1 <= k <= |a| && i < Pow2(k)
    ensures var p := Doubling(a, k - 1);
      Doubling(a, k)[i] == if i < |p| then p[i] else p[i - |p|] + [a[k - 1]]
  {
  }

  lemma PrefixHas(a: seq<int>, k: nat, x: int)
    requires 1 <= k <= |a|
    ensures x in a[..k] <==> x in a[..k - 1] || x == a[k - 1]
  {
    assert a[..k] == a[..k - 1] + [a[k - 1]];
  }

  /** For an array of distinct numbers all subsets generated are different. */
  lemma {:induction false} DoublingDistinct(a: seq<int>, k: nat, i: nat, j: nat)
    requires Distinct(a) && k <= |a| && i < j < Pow2(k)
    ensures Doubling(a, k)[i] != Doubling(a, k)[j]
    decreases k
  {
    var p := Doubling(a, k - 1);
    var x := a[k - 1];
    if j < |p| {
      DoublingDistinct(a, k - 1, i, j);
    } else if i >= |p| {
      DoublingDistinct(a, k - 1, i - |p|, j - |p|);
      assert Doubling(a, k)[i] == p[i - |p|] + [x];
      assert Doubling(a, k)[j] == p[j - |p|] + [x];
      assert Doubling(a, k)[i][..|p[i - |p|]|] == p[i - |p|];
    } else {
      assert x in Doubling(a, k)[j];
      DoublingElements(a, k - 1, i, x);
      assert x !in a[..k - 1];
    }
  }

  /**
   * For an array of distinct numbers, the decision-tree path of subset i goes
   * right at level j exactly when bit j of i is set.
   */
  lemma PathFollowsBits(a: seq<int>, i: nat, j: nat)
    requires Distinct(a) && i < Pow2(|a|) && j < |a|
    ensures PathOf(a, PowerSet(a)[i])[j] <==> Bit(i, j)
  {
    DoublingSelects(a, |a|, i);
    SelectHas(a, |a|, i, j);
  }

  lemma {:induction false} SelectHas(a: seq<int>, k: nat, i: nat, j: nat)
    requires Distinct(a) && k <= |a| && j < |a|
    ensures a[j] in Select(a, k, i) <==> j < k && Bit(i, j)
    decreases k
  {
    if k > 0 {
      SelectHas(a, k - 1, i, j);
      var rest := Select(a, k - 1, i);
      var tail := if Bit(i, k - 1) then [a[k - 1]] else [];
      assert Select(a, k, i) == rest + tail;
      assert a[j] in Select(a, k, i) <==> a[j] in rest || a[j] in tail;
      if j < k - 1 {
        assert a[j] != a[k - 1];
      }
    }
  }

  /** The count shown clamps at the number of subsets; the step-0 frame shows none. */
  lemma FrameCount(a: seq<int>, step: nat)
    ensures var f := FrameOn(a, step);
      |f.shown| == (if step < Pow2(|a|) then step else Pow2(|a|)) &&
      (forall i :: 0 <= i < |f.shown| ==> f.shown[i] == Select(a, |a|, i)) &&
      (step > 0 ==> f.desc == Generated(|f.shown|, Pow2(|a|))) &&
      (f.current.Some? <==> 0 < step < Pow2(|a|))
  {
    PowerSetShape(a);
  }

  lemma SamplePowerSet()
    ensures PowerSet(SampleArray) == [[], [1], [2], [1, 2], [3], [1, 3], [2, 3], [1, 2, 3]]
  {
    var p1 := Doubling(SampleArray, 1);
    assert p1[0] == [] && p1[1] == [1];
    assert p1 == [[], [1]];
    var p2 := Doubling(SampleArray, 2);
    assert p2[2] == [2] && p2[3] == [1, 2];
    assert p2 == [[], [1], [2], [1, 2]];
    var p3 := PowerSet(SampleArray);
    assert p3[4] == [3] && p3[5] == [1, 3] && p3[6] == [2, 3] && p3[7] == [1, 2, 3];
  }

  lemma SampleInitialText()
    ensures Describe(FrameAt(0).desc) == "Initial array: [" + ("1" + ", " + "2" + ", " + "3") + "]"
  {
    JoinIntsSnoc([1], 2, ", ");
    assert [1] + [2] == [1, 2];
    JoinIntsSnoc([1, 2], 3, ", ");
    assert [1, 2] + [3] == SampleArray;
  }

  lemma SampleFinalText(step: nat)
    requires step >= 8
    ensures Describe(FrameAt(step).desc) == "Generated " + "8" + " of " + "8" + " subsets"
  {
    PowerSetShape(SampleArray);
    assert Pow2(3) == 8;
    assert FrameAt(step).desc == Generated(8, 8);
  }

  lemma SampleStepThree()
    ensures FrameAt(3).desc == Generated(3, 8)
    ensures FrameAt(3).current == Some([1, 2])
    ensures FrameAt(3).path == [true, true, false]
  {
    SamplePowerSet();
  }
}
