/**
 * The greedy activity-selection simulator: the activities are stably sorted by
 * finish time and the first min(step, n) of them are examined in order; an
 * activity is selected when it starts no earlier than the last selected one
 * finished (0 before any selection).
 */
module GreedyAlgorithms {
  import opened Wrappers
  import opened Text
  import Sorting

  datatype Act = Act(start: int, finish: int)

  const Activities: seq<Act> := [
    Act(1, 4), Act(3, 5), Act(0, 6), Act(5, 7), Act(3, 9), Act(5, 9),
    Act(6, 10), Act(8, 11), Act(8, 12), Act(2, 14), Act(12, 16)]

  function Finishes(acts: seq<Act>): (r: seq<int>)
    ensures |r| == |acts| && forall i :: 0 <= i < |acts| ==> r[i] == acts[i].finish
  {
    seq(|acts|, i requires 0 <= i < |acts| => acts[i].finish)
  }

  /** The positions of `[...activities].sort((a, b) => a[1] - b[1])`. */
  function SortOrder(acts: seq<Act>): (r: seq<nat>)
    ensures |r| == |acts| && forall i :: 0 <= i < |r| ==> r[i] < |acts|
  {
    var r := Sorting.StableSortBy(Finishes(acts), |acts|);
    assert forall i :: 0 <= i < |r| ==> r[i] in r;
    r
  }

  function SortByFinish(acts: seq<Act>): (r: seq<Act>)
    ensures |r| == |acts|
  {
    var order := SortOrder(acts);
    seq(|acts|, i requires 0 <= i < |acts| => acts[order[i]])
  }

  predicate ByFinish(s: seq<Act>)
  {
    forall i, j :: 0 <= i < j < |s| ==> s[i].finish <= s[j].finish
  }

  /**
   * The sorted list takes every activity once, orders them by finish time,
   * and keeps activities with equal finish times in their input order.
   */
  lemma SortIsStableByFinish(acts: seq<Act>)
    ensures var order := SortOrder(acts); var r := SortByFinish(acts);
      multiset(order) == multiset(Sorting.Range(|acts|)) &&
      (forall i :: 0 <= i < |r| ==> r[i] == acts[order[i]]) &&
      ByFinish(r) &&
      (forall i, j :: 0 <= i < j < |r| && r[i].finish == r[j].finish ==> order[i] < order[j])
  {
    var keys := Finishes(acts);
    Sorting.SortIsStable(keys, |acts|);
    Sorting.SortPermutes(keys, |acts|);
    var order := SortOrder(acts);
    var r := SortByFinish(acts);
    forall i, j | 0 <= i < j < |r|
      ensures r[i].finish <= r[j].finish
      ensures r[i].finish == r[j].finish ==> order[i] < order[j]
    {
      assert Sorting.Before(keys, order[i], order[j]);
    }
  }

  /** An input already ordered by finish time comes out as it went in. */
  lemma SortedStaysPut(acts: seq<Act>)
    requires ByFinish(acts)
    ensures SortByFinish(acts) == acts
  {
    Sorting.SortOfSortedIsIdentity(Finishes(acts), |acts|);
  }

  datatype Desc =
    | Initial
    | Selected(start: int, finish: int)
    | Skipped(start: int, finish: int)
    | Complete(count: nat)
    | Blank

  /** The loop's variables after some iterations; `picks` are the sorted positions selected. */
  datatype Scan = Scan(selected: seq<Act>, picks: seq<nat>, last: int, current: Option<Act>, desc: Desc)

  /** The state after examining the first k sorted activities. */
  function ScanTo(sorted: seq<Act>, k: nat): Scan
    requires k <= |sorted|
  {
    if k == 0 then Scan([], [], 0, None, Blank)
    else
      var s := ScanTo(sorted, k - 1);
      var a := sorted[k - 1];
      if a.start >= s.last then Scan(s.selected + [a], s.picks + [k - 1], a.finish, Some(a), Selected(a.start, a.finish))
      else s.(current := Some(a), desc := Skipped(a.start, a.finish))
  }

  /** The selection, the activity last examined and the description a step shows. */
  datatype Frame = Frame(selected: seq<Act>, current: Option<Act>, desc: Desc)

  function Min(a: nat, b: nat): nat
  {
    if a < b then a else b
  }

  function FrameOn(acts: seq<Act>, step: nat): Frame
  {
    var sorted := SortByFinish(acts);
    if step == 0 then Frame([], None, Initial)
    else
      var s := ScanTo(sorted, Min(step, |sorted|));
      Frame(s.selected, s.current, if step >= |sorted| then Complete(|s.selected|) else s.desc)
  }

  function FrameAt(step: nat): Frame
  {
    FrameOn(Activities, step)
  }

  function Describe(d: Desc): string
  {
    match d
    case Initial => "Initial activities sorted by finish time"
    case Selected(s, f) => "Selected activity [" + IntToString(s) + ", " + IntToString(f) + "]"
    case Skipped(s, f) =>
      "Skipped activity [" + IntToString(s) + ", " + IntToString(f) + "] (conflicts with last selected activity)"
    case Complete(c) => "Greedy selection complete: " + NatToString(c) + " activities selected"
    case Blank => ""
  }

  method Animate(step: nat) returns (f: Frame)
    ensures f == FrameAt(step)
  {
    var sorted := SortByFinish(Activities);
    if step == 0 {
      return Frame([], None, Initial);
    }
    var selected: seq<Act> := [];
    ghost var picks: seq<nat> := [];
    var current: Option<Act> := None;
    var desc := Blank;
    var lastFinishTime := 0;
    var bound := Min(step, |sorted|);
    for i := 0 to bound
      invariant ScanTo(sorted, i) == Scan(selected, picks, lastFinishTime, current, desc)
    {
      var activity := sorted[i];
      current := Some(activity);
      if activity.start >= lastFinishTime {
        selected := selected + [activity];
        picks := picks + [i];
        lastFinishTime := activity.finish;
        desc := Selected(activity.start, activity.finish);
      } else {
        desc := Skipped(activity.start, activity.finish);
      }
    }
    if step >= |sorted| {
      desc := Complete(|selected|);
    }
    f := Frame(selected, current, desc);
  }

  /**
   * The selection is a subsequence of the sorted list (at increasing positions
   * below k), the last finish is that of the last selection (0 before any), and
   * the activity shown is the k-th examined.
   */
  lemma {:induction false} ScanShape(sorted: seq<Act>, k: nat)
    requires k <= |sorted|
    ensures var s := ScanTo(sorted, k);
      |s.selected| == |s.picks| &&
      (forall t :: 0 <= t < |s.picks| ==> s.picks[t] < k && s.selected[t] == sorted[s.picks[t]]) &&
      (forall t, u :: 0 <= t < u < |s.picks| ==> s.picks[t] < s.picks[u]) &&
      s.last == (if s.selected == [] then 0 else s.selected[|s.selected| - 1].finish) &&
      (k > 0 ==> s.current == Some(sorted[k - 1]))
  {
    if k > 0 {
      ScanShape(sorted, k - 1);
    }
  }

  /** Later iterations only append to the selection. */
  lemma {:induction false} ScanExtends(sorted: seq<Act>, j: nat, k: nat)
    requires j <= k <= |sorted|
    ensures var s, t := ScanTo(sorted, j), ScanTo(sorted, k);
      s.picks <= t.picks && forall u :: |s.picks| <= u < |t.picks| ==> t.picks[u] >= j
    decreases k
  {
    if j < k {
      ScanExtends(sorted, j, k - 1);
      ScanShape(sorted, k);
      var t := ScanTo(sorted, k);
      assert forall u :: 0 <= u < |t.picks| ==> t.picks[u] < k;
    }
  }

  /** Position j is selected exactly when its activity starts no earlier than the last finish before it. */
  lemma SelectedIff(sorted: seq<Act>, j: nat, k: nat)
    requires j < k <= |sorted|
    ensures j in ScanTo(sorted, k).picks <==> sorted[j].start >= ScanTo(sorted, j).last
  {
    var s, s1, t := ScanTo(sorted, j), ScanTo(sorted, j + 1), ScanTo(sorted, k);
    ScanShape(sorted, j);
    ScanExtends(sorted, j + 1, k);
    assert forall u :: 0 <= u < |s.picks| ==> s.picks[u] < j;
    if sorted[j].start >= s.last {
      assert s1.picks[|s.picks|] == j;
      assert t.picks[|s.picks|] == j;
    } else {
      assert s1.picks == s.picks;
      assert forall u :: 0 <= u < |t.picks| ==> t.picks[u] != j by {
        forall u | 0 <= u < |t.picks| ensures t.picks[u] != j {
          if u < |s1.picks| {
            assert t.picks[u] == s1.picks[u];
          }
        }
      }
    }
  }

  /** On a list ordered by finish time the selected activities are pairwise compatible. */
  lemma {:induction false} SelectionCompatible(sorted: seq<Act>, k: nat)
    requires k <= |sorted| && ByFinish(sorted)
    ensures var sel := ScanTo(sorted, k).selected;
      forall t, u :: 0 <= t < u < |sel| ==> sel[t].finish <= sel[u].start
  {
    if k > 0 {
      SelectionCompatible(sorted, k - 1);
      var s := ScanTo(sorted, k - 1);
      ScanShape(sorted, k - 1);
      var a := sorted[k - 1];
      if a.start >= s.last && s.selected != [] {
        var n := |s.selected|;
        assert forall t :: 0 <= t < n ==> s.selected[t].finish <= s.last by {
          forall t | 0 <= t < n ensures s.selected[t].finish <= s.last {
            if t < n - 1 {
              assert s.picks[t] < s.picks[n - 1];
            }
          }
        }
        var sel := s.selected + [a];
        assert forall t :: 0 <= t < n ==> sel[t] == s.selected[t];
      }
    }
  }

  /** Exactly min(step, n) sorted activities are examined; the one shown is the last of them. */
  lemma Examined(acts: seq<Act>, step: nat)
    requires 1 <= step && acts != []
    ensures FrameOn(acts, step).current == Some(SortByFinish(acts)[Min(step, |acts|) - 1])
  {
    ScanShape(SortByFinish(acts), Min(step, |acts|));
  }

  lemma SampleSorted()
    ensures SortByFinish(Activities) == Activities
  {
    SortedStaysPut(Activities);
  }

  /** The selection over the whole sample: the activities [1, 4], [5, 7], [8, 11] and [12, 16]. */
  lemma SampleScan()
    ensures ScanTo(Activities, 11) ==
      Scan([Act(1, 4), Act(5, 7), Act(8, 11), Act(12, 16)], [0, 3, 7, 10], 16, Some(Act(12, 16)), Selected(12, 16))
  {
  }

  /** Once every activity has been examined the frame keeps the final selection and reports its size. */
  lemma AfterEnd(acts: seq<Act>, step: nat)
    requires 1 <= step && |acts| <= step
    ensures var s := ScanTo(SortByFinish(acts), |acts|);
      FrameOn(acts, step) == Frame(s.selected, s.current, Complete(|s.selected|))
  {
  }

  lemma SampleFrame(step: nat)
    requires step >= 11
    ensures FrameAt(step) == Frame([Act(1, 4), Act(5, 7), Act(8, 11), Act(12, 16)], Some(Act(12, 16)), Complete(4))
  {
    AfterEnd(Activities, step);
    SampleSorted();
    SampleScan();
  }

  lemma CompleteText()
    ensures Describe(Complete(4)) == "Greedy selection complete: " + "4" + " activities selected"
  {
    assert NatToString(4) == "4";
  }

  /** From step 11 on, the frame shows the four selected activities and the completion message. */
  lemma SampleComplete(step: nat)
    requires step >= 11
    ensures FrameAt(step).selected == [Act(1, 4), Act(5, 7), Act(8, 11), Act(12, 16)]
    ensures Describe(FrameAt(step).desc) == "Greedy selection complete: " + "4" + " activities selected"
  {
    SampleFrame(step);
    CompleteText();
  }

  /** At step 1 the first activity, [1, 4], is selected. */
  lemma SampleStepOne()
    ensures FrameAt(1) == Frame([Act(1, 4)], Some(Act(1, 4)), Selected(1, 4))
  {
    SampleSorted();
  }

  /** At step 2 the activity [3, 5] is skipped. */
  lemma SampleStepTwo()
    ensures FrameAt(2) == Frame([Act(1, 4)], Some(Act(3, 5)), Skipped(3, 5))
  {
    SampleSorted();
  }

  lemma SampleInitial()
    ensures Describe(FrameAt(0).desc) == "Initial activities sorted by finish time"
  {
  }
}
