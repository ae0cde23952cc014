/**
 * The merge-intervals simulator. The input pairs are objects: the sorted
 * copy and the merged list hold references to them, and merging writes the
 * new end into the last merged object in place. The model keeps the objects
 * in a store (object k is the k-th input pair) and the lists as references.
 */
module MergeIntervals {
  import opened Text
  import Sorting

  datatype Iv = Iv(lo: int, hi: int)

  const Sample: seq<Iv> := [Iv(1, 3), Iv(2, 6), Iv(8, 10), Iv(15, 18)]

  datatype Desc =
    | Original
    | Blank
    | Merged(lo: int, hi: int, curLo: int, curHi: int)
    | Added(lo: int, hi: int)
    | Final(merged: seq<Iv>)

  /** `drawn` is what the input pairs hold when drawn; `merged` the merged list. */
  datatype Frame = Frame(drawn: seq<Iv>, merged: seq<Iv>, desc: Desc)

  function IvJson(v: Iv): string
  {
    "[" + IntToString(v.lo) + "," + IntToString(v.hi) + "]"
  }

  /** `JSON.stringify` of a list of pairs. */
  function ListJson(vs: seq<Iv>): string
  {
    "[" + IvsJson(vs) + "]"
  }

  function IvsJson(vs: seq<Iv>): string
  {
    if |vs| == 0 then ""
    else if |vs| == 1 then IvJson(vs[0])
    else IvsJson(vs[..|vs| - 1]) + "," + IvJson(vs[|vs| - 1])
  }

  function Describe(d: Desc): string
  {
    match d
    case Original => "Original intervals (sorted by start time)"
    case Blank => ""
    case Merged(a, b, c, e) =>
      "Merged interval [" + IntToString(a) + ", " + IntToString(b) + "] with ["
      + IntToString(c) + ", " + IntToString(e) + "]"
    case Added(c, e) => "Added new interval [" + IntToString(c) + ", " + IntToString(e) + "]"
    case Final(m) => "Final merged intervals: " + ListJson(m)
  }

  function Starts(ivs: seq<Iv>): (r: seq<int>)
    ensures |r| == |ivs| && forall k :: 0 <= k < |ivs| ==> r[k] == ivs[k].lo
  {
    seq(|ivs|, k requires 0 <= k < |ivs| => ivs[k].lo)
  }

  predicate Refs(store: seq<Iv>, refs: seq<nat>)
  {
    forall p :: 0 <= p < |refs| ==> refs[p] < |store|
  }

  /** Positions into the sorted list, strictly increasing. */
  predicate Positions(merged: seq<nat>, bound: nat)
  {
    (forall p :: 0 <= p < |merged| ==> merged[p] < bound)
    && (forall p, q :: 0 <= p < q < |merged| ==> merged[p] < merged[q])
  }

  /** The values of the merged objects: `merged[p]` names the object `order[merged[p]]`. */
  function Values(store: seq<Iv>, order: seq<nat>, merged: seq<nat>): (r: seq<Iv>)
    requires Refs(store, order) && Positions(merged, |order|)
    ensures |r| == |merged|
    ensures forall p :: 0 <= p < |merged| ==> r[p] == store[order[merged[p]]]
  {
    seq(|merged|, p requires 0 <= p < |merged| => store[order[merged[p]]])
  }

  function Max(x: int, y: int): int { if x >= y then x else y }
  function Min(x: int, y: int): int { if x <= y then x else y }

  datatype Loop = Loop(store: seq<Iv>, merged: seq<nat>, desc: Desc)

  /**
   * One iteration: merge the i-th sorted pair into the last merged object
   * (writing its end in place), or append the i-th sorted pair.
   */
  function MergeStep(store: seq<Iv>, order: seq<nat>, merged: seq<nat>, i: nat): (r: Loop)
    requires i < |order| && |merged| >= 1 && Refs(store, order) && Positions(merged, i)
    ensures |r.store| == |store| && |r.merged| >= 1 && Positions(r.merged, i + 1)
  {
    var cur := store[order[i]];
    var last := order[merged[|merged| - 1]];
    if cur.lo <= store[last].hi then
      var end := Max(store[last].hi, cur.hi);
      Loop(store[last := Iv(store[last].lo, end)], merged, Merged(store[last].lo, end, cur.lo, cur.hi))
    else
      Loop(store, merged + [i], Added(cur.lo, cur.hi))
  }

  /** Iterations i .. stop-1 of the merge loop. */
  function MergeLoop(store: seq<Iv>, order: seq<nat>, merged: seq<nat>, i: nat, stop: nat, desc: Desc): (r: Loop)
    requires i <= stop <= |order| && |merged| >= 1 && Refs(store, order) && Positions(merged, i)
    ensures |r.store| == |store| && |r.merged| >= 1 && Positions(r.merged, stop)
    decreases stop - i
  {
    if i == stop then Loop(store, merged, desc)
    else
      var s := MergeStep(store, order, merged, i);
      MergeLoop(s.store, order, s.merged, i + 1, stop, s.desc)
  }

  function SortedOrder(ivs: seq<Iv>): (order: seq<nat>)
    ensures |order| == |ivs| && Refs(ivs, order)
  {
    var order := Sorting.StableSortBy(Starts(ivs), |ivs|);
    assert forall p :: 0 <= p < |order| ==> order[p] in order;
    order
  }

  function FrameOn(ivs: seq<Iv>, step: nat): (f: Frame)
    requires |ivs| >= 1
    ensures |f.drawn| == |ivs|
    ensures step == 0 ==> f.merged == ivs && f.drawn == ivs
  {
    if step == 0 then Frame(ivs, ivs, Original)
    else
      var order := SortedOrder(ivs);
      var processed := Min(step, |ivs|);
      var r := MergeLoop(ivs, order, [0], 1, processed, Blank);
      var merged := Values(r.store, order, r.merged);
      Frame(r.store, merged, if processed >= |ivs| then Final(merged) else r.desc)
  }

  function FrameAt(step: nat): Frame
  {
    FrameOn(Sample, step)
  }

  method Animate(step: nat) returns (f: Frame)
    ensures f == FrameAt(step)
  {
    var intervals := Sample;
    if step == 0 {
      return Frame(intervals, intervals, Original);
    }
    var store := intervals;
    var order := SortedOrder(intervals);
    var merged: seq<nat> := [0];
    var desc := Blank;
    var processed := Min(step, |order|);
    var i := 1;
    while i < processed
      invariant 1 <= i <= processed
      invariant |store| == |intervals| && |merged| >= 1 && Positions(merged, i)
      invariant MergeLoop(store, order, merged, i, processed, desc)
        == MergeLoop(intervals, order, [0], 1, processed, Blank)
    {
      var current := store[order[i]];
      var last := order[merged[|merged| - 1]];
      if current.lo <= store[last].hi {
        store := store[last := Iv(store[last].lo, Max(store[last].hi, current.hi))];
        desc := Merged(store[last].lo, store[last].hi, current.lo, current.hi);
      } else {
        merged := merged + [i];
        desc := Added(current.lo, current.hi);
      }
      i := i + 1;
    }
    var values := Values(store, order, merged);
    if processed >= |order| {
      desc := Final(values);
    }
    f := Frame(store, values, desc);
  }

  // ---- the loop invariant ----

  predicate In(v: Iv, x: int) { v.lo <= x <= v.hi }

  /** Sorted by start, and each pair ends before any later one starts. */
  predicate SortedDisjoint(vs: seq<Iv>)
  {
    forall p, q :: 0 <= p < q < |vs| ==> vs[p].hi < vs[q].lo
  }

  /** `order` lists distinct objects by non-decreasing start. */
  predicate OrderOk(ivs: seq<Iv>, order: seq<nat>)
  {
    Refs(ivs, order)
    && (forall j, i :: 0 <= j < i < |order| ==> order[j] != order[i])
    && (forall j, i :: 0 <= j < i < |order| ==> ivs[order[j]].lo <= ivs[order[i]].lo)
  }

  /** Objects not yet consumed hold their input value; starts never change. */
  predicate Untouched(ivs: seq<Iv>, order: seq<nat>, store: seq<Iv>, i: nat)
    requires Refs(ivs, order) && |store| == |ivs|
  {
    (forall k :: 0 <= k < |store| ==> store[k].lo == ivs[k].lo)
    && (forall j :: i <= j < |order| ==> store[order[j]] == ivs[order[j]])
  }

  /** Every consumed object whose value changed is one of the merged objects. */
  predicate ChangedAreMerged(ivs: seq<Iv>, order: seq<nat>, store: seq<Iv>, merged: seq<nat>, i: nat)
    requires Refs(ivs, order) && |store| == |ivs| && i <= |order|
  {
    forall j :: 0 <= j < i && store[order[j]] != ivs[order[j]] ==> j in merged
  }

  predicate Inv(ivs: seq<Iv>, order: seq<nat>, store: seq<Iv>, merged: seq<nat>, i: nat)
  {
    |store| == |ivs| && 1 <= i <= |order| && |merged| >= 1 && OrderOk(ivs, order)
    && Positions(merged, i) && Untouched(ivs, order, store, i)
    && ChangedAreMerged(ivs, order, store, merged, i)
    && SortedDisjoint(Values(store, order, merged))
  }

  lemma StepKeepsInv(ivs: seq<Iv>, order: seq<nat>, store: seq<Iv>, merged: seq<nat>, i: nat)
    requires Inv(ivs, order, store, merged, i) && i < |order|
    ensures var s := MergeStep(store, order, merged, i); Inv(ivs, order, s.store, s.merged, i + 1)
  {
    if store[order[i]].lo <= store[order[merged[|merged| - 1]]].hi {
      MergeKeepsInv(ivs, order, store, merged, i);
    } else {
      AppendKeepsInv(ivs, order, store, merged, i);
    }
  }

  /** A merge writes the end of the last merged object and keeps the invariant. */
  lemma MergeKeepsInv(ivs: seq<Iv>, order: seq<nat>, store: seq<Iv>, merged: seq<nat>, i: nat)
    requires Inv(ivs, order, store, merged, i) && i < |order|
    requires store[order[i]].lo <= store[order[merged[|merged| - 1]]].hi
    ensures var s := MergeStep(store, order, merged, i); Inv(ivs, order, s.store, s.merged, i + 1)
  {
    var s := MergeStep(store, order, merged, i);
    var n := |merged| - 1;
    var last := order[merged[n]];
    var old_ := Values(store, order, merged);
    var new_ := Values(s.store, order, s.merged);
    assert Untouched(ivs, order, s.store, i + 1) by {
      forall j | i + 1 <= j < |order| ensures s.store[order[j]] == ivs[order[j]] {
        assert order[j] != last;
      }
    }
    assert ChangedAreMerged(ivs, order, s.store, s.merged, i + 1) by {
      forall j | 0 <= j < i + 1 && s.store[order[j]] != ivs[order[j]] ensures j in s.merged {
        if order[j] == last {
          if j != merged[n] { assert false; }
          assert s.merged[n] == j;
        } else {
          assert s.store[order[j]] == store[order[j]];
        }
      }
    }
    forall p | 0 <= p < n ensures new_[p] == old_[p] {
      assert order[merged[p]] != last;
    }
    assert SortedDisjoint(new_) by {
      forall p, q | 0 <= p < q < |new_| ensures new_[p].hi < new_[q].lo {
        assert old_[p].hi < old_[q].lo;
      }
    }
  }

  /** An append adds the current pair, which starts after the last merged end. */
  lemma AppendKeepsInv(ivs: seq<Iv>, order: seq<nat>, store: seq<Iv>, merged: seq<nat>, i: nat)
    requires Inv(ivs, order, store, merged, i) && i < |order|
    requires store[order[i]].lo > store[order[merged[|merged| - 1]]].hi
    ensures var s := MergeStep(store, order, merged, i); Inv(ivs, order, s.store, s.merged, i + 1)
  {
    var s := MergeStep(store, order, merged, i);
    var n := |merged| - 1;
    var last := order[merged[n]];
    var c := order[i];
    var old_ := Values(store, order, merged);
    var new_ := Values(s.store, order, s.merged);
    assert SortedDisjoint(new_) by {
      forall p, q | 0 <= p < q < |new_| ensures new_[p].hi < new_[q].lo {
        if q == n + 1 {
          assert ivs[last].lo <= ivs[c].lo;
          if p < n { assert old_[p].hi < old_[n].lo; }
        } else {
          assert old_[p].hi < old_[q].lo;
        }
      }
    }
    assert Untouched(ivs, order, s.store, i + 1);
    assert ChangedAreMerged(ivs, order, s.store, s.merged, i + 1) by {
      forall j | 0 <= j < i + 1 && s.store[order[j]] != ivs[order[j]] ensures j in s.merged {
        if j < i { assert j in merged; }
      }
    }
  }

  /** Some consumed pair, or some merged value, contains the point x. */
  predicate CoversPrefix(ivs: seq<Iv>, order: seq<nat>, i: nat, x: int)
    requires Refs(ivs, order) && i <= |order|
  {
    exists j :: 0 <= j < i && In(ivs[order[j]], x)
  }

  predicate CoversValues(vs: seq<Iv>, x: int)
  {
    exists p :: 0 <= p < |vs| && In(vs[p], x)
  }

  lemma StepCoversMerge(ivs: seq<Iv>, order: seq<nat>, store: seq<Iv>, merged: seq<nat>, i: nat, x: int)
    requires Inv(ivs, order, store, merged, i) && i < |order|
    requires store[order[i]].lo <= store[order[merged[|merged| - 1]]].hi
    ensures var s := MergeStep(store, order, merged, i);
      CoversValues(Values(s.store, order, s.merged), x)
      <==> CoversValues(Values(store, order, merged), x) || In(ivs[order[i]], x)
  {
    var s := MergeStep(store, order, merged, i);
    var n := |merged| - 1;
    var last := order[merged[n]];
    var c := order[i];
    var old_ := Values(store, order, merged);
    var new_ := Values(s.store, order, s.merged);
    assert store[c] == ivs[c];
    assert ivs[last].lo <= ivs[c].lo;
    forall p | 0 <= p < n ensures new_[p] == old_[p] {
      assert order[merged[p]] != last;
    }
    assert In(new_[n], x) <==> In(old_[n], x) || In(ivs[c], x);
    if CoversValues(old_, x) {
      var p :| 0 <= p < |old_| && In(old_[p], x);
      assert In(new_[p], x);
    }
  }

  lemma StepCoversAppend(ivs: seq<Iv>, order: seq<nat>, store: seq<Iv>, merged: seq<nat>, i: nat, x: int)
    requires Inv(ivs, order, store, merged, i) && i < |order|
    requires store[order[i]].lo > store[order[merged[|merged| - 1]]].hi
    ensures var s := MergeStep(store, order, merged, i);
      CoversValues(Values(s.store, order, s.merged), x)
      <==> CoversValues(Values(store, order, merged), x) || In(ivs[order[i]], x)
  {
    var s := MergeStep(store, order, merged, i);
    var old_ := Values(store, order, merged);
    var new_ := Values(s.store, order, s.merged);
    assert new_ == old_ + [store[order[i]]];
    assert store[order[i]] == ivs[order[i]];
    if CoversValues(new_, x) {
      var p :| 0 <= p < |new_| && In(new_[p], x);
      if p < |old_| { assert In(old_[p], x); }
    }
    if CoversValues(old_, x) {
      var p :| 0 <= p < |old_| && In(old_[p], x);
      assert In(new_[p], x);
    }
    if In(ivs[order[i]], x) { assert In(new_[|old_|], x); }
  }

  /** One iteration adds exactly the points of the i-th sorted pair to the covered set. */
  lemma StepCovers(ivs: seq<Iv>, order: seq<nat>, store: seq<Iv>, merged: seq<nat>, i: nat, x: int)
    requires Inv(ivs, order, store, merged, i) && i < |order|
    ensures var s := MergeStep(store, order, merged, i);
      CoversValues(Values(s.store, order, s.merged), x)
      <==> CoversValues(Values(store, order, merged), x) || In(ivs[order[i]], x)
  {
    if store[order[i]].lo <= store[order[merged[|merged| - 1]]].hi {
      StepCoversMerge(ivs, order, store, merged, i, x);
    } else {
      StepCoversAppend(ivs, order, store, merged, i, x);
    }
  }

  /** The loop keeps the invariant. */
  lemma {:induction false} LoopKeepsInv(ivs: seq<Iv>, order: seq<nat>, store: seq<Iv>, merged: seq<nat>,
                                        i: nat, stop: nat, desc: Desc)
    requires Inv(ivs, order, store, merged, i) && i <= stop <= |order|
    ensures var r := MergeLoop(store, order, merged, i, stop, desc); Inv(ivs, order, r.store, r.merged, stop)
    decreases stop - i
  {
    if i < stop {
      var s := MergeStep(store, order, merged, i);
      StepKeepsInv(ivs, order, store, merged, i);
      LoopKeepsInv(ivs, order, s.store, s.merged, i + 1, stop, s.desc);
    }
  }

  /** The merged list covers exactly the consumed pairs. */
  lemma {:induction false} LoopCovers(ivs: seq<Iv>, order: seq<nat>, store: seq<Iv>, merged: seq<nat>,
                                      i: nat, stop: nat, desc: Desc, x: int)
    requires Inv(ivs, order, store, merged, i) && i <= stop <= |order|
    requires CoversValues(Values(store, order, merged), x) <==> CoversPrefix(ivs, order, i, x)
    ensures var r := MergeLoop(store, order, merged, i, stop, desc);
      CoversValues(Values(r.store, order, r.merged), x) <==> CoversPrefix(ivs, order, stop, x)
    decreases stop - i
  {
    if i < stop {
      var s := MergeStep(store, order, merged, i);
      StepKeepsInv(ivs, order, store, merged, i);
      StepCovers(ivs, order, store, merged, i, x);
      PrefixStep(ivs, order, i, x);
      LoopCovers(ivs, order, s.store, s.merged, i + 1, stop, s.desc, x);
    }
  }

  /** Consuming one more sorted pair adds exactly its points. */
  lemma PrefixStep(ivs: seq<Iv>, order: seq<nat>, i: nat, x: int)
    requires Refs(ivs, order) && i < |order|
    ensures CoversPrefix(ivs, order, i + 1, x) <==> CoversPrefix(ivs, order, i, x) || In(ivs[order[i]], x)
  {
    if CoversPrefix(ivs, order, i + 1, x) {
      var j :| 0 <= j < i + 1 && In(ivs[order[j]], x);
      if j < i { assert CoversPrefix(ivs, order, i, x); }
    }
  }

  lemma SortedOrderOk(ivs: seq<Iv>)
    ensures OrderOk(ivs, SortedOrder(ivs))
  {
    var order := SortedOrder(ivs);
    var keys := Starts(ivs);
    Sorting.SortIsStable(keys, |ivs|);
    forall j, i | 0 <= j < i < |order| ensures order[j] != order[i] && ivs[order[j]].lo <= ivs[order[i]].lo {
      assert Sorting.Before(keys, order[j], order[i]);
    }
  }

  lemma StartInv(ivs: seq<Iv>, x: int)
    requires |ivs| >= 1
    ensures var order := SortedOrder(ivs);
      Inv(ivs, order, ivs, [0], 1) &&
      (CoversValues(Values(ivs, order, [0]), x) <==> CoversPrefix(ivs, order, 1, x))
  {
    SortedOrderOk(ivs);
    var order := SortedOrder(ivs);
    if CoversValues(Values(ivs, order, [0]), x) {
      assert In(ivs[order[0]], x);
    }
  }

  // ---- properties of the frames ----

  /**
   * For step >= 1 the merged list is sorted by start and pairwise disjoint,
   * and a point lies in a merged pair iff it lies in one of the first
   * min(step, n) pairs in sorted order.
   */
  lemma MergedListIsSound(ivs: seq<Iv>, step: nat, x: int)
    requires |ivs| >= 1 && step >= 1
    ensures var f := FrameOn(ivs, step);
      SortedDisjoint(f.merged) &&
      (CoversValues(f.merged, x) <==> CoversPrefix(ivs, SortedOrder(ivs), Min(step, |ivs|), x))
  {
    StartInv(ivs, x);
    LoopKeepsInv(ivs, SortedOrder(ivs), ivs, [0], 1, Min(step, |ivs|), Blank);
    LoopCovers(ivs, SortedOrder(ivs), ivs, [0], 1, Min(step, |ivs|), Blank, x);
  }

  /** Once every pair is consumed, the merged list covers exactly the points the input covers. */
  lemma FinalCoversInput(ivs: seq<Iv>, step: nat, x: int)
    requires |ivs| >= 1 && step >= |ivs|
    ensures CoversValues(FrameOn(ivs, step).merged, x) <==> CoversValues(ivs, x)
  {
    MergedListIsSound(ivs, step, x);
    var order := SortedOrder(ivs);
    if CoversValues(ivs, x) {
      var k :| 0 <= k < |ivs| && In(ivs[k], x);
      assert k in order;
      var j :| 0 <= j < |order| && order[j] == k;
      assert CoversPrefix(ivs, order, |ivs|, x);
    }
  }

  /**
   * The input pairs are shared with the merged list: a drawn input pair keeps
   * its start, and differs from the input only if it is a merged object.
   */
  lemma DrawnPairsAlias(ivs: seq<Iv>, step: nat, k: nat)
    requires |ivs| >= 1 && step >= 1 && k < |ivs|
    ensures var f := FrameOn(ivs, step);
      f.drawn[k].lo == ivs[k].lo &&
      (f.drawn[k] != ivs[k] ==> f.drawn[k] in f.merged)
  {
    var order := SortedOrder(ivs);
    var stop := Min(step, |ivs|);
    StartInv(ivs, 0);
    LoopKeepsInv(ivs, order, ivs, [0], 1, stop, Blank);
    var r := MergeLoop(ivs, order, [0], 1, stop, Blank);
    if r.store[k] != ivs[k] {
      assert k in order;
      var j :| 0 <= j < |order| && order[j] == k;
      assert j < stop;
      var p :| 0 <= p < |r.merged| && r.merged[p] == j;
      assert Values(r.store, order, r.merged)[p] == r.store[k];
    }
  }

  lemma SampleIsSorted()
    ensures SortedOrder(Sample) == [0, 1, 2, 3]
  {
    Sorting.SortOfSortedIsIdentity(Starts(Sample), 4);
  }

  const Order: seq<nat> := [0, 1, 2, 3]

  /** The three iterations of the merge loop on the sample. */
  lemma SampleSteps()
    ensures MergeStep(Sample, Order, [0], 1) == Loop([Iv(1, 6), Iv(2, 6), Iv(8, 10), Iv(15, 18)], [0], Merged(1, 6, 2, 6))
    ensures MergeStep([Iv(1, 6), Iv(2, 6), Iv(8, 10), Iv(15, 18)], Order, [0], 2)
      == Loop([Iv(1, 6), Iv(2, 6), Iv(8, 10), Iv(15, 18)], [0, 2], Added(8, 10))
    ensures MergeStep([Iv(1, 6), Iv(2, 6), Iv(8, 10), Iv(15, 18)], Order, [0, 2], 3)
      == Loop([Iv(1, 6), Iv(2, 6), Iv(8, 10), Iv(15, 18)], [0, 2, 3], Added(15, 18))
  {
  }

  const Merged2: seq<Iv> := [Iv(1, 6), Iv(2, 6), Iv(8, 10), Iv(15, 18)]

  lemma SampleFrames(step: nat)
    ensures step == 1 ==> FrameAt(step).desc == Blank
    ensures step == 2 ==> FrameAt(step) == Frame(Merged2, [Iv(1, 6)], Merged(1, 6, 2, 6))
    ensures step == 3 ==> FrameAt(step).desc == Added(8, 10)
    ensures step >= 4 ==> FrameAt(step) == Frame(Merged2, [Iv(1, 6), Iv(8, 10), Iv(15, 18)],
                                                 Final([Iv(1, 6), Iv(8, 10), Iv(15, 18)]))
  {
    SampleIsSorted();
    SampleSteps();
    if step == 2 {
      assert MergeLoop(Sample, Order, [0], 1, 2, Blank) == Loop(Merged2, [0], Merged(1, 6, 2, 6));
    } else if step == 3 {
      assert MergeLoop(Merged2, Order, [0], 2, 3, Merged(1, 6, 2, 6)) == Loop(Merged2, [0, 2], Added(8, 10));
    } else if step >= 4 {
      assert MergeLoop(Merged2, Order, [0, 2], 3, 4, Added(8, 10)) == Loop(Merged2, [0, 2, 3], Added(15, 18));
      assert MergeLoop(Merged2, Order, [0], 2, 4, Merged(1, 6, 2, 6)) == Loop(Merged2, [0, 2, 3], Added(15, 18));
      assert MergeLoop(Sample, Order, [0], 1, 4, Blank) == Loop(Merged2, [0, 2, 3], Added(15, 18));
    }
  }

  /** Step 0 draws the input as the merged list; step 1 only seeds it and says nothing. */
  lemma SampleStart()
    ensures Describe(FrameAt(0).desc) == "Original intervals (sorted by start time)"
    ensures FrameAt(1).merged == [Iv(1, 3)] && Describe(FrameAt(1).desc) == ""
  {
    SampleIsSorted();
  }

  lemma SampleMergeStep()
    ensures Describe(FrameAt(2).desc) == "Merged interval [1, 6] with [2, 6]"
    ensures FrameAt(2).drawn[0] == Iv(1, 6)
  {
    SampleFrames(2);
    MergedText();
  }

  lemma MergedText()
    ensures Describe(Merged(1, 6, 2, 6)) == "Merged interval [1, 6] with [2, 6]"
  {
  }

  lemma SampleAddStep()
    ensures Describe(FrameAt(3).desc) == "Added new interval [8, 10]"
  {
    SampleFrames(3);
    AddedText();
  }

  lemma AddedText()
    ensures Describe(Added(8, 10)) == "Added new interval [8, 10]"
  {
    assert IntToString(10) == "10";
  }

  /** From step 4 on the merged list is final, and the drawn first pair shows the merge. */
  lemma SampleFinal(step: nat)
    requires step >= 4
    ensures FrameAt(step).merged == [Iv(1, 6), Iv(8, 10), Iv(15, 18)]
    ensures Describe(FrameAt(step).desc) == "Final merged intervals: " + ("[" + ("[1,6]" + "," + "[8,10]" + "," + "[15,18]") + "]")
    ensures FrameAt(step).drawn == [Iv(1, 6), Iv(2, 6), Iv(8, 10), Iv(15, 18)]
  {
    SampleFrames(step);
    FinalJson();
  }

  lemma PairJson()
    ensures IvJson(Iv(1, 6)) == "[1,6]"
    ensures IvJson(Iv(8, 10)) == "[8,10]"
  {
    assert IntToString(10) == "10";
  }

  lemma LastPairJson()
    ensures IvJson(Iv(15, 18)) == "[15,18]"
  {
    assert IntToString(15) == "15";
    assert IntToString(18) == "18";
  }

  lemma FirstTwoJson()
    ensures IvsJson([Iv(1, 6), Iv(8, 10)]) == "[1,6]" + "," + "[8,10]"
  {
    var m := [Iv(1, 6), Iv(8, 10)];
    PairJson();
    assert m[..1] == [Iv(1, 6)];
  }

  lemma FinalJson()
    ensures Describe(Final([Iv(1, 6), Iv(8, 10), Iv(15, 18)])) == "Final merged intervals: " + ("[" + ("[1,6]" + "," + "[8,10]" + "," + "[15,18]") + "]")
  {
    var m := [Iv(1, 6), Iv(8, 10), Iv(15, 18)];
    FirstTwoJson();
    LastPairJson();
    assert m[..2] == [Iv(1, 6), Iv(8, 10)];
    assert IvsJson(m) == IvsJson(m[..2]) + "," + IvJson(m[2]);
  }
}
