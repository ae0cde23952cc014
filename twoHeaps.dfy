/**
 * The two heaps simulator: the first min(step, n) numbers are fed one by one
 * into a max heap of the smaller half and a min heap of the larger half (each
 * kept as an array sorted after every push), the heaps are rebalanced, and the
 * running median is read off their tops.
 */
module TwoHeaps {
  import opened Wrappers
  import opened Text
  import opened Sorting

  const Sample: seq<int> := [3, 1, 5, 4, 2, 8, 7, 6]

  datatype Heaps = Heaps(maxHeap: seq<int>, minHeap: seq<int>)

  datatype Desc =
    | Initial(array: seq<int>)
    | Processed(prefix: seq<int>, median: Option<real>)

  datatype Frame = Frame(processed: seq<int>, heaps: Heaps, median: Option<real>, desc: Desc)

  /** `${median}`: JavaScript prints the initial null as "null". */
  function MedianText(m: Option<real>): string
  {
    match m
    case None => "null"
    case Some(x) => HalfToString(x)
  }

  function Describe(d: Desc): string
  {
    match d
    case Initial(a) => "Initial array: " + JoinInts(a, ", ")
    case Processed(p, m) => "Processed: [" + JoinInts(p, ", ") + "], Median: " + MedianText(m)
  }

  /** `Math.max(...h)`. */
  function SeqMax(h: seq<int>): (m: int)
    requires h != []
    ensures forall i :: 0 <= i < |h| ==> h[i] <= m
    ensures exists i :: 0 <= i < |h| && h[i] == m
  {
    if |h| == 1 then h[0]
    else
      var m := SeqMax(h[1..]);
      if h[0] > m then h[0] else m
  }

  /** Insert one number: into the max heap if it is empty or the number is at most its maximum. */
  function Add(h: Heaps, num: int): Heaps
  {
    if h.maxHeap == [] || num <= SeqMax(h.maxHeap) then Heaps(InsertDescending(h.maxHeap, num), h.minHeap)
    else Heaps(h.maxHeap, InsertAscending(h.minHeap, num))
  }

  /** Move one top across when the max heap is two longer or the min heap is longer. */
  function Rebalance(h: Heaps): Heaps
  {
    if |h.maxHeap| > |h.minHeap| + 1 then Heaps(h.maxHeap[1..], InsertAscending(h.minHeap, h.maxHeap[0]))
    else if |h.minHeap| > |h.maxHeap| then Heaps(InsertDescending(h.maxHeap, h.minHeap[0]), h.minHeap[1..])
    else h
  }

  /** The heaps after the first k numbers of a. */
  function Process(a: seq<int>, k: nat): (h: Heaps)
    requires k <= |a|
    ensures |h.maxHeap| + |h.minHeap| == k
    ensures |h.minHeap| <= |h.maxHeap| <= |h.minHeap| + 1
  {
    if k == 0 then Heaps([], []) else Rebalance(Add(Process(a, k - 1), a[k - 1]))
  }

  /** The top of the max heap, or the mean of both tops when the heaps are as long. */
  function Median(h: Heaps): real
    requires h.maxHeap != [] && (|h.maxHeap| <= |h.minHeap| ==> h.minHeap != [])
  {
    if |h.maxHeap| > |h.minHeap| then h.maxHeap[0] as real
    else (h.maxHeap[0] + h.minHeap[0]) as real / 2.0
  }

  /** The heaps split the processed numbers into a smaller half and a larger half. */
  predicate Inv(h: Heaps, processed: multiset<int>)
  {
    Descending(h.maxHeap) && Ascending(h.minHeap) &&
    |h.minHeap| <= |h.maxHeap| <= |h.minHeap| + 1 &&
    (forall i, j :: 0 <= i < |h.maxHeap| && 0 <= j < |h.minHeap| ==> h.maxHeap[i] <= h.minHeap[j]) &&
    multiset(h.maxHeap) + multiset(h.minHeap) == processed
  }

  /** The loop's variables after the first k numbers of a. */
  datatype State = State(processed: seq<int>, heaps: Heaps, median: Option<real>)

  function Run(a: seq<int>, k: nat): State
    requires k <= |a|
  {
    State(a[..k], Process(a, k), if k == 0 then None else Some(Median(Process(a, k))))
  }

  function FrameOn(a: seq<int>, step: nat): Frame
  {
    if step == 0 then Frame([], Heaps([], []), None, Initial(a))
    else
      var s := Run(a, if step < |a| then step else |a|);
      Frame(s.processed, s.heaps, s.median, Processed(s.processed, s.median))
  }

  function FrameAt(step: nat): Frame
  {
    FrameOn(Sample, step)
  }

  method Animate(a: seq<int>, step: nat) returns (f: Frame)
    ensures f == FrameOn(a, step)
  {
    if step == 0 {
      return Frame([], Heaps([], []), None, Initial(a));
    }
    var maxHeap: seq<int> := [];
    var minHeap: seq<int> := [];
    var processedArray: seq<int> := [];
    var median: Option<real> := None;
    var processedSteps := if step < |a| then step else |a|;
    assert processedSteps <= |a|;
    for i := 0 to processedSteps
      invariant State(processedArray, Heaps(maxHeap, minHeap), median) == Run(a, i)
    {
      processedArray, maxHeap, minHeap, median := Iterate(a, i, processedArray, maxHeap, minHeap, median);
    }
    f := Frame(processedArray, Heaps(maxHeap, minHeap), median, Processed(processedArray, median));
  }

  /** One pass of the loop body: record a[i], insert it, rebalance, and read the median. */
  method Iterate(a: seq<int>, i: nat, processed0: seq<int>, maxHeap0: seq<int>, minHeap0: seq<int>, median0: Option<real>)
    returns (processed: seq<int>, maxHeap: seq<int>, minHeap: seq<int>, median: Option<real>)
    requires i < |a| && State(processed0, Heaps(maxHeap0, minHeap0), median0) == Run(a, i)
    ensures State(processed, Heaps(maxHeap, minHeap), median) == Run(a, i + 1)
  {
    var num := a[i];
    processed := processed0 + [num];
    PrefixAppend(a, i);
    maxHeap, minHeap := Push(maxHeap0, minHeap0, num);
    assert Heaps(maxHeap, minHeap) == Process(a, i + 1);
    if |maxHeap| > |minHeap| {
      median := Some(maxHeap[0] as real);
    } else {
      median := Some((maxHeap[0] + minHeap[0]) as real / 2.0);
    }
  }

  /** One iteration's insertion and rebalancing, on the two sorted arrays. */
  method Push(maxHeap0: seq<int>, minHeap0: seq<int>, num: int) returns (maxHeap: seq<int>, minHeap: seq<int>)
    ensures Heaps(maxHeap, minHeap) == Rebalance(Add(Heaps(maxHeap0, minHeap0), num))
  {
    maxHeap, minHeap := maxHeap0, minHeap0;
    if maxHeap == [] || num <= SeqMax(maxHeap) {
      maxHeap := InsertDescending(maxHeap, num);
    } else {
      minHeap := InsertAscending(minHeap, num);
    }
    assert Heaps(maxHeap, minHeap) == Add(Heaps(maxHeap0, minHeap0), num);
    if |maxHeap| > |minHeap| + 1 {
      minHeap := InsertAscending(minHeap, maxHeap[0]);
      maxHeap := maxHeap[1..];
    } else if |minHeap| > |maxHeap| {
      maxHeap := InsertDescending(maxHeap, minHeap[0]);
      minHeap := minHeap[1..];
    }
  }

  /** The top of a descending array is its maximum. */
  lemma DescendingTopIsMax(h: seq<int>)
    requires Descending(h) && h != []
    ensures SeqMax(h) == h[0]
  {
    var m := SeqMax(h);
    var k :| 0 <= k < |h| && h[k] == m;
    assert h[0] in h;
  }

  lemma AddKeepsInv(h: Heaps, processed: multiset<int>, num: int)
    requires Inv(h, processed)
    ensures Inv(Rebalance(Add(h, num)), processed + multiset{num})
  {
    if h.maxHeap == [] || num <= SeqMax(h.maxHeap) {
      AddToMaxKeepsInv(h, processed, num);
    } else {
      AddToMinKeepsInv(h, processed, num);
    }
  }

  lemma AddToMaxKeepsInv(h: Heaps, processed: multiset<int>, num: int)
    requires Inv(h, processed)
    requires h.maxHeap == [] || num <= SeqMax(h.maxHeap)
    ensures Inv(Rebalance(Heaps(InsertDescending(h.maxHeap, num), h.minHeap)), processed + multiset{num})
  {
    PushToMax(h.maxHeap, h.minHeap, num);
    RebalanceKeepsInv(Heaps(InsertDescending(h.maxHeap, num), h.minHeap), processed + multiset{num});
  }

  lemma AddToMinKeepsInv(h: Heaps, processed: multiset<int>, num: int)
    requires Inv(h, processed)
    requires h.maxHeap != [] && num > SeqMax(h.maxHeap)
    ensures Inv(Rebalance(Heaps(h.maxHeap, InsertAscending(h.minHeap, num))), processed + multiset{num})
  {
    PushToMin(h.maxHeap, h.minHeap, num);
    RebalanceKeepsInv(Heaps(h.maxHeap, InsertAscending(h.minHeap, num)), processed + multiset{num});
  }

  /** A number no larger than the max heap's top (or any number, into an empty max heap) keeps the order. */
  lemma PushToMax(mx: seq<int>, mn: seq<int>, num: int)
    requires Descending(mx) && Ascending(mn) && (mx == [] ==> mn == [])
    requires forall i, j :: 0 <= i < |mx| && 0 <= j < |mn| ==> mx[i] <= mn[j]
    requires mx == [] || num <= SeqMax(mx)
    ensures var nm := InsertDescending(mx, num);
      Descending(nm) &&
      (forall i, j :: 0 <= i < |nm| && 0 <= j < |mn| ==> nm[i] <= mn[j]) &&
      multiset(nm) == multiset(mx) + multiset{num}
  {
    InsertDescendingSorted(mx, num);
    if mx != [] { DescendingTopIsMax(mx); }
    var nm := InsertDescending(mx, num);
    forall i, j | 0 <= i < |nm| && 0 <= j < |mn| ensures nm[i] <= mn[j] {
      assert nm[i] in nm;
      if nm[i] != num {
        var k :| 0 <= k < |mx| && mx[k] == nm[i];
      } else {
        assert mx[0] <= mn[j];
      }
    }
  }

  /** A number larger than every number of the max heap keeps the order when pushed on the min heap. */
  lemma PushToMin(mx: seq<int>, mn: seq<int>, num: int)
    requires Ascending(mn)
    requires forall i, j :: 0 <= i < |mx| && 0 <= j < |mn| ==> mx[i] <= mn[j]
    requires forall i :: 0 <= i < |mx| ==> mx[i] < num
    ensures var nn := InsertAscending(mn, num);
      Ascending(nn) &&
      (forall i, j :: 0 <= i < |mx| && 0 <= j < |nn| ==> mx[i] <= nn[j]) &&
      multiset(nn) == multiset(mn) + multiset{num}
  {
    InsertAscendingSorted(mn, num);
    var nn := InsertAscending(mn, num);
    forall i, j | 0 <= i < |mx| && 0 <= j < |nn| ensures mx[i] <= nn[j] {
      assert nn[j] in nn;
      if nn[j] != num {
        var k :| 0 <= k < |mn| && mn[k] == nn[j];
      }
    }
  }

  /** The state after a push: sorted halves in order, sizes off by at most one more. */
  predicate Pushed(h: Heaps, processed: multiset<int>)
  {
    Descending(h.maxHeap) && Ascending(h.minHeap) &&
    |h.minHeap| <= |h.maxHeap| + 1 && |h.maxHeap| <= |h.minHeap| + 2 &&
    (forall i, j :: 0 <= i < |h.maxHeap| && 0 <= j < |h.minHeap| ==> h.maxHeap[i] <= h.minHeap[j]) &&
    multiset(h.maxHeap) + multiset(h.minHeap) == processed
  }

  lemma RebalanceKeepsInv(h: Heaps, processed: multiset<int>)
    requires Pushed(h, processed)
    ensures Inv(Rebalance(h), processed)
  {
    if |h.maxHeap| > |h.minHeap| + 1 {
      MoveMaxTop(h.maxHeap, h.minHeap);
    } else if |h.minHeap| > |h.maxHeap| {
      MoveMinTop(h.maxHeap, h.minHeap);
    }
  }

  /** Moving the top of the max heap to the min heap keeps both halves sorted and in order. */
  lemma MoveMaxTop(mx: seq<int>, mn: seq<int>)
    requires Descending(mx) && Ascending(mn) && mx != []
    requires forall i, j :: 0 <= i < |mx| && 0 <= j < |mn| ==> mx[i] <= mn[j]
    ensures var rest, nn := mx[1..], InsertAscending(mn, mx[0]);
      Descending(rest) && Ascending(nn) &&
      (forall i, j :: 0 <= i < |rest| && 0 <= j < |nn| ==> rest[i] <= nn[j]) &&
      multiset(rest) + multiset(nn) == multiset(mx) + multiset(mn)
  {
    var top := mx[0];
    InsertAscendingSorted(mn, top);
    var nn := InsertAscending(mn, top);
    var rest := mx[1..];
    assert mx == [top] + rest;
    forall i, j | 0 <= i < |rest| && 0 <= j < |nn| ensures rest[i] <= nn[j] {
      assert rest[i] == mx[i + 1];
      assert nn[j] in nn;
      if nn[j] != top {
        var k :| 0 <= k < |mn| && mn[k] == nn[j];
        assert mx[i + 1] <= mn[k];
      } else {
        assert mx[0] >= mx[i + 1];
      }
    }
  }

  /** Moving the top of the min heap to the max heap keeps both halves sorted and in order. */
  lemma MoveMinTop(mx: seq<int>, mn: seq<int>)
    requires Descending(mx) && Ascending(mn) && mn != []
    requires forall i, j :: 0 <= i < |mx| && 0 <= j < |mn| ==> mx[i] <= mn[j]
    ensures var nm, rest := InsertDescending(mx, mn[0]), mn[1..];
      Descending(nm) && Ascending(rest) &&
      (forall i, j :: 0 <= i < |nm| && 0 <= j < |rest| ==> nm[i] <= rest[j]) &&
      multiset(nm) + multiset(rest) == multiset(mx) + multiset(mn)
  {
    var top := mn[0];
    InsertDescendingSorted(mx, top);
    var nm := InsertDescending(mx, top);
    var rest := mn[1..];
    assert mn == [top] + rest;
    forall i, j | 0 <= i < |nm| && 0 <= j < |rest| ensures nm[i] <= rest[j] {
      assert rest[j] == mn[j + 1];
      assert nm[i] in nm;
      if nm[i] != top {
        var k :| 0 <= k < |mx| && mx[k] == nm[i];
        assert mx[k] <= mn[j + 1];
      } else {
        assert mn[0] <= mn[j + 1];
      }
    }
  }

  /** Every prefix is split so that the invariant holds. */
  lemma {:induction false} ProcessKeepsInv(a: seq<int>, k: nat)
    requires k <= |a|
    ensures Inv(Process(a, k), multiset(a[..k]))
  {
    if k > 0 {
      var h := Process(a, k - 1);
      var before := multiset(a[..k - 1]);
      ProcessKeepsInv(a, k - 1);
      AddKeepsInv(h, before, a[k - 1]);
      PrefixGrows(a, k);
      InvTransfer(Rebalance(Add(h, a[k - 1])), before + multiset{a[k - 1]}, Process(a, k), multiset(a[..k]));
    } else {
      assert a[..k] == [];
    }
  }

  /** One more element of the input adds it to the multiset of the prefix. */
  lemma PrefixGrows(a: seq<int>, k: nat)
    requires 0 < k <= |a|
    ensures multiset(a[..k]) == multiset(a[..k - 1]) + multiset{a[k - 1]}
  {
    PrefixAppend(a, k - 1);
  }

  lemma PrefixAppend(a: seq<int>, i: nat)
    requires i < |a|
    ensures a[..i + 1] == a[..i] + [a[i]]
  {
  }

  lemma InvTransfer(h: Heaps, m: multiset<int>, h': Heaps, m': multiset<int>)
    requires Inv(h, m) && h == h' && m == m'
    ensures Inv(h', m')
  {
  }

  /** The halves laid out in ascending order: the max heap reversed, then the min heap. */
  function Reversed(s: seq<int>): (r: seq<int>)
    ensures |r| == |s| && forall i :: 0 <= i < |s| ==> r[i] == s[|s| - 1 - i]
  {
    if s == [] then [] else Reversed(s[1..]) + [s[0]]
  }

  function Layout(h: Heaps): seq<int>
  {
    Reversed(h.maxHeap) + h.minHeap
  }

  /** The median of an ascending sequence as the source computes it. */
  function MiddleOf(t: seq<int>): real
    requires t != []
  {
    if |t| % 2 == 1 then t[|t| / 2] as real
    else (t[|t| / 2 - 1] + t[|t| / 2]) as real / 2.0
  }

  /** Two ascending arrangements of the same numbers are the same sequence. */
  lemma {:induction false} AscendingUnique(s: seq<int>, t: seq<int>)
    requires Ascending(s) && Ascending(t) && multiset(s) == multiset(t)
    ensures s == t
    decreases |s|
  {
    if s != [] {
      assert |t| == |s| by { assert |multiset(s)| == |multiset(t)|; }
      SameLeast(s, t);
      DropHead(s);
      DropHead(t);
      AscendingUnique(s[1..], t[1..]);
    }
  }

  /** Ascending arrangements of the same numbers start with the same, least, number. */
  lemma SameLeast(s: seq<int>, t: seq<int>)
    requires Ascending(s) && Ascending(t) && multiset(s) == multiset(t) && s != [] && t != []
    ensures s[0] == t[0]
  {
    assert s[0] in multiset(t) && t[0] in multiset(s);
    var i :| 0 <= i < |t| && t[i] == s[0];
    var j :| 0 <= j < |s| && s[j] == t[0];
  }

  lemma DropHead(s: seq<int>)
    requires s != []
    ensures multiset(s[1..]) == multiset(s) - multiset{s[0]}
  {
    assert s == [s[0]] + s[1..];
  }

  /** Laid out, the two heaps are the processed numbers in ascending order. */
  lemma LayoutSorted(h: Heaps, m: multiset<int>)
    requires Inv(h, m)
    ensures Ascending(Layout(h)) && multiset(Layout(h)) == m
  {
    var r := Reversed(h.maxHeap);
    ReversedAscending(h.maxHeap);
    forall i, j | 0 <= i < |r| && 0 <= j < |h.minHeap| ensures r[i] <= h.minHeap[j] {
      assert r[i] == h.maxHeap[|h.maxHeap| - 1 - i];
    }
    ConcatAscending(r, h.minHeap);
    ReversedPermutes(h.maxHeap);
  }

  lemma ReversedAscending(s: seq<int>)
    requires Descending(s)
    ensures Ascending(Reversed(s))
  {
    var r := Reversed(s);
    forall i, j | 0 <= i < j < |r| ensures r[i] <= r[j] {
      assert r[i] == s[|s| - 1 - i] && r[j] == s[|s| - 1 - j];
    }
  }

  lemma ConcatAscending(r: seq<int>, u: seq<int>)
    requires Ascending(r) && Ascending(u)
    requires forall i, j :: 0 <= i < |r| && 0 <= j < |u| ==> r[i] <= u[j]
    ensures Ascending(r + u)
  {
    var t := r + u;
    forall i, j | 0 <= i < j < |t| ensures t[i] <= t[j] {
      if j < |r| {
        assert t[i] == r[i] && t[j] == r[j];
      } else if i < |r| {
        assert t[i] == r[i] && t[j] == u[j - |r|];
      } else {
        assert t[i] == u[i - |r|] && t[j] == u[j - |r|];
      }
    }
  }

  /** The middle of the layout is where the heaps' tops meet. */
  lemma LayoutMiddle(h: Heaps, m: multiset<int>)
    requires Inv(h, m) && h.maxHeap != []
    ensures MiddleOf(Layout(h)) == Median(h)
  {
    var mx, mn := h.maxHeap, h.minHeap;
    var t := Layout(h);
    assert t[|mx| - 1] == mx[0];
    if |mx| == |mn| {
      assert |t| / 2 == |mx| && t[|mx|] == mn[0];
    } else {
      assert |t| / 2 == |mx| - 1;
    }
  }

  /**
   * The reported median is the middle of the processed numbers put in
   * ascending order (the mean of the two middle ones for an even count).
   */
  lemma MedianIsMiddle(a: seq<int>, k: nat, sorted: seq<int>)
    requires 1 <= k <= |a|
    requires Ascending(sorted) && multiset(sorted) == multiset(a[..k]) && |sorted| == k
    ensures FrameOn(a, k).median == Some(MiddleOf(sorted))
  {
    var h := Process(a, k);
    ProcessKeepsInv(a, k);
    LayoutSorted(h, multiset(a[..k]));
    AscendingUnique(Layout(h), sorted);
    LayoutMiddle(h, multiset(a[..k]));
  }

  lemma {:induction false} ReversedPermutes(s: seq<int>)
    ensures multiset(Reversed(s)) == multiset(s)
  {
    if s != [] {
      ReversedPermutes(s[1..]);
      assert s == [s[0]] + s[1..];
    }
  }

  /** The run never finishes: from step n on every frame repeats the frame at step n. */
  lemma FramesSettle(a: seq<int>, step: nat)
    requires 1 <= |a| <= step
    ensures FrameOn(a, step) == FrameOn(a, |a|)
  {
  }

  /** After the first number the median is that number. */
  lemma SampleMedianOne()
    ensures FrameAt(1).median == Some(3.0)
  {
    assert Sample[..1] == [3];
    MedianIsMiddle(Sample, 1, [3]);
  }

  /** After four numbers, 3, 1, 5 and 4, the median is the mean of 3 and 4. */
  lemma SampleMedianFour()
    ensures FrameAt(4).median == Some(3.5)
  {
    FirstFourSorted();
    MedianIsMiddle(Sample, 4, [1, 3, 4, 5]);
    assert MiddleOf([1, 3, 4, 5]) == (3 + 4) as real / 2.0;
  }

  lemma FirstFourSorted()
    ensures Ascending([1, 3, 4, 5]) && multiset([1, 3, 4, 5]) == multiset(Sample[..4])
  {
    assert Sample[..4] == [3, 1] + [5, 4];
    FirstFourPairs();
  }

  lemma FirstFourPairs()
    ensures multiset([3, 1] + [5, 4]) == multiset([1, 3] + [4, 5])
  {
    assert multiset([3, 1]) == multiset([1, 3]);
    assert multiset([5, 4]) == multiset([4, 5]);
  }

  /** After all eight numbers the median is the mean of 4 and 5. */
  lemma SampleMedianEight()
    ensures FrameAt(8).median == Some(4.5)
  {
    var sorted := [1, 2, 3, 4, 5, 6, 7, 8];
    SampleSorted();
    MedianIsMiddle(Sample, 8, sorted);
    assert MiddleOf(sorted) == (4 + 5) as real / 2.0;
  }

  lemma SampleSorted()
    ensures Ascending([1, 2, 3, 4, 5, 6, 7, 8])
    ensures multiset(Sample[..8]) == multiset([1, 2, 3, 4, 5, 6, 7, 8])
  {
    OneToEightAscending();
    SampleHalves();
    SampleSplits();
    var lo, hi := multiset([1]) + multiset([3, 4, 5]), multiset([2]) + multiset([6, 7, 8]);
    assert multiset(Sample[..8]) == lo + hi;
    assert multiset([1, 2, 3, 4, 5, 6, 7, 8]) == multiset([1]) + multiset([2]) + multiset([3, 4, 5]) + multiset([6, 7, 8]);
  }

  lemma OneToEightAscending()
    ensures Ascending([1, 2, 3, 4, 5, 6, 7, 8])
  {
    var sorted := [1, 2, 3, 4, 5, 6, 7, 8];
    forall i, j | 0 <= i < j < 8 ensures sorted[i] <= sorted[j] {
      assert sorted[i] == i + 1 && sorted[j] == j + 1;
    }
  }

  lemma SampleSplits()
    ensures Sample[..8] == [3, 1, 5, 4] + [2, 8, 7, 6]
    ensures [1, 2, 3, 4, 5, 6, 7, 8] == [1] + [2] + [3, 4, 5] + [6, 7, 8]
  {
  }

  lemma SampleHalves()
    ensures multiset([3, 1, 5, 4]) == multiset([1]) + multiset([3, 4, 5])
    ensures multiset([2, 8, 7, 6]) == multiset([2]) + multiset([6, 7, 8])
  {
  }

  lemma SampleFinalText()
    ensures MedianText(Some(4.5)) == "4.5"
  {
    assert (2.0 * 4.5).Floor == 9;
  }

  lemma CommaJoinSample()
    ensures JoinInts(Sample, ", ") ==
      "3" + ", " + "1" + ", " + "5" + ", " + "4" + ", " + "2" + ", " + "8" + ", " + "7" + ", " + "6"
  {
    var sep := ", ";
    JoinIntsFour(3, 1, 5, 4, sep);
    JoinIntsSnoc([3, 1, 5, 4], 2, sep);
    assert [3, 1, 5, 4] + [2] == [3, 1, 5, 4, 2];
    JoinIntsSnoc([3, 1, 5, 4, 2], 8, sep);
    assert [3, 1, 5, 4, 2] + [8] == [3, 1, 5, 4, 2, 8];
    JoinIntsSnoc([3, 1, 5, 4, 2, 8], 7, sep);
    assert [3, 1, 5, 4, 2, 8] + [7] == [3, 1, 5, 4, 2, 8, 7];
    JoinIntsSnoc([3, 1, 5, 4, 2, 8, 7], 6, sep);
    assert Sample == [3, 1, 5, 4, 2, 8, 7] + [6];
  }

  lemma InitialText()
    ensures Describe(FrameAt(0).desc) ==
      "Initial array: " + ("3" + ", " + "1" + ", " + "5" + ", " + "4" + ", " + "2" + ", " + "8" + ", " + "7" + ", " + "6")
  {
    CommaJoinSample();
  }
}
