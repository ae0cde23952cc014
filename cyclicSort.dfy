/**
 * The cyclic-sort simulator on an array holding each of 0..n-1 once. Each
 * tick either stops (index past the end), swaps the value at the current
 * index into the cell it names, or moves on when the cell is already right.
 */
module CyclicSort {
  import opened Text

  const Sample: seq<int> := [3, 1, 5, 4, 2, 0]

  datatype Desc =
    | Initial
    | Complete
    | Swap(placed: int, other: int)
    | InPosition(index: nat)

  /** The drawn cells, the current index (highlighted for step >= 1) and the description. */
  datatype Frame = Frame(cells: seq<int>, index: nat, desc: Desc)

  function Describe(d: Desc): string
  {
    match d
    case Initial => "Initial array"
    case Complete => "Sort complete"
    case Swap(x, y) => "Swap " + IntToString(x) + " and " + IntToString(y)
    case InPosition(k) => "Element " + NatToString(k) + " is in correct position, moving to next"
  }

  /** Every value names a cell. */
  predicate InRange(c: seq<int>) { forall k :: 0 <= k < |c| ==> 0 <= c[k] < |c| }

  predicate Distinct(c: seq<int>) { forall p, q :: 0 <= p < q < |c| ==> c[p] != c[q] }

  /** One iteration of the loop body, for a current index inside the array. */
  function Tick(f: Frame): (r: Frame)
    requires InRange(f.cells) && f.index < |f.cells|
    ensures |r.cells| == |f.cells| && InRange(r.cells)
  {
    var c, ci := f.cells, f.index;
    var cp := c[ci];
    if cp != ci then
      var swapped := c[ci := c[cp]][cp := c[ci]];
      Frame(swapped, ci, Swap(swapped[cp], swapped[ci]))
    else Frame(c, ci + 1, InPosition(ci))
  }

  /** The loop run for at most `fuel` iterations, breaking with 'Sort complete'. */
  function Run(f: Frame, fuel: nat): (r: Frame)
    requires InRange(f.cells) && f.index <= |f.cells|
    ensures |r.cells| == |f.cells| && InRange(r.cells) && r.index <= |r.cells|
    decreases fuel
  {
    if fuel == 0 then f
    else if f.index >= |f.cells| then Frame(f.cells, f.index, Complete)
    else Run(Tick(f), fuel - 1)
  }

  function FrameOn(a: seq<int>, step: nat): (f: Frame)
    requires InRange(a)
    ensures |f.cells| == |a| && f.index <= |a|
  {
    if step == 0 then Frame(a, 0, Initial)
    else Run(Frame(a, 0, Initial), step)
  }

  function FrameAt(step: nat): Frame
  {
    FrameOn(Sample, step)
  }

  /** The simulator, sorting a fresh copy of the sample in place. */
  method Animate(step: nat) returns (f: Frame)
    ensures f == FrameAt(step)
  {
    f := SortSteps(Sample, step);
  }

  /** The first `step` loop iterations on a fresh array holding `a`. */
  method SortSteps(a: seq<int>, step: nat) returns (f: Frame)
    requires InRange(a)
    ensures f == FrameOn(a, step)
  {
    var current := new int[|a|](k requires 0 <= k < |a| => a[k]);
    assert current[..] == a;
    var index: nat := 0;
    var desc := Initial;
    if step > 0 {
      var i := 0;
      while i < step
        invariant 0 <= i <= step && index <= current.Length == |a|
        invariant InRange(current[..])
        invariant Run(Frame(current[..], index, desc), step - i) == Run(Frame(a, 0, Initial), step)
      {
        if index >= current.Length {
          desc := Complete;
          break;
        }
        RunUnfold(Frame(current[..], index, desc), step - i);
        index, desc := TickInPlace(current, index);
        i := i + 1;
      }
    }
    f := Frame(current[..], index, desc);
  }

  /** A running loop does one iteration, whatever the last description was. */
  lemma RunUnfold(f: Frame, fuel: nat)
    requires InRange(f.cells) && f.index < |f.cells| && fuel > 0
    ensures Run(f, fuel) == Run(Tick(Frame(f.cells, f.index, Initial)), fuel - 1)
  {
  }

  /** One loop iteration on the array: a swap in place, or a move to the next index. */
  method TickInPlace(current: array<int>, index: nat) returns (next: nat, desc: Desc)
    requires index < current.Length && InRange(current[..])
    modifies current
    ensures Frame(current[..], next, desc) == Tick(Frame(old(current[..]), index, Initial))
  {
    var cells := current[..];
    var correct := current[index];
    if current[index] != index {
      current[index], current[correct] := current[correct], current[index];
      assert current[..] == cells[index := cells[correct]][correct := cells[index]];
      next, desc := index, Swap(current[correct], current[index]);
    } else {
      next, desc := index + 1, InPosition(index);
    }
  }

  // ---- invariants ----

  /** Each of 0..n-1 once, and every cell before the index holds its own index. */
  predicate Inv(f: Frame)
  {
    InRange(f.cells) && Distinct(f.cells) && f.index <= |f.cells|
    && forall k :: 0 <= k < f.index ==> f.cells[k] == k
  }

  /** Cells not yet holding their own index. */
  function Misplaced(c: seq<int>, upto: nat): (m: nat)
    requires upto <= |c|
    ensures m <= upto
  {
    if upto == 0 then 0 else Misplaced(c, upto - 1) + (if c[upto - 1] != upto - 1 then 1 else 0)
  }

  lemma {:induction false} MisplacedUpdate(c: seq<int>, upto: nat, j: nat, v: int)
    requires upto <= |c| && j < |c|
    ensures Misplaced(c[j := v], upto) ==
      if j < upto then Misplaced(c, upto) - (if c[j] != j then 1 else 0) + (if v != j then 1 else 0)
      else Misplaced(c, upto)
  {
    if upto > 0 {
      MisplacedUpdate(c, upto - 1, j, v);
    }
  }

  /** Remaining work: cells left to pass plus cells still misplaced. */
  function Potential(f: Frame): nat
    requires f.index <= |f.cells|
  {
    (|f.cells| - f.index) + Misplaced(f.cells, |f.cells|)
  }

  /**
   * A swap moves the value cp into cell cp, a cell after the current index,
   * and every tick keeps the invariant and lowers the potential.
   */
  lemma TickProgress(f: Frame)
    requires Inv(f) && f.index < |f.cells|
    ensures Inv(Tick(f))
    ensures Potential(Tick(f)) < Potential(f)
    ensures var cp := f.cells[f.index];
      cp != f.index ==> f.index < cp && Tick(f).cells[cp] == cp && Tick(f).index == f.index
  {
    var c, ci := f.cells, f.index;
    var cp := c[ci];
    var n := |c|;
    if cp != ci {
      assert forall k :: 0 <= k < ci ==> c[k] != c[ci];
      var mid := c[ci := c[cp]];
      var s := mid[cp := c[ci]];
      assert c[ci] != c[cp];
      MisplacedUpdate(c, n, ci, c[cp]);
      MisplacedUpdate(mid, n, cp, c[ci]);
      assert Distinct(s) by {
        forall p, q | 0 <= p < q < n ensures s[p] != s[q] {
          var sp := if p == cp then ci else if p == ci then cp else p;
          var sq := if q == cp then ci else if q == ci then cp else q;
          assert s[p] == c[sp] && s[q] == c[sq];
          if sp < sq { assert c[sp] != c[sq]; } else { assert c[sq] != c[sp]; }
        }
      }
    }
  }

  /** Only swaps change the cells, so every run is a permutation of its start. */
  lemma {:induction false} RunPermutes(f: Frame, fuel: nat)
    requires InRange(f.cells) && f.index <= |f.cells|
    ensures multiset(Run(f, fuel).cells) == multiset(f.cells)
    decreases fuel
  {
    if fuel > 0 && f.index < |f.cells| {
      var c, ci := f.cells, f.index;
      var cp := c[ci];
      if cp != ci {
        var swapped: seq<int> := c[ci := c[cp]][cp := c[ci]];
        assert multiset(swapped) == multiset(c);
      }
      RunPermutes(Tick(f), fuel - 1);
    }
  }

  /** The loop keeps the invariant, and finishes once the fuel exceeds the potential. */
  lemma {:induction false} RunFinishes(f: Frame, fuel: nat)
    requires Inv(f)
    ensures Inv(Run(f, fuel))
    ensures fuel > Potential(f) ==> Run(f, fuel).desc == Complete && Run(f, fuel).index == |f.cells|
    decreases fuel
  {
    if fuel > 0 && f.index < |f.cells| {
      TickProgress(f);
      RunFinishes(Tick(f), fuel - 1);
    }
  }

  /** A finished run holds 0..n-1 in order. */
  lemma CompleteIsSorted(f: Frame)
    requires Inv(f) && f.index == |f.cells|
    ensures forall k :: 0 <= k < |f.cells| ==> f.cells[k] == k
  {
  }

  /**
   * On any permutation of 0..n-1 the frame is a permutation of the input
   * whose cells before the index are in place, and from step 2n + 1 on the
   * array is sorted and every frame says 'Sort complete'.
   */
  lemma FramesAreSound(a: seq<int>, step: nat)
    requires InRange(a) && Distinct(a)
    ensures Inv(FrameOn(a, step)) && multiset(FrameOn(a, step).cells) == multiset(a)
    ensures step > 2 * |a| ==>
      FrameOn(a, step).desc == Complete && forall k :: 0 <= k < |a| ==> FrameOn(a, step).cells[k] == k
  {
    var start := Frame(a, 0, Initial);
    if step > 0 {
      assert Potential(start) <= 2 * |a|;
      RunFinishes(start, step);
      RunPermutes(start, step);
    }
  }

  const Sorted: seq<int> := [0, 1, 2, 3, 4, 5]

  /** The four swaps of the sample, all at index 0. */
  lemma SampleSwaps()
    ensures Tick(Frame(Sample, 0, Initial)) == Frame([4, 1, 5, 3, 2, 0], 0, Swap(3, 4))
    ensures Tick(Frame([4, 1, 5, 3, 2, 0], 0, Swap(3, 4))) == Frame([2, 1, 5, 3, 4, 0], 0, Swap(4, 2))
    ensures Tick(Frame([2, 1, 5, 3, 4, 0], 0, Swap(4, 2))) == Frame([5, 1, 2, 3, 4, 0], 0, Swap(2, 5))
    ensures Tick(Frame([5, 1, 2, 3, 4, 0], 0, Swap(2, 5))) == Frame(Sorted, 0, Swap(5, 0))
  {
  }

  lemma SampleStart()
    ensures Describe(FrameAt(0).desc) == "Initial array"
    ensures FrameAt(1) == Frame([4, 1, 5, 3, 2, 0], 0, Swap(3, 4))
    ensures Describe(FrameAt(1).desc) == "Swap 3 and 4"
  {
    SampleSwaps();
    assert Run(Frame(Sample, 0, Initial), 1) == Run(Tick(Frame(Sample, 0, Initial)), 0);
  }

  /** The sample needs four swaps and six moves; step 11 is the first 'Sort complete'. */
  lemma SampleCompletes(step: nat)
    requires step >= 11
    ensures FrameAt(step) == Frame(Sorted, 6, Complete)
    ensures Describe(FrameAt(step).desc) == "Sort complete"
  {
    SampleSwaps();
    var f4 := Frame(Sorted, 0, Swap(5, 0));
    assert Run(Frame(Sample, 0, Initial), step) == Run(f4, step - 4) by {
      assert Run(Frame(Sample, 0, Initial), step) == Run(Frame([4, 1, 5, 3, 2, 0], 0, Swap(3, 4)), step - 1);
      assert Run(Frame([4, 1, 5, 3, 2, 0], 0, Swap(3, 4)), step - 1) == Run(Frame([2, 1, 5, 3, 4, 0], 0, Swap(4, 2)), step - 2);
      assert Run(Frame([2, 1, 5, 3, 4, 0], 0, Swap(4, 2)), step - 2) == Run(Frame([5, 1, 2, 3, 4, 0], 0, Swap(2, 5)), step - 3);
    }
    SortedMoves(step - 4);
  }

  /** From the sorted array the six remaining ticks only move the index. */
  lemma SortedMoves(fuel: nat)
    requires fuel >= 7
    ensures Run(Frame(Sorted, 0, Swap(5, 0)), fuel) == Frame(Sorted, 6, Complete)
  {
    assert Run(Frame(Sorted, 0, Swap(5, 0)), fuel) == Run(Frame(Sorted, 1, InPosition(0)), fuel - 1);
    assert Run(Frame(Sorted, 1, InPosition(0)), fuel - 1) == Run(Frame(Sorted, 2, InPosition(1)), fuel - 2);
    assert Run(Frame(Sorted, 2, InPosition(1)), fuel - 2) == Run(Frame(Sorted, 3, InPosition(2)), fuel - 3);
    assert Run(Frame(Sorted, 3, InPosition(2)), fuel - 3) == Run(Frame(Sorted, 4, InPosition(3)), fuel - 4);
    assert Run(Frame(Sorted, 4, InPosition(3)), fuel - 4) == Run(Frame(Sorted, 5, InPosition(4)), fuel - 5);
    assert Run(Frame(Sorted, 5, InPosition(4)), fuel - 5) == Run(Frame(Sorted, 6, InPosition(5)), fuel - 6);
  }
}
