/**
 * The older fast/slow simulator on a list of ten nodes: slow moves one node
 * and fast two nodes per tick, both modulo the list length, until they meet.
 * There is no finder phase; the drawn cycle back to the fourth node is
 * decoration only.
 */
module LegacyFastSlow {
  import FastSlowPointers

  const Sample: seq<int> := [1, 2, 3, 4, 5, 6, 7, 8, 9, 10]

  datatype Desc = Initialize | Detected | Moving

  /** The drawn pointer indices and the description. */
  datatype Frame = Frame(slow: nat, fast: nat, desc: Desc)

  function Describe(d: Desc): string
  {
    match d
    case Initialize => "Initialize: slow = head, fast = head"
    case Detected => "Cycle detected! Slow and fast pointers meet."
    case Moving => "Moving pointers: slow advances by 1, fast advances by 2"
  }

  /** Two hops of one node are one jump of two nodes. */
  lemma TwoHops(n: nat, fast: nat)
    requires fast < n
    ensures (fast + 2) % n == ((fast + 1) % n + 1) % n
  {
    if n == 1 {
    } else if fast + 2 < n {
      FastSlowPointers.ModBelow(fast + 2, n);
      FastSlowPointers.ModBelow(fast + 1, n);
    } else if fast + 1 < n {
      FastSlowPointers.ModWrap(fast + 2, n);
      FastSlowPointers.ModBelow(fast + 1, n);
    } else {
      FastSlowPointers.ModWrap(fast + 1, n);
      FastSlowPointers.ModBelow(1, n);
      FastSlowPointers.ModWrap(fast + 2, n);
    }
  }

  /** A race that ran at least one tick without meeting leaves the pointers apart. */
  lemma {:induction false} RaceApart(n: nat, slow: nat, fast: nat, fuel: nat)
    requires slow < n && fast < n && fuel >= 1
    ensures var r := FastSlowPointers.RaceFor(n, slow, fast, fuel); !r.met ==> r.slow != r.fast
    decreases fuel
  {
    var (s, f) := FastSlowPointers.Advance(n, slow, fast);
    if s != f && fuel > 1 {
      RaceApart(n, s, f, fuel - 1);
    }
  }

  function FrameOn(n: nat, step: nat): (f: Frame)
    requires n >= 1
    ensures f.slow < n && f.fast < n
  {
    if step == 0 then Frame(0, 0, Initialize)
    else
      var r := FastSlowPointers.RaceFor(n, 0, 0, step);
      Frame(r.slow, r.fast, if r.met then Detected else Moving)
  }

  function FrameAt(step: nat): Frame
  {
    FrameOn(|Sample|, step)
  }

  /** The simulator never ends playback: every step yields a frame. */
  method Animate(step: nat) returns (f: Frame)
    ensures f == FrameAt(step)
  {
    var n := |Sample|;
    var slow: nat, fast: nat := 0, 0;
    var desc := Initialize;
    if step > 0 {
      var i := 0;
      var met := false;
      while i < step
        invariant 0 <= i <= step && slow < n && fast < n
        invariant FastSlowPointers.RaceFor(n, slow, fast, step - i) == FastSlowPointers.RaceFor(n, 0, 0, step)
      {
        TwoHops(n, fast);
        slow := (slow + 1) % n;
        fast := (fast + 2) % n;
        if slow == fast {
          desc := Detected;
          met := true;
          break;
        }
        i := i + 1;
      }
      assert FastSlowPointers.RaceFor(n, 0, 0, step) == FastSlowPointers.Race(slow, fast, met);
      RaceApart(n, 0, 0, step);
      if slow != fast {
        desc := Moving;
      }
    }
    f := Frame(slow, fast, desc);
  }

  /**
   * A meeting is reported iff step >= n; before that the pointers sit at
   * step and 2 * step mod n, and from step n on both are back at the head.
   */
  lemma DetectedIff(n: nat, step: nat)
    requires n >= 1
    ensures FrameOn(n, step).desc == Detected <==> step >= n
    ensures 1 <= step < n ==>
      FrameOn(n, step) == Frame(step, (2 * step) % n, Moving)
    ensures step >= n ==> FrameOn(n, step) == Frame(0, 0, Detected)
  {
    FastSlowPointers.RaceClosedForm(n, step);
  }

  lemma SampleTrace(step: nat)
    ensures step == 0 ==> Describe(FrameAt(step).desc) == "Initialize: slow = head, fast = head"
    ensures 1 <= step < 10 ==>
      Describe(FrameAt(step).desc) == "Moving pointers: slow advances by 1, fast advances by 2"
    ensures step >= 10 ==> Describe(FrameAt(step).desc) == "Cycle detected! Slow and fast pointers meet."
  {
    DetectedIff(10, step);
  }
}
