/**
 * The fast/slow pointer simulator on a list of n nodes. Both pointers move
 * modulo n (slow by one, fast by two single hops); a meeting ends the race,
 * and past step n a second loop advances slow and a finder from the head in
 * lock-step until they coincide.
 */
module FastSlowPointers {
  import opened Text

  const Sample: seq<int> := [1, 2, 3, 4, 5, 6]

  datatype Desc =
    | Initialize
    | Positions(slowValue: int, fastValue: int)
    | CycleDetected
    | CycleStart(value: int)

  /** The drawn pointer indices and the description. */
  datatype Frame = Frame(slow: nat, fast: nat, desc: Desc)

  function Describe(d: Desc): string
  {
    match d
    case Initialize => "Initialize: slow = fast = head"
    case Positions(s, f) =>
      "Slow pointer at " + IntToString(s) + ", Fast pointer at " + IntToString(f)
    case CycleDetected => "Cycle detected! Slow and fast pointers meet."
    case CycleStart(v) => "Cycle start found at node with value " + IntToString(v)
  }

  lemma ModBelow(x: int, n: int)
    requires 0 <= x < n
    ensures x % n == x
  {
  }

  lemma ModWrap(x: int, n: int)
    requires 0 < n <= x < 2 * n
    ensures x % n == x - n
  {
    assert x == n + (x - n);
  }

  datatype Race = Race(slow: nat, fast: nat, met: bool)

  /** One tick of the first loop: slow takes one hop, fast takes two. */
  function Advance(n: nat, slow: nat, fast: nat): (r: (nat, nat))
    requires slow < n && fast < n
    ensures r.0 < n && r.1 < n
  {
    ((slow + 1) % n, ((fast + 1) % n + 1) % n)
  }

  /** The first loop run for at most `fuel` ticks, breaking when the pointers meet. */
  function RaceFor(n: nat, slow: nat, fast: nat, fuel: nat): (r: Race)
    requires slow < n && fast < n
    ensures r.slow < n && r.fast < n
    ensures r.met ==> r.slow == r.fast
    decreases fuel
  {
    if fuel == 0 then Race(slow, fast, false)
    else
      var (s, f) := Advance(n, slow, fast);
      if s == f then Race(s, f, true) else RaceFor(n, s, f, fuel - 1)
  }

  function DoubleMod(t: nat, n: nat): nat
    requires n >= 1
  {
    (2 * t) % n
  }

  /** One tick from (t, 2t mod n) lands on (t + 1, 2(t + 1) mod n), or on the head after tick n. */
  lemma AdvanceTick(n: nat, t: nat)
    requires t < n
    ensures Advance(n, t, DoubleMod(t, n))
      == if t + 1 < n then (t + 1, DoubleMod(t + 1, n)) else (0, 0)
  {
    var f := DoubleMod(t, n);
    var g := (f + 1) % n;
    var h := (g + 1) % n;
    if 2 * t < n {
      ModBelow(2 * t, n);
      if 2 * t + 1 < n {
        ModBelow(2 * t + 1, n);
        if 2 * t + 2 < n { ModBelow(2 * t + 2, n); } else { ModWrap(2 * t + 2, n); }
      } else {
        ModWrap(2 * t + 1, n);
        if 1 < n { ModBelow(1, n); ModWrap(2 * t + 2, n); } else { ModWrap(1, n); }
      }
    } else {
      ModWrap(2 * t, n);
      ModBelow(f + 1, n);
      if f + 2 < n { ModBelow(f + 2, n); } else { ModWrap(f + 2, n); }
      if 2 * t + 2 < 2 * n { ModWrap(2 * t + 2, n); } else { assert 2 * t + 2 == 2 * n; }
    }
    if t + 1 < n { ModBelow(t + 1, n); } else { ModWrap(t + 1, n); }
  }

  /** Before tick n the pointers never coincide. */
  lemma NoEarlyMeeting(n: nat, t: nat)
    requires 0 < t < n
    ensures t != DoubleMod(t, n)
  {
    if 2 * t < n { ModBelow(2 * t, n); } else { ModWrap(2 * t, n); }
  }

  /**
   * After t < n ticks without a meeting, slow sits at t and fast at 2t mod n;
   * the first meeting happens at tick n, with both pointers back at the head.
   */
  lemma {:induction false} RaceFrom(n: nat, t: nat, fuel: nat)
    requires t < n
    ensures RaceFor(n, t, DoubleMod(t, n), fuel)
      == if t + fuel < n then Race(t + fuel, DoubleMod(t + fuel, n), false) else Race(0, 0, true)
    decreases fuel
  {
    if fuel > 0 {
      AdvanceTick(n, t);
      if t + 1 < n {
        NoEarlyMeeting(n, t + 1);
        RaceFrom(n, t + 1, fuel - 1);
      }
    }
  }

  /** The race from the head, in closed form. */
  lemma RaceClosedForm(n: nat, fuel: nat)
    requires n >= 1
    ensures RaceFor(n, 0, 0, fuel)
      == if fuel < n then Race(fuel, DoubleMod(fuel, n), false) else Race(0, 0, true)
  {
    assert DoubleMod(0, n) == 0;
    RaceFrom(n, 0, fuel);
  }

  datatype Seek = Seek(slow: nat, finder: nat, found: bool)

  /** The second loop: slow and finder advance together until they coincide. */
  function SeekFor(n: nat, slow: nat, finder: nat, fuel: nat): (r: Seek)
    requires slow < n && finder < n
    ensures r.slow < n && r.finder < n
    ensures r.found ==> r.slow == r.finder
    decreases fuel
  {
    if fuel == 0 then Seek(slow, finder, false)
    else
      var s, f := (slow + 1) % n, (finder + 1) % n;
      if s == f then Seek(s, f, true) else SeekFor(n, s, f, fuel - 1)
  }

  function Min(x: int, y: int): int { if x <= y then x else y }

  function FrameOn(nodes: seq<int>, step: nat): (fr: Frame)
    requires |nodes| >= 1
    ensures fr.slow < |nodes| && fr.fast < |nodes|
  {
    var n := |nodes|;
    if step == 0 then Frame(0, 0, Initialize)
    else
      var r := RaceFor(n, 0, 0, step);
      if !r.met then Frame(r.slow, r.fast, Positions(nodes[r.slow], nodes[r.fast]))
      else if step > n then
        var s := SeekFor(n, r.slow, 0, Min(step - n, n));
        Frame(s.slow, r.fast, if s.found then CycleStart(nodes[s.finder]) else CycleDetected)
      else Frame(r.slow, r.fast, CycleDetected)
  }

  function FrameAt(step: nat): Frame
  {
    FrameOn(Sample, step)
  }

  method Animate(step: nat) returns (f: Frame)
    ensures f == FrameAt(step)
  {
    f := RingSteps(Sample, step);
  }

  /** The two loops on a ring of the given node values. */
  method RingSteps(nodes: seq<int>, step: nat) returns (f: Frame)
    requires |nodes| >= 1
    ensures f == FrameOn(nodes, step)
  {
    var n := |nodes|;
    var slow: nat, fast: nat := 0, 0;
    if step == 0 {
      return Frame(0, 0, Initialize);
    }
    var detected := false;
    var i := 0;
    while i < step
      invariant 0 <= i <= step && slow < n && fast < n
      invariant RaceFor(n, slow, fast, step - i) == RaceFor(n, 0, 0, step)
    {
      slow := (slow + 1) % n;
      fast := (fast + 1) % n;
      fast := (fast + 1) % n;
      if slow == fast {
        detected := true;
        break;
      }
      i := i + 1;
    }
    assert RaceFor(n, 0, 0, step) == Race(slow, fast, detected);
    if !detected {
      return Frame(slow, fast, Positions(nodes[slow], nodes[fast]));
    }
    var desc := CycleDetected;
    if step > n {
      var finder: nat := 0;
      var bound := Min(step - n, n);
      var j := 0;
      var found := false;
      while j < bound
        invariant 0 <= j <= bound && slow < n && finder < n
        invariant SeekFor(n, slow, finder, bound - j) == SeekFor(n, RaceFor(n, 0, 0, step).slow, 0, bound)
      {
        slow := (slow + 1) % n;
        finder := (finder + 1) % n;
        if slow == finder {
          desc := CycleStart(nodes[finder]);
          found := true;
          break;
        }
        j := j + 1;
      }
      assert SeekFor(n, RaceFor(n, 0, 0, step).slow, 0, bound) == Seek(slow, finder, found);
    }
    f := Frame(slow, fast, desc);
  }

  /** A meeting (and hence any cycle message) is reported iff step >= n. */
  lemma CycleReportedIff(nodes: seq<int>, step: nat)
    requires |nodes| >= 1
    ensures FrameOn(nodes, step).desc.Positions? <==> 1 <= step < |nodes|
    ensures 1 <= step < |nodes| ==>
      FrameOn(nodes, step).slow == step && FrameOn(nodes, step).fast == DoubleMod(step, |nodes|)
  {
    RaceClosedForm(|nodes|, step);
  }

  /**
   * Past step n the pointers met at the head, so the finder phase stops after
   * one tick and reports the second node, whatever the list looks like.
   */
  lemma FinderReportsSecondNode(nodes: seq<int>, step: nat)
    requires |nodes| >= 1 && step > |nodes|
    ensures FrameOn(nodes, step).desc == CycleStart(nodes[1 % |nodes|])
  {
    var n := |nodes|;
    RaceClosedForm(n, step);
    assert SeekFor(n, 0, 0, Min(step - n, n)) == Seek(1 % n, 1 % n, true);
  }

  lemma SampleTrace(step: nat)
    ensures step == 0 ==> Describe(FrameAt(step).desc) == "Initialize: slow = fast = head"
    ensures step == 6 ==> Describe(FrameAt(step).desc) == "Cycle detected! Slow and fast pointers meet."
    ensures step >= 7 ==> Describe(FrameAt(step).desc) == "Cycle start found at node with value 2"
  {
    if step == 6 {
      RaceClosedForm(6, 6);
    } else if step >= 7 {
      FinderReportsSecondNode(Sample, step);
    }
  }
}
