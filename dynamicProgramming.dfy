/**
 * The dynamic-programming simulator: Fibonacci(6) by a memoised recursion in
 * which every call, including a memo hit, spends one unit of a call budget
 * equal to the step. An exhausted budget makes the call answer null, and every
 * caller above it gives up as well.
 */
module DynamicProgramming {
  import opened Wrappers
  import opened Text

  const N: nat := 6

  function Fib(i: nat): nat
  {
    if i <= 1 then i else Fib(i - 1) + Fib(i - 2)
  }

  /** The closure's state: the memo cells, `fibCalls` and `currentCalculation`. */
  datatype Fs = Fs(memo: seq<Option<int>>, calls: nat, current: Option<nat>)

  /** `Array(n + 1).fill(null)`, before any call. */
  function Start(n: nat): (st: Fs)
    ensures |st.memo| == n + 1 && st.calls == 0 && st.current == None
    ensures forall i :: 0 <= i < |st.memo| ==> st.memo[i] == None
  {
    Fs(seq(n + 1, i => None), 0, None)
  }

  /** `fib(num, maxCalls)`: the new state and the value, or None once the budget is spent. */
  function FibCall(st: Fs, num: nat, max: nat): (r: (Fs, Option<int>))
    requires num < |st.memo|
    ensures |r.0.memo| == |st.memo|
    decreases num
  {
    if st.calls >= max then (st, None)
    else
      var s1 := st.(calls := st.calls + 1, current := Some(num));
      if num <= 1 then (s1.(memo := s1.memo[num := Some(num)]), Some(num))
      else if s1.memo[num].Some? then (s1, s1.memo[num])
      else
        var a := FibCall(s1, num - 1, max);
        if a.1.None? then (a.0, None)
        else
          var b := FibCall(a.0, num - 2, max);
          if b.1.None? then (b.0, None)
          else
            var v := a.1.value + b.1.value;
            (b.0.(memo := b.0.memo[num := Some(v)]), Some(v))
  }

  datatype Desc =
    | Initialize(n: nat)
    | Result(n: nat, value: int, calls: nat)
    | Computing(step: nat, current: Option<nat>)

  /** The memo row, the call count, the active call and the description. */
  datatype Frame = Frame(memo: seq<Option<int>>, calls: nat, current: Option<nat>, desc: Desc)

  function OptionToString(c: Option<nat>): string
  {
    match c
    case None => "null"
    case Some(v) => NatToString(v)
  }

  function Describe(d: Desc): string
  {
    match d
    case Initialize(n) => "Initialize: Calculate Fibonacci(" + NatToString(n) + ")"
    case Result(n, v, c) =>
      "Fibonacci(" + NatToString(n) + ") = " + IntToString(v) + " (Completed in " + NatToString(c) + " calls)"
    case Computing(s, c) => "Step " + NatToString(s) + ": Computing Fibonacci(" + OptionToString(c) + ")"
  }

  function FrameOn(n: nat, step: nat): Frame
  {
    var st := Start(n);
    if step == 0 then Frame(st.memo, 0, None, Initialize(n))
    else
      var r := FibCall(st, n, step).0;
      var desc := if r.memo[n].Some? then Result(n, r.memo[n].value, r.calls) else Computing(step, r.current);
      Frame(r.memo, r.calls, r.current, desc)
  }

  function FrameAt(step: nat): Frame
  {
    FrameOn(N, step)
  }

  /** The memo array and the counters the recursive `fib` updates in place. */
  class Memoizer {
    const memo: array<Option<int>>
    var fibCalls: nat
    var currentCalculation: Option<nat>

    function State(): Fs
      reads this, memo
    {
      Fs(memo[..], fibCalls, currentCalculation)
    }

    constructor (n: nat)
      ensures State() == Start(n) && fresh(memo)
    {
      memo := new Option<int>[n + 1](i => None);
      fibCalls, currentCalculation := 0, None;
    }

    method FibStep(num: nat, maxCalls: nat) returns (r: Option<int>)
      requires num < memo.Length
      modifies this, memo
      ensures (State(), r) == FibCall(old(State()), num, maxCalls)
      decreases num
    {
      if fibCalls >= maxCalls {
        return None;
      }
      ghost var s0 := State();
      fibCalls := fibCalls + 1;
      currentCalculation := Some(num);
      ghost var s1 := State();
      assert s1 == s0.(calls := s0.calls + 1, current := Some(num));
      if num <= 1 {
        memo[num] := Some(num);
        r := Some(num);
        assert State() == s1.(memo := s1.memo[num := Some(num)]);
        BaseCase(s0, num, maxCalls);
        assert (State(), r) == FibCall(s0, num, maxCalls);
        return;
      }
      if memo[num].Some? {
        r := memo[num];
        MemoHit(s0, num, maxCalls);
        assert (State(), r) == FibCall(s0, num, maxCalls);
        return;
      }
      var result := FibStep(num - 1, maxCalls);
      ghost var s2 := State();
      if result.None? {
        FirstGivesUp(s0, num, maxCalls, s2);
        return None;
      }
      var result2 := FibStep(num - 2, maxCalls);
      ghost var s3 := State();
      if result2.None? {
        SecondGivesUp(s0, num, maxCalls, s2, result.value, s3);
        return None;
      }
      r := Some(result.value + result2.value);
      memo[num] := r;
      assert State() == s3.(memo := s3.memo[num := r]);
      BothAnswer(s0, num, maxCalls, s2, result.value, s3, result2.value);
    }
  }

  method Animate(step: nat) returns (f: Frame)
    ensures f == FrameAt(step)
  {
    var m := new Memoizer(N);
    if step == 0 {
      return Frame(m.memo[..], 0, None, Initialize(N));
    }
    var _ := m.FibStep(N, step);
    var st := m.State();
    var desc := if m.memo[N].Some? then Result(N, m.memo[N].value, m.fibCalls) else Computing(step, m.currentCalculation);
    f := Frame(st.memo, st.calls, st.current, desc);
  }

  /**
   * The budget: calls only grow and never pass `max`, and a call gives up only
   * once all of it is spent. A call that ran sets the current calculation to a
   * number no larger than its own; it leaves the cells above its own alone, and
   * its own as well when it gives up.
   */
  lemma {:induction false} FibBudget(st: Fs, num: nat, max: nat)
    requires num < |st.memo|
    ensures var r := FibCall(st, num, max);
      st.calls <= r.0.calls &&
      (st.calls <= max ==> r.0.calls <= max) &&
      (st.calls <= max && r.1.None? ==> r.0.calls == max) &&
      (st.calls < max ==> r.0.current.Some? && r.0.current.value <= num) &&
      (forall i :: num < i < |st.memo| ==> r.0.memo[i] == st.memo[i]) &&
      (r.1.None? ==> r.0.memo[num] == st.memo[num])
    decreases num
  {
    if st.calls < max && num > 1 && st.memo[num].None? {
      var s1 := st.(calls := st.calls + 1, current := Some(num));
      FibBudget(s1, num - 1, max);
      var a := FibCall(s1, num - 1, max);
      if a.1.Some? {
        FibBudget(a.0, num - 2, max);
      }
    }
  }

  /** Every filled memo cell holds the Fibonacci number of its index. */
  predicate Sound(memo: seq<Option<int>>)
  {
    forall i :: 0 <= i < |memo| && memo[i].Some? ==> memo[i].value == Fib(i)
  }

  /** A call keeps the memo sound and answers, when it answers, the Fibonacci number asked for. */
  lemma {:induction false} FibSound(st: Fs, num: nat, max: nat)
    requires num < |st.memo| && Sound(st.memo)
    ensures var r := FibCall(st, num, max);
      Sound(r.0.memo) && (r.1.Some? ==> r.1.value == Fib(num))
    decreases num
  {
    if st.calls >= max {
    } else if num <= 1 {
      BaseCase(st, num, max);
      var s1 := st.(calls := st.calls + 1, current := Some(num));
      SoundUpdate(s1.memo, num, num);
    } else if st.memo[num].Some? {
      MemoHit(st, num, max);
    } else {
      var s1 := st.(calls := st.calls + 1, current := Some(num));
      FibSound(s1, num - 1, max);
      var a := FibCall(s1, num - 1, max);
      if a.1.None? {
        FirstGivesUp(st, num, max, a.0);
      } else {
        FibSound(a.0, num - 2, max);
        var b := FibCall(a.0, num - 2, max);
        if b.1.None? {
          SecondGivesUp(st, num, max, a.0, a.1.value, b.0);
        } else {
          BothAnswer(st, num, max, a.0, a.1.value, b.0, b.1.value);
          SoundUpdate(b.0.memo, num, a.1.value + b.1.value);
        }
      }
    }
  }

  /** Recording the right number keeps the memo sound. */
  lemma SoundUpdate(memo: seq<Option<int>>, num: nat, v: int)
    requires num < |memo| && Sound(memo) && v == Fib(num)
    ensures Sound(memo[num := Some(v)])
  {
  }

  /** A memo hit above the base cases still spends a call. */
  lemma MemoHit(st: Fs, num: nat, max: nat)
    requires 1 < num < |st.memo| && st.memo[num].Some? && st.calls < max
    ensures FibCall(st, num, max) == (st.(calls := st.calls + 1, current := Some(num)), st.memo[num])
  {
  }

  /** A base case within budget records its own value. */
  lemma BaseCase(st: Fs, num: nat, max: nat)
    requires num <= 1 && num < |st.memo| && st.calls < max
    ensures var s1 := st.(calls := st.calls + 1, current := Some(num));
      FibCall(st, num, max) == (s1.(memo := s1.memo[num := Some(num)]), Some(num))
  {
  }

  /** Above the base cases, an empty cell is filled from the two recursive calls once both answer. */
  lemma BothAnswer(st: Fs, num: nat, max: nat, s2: Fs, x: int, s3: Fs, y: int)
    requires 1 < num < |st.memo| && st.memo[num].None? && st.calls < max
    requires FibCall(st.(calls := st.calls + 1, current := Some(num)), num - 1, max) == (s2, Some(x))
    requires num - 2 < |s2.memo| && FibCall(s2, num - 2, max) == (s3, Some(y))
    ensures FibCall(st, num, max) == (s3.(memo := s3.memo[num := Some(x + y)]), Some(x + y))
  {
  }

  /** A call that runs out in its first recursive call gives up with the state that call left. */
  lemma FirstGivesUp(st: Fs, num: nat, max: nat, s2: Fs)
    requires 1 < num < |st.memo| && st.memo[num].None? && st.calls < max
    requires FibCall(st.(calls := st.calls + 1, current := Some(num)), num - 1, max) == (s2, None)
    ensures FibCall(st, num, max) == (s2, None)
  {
  }

  /** A call that runs out in its second recursive call gives up with the state that call left. */
  lemma SecondGivesUp(st: Fs, num: nat, max: nat, s2: Fs, x: int, s3: Fs)
    requires 1 < num < |st.memo| && st.memo[num].None? && st.calls < max
    requires FibCall(st.(calls := st.calls + 1, current := Some(num)), num - 1, max) == (s2, Some(x))
    requires num - 2 < |s2.memo| && FibCall(s2, num - 2, max) == (s3, None)
    ensures FibCall(st, num, max) == (s3, None)
  {
  }

  /** The calls `fib(m)` makes when no cell from 2 to m is filled yet. */
  function Cost(m: nat): nat
  {
    if m == 0 then 1 else 2 * m - 1
  }

  /**
   * With the cells from 2 to m empty, `fib(m)` answers exactly when the budget
   * has Cost(m) calls left; it then answers Fibonacci(m) after exactly Cost(m)
   * calls with every cell from 1 to m filled (and cell 0 too unless m is 1).
   */
  lemma {:induction false} FreshCall(st: Fs, m: nat, max: nat)
    requires m < |st.memo| && Sound(st.memo) && st.calls <= max
    requires forall k :: 2 <= k <= m ==> st.memo[k].None?
    ensures var r := FibCall(st, m, max);
      (r.1.Some? <==> st.calls + Cost(m) <= max) &&
      (r.1.Some? ==>
        r.1 == Some(Fib(m)) && r.0.calls == st.calls + Cost(m) &&
        (forall k :: 1 <= k <= m ==> r.0.memo[k] == Some(Fib(k))) &&
        (m != 1 ==> r.0.memo[0] == Some(0)))
    decreases m
  {
    FibSound(st, m, max);
    FibBudget(st, m, max);
    if st.calls < max && m <= 1 {
      BaseCase(st, m, max);
    } else if st.calls < max {
      var s1 := st.(calls := st.calls + 1, current := Some(m));
      FreshCall(s1, m - 1, max);
      var a := FibCall(s1, m - 1, max);
      if a.1.None? {
        FirstGivesUp(st, m, max, a.0);
      } else {
        SecondCall(a.0, m, max);
        var b := FibCall(a.0, m - 2, max);
        if b.1.None? {
          SecondGivesUp(st, m, max, a.0, a.1.value, b.0);
        } else {
          BothAnswer(st, m, max, a.0, a.1.value, b.0, b.1.value);
        }
      }
    }
  }

  /** The second recursive call, on m - 2, is a base case or a memo hit: it costs one call. */
  lemma SecondCall(st: Fs, m: nat, max: nat)
    requires 2 <= m < |st.memo| && st.calls <= max
    requires forall k :: 1 <= k < m ==> st.memo[k] == Some(Fib(k))
    requires m > 2 ==> st.memo[0] == Some(0)
    ensures var b := FibCall(st, m - 2, max);
      (b.1.Some? <==> st.calls < max) &&
      (b.1.Some? ==>
        b.1 == Some(Fib(m - 2)) && b.0.calls == st.calls + 1 &&
        (forall k :: 0 <= k < m ==> b.0.memo[k] == Some(Fib(k))) &&
        (forall k :: m <= k < |st.memo| ==> b.0.memo[k] == st.memo[k]))
  {
    FibBudget(st, m - 2, max);
  }

  /** From the initial memo, `fib(6)` with a budget of at least 11 calls answers 8 after 11 calls. */
  lemma SampleCompletes(step: nat)
    requires step >= 11
    ensures var r := FibCall(Start(N), N, step);
      r.1 == Some(8) && r.0.calls == 11 && r.0.memo[N] == Some(8)
  {
    FreshCall(Start(N), N, step);
    assert Fib(6) == 8;
  }

  /** With fewer than 11 calls the computation gives up, leaving cell 6 empty and a call in progress. */
  lemma SampleGivesUp(step: nat)
    requires 1 <= step < 11
    ensures var r := FibCall(Start(N), N, step);
      r.1 == None && r.0.calls == step && r.0.memo[N] == None &&
      r.0.current.Some? && r.0.current.value <= N
  {
    FreshCall(Start(N), N, step);
    FibBudget(Start(N), N, step);
  }

  /** The frame counts never exceed the step. */
  lemma CallsWithinStep(step: nat)
    ensures FrameAt(step).calls <= step
  {
    FibBudget(Start(N), N, step);
  }

  lemma SampleTrace(step: nat)
    ensures step == 0 ==> FrameAt(step).desc == Initialize(6)
    ensures step >= 11 ==> FrameAt(step).desc == Result(6, 8, 11)
    ensures 1 <= step < 11 ==> exists c :: c <= 6 && FrameAt(step).desc == Computing(step, Some(c))
  {
    if step >= 11 {
      SampleCompletes(step);
    } else if step >= 1 {
      SampleGivesUp(step);
      var c := FibCall(Start(N), N, step).0.current.value;
      assert FrameAt(step).desc == Computing(step, Some(c));
    }
  }

  lemma InitialText()
    ensures Describe(Initialize(6)) == "Initialize: Calculate Fibonacci(" + "6" + ")"
  {
    assert NatToString(6) == "6";
  }

  lemma ResultText()
    ensures Describe(Result(6, 8, 11)) == "Fibonacci(" + "6" + ") = " + "8" + " (Completed in " + "11" + " calls)"
  {
    assert NatToString(6) == "6";
    assert IntToString(8) == "8";
    assert NatToString(11) == "11";
  }
}
