/**
 * The React component's playback controller for one pattern: a step
 * counter and an interval handle held in refs, and the `isPlaying` and
 * `description` state. Interval timers are abstract handles: `live` holds
 * those created and not yet cleared, and a live timer's callback is the
 * method `Tick`. The canvas is mounted exactly when the pattern has a
 * simulator, since the component renders nothing otherwise.
 */
module ContainerPlayback {
  import opened Wrappers
  import opened Registry
  import Simulation

  class Controller {
    /** `animationRegistry[patternId]`, fixed for the component's props. */
    const animationFunc: Option<Simulator>
    var isPlaying: bool
    var description: string
    /** `intervalRef.current`. */
    var interval: Option<nat>
    /** `currentStepRef.current`: the step last rendered. */
    var currentStep: nat
    var live: set<nat>
    var nextHandle: nat

    /**
     * Playing exactly while a handle is stored, which is then the one live
     * timer; timers exist only for a pattern with a simulator.
     */
    predicate Valid()
      reads this
    {
      nextHandle >= 1 &&
      (isPlaying <==> interval.Some?) &&
      live == (if interval.Some? then {interval.value} else {}) &&
      (interval.Some? ==> 1 <= interval.value < nextHandle && animationFunc.Some?)
    }

    /** The stored handle, as a set. */
    function Stored(): set<nat>
      reads this
    {
      if interval.Some? then {interval.value} else {}
    }

    /** Mounting: the initial state, then the effect resets a pattern that has a simulator. */
    constructor (patternId: string)
      ensures Valid()
      ensures animationFunc == Lookup(AnimationRegistry, patternId)
      ensures !isPlaying && interval == None && currentStep == 0 && live == {}
      ensures description == if animationFunc.Some? then Shown(animationFunc.value, 0) else ""
    {
      animationFunc := Lookup(AnimationRegistry, patternId);
      isPlaying := false;
      description := "";
      interval := None;
      currentStep := 0;
      live := {};
      nextHandle := 1;
      new;
      if animationFunc.Some? {
        Reset();
      }
    }

    /** The description a reset shows for `step`: the result's text, or empty for `null` or an empty text. */
    static function Shown(sim: Simulator, step: nat): string
    {
      var r := Simulation.Render(sim, step);
      if r.Some? && r.value != "" then r.value else ""
    }

    /** `setInterval`: a fresh handle that is live from now on. */
    method NewTimer() returns (h: nat)
      requires nextHandle >= 1
      modifies this
      ensures h == old(nextHandle) && h >= 1
      ensures live == old(live) + {h} && nextHandle == h + 1
      ensures isPlaying == old(isPlaying) && currentStep == old(currentStep) && interval == old(interval)
      ensures description == old(description)
    {
      h := nextHandle;
      nextHandle := nextHandle + 1;
      live := live + {h};
    }

    /** `clearInterval(intervalRef.current)` and `intervalRef.current = null`, when a handle is stored. */
    method ClearStored()
      modifies this
      ensures interval == None && live == old(live) - old(Stored())
      ensures isPlaying == old(isPlaying) && currentStep == old(currentStep)
      ensures description == old(description) && nextHandle == old(nextHandle)
    {
      if interval.Some? {
        live := live - {interval.value};
        interval := None;
      }
    }

    /**
     * `resetAnimation` (the first of the two declarations): drops the timer,
     * rewinds to step 0 and shows the step-0 description of the simulator.
     */
    method Reset()
      requires Valid()
      modifies this
      ensures Valid()
      ensures !isPlaying && interval == None && live == {} && currentStep == 0
      ensures description == if animationFunc.Some? then Shown(animationFunc.value, 0) else ""
      ensures nextHandle == old(nextHandle)
    {
      ClearStored();
      isPlaying := false;
      currentStep := 0;
      description := "";
      if animationFunc.Some? {
        var r := Simulation.Call(animationFunc.value, 0);
        if r.Some? && r.value != "" {
          description := r.value;
        }
      }
    }

    /**
     * `startAnimation`: without a simulator nothing happens; otherwise a new
     * timer is created and stored. An already stored timer is not cleared,
     * so it stays live beside the new one.
     */
    method Start()
      requires nextHandle >= 1
      modifies this
      ensures animationFunc.None? ==>
        isPlaying == old(isPlaying) && interval == old(interval) && live == old(live) &&
        nextHandle == old(nextHandle)
      ensures animationFunc.Some? ==>
        isPlaying && interval == Some(old(nextHandle)) && live == old(live) + {old(nextHandle)} &&
        nextHandle == old(nextHandle) + 1
      ensures currentStep == old(currentStep) && description == old(description)
    {
      if animationFunc.None? {
        return;
      }
      isPlaying := true;
      var h := NewTimer();
      interval := Some(h);
    }

    /**
     * The interval callback: increments the step first and renders the new
     * step, so the first tick shows step 1. A `null` result pauses and drops
     * the stored timer; an empty description leaves the old one.
     */
    method Tick(h: nat)
      requires Valid() && h in live
      modifies this
      ensures Valid()
      ensures currentStep == old(currentStep) + 1 && nextHandle == old(nextHandle)
      ensures var r := Simulation.Render(animationFunc.value, currentStep);
        if r.None? then
          !isPlaying && interval == None && live == {} && description == old(description)
        else
          isPlaying && interval == old(interval) && live == old(live) &&
          description == (if r.value != "" then r.value else old(description))
    {
      currentStep := currentStep + 1;
      var r := Simulation.Call(animationFunc.value, currentStep);
      if r.None? {
        isPlaying := false;
        ClearStored();
        return;
      }
      if r.value != "" {
        description := r.value;
      }
    }

    /** `stopAnimation`: drops the timer and pauses; the step is kept. */
    method Stop()
      requires Valid()
      modifies this
      ensures Valid()
      ensures !isPlaying && interval == None && live == {}
      ensures currentStep == old(currentStep) && description == old(description) && nextHandle == old(nextHandle)
    {
      ClearStored();
      isPlaying := false;
    }

    /**
     * `toggleAnimation`: pauses when playing, otherwise starts a timer that
     * continues from the kept step; a pattern without a simulator never plays.
     */
    method Toggle()
      requires Valid()
      modifies this
      ensures Valid()
      ensures isPlaying <==> !old(isPlaying) && animationFunc.Some?
      ensures currentStep == old(currentStep) && description == old(description)
      ensures isPlaying ==> interval == Some(old(nextHandle)) && live == {old(nextHandle)}
      ensures !isPlaying ==> interval == None && live == {}
    {
      if isPlaying {
        Stop();
      } else {
        Start();
      }
    }

    /**
     * Playing on: since no registered simulator returns `null` on its sample,
     * `k` ticks of the live timer advance the step by exactly `k`, playback
     * goes on, and a non-empty description of the last step is the one shown.
     */
    method Play(k: nat)
      requires Valid() && isPlaying
      modifies this
      ensures Valid() && isPlaying
      ensures currentStep == old(currentStep) + k
      ensures interval == old(interval) && live == old(live)
      ensures k > 0 && Shown(animationFunc.value, currentStep) != "" ==>
        description == Shown(animationFunc.value, currentStep)
    {
      for i := 0 to k
        invariant Valid() && isPlaying
        invariant currentStep == old(currentStep) + i
        invariant interval == old(interval) && live == old(live)
        invariant i > 0 && Shown(animationFunc.value, currentStep) != "" ==>
          description == Shown(animationFunc.value, currentStep)
      {
        Simulation.NeverEnds(animationFunc.value, currentStep + 1);
        Tick(interval.value);
      }
    }
  }
}
