/**
 * The older script's single global playback state: whether it plays, the
 * next step to render, the stored interval handle and the active pattern.
 * Interval timers are abstract handles: `live` holds those created and not
 * yet cleared, and a live timer's callback is the method `Tick`. Handles are
 * positive, as the browser's are, so a stored handle is always truthy.
 */
module LegacyPlayback {
  import opened Wrappers
  import opened Registry
  import Simulation

  /** `currentAnimation`: the pattern and the simulator it was started with. */
  datatype Active = Active(patternId: string, sim: Simulator)

  class Controller {
    var isPlaying: bool
    var currentStep: nat
    /** `animationState.interval`: the last handle stored, cleared or not. */
    var interval: Option<nat>
    var currentAnimation: Option<Active>
    /** The text of the active container's description element. */
    var text: string
    /** The step last passed to the simulator, i.e. the frame on the canvas. */
    var drawn: Option<nat>
    var live: set<nat>
    var nextHandle: nat

    /**
     * A live timer exists exactly while playing, and it is the stored one;
     * the active pattern is a registry entry.
     */
    predicate Valid()
      reads this
    {
      nextHandle >= 1 &&
      (isPlaying ==> currentAnimation.Some? && interval.Some? && live == {interval.value}) &&
      (!isPlaying ==> live == {}) &&
      (interval.Some? ==> 1 <= interval.value < nextHandle) &&
      (currentAnimation.Some? ==>
        Lookup(LegacyRegistry, currentAnimation.value.patternId) == Some(currentAnimation.value.sim))
    }

    /** The initial `animationState`. */
    constructor ()
      ensures Valid()
      ensures !isPlaying && currentStep == 0 && interval == None && currentAnimation == None
      ensures text == "" && drawn == None && live == {}
    {
      isPlaying := false;
      currentStep := 0;
      interval := None;
      currentAnimation := None;
      text := "";
      drawn := None;
      live := {};
      nextHandle := 1;
    }

    /** `setInterval`: a fresh handle that is live from now on. */
    method NewTimer() returns (h: nat)
      requires nextHandle >= 1
      modifies this
      ensures h == old(nextHandle) && h >= 1
      ensures live == old(live) + {h} && nextHandle == h + 1
      ensures isPlaying == old(isPlaying) && currentStep == old(currentStep) && interval == old(interval)
      ensures currentAnimation == old(currentAnimation) && text == old(text) && drawn == old(drawn)
    {
      h := nextHandle;
      nextHandle := nextHandle + 1;
      live := live + {h};
    }

    /** `stopAnimation`: clears the stored timer but keeps its stale handle, and keeps the step. */
    method Stop()
      requires Valid()
      modifies this
      ensures Valid()
      ensures !isPlaying && live == {}
      ensures interval == old(interval) && currentStep == old(currentStep)
      ensures currentAnimation == old(currentAnimation) && text == old(text) && drawn == old(drawn)
      ensures nextHandle == old(nextHandle)
    {
      if interval.Some? {
        live := live - {interval.value};
      }
      isPlaying := false;
    }

    /**
     * `startAnimation`: always stops first; an unknown pattern or a missing
     * container element leaves everything else as it was. Otherwise playback
     * restarts at step 0 in a freshly built, empty container.
     */
    method Start(patternId: string, hasElement: bool)
      requires Valid()
      modifies this
      ensures Valid()
      ensures Lookup(LegacyRegistry, patternId).None? || !hasElement ==>
        !isPlaying && live == {} && currentStep == old(currentStep) && interval == old(interval) &&
        currentAnimation == old(currentAnimation) && text == old(text) && drawn == old(drawn) &&
        nextHandle == old(nextHandle)
      ensures Lookup(LegacyRegistry, patternId).Some? && hasElement ==>
        isPlaying && currentStep == 0 && interval == Some(old(nextHandle)) && live == {old(nextHandle)} &&
        currentAnimation == Some(Active(patternId, LegacyRegistry[patternId])) && text == "" && drawn == None &&
        nextHandle == old(nextHandle) + 1
    {
      Stop();
      var sim := Lookup(LegacyRegistry, patternId);
      if sim.None? || !hasElement {
        return;
      }
      isPlaying := true;
      currentStep := 0;
      interval := None;
      currentAnimation := Some(Active(patternId, sim.value));
      text := "";
      drawn := None;
      var h := NewTimer();
      interval := Some(h);
    }

    /**
     * The interval callback: renders `currentStep` and only then increments
     * it; a `null` result stops playback and leaves the step where it was,
     * and an empty description leaves the text unchanged.
     */
    method Tick(h: nat)
      requires Valid() && h in live
      modifies this
      ensures Valid()
      ensures drawn == Some(old(currentStep)) && interval == old(interval)
      ensures currentAnimation == old(currentAnimation) && nextHandle == old(nextHandle)
      ensures var r := Simulation.Render(old(currentAnimation).value.sim, old(currentStep));
        if r.None? then
          !isPlaying && live == {} && currentStep == old(currentStep) && text == old(text)
        else
          isPlaying && live == old(live) && currentStep == old(currentStep) + 1 &&
          text == (if r.value != "" then r.value else old(text))
    {
      var r := Simulation.Call(currentAnimation.value.sim, currentStep);
      drawn := Some(currentStep);
      if r.None? {
        Stop();
        return;
      }
      if r.value != "" {
        text := r.value;
      }
      currentStep := currentStep + 1;
    }

    /**
     * `toggleAnimation`: pauses when playing; when stopped on the same
     * pattern it resumes at the preserved step with a new timer; otherwise
     * it starts the pattern afresh.
     */
    method Toggle(patternId: string, hasElement: bool)
      requires Valid()
      modifies this
      ensures Valid()
      ensures old(isPlaying) ==>
        !isPlaying && live == {} && currentStep == old(currentStep) && interval == old(interval) &&
        currentAnimation == old(currentAnimation) && text == old(text) && drawn == old(drawn) &&
        nextHandle == old(nextHandle)
      ensures !old(isPlaying) && old(currentAnimation).Some? && old(currentAnimation).value.patternId == patternId ==>
        isPlaying && currentStep == old(currentStep) && interval == Some(old(nextHandle)) &&
        live == {old(nextHandle)} && currentAnimation == old(currentAnimation) && text == old(text) &&
        drawn == old(drawn) && nextHandle == old(nextHandle) + 1
      ensures (!old(isPlaying) && (old(currentAnimation).None? || old(currentAnimation).value.patternId != patternId) &&
          Lookup(LegacyRegistry, patternId).Some? && hasElement) ==>
        isPlaying && currentStep == 0 && interval == Some(old(nextHandle)) && live == {old(nextHandle)} &&
        currentAnimation == Some(Active(patternId, LegacyRegistry[patternId])) && text == "" && drawn == None &&
        nextHandle == old(nextHandle) + 1
      ensures (!old(isPlaying) && (old(currentAnimation).None? || old(currentAnimation).value.patternId != patternId) &&
          (Lookup(LegacyRegistry, patternId).None? || !hasElement)) ==>
        !isPlaying && live == {} && currentStep == old(currentStep) && interval == old(interval) &&
        currentAnimation == old(currentAnimation) && text == old(text) && drawn == old(drawn) &&
        nextHandle == old(nextHandle)
    {
      if !isPlaying {
        if currentAnimation.Some? && currentAnimation.value.patternId == patternId {
          isPlaying := true;
          var h := NewTimer();
          interval := Some(h);
        } else {
          Start(patternId, hasElement);
        }
      } else {
        Stop();
      }
    }

    /**
     * `resetAnimation`: stops and rewinds to step 0 whatever the pattern,
     * but repaints frame 0 only for the active pattern; the description text
     * is not refreshed.
     */
    method Reset(patternId: string)
      requires Valid()
      modifies this
      ensures Valid()
      ensures !isPlaying && live == {} && currentStep == 0 && interval == old(interval)
      ensures currentAnimation == old(currentAnimation) && text == old(text) && nextHandle == old(nextHandle)
      ensures drawn == if old(currentAnimation).Some? && old(currentAnimation).value.patternId == patternId
        then Some(0) else old(drawn)
    {
      Stop();
      currentStep := 0;
      if currentAnimation.Some? && currentAnimation.value.patternId == patternId {
        var _ := Simulation.Call(currentAnimation.value.sim, 0);
        drawn := Some(0);
      }
    }

    /**
     * Playing on: since no registered simulator returns `null` on its sample,
     * `k` ticks of the live timer advance the step by exactly `k` and
     * playback goes on.
     */
    method Play(k: nat)
      requires Valid() && isPlaying
      modifies this
      ensures Valid() && isPlaying
      ensures currentStep == old(currentStep) + k
      ensures currentAnimation == old(currentAnimation) && interval == old(interval) && live == old(live)
      ensures k > 0 ==> drawn == Some(currentStep - 1)
    {
      for i := 0 to k
        invariant Valid() && isPlaying
        invariant currentStep == old(currentStep) + i
        invariant currentAnimation == old(currentAnimation) && interval == old(interval) && live == old(live)
        invariant i > 0 ==> drawn == Some(currentStep - 1)
      {
        Simulation.NeverEnds(currentAnimation.value.sim, currentStep);
        Tick(interval.value);
      }
    }
  }
}
