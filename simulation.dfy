/**
 * Calling a registered simulator: `animationFunc(container, step)` returns
 * `{description}` or `null`. With the canvas left out, a simulator is its
 * module's frame at `step`, rendered to the description string.
 */
module Simulation {
  import opened Wrappers
  import opened Registry
  import TwoPointers
  import SlidingWindow
  import FastSlowPointers
  import MergeIntervals
  import CyclicSort
  import LinkedListReversal
  import TreeBFS
  import TreeDFS
  import TwoHeaps
  import Subsets
  import BinarySearch
  import TopologicalSort
  import DynamicProgramming
  import GreedyAlgorithms
  import LegacyFastSlow
  import VariableWindow

  /** The simulator's result at `step`: `Some(description)`, or `None` for `null`. */
  function Render(sim: Simulator, step: nat): Option<string>
  {
    match sim
    case TwoPointersConverging =>
      var f := TwoPointers.FrameAt(step);
      if f.None? then None else Some(TwoPointers.Describe(f.value.desc))
    case SlidingWindowFixed => Some(SlidingWindow.Describe(SlidingWindow.FrameAt(step).desc))
    case FastSlowPointers => Some(FastSlowPointers.Describe(FastSlowPointers.FrameAt(step).desc))
    case MergeIntervals => Some(MergeIntervals.Describe(MergeIntervals.FrameAt(step).desc))
    case CyclicSort => Some(CyclicSort.Describe(CyclicSort.FrameAt(step).desc))
    case LinkedListReversal => Some(LinkedListReversal.Describe(LinkedListReversal.FrameAt(step).desc))
    case TreeBFS => Some(TreeBFS.Describe(TreeBFS.FrameAt(step).desc))
    case TreeDFS => Some(TreeDFS.Describe(TreeDFS.FrameAt(step).desc))
    case TwoHeaps => Some(TwoHeaps.Describe(TwoHeaps.FrameAt(step).desc))
    case Subsets => Some(Subsets.Describe(Subsets.FrameAt(step).desc))
    case BinarySearch => Some(BinarySearch.Describe(BinarySearch.FrameAt(step).desc))
    case TopologicalSort => Some(TopologicalSort.Describe(TopologicalSort.FrameAt(step).desc))
    case DynamicProgramming => Some(DynamicProgramming.Describe(DynamicProgramming.FrameAt(step).desc))
    case GreedyAlgorithms => Some(GreedyAlgorithms.Describe(GreedyAlgorithms.FrameAt(step).desc))
    case TwoPointersFastSlow => Some(LegacyFastSlow.Describe(LegacyFastSlow.FrameAt(step).desc))
    case SlidingWindowVariable =>
      var f := VariableWindow.FrameAt(step);
      if f.None? then None else Some(VariableWindow.Describe(f.value.desc))
  }

  /**
   * Only the two simulators with a failure branch can return `null`, and on
   * their fixed sample inputs neither does: no playback ever ends by itself.
   */
  lemma NeverEnds(sim: Simulator, step: nat)
    ensures Render(sim, step).Some?
  {
    match sim
    case TwoPointersConverging => TwoPointers.SampleNeverFinishes(step);
    case SlidingWindowVariable => VariableWindow.SampleNeverNull(step);
    case _ =>
  }

  /** Runs the simulator through its own step-by-step code. */
  method Call(sim: Simulator, step: nat) returns (r: Option<string>)
    ensures r == Render(sim, step)
  {
    match sim {
      case TwoPointersConverging =>
        var f := TwoPointers.Animate(step);
        r := if f.None? then None else Some(TwoPointers.Describe(f.value.desc));
      case SlidingWindowFixed =>
        r := Some(SlidingWindow.Describe(SlidingWindow.FrameAt(step).desc));
      case FastSlowPointers =>
        var f := FastSlowPointers.Animate(step);
        r := Some(FastSlowPointers.Describe(f.desc));
      case MergeIntervals =>
        var f := MergeIntervals.Animate(step);
        r := Some(MergeIntervals.Describe(f.desc));
      case CyclicSort =>
        var f := CyclicSort.Animate(step);
        r := Some(CyclicSort.Describe(f.desc));
      case LinkedListReversal =>
        r := Some(LinkedListReversal.Describe(LinkedListReversal.FrameAt(step).desc));
      case TreeBFS =>
        var f := TreeBFS.Animate(step);
        r := Some(TreeBFS.Describe(f.desc));
      case TreeDFS =>
        r := Some(TreeDFS.Describe(TreeDFS.FrameAt(step).desc));
      case TwoHeaps =>
        var f := TwoHeaps.Animate(TwoHeaps.Sample, step);
        r := Some(TwoHeaps.Describe(f.desc));
      case Subsets =>
        var f := Subsets.Animate(Subsets.SampleArray, step);
        r := Some(Subsets.Describe(f.desc));
      case BinarySearch =>
        var f := BinarySearch.Animate(BinarySearch.SampleArray, BinarySearch.SampleTarget, step);
        r := Some(BinarySearch.Describe(f.desc));
      case TopologicalSort =>
        var f := TopologicalSort.Animate(step);
        r := Some(TopologicalSort.Describe(f.desc));
      case DynamicProgramming =>
        var f := DynamicProgramming.Animate(step);
        r := Some(DynamicProgramming.Describe(f.desc));
      case GreedyAlgorithms =>
        var f := GreedyAlgorithms.Animate(step);
        r := Some(GreedyAlgorithms.Describe(f.desc));
      case TwoPointersFastSlow =>
        var f := LegacyFastSlow.Animate(step);
        r := Some(LegacyFastSlow.Describe(f.desc));
      case SlidingWindowVariable =>
        VariableWindow.SampleAdmissible();
        var f := VariableWindow.Animate(VariableWindow.Sample, VariableWindow.Target, step);
        r := if f.None? then None else Some(VariableWindow.Describe(f.value.desc));
    }
  }
}
