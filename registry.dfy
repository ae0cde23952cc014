/**
 * The two animation registries: constant maps from pattern ids to
 * simulators. A missing key is JavaScript's `undefined`, here `None`.
 */
module Registry {
  import opened Wrappers

  /** The step-indexed simulators; the last two exist only in the older page script. */
  datatype Simulator =
    | TwoPointersConverging | SlidingWindowFixed | FastSlowPointers | MergeIntervals | CyclicSort | LinkedListReversal | TreeBFS | TreeDFS | TwoHeaps | Subsets | BinarySearch | TopologicalSort | DynamicProgramming | GreedyAlgorithms
    | TwoPointersFastSlow | SlidingWindowVariable

  /** One pattern's two ids: its roman-numeral section slug and its numbered pattern slug. */
  datatype Aliases = Aliases(section: string, pattern: string, sim: Simulator)

  /** The registry of the React application, its fourteen patterns in order, each with its two ids. */
  const Patterns: seq<Aliases> := [
    Aliases("i-two-pointer-patterns", "pattern-1-two-pointers-converging-sorted-array-target-sum", TwoPointersConverging),
    Aliases("ii-sliding-window-patterns", "pattern-2-sliding-window-fixed-size", SlidingWindowFixed),
    Aliases("iii-fast-slow-pointers-patterns", "pattern-3-fast-slow-pointers-cycle-detection", FastSlowPointers),
    Aliases("iv-merge-intervals-patterns", "pattern-4-merge-intervals", MergeIntervals),
    Aliases("v-cyclic-sort-patterns", "pattern-5-cyclic-sort", CyclicSort),
    Aliases("vi-in-place-reversal-patterns", "pattern-6-in-place-reversal-of-linked-list", LinkedListReversal),
    Aliases("vii-tree-bfs-patterns", "pattern-7-tree-breadth-first-search", TreeBFS),
    Aliases("viii-tree-dfs-patterns", "pattern-8-tree-depth-first-search", TreeDFS),
    Aliases("ix-two-heaps-patterns", "pattern-9-two-heaps", TwoHeaps),
    Aliases("x-subsets-patterns", "pattern-10-subsets", Subsets),
    Aliases("xi-modified-binary-search-patterns", "pattern-11-modified-binary-search", BinarySearch),
    Aliases("xii-topological-sort-patterns", "pattern-12-topological-sort", TopologicalSort),
    Aliases("xiii-dynamic-programming-patterns", "pattern-13-dynamic-programming", DynamicProgramming),
    Aliases("xiv-greedy-algorithms-patterns", "pattern-14-greedy-algorithms", GreedyAlgorithms)]

  /**
   * The registry of the older page script. Its converging two-pointer and
   * fixed-window functions are textual copies of the React simulators, so
   * they are the same simulators here.
   */
  const LegacyRegistry: map<string, Simulator> := map[
    "two-pointers-converging" := TwoPointersConverging,
    "two-pointers-fast-slow" := TwoPointersFastSlow,
    "sliding-window-fixed" := SlidingWindowFixed,
    "sliding-window-variable" := SlidingWindowVariable]

  /** `registry[id]`, with `None` for `undefined`. */
  function Lookup(registry: map<string, Simulator>, id: string): (r: Option<Simulator>)
    ensures r.Some? <==> id in registry
    ensures r.Some? ==> r.value == registry[id]
  {
    if id in registry then Some(registry[id]) else None
  }

  /** All ids of a list of patterns, each pattern's section id before its pattern id. */
  function Ids(ps: seq<Aliases>): (r: seq<string>)
    ensures |r| == 2 * |ps|
  {
    seq(2 * |ps|, k requires 0 <= k < 2 * |ps| => if k % 2 == 0 then ps[k / 2].section else ps[k / 2].pattern)
  }

  predicate Distinct(ids: seq<string>)
  {
    forall i, j :: 0 <= i < j < |ids| ==> ids[i] != ids[j]
  }

  /** The object literal a list of patterns denotes: both ids of each pattern onto its simulator. */
  function Entries(ps: seq<Aliases>): map<string, Simulator>
  {
    if ps == [] then map[]
    else Entries(ps[..|ps| - 1])[ps[|ps| - 1].section := ps[|ps| - 1].sim][ps[|ps| - 1].pattern := ps[|ps| - 1].sim]
  }

  const AnimationRegistry: map<string, Simulator> := Entries(Patterns)

  /** The keys are exactly the listed ids. */
  lemma {:induction false} EntriesKeys(ps: seq<Aliases>)
    ensures forall id :: id in Entries(ps) <==> id in Ids(ps)
  {
    if ps != [] {
      var init := ps[..|ps| - 1];
      EntriesKeys(init);
      var ids, ids0 := Ids(ps), Ids(init);
      assert ids == ids0 + [ps[|ps| - 1].section, ps[|ps| - 1].pattern];
    }
  }

  /** Dropping the last pattern keeps the ids distinct, and its two ids are new to the rest. */
  lemma DistinctInit(ps: seq<Aliases>)
    requires ps != [] && Distinct(Ids(ps))
    ensures var n := |ps| - 1; var ids0 := Ids(ps[..n]);
      Distinct(ids0) && ps[n].section != ps[n].pattern &&
      forall k :: 0 <= k < |ids0| ==> ids0[k] != ps[n].section && ids0[k] != ps[n].pattern
  {
    var n := |ps| - 1;
    var ids, ids0 := Ids(ps), Ids(ps[..n]);
    assert forall k :: 0 <= k < |ids0| ==> ids0[k] == ids[k];
    assert ids[2 * n] == ps[n].section && ids[2 * n + 1] == ps[n].pattern;
  }

  /** With distinct ids, both ids of every pattern resolve to its simulator. */
  lemma {:induction false} EntriesResolve(ps: seq<Aliases>)
    requires Distinct(Ids(ps))
    ensures forall i :: 0 <= i < |ps| ==>
      ps[i].section in Entries(ps) && Entries(ps)[ps[i].section] == ps[i].sim &&
      ps[i].pattern in Entries(ps) && Entries(ps)[ps[i].pattern] == ps[i].sim
  {
    if ps != [] {
      var n := |ps| - 1;
      var init := ps[..n];
      DistinctInit(ps);
      EntriesResolve(init);
      var ids0 := Ids(init);
      forall i | 0 <= i < n
        ensures ps[i].section != ps[n].section && ps[i].section != ps[n].pattern
        ensures ps[i].pattern != ps[n].section && ps[i].pattern != ps[n].pattern
      {
        assert ids0[2 * i] == ps[i].section && ids0[2 * i + 1] == ps[i].pattern;
      }
    }
  }

  /** With distinct ids the map has one key per id. */
  lemma {:induction false} EntriesSize(ps: seq<Aliases>)
    requires Distinct(Ids(ps))
    ensures |Entries(ps)| == 2 * |ps|
  {
    if ps != [] {
      var n := |ps| - 1;
      var init := ps[..n];
      DistinctInit(ps);
      EntriesSize(init);
      EntriesKeys(init);
    }
  }

  /** A suffix stays distinct when the id in front of it differs from all of it. */
  lemma DistinctStep(ids: seq<string>, k: nat)
    requires k < |ids| && Distinct(ids[k + 1..])
    requires forall j :: k < j < |ids| ==> ids[k] != ids[j]
    ensures Distinct(ids[k..])
  {
    var t, u := ids[k..], ids[k + 1..];
    forall i, j | 0 <= i < j < |t| ensures t[i] != t[j] {
      if i > 0 {
        assert t[i] == u[i - 1] && t[j] == u[j - 1];
      }
    }
  }

  /** The registry's ids from position k on are pairwise distinct, for k from 27 down to 0. */
  lemma IdsFromTwentySeven()
    ensures Distinct(Ids(Patterns)[27..])
  {
  }

  lemma IdsFromTwentySix()
    ensures Distinct(Ids(Patterns)[26..])
  {
    IdsFromTwentySeven();
    assert forall j :: 26 < j < 28 ==> Ids(Patterns)[26] != Ids(Patterns)[j];
    DistinctStep(Ids(Patterns), 26);
  }

  lemma IdsFromTwentyFive()
    ensures Distinct(Ids(Patterns)[25..])
  {
    IdsFromTwentySix();
    assert forall j :: 25 < j < 28 ==> Ids(Patterns)[25] != Ids(Patterns)[j];
    DistinctStep(Ids(Patterns), 25);
  }

  lemma IdsFromTwentyFour()
    ensures Distinct(Ids(Patterns)[24..])
  {
    IdsFromTwentyFive();
    assert forall j :: 24 < j < 28 ==> Ids(Patterns)[24] != Ids(Patterns)[j];
    DistinctStep(Ids(Patterns), 24);
  }

  lemma IdsFromTwentyThree()
    ensures Distinct(Ids(Patterns)[23..])
  {
    IdsFromTwentyFour();
    assert forall j :: 23 < j < 28 ==> Ids(Patterns)[23] != Ids(Patterns)[j];
    DistinctStep(Ids(Patterns), 23);
  }

  lemma IdsFromTwentyTwo()
    ensures Distinct(Ids(Patterns)[22..])
  {
    IdsFromTwentyThree();
    assert forall j :: 22 < j < 28 ==> Ids(Patterns)[22] != Ids(Patterns)[j];
    DistinctStep(Ids(Patterns), 22);
  }

  lemma IdsFromTwentyOne()
    ensures Distinct(Ids(Patterns)[21..])
  {
    IdsFromTwentyTwo();
    assert forall j :: 21 < j < 28 ==> Ids(Patterns)[21] != Ids(Patterns)[j];
    DistinctStep(Ids(Patterns), 21);
  }

  lemma IdsFromTwenty()
    ensures Distinct(Ids(Patterns)[20..])
  {
    IdsFromTwentyOne();
    assert forall j :: 20 < j < 28 ==> Ids(Patterns)[20] != Ids(Patterns)[j];
    DistinctStep(Ids(Patterns), 20);
  }

  lemma IdsFromNineteen()
    ensures Distinct(Ids(Patterns)[19..])
  {
    IdsFromTwenty();
    assert forall j :: 19 < j < 28 ==> Ids(Patterns)[19] != Ids(Patterns)[j];
    DistinctStep(Ids(Patterns), 19);
  }

  lemma IdsFromEighteen()
    ensures Distinct(Ids(Patterns)[18..])
  {
    IdsFromNineteen();
    assert forall j :: 18 < j < 28 ==> Ids(Patterns)[18] != Ids(Patterns)[j];
    DistinctStep(Ids(Patterns), 18);
  }

  lemma IdsFromSeventeen()
    ensures Distinct(Ids(Patterns)[17..])
  {
    IdsFromEighteen();
    assert forall j :: 17 < j < 28 ==> Ids(Patterns)[17] != Ids(Patterns)[j];
    DistinctStep(Ids(Patterns), 17);
  }

  lemma IdsFromSixteen()
    ensures Distinct(Ids(Patterns)[16..])
  {
    IdsFromSeventeen();
    assert forall j :: 16 < j < 28 ==> Ids(Patterns)[16] != Ids(Patterns)[j];
    DistinctStep(Ids(Patterns), 16);
  }

  lemma IdsFromFifteen()
    ensures Distinct(Ids(Patterns)[15..])
  {
    IdsFromSixteen();
    assert forall j :: 15 < j < 28 ==> Ids(Patterns)[15] != Ids(Patterns)[j];
    DistinctStep(Ids(Patterns), 15);
  }

  lemma IdsFromFourteen()
    ensures Distinct(Ids(Patterns)[14..])
  {
    IdsFromFifteen();
    assert forall j :: 14 < j < 28 ==> Ids(Patterns)[14] != Ids(Patterns)[j];
    DistinctStep(Ids(Patterns), 14);
  }

  lemma IdsFromThirteen()
    ensures Distinct(Ids(Patterns)[13..])
  {
    IdsFromFourteen();
    assert forall j :: 13 < j < 28 ==> Ids(Patterns)[13] != Ids(Patterns)[j];
    DistinctStep(Ids(Patterns), 13);
  }

  lemma IdsFromTwelve()
    ensures Distinct(Ids(Patterns)[12..])
  {
    IdsFromThirteen();
    assert forall j :: 12 < j < 28 ==> Ids(Patterns)[12] != Ids(Patterns)[j];
    DistinctStep(Ids(Patterns), 12);
  }

  lemma IdsFromEleven()
    ensures Distinct(Ids(Patterns)[11..])
  {
    IdsFromTwelve();
    assert forall j :: 11 < j < 28 ==> Ids(Patterns)[11] != Ids(Patterns)[j];
    DistinctStep(Ids(Patterns), 11);
  }

  lemma IdsFromTen()
    ensures Distinct(Ids(Patterns)[10..])
  {
    IdsFromEleven();
    assert forall j :: 10 < j < 28 ==> Ids(Patterns)[10] != Ids(Patterns)[j];
    DistinctStep(Ids(Patterns), 10);
  }

  lemma IdsFromNine()
    ensures Distinct(Ids(Patterns)[9..])
  {
    IdsFromTen();
    assert forall j :: 9 < j < 28 ==> Ids(Patterns)[9] != Ids(Patterns)[j];
    DistinctStep(Ids(Patterns), 9);
  }

  lemma IdsFromEight()
    ensures Distinct(Ids(Patterns)[8..])
  {
    IdsFromNine();
    assert forall j :: 8 < j < 28 ==> Ids(Patterns)[8] != Ids(Patterns)[j];
    DistinctStep(Ids(Patterns), 8);
  }

  lemma IdsFromSeven()
    ensures Distinct(Ids(Patterns)[7..])
  {
    IdsFromEight();
    assert forall j :: 7 < j < 28 ==> Ids(Patterns)[7] != Ids(Patterns)[j];
    DistinctStep(Ids(Patterns), 7);
  }

  lemma IdsFromSix()
    ensures Distinct(Ids(Patterns)[6..])
  {
    IdsFromSeven();
    assert forall j :: 6 < j < 28 ==> Ids(Patterns)[6] != Ids(Patterns)[j];
    DistinctStep(Ids(Patterns), 6);
  }

  lemma IdsFromFive()
    ensures Distinct(Ids(Patterns)[5..])
  {
    IdsFromSix();
    assert forall j :: 5 < j < 28 ==> Ids(Patterns)[5] != Ids(Patterns)[j];
    DistinctStep(Ids(Patterns), 5);
  }

  lemma IdsFromFour()
    ensures Distinct(Ids(Patterns)[4..])
  {
    IdsFromFive();
    assert forall j :: 4 < j < 28 ==> Ids(Patterns)[4] != Ids(Patterns)[j];
    DistinctStep(Ids(Patterns), 4);
  }

  lemma IdsFromThree()
    ensures Distinct(Ids(Patterns)[3..])
  {
    IdsFromFour();
    assert forall j :: 3 < j < 28 ==> Ids(Patterns)[3] != Ids(Patterns)[j];
    DistinctStep(Ids(Patterns), 3);
  }

  lemma IdsFromTwo()
    ensures Distinct(Ids(Patterns)[2..])
  {
    IdsFromThree();
    assert forall j :: 2 < j < 28 ==> Ids(Patterns)[2] != Ids(Patterns)[j];
    DistinctStep(Ids(Patterns), 2);
  }

  lemma IdsFromOne()
    ensures Distinct(Ids(Patterns)[1..])
  {
    IdsFromTwo();
    assert forall j :: 1 < j < 28 ==> Ids(Patterns)[1] != Ids(Patterns)[j];
    DistinctStep(Ids(Patterns), 1);
  }

  lemma IdsFromZero()
    ensures Distinct(Ids(Patterns)[0..])
  {
    IdsFromOne();
    assert forall j :: 0 < j < 28 ==> Ids(Patterns)[0] != Ids(Patterns)[j];
    DistinctStep(Ids(Patterns), 0);
  }

  /** The registry's 28 ids are pairwise distinct. */
  lemma PatternIdsDistinct()
    ensures Distinct(Ids(Patterns))
  {
    IdsFromZero();
    assert Ids(Patterns)[0..] == Ids(Patterns);
  }

  /** A table with distinct ids denotes a map with one key per id. */
  lemma TableSize(ps: seq<Aliases>)
    requires Distinct(Ids(ps))
    ensures |Entries(ps)| == 2 * |ps|
  {
    EntriesSize(ps);
  }

  /** An id the table does not list is undefined in its map. */
  lemma TableUnknown(ps: seq<Aliases>, id: string)
    requires id !in Ids(ps)
    ensures Lookup(Entries(ps), id) == None
  {
    EntriesKeys(ps);
  }

  /** With distinct ids, both ids of a pattern resolve to its simulator. */
  lemma TableResolves(ps: seq<Aliases>, i: nat)
    requires Distinct(Ids(ps)) && i < |ps|
    ensures Lookup(Entries(ps), ps[i].section) == Some(ps[i].sim)
    ensures Lookup(Entries(ps), ps[i].pattern) == Some(ps[i].sim)
  {
    EntriesResolve(ps);
  }

  /** Every key of a table's map is one of the ids of some pattern. */
  lemma KeyOwner(ps: seq<Aliases>, id: string) returns (j: nat)
    requires id in Entries(ps)
    ensures j < |ps| && (id == ps[j].section || id == ps[j].pattern)
  {
    EntriesKeys(ps);
    var ids := Ids(ps);
    var k :| 0 <= k < |ids| && ids[k] == id;
    j := k / 2;
  }

  /** In such a table whose simulators also differ, a simulator is reached through exactly its pattern's two ids. */
  lemma TableAliases(ps: seq<Aliases>, i: nat, id: string)
    requires Distinct(Ids(ps)) && i < |ps|
    requires forall j, k :: 0 <= j < k < |ps| ==> ps[j].sim != ps[k].sim
    ensures Lookup(Entries(ps), id) == Some(ps[i].sim) <==> id == ps[i].section || id == ps[i].pattern
  {
    TableResolves(ps, i);
    if Lookup(Entries(ps), id) == Some(ps[i].sim) {
      var j := KeyOwner(ps, id);
      TableResolves(ps, j);
      assert ps[j].sim == ps[i].sim;
    }
  }

  /**
   * The registry has 28 keys, the listed ids and no others; both ids of each
   * pattern resolve to that pattern's simulator, and any other id is undefined.
   */
  lemma RegistryShape()
    ensures |AnimationRegistry| == 28
    ensures forall id :: id !in Ids(Patterns) ==> Lookup(AnimationRegistry, id) == None
    ensures forall i :: 0 <= i < |Patterns| ==>
      Lookup(AnimationRegistry, Patterns[i].section) == Some(Patterns[i].sim) &&
      Lookup(AnimationRegistry, Patterns[i].pattern) == Some(Patterns[i].sim)
  {
    PatternIdsDistinct();
    TableSize(Patterns);
    forall id | id !in Ids(Patterns) ensures Lookup(AnimationRegistry, id) == None {
      TableUnknown(Patterns, id);
    }
    forall i | 0 <= i < |Patterns|
      ensures Lookup(AnimationRegistry, Patterns[i].section) == Some(Patterns[i].sim)
      ensures Lookup(AnimationRegistry, Patterns[i].pattern) == Some(Patterns[i].sim)
    {
      TableResolves(Patterns, i);
    }
  }

  /** The fourteen patterns use fourteen different simulators, none of them an older-script one. */
  lemma SimulatorsDistinct()
    ensures |Patterns| == 14
    ensures forall i, j :: 0 <= i < j < |Patterns| ==> Patterns[i].sim != Patterns[j].sim
    ensures forall i :: 0 <= i < |Patterns| ==>
      Patterns[i].sim != TwoPointersFastSlow && Patterns[i].sim != SlidingWindowVariable
  {
  }

  /** Each simulator is reached through exactly its pattern's two ids. */
  lemma TwoAliasesEach(i: nat, id: string)
    requires i < |Patterns|
    ensures Lookup(AnimationRegistry, id) == Some(Patterns[i].sim) <==>
      id == Patterns[i].section || id == Patterns[i].pattern
  {
    PatternIdsDistinct();
    SimulatorsDistinct();
    TableAliases(Patterns, i, id);
  }

  /** The two ids of the first pattern reach the converging two-pointer simulator. */
  lemma TwoPointerIds()
    ensures Lookup(AnimationRegistry, "i-two-pointer-patterns") == Some(TwoPointersConverging)
    ensures Lookup(AnimationRegistry, "pattern-1-two-pointers-converging-sorted-array-target-sum") == Some(TwoPointersConverging)
  {
    RegistryShape();
    assert Patterns[0] == Aliases("i-two-pointer-patterns", "pattern-1-two-pointers-converging-sorted-array-target-sum", TwoPointersConverging);
  }

  /** The older registry: four ids, one per simulator. */
  lemma LegacyShape()
    ensures |LegacyRegistry| == 4
    ensures Lookup(LegacyRegistry, "two-pointers-converging") == Some(TwoPointersConverging)
    ensures Lookup(LegacyRegistry, "two-pointers-fast-slow") == Some(TwoPointersFastSlow)
    ensures Lookup(LegacyRegistry, "sliding-window-fixed") == Some(SlidingWindowFixed)
    ensures Lookup(LegacyRegistry, "sliding-window-variable") == Some(SlidingWindowVariable)
    ensures Lookup(LegacyRegistry, "i-two-pointer-patterns") == None
  {
  }
}
