/**
 Concrete runs of the cleanup loop on the root directory `/data/builds`
 (`Root`) with a threshold of 80 GB. Each run whose listing has several
 entries is stated for every order the listing may come in, and proved in
 two steps: how the names sort, then what the loop does with them.
 */
module CleanupScenarios {
  import opened NameOrder
  import opened Sorting
  import opened Cleanup
  import opened CleanupProperties

  const Root := "/data/builds"

  /** Oracles used by the runs below. */
  function DeleteSucceeds(k: nat): int { 0 }
  function SecondDeleteFailsCode(k: nat): int { if k == 1 then 1 else 0 }
  function LowThenAmple(k: nat): int { if k == 0 then 50 else 90 }
  function AlwaysLow(k: nat): int { 10 }
  function ProbeFails(k: nat): int { -1 }

  const Jan := "2023-01-01"
  const Feb := "2023-02-01"
  const Mar := "2023-03-01"

  /** Three names, each below the next, are in ascending order. */
  lemma SortedOfThree(a: string, b: string, c: string)
    requires Below(a, b) && Below(b, c)
    ensures Sorted([a, b, c])
  {
    BelowTransitive(a, b, c);
  }

  /** The three dated names, in chronological order, are in ascending order. */
  lemma DatedBuildsSorted()
    ensures Sorted([Jan, Feb, Mar])
  {
    assert Jan[..6] == Feb[..6] == Mar[..6];
    BelowAtFirstDifference(Jan, Feb, 6);
    BelowAtFirstDifference(Feb, Mar, 6);
    SortedOfThree(Jan, Feb, Mar);
  }

  /** Date-named builds sort chronologically, whatever order they are listed in. */
  lemma DatedBuildsSortChronologically(names: seq<string>)
    requires multiset(names) == multiset([Mar, Jan, Feb])
    ensures SortNames(names) == [Jan, Feb, Mar]
  {
    DatedBuildsSorted();
    assert multiset([Jan, Feb, Mar]) == multiset(names);
    SortNamesIsTheSortedPermutation(names, [Jan, Feb, Mar]);
  }

  /** Two single-letter names sort alphabetically, whatever order they are listed in. */
  lemma TwoLettersSort(names: seq<string>)
    requires multiset(names) == multiset(["b", "a"])
    ensures SortNames(names) == ["a", "b"]
  {
    var sorted := ["a", "b"];
    assert Below(sorted[0], sorted[1]);
    assert multiset(sorted) == multiset(names);
    SortNamesIsTheSortedPermutation(names, sorted);
  }

  /** Three single-letter names sort alphabetically, whatever order they are listed in. */
  lemma ThreeLettersSort(names: seq<string>)
    requires multiset(names) == multiset(["c", "a", "b"])
    ensures SortNames(names) == ["a", "b", "c"]
  {
    assert Below("a", "b") && Below("b", "c");
    SortedOfThree("a", "b", "c");
    assert multiset(["a", "b", "c"]) == multiset(names);
    SortNamesIsTheSortedPermutation(names, ["a", "b", "c"]);
  }

  /** The loop of the run below, on the sorted listing. */
  lemma OldestBuildOnlyOnSorted(builds: seq<string>)
    requires |builds| == 3 && builds[0] == Jan
    ensures
      var o := Run(Root, builds, 80, LowThenAmple, DeleteSucceeds);
      o.status == 0 && o.attempts == [Root + "/" + Jan] && o.cleaned == 1
  {
    assert LoopExitOf(3, 0, 80, LowThenAmple, DeleteSucceeds) == SpaceReached(1);
    AttemptsArePrefix(Root, builds, 80, LowThenAmple, DeleteSucceeds);
    var o := Run(Root, builds, 80, LowThenAmple, DeleteSucceeds);
    assert o.attempts == [o.attempts[0]];
  }

  /** Three dated builds, listed in any order; the first reading is 50 GB and
      every later one 90 GB: only the oldest build is deleted and the run
      succeeds. */
  lemma OldestBuildOnly(names: seq<string>)
    requires multiset(names) == multiset([Mar, Jan, Feb])
    ensures
      var o := Clean(Root, Entries(names), 80, LowThenAmple, DeleteSucceeds);
      o.status == 0 && o.attempts == [Root + "/" + Jan] && o.cleaned == 1
  {
    DatedBuildsSortChronologically(names);
    OldestBuildOnlyOnSorted(SortNames(names));
  }

  /** An empty root: nothing is deleted and the only reading decides. */
  lemma EmptyRoot(reading: int)
    ensures
      var o := Clean(Root, Entries([]), 80, k => reading, DeleteSucceeds);
      o.attempts == [] && o.probes == 1 && (o.status == 0 <==> reading > 80)
  {
  }

  /** The loop of the run below, on the sorted listing. */
  lemma ThresholdNeverMetOnSorted(builds: seq<string>)
    requires builds == ["a", "b"]
    ensures
      var o := Run(Root, builds, 80, AlwaysLow, DeleteSucceeds);
      o.status == -1 && o.attempts == [Root + "/" + "a", Root + "/" + "b"] && o.cleaned == 2
  {
    Exhaustion(Root, builds, 80, AlwaysLow, DeleteSucceeds);
    AttemptsArePrefix(Root, builds, 80, AlwaysLow, DeleteSucceeds);
    var o := Run(Root, builds, 80, AlwaysLow, DeleteSucceeds);
    assert o.attempts == [o.attempts[0], o.attempts[1]];
  }

  /** The free space stays at 10 GB: both builds are deleted and the run
      still fails. */
  lemma ThresholdNeverMet(names: seq<string>)
    requires multiset(names) == multiset(["b", "a"])
    ensures
      var o := Clean(Root, Entries(names), 80, AlwaysLow, DeleteSucceeds);
      o.status == -1 && o.attempts == [Root + "/" + "a", Root + "/" + "b"] && o.cleaned == 2
  {
    TwoLettersSort(names);
    ThresholdNeverMetOnSorted(SortNames(names));
  }

  /** Every reading fails (-1): the failed reading does not stop the first
      delete, and the failed last reading makes the run fail. */
  lemma ProbeAlwaysFails()
    ensures
      var o := Clean(Root, Entries(["a"]), 80, ProbeFails, DeleteSucceeds);
      o.status == -1 && o.attempts == [Root + "/" + "a"]
  {
    Exhaustion(Root, ["a"], 80, ProbeFails, DeleteSucceeds);
    assert Targets(Root, ["a"]) == [Root + "/" + "a"];
  }

  /** The loop of the run below, on the sorted listing. */
  lemma SecondDeleteFailsOnSorted(builds: seq<string>)
    requires |builds| == 3 && builds[0] == "a" && builds[1] == "b"
    ensures
      var o := Run(Root, builds, 80, AlwaysLow, SecondDeleteFailsCode);
      o.status == -1 && o.attempts == [Root + "/" + "a", Root + "/" + "b"] && o.probes == 2
  {
    LoopExitSkip(3, 0, 1, 80, AlwaysLow, SecondDeleteFailsCode);
    assert LoopExitOf(3, 1, 80, AlwaysLow, SecondDeleteFailsCode) == RemoveFailed(1);
    AttemptsArePrefix(Root, builds, 80, AlwaysLow, SecondDeleteFailsCode);
    var o := Run(Root, builds, 80, AlwaysLow, SecondDeleteFailsCode);
    assert o.attempts == [o.attempts[0], o.attempts[1]];
  }

  /** The second delete fails: the third build is never tried and no final
      reading is taken. */
  lemma SecondDeleteFails(names: seq<string>)
    requires multiset(names) == multiset(["c", "a", "b"])
    ensures
      var o := Clean(Root, Entries(names), 80, AlwaysLow, SecondDeleteFailsCode);
      o.status == -1 && o.attempts == [Root + "/" + "a", Root + "/" + "b"] && o.probes == 2
  {
    ThreeLettersSort(names);
    SecondDeleteFailsOnSorted(SortNames(names));
  }
}
