/**
 What a run of the cleanup loop guarantees. Most properties are stated about
 `Cleanup.Run` on any list of entries, which is what the loop does with the
 sorted listing; `OldestFirst` adds what the sorting contributes. Through the
 postcondition of `Cleanup.CleanBuilds` they hold of the method as well.
 */
module CleanupProperties {
  import opened NameOrder
  import opened Sorting
  import opened Cleanup

  /** The delete targets are `root + "/" + b` for the first entries `b` of
      the list, in order. */
  lemma AttemptsArePrefix(root: string, builds: seq<string>, minSpace: int, probe: nat -> int, remove: nat -> int)
    ensures var o := Run(root, builds, minSpace, probe, remove);
      && |o.attempts| <= |builds|
      && o.attempts == Targets(root, builds[..|o.attempts|])
      && forall k :: 0 <= k < |o.attempts| ==> o.attempts[k] == root + "/" + builds[k]
  {
    assert builds[..|builds|] == builds;
  }

  /** No entry is deleted while an entry that sorts before it is kept: every
      deleted entry is below every listed entry that was not deleted. */
  lemma OldestFirst(root: string, names: seq<string>, minSpace: int, probe: nat -> int, remove: nat -> int, k: nat, x: string)
    requires var o := Clean(root, Entries(names), minSpace, probe, remove);
      k < |o.attempts| && x in names && x !in SortNames(names)[..|o.attempts|]
    ensures var builds := SortNames(names);
      Clean(root, Entries(names), minSpace, probe, remove).attempts[k] == root + "/" + builds[k] &&
      Below(builds[k], x)
  {
    var builds := SortNames(names);
    AttemptsArePrefix(root, builds, minSpace, probe, remove);
    assert x in multiset(names);
    SortedPrefixBelow(builds, |Run(root, builds, minSpace, probe, remove).attempts|, k, x);
  }

  /** Entry `k` is deleted exactly when it exists, its reading does not
      exceed the threshold, and every earlier entry's reading did not either
      and its removal succeeded. */
  lemma AttemptIff(root: string, builds: seq<string>, minSpace: int, probe: nat -> int, remove: nat -> int, k: nat)
    ensures k < |Run(root, builds, minSpace, probe, remove).attempts| <==>
      k < |builds| && probe(k) <= minSpace &&
      forall j :: 0 <= j < k ==> Completes(j, minSpace, probe, remove)
  {
    match LoopExitOf(|builds|, 0, minSpace, probe, remove)
    case Exhausted =>
    case SpaceReached(at) =>
      if at < k { assert !Completes(at, minSpace, probe, remove); }
    case RemoveFailed(at) =>
      if at < k { assert !Completes(at, minSpace, probe, remove); }
      if k < at { assert Completes(k, minSpace, probe, remove); }
  }

  /** Early stop: once a reading exceeds the threshold, that entry and every
      later one is kept. */
  lemma EarlyStop(root: string, builds: seq<string>, minSpace: int, probe: nat -> int, remove: nat -> int, k: nat)
    requires probe(k) > minSpace
    ensures |Run(root, builds, minSpace, probe, remove).attempts| <= k
  {
    if k < |Run(root, builds, minSpace, probe, remove).attempts| {
      AttemptIff(root, builds, minSpace, probe, remove, k);
    }
  }

  /** A failed delete ends the run with -1: nothing after it is tried and the
      final free-space reading is not taken. */
  lemma RemoveFailureShortCircuit(root: string, builds: seq<string>, minSpace: int, probe: nat -> int, remove: nat -> int, k: nat)
    requires k < |Run(root, builds, minSpace, probe, remove).attempts|
    requires remove(k) != 0
    ensures var o := Run(root, builds, minSpace, probe, remove);
      o.status == -1 && |o.attempts| == k + 1 && o.probes == k + 1 && o.cleaned == k
  {
    AttemptIff(root, builds, minSpace, probe, remove, k);
    LoopExitSkip(|builds|, 0, k, minSpace, probe, remove);
  }

  /** The removed-subdirectory counter counts successful deletes: every
      counted delete succeeded, an attempt left uncounted failed, and the
      count never exceeds the number of entries. */
  lemma CleanedBound(root: string, builds: seq<string>, minSpace: int, probe: nat -> int, remove: nat -> int)
    ensures var o := Run(root, builds, minSpace, probe, remove);
      && o.cleaned <= |o.attempts| <= |builds|
      && (o.cleaned == |o.attempts| || o.cleaned + 1 == |o.attempts|)
      && (forall j :: 0 <= j < o.cleaned ==> remove(j) == 0)
      && (o.cleaned < |o.attempts| ==> remove(o.cleaned) != 0)
  {
    match LoopExitOf(|builds|, 0, minSpace, probe, remove)
    case Exhausted =>
    case SpaceReached(at) =>
    case RemoveFailed(at) =>
  }

  /** The final reading is taken exactly when no delete failed; it is then
      the last reading of the run. */
  lemma FinalCheckTaken(root: string, builds: seq<string>, minSpace: int, probe: nat -> int, remove: nat -> int)
    ensures var o := Run(root, builds, minSpace, probe, remove);
      && o.probes >= 1
      && (o.probes > |o.attempts| <==> forall j :: 0 <= j < |o.attempts| ==> remove(j) == 0)
  {
    match LoopExitOf(|builds|, 0, minSpace, probe, remove)
    case Exhausted =>
    case SpaceReached(at) =>
    case RemoveFailed(at) =>
      assert !(remove(at) == 0);
  }

  /** The run succeeds exactly when every delete it tried succeeded and the
      final reading is a real value above the threshold. */
  lemma SuccessIff(root: string, builds: seq<string>, minSpace: int, probe: nat -> int, remove: nat -> int)
    ensures var o := Run(root, builds, minSpace, probe, remove);
      o.probes >= 1 &&
      (o.status == 0 <==>
        (forall j :: 0 <= j < |o.attempts| ==> remove(j) == 0) &&
        probe(o.probes - 1) >= 0 && probe(o.probes - 1) > minSpace)
  {
    match LoopExitOf(|builds|, 0, minSpace, probe, remove)
    case Exhausted =>
    case SpaceReached(at) =>
    case RemoveFailed(at) =>
      assert !(remove(at) == 0);
  }

  /** A failed last reading fails the run even when the threshold is
      negative, so that the sentinel itself would exceed it. */
  lemma FailedFinalReadingFails(root: string, builds: seq<string>, minSpace: int, probe: nat -> int, remove: nat -> int)
    requires var o := Run(root, builds, minSpace, probe, remove);
      forall j :: 0 <= j < |o.attempts| ==> remove(j) == 0
    requires probe(Run(root, builds, minSpace, probe, remove).probes - 1) == -1
    ensures Run(root, builds, minSpace, probe, remove).status == -1
  {
    SuccessIff(root, builds, minSpace, probe, remove);
  }

  /** A failed reading inside the loop is not an error: it is compared with
      the threshold like any reading, and with a threshold of -1 or more the
      entry is deleted. */
  lemma FailedLoopReadingRemoves(root: string, builds: seq<string>, minSpace: int, probe: nat -> int, remove: nat -> int, k: nat)
    requires k < |builds| && minSpace >= -1 && probe(k) == -1
    requires forall j :: 0 <= j < k ==> Completes(j, minSpace, probe, remove)
    ensures var o := Run(root, builds, minSpace, probe, remove);
      k < |o.attempts| && o.attempts[k] == root + "/" + builds[k]
  {
    AttemptIff(root, builds, minSpace, probe, remove, k);
    AttemptsArePrefix(root, builds, minSpace, probe, remove);
  }

  /** When no reading inside the loop exceeds the threshold and every delete
      succeeds, every entry is deleted and the last reading decides. */
  lemma Exhaustion(root: string, builds: seq<string>, minSpace: int, probe: nat -> int, remove: nat -> int)
    requires forall j :: 0 <= j < |builds| ==> Completes(j, minSpace, probe, remove)
    ensures var o := Run(root, builds, minSpace, probe, remove);
      && o.attempts == Targets(root, builds)
      && o.cleaned == |builds|
      && (o.status == 0 <==> probe(|builds|) >= 0 && probe(|builds|) > minSpace)
  {
    LoopExitSkip(|builds|, 0, |builds|, minSpace, probe, remove);
  }

  /** A non-positive threshold with a real first reading: nothing is deleted. */
  lemma NothingToDo(root: string, builds: seq<string>, minSpace: int, probe: nat -> int, remove: nat -> int)
    requires minSpace <= 0 && probe(0) > 0
    ensures var o := Run(root, builds, minSpace, probe, remove);
      o.attempts == [] && o.cleaned == 0
  {
    EarlyStop(root, builds, minSpace, probe, remove, 0);
    CleanedBound(root, builds, minSpace, probe, remove);
  }
}
