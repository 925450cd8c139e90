/**
 The pruning loop of the cleanup script (`clean_builds`).

 The world outside the loop is supplied as inputs:
 - the listing of the root directory, which either fails or yields names;
 - `probe(k)`, the free-space reading (in GB) returned by the k-th call of the
   free-space query, counting from 0; -1 means the query failed;
 - `remove(k)`, the exit code of the k-th call of the recursive delete,
   counting from 0; 0 means success.
 */
module Cleanup {
  import opened NameOrder
  import opened Sorting

  /** Result of listing the root directory. */
  datatype Listing = Unreadable | Entries(names: seq<string>)

  /** What one run does: the status it returns, the paths it handed to the
      delete primitive in order, its count of removed subdirectories and the
      number of free-space readings it took. */
  datatype Outcome = Outcome(status: int, attempts: seq<string>, cleaned: nat, probes: nat)

  /** How the loop over the sorted entries ended. */
  datatype LoopExit =
    | Exhausted            // every entry was removed
    | SpaceReached(at: nat) // the reading taken for entry `at` exceeded the threshold
    | RemoveFailed(at: nat) // removing entry `at` returned a non-zero code

  /** Iteration `j` goes on to the next entry: its reading does not exceed the
      threshold and its removal succeeds. */
  predicate Completes(j: nat, minSpace: int, probe: nat -> int, remove: nat -> int) {
    probe(j) <= minSpace && remove(j) == 0
  }

  /** How the loop ends when it starts at entry `i` of `n` entries. */
  function LoopExitOf(n: nat, i: nat, minSpace: int, probe: nat -> int, remove: nat -> int): (e: LoopExit)
    requires i <= n
    ensures match e
      case Exhausted =>
        forall j :: i <= j < n ==> probe(j) <= minSpace && remove(j) == 0
      case SpaceReached(k) =>
        i <= k < n && probe(k) > minSpace &&
        forall j :: i <= j < k ==> probe(j) <= minSpace && remove(j) == 0
      case RemoveFailed(k) =>
        i <= k < n && probe(k) <= minSpace && remove(k) != 0 &&
        forall j :: i <= j < k ==> probe(j) <= minSpace && remove(j) == 0
    decreases n - i
  {
    if i == n then Exhausted
    else if probe(i) > minSpace then SpaceReached(i)
    else if remove(i) != 0 then RemoveFailed(i)
    else LoopExitOf(n, i + 1, minSpace, probe, remove)
  }

  /** Iterations that complete can be skipped: the loop ends the same way
      whether it starts at `i` or at `k`. */
  lemma {:induction false} LoopExitSkip(n: nat, i: nat, k: nat, minSpace: int, probe: nat -> int, remove: nat -> int)
    requires i <= k <= n
    requires forall j :: i <= j < k ==> Completes(j, minSpace, probe, remove)
    ensures LoopExitOf(n, i, minSpace, probe, remove) == LoopExitOf(n, k, minSpace, probe, remove)
    decreases k - i
  {
    if i < k {
      assert Completes(i, minSpace, probe, remove);
      LoopExitSkip(n, i + 1, k, minSpace, probe, remove);
    }
  }

  /** The return value once the post-loop reading is known. */
  function FinalStatus(reading: int, minSpace: int): (status: int)
    ensures status == 0 || status == -1
    ensures status == 0 <==> reading >= 0 && reading > minSpace
  {
    if reading < 0 then -1
    else if reading > minSpace then 0
    else -1
  }

  /** The delete targets for the given entries: `root + "/" + b` for each `b`. */
  function Targets(root: string, builds: seq<string>): (t: seq<string>)
    ensures |t| == |builds|
    ensures forall k :: 0 <= k < |builds| ==> t[k] == root + "/" + builds[k]
  {
    seq(|builds|, k requires 0 <= k < |builds| => root + "/" + builds[k])
  }

  /** What the loop and the final reading do with the entries `builds`, taken
      in the order given. */
  function Run(root: string, builds: seq<string>, minSpace: int, probe: nat -> int, remove: nat -> int): (o: Outcome)
    ensures o.status == 0 || o.status == -1
  {
    match LoopExitOf(|builds|, 0, minSpace, probe, remove)
    case Exhausted =>
      Outcome(FinalStatus(probe(|builds|), minSpace), Targets(root, builds), |builds|, |builds| + 1)
    case SpaceReached(k) =>
      Outcome(FinalStatus(probe(k + 1), minSpace), Targets(root, builds[..k]), k, k + 2)
    case RemoveFailed(k) =>
      Outcome(-1, Targets(root, builds[..k + 1]), k, k + 1)
  }

  /** What a run of the cleanup script's `clean_builds` does: nothing when the
      root cannot be listed, otherwise `Run` on the sorted listing. */
  function Clean(root: string, listing: Listing, minSpace: int, probe: nat -> int, remove: nat -> int): (o: Outcome)
    ensures o.status == 0 || o.status == -1
  {
    match listing
    case Unreadable => Outcome(0, [], 0, 0)
    case Entries(names) => Run(root, SortNames(names), minSpace, probe, remove)
  }

  /**
   The loop of `clean_builds` over the sorted entries `builds`: for each entry
   in turn it reads the free space, stops once the reading exceeds `minSpace`,
   and otherwise deletes `root + "/" + entry`, giving up with -1 on the first
   failed delete. A last reading then decides between 0 and -1.
   */
  method PruneSorted(root: string, builds: seq<string>, minSpace: int, probe: nat -> int, remove: nat -> int)
    returns (status: int, ghost attempts: seq<string>, ghost cleaned: nat, ghost probes: nat)
    ensures Outcome(status, attempts, cleaned, probes) == Run(root, builds, minSpace, probe, remove)
    ensures status == 0 || status == -1
  {
    var cleanedSubdirs := 0;
    var probeCalls, removeCalls := 0, 0;
    attempts := [];
    for i := 0 to |builds|
      invariant cleanedSubdirs == i && probeCalls == i && removeCalls == i
      invariant attempts == Targets(root, builds[..i])
      invariant LoopExitOf(|builds|, i, minSpace, probe, remove) == LoopExitOf(|builds|, 0, minSpace, probe, remove)
    {
      var b := builds[i];
      var availSpace := probe(probeCalls);
      probeCalls := probeCalls + 1;
      if availSpace > minSpace {
        break;
      }
      var res := remove(removeCalls);
      removeCalls := removeCalls + 1;
      attempts := attempts + [root + "/" + b];
      assert builds[..i + 1] == builds[..i] + [b];
      if res != 0 {
        return -1, attempts, cleanedSubdirs, probeCalls;
      }
      cleanedSubdirs := cleanedSubdirs + 1;
    }
    assert builds[..|builds|] == builds;
    var availSpace := probe(probeCalls);
    probeCalls := probeCalls + 1;
    if availSpace < 0 {
      status := -1;
    } else if availSpace > minSpace {
      status := 0;
    } else {
      status := -1;
    }
    cleaned, probes := cleanedSubdirs, probeCalls;
  }

  /**
   `clean_builds`: returns 0 when the root cannot be listed; otherwise sorts
   the listing and runs `PruneSorted` on it.
   */
  method CleanBuilds(root: string, listing: Listing, minSpace: int, probe: nat -> int, remove: nat -> int)
    returns (status: int, ghost attempts: seq<string>, ghost cleaned: nat, ghost probes: nat)
    ensures Outcome(status, attempts, cleaned, probes) == Clean(root, listing, minSpace, probe, remove)
    ensures status == 0 || status == -1
    ensures listing.Unreadable? ==> status == 0 && attempts == [] && probes == 0
  {
    if listing.Unreadable? {
      return 0, [], 0, 0;
    }
    var builds := SortNames(listing.names);
    status, attempts, cleaned, probes := PruneSorted(root, builds, minSpace, probe, remove);
  }
}
