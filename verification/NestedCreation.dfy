/**
 * The nested calls by which a StringContainer creates the directories of a path
 * (createDirectoryRecursive and `add` in src/storage/filesystem/string_container.cpp), and the flat sequence
 * of steps that module StringContainer makes of them.
 */
module NestedCreation {
  /** The levels on which a call tried to create a directory, the outcomes it did not use, whether it returned. */
  datatype Log = Log(levels: seq<nat>, rest: seq<bool>, returned: bool)

  /**
   * createDirectoryRecursive, and the same loop in `add`, for a path of `k` names.  An outcome is false when
   * the parent was missing; where the outcomes end the call is still under way.
   */
  ghost function Recursive(k: nat, outcomes: seq<bool>): (log: Log)
    ensures |log.rest| <= |outcomes|
    decreases |outcomes|, k
  {
    if k == 0 then Log([], outcomes, true)
    else
      var parents := Recursive(k - 1, outcomes);
      if !parents.returned || parents.rest == [] then Log(parents.levels, parents.rest, false)
      else if parents.rest[0] then Log(parents.levels + [k], parents.rest[1..], true)
      else
        var again := Recursive(k, parents.rest[1..]);
        Log(parents.levels + [k] + again.levels, again.rest, again.returned)
  }

  /** The same as steps: one level further, or back to the first. */
  ghost function Steps(level: nat, k: nat, outcomes: seq<bool>): Log
    decreases |outcomes|
  {
    if level > k then Log([], outcomes, true)
    else if outcomes == [] then Log([], [], false)
    else
      var next := Steps(if outcomes[0] then level + 1 else 1, k, outcomes[1..]);
      next.(levels := [level] + next.levels)
  }

  ghost function Continued(parents: Log, k: nat): Log {
    if !parents.returned || parents.rest == [] then Log(parents.levels, parents.rest, false)
    else if parents.rest[0] then Log(parents.levels + [k], parents.rest[1..], true)
    else
      var again := Steps(1, k, parents.rest[1..]);
      Log(parents.levels + [k] + again.levels, again.rest, again.returned)
  }

  lemma {:induction false} StepsContinue(level: nat, k: nat, outcomes: seq<bool>)
    requires level <= k && 0 < k
    ensures Steps(level, k, outcomes) == Continued(Steps(level, k - 1, outcomes), k)
    decreases |outcomes|
  {
    if level < k && outcomes != [] {
      StepsContinue(if outcomes[0] then level + 1 else 1, k, outcomes[1..]);
    }
  }

  /** The nested calls try exactly the levels the steps do. */
  lemma {:induction false} RecursionIsSteps(k: nat, outcomes: seq<bool>)
    ensures Recursive(k, outcomes) == Steps(1, k, outcomes)
    decreases |outcomes|, k
  {
    if k > 0 {
      RecursionIsSteps(k - 1, outcomes);
      StepsContinue(1, k, outcomes);
      var parents := Recursive(k - 1, outcomes);
      if parents.returned && parents.rest != [] && !parents.rest[0] {
        RecursionIsSteps(k, parents.rest[1..]);
      }
    }
  }
}
