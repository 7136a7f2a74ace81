/**
 * The interview status state machine: a constant table from each status to
 * the statuses it may move to, and the membership test that consults it.
 */
module Lifecycle {

  const AllowedTransitions: map<string, set<string>> :=
    map[
      "scheduled" := {"ongoing", "cancelled"},
      "ongoing" := {"completed"},
      "completed" := {},
      "cancelled" := {}
    ]

  /** The statuses the table knows. */
  const Statuses: set<string> := {"scheduled", "ongoing", "completed", "cancelled"}

  /** The transition table written as its three directed edges. */
  const Edges: set<(string, string)> :=
    {("scheduled", "ongoing"), ("scheduled", "cancelled"), ("ongoing", "completed")}

  /** A status with no way out. */
  predicate Terminal(status: string)
  {
    status == "completed" || status == "cancelled"
  }

  /**
   * Whether `current -> next` is allowed; an unknown current status allows
   * nothing. The table lookup agrees with the edge list.
   */
  function IsValidTransition(current: string, next: string): (valid: bool)
    ensures valid <==> (current, next) in Edges
    ensures valid ==> current in Statuses && next in Statuses
  {
    next in (if current in AllowedTransitions then AllowedTransitions[current] else {})
  }

  lemma KnownStatusesAreTableKeys()
    ensures AllowedTransitions.Keys == Statuses
  {
  }

  /** The three transitions of the table are valid, and `scheduled -> completed` is not. */
  lemma ListedTransitions()
    ensures IsValidTransition("scheduled", "ongoing")
    ensures IsValidTransition("scheduled", "cancelled")
    ensures IsValidTransition("ongoing", "completed")
    ensures !IsValidTransition("scheduled", "completed")
  {
  }

  /** Nothing leaves `completed` or `cancelled`. */
  lemma TerminalStatesHaveNoExit(current: string, next: string)
    requires Terminal(current)
    ensures !IsValidTransition(current, next)
  {
  }

  /** No status may transition to itself. */
  lemma NoSelfTransition(status: string)
    ensures !IsValidTransition(status, status)
  {
  }

  /** Nothing leads back into `scheduled`. */
  lemma NothingEntersScheduled(current: string)
    ensures !IsValidTransition(current, "scheduled")
  {
  }

  /** A status the table does not know allows no transition at all. */
  lemma UnknownStatusIsStuck(current: string, next: string)
    requires current !in Statuses
    ensures !IsValidTransition(current, next)
  {
  }

  /** A sequence of statuses each of which is a valid transition from the one before. */
  ghost predicate IsRun(run: seq<string>)
  {
    forall i :: 0 < i < |run| ==> IsValidTransition(run[i - 1], run[i])
  }

  /** Distance from `scheduled` in the table. */
  function Stage(status: string): nat
  {
    if status == "scheduled" then 0 else if status == "ongoing" then 1 else 2
  }

  lemma {:induction false} RunClimbs(run: seq<string>)
    requires IsRun(run) && |run| >= 2
    ensures run[|run| - 1] in Statuses
    ensures Stage(run[0]) + |run| - 1 <= Stage(run[|run| - 1])
  {
    var n := |run|;
    assert IsValidTransition(run[n - 2], run[n - 1]);
    if n > 2 {
      var prefix := run[..n - 1];
      RunClimbs(prefix);
    }
  }

  /**
   * Every run of transitions makes at most two steps, and the only run of
   * two steps is scheduled, ongoing, completed.
   */
  lemma {:induction false} RunsAreShort(run: seq<string>)
    requires IsRun(run)
    ensures |run| <= 3
    ensures |run| == 3 ==> run == ["scheduled", "ongoing", "completed"]
  {
    if |run| >= 2 {
      RunClimbs(run);
      if |run| == 3 {
        RunClimbs(run[..2]);
      }
    }
  }

  /** A run never visits the same status twice. */
  lemma {:induction false} RunsDoNotRepeat(run: seq<string>, i: nat, j: nat)
    requires IsRun(run) && i < j < |run|
    ensures run[i] != run[j]
  {
    RunClimbs(run[i..j + 1]);
  }
}
