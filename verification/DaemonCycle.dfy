/** The daemon's cleanup and enrichment protocol (src/daemon.ts, runDaemonCycle and
  startIssueEnrichmentPass over the two module variables).

  A cycle, once admitted, runs from its admission to its next await without interruption. An
  enrichment pass it starts goes on in the background and ends at any later moment.
*/
module DaemonCycle {
  import opened Basics

  /** The module variables, and the passes whose background work has not ended. A pass is known by
      a number of its own. */
  datatype State = State(passInFlight: Option<nat>, cleanupPending: bool, running: set<nat>, started: nat)

  const INITIAL := State(None, false, {}, 0)

  /** A cycle as admitted or denied, or the end of a background pass. */
  datatype Event =
    | Cycle(admitted: bool, cleanupDue: bool, enrichmentEnabled: bool)
    | PassEnds(pass: nat)

  predicate Enabled(s: State, e: Event) {
    e.PassEnds? ==> e.pass in s.running
  }

  /** The cycle attempts a cleanup. */
  predicate Attempts(s: State, e: Event) {
    e.Cycle? && e.admitted && (s.cleanupPending || e.cleanupDue) && s.passInFlight.None?
  }

  function Step(s: State, e: Event): State {
    match e
    case PassEnds(pass) =>
      s.(running := s.running - {pass}, passInFlight := if s.passInFlight == Some(pass) then None else s.passInFlight)
    case Cycle(admitted, cleanupDue, enrichmentEnabled) =>
      if !admitted then s
      else
        var pending := s.cleanupPending || cleanupDue;
        var swept := s.(cleanupPending := pending && s.passInFlight.Some?);
        if enrichmentEnabled && s.passInFlight.None? then
          swept.(passInFlight := Some(s.started), running := s.running + {s.started}, started := s.started + 1)
        else swept
  }

  ghost function At(events: seq<Event>, k: nat): State
    requires k <= |events|
  {
    if k == 0 then INITIAL else Step(At(events, k - 1), events[k - 1])
  }

  /** Only passes that are running end. */
  ghost predicate IsRun(events: seq<Event>) {
    forall k :: 0 <= k < |events| ==> Enabled(At(events, k), events[k])
  }

  // ---------------------------------------------------------------- one pass at a time

  ghost predicate Inv(s: State) {
    && s.running == (if s.passInFlight.Some? then {s.passInFlight.value} else {})
    && (s.passInFlight.Some? ==> s.passInFlight.value < s.started)
  }

  lemma {:induction false} RunKeepsInv(events: seq<Event>, k: nat)
    requires IsRun(events) && k <= |events|
    ensures Inv(At(events, k))
  {
    if k > 0 {
      RunKeepsInv(events, k - 1);
      assert Enabled(At(events, k - 1), events[k - 1]);
    }
  }

  /** At most one pass runs, and the variable names it: the guard that clears the variable never
      finds another pass there. */
  lemma AtMostOnePass(events: seq<Event>, k: nat)
    requires IsRun(events) && k <= |events|
    ensures |At(events, k).running| <= 1
    ensures k < |events| && events[k].PassEnds? ==> At(events, k).passInFlight == Some(events[k].pass)
  {
    RunKeepsInv(events, k);
    if k < |events| { assert Enabled(At(events, k), events[k]); }
  }

  lemma {:induction false} NumbersGrow(events: seq<Event>, i: nat, k: nat)
    requires i <= k <= |events|
    ensures At(events, i).started <= At(events, k).started
    decreases k
  {
    if i < k { NumbersGrow(events, i, k - 1); }
  }

  /** The pass ran at some moment up to the `k`-th event. */
  ghost predicate RanBefore(events: seq<Event>, k: nat, pass: nat)
    requires k <= |events|
  {
    exists i: nat :: i <= k && pass in At(events, i).running
  }

  /** An admitted cycle with enrichment enabled that finds no pass running leaves exactly one running,
      a new one; the end of a pass leaves none; every other cycle leaves the running passes as they were. */
  lemma EachCycleStartsItsPass(events: seq<Event>, k: nat)
    requires IsRun(events) && k < |events|
    ensures var e, before, after := events[k], At(events, k).running, At(events, k + 1).running;
      match e
      case PassEnds(pass) => before == {pass} && after == {}
      case Cycle(admitted, _, enrichmentEnabled) =>
        if admitted && enrichmentEnabled && before == {}
        then exists pass :: after == {pass} && !RanBefore(events, k, pass)
        else after == before
  {
    RunKeepsInv(events, k);
    assert Enabled(At(events, k), events[k]);
    var pass := At(events, k).started;
    forall i: nat | i <= k ensures pass !in At(events, i).running {
      RunKeepsInv(events, i);
      NumbersGrow(events, i, k);
    }
    assert !RanBefore(events, k, pass);
    assert At(events, k + 1) == Step(At(events, k), events[k]);
  }

  /** Cleanup never starts while a pass runs. */
  lemma CleanupRunsAlone(events: seq<Event>, k: nat)
    requires IsRun(events) && k < |events| && Attempts(At(events, k), events[k])
    ensures At(events, k).running == {}
  {
    RunKeepsInv(events, k);
  }

  // ---------------------------------------------------------------- what is pending

  predicate ReportsDue(e: Event) { e.Cycle? && e.admitted && e.cleanupDue }

  /** An admitted cycle reported a cleanup due at `j`, and no cycle from `j` up to `k` attempted it. */
  ghost predicate DueSince(events: seq<Event>, j: nat, k: nat)
    requires j < k <= |events|
  {
    ReportsDue(events[j]) && forall i: nat :: j <= i < k ==> !Attempts(At(events, i), events[i])
  }

  lemma {:induction false} DueStaysPending(events: seq<Event>, j: nat, k: nat)
    requires j < k <= |events| && DueSince(events, j, k)
    ensures At(events, k).cleanupPending
    decreases k - j
  {
    assert !Attempts(At(events, k - 1), events[k - 1]);
    if k > j + 1 {
      assert DueSince(events, j, k - 1);
      DueStaysPending(events, j, k - 1);
    }
  }

  lemma {:induction false} PendingWasDue(events: seq<Event>, k: nat) returns (j: nat)
    requires k <= |events| && At(events, k).cleanupPending
    ensures j < k && DueSince(events, j, k)
  {
    assert k > 0;
    var s, e := At(events, k - 1), events[k - 1];
    assert !Attempts(s, e);
    if ReportsDue(e) {
      j := k - 1;
    } else {
      j := PendingWasDue(events, k - 1);
    }
  }

  /** The flag records exactly this: some admitted cycle reported a cleanup due and no cycle since
      then has attempted one. A report made to a cycle that is denied is not recorded. */
  lemma PendingIsExact(events: seq<Event>, k: nat)
    requires k <= |events|
    ensures At(events, k).cleanupPending <==> exists j: nat :: j < k && DueSince(events, j, k)
  {
    if At(events, k).cleanupPending {
      var j := PendingWasDue(events, k);
    }
    if exists j: nat :: j < k && DueSince(events, j, k) {
      var j: nat :| j < k && DueSince(events, j, k);
      DueStaysPending(events, j, k);
    }
  }

  predicate AdmittedCycle(e: Event) { e.Cycle? && e.admitted }

  /** A reported cleanup stays pending until the first admitted cycle that finds no pass running,
      and that cycle attempts it. */
  lemma DueIsServedAtFirstChance(events: seq<Event>, j: nat, k: nat)
    requires IsRun(events) && j <= k < |events| && ReportsDue(events[j])
    requires AdmittedCycle(events[k]) && At(events, k).running == {}
    requires forall i: nat :: j <= i < k && AdmittedCycle(events[i]) ==> At(events, i).running != {}
    ensures Attempts(At(events, k), events[k])
    ensures forall i: nat :: j < i <= k ==> At(events, i).cleanupPending
    ensures forall i: nat :: j <= i < k ==> !Attempts(At(events, i), events[i])
  {
    forall i: nat | j <= i < k ensures !Attempts(At(events, i), events[i]) {
      if Attempts(At(events, i), events[i]) { CleanupRunsAlone(events, i); }
    }
    forall i: nat | j < i <= k ensures At(events, i).cleanupPending {
      assert DueSince(events, j, i);
      DueStaysPending(events, j, i);
    }
    RunKeepsInv(events, k);
  }

  /** No cleanup is attempted without a report, at this cycle or since the last attempt. */
  lemma EveryCleanupWasDue(events: seq<Event>, k: nat)
    requires k < |events| && Attempts(At(events, k), events[k])
    ensures ReportsDue(events[k]) || exists j: nat :: j < k && DueSince(events, j, k)
  {
    if At(events, k).cleanupPending { PendingIsExact(events, k); }
  }

  // ---------------------------------------------------------------- the module variables, updated in place

  class Daemon {
    var issueEnrichmentPassInFlight: Option<nat>
    var worktreeCleanupPending: bool
    ghost var running: set<nat>
    var started: nat

    ghost function Value(): State
      reads this
    {
      State(issueEnrichmentPassInFlight, worktreeCleanupPending, running, started)
    }

    constructor ()
      ensures Value() == INITIAL
    {
      issueEnrichmentPassInFlight, worktreeCleanupPending, running, started := None, false, {}, 0;
    }

    /** The uninterrupted part of a cycle. */
    method RunCycle(admitted: bool, worktreeCleanupDue: bool, enrichmentEnabled: bool) returns (cleanedUp: bool)
      requires Inv(Value())
      modifies this
      ensures var e := Cycle(admitted, worktreeCleanupDue, enrichmentEnabled);
              && Value() == Step(old(Value()), e)
              && cleanedUp == Attempts(old(Value()), e)
              && (cleanedUp ==> old(running) == {})
      ensures Inv(Value())
    {
      cleanedUp := false;
      if !admitted { return; }
      if worktreeCleanupDue { worktreeCleanupPending := true; }
      if worktreeCleanupPending && issueEnrichmentPassInFlight.None? {
        worktreeCleanupPending := false;
        cleanedUp := true;
      }
      if enrichmentEnabled { StartIssueEnrichmentPass(); }
    }

    method StartIssueEnrichmentPass()
      requires Inv(Value())
      modifies this
      ensures worktreeCleanupPending == old(worktreeCleanupPending)
      ensures old(issueEnrichmentPassInFlight).Some? ==> Value() == old(Value())
      ensures old(issueEnrichmentPassInFlight).None? ==>
                && issueEnrichmentPassInFlight == Some(old(started))
                && running == old(running) + {old(started)} && started == old(started) + 1
      ensures Inv(Value())
    {
      if issueEnrichmentPassInFlight.Some? { return; }
      var pass := started;
      issueEnrichmentPassInFlight := Some(pass);
      running := running + {pass};
      started := started + 1;
    }

    /** The finally block of a pass. */
    method EndPass(pass: nat)
      requires Inv(Value()) && pass in running
      modifies this
      ensures Value() == Step(old(Value()), PassEnds(pass)) && Inv(Value())
      ensures issueEnrichmentPassInFlight.None?
    {
      running := running - {pass};
      if issueEnrichmentPassInFlight == Some(pass) { issueEnrichmentPassInFlight := None; }
    }
  }
}
