/** The per-mirror promise lock (src/git.ts, withGitMirrorLock and gitMirrorTails).

  Callers queue on a mirror path by chaining promises: each caller waits for the tail it found in
  the map and leaves its own tail there. The system is a step machine over any number of callers
  and paths. A caller is named by the moment at which it created its tail promise, so names grow
  and a promise is known by its creator. The synchronous prefix and the `finally` block are atomic.
*/
module MirrorLock {
  import opened Basics

  type Path = string

  /** Awaiting the predecessor, inside the action, or finished (normally or by throwing). */
  datatype Phase = Waiting | Running | Done(threw: bool)

  datatype Caller = Caller(path: Path, predecessor: Option<nat>, phase: Phase)

  datatype State = State(callers: map<nat, Caller>, tails: map<Path, nat>, resolved: set<nat>)

  datatype Event =
    | Arrive(id: nat, path: Path)
    | Start(id: nat, path: Path)
    | Finish(id: nat, path: Path, threw: bool)

  const INITIAL: State := State(map[], map[], {})

  predicate Known(s: State, id: nat, path: Path) {
    id in s.callers && s.callers[id].path == path
  }

  predicate CanStart(s: State, id: nat) {
    && id in s.callers && s.callers[id].phase == Waiting
    && (s.callers[id].predecessor.None? || s.callers[id].predecessor.value in s.resolved)
  }

  predicate Enabled(s: State, e: Event) {
    match e
    case Arrive(id, _) => forall other :: other in s.callers ==> other < id
    case Start(id, path) => Known(s, id, path) && CanStart(s, id)
    case Finish(id, path, _) => Known(s, id, path) && s.callers[id].phase == Running
  }

  function Step(s: State, e: Event): State
    requires Enabled(s, e)
  {
    match e
    case Arrive(id, path) =>
      var predecessor := if path in s.tails then Some(s.tails[path]) else None;
      State(s.callers[id := Caller(path, predecessor, Waiting)], s.tails[path := id], s.resolved)
    case Start(id, _) =>
      s.(callers := s.callers[id := s.callers[id].(phase := Running)])
    case Finish(id, path, threw) =>
      State(s.callers[id := s.callers[id].(phase := Done(threw))],
            if path in s.tails && s.tails[path] == id then s.tails - {path} else s.tails,
            s.resolved + {id})
  }

  ghost predicate IsRun(s: State, events: seq<Event>)
    decreases |events|
  {
    events == [] || (Enabled(s, events[0]) && IsRun(Step(s, events[0]), events[1..]))
  }

  ghost function After(s: State, events: seq<Event>): State
    requires IsRun(s, events)
    decreases |events|
  {
    if events == [] then s else After(Step(s, events[0]), events[1..])
  }

  ghost predicate Reachable(s: State) {
    exists events :: IsRun(INITIAL, events) && After(INITIAL, events) == s
  }

  // ---------------------------------------------------------------- the invariant

  predicate Unfinished(s: State, id: nat) {
    id in s.callers && !s.callers[id].phase.Done?
  }

  predicate SamePath(s: State, a: nat, b: nat) {
    a in s.callers && b in s.callers && s.callers[a].path == s.callers[b].path
  }

  /** Whoever has left the queue was preceded, on its path, only by finished callers. */
  ghost predicate ArrivalOrder(s: State) {
    forall a: nat, b: nat :: a < b && SamePath(s, a, b) && s.callers[b].phase != Waiting ==> s.callers[a].phase.Done?
  }

  /** A predecessor is the latest earlier caller on the path; no predecessor means all earlier ones are done. */
  ghost predicate PredecessorsChain(s: State) {
    && (forall a: nat, b: nat :: a < b && SamePath(s, a, b) && s.callers[b].predecessor.None? ==> s.callers[a].phase.Done?)
    && (forall b :: b in s.callers && s.callers[b].predecessor.Some? ==>
          s.callers[b].predecessor.value < b && SamePath(s, s.callers[b].predecessor.value, b))
    && (forall a: nat, b: nat :: a < b && SamePath(s, a, b) && s.callers[b].predecessor.Some? ==>
          a <= s.callers[b].predecessor.value)
  }

  /** A path has an entry exactly when it has an unfinished caller, and the entry is its latest arrival. */
  ghost predicate TailsTrackLatest(s: State) {
    && (forall path :: path in s.tails ==> Unfinished(s, s.tails[path]) && s.callers[s.tails[path]].path == path)
    && (forall id :: Unfinished(s, id) ==> s.callers[id].path in s.tails)
    && (forall id :: id in s.callers && s.callers[id].path in s.tails ==> id <= s.tails[s.callers[id].path])
  }

  ghost predicate ResolvedAreDone(s: State) {
    forall id :: id in s.resolved <==> id in s.callers && s.callers[id].phase.Done?
  }

  ghost predicate Inv(s: State) {
    ArrivalOrder(s) && PredecessorsChain(s) && TailsTrackLatest(s) && ResolvedAreDone(s)
  }

  lemma StepKeepsArrivalOrder(s: State, e: Event)
    requires Inv(s) && Enabled(s, e)
    ensures ArrivalOrder(Step(s, e))
  {
    hide PredecessorsChain, TailsTrackLatest, ResolvedAreDone;
    var t := Step(s, e);
    if e.Start? { OnlyTheFirstStarts(s, e.id); }
    forall a: nat, b: nat | a < b && SamePath(t, a, b) && t.callers[b].phase != Waiting
      ensures t.callers[a].phase.Done?
    {
      assert e.Arrive? ==> a != e.id && b != e.id;
      assert SamePath(s, a, b);
    }
  }

  lemma StepKeepsResolved(s: State, e: Event)
    requires Inv(s) && Enabled(s, e)
    ensures ResolvedAreDone(Step(s, e))
  {
  }

  lemma StepKeepsTails(s: State, e: Event)
    requires Inv(s) && Enabled(s, e)
    ensures TailsTrackLatest(Step(s, e))
  {
    if e.Finish? {
      FinishKeepsTails(s, e);
    } else {
      hide PredecessorsChain, ResolvedAreDone, ArrivalOrder;
      assert e.Arrive? ==> e.id !in s.callers;
    }
  }

  lemma FinishKeepsTails(s: State, e: Event)
    requires Inv(s) && Enabled(s, e) && e.Finish?
    ensures TailsTrackLatest(Step(s, e))
  {
    hide PredecessorsChain, ResolvedAreDone;
    var t := Step(s, e);
    assert e.path in s.tails && SamePath(s, e.id, s.tails[e.path]);
    forall id | Unfinished(t, id) ensures t.callers[id].path in t.tails {
      assert Unfinished(s, id);
      if t.callers[id].path == e.path { assert SamePath(s, id, e.id) && SamePath(s, e.id, id); }
    }
  }

  lemma StepKeepsChain(s: State, e: Event)
    requires Inv(s) && Enabled(s, e)
    ensures PredecessorsChain(Step(s, e))
  {
    hide ResolvedAreDone, ArrivalOrder;
    var t := Step(s, e);
    assert e.Arrive? ==> e.id !in s.callers;
    forall a: nat, b: nat | a < b && SamePath(t, a, b)
      ensures t.callers[b].predecessor.None? ==> t.callers[a].phase.Done?
      ensures t.callers[b].predecessor.Some? ==> a <= t.callers[b].predecessor.value
    {
      assert a in s.callers;
      if b in s.callers {
        assert SamePath(s, a, b);
      } else if e.path !in s.tails {
        assert !Unfinished(s, a);
      }
    }
    forall b: nat | b in t.callers && t.callers[b].predecessor.Some?
      ensures t.callers[b].predecessor.value < b && SamePath(t, t.callers[b].predecessor.value, b)
    {
      if b in s.callers {
        assert SamePath(s, s.callers[b].predecessor.value, b);
      } else {
        assert Unfinished(s, s.tails[e.path]);
      }
    }
  }

  lemma StepKeepsInv(s: State, e: Event)
    requires Inv(s) && Enabled(s, e)
    ensures Inv(Step(s, e))
  {
    hide ArrivalOrder, PredecessorsChain, TailsTrackLatest, ResolvedAreDone, Step, Enabled;
    StepKeepsArrivalOrder(s, e);
    StepKeepsResolved(s, e);
    StepKeepsTails(s, e);
    StepKeepsChain(s, e);
  }

  /** A caller that is able to start has only finished callers before it on its path. */
  lemma OnlyTheFirstStarts(s: State, id: nat)
    requires Inv(s) && CanStart(s, id)
    ensures forall a: nat :: a < id && SamePath(s, a, id) ==> s.callers[a].phase.Done?
  {
    forall a: nat | a < id && SamePath(s, a, id) ensures s.callers[a].phase.Done? {
      if s.callers[id].predecessor.Some? {
        var p := s.callers[id].predecessor.value;
        assert s.callers[p].phase.Done?;
        if a != p { assert SamePath(s, a, p); }
      }
    }
  }

  lemma {:induction false} RunKeepsInv(s: State, events: seq<Event>)
    requires Inv(s) && IsRun(s, events)
    ensures Inv(After(s, events))
    decreases |events|
  {
    if events != [] {
      StepKeepsInv(s, events[0]);
      RunKeepsInv(Step(s, events[0]), events[1..]);
    }
  }

  lemma ReachableInv(s: State)
    requires Reachable(s)
    ensures Inv(s)
  {
    var events :| IsRun(INITIAL, events) && After(INITIAL, events) == s;
    RunKeepsInv(INITIAL, events);
  }

  // ---------------------------------------------------------------- safety

  /** At most one action runs per mirror path, in every reachable state. */
  lemma MutualExclusion(s: State, a: nat, b: nat)
    requires Reachable(s)
    requires SamePath(s, a, b) && s.callers[a].phase == Running && s.callers[b].phase == Running
    ensures a == b
  {
    ReachableInv(s);
  }

  /** Callers on one path run in arrival order: when one runs, all earlier ones have finished and
      all later ones still wait. */
  lemma FirstComeFirstServed(s: State, a: nat, b: nat)
    requires Reachable(s) && a < b && SamePath(s, a, b)
    ensures s.callers[b].phase != Waiting ==> s.callers[a].phase.Done?
    ensures !s.callers[a].phase.Done? ==> s.callers[b].phase == Waiting
  {
    ReachableInv(s);
  }

  /** The map holds a path exactly while it has an unfinished caller, and then its latest arrival. */
  lemma TailMapIsExact(s: State, path: Path)
    requires Reachable(s)
    ensures path in s.tails <==> exists id :: Unfinished(s, id) && s.callers[id].path == path
    ensures path in s.tails ==>
              && Known(s, s.tails[path], path)
              && forall id :: Known(s, id, path) ==> id <= s.tails[path]
  {
    ReachableInv(s);
    if path in s.tails { assert Unfinished(s, s.tails[path]); }
  }

  // ---------------------------------------------------------------- progress

  ghost predicate IsEarliestUnfinished(s: State, id: nat) {
    Unfinished(s, id) && forall a: nat :: a < id && SamePath(s, a, id) ==> s.callers[a].phase.Done?
  }

  /** The earliest unfinished caller of a path is running or able to run; any other one is neither. */
  lemma EarliestCanProceed(s: State, id: nat)
    requires Reachable(s) && Unfinished(s, id)
    ensures (s.callers[id].phase == Running || CanStart(s, id)) <==> IsEarliestUnfinished(s, id)
  {
    ReachableInv(s);
    EarliestIsNext(s, id);
  }

  lemma EarliestIsNext(s: State, id: nat)
    requires Inv(s) && Unfinished(s, id)
    ensures (s.callers[id].phase == Running || CanStart(s, id)) <==> IsEarliestUnfinished(s, id)
  {
    hide TailsTrackLatest;
    var predecessor := s.callers[id].predecessor;
    assert predecessor.Some? ==> SamePath(s, predecessor.value, id);
    if CanStart(s, id) { OnlyTheFirstStarts(s, id); }
  }

  /** A caller that arrives waits, and is able to start at once exactly when nobody on its path is
      unfinished; a finished one lets the next on its path start, whether its action threw or not.
      No step changes another caller. */
  lemma EachStepMovesItsCaller(s: State, e: Event)
    requires Reachable(s) && Enabled(s, e)
    ensures var t := Step(s, e);
      match e
      case Arrive(id, path) =>
        && OnlyMoves(s, t, id, path, Waiting) && id !in s.callers
        && (CanStart(t, id) <==> !exists a :: Unfinished(s, a) && s.callers[a].path == path)
      case Start(id, path) =>
        OnlyMoves(s, t, id, path, Running) && IsEarliestUnfinished(s, id)
      case Finish(id, path, threw) =>
        && OnlyMoves(s, t, id, path, Done(threw))
        && forall next :: next != id && SamePath(t, id, next) && IsEarliestUnfinished(t, next) ==> CanStart(t, next)
  {
    ReachableInv(s);
    match e
    case Arrive(id, path) => ArrivalWaitsForItsPath(s, id, path);
    case Start(id, _) => EarliestCanProceed(s, id);
    case Finish(id, path, threw) =>
      hide Inv;
      forall next | next != id && SamePath(Step(s, e), id, next) && IsEarliestUnfinished(Step(s, e), next)
        ensures CanStart(Step(s, e), next) {
        NextCanStart(s, e, next);
      }
  }

  ghost predicate OnlyMoves(s: State, t: State, id: nat, path: Path, phase: Phase) {
    && Known(t, id, path) && t.callers[id].phase == phase
    && t.callers.Keys == s.callers.Keys + {id}
    && forall other :: other in s.callers && other != id ==> t.callers[other] == s.callers[other]
  }

  lemma ArrivalWaitsForItsPath(s: State, id: nat, path: Path)
    requires Inv(s) && Enabled(s, Arrive(id, path))
    ensures CanStart(Step(s, Arrive(id, path)), id) <==> !exists a :: Unfinished(s, a) && s.callers[a].path == path
  {
    hide ArrivalOrder, PredecessorsChain;
    if path in s.tails { assert Unfinished(s, s.tails[path]); }
  }

  lemma NextCanStart(s: State, e: Event, next: nat)
    requires Inv(s) && Enabled(s, e) && e.Finish?
    requires next != e.id && SamePath(Step(s, e), e.id, next) && IsEarliestUnfinished(Step(s, e), next)
    ensures CanStart(Step(s, e), next)
  {
    StepKeepsInv(s, e);
    EarliestIsNext(Step(s, e), next);
    hide PredecessorsChain, TailsTrackLatest, ResolvedAreDone, CanStart, IsEarliestUnfinished;
    assert SamePath(s, e.id, next) && SamePath(s, next, e.id);
  }

  function Work(s: State, id: nat): nat
    requires id in s.callers
  {
    if s.callers[id].phase == Waiting then 2 else if s.callers[id].phase == Running then 1 else 0
  }

  lemma {:induction false} EarliestExists(s: State, id: nat) returns (first: nat)
    requires Unfinished(s, id)
    ensures first <= id && SamePath(s, first, id) && IsEarliestUnfinished(s, first)
    decreases id
  {
    if IsEarliestUnfinished(s, id) {
      first := id;
    } else {
      var a: nat :| a < id && SamePath(s, a, id) && !s.callers[a].phase.Done?;
      first := EarliestExists(s, a);
    }
  }

  ghost predicate Idle(s: State) {
    forall id :: id in s.callers ==> s.callers[id].phase.Done?
  }

  ghost function WorkLeft(s: State, ids: set<nat>): nat
    requires ids <= s.callers.Keys
  {
    if ids == {} then 0
    else var id :| id in ids; Work(s, id) + WorkLeft(s, ids - {id})
  }

  lemma WorkLeftSplits(s: State, ids: set<nat>, id: nat)
    requires ids <= s.callers.Keys && id in ids
    ensures WorkLeft(s, ids) == Work(s, id) + WorkLeft(s, ids - {id})
  {
    var pick :| pick in ids && WorkLeft(s, ids) == Work(s, pick) + WorkLeft(s, ids - {pick});
    if pick != id {
      WorkLeftSplits(s, ids - {pick}, id);
      WorkLeftSplits(s, ids - {id}, pick);
      assert ids - {pick} - {id} == ids - {id} - {pick};
    }
  }

  lemma {:induction false} WorkLeftFrame(s: State, t: State, ids: set<nat>)
    requires ids <= s.callers.Keys && ids <= t.callers.Keys
    requires forall id :: id in ids ==> s.callers[id] == t.callers[id]
    ensures WorkLeft(s, ids) == WorkLeft(t, ids)
    decreases |ids|
  {
    if ids != {} {
      var id :| id in ids;
      WorkLeftSplits(s, ids, id);
      WorkLeftSplits(t, ids, id);
      WorkLeftFrame(s, t, ids - {id});
    }
  }

  lemma OneMoreStep(s: State, id: nat, e: Event)
    requires Enabled(s, e) && id in s.callers && e.id == id && !e.Arrive?
    ensures WorkLeft(Step(s, e), s.callers.Keys) < WorkLeft(s, s.callers.Keys)
    ensures Step(s, e).callers.Keys == s.callers.Keys
  {
    var t := Step(s, e);
    assert t.callers.Keys == s.callers.Keys;
    WorkLeftSplits(s, s.callers.Keys, id);
    WorkLeftSplits(t, s.callers.Keys, id);
    WorkLeftFrame(s, t, s.callers.Keys - {id});
  }

  lemma {:induction false} Drain(s: State) returns (events: seq<Event>)
    requires Inv(s)
    ensures IsRun(s, events) && Idle(After(s, events)) && After(s, events).tails == map[]
    ensures forall k :: 0 <= k < |events| ==> !events[k].Arrive?
    decreases WorkLeft(s, s.callers.Keys)
  {
    if Idle(s) {
      events := [];
      assert s.tails == map[];
    } else {
      var busy :| busy in s.callers && !s.callers[busy].phase.Done?;
      var id := EarliestExists(s, busy);
      var path := s.callers[id].path;
      if s.callers[id].phase == Waiting && s.callers[id].predecessor.Some? {
        assert SamePath(s, s.callers[id].predecessor.value, id);
      }
      var e := if s.callers[id].phase == Waiting then Start(id, path) else Finish(id, path, false);
      StepKeepsInv(s, e);
      OneMoreStep(s, id, e);
      var later := Drain(Step(s, e));
      events := [e] + later;
      assert events[1..] == later;
    }
  }

  /** No deadlock: from every reachable state the callers present can all be run to completion,
      and then the map is empty. */
  lemma CanAlwaysDrain(s: State)
    requires Reachable(s)
    ensures exists events: seq<Event> :: && IsRun(s, events) && Idle(After(s, events)) && After(s, events).tails == map[]
                             && (forall k :: 0 <= k < |events| ==> !events[k].Arrive?)
  {
    ReachableInv(s);
    var events := Drain(s);
  }

  // ---------------------------------------------------------------- paths are independent

  /** What one path sees of the system. */
  function View(s: State, path: Path): State {
    State(map id | id in s.callers && s.callers[id].path == path :: s.callers[id],
          if path in s.tails then map[path := s.tails[path]] else map[],
          set id | id in s.resolved && id in s.callers && s.callers[id].path == path)
  }

  ghost function Restrict(events: seq<Event>, path: Path): seq<Event> {
    if events == [] then []
    else (if events[0].path == path then [events[0]] else []) + Restrict(events[1..], path)
  }

  /** Whether a caller may start or finish depends only on callers of its own path. */
  lemma EnablednessIsLocal(s: State, e: Event)
    requires Inv(s) && !e.Arrive?
    ensures Enabled(s, e) <==> Enabled(View(s, e.path), e)
  {
  }

  lemma StepElsewhere(s: State, e: Event, path: Path)
    requires Inv(s) && Enabled(s, e) && e.path != path
    ensures View(Step(s, e), path) == View(s, path)
  {
    hide ArrivalOrder, PredecessorsChain, TailsTrackLatest;
    assert e.Arrive? ==> e.id !in s.callers && e.id !in s.resolved;
    var t, v := View(Step(s, e), path), View(s, path);
    assert t.callers == v.callers;
    assert t.resolved == v.resolved;
  }

  lemma ArriveHere(s: State, e: Event)
    requires Inv(s) && Enabled(s, e) && e.Arrive?
    ensures Enabled(View(s, e.path), e) && View(Step(s, e), e.path) == Step(View(s, e.path), e)
  {
    hide ArrivalOrder, PredecessorsChain, TailsTrackLatest;
    assert e.id !in s.callers && e.id !in s.resolved;
    var v := View(s, e.path);
    var t, w := View(Step(s, e), e.path), Step(v, e);
    assert t.callers == w.callers;
    assert t.resolved == w.resolved;
  }

  lemma StepHere(s: State, e: Event)
    requires Inv(s) && Enabled(s, e)
    ensures Enabled(View(s, e.path), e) && View(Step(s, e), e.path) == Step(View(s, e.path), e)
  {
    hide ArrivalOrder, PredecessorsChain, TailsTrackLatest, ResolvedAreDone;
    if e.Arrive? {
      ArriveHere(s, e);
    } else {
      EnablednessIsLocal(s, e);
      var v := View(s, e.path);
      var t, w := View(Step(s, e), e.path), Step(v, e);
      assert t.callers == w.callers;
      assert t.tails == w.tails;
      assert t.resolved == w.resolved;
    }
  }

  /** Paths never wait for each other: any run, seen from one path, is a run of that path alone
      and reaches the same states, whatever happens on the other paths. */
  lemma {:induction false} PathsAreIndependent(s: State, events: seq<Event>, path: Path)
    requires Inv(s) && IsRun(s, events)
    ensures IsRun(View(s, path), Restrict(events, path))
    ensures After(View(s, path), Restrict(events, path)) == View(After(s, events), path)
    decreases |events|
  {
    if events != [] {
      var e := events[0];
      StepKeepsInv(s, e);
      PathsAreIndependent(Step(s, e), events[1..], path);
      if e.path == path {
        StepHere(s, e);
        assert Restrict(events, path)[1..] == Restrict(events[1..], path);
      } else {
        StepElsewhere(s, e, path);
        assert Restrict(events, path) == Restrict(events[1..], path);
      }
    }
  }

  // ---------------------------------------------------------------- the shared map, updated in place

  /** The module state of the lock. The methods are the atomic sections of withGitMirrorLock. */
  class GitMirrorTails {
    var callers: map<nat, Caller>
    var tails: map<Path, nat>
    var resolved: set<nat>

    function Value(): State
      reads this
    {
      State(callers, tails, resolved)
    }

    constructor ()
      ensures Value() == INITIAL && Inv(Value())
    {
      callers, tails, resolved := map[], map[], {};
    }

    method Enter(id: nat, mirrorPath: Path)
      requires Inv(Value()) && Enabled(Value(), Arrive(id, mirrorPath))
      modifies this
      ensures Inv(Value()) && Value() == Step(old(Value()), Arrive(id, mirrorPath))
    {
      StepKeepsInv(Value(), Arrive(id, mirrorPath));
      var predecessor := if mirrorPath in tails then Some(tails[mirrorPath]) else None;
      var tail := id;
      tails := tails[mirrorPath := tail];
      callers := callers[id := Caller(mirrorPath, predecessor, Waiting)];
    }

    /** The await on the predecessor: the caller proceeds as soon as that promise is resolved. */
    method Await(id: nat) returns (proceeds: bool)
      requires Inv(Value()) && id in callers && callers[id].phase == Waiting
      modifies this
      ensures Inv(Value()) && proceeds == CanStart(old(Value()), id)
      ensures Value() == if proceeds then Step(old(Value()), Start(id, old(callers[id].path))) else old(Value())
    {
      var predecessor := callers[id].predecessor;
      proceeds := predecessor.None? || predecessor.value in resolved;
      if proceeds {
        StepKeepsInv(Value(), Start(id, callers[id].path));
        callers := callers[id := callers[id].(phase := Running)];
      }
    }

    method Leave(id: nat, threw: bool)
      requires Inv(Value()) && id in callers && callers[id].phase == Running
      modifies this
      ensures Inv(Value()) && Value() == Step(old(Value()), Finish(id, old(callers[id].path), threw))
    {
      var mirrorPath := callers[id].path;
      StepKeepsInv(Value(), Finish(id, mirrorPath, threw));
      resolved := resolved + {id};
      callers := callers[id := callers[id].(phase := Done(threw))];
      if mirrorPath in tails && tails[mirrorPath] == id {
        tails := tails - {mirrorPath};
      }
    }
  }
}
