/** The config writer protocol (src/config-cli.ts): a lock file created exclusively, a revision check
  inside it, and an atomic rename.

  Any number of writer processes interleave one file operation at a time, any operation may fail,
  and a process may stop anywhere. Programs outside the protocol may rewrite the config at any
  moment, and an operator may remove the lock file; each result says which of these it excludes.
*/
module ConfigWriter {
  import opened Basics

  type Text = string

  type Revision = string

  datatype LockFile = LockFile(inode: nat, owner: nat)

  /** Where a writer stands. An inode is the one its own lock file was created with. */
  datatype Phase =
    | Start
    | Opened(inode: nat)                           // created the lock file, inode not yet recorded
    | Recorded(inode: nat)                         // inode recorded, owner line not yet written
    | Holding(inode: nat)                          // lock acquired
    | Computed(inode: nat, base: Text)             // snapshot read and patched
    | Checked(inode: nat, base: Text, seen: nat)   // live revision compared when `seen` changes had happened
    | Releasing(inode: nat)                        // done or failed; about to look at the lock file
    | Unlinking(inode: nat)                        // saw its own inode; about to unlink
    | Finished

  /** A writer: the revision it was told to expect and the text its patch turns a config into
      (None when the patch is refused or changes nothing). */
  datatype Writer = Writer(expected: Option<Revision>, edit: Text -> Option<Text>, phase: Phase)

  datatype Change =
    | Committed(writer: nat, base: Text, data: Text, replaced: Text, seen: nat)
    | Edited(text: Text)

  datatype State = State(content: Text, lock: Option<LockFile>, writers: map<nat, Writer>, history: seq<Change>)

  datatype Event =
    | Open(w: nat, inode: nat)
    | RecordInode(w: nat, ok: bool)
    | WriteOwner(w: nat, ok: bool)
    | ReadAndPatch(w: nat, ok: bool)
    | Recheck(w: nat, ok: bool)
    | Rename(w: nat, ok: bool)
    | LookAtLock(w: nat, ok: bool)
    | Unlink(w: nat, ok: bool)
    | OutsideEdit(text: Text)
    | ManualRemove

  /** A step of a writer, rather than of an outside program or an operator. */
  predicate ByWriter(e: Event) { !e.OutsideEdit? && !e.ManualRemove? }

  predicate Enabled(s: State, e: Event) {
    match e
    case OutsideEdit(_) => true
    case ManualRemove => true
    case Open(w, _) => w in s.writers && s.writers[w].phase.Start?
    case RecordInode(w, _) => w in s.writers && s.writers[w].phase.Opened?
    case WriteOwner(w, _) => w in s.writers && s.writers[w].phase.Recorded?
    case ReadAndPatch(w, _) => w in s.writers && s.writers[w].phase.Holding?
    case Recheck(w, _) => w in s.writers && s.writers[w].phase.Computed?
    case Rename(w, _) =>
      w in s.writers && s.writers[w].phase.Checked? && s.writers[w].edit(s.writers[w].phase.base).Some?
    case LookAtLock(w, _) => w in s.writers && s.writers[w].phase.Releasing?
    case Unlink(w, _) => w in s.writers && s.writers[w].phase.Unlinking?
  }

  function To(s: State, w: nat, phase: Phase): State
    requires w in s.writers
  {
    s.(writers := s.writers[w := s.writers[w].(phase := phase)])
  }

  /** The snapshot is used only if it has the expected revision and the patch changes it. */
  predicate Usable(writer: Writer, text: Text, revision: Text -> Revision) {
    && (writer.expected.None? || writer.expected.value == revision(text))
    && writer.edit(text).Some?
  }

  function Step(s: State, e: Event, revision: Text -> Revision): State
    requires Enabled(s, e)
  {
    match e
    case OutsideEdit(text) => s.(content := text, history := s.history + [Edited(text)])
    case ManualRemove => s.(lock := None)
    case Open(w, inode) =>
      if s.lock.Some? then To(s, w, Finished)
      else To(s, w, Opened(inode)).(lock := Some(LockFile(inode, w)))
    case RecordInode(w, ok) => To(s, w, if ok then Recorded(s.writers[w].phase.inode) else Finished)
    case WriteOwner(w, ok) =>
      var inode := s.writers[w].phase.inode;
      To(s, w, if ok then Holding(inode) else Releasing(inode))
    case ReadAndPatch(w, ok) =>
      var inode := s.writers[w].phase.inode;
      To(s, w, if ok && Usable(s.writers[w], s.content, revision) then Computed(inode, s.content) else Releasing(inode))
    case Recheck(w, ok) =>
      var p := s.writers[w].phase;
      To(s, w, if ok && revision(s.content) == revision(p.base) then Checked(p.inode, p.base, |s.history|)
               else Releasing(p.inode))
    case Rename(w, ok) =>
      var p := s.writers[w].phase;
      if !ok then To(s, w, Releasing(p.inode))
      else
        var data := s.writers[w].edit(p.base).value;
        To(s, w, Releasing(p.inode)).(
          content := data,
          history := s.history + [Committed(w, p.base, data, s.content, p.seen)])
    case LookAtLock(w, ok) =>
      var inode := s.writers[w].phase.inode;
      To(s, w, if ok && s.lock.Some? && s.lock.value.inode == inode then Unlinking(inode) else Finished)
    case Unlink(w, ok) =>
      if ok then To(s, w, Finished).(lock := None) else To(s, w, Finished)
  }

  ghost predicate IsRun(s: State, events: seq<Event>, revision: Text -> Revision)
    decreases |events|
  {
    events == [] || (Enabled(s, events[0]) && IsRun(Step(s, events[0], revision), events[1..], revision))
  }

  ghost function After(s: State, events: seq<Event>, revision: Text -> Revision): State
    requires IsRun(s, events, revision)
    decreases |events|
  {
    if events == [] then s else After(Step(s, events[0], revision), events[1..], revision)
  }

  /** Any set of writers about to start, perhaps with a lock file left behind by an earlier process. */
  ghost predicate Initial(s: State) {
    && (forall w :: w in s.writers ==> s.writers[w].phase == Start)
    && (s.lock.Some? ==> s.lock.value.owner !in s.writers)
    && s.history == []
  }

  ghost predicate Injective(revision: Text -> Revision) {
    forall a, b :: revision(a) == revision(b) ==> a == b
  }

  // ---------------------------------------------------------------- the invariant

  /** Between creating the lock file and letting go of it. */
  predicate Engaged(p: Phase) { !p.Start? && !p.Finished? }

  ghost predicate EngagedOwnsLock(s: State) {
    forall w :: w in s.writers && Engaged(s.writers[w].phase) ==>
      s.lock == Some(LockFile(s.writers[w].phase.inode, w))
  }

  ghost predicate BasesAreSound(s: State, revision: Text -> Revision) {
    forall w :: w in s.writers ==>
      var writer := s.writers[w];
      && (writer.phase.Computed? || writer.phase.Checked? ==> Usable(writer, writer.phase.base, revision))
      && (writer.phase.Checked? ==>
            writer.phase.seen <= |s.history| && (writer.phase.seen == |s.history| ==> writer.phase.base == s.content))
  }

  /** A commit is what its writer's patch makes of its base, has the expected revision, and unless
      something changed between its re-check and its rename replaced exactly that base. */
  ghost predicate SoundCommit(s: State, k: nat, revision: Text -> Revision)
    requires k < |s.history| && s.history[k].Committed?
  {
    var c := s.history[k];
    && c.writer in s.writers
    && Usable(s.writers[c.writer], c.base, revision)
    && s.writers[c.writer].edit(c.base) == Some(c.data)
    && c.seen <= k
    && (c.seen == k ==> c.replaced == c.base)
  }

  ghost predicate CommitsAreSound(s: State, revision: Text -> Revision) {
    forall k: nat :: k < |s.history| && s.history[k].Committed? ==> SoundCommit(s, k, revision)
  }

  ghost predicate Inv(s: State, revision: Text -> Revision) {
    BasesAreSound(s, revision) && CommitsAreSound(s, revision)
  }

  /** Nobody removes the lock file by hand. */
  ghost predicate Unmeddled(events: seq<Event>) {
    forall k :: 0 <= k < |events| ==> !events[k].ManualRemove?
  }

  lemma StepKeepsLock(s: State, e: Event, revision: Text -> Revision)
    requires EngagedOwnsLock(s) && Enabled(s, e) && !e.ManualRemove?
    ensures EngagedOwnsLock(Step(s, e, revision))
  {
  }

  lemma StepKeepsBases(s: State, e: Event, revision: Text -> Revision)
    requires Injective(revision) && Inv(s, revision) && Enabled(s, e)
    ensures BasesAreSound(Step(s, e, revision), revision)
  {
  }

  lemma StepKeepsCommits(s: State, e: Event, revision: Text -> Revision)
    requires Inv(s, revision) && Enabled(s, e)
    ensures CommitsAreSound(Step(s, e, revision), revision)
  {
    var t := Step(s, e, revision);
    forall k: nat | k < |t.history| && t.history[k].Committed? ensures SoundCommit(t, k, revision) {
      if k < |s.history| {
        assert SoundCommit(s, k, revision);
        assert t.history[k] == s.history[k];
      }
    }
  }

  lemma StepKeepsInv(s: State, e: Event, revision: Text -> Revision)
    requires Injective(revision) && Inv(s, revision) && Enabled(s, e)
    ensures Inv(Step(s, e, revision), revision)
  {
    hide BasesAreSound, CommitsAreSound, Step, Enabled;
    StepKeepsBases(s, e, revision);
    StepKeepsCommits(s, e, revision);
  }

  lemma {:induction false} RunKeepsInv(s: State, events: seq<Event>, revision: Text -> Revision)
    requires Injective(revision) && Inv(s, revision) && IsRun(s, events, revision)
    ensures Inv(After(s, events, revision), revision)
    decreases |events|
  {
    hide Inv, Injective, Step, Enabled;
    if events != [] {
      StepKeepsInv(s, events[0], revision);
      RunKeepsInv(Step(s, events[0], revision), events[1..], revision);
    }
  }

  lemma {:induction false} RunKeepsLock(s: State, events: seq<Event>, revision: Text -> Revision)
    requires EngagedOwnsLock(s) && IsRun(s, events, revision) && Unmeddled(events)
    ensures EngagedOwnsLock(After(s, events, revision))
    decreases |events|
  {
    hide EngagedOwnsLock, Step, Enabled;
    if events != [] {
      StepKeepsLock(s, events[0], revision);
      RunKeepsLock(Step(s, events[0], revision), events[1..], revision);
    }
  }

  // ---------------------------------------------------------------- results

  /** At most one writer is between creating and giving up the lock, in every run. */
  lemma MutualExclusion(s: State, events: seq<Event>, revision: Text -> Revision, a: nat, b: nat)
    requires Initial(s) && IsRun(s, events, revision) && Unmeddled(events)
    requires var t := After(s, events, revision);
             a in t.writers && b in t.writers && Engaged(t.writers[a].phase) && Engaged(t.writers[b].phase)
    ensures a == b
  {
    RunKeepsLock(s, events, revision);
  }

  /** Whenever a writer unlinks, after a failed acquire as after a release, the file it removes is
      the lock file it created; and no other step of any writer removes a lock file. */
  lemma OnlyOwnLockRemoved(s: State, events: seq<Event>, revision: Text -> Revision, e: Event)
    requires Initial(s) && IsRun(s, events, revision) && Unmeddled(events)
    requires Enabled(After(s, events, revision), e) && !e.ManualRemove?
    ensures var t := After(s, events, revision);
            var u := Step(t, e, revision);
            && (t.lock.Some? && u.lock != t.lock ==> e.Unlink? && t.lock.value.owner == e.w)
            && (e.Unlink? ==> t.lock == Some(LockFile(t.writers[e.w].phase.inode, e.w)))
  {
    RunKeepsLock(s, events, revision);
  }

  // Even when an operator removes lock files, a writer recognises its own by the inode, as long as
  // the file system does not give a new lock file the inode a live writer still remembers.

  ghost predicate FreshInodes(s: State, events: seq<Event>, revision: Text -> Revision)
    requires IsRun(s, events, revision)
    decreases |events|
  {
    events == []
    || ((events[0].Open? ==>
           forall w :: w in s.writers && Engaged(s.writers[w].phase) ==> s.writers[w].phase.inode != events[0].inode)
        && FreshInodes(Step(s, events[0], revision), events[1..], revision))
  }

  ghost predicate InodeIdentifies(s: State) {
    forall w :: w in s.writers && Engaged(s.writers[w].phase) && s.lock.Some? ==>
      (s.lock.value.inode == s.writers[w].phase.inode ==> s.lock.value.owner == w)
  }

  lemma {:induction false} RunKeepsIdentity(s: State, events: seq<Event>, revision: Text -> Revision)
    requires IsRun(s, events, revision) && FreshInodes(s, events, revision) && InodeIdentifies(s)
    ensures InodeIdentifies(After(s, events, revision))
    decreases |events|
  {
    if events != [] {
      var e, t := events[0], Step(s, events[0], revision);
      forall w | w in t.writers && Engaged(t.writers[w].phase) && t.lock.Some?
                 && t.lock.value.inode == t.writers[w].phase.inode
        ensures t.lock.value.owner == w
      {
        if !ByWriter(e) || w != e.w { assert t.writers[w] == s.writers[w]; }
      }
      RunKeepsIdentity(t, events[1..], revision);
    }
  }

  /** A release or a clean-up goes on to unlink exactly when the lock file it finds is its own. */
  lemma OwnLockIsRecognised(s: State, events: seq<Event>, revision: Text -> Revision, w: nat)
    requires Initial(s) && IsRun(s, events, revision) && FreshInodes(s, events, revision)
    requires Enabled(After(s, events, revision), LookAtLock(w, true))
    ensures var t := After(s, events, revision);
            var u := Step(t, LookAtLock(w, true), revision);
            u.writers[w].phase.Unlinking? ==> t.lock.Some? && t.lock.value.owner == w
    ensures var t := After(s, events, revision);
            var u := Step(t, LookAtLock(w, true), revision);
            t.lock == Some(LockFile(t.writers[w].phase.inode, w)) ==> u.writers[w].phase.Unlinking?
  {
    RunKeepsIdentity(s, events, revision);
  }

  /** Every commit in every run, whatever outside programs do to the config or the lock file. */
  lemma CommitsFollowTheirBase(s: State, events: seq<Event>, revision: Text -> Revision, k: nat)
    requires Injective(revision) && Initial(s) && IsRun(s, events, revision)
    requires k < |After(s, events, revision).history| && After(s, events, revision).history[k].Committed?
    ensures SoundCommit(After(s, events, revision), k, revision)
  {
    RunKeepsInv(s, events, revision);
  }

  /** An expected revision names one text: a commit made with it was computed from that text. */
  lemma ExpectedRevisionIsTheBase(
    s: State, events: seq<Event>, revision: Text -> Revision, k: nat, previewed: Text)
    requires Injective(revision) && Initial(s) && IsRun(s, events, revision)
    requires k < |After(s, events, revision).history| && After(s, events, revision).history[k].Committed?
    requires var t := After(s, events, revision);
             t.history[k].writer in t.writers && t.writers[t.history[k].writer].expected == Some(revision(previewed))
    ensures After(s, events, revision).history[k].base == previewed
  {
    CommitsFollowTheirBase(s, events, revision, k);
  }

  // ---------------------------------------------------------------- progress

  /** An exclusive open takes the lock if and only if it is free. */
  lemma OpenTakesExactlyAFreeLock(s: State, w: nat, inode: nat, revision: Text -> Revision)
    requires Enabled(s, Open(w, inode))
    ensures var t := Step(s, Open(w, inode), revision);
      && (Engaged(t.writers[w].phase) && t.lock == Some(LockFile(inode, w)) <==> s.lock.None?)
      && (s.lock.Some? ==> t.lock == s.lock && t.writers[w].phase == Finished)
      && t.content == s.content && t.history == s.history
  {
  }

  lemma RunOfOne(s: State, e: Event, rest: seq<Event>, revision: Text -> Revision)
    requires Enabled(s, e) && IsRun(Step(s, e, revision), rest, revision)
    ensures IsRun(s, [e] + rest, revision)
    ensures After(s, [e] + rest, revision) == After(Step(s, e, revision), rest, revision)
  {
    assert ([e] + rest)[1..] == rest;
  }

  lemma {:induction false} RunThenRun(s: State, first: seq<Event>, second: seq<Event>, revision: Text -> Revision)
    requires IsRun(s, first, revision) && IsRun(After(s, first, revision), second, revision)
    ensures IsRun(s, first + second, revision)
    ensures After(s, first + second, revision) == After(After(s, first, revision), second, revision)
    decreases |first|
  {
    hide Step, Enabled;
    if first == [] {
      assert first + second == second;
    } else {
      RunThenRun(Step(s, first[0], revision), first[1..], second, revision);
      RunOfOne(s, first[0], first[1..] + second, revision);
      assert first + second == [first[0]] + (first[1..] + second);
    }
  }

  lemma TakesThree(s: State, a: Event, b: Event, c: Event, revision: Text -> Revision)
    requires Enabled(s, a) && Enabled(Step(s, a, revision), b)
    requires Enabled(Step(Step(s, a, revision), b, revision), c)
    ensures IsRun(s, [a, b, c], revision)
    ensures After(s, [a, b, c], revision) == Step(Step(Step(s, a, revision), b, revision), c, revision)
  {
    hide Step, Enabled;
    var t := Step(s, a, revision);
    var u := Step(t, b, revision);
    RunOfOne(u, c, [], revision);
    RunOfOne(t, b, [c], revision);
    RunOfOne(s, a, [b, c], revision);
    assert [a, b, c] == [a] + [b, c] && [b, c] == [b] + [c] && [c] == [c] + [];
  }

  function AcquireEvents(w: nat, inode: nat): seq<Event> { [Open(w, inode), RecordInode(w, true), WriteOwner(w, true)] }

  function CommitEvents(w: nat): seq<Event> { [ReadAndPatch(w, true), Recheck(w, true), Rename(w, true)] }

  function ReleaseEvents(w: nat): seq<Event> { [LookAtLock(w, true), Unlink(w, true)] }

  lemma AcquireAlone(s: State, w: nat, inode: nat, revision: Text -> Revision)
    requires s.lock.None? && w in s.writers && s.writers[w].phase.Start?
    ensures IsRun(s, AcquireEvents(w, inode), revision)
    ensures After(s, AcquireEvents(w, inode), revision) == To(s, w, Holding(inode)).(lock := Some(LockFile(inode, w)))
  {
    TakesThree(s, Open(w, inode), RecordInode(w, true), WriteOwner(w, true), revision);
  }

  lemma CommitAlone(s: State, w: nat, revision: Text -> Revision)
    requires w in s.writers && s.writers[w].phase.Holding? && Usable(s.writers[w], s.content, revision)
    ensures IsRun(s, CommitEvents(w), revision)
    ensures var data := s.writers[w].edit(s.content).value;
      After(s, CommitEvents(w), revision)
      == To(s, w, Releasing(s.writers[w].phase.inode)).(
           content := data, history := s.history + [Committed(w, s.content, data, s.content, |s.history|)])
  {
    TakesThree(s, ReadAndPatch(w, true), Recheck(w, true), Rename(w, true), revision);
  }

  lemma ReleaseAlone(s: State, w: nat, revision: Text -> Revision)
    requires w in s.writers && s.writers[w].phase.Releasing?
    requires s.lock == Some(LockFile(s.writers[w].phase.inode, w))
    ensures IsRun(s, ReleaseEvents(w), revision)
    ensures After(s, ReleaseEvents(w), revision) == To(s, w, Finished).(lock := None)
  {
    var t := Step(s, LookAtLock(w, true), revision);
    var u := Step(t, Unlink(w, true), revision);
    assert u == To(s, w, Finished).(lock := None);
    hide Step, Enabled, To;
    RunOfOne(t, Unlink(w, true), [], revision);
    RunOfOne(s, LookAtLock(w, true), [Unlink(w, true)], revision);
    assert ReleaseEvents(w) == [LookAtLock(w, true)] + [Unlink(w, true)];
    assert [Unlink(w, true)] == [Unlink(w, true)] + [];
  }

  function SoloEvents(w: nat, inode: nat): seq<Event> { AcquireEvents(w, inode) + (CommitEvents(w) + ReleaseEvents(w)) }

  /** Whenever the lock is free, a writer about to start whose expectation and patch suit the content
      can go on alone to commit its patch exactly once and give the lock back. */
  lemma WriterCanCommit(s: State, w: nat, inode: nat, revision: Text -> Revision)
    requires s.lock.None? && w in s.writers && s.writers[w].phase.Start?
    requires s.writers[w].expected.None? || s.writers[w].expected.value == revision(s.content)
    requires s.writers[w].edit(s.content).Some?
    ensures IsRun(s, SoloEvents(w, inode), revision)
    ensures var t := After(s, SoloEvents(w, inode), revision);
      var data := s.writers[w].edit(s.content).value;
      && t.content == data && t.lock.None?
      && t.history == s.history + [Committed(w, s.content, data, s.content, |s.history|)]
      && t.writers == s.writers[w := s.writers[w].(phase := Finished)]
  {
    hide IsRun, After, AcquireEvents, CommitEvents, ReleaseEvents;
    AcquireAlone(s, w, inode, revision);
    var held := After(s, AcquireEvents(w, inode), revision);
    CommitAlone(held, w, revision);
    var done := After(held, CommitEvents(w), revision);
    ReleaseAlone(done, w, revision);
    RunThenRun(held, CommitEvents(w), ReleaseEvents(w), revision);
    RunThenRun(s, AcquireEvents(w, inode), CommitEvents(w) + ReleaseEvents(w), revision);
  }

  /** How many more of its own operations take a writer to look at the lock file. */
  function StepsToRelease(p: Phase): nat {
    match p
    case Opened(_) => 4
    case Recorded(_) => 3
    case Holding(_) => 3
    case Computed(_, _) => 3
    case Checked(_, _, _) => 3
    case Releasing(_) => 2
    case Unlinking(_) => 1
    case _ => 0
  }

  /** A writer that holds the lock in a run nobody meddles with can always finish and free it. */
  lemma {:induction false} LockCanBeFreed(s: State, w: nat, revision: Text -> Revision) returns (events: seq<Event>)
    requires EngagedOwnsLock(s) && w in s.writers && Engaged(s.writers[w].phase)
    requires BasesAreSound(s, revision)
    ensures IsRun(s, events, revision)
    ensures var t := After(s, events, revision);
      w in t.writers && t.writers[w].phase == Finished && t.lock.None? && t.content == s.content
    decreases StepsToRelease(s.writers[w].phase)
  {
    var e := match s.writers[w].phase
      case Opened(_) => RecordInode(w, true)
      case Recorded(_) => WriteOwner(w, false)
      case Holding(_) => ReadAndPatch(w, false)
      case Computed(_, _) => Recheck(w, false)
      case Checked(_, _, _) => Rename(w, false)
      case Releasing(_) => LookAtLock(w, true)
      case _ => Unlink(w, true);
    var t := Step(s, e, revision);
    StepKeepsLock(s, e, revision);
    if s.writers[w].phase.Unlinking? {
      events := [e];
      RunOfOne(s, e, [], revision);
    } else {
      OtherBasesStaySound(s, e, revision);
      var rest := LockCanBeFreed(t, w, revision);
      events := [e] + rest;
      RunOfOne(s, e, rest, revision);
    }
  }

  lemma OtherBasesStaySound(s: State, e: Event, revision: Text -> Revision)
    requires BasesAreSound(s, revision) && Enabled(s, e)
    requires ByWriter(e) && (e.Rename? || e.Recheck? ==> !e.ok) && (e.ReadAndPatch? ==> !e.ok)
    ensures BasesAreSound(Step(s, e, revision), revision)
  {
    var t := Step(s, e, revision);
    forall w | w in t.writers
      ensures var writer := t.writers[w];
        && (writer.phase.Computed? || writer.phase.Checked? ==> Usable(writer, writer.phase.base, revision))
        && (writer.phase.Checked? ==>
              writer.phase.seen <= |t.history| && (writer.phase.seen == |t.history| ==> writer.phase.base == t.content))
    {
      assert w in s.writers;
    }
  }

  // ---------------------------------------------------------------- runs of lock-taking writers only

  ghost predicate WritersOnly(events: seq<Event>) {
    forall k :: 0 <= k < |events| ==> ByWriter(events[k])
  }

  /** While nobody else edits, a snapshot stays current and a check stays fresh. */
  ghost predicate SnapshotsAreCurrent(s: State) {
    forall w :: w in s.writers ==>
      var p := s.writers[w].phase;
      && (p.Computed? || p.Checked? ==> p.base == s.content)
      && (p.Checked? ==> p.seen == |s.history|)
  }

  function ContentAfter(initial: Text, history: seq<Change>): Text {
    if history == [] then initial
    else match history[|history| - 1]
      case Committed(_, _, data, _, _) => data
      case Edited(text) => text
  }

  /** Each commit was computed from the content the previous one left. */
  ghost predicate Serial(initial: Text, s: State) {
    && s.content == ContentAfter(initial, s.history)
    && forall k :: 0 <= k < |s.history| ==>
         && s.history[k].Committed?
         && s.history[k].base == s.history[k].replaced == ContentAfter(initial, s.history[..k])
  }

  lemma StepStaysSerial(initial: Text, s: State, e: Event, revision: Text -> Revision)
    requires EngagedOwnsLock(s) && SnapshotsAreCurrent(s) && Serial(initial, s)
    requires Enabled(s, e) && ByWriter(e)
    ensures SnapshotsAreCurrent(Step(s, e, revision)) && Serial(initial, Step(s, e, revision))
  {
    var t := Step(s, e, revision);
    forall w | w in t.writers
      ensures var p := t.writers[w].phase;
        && (p.Computed? || p.Checked? ==> p.base == t.content)
        && (p.Checked? ==> p.seen == |t.history|)
    {
      assert w in s.writers;
      if w != e.w { assert t.writers[w] == s.writers[w]; }
    }
    forall k | 0 <= k < |t.history|
      ensures t.history[k].Committed?
      ensures t.history[k].base == t.history[k].replaced == ContentAfter(initial, t.history[..k])
    {
      assert t.history[..k] == s.history[..k];
      if k == |s.history| { assert s.history[..k] == s.history; }
    }
  }

  lemma {:induction false} RunStaysSerial(initial: Text, s: State, events: seq<Event>, revision: Text -> Revision)
    requires EngagedOwnsLock(s) && SnapshotsAreCurrent(s) && Serial(initial, s)
    requires IsRun(s, events, revision) && WritersOnly(events)
    ensures Serial(initial, After(s, events, revision))
    decreases |events|
  {
    hide Serial, SnapshotsAreCurrent, EngagedOwnsLock, Step, Enabled;
    if events != [] {
      StepKeepsLock(s, events[0], revision);
      StepStaysSerial(initial, s, events[0], revision);
      RunStaysSerial(initial, Step(s, events[0], revision), events[1..], revision);
    }
  }

  /** In every run of lock-taking writers the final content is the initial content with the committed
      patches applied one after another: no update is lost. */
  lemma NoLostUpdate(s: State, events: seq<Event>, revision: Text -> Revision)
    requires Initial(s) && IsRun(s, events, revision) && WritersOnly(events)
    ensures Serial(s.content, After(s, events, revision))
  {
    RunStaysSerial(s.content, s, events, revision);
  }
}
