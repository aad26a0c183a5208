/** Coverage accounting (src/coverage-audit.ts): every open pull request ends in one bucket of the
  report, and the summary counts what the lists hold.

  The state store, GitHub and the configuration are fields of an environment; times are numbers and
  a time that does not parse is None.
*/
module CoverageAudit {
  import opened Basics

  datatype PullState = Unstated | Open | Closed

  datatype Pull = Pull(number: nat, headSha: string, baseSha: string, state: PullState, draft: bool)

  datatype SkipReason = ClosedPull | Draft | Canary | ActivationBaseline | RepoNotAllowed

  datatype JobState = Queued | Leased | Running | ProviderDeferred

  /** A queue row. `leaseExpiresAt` is None when the column is empty. */
  datatype Job = Job(
    automatic: bool, baseSha: Option<string>, state: JobState, leaseExpiresAt: Option<Option<int>>, updatedAt: Option<int>)

  /** A processed review; `cooldown` is present when it was skipped for a provider cooldown. */
  datatype ProcessedReview = ProcessedReview(cooldown: Option<Option<int>>, activationBaseline: bool)

  datatype Env = Env(
    repoAllowed: string -> bool,
    scopedRepo: bool,
    scopedPull: bool,
    skipDrafts: bool,
    verifyCurrentHeads: bool,
    now: int,
    leaseTtlMs: int,
    listPulls: string -> Option<seq<Pull>>,
    livePull: (string, nat) -> Option<Pull>,
    canaryAllowed: (string, nat) -> bool,
    processed: (string, nat, string) -> Option<ProcessedReview>,
    jobs: (string, nat, string) -> seq<Job>,
    preActivation: (string, Pull) -> bool,
    repoCooldown: string -> bool,
    capacityDeferred: (string, nat, string) -> bool,
    providerCooldown: bool)

  // ---------------------------------------------------------------- current queue jobs

  predicate IsCurrent(job: Job, baseSha: string, now: int, leaseTtlMs: int) {
    if job.automatic && job.baseSha.Some? && job.baseSha.value != baseSha then false
    else if job.state != Leased && job.state != Running then true
    else match job.leaseExpiresAt
      case Some(at) => at.Some? && at.value > now
      case None => job.updatedAt.Some? && job.updatedAt.value > now - leaseTtlMs
  }

  /** A job that is being worked on although its lease has run out. */
  predicate LeaseExpired(job: Job, now: int, leaseTtlMs: int) {
    (job.state == Leased || job.state == Running)
    && match job.leaseExpiresAt
       case Some(at) => at.None? || at.value <= now
       case None => job.updatedAt.None? || job.updatedAt.value <= now - leaseTtlMs
  }

  function FirstCurrent(jobs: seq<Job>, baseSha: string, now: int, leaseTtlMs: int): Option<Job> {
    if jobs == [] then None
    else if IsCurrent(jobs[0], baseSha, now, leaseTtlMs) then Some(jobs[0])
    else FirstCurrent(jobs[1..], baseSha, now, leaseTtlMs)
  }

  function ActiveJob(env: Env, repo: string, p: Pull): Option<Job> {
    FirstCurrent(env.jobs(repo, p.number, p.headSha), p.baseSha, env.now, env.leaseTtlMs)
  }

  // ---------------------------------------------------------------- the report

  datatype Entry = Entry(repo: string, number: nat, headSha: string)

  /** A deferral; `processed` tells that the same head is also listed as processed. */
  datatype Deferral = Deferral(entry: Entry, processed: bool)

  datatype Skip = Skip(repo: string, reason: SkipReason, pull: Option<nat>)

  /** A read failure, of a whole repository or of one live pull. */
  datatype Failure = Failure(repo: string, pull: Option<nat>)

  datatype Report = Report(
    reposScanned: nat, pullsSeen: nat, processed: seq<Entry>, deferred: seq<Deferral>, queued: seq<Entry>,
    unprocessed: seq<Entry>, skipped: seq<Skip>, staleHeads: seq<Entry>, failures: seq<Failure>)

  const EMPTY := Report(0, 0, [], [], [], [], [], [], [])

  function EntryOf(repo: string, p: Pull): Entry { Entry(repo, p.number, p.headSha) }

  function PushSkipped(r: Report, repo: string, p: Pull, reason: SkipReason): Report {
    r.(skipped := r.skipped + [Skip(repo, reason, Some(p.number))])
  }

  function PushDeferred(r: Report, repo: string, p: Pull, processed: bool): Report {
    r.(deferred := r.deferred + [Deferral(EntryOf(repo, p), processed)])
  }

  function PushQueued(r: Report, repo: string, p: Pull, job: Job): Report {
    if job.state == ProviderDeferred then PushDeferred(r, repo, p, false)
    else r.(queued := r.queued + [EntryOf(repo, p)])
  }

  function PushProcessed(r: Report, repo: string, p: Pull, review: ProcessedReview, env: Env): Report {
    var listed := r.(processed := r.processed + [EntryOf(repo, p)]);
    if review.cooldown.Some? && review.cooldown.value.Some? && review.cooldown.value.value > env.now
    then PushDeferred(listed, repo, p, true)
    else listed
  }

  /** pushProcessedOrUnprocessed */
  function Place(r: Report, repo: string, p: Pull, env: Env): Report {
    var review, job := env.processed(repo, p.number, p.headSha), ActiveJob(env, repo, p);
    if review.Some? then
      if job.Some? && review.value.cooldown.Some? then PushQueued(r, repo, p, job.value)
      else PushProcessed(r, repo, p, review.value, env)
    else if job.Some? then PushQueued(r, repo, p, job.value)
    else if env.repoCooldown(repo) || env.capacityDeferred(repo, p.number, p.headSha) || env.providerCooldown
    then PushDeferred(r, repo, p, false)
    else r.(unprocessed := r.unprocessed + [EntryOf(repo, p)])
  }

  predicate IsStale(expected: Pull, live: Pull) {
    expected.headSha != live.headSha || expected.baseSha != live.baseSha || expected.state != live.state
  }

  function VerifyLive(r: Report, repo: string, p: Pull, env: Env): Report {
    match env.livePull(repo, p.number)
    case None => r.(failures := r.failures + [Failure(repo, Some(p.number))])
    case Some(live) =>
      if !IsStale(p, live) then Place(r, repo, p, env)
      else
        var s := r.(staleHeads := r.staleHeads + [EntryOf(repo, p)]);
        if live.state == Closed then PushSkipped(s, repo, live, ClosedPull)
        else if env.skipDrafts && live.draft then PushSkipped(s, repo, live, Draft)
        else Place(s, repo, live, env)
  }

  function AuditPull(r: Report, repo: string, p: Pull, env: Env): Report {
    var review, job := env.processed(repo, p.number, p.headSha), ActiveJob(env, repo, p);
    if p.state == Closed then PushSkipped(r, repo, p, ClosedPull)
    else if env.skipDrafts && p.draft then PushSkipped(r, repo, p, Draft)
    else if !env.canaryAllowed(repo, p.number) then PushSkipped(r, repo, p, Canary)
    else if job.Some? then PushQueued(r, repo, p, job.value)
    else if review.None? && env.preActivation(repo, p) then PushSkipped(r, repo, p, ActivationBaseline)
    else if env.verifyCurrentHeads && !env.scopedPull && !(review.Some? && review.value.activationBaseline)
    then VerifyLive(r, repo, p, env)
    else Place(r, repo, p, env)
  }

  function AuditPulls(r: Report, repo: string, pulls: seq<Pull>, env: Env): Report {
    if pulls == [] then r
    else AuditPull(AuditPulls(r, repo, pulls[..|pulls| - 1], env), repo, pulls[|pulls| - 1], env)
  }

  function AuditRepo(r: Report, repo: string, env: Env): Report {
    var s := r.(reposScanned := r.reposScanned + 1);
    if !env.repoAllowed(repo) then
      s.(skipped := s.skipped + [Skip(repo, RepoNotAllowed, None)],
         failures := s.failures + if env.scopedRepo then [Failure(repo, None)] else [])
    else match env.listPulls(repo)
      case None => s.(failures := s.failures + [Failure(repo, None)])
      case Some(pulls) => AuditPulls(s.(pullsSeen := s.pullsSeen + |pulls|), repo, pulls, env)
  }

  function AuditAll(repos: seq<string>, env: Env): Report {
    if repos == [] then EMPTY else AuditRepo(AuditAll(repos[..|repos| - 1], env), repos[|repos| - 1], env)
  }

  // ---------------------------------------------------------------- buckets

  function Count<T>(s: seq<T>, p: T -> bool): nat {
    if s == [] then 0 else Count(s[..|s| - 1], p) + (if p(s[|s| - 1]) then 1 else 0)
  }

  lemma CountOneMore<T>(s: seq<T>, x: T, p: T -> bool)
    ensures Count(s + [x], p) == Count(s, p) + if p(x) then 1 else 0
  {
  }

  predicate OfPull(s: Skip) { s.pull.Some? }

  predicate WithoutRecord(d: Deferral) { !d.processed }

  predicate OfLivePull(f: Failure) { f.pull.Some? }

  /** How many pulls lie in each bucket. */
  datatype Buckets = Buckets(processed: nat, queued: nat, unprocessed: nat, skipped: nat, deferred: nat, unread: nat)

  function BucketsOf(r: Report): Buckets {
    Buckets(|r.processed|, |r.queued|, |r.unprocessed|, Count(r.skipped, OfPull), Count(r.deferred, WithoutRecord),
            Count(r.failures, OfLivePull))
  }

  function Total(b: Buckets): nat { b.processed + b.queued + b.unprocessed + b.skipped + b.deferred + b.unread }

  datatype Bucket = ProcessedB | QueuedB | UnprocessedB | SkippedB | DeferredB | UnreadB

  function Add(b: Buckets, which: Bucket): Buckets {
    match which
    case ProcessedB => b.(processed := b.processed + 1)
    case QueuedB => b.(queued := b.queued + 1)
    case UnprocessedB => b.(unprocessed := b.unprocessed + 1)
    case SkippedB => b.(skipped := b.skipped + 1)
    case DeferredB => b.(deferred := b.deferred + 1)
    case UnreadB => b.(unread := b.unread + 1)
  }

  /** One bucket gains one pull, and nothing else changes in any bucket. */
  ghost predicate OneBucket(before: Report, after: Report) {
    exists which :: BucketsOf(after) == Add(BucketsOf(before), which)
  }

  lemma SkipFillsOne(r: Report, repo: string, p: Pull, reason: SkipReason)
    ensures BucketsOf(PushSkipped(r, repo, p, reason)) == Add(BucketsOf(r), SkippedB)
  {
  }

  lemma DeferFillsOne(r: Report, repo: string, p: Pull)
    ensures BucketsOf(PushDeferred(r, repo, p, false)) == Add(BucketsOf(r), DeferredB)
  {
  }

  lemma PlaceFillsOne(r: Report, repo: string, p: Pull, env: Env)
    ensures OneBucket(r, Place(r, repo, p, env))
    ensures Place(r, repo, p, env).pullsSeen == r.pullsSeen
  {
    var t := Place(r, repo, p, env);
    DeferFillsOne(r, repo, p);
    CountOneMore(r.deferred, Deferral(EntryOf(repo, p), true), WithoutRecord);
    hide ActiveJob, Count;
    if |t.processed| > |r.processed| {
      assert BucketsOf(t) == Add(BucketsOf(r), ProcessedB);
    } else if |t.queued| > |r.queued| {
      assert BucketsOf(t) == Add(BucketsOf(r), QueuedB);
    } else if |t.unprocessed| > |r.unprocessed| {
      assert BucketsOf(t) == Add(BucketsOf(r), UnprocessedB);
    } else {
      assert BucketsOf(t) == Add(BucketsOf(r), DeferredB);
    }
  }

  /** A job that still holds its head: its lease has not run out, and if it was made automatically it
      is for this base, or for none. */
  predicate HoldsHead(job: Job, baseSha: string, now: int, leaseTtlMs: int) {
    !LeaseExpired(job, now, leaseTtlMs) && (job.automatic ==> job.baseSha.None? || job.baseSha.value == baseSha)
  }

  ghost predicate FirstHolding(jobs: seq<Job>, baseSha: string, now: int, leaseTtlMs: int, k: int) {
    && 0 <= k < |jobs| && HoldsHead(jobs[k], baseSha, now, leaseTtlMs)
    && forall j :: 0 <= j < k ==> !HoldsHead(jobs[j], baseSha, now, leaseTtlMs)
  }

  /** The active job is the first row that holds the head; there is none if and only if no row does. */
  lemma {:induction false} FirstCurrentFinds(jobs: seq<Job>, baseSha: string, now: int, leaseTtlMs: int)
    ensures match FirstCurrent(jobs, baseSha, now, leaseTtlMs)
      case None => forall k :: 0 <= k < |jobs| ==> !HoldsHead(jobs[k], baseSha, now, leaseTtlMs)
      case Some(job) => exists k :: FirstHolding(jobs, baseSha, now, leaseTtlMs, k) && jobs[k] == job
  {
    if jobs != [] {
      var rest := jobs[1..];
      assert IsCurrent(jobs[0], baseSha, now, leaseTtlMs) <==> HoldsHead(jobs[0], baseSha, now, leaseTtlMs);
      hide IsCurrent, HoldsHead;
      FirstCurrentFinds(rest, baseSha, now, leaseTtlMs);
      assert forall k :: 0 < k < |jobs| ==> jobs[k] == rest[k - 1];
      if HoldsHead(jobs[0], baseSha, now, leaseTtlMs) {
        assert FirstHolding(jobs, baseSha, now, leaseTtlMs, 0);
      } else if FirstCurrent(rest, baseSha, now, leaseTtlMs).Some? {
        var k :| FirstHolding(rest, baseSha, now, leaseTtlMs, k) && Some(rest[k]) == FirstCurrent(rest, baseSha, now, leaseTtlMs);
        assert jobs[k + 1] == rest[k];
        assert FirstHolding(jobs, baseSha, now, leaseTtlMs, k + 1);
      }
    }
  }

  /** The first of the head's jobs that holds it. */
  ghost predicate WaitsFor(env: Env, repo: string, p: Pull, job: Job) {
    var jobs := env.jobs(repo, p.number, p.headSha);
    exists k :: FirstHolding(jobs, p.baseSha, env.now, env.leaseTtlMs, k) && jobs[k] == job
  }

  lemma ActiveJobIsWaitedFor(env: Env, repo: string, p: Pull)
    ensures forall job :: WaitsFor(env, repo, p, job) <==> ActiveJob(env, repo, p) == Some(job)
  {
    var jobs := env.jobs(repo, p.number, p.headSha);
    FirstCurrentFinds(jobs, p.baseSha, env.now, env.leaseTtlMs);
    hide HoldsHead, FirstCurrent;
    forall job | WaitsFor(env, repo, p, job) ensures ActiveJob(env, repo, p) == Some(job) {
      var i :| FirstHolding(jobs, p.baseSha, env.now, env.leaseTtlMs, i) && jobs[i] == job;
      var active := ActiveJob(env, repo, p).value;
      var k :| FirstHolding(jobs, p.baseSha, env.now, env.leaseTtlMs, k) && jobs[k] == active;
    }
  }

  function Here<T>(x: T, listed: bool): seq<T> { if listed then [x] else [] }

  /** What the placement of a head adds to each list. A head without a processed record, or skipped
      for a provider cooldown, waits for its job if it has one: deferred if the job is, else queued.
      Otherwise it is processed if it has a record, deferred under a cooldown, or unprocessed. */
  ghost predicate Placed(r: Report, t: Report, repo: string, p: Pull, env: Env) {
    var e, review := Entry(repo, p.number, p.headSha), env.processed(repo, p.number, p.headSha);
    var canWait := review.None? || review.value.cooldown.Some?;
    var queued := canWait && exists job :: WaitsFor(env, repo, p, job) && job.state != ProviderDeferred;
    var jobDeferred := canWait && exists job :: WaitsFor(env, repo, p, job) && job.state == ProviderDeferred;
    var waits := queued || jobDeferred;
    var cooling := env.repoCooldown(repo) || env.capacityDeferred(repo, p.number, p.headSha) || env.providerCooldown;
    && t.queued == r.queued + Here(e, queued)
    && t.processed == r.processed + Here(e, review.Some? && !waits)
    && t.unprocessed == r.unprocessed + Here(e, review.None? && !waits && !cooling)
    && t.deferred == r.deferred + Here(Deferral(e, false), jobDeferred || (review.None? && !waits && cooling))
                                + Here(Deferral(e, true), review.Some? && !waits && SkippedUntilLater(review.value, env.now))
    && t.(queued := [], processed := [], unprocessed := [], deferred := [])
       == r.(queued := [], processed := [], unprocessed := [], deferred := [])
  }

  predicate SkippedUntilLater(review: ProcessedReview, now: int) {
    match review.cooldown
    case Some(Some(until)) => until > now
    case _ => false
  }

  lemma PlacementMeans(r: Report, repo: string, p: Pull, env: Env)
    ensures Placed(r, Place(r, repo, p, env), repo, p, env)
  {
    ActiveJobIsWaitedFor(env, repo, p);
    hide WaitsFor, ActiveJob;
    if ActiveJob(env, repo, p).Some? { assert WaitsFor(env, repo, p, ActiveJob(env, repo, p).value); }
  }

  /** What a live read leads to: a failure is recorded; a head, base or state that has changed is
      recorded as stale and the live head is placed, unless it is closed or a draft; otherwise the
      listed head is placed. */
  lemma LiveHeadIsPlaced(r: Report, repo: string, p: Pull, env: Env)
    ensures var t := VerifyLive(r, repo, p, env);
      match env.livePull(repo, p.number)
      case None => t == r.(failures := r.failures + [Failure(repo, Some(p.number))])
      case Some(live) =>
        if live.headSha == p.headSha && live.baseSha == p.baseSha && live.state == p.state then Placed(r, t, repo, p, env)
        else
          var s := r.(staleHeads := r.staleHeads + [Entry(repo, p.number, p.headSha)]);
          if live.state == Closed then t == s.(skipped := s.skipped + [Skip(repo, ClosedPull, Some(live.number))])
          else if env.skipDrafts && live.draft then t == s.(skipped := s.skipped + [Skip(repo, Draft, Some(live.number))])
          else Placed(s, t, repo, live, env)
  {
    hide Place, Placed;
    PlacementMeans(r, repo, p, env);
    if env.livePull(repo, p.number).Some? {
      PlacementMeans(r.(staleHeads := r.staleHeads + [Entry(repo, p.number, p.headSha)]), repo,
                     env.livePull(repo, p.number).value, env);
    }
  }

  /** What the listed pull itself decides, before any live read: why it is skipped, or that its job
      lists it. */
  lemma AuditDecides(r: Report, repo: string, p: Pull, env: Env)
    ensures var t, review := AuditPull(r, repo, p, env), env.processed(repo, p.number, p.headSha);
      var waits := exists job :: WaitsFor(env, repo, p, job);
      var refused := p.state == Closed || (p.draft && env.skipDrafts) || !env.canaryAllowed(repo, p.number);
      var existing := !waits && review.None? && env.preActivation(repo, p);
      && (refused || existing ==>
            t == r.(skipped := r.skipped + [Skip(repo,
              if p.state == Closed then ClosedPull else if p.draft && env.skipDrafts then Draft
              else if !env.canaryAllowed(repo, p.number) then Canary else ActivationBaseline, Some(p.number))]))
      && (!refused && waits ==>
            || (t == r.(queued := r.queued + [Entry(repo, p.number, p.headSha)])
                && exists job :: WaitsFor(env, repo, p, job) && job.state != ProviderDeferred)
            || (t == r.(deferred := r.deferred + [Deferral(Entry(repo, p.number, p.headSha), false)])
                && exists job :: WaitsFor(env, repo, p, job) && job.state == ProviderDeferred))
      && (!refused && !waits && !existing ==>
            if env.verifyCurrentHeads && !env.scopedPull && !(review.Some? && review.value.activationBaseline)
            then t == VerifyLive(r, repo, p, env) else Placed(r, t, repo, p, env))
  {
    ActiveJobIsWaitedFor(env, repo, p);
    PlacementMeans(r, repo, p, env);
    hide WaitsFor, ActiveJob, Place, Placed, VerifyLive;
    if ActiveJob(env, repo, p).Some? { assert WaitsFor(env, repo, p, ActiveJob(env, repo, p).value); }
  }

  lemma QueueFillsOne(r: Report, repo: string, p: Pull, job: Job)
    ensures OneBucket(r, PushQueued(r, repo, p, job))
  {
    DeferFillsOne(r, repo, p);
    var t := PushQueued(r, repo, p, job);
    assert BucketsOf(t) == Add(BucketsOf(r), if job.state == ProviderDeferred then DeferredB else QueuedB);
  }

  lemma VerifyFillsOne(r: Report, repo: string, p: Pull, env: Env)
    ensures OneBucket(r, VerifyLive(r, repo, p, env))
    ensures VerifyLive(r, repo, p, env).pullsSeen == r.pullsSeen
  {
    var s := r.(staleHeads := r.staleHeads + [EntryOf(repo, p)]);
    assert BucketsOf(s) == BucketsOf(r);
    match env.livePull(repo, p.number)
    case None =>
      CountOneMore(r.failures, Failure(repo, Some(p.number)), OfLivePull);
      assert BucketsOf(VerifyLive(r, repo, p, env)) == Add(BucketsOf(r), UnreadB);
    case Some(live) =>
      PlaceFillsOne(r, repo, p, env);
      PlaceFillsOne(s, repo, live, env);
      SkipFillsOne(s, repo, live, ClosedPull);
      SkipFillsOne(s, repo, live, Draft);
      hide Place, BucketsOf;
      if IsStale(p, live) && (live.state == Closed || (env.skipDrafts && live.draft)) {
        assert BucketsOf(VerifyLive(r, repo, p, env)) == Add(BucketsOf(r), SkippedB);
      } else {
        assert OneBucket(if IsStale(p, live) then s else r, VerifyLive(r, repo, p, env));
      }
  }

  /** Auditing a pull adds it to exactly one bucket. */
  lemma PullFillsOne(r: Report, repo: string, p: Pull, env: Env)
    ensures OneBucket(r, AuditPull(r, repo, p, env))
    ensures AuditPull(r, repo, p, env).pullsSeen == r.pullsSeen
  {
    hide Place, VerifyLive, ActiveJob, BucketsOf;
    PlaceFillsOne(r, repo, p, env);
    VerifyFillsOne(r, repo, p, env);
    var job := ActiveJob(env, repo, p);
    if job.Some? { QueueFillsOne(r, repo, p, job.value); }
    forall reason { SkipFillsOne(r, repo, p, reason); }
  }

  lemma {:induction false} PullsFillBuckets(r: Report, repo: string, pulls: seq<Pull>, env: Env)
    ensures var t := AuditPulls(r, repo, pulls, env);
      Total(BucketsOf(t)) == Total(BucketsOf(r)) + |pulls| && t.pullsSeen == r.pullsSeen
  {
    hide AuditPull, BucketsOf;
    if pulls != [] {
      var init := pulls[..|pulls| - 1];
      PullsFillBuckets(r, repo, init, env);
      PullFillsOne(AuditPulls(r, repo, init, env), repo, pulls[|pulls| - 1], env);
    }
  }

  lemma RepoFillsBuckets(r: Report, repo: string, env: Env)
    requires Total(BucketsOf(r)) == r.pullsSeen
    ensures Total(BucketsOf(AuditRepo(r, repo, env))) == AuditRepo(r, repo, env).pullsSeen
  {
    hide AuditPulls;
    CountOneMore(r.skipped, Skip(repo, RepoNotAllowed, None), OfPull);
    CountOneMore(r.failures, Failure(repo, None), OfLivePull);
    assert r.failures + [] == r.failures;
    if env.repoAllowed(repo) && env.listPulls(repo).Some? {
      var pulls := env.listPulls(repo).value;
      var s := r.(reposScanned := r.reposScanned + 1, pullsSeen := r.pullsSeen + |pulls|);
      PullsFillBuckets(s, repo, pulls, env);
    }
  }

  /** Every pull seen lies in exactly one bucket: processed, queued, unprocessed, skipped, deferred
      without a processed record, or unreadable. */
  lemma {:induction false} EveryPullIsAccountedFor(repos: seq<string>, env: Env)
    ensures var r := AuditAll(repos, env);
      && Total(BucketsOf(r)) == r.pullsSeen
      && r.reposScanned == |repos|
  {
    if repos != [] {
      var init := repos[..|repos| - 1];
      EveryPullIsAccountedFor(init, env);
      RepoFillsBuckets(AuditAll(init, env), repos[|repos| - 1], env);
      ScansEachRepo(AuditAll(init, env), repos[|repos| - 1], env);
    }
  }

  lemma ScansEachRepo(r: Report, repo: string, env: Env)
    ensures AuditRepo(r, repo, env).reposScanned == r.reposScanned + 1
  {
    if env.repoAllowed(repo) && env.listPulls(repo).Some? {
      var pulls := env.listPulls(repo).value;
      PullsKeepScanned(r.(reposScanned := r.reposScanned + 1, pullsSeen := r.pullsSeen + |pulls|), repo, pulls, env);
    }
  }

  lemma {:induction false} PullsKeepScanned(r: Report, repo: string, pulls: seq<Pull>, env: Env)
    ensures AuditPulls(r, repo, pulls, env).reposScanned == r.reposScanned
  {
    if pulls != [] { PullsKeepScanned(r, repo, pulls[..|pulls| - 1], env); }
  }

  // ---------------------------------------------------------------- nothing is lost from the report

  /** Every list of the second report continues that of the first. */
  ghost predicate Continues(r: Report, t: Report) {
    && r.processed <= t.processed && r.deferred <= t.deferred && r.queued <= t.queued
    && r.unprocessed <= t.unprocessed && r.skipped <= t.skipped && r.staleHeads <= t.staleHeads
    && r.failures <= t.failures
  }

  /** What the report says of a repository as a whole: whether it is listed as not allowed, and as unread. */
  ghost predicate SaysOfRepo(r: Report, repo: string, refused: bool, unread: bool) {
    && (Skip(repo, RepoNotAllowed, None) in r.skipped <==> refused)
    && (Failure(repo, None) in r.failures <==> unread)
  }

  lemma PullContinues(r: Report, repo: string, p: Pull, env: Env, name: string, refused: bool, unread: bool)
    ensures var t := AuditPull(r, repo, p, env);
      Continues(r, t) && (SaysOfRepo(r, name, refused, unread) ==> SaysOfRepo(t, name, refused, unread))
  {
    PlaceContinues(r, repo, p, env);
    LiveContinues(r, repo, p, env, name, refused, unread);
    hide Place, ActiveJob, VerifyLive;
  }

  lemma LiveContinues(r: Report, repo: string, p: Pull, env: Env, name: string, refused: bool, unread: bool)
    ensures var t := VerifyLive(r, repo, p, env);
      Continues(r, t) && (SaysOfRepo(r, name, refused, unread) ==> SaysOfRepo(t, name, refused, unread))
  {
    PlaceContinues(r, repo, p, env);
    var live := env.livePull(repo, p.number);
    if live.Some? { PlaceContinues(r.(staleHeads := r.staleHeads + [EntryOf(repo, p)]), repo, live.value, env); }
    hide Place;
  }

  lemma PlaceContinues(r: Report, repo: string, p: Pull, env: Env)
    ensures var t := Place(r, repo, p, env);
      Continues(r, t) && t.skipped == r.skipped && t.failures == r.failures
  {
    hide ActiveJob;
  }

  lemma {:induction false} PullsContinue(
    r: Report, repo: string, pulls: seq<Pull>, env: Env, k: nat, name: string, refused: bool, unread: bool)
    requires k <= |pulls|
    ensures Continues(AuditPulls(r, repo, pulls[..k], env), AuditPulls(r, repo, pulls, env))
    ensures SaysOfRepo(r, name, refused, unread) ==> SaysOfRepo(AuditPulls(r, repo, pulls, env), name, refused, unread)
    decreases |pulls|
  {
    hide AuditPull, SaysOfRepo;
    if pulls != [] {
      var init, last := pulls[..|pulls| - 1], pulls[|pulls| - 1];
      PullContinues(AuditPulls(r, repo, init, env), repo, last, env, name, refused, unread);
      if k < |pulls| {
        PullsContinue(r, repo, init, env, k, name, refused, unread);
        assert init[..k] == pulls[..k];
      } else {
        PullsContinue(r, repo, init, env, |init|, name, refused, unread);
        assert pulls[..k] == pulls;
      }
    }
  }

  lemma RepoContinues(r: Report, repo: string, env: Env)
    ensures Continues(r, AuditRepo(r, repo, env))
  {
    if env.repoAllowed(repo) && env.listPulls(repo).Some? {
      var pulls := env.listPulls(repo).value;
      PullsContinue(r.(reposScanned := r.reposScanned + 1, pullsSeen := r.pullsSeen + |pulls|), repo, pulls, env, 0, "", false, false);
    }
  }

  lemma {:induction false} AuditContinues(repos: seq<string>, env: Env, i: nat)
    requires i <= |repos|
    ensures Continues(AuditAll(repos[..i], env), AuditAll(repos, env))
    decreases |repos|
  {
    hide AuditRepo;
    if i < |repos| {
      var init := repos[..|repos| - 1];
      AuditContinues(init, env, i);
      assert init[..i] == repos[..i];
      RepoContinues(AuditAll(init, env), repos[|repos| - 1], env);
    } else {
      assert repos[..i] == repos;
    }
  }

  /** Every pull of every readable repository is audited, and what its audit adds to the report is
      still there at the end. */
  lemma EachPullIsAudited(repos: seq<string>, env: Env, i: nat, k: nat)
    requires i < |repos| && env.repoAllowed(repos[i])
    requires env.listPulls(repos[i]).Some? && k < |env.listPulls(repos[i]).value|
    ensures exists before :: Continues(AuditPull(before, repos[i], env.listPulls(repos[i]).value[k], env), AuditAll(repos, env))
  {
    hide AuditPull, SaysOfRepo;
    var repo, pulls := repos[i], env.listPulls(repos[i]).value;
    var r := AuditAll(repos[..i], env);
    var s := r.(reposScanned := r.reposScanned + 1, pullsSeen := r.pullsSeen + |pulls|);
    var before := AuditPulls(s, repo, pulls[..k], env);
    PullsContinue(s, repo, pulls, env, k + 1, "", false, false);
    assert pulls[..k + 1][..k] == pulls[..k];
    assert repos[..i + 1][..i] == repos[..i];
    AuditContinues(repos, env, i + 1);
    assert Continues(AuditPull(before, repo, pulls[k], env), AuditAll(repos, env));
  }

  /** A repository is listed as not allowed exactly when it is scanned and its profile refuses it, and
      as unread exactly when its pulls cannot be listed, or it was asked for by name and is refused. */
  lemma {:induction false} UnreadReposAreReported(repos: seq<string>, env: Env, name: string)
    ensures SaysOfRepo(AuditAll(repos, env), name,
      name in repos && !env.repoAllowed(name),
      name in repos && if env.repoAllowed(name) then env.listPulls(name).None? else env.scopedRepo)
  {
    if repos != [] {
      var init, repo := repos[..|repos| - 1], repos[|repos| - 1];
      assert repos == init + [repo];
      UnreadReposAreReported(init, env, name);
      RepoSays(AuditAll(init, env), repo, env, name,
        name in init && !env.repoAllowed(name),
        name in init && if env.repoAllowed(name) then env.listPulls(name).None? else env.scopedRepo);
      hide AuditRepo, SaysOfRepo;
    }
  }

  lemma RepoSays(r: Report, repo: string, env: Env, name: string, refused: bool, unread: bool)
    requires SaysOfRepo(r, name, refused, unread)
    ensures SaysOfRepo(AuditRepo(r, repo, env), name,
      refused || (name == repo && !env.repoAllowed(name)),
      unread || (name == repo && if env.repoAllowed(name) then env.listPulls(name).None? else env.scopedRepo))
  {
    if env.repoAllowed(repo) && env.listPulls(repo).Some? {
      var pulls := env.listPulls(repo).value;
      var s := r.(reposScanned := r.reposScanned + 1, pullsSeen := r.pullsSeen + |pulls|);
      assert SaysOfRepo(s, name, refused, unread);
      PullsContinue(s, repo, pulls, env, 0, name, refused, unread);
    }
    hide AuditPulls;
  }

  // ---------------------------------------------------------------- expired leases hide nothing

  function WithoutExpired(jobs: seq<Job>, now: int, leaseTtlMs: int): seq<Job> {
    if jobs == [] then []
    else (if LeaseExpired(jobs[0], now, leaseTtlMs) then [] else [jobs[0]]) + WithoutExpired(jobs[1..], now, leaseTtlMs)
  }

  lemma {:induction false} ExpiredAreNeverCurrent(jobs: seq<Job>, baseSha: string, now: int, leaseTtlMs: int)
    ensures FirstCurrent(jobs, baseSha, now, leaseTtlMs)
            == FirstCurrent(WithoutExpired(jobs, now, leaseTtlMs), baseSha, now, leaseTtlMs)
  {
    if jobs != [] {
      ExpiredAreNeverCurrent(jobs[1..], baseSha, now, leaseTtlMs);
      var rest := WithoutExpired(jobs[1..], now, leaseTtlMs);
      assert ([jobs[0]] + rest)[1..] == rest && [] + rest == rest;
      assert LeaseExpired(jobs[0], now, leaseTtlMs) ==> !IsCurrent(jobs[0], baseSha, now, leaseTtlMs);
    }
  }

  /** The same world with every job whose lease has run out removed from the queue. */
  function Swept(env: Env): Env {
    env.(jobs := (repo: string, number: nat, headSha: string) =>
      WithoutExpired(env.jobs(repo, number, headSha), env.now, env.leaseTtlMs))
  }

  lemma SweptJob(env: Env, repo: string, p: Pull)
    ensures ActiveJob(Swept(env), repo, p) == ActiveJob(env, repo, p)
  {
    ExpiredAreNeverCurrent(env.jobs(repo, p.number, p.headSha), p.baseSha, env.now, env.leaseTtlMs);
  }

  /** An expired lease changes nothing about where any pull is placed; in particular it never hides
      an otherwise unprocessed head. */
  lemma ExpiredLeasesHideNothing(r: Report, repo: string, p: Pull, env: Env)
    ensures AuditPull(r, repo, p, env) == AuditPull(r, repo, p, Swept(env))
  {
    hide ActiveJob;
    SweptJob(env, repo, p);
    var live := env.livePull(repo, p.number);
    if live.Some? { SweptJob(env, repo, live.value); }
  }

  /** A head without a processed record whose jobs all have run-out leases, and that nothing else
      skips or defers, is reported unprocessed. */
  lemma UnprocessedHeadIsReported(r: Report, repo: string, p: Pull, env: Env)
    requires p.state != Closed && !(env.skipDrafts && p.draft) && env.canaryAllowed(repo, p.number)
    requires env.processed(repo, p.number, p.headSha).None? && !env.preActivation(repo, p)
    requires forall k :: 0 <= k < |env.jobs(repo, p.number, p.headSha)| ==>
               LeaseExpired(env.jobs(repo, p.number, p.headSha)[k], env.now, env.leaseTtlMs)
    requires !env.repoCooldown(repo) && !env.capacityDeferred(repo, p.number, p.headSha) && !env.providerCooldown
    requires env.verifyCurrentHeads && !env.scopedPull ==>
               env.livePull(repo, p.number).Some? && !IsStale(p, env.livePull(repo, p.number).value)
    ensures AuditPull(r, repo, p, env) == r.(unprocessed := r.unprocessed + [EntryOf(repo, p)])
  {
    AllExpiredIsNone(env.jobs(repo, p.number, p.headSha), p.baseSha, env.now, env.leaseTtlMs);
  }

  lemma {:induction false} AllExpiredIsNone(jobs: seq<Job>, baseSha: string, now: int, leaseTtlMs: int)
    requires forall k :: 0 <= k < |jobs| ==> LeaseExpired(jobs[k], now, leaseTtlMs)
    ensures FirstCurrent(jobs, baseSha, now, leaseTtlMs).None?
  {
    if jobs != [] {
      assert forall k :: 0 <= k < |jobs[1..]| ==> jobs[1..][k] == jobs[k + 1];
      AllExpiredIsNone(jobs[1..], baseSha, now, leaseTtlMs);
    }
  }

  // ---------------------------------------------------------------- the report object

  /** The report the source fills in place: its lists, and a summary counter beside each. */
  class CoverageAuditReport {
    var ok: bool
    var report: Report
    var processedCount: nat
    var deferredCount: nat
    var queuedCount: nat
    var unprocessedCount: nat
    var skippedCount: nat
    var staleCount: nat
    var failureCount: nat

    /** Every summary counter equals the length of its list. */
    ghost predicate Valid()
      reads this
    {
      && processedCount == |report.processed| && deferredCount == |report.deferred|
      && queuedCount == |report.queued| && unprocessedCount == |report.unprocessed|
      && skippedCount == |report.skipped| && staleCount == |report.staleHeads|
      && failureCount == |report.failures|
    }

    constructor ()
      ensures Valid() && report == EMPTY
    {
      ok, report := true, EMPTY;
      processedCount, deferredCount, queuedCount, unprocessedCount := 0, 0, 0, 0;
      skippedCount, staleCount, failureCount := 0, 0, 0;
    }

    method AddSkipped(repo: string, p: Pull, reason: SkipReason)
      requires Valid()
      modifies this
      ensures Valid() && report == PushSkipped(old(report), repo, p, reason)
    {
      report := report.(skipped := report.skipped + [Skip(repo, reason, Some(p.number))]);
      skippedCount := skippedCount + 1;
    }

    method AddDeferred(repo: string, p: Pull, processed: bool)
      requires Valid()
      modifies this
      ensures Valid() && report == PushDeferred(old(report), repo, p, processed)
    {
      report := report.(deferred := report.deferred + [Deferral(EntryOf(repo, p), processed)]);
      deferredCount := deferredCount + 1;
    }

    method AddQueued(repo: string, p: Pull, job: Job)
      requires Valid()
      modifies this
      ensures Valid() && report == PushQueued(old(report), repo, p, job)
    {
      if job.state == ProviderDeferred {
        AddDeferred(repo, p, false);
        return;
      }
      report := report.(queued := report.queued + [EntryOf(repo, p)]);
      queuedCount := queuedCount + 1;
    }

    method AddProcessedOrUnprocessed(repo: string, p: Pull, env: Env)
      requires Valid()
      modifies this
      ensures Valid() && report == Place(old(report), repo, p, env)
    {
      var review := env.processed(repo, p.number, p.headSha);
      var job := ActiveJob(env, repo, p);
      if review.Some? {
        if job.Some? && review.value.cooldown.Some? {
          AddQueued(repo, p, job.value);
          return;
        }
        report := report.(processed := report.processed + [EntryOf(repo, p)]);
        processedCount := processedCount + 1;
        var cooldown := review.value.cooldown;
        if cooldown.Some? && cooldown.value.Some? && cooldown.value.value > env.now { AddDeferred(repo, p, true); }
        return;
      }
      if job.Some? {
        AddQueued(repo, p, job.value);
        return;
      }
      if env.repoCooldown(repo) || env.capacityDeferred(repo, p.number, p.headSha) || env.providerCooldown {
        AddDeferred(repo, p, false);
        return;
      }
      report := report.(unprocessed := report.unprocessed + [EntryOf(repo, p)]);
      unprocessedCount := unprocessedCount + 1;
    }

    method AddPull(repo: string, p: Pull, env: Env)
      requires Valid()
      modifies this
      ensures Valid() && report == AuditPull(old(report), repo, p, env)
    {
      if p.state == Closed { AddSkipped(repo, p, ClosedPull); return; }
      if env.skipDrafts && p.draft { AddSkipped(repo, p, Draft); return; }
      if !env.canaryAllowed(repo, p.number) { AddSkipped(repo, p, Canary); return; }
      var job := ActiveJob(env, repo, p);
      if job.Some? { AddQueued(repo, p, job.value); return; }
      var review := env.processed(repo, p.number, p.headSha);
      if review.None? && env.preActivation(repo, p) { AddSkipped(repo, p, ActivationBaseline); return; }
      if env.verifyCurrentHeads && !env.scopedPull && !(review.Some? && review.value.activationBaseline) {
        AddLivePull(repo, p, env);
        return;
      }
      AddProcessedOrUnprocessed(repo, p, env);
    }

    method AddLivePull(repo: string, p: Pull, env: Env)
      requires Valid()
      modifies this
      ensures Valid() && report == VerifyLive(old(report), repo, p, env)
    {
      var live := env.livePull(repo, p.number);
      if live.None? {
        report := report.(failures := report.failures + [Failure(repo, Some(p.number))]);
        failureCount := failureCount + 1;
        return;
      }
      if IsStale(p, live.value) {
        report := report.(staleHeads := report.staleHeads + [EntryOf(repo, p)]);
        staleCount := staleCount + 1;
        if live.value.state == Closed { AddSkipped(repo, live.value, ClosedPull); return; }
        if env.skipDrafts && live.value.draft { AddSkipped(repo, live.value, Draft); return; }
        AddProcessedOrUnprocessed(repo, live.value, env);
        return;
      }
      AddProcessedOrUnprocessed(repo, p, env);
    }

    method AddRepo(repo: string, env: Env)
      requires Valid()
      modifies this
      ensures Valid() && report == AuditRepo(old(report), repo, env)
    {
      hide AuditPull;
      report := report.(reposScanned := report.reposScanned + 1);
      if !env.repoAllowed(repo) {
        report := report.(skipped := report.skipped + [Skip(repo, RepoNotAllowed, None)]);
        skippedCount := skippedCount + 1;
        if env.scopedRepo {
          report := report.(failures := report.failures + [Failure(repo, None)]);
          failureCount := failureCount + 1;
        } else {
          assert report.failures + [] == report.failures;
        }
        return;
      }
      var pulls := env.listPulls(repo);
      if pulls.None? {
        report := report.(failures := report.failures + [Failure(repo, None)]);
        failureCount := failureCount + 1;
        return;
      }
      report := report.(pullsSeen := report.pullsSeen + |pulls.value|);
      ghost var before := report;
      for i := 0 to |pulls.value|
        invariant Valid() && report == AuditPulls(before, repo, pulls.value[..i], env)
      {
        assert pulls.value[..i + 1][..i] == pulls.value[..i];
        AddPull(repo, pulls.value[i], env);
      }
      assert pulls.value[..|pulls.value|] == pulls.value;
    }

    method Collect(repos: seq<string>, env: Env)
      requires Valid() && report == EMPTY
      modifies this
      ensures Valid() && report == AuditAll(repos, env)
      ensures ok <==> report.unprocessed == [] && report.failures == []
      ensures processedCount + queuedCount + unprocessedCount + Count(report.skipped, OfPull)
              + Count(report.deferred, WithoutRecord) + Count(report.failures, OfLivePull) == report.pullsSeen
    {
      for i := 0 to |repos|
        invariant Valid() && report == AuditAll(repos[..i], env)
      {
        assert repos[..i + 1][..i] == repos[..i];
        AddRepo(repos[i], env);
      }
      assert repos[..|repos|] == repos;
      ok := unprocessedCount == 0 && failureCount == 0;
      EveryPullIsAccountedFor(repos, env);
    }
  }
}
