/** The two-level installation-token cache (src/github.ts, getInstallationToken and
  getInstallationTokenForId).

  Requests interleave at their awaits: looking up the installation and minting a token. The
  per-repository map and the per-(repository, installation) map are shared, and the latter is
  keyed by a string built from both. Time never goes back; a token is known by its text.
*/
module TokenCache {
  import opened Basics
  import opened Scanner
  import opened Decimal

  type Repo = string

  const MARGIN_MS := 60_000

  datatype CachedToken = CachedToken(token: string, expiresAt: int)

  datatype RepoToken = RepoToken(installationId: nat, token: string, expiresAt: int)

  datatype Caches = Caches(installationTokens: map<string, CachedToken>, repoTokens: map<Repo, RepoToken>)

  // ---------------------------------------------------------------- the cache key

  function CacheKey(repo: Repo, installationId: nat): string {
    repo + (":" + Numeral(installationId))
  }

  /** The key determines the repository and the installation, even if a name contains a colon. */
  lemma CacheKeyInjective(r1: Repo, i1: nat, r2: Repo, i2: nat)
    requires CacheKey(r1, i1) == CacheKey(r2, i2)
    ensures r1 == r2 && i1 == i2
  {
    hide Numeral, Value;
    NumeralReadsBack(i1);
    NumeralReadsBack(i2);
    var n1, n2 := Numeral(i1), Numeral(i2);
    var k := CacheKey(r1, i1);
    assert k[|r1|] == ':' && k[|r2|] == ':';
    assert forall j :: |r1| < j < |k| ==> IsDigit(k[j]);
    assert forall j :: |r2| < j < |k| ==> IsDigit(k[j]);
    assert |r1| == |r2|;
    assert r1 == k[..|r1|] == k[..|r2|] == r2;
    assert n1 == k[|r1| + 1..] == k[|r2| + 1..] == n2;
  }

  // ---------------------------------------------------------------- the synchronous sections

  predicate Live(expiresAt: int, now: int) { expiresAt > now + MARGIN_MS }

  /** getInstallationToken up to its first await: a live entry of the repository. */
  function ForRepo(c: Caches, repo: Repo, now: int): Option<RepoToken> {
    if repo in c.repoTokens && Live(c.repoTokens[repo].expiresAt, now) then Some(c.repoTokens[repo]) else None
  }

  /** getInstallationTokenForId up to its await: a live entry of either map, copied to the repository. */
  function ForInstallation(c: Caches, repo: Repo, installationId: nat, now: int): (Caches, Option<RepoToken>) {
    if repo in c.repoTokens && c.repoTokens[repo].installationId == installationId
       && Live(c.repoTokens[repo].expiresAt, now)
    then (c, Some(c.repoTokens[repo]))
    else
      var key := CacheKey(repo, installationId);
      if key in c.installationTokens && Live(c.installationTokens[key].expiresAt, now) then
        var entry := RepoToken(installationId, c.installationTokens[key].token, c.installationTokens[key].expiresAt);
        (c.(repoTokens := c.repoTokens[repo := entry]), Some(entry))
      else (c, None)
  }

  /** After a mint: both maps take the new token. */
  function Store(c: Caches, repo: Repo, installationId: nat, token: string, expiresAt: int): Caches {
    Caches(c.installationTokens[CacheKey(repo, installationId) := CachedToken(token, expiresAt)],
           c.repoTokens[repo := RepoToken(installationId, token, expiresAt)])
  }

  // ---------------------------------------------------------------- interleaved requests

  datatype Phase =
    | AwaitingInstallation
    | AwaitingMint(installationId: nat)
    | Returned(answer: RepoToken, at: int, ownMint: bool)
    | Failed

  datatype Request = Request(repo: Repo, phase: Phase)

  /** A token the server issued for a repository through an installation. */
  datatype Mint = Mint(repo: Repo, issued: RepoToken)

  datatype State = State(caches: Caches, now: int, requests: map<nat, Request>, mints: set<Mint>)

  datatype Event =
    | Tick(elapsed: nat)
    | Ask(id: nat, repo: Repo)
    | AskFor(id: nat, repo: Repo, installationId: nat)
    | Located(id: nat, installationId: nat)
    | Issued(id: nat, token: string, expiresAt: int)
    | Throws(id: nat)

  predicate Enabled(s: State, e: Event) {
    match e
    case Tick(_) => true
    case Ask(id, _) => id !in s.requests
    case AskFor(id, _, _) => id !in s.requests
    case Located(id, _) => id in s.requests && s.requests[id].phase.AwaitingInstallation?
    case Issued(id, _, _) => id in s.requests && s.requests[id].phase.AwaitingMint?
    case Throws(id) => id in s.requests && (s.requests[id].phase.AwaitingInstallation? || s.requests[id].phase.AwaitingMint?)
  }

  function Answer(s: State, id: nat, repo: Repo, installationId: nat): State {
    var (caches, found) := ForInstallation(s.caches, repo, installationId, s.now);
    var phase := match found case Some(entry) => Returned(entry, s.now, false) case None => AwaitingMint(installationId);
    s.(caches := caches, requests := s.requests[id := Request(repo, phase)])
  }

  function Step(s: State, e: Event): State
    requires Enabled(s, e)
  {
    match e
    case Tick(elapsed) => s.(now := s.now + elapsed)
    case Ask(id, repo) =>
      var phase := match ForRepo(s.caches, repo, s.now)
        case Some(entry) => Returned(entry, s.now, false)
        case None => AwaitingInstallation;
      s.(requests := s.requests[id := Request(repo, phase)])
    case AskFor(id, repo, installationId) => Answer(s, id, repo, installationId)
    case Located(id, installationId) => Answer(s, id, s.requests[id].repo, installationId)
    case Issued(id, token, expiresAt) =>
      var repo, installationId := s.requests[id].repo, s.requests[id].phase.installationId;
      var issued := RepoToken(installationId, token, expiresAt);
      State(Store(s.caches, repo, installationId, token, expiresAt), s.now,
            s.requests[id := Request(repo, Returned(issued, s.now, true))],
            s.mints + {Mint(repo, issued)})
    case Throws(id) => s.(requests := s.requests[id := s.requests[id].(phase := Failed)])
  }

  ghost predicate IsRun(s: State, events: seq<Event>)
    decreases |events|
  {
    events == [] || (Enabled(s, events[0]) && IsRun(Step(s, events[0]), events[1..]))
  }

  ghost function After(s: State, events: seq<Event>): State
    requires IsRun(s, events)
    decreases |events|
  {
    if events == [] then s else After(Step(s, events[0]), events[1..])
  }

  function Fresh(now: int): State { State(Caches(map[], map[]), now, map[], {}) }

  // ---------------------------------------------------------------- the invariant

  /** The repository's entry equals the entry of the installation it names. */
  ghost predicate LevelsAgree(c: Caches) {
    forall repo :: repo in c.repoTokens ==>
      var entry := c.repoTokens[repo];
      var key := CacheKey(repo, entry.installationId);
      key in c.installationTokens && c.installationTokens[key] == CachedToken(entry.token, entry.expiresAt)
  }

  /** Whatever is cached for a repository and an installation was issued for exactly those. */
  ghost predicate CachedWereIssued(c: Caches, mints: set<Mint>) {
    forall repo, id: nat :: CacheKey(repo, id) in c.installationTokens ==>
      var entry := c.installationTokens[CacheKey(repo, id)];
      Mint(repo, RepoToken(id, entry.token, entry.expiresAt)) in mints
  }

  ghost predicate AnswersAreSound(s: State) {
    forall id :: id in s.requests && s.requests[id].phase.Returned? ==>
      var p := s.requests[id].phase;
      Mint(s.requests[id].repo, p.answer) in s.mints && (p.ownMint || Live(p.answer.expiresAt, p.at))
  }

  ghost predicate Inv(s: State) {
    LevelsAgree(s.caches) && CachedWereIssued(s.caches, s.mints) && AnswersAreSound(s)
  }

  lemma StoreKeepsLevels(c: Caches, repo: Repo, installationId: nat, token: string, expiresAt: int)
    requires LevelsAgree(c)
    ensures LevelsAgree(Store(c, repo, installationId, token, expiresAt))
  {
    hide CacheKey;
    var d := Store(c, repo, installationId, token, expiresAt);
    forall r | r in d.repoTokens
      ensures var entry := d.repoTokens[r];
        var key := CacheKey(r, entry.installationId);
        key in d.installationTokens && d.installationTokens[key] == CachedToken(entry.token, entry.expiresAt)
    {
      var entry := d.repoTokens[r];
      if r != repo && CacheKey(r, entry.installationId) == CacheKey(repo, installationId) {
        CacheKeyInjective(r, entry.installationId, repo, installationId);
      }
    }
  }

  lemma StoreKeepsIssued(c: Caches, mints: set<Mint>, repo: Repo, installationId: nat, token: string, expiresAt: int)
    requires CachedWereIssued(c, mints)
    ensures CachedWereIssued(Store(c, repo, installationId, token, expiresAt),
                             mints + {Mint(repo, RepoToken(installationId, token, expiresAt))})
  {
    hide CacheKey;
    var d := Store(c, repo, installationId, token, expiresAt);
    forall r, id: nat | CacheKey(r, id) in d.installationTokens
      ensures var entry := d.installationTokens[CacheKey(r, id)];
        Mint(r, RepoToken(id, entry.token, entry.expiresAt))
        in mints + {Mint(repo, RepoToken(installationId, token, expiresAt))}
    {
      if CacheKey(r, id) == CacheKey(repo, installationId) {
        CacheKeyInjective(r, id, repo, installationId);
      }
    }
  }

  lemma AnswerKeepsInv(s: State, id: nat, repo: Repo, installationId: nat)
    requires Inv(s)
    ensures Inv(Answer(s, id, repo, installationId))
  {
  }

  lemma StepKeepsInv(s: State, e: Event)
    requires Inv(s) && Enabled(s, e)
    ensures Inv(Step(s, e))
  {
    hide CacheKey;
    match e
    case Tick(_) =>
    case Ask(id, repo) =>
      var found := ForRepo(s.caches, repo, s.now);
      if found.Some? { assert CacheKey(repo, found.value.installationId) in s.caches.installationTokens; }
    case AskFor(id, repo, installationId) => AnswerKeepsInv(s, id, repo, installationId);
    case Located(id, installationId) => AnswerKeepsInv(s, id, s.requests[id].repo, installationId);
    case Issued(id, token, expiresAt) =>
      var repo, installationId := s.requests[id].repo, s.requests[id].phase.installationId;
      StoreKeepsLevels(s.caches, repo, installationId, token, expiresAt);
      StoreKeepsIssued(s.caches, s.mints, repo, installationId, token, expiresAt);
    case Throws(_) =>
  }

  lemma {:induction false} RunKeepsInv(s: State, events: seq<Event>)
    requires Inv(s) && IsRun(s, events)
    ensures Inv(After(s, events))
    decreases |events|
  {
    hide Inv, Step, Enabled;
    if events != [] {
      StepKeepsInv(s, events[0]);
      RunKeepsInv(Step(s, events[0]), events[1..]);
    }
  }

  // ---------------------------------------------------------------- results

  /** In every interleaving, a returned token was issued for the requested repository, and unless
      this very call had it issued it was good for more than a minute when it was handed out. */
  lemma ReturnedTokensAreSound(now: int, events: seq<Event>, id: nat)
    requires IsRun(Fresh(now), events)
    requires var s := After(Fresh(now), events); id in s.requests && s.requests[id].phase.Returned?
    ensures var s := After(Fresh(now), events);
            var p := s.requests[id].phase;
            && Mint(s.requests[id].repo, p.answer) in s.mints
            && (p.ownMint || p.answer.expiresAt > p.at + 60_000)
  {
    RunKeepsInv(Fresh(now), events);
  }

  /** In every interleaving, a repository's entry is the entry of the installation it refers to. */
  lemma CacheLevelsAgree(now: int, events: seq<Event>, repo: Repo)
    requires IsRun(Fresh(now), events)
    requires repo in After(Fresh(now), events).caches.repoTokens
    ensures var c := After(Fresh(now), events).caches;
            var entry := c.repoTokens[repo];
            var key := CacheKey(repo, entry.installationId);
            key in c.installationTokens && c.installationTokens[key] == CachedToken(entry.token, entry.expiresAt)
  {
    RunKeepsInv(Fresh(now), events);
  }

  /** A token is asked from the server only when neither level has a live one for that repository
      and installation. */
  lemma MintsOnlyWithoutLiveEntry(now: int, events: seq<Event>, e: Event)
    requires IsRun(Fresh(now), events) && Enabled(After(Fresh(now), events), e)
    requires e.AskFor? || e.Located?
    ensures var s := After(Fresh(now), events);
            var repo := if e.AskFor? then e.repo else s.requests[e.id].repo;
            var key := CacheKey(repo, e.installationId);
            Step(s, e).requests[e.id].phase.AwaitingMint? <==>
              !(key in s.caches.installationTokens && Live(s.caches.installationTokens[key].expiresAt, s.now))
  {
    RunKeepsInv(Fresh(now), events);
    hide CacheKey, After, IsRun;
    var s := After(Fresh(now), events);
    var repo := if e.AskFor? then e.repo else s.requests[e.id].repo;
    assert repo in s.caches.repoTokens ==>
             CacheKey(repo, s.caches.repoTokens[repo].installationId) in s.caches.installationTokens;
  }

  // ---------------------------------------------------------------- minted tokens are kept and reused

  /** After a mint both levels hold exactly the issued token, the caller gets it, and every other
      entry of both maps is as it was. */
  lemma IssuedIsStored(s: State, e: Event)
    requires Enabled(s, e) && e.Issued?
    ensures var repo, installationId := s.requests[e.id].repo, s.requests[e.id].phase.installationId;
      var t, key := Step(s, e), CacheKey(repo, installationId);
      var issued := RepoToken(installationId, e.token, e.expiresAt);
      && repo in t.caches.repoTokens && t.caches.repoTokens[repo] == issued
      && key in t.caches.installationTokens && t.caches.installationTokens[key] == CachedToken(e.token, e.expiresAt)
      && t.requests[e.id].phase == Returned(issued, s.now, true)
      && t.caches.repoTokens - {repo} == s.caches.repoTokens - {repo}
      && t.caches.installationTokens - {key} == s.caches.installationTokens - {key}
  {
    hide CacheKey;
  }

  ghost predicate Reachable(s: State) {
    exists now, events :: IsRun(Fresh(now), events) && After(Fresh(now), events) == s
  }

  lemma ReachableInv(s: State)
    requires Reachable(s)
    ensures Inv(s)
  {
    var now, events :| IsRun(Fresh(now), events) && After(Fresh(now), events) == s;
    RunKeepsInv(Fresh(now), events);
  }

  predicate MintsFor(s: State, e: Event, repo: Repo)
    requires Enabled(s, e)
  {
    e.Issued? && s.requests[e.id].repo == repo
  }

  /** No event of the run mints a token for the repository. */
  ghost predicate NoMintFor(s: State, events: seq<Event>, repo: Repo)
    requires IsRun(s, events)
    decreases |events|
  {
    events == [] || (!MintsFor(s, events[0], repo) && NoMintFor(Step(s, events[0]), events[1..], repo))
  }

  /** The event asks for a token of the repository through the named installation. */
  predicate AsksThrough(s: State, e: Event, repo: Repo, installationId: nat)
    requires Enabled(s, e)
  {
    || (e.AskFor? && e.repo == repo && e.installationId == installationId)
    || (e.Located? && s.requests[e.id].repo == repo && e.installationId == installationId)
  }

  /** A live cached token of an installation, which a request through it copies to the repository. */
  predicate HasLive(s: State, repo: Repo, installationId: nat) {
    var key := CacheKey(repo, installationId);
    key in s.caches.installationTokens && Live(s.caches.installationTokens[key].expiresAt, s.now)
  }

  function BoundAfter(s: State, e: Event, repo: Repo, bound: nat): nat
    requires Enabled(s, e)
  {
    if (e.AskFor? || e.Located?) && AsksThrough(s, e, repo, e.installationId) && HasLive(s, repo, e.installationId)
    then e.installationId else bound
  }

  /** The installation the repository's entry refers to at the end of a run without mints for it: the
      last one a request was answered through from the cache, or the one it starts with. */
  ghost function LastBound(s: State, events: seq<Event>, repo: Repo, bound: nat): nat
    requires IsRun(s, events)
    decreases |events|
  {
    if events == [] then bound
    else LastBound(Step(s, events[0]), events[1..], repo, BoundAfter(s, events[0], repo, bound))
  }

  lemma StepBinds(s: State, e: Event, repo: Repo)
    requires Inv(s) && Enabled(s, e) && repo in s.caches.repoTokens && !MintsFor(s, e, repo)
    ensures var t := Step(s, e);
      && repo in t.caches.repoTokens
      && t.caches.repoTokens[repo].installationId == BoundAfter(s, e, repo, s.caches.repoTokens[repo].installationId)
  {
    hide CacheKey;
    var entry := s.caches.repoTokens[repo];
    assert CacheKey(repo, entry.installationId) in s.caches.installationTokens;
  }

  /** Without a mint for a repository its installation entries stay as they are. */
  lemma StepKeepsInstallationEntry(s: State, e: Event, repo: Repo, installationId: nat)
    requires Enabled(s, e) && !MintsFor(s, e, repo) && CacheKey(repo, installationId) in s.caches.installationTokens
    ensures var t, key := Step(s, e), CacheKey(repo, installationId);
      key in t.caches.installationTokens && t.caches.installationTokens[key] == s.caches.installationTokens[key]
  {
    hide CacheKey;
    if e.Issued? {
      var r, i := s.requests[e.id].repo, s.requests[e.id].phase.installationId;
      if CacheKey(r, i) == CacheKey(repo, installationId) { CacheKeyInjective(r, i, repo, installationId); }
    }
  }

  lemma {:induction false} EntriesFollow(s: State, events: seq<Event>, repo: Repo, installationId: nat)
    requires Inv(s) && IsRun(s, events) && NoMintFor(s, events, repo) && repo in s.caches.repoTokens
    requires CacheKey(repo, installationId) in s.caches.installationTokens
    ensures var t, key := After(s, events), CacheKey(repo, installationId);
      && Inv(t)
      && repo in t.caches.repoTokens
      && t.caches.repoTokens[repo].installationId == LastBound(s, events, repo, s.caches.repoTokens[repo].installationId)
      && key in t.caches.installationTokens && t.caches.installationTokens[key] == s.caches.installationTokens[key]
    decreases |events|
  {
    hide Step, Enabled, Inv, CacheKey, BoundAfter, MintsFor;
    if events != [] {
      StepKeepsInv(s, events[0]);
      StepBinds(s, events[0], repo);
      StepKeepsInstallationEntry(s, events[0], repo, installationId);
      EntriesFollow(Step(s, events[0]), events[1..], repo, installationId);
    }
  }

  /** After a mint, and until the next one for the repository, a request that names the repository is
      answered with that token at once if and only if the token is live and the repository's entry
      was last bound to its installation; one that also names the installation, if and only if it
      is live. */
  lemma MintedTokenIsReused(s: State, e: Event, events: seq<Event>, id: nat)
    requires Reachable(s) && Enabled(s, e) && e.Issued?
    requires var repo := s.requests[e.id].repo;
      IsRun(Step(s, e), events) && NoMintFor(Step(s, e), events, repo) && id !in After(Step(s, e), events).requests
    ensures var repo, installationId := s.requests[e.id].repo, s.requests[e.id].phase.installationId;
      var issued := RepoToken(installationId, e.token, e.expiresAt);
      var u := After(Step(s, e), events);
      var answer := Returned(issued, u.now, false);
      && (Step(u, Ask(id, repo)).requests[id].phase == answer
          <==> Live(issued.expiresAt, u.now) && LastBound(Step(s, e), events, repo, installationId) == installationId)
      && (Step(u, AskFor(id, repo, installationId)).requests[id].phase == answer <==> Live(issued.expiresAt, u.now))
  {
    var repo, installationId := s.requests[e.id].repo, s.requests[e.id].phase.installationId;
    ReachableInv(s);
    StepKeepsInv(s, e);
    IssuedIsStored(s, e);
    EntriesFollow(Step(s, e), events, repo, installationId);
    hide CacheKey, CachedWereIssued, AnswersAreSound, LastBound, NoMintFor, IsRun, After;
    var u := After(Step(s, e), events);
    assert LevelsAgree(u.caches);
    var entry := u.caches.repoTokens[repo];
    assert CacheKey(repo, entry.installationId) in u.caches.installationTokens;
  }

  /** No request for the repository goes through another installation. */
  ghost predicate OnlyThrough(s: State, events: seq<Event>, repo: Repo, installationId: nat)
    requires IsRun(s, events)
    decreases |events|
  {
    events == []
    || ((forall other :: other != installationId ==> !AsksThrough(s, events[0], repo, other))
        && OnlyThrough(Step(s, events[0]), events[1..], repo, installationId))
  }

  lemma {:induction false} OnlyThroughStaysBound(s: State, events: seq<Event>, repo: Repo, installationId: nat)
    requires IsRun(s, events) && OnlyThrough(s, events, repo, installationId)
    ensures LastBound(s, events, repo, installationId) == installationId
    decreases |events|
  {
    if events != [] {
      hide Step, Enabled, HasLive;
      assert BoundAfter(s, events[0], repo, installationId) == installationId;
      OnlyThroughStaysBound(Step(s, events[0]), events[1..], repo, installationId);
    }
  }

  /** As long as the repository is served through one installation, a minted token answers every
      request for the repository at once while it is live. */
  lemma LiveTokenAnswersAtOnce(s: State, e: Event, events: seq<Event>, id: nat)
    requires Reachable(s) && Enabled(s, e) && e.Issued?
    requires var repo, installationId := s.requests[e.id].repo, s.requests[e.id].phase.installationId;
      var t := Step(s, e);
      && IsRun(t, events) && NoMintFor(t, events, repo) && OnlyThrough(t, events, repo, installationId)
      && id !in After(t, events).requests && Live(e.expiresAt, After(t, events).now)
    ensures var repo, installationId := s.requests[e.id].repo, s.requests[e.id].phase.installationId;
      var u := After(Step(s, e), events);
      Step(u, Ask(id, repo)).requests[id].phase == Returned(RepoToken(installationId, e.token, e.expiresAt), u.now, false)
  {
    hide Live, OnlyThrough, NoMintFor;
    var repo, installationId := s.requests[e.id].repo, s.requests[e.id].phase.installationId;
    OnlyThroughStaysBound(Step(s, e), events, repo, installationId);
    MintedTokenIsReused(s, e, events, id);
  }

  /** A first request through an installation, answered by a mint. */
  function MintEvents(id: nat, repo: Repo, i: nat, token: string, expiresAt: int): seq<Event> {
    [AskFor(id, repo, i), Issued(id, token, expiresAt)]
  }

  lemma MintAlone(s: State, id: nat, repo: Repo, i: nat, token: string, expiresAt: int)
    requires LevelsAgree(s.caches) && id !in s.requests && !HasLive(s, repo, i)
    ensures IsRun(s, MintEvents(id, repo, i, token, expiresAt))
    ensures var t := After(s, MintEvents(id, repo, i, token, expiresAt));
      && t.caches == Store(s.caches, repo, i, token, expiresAt) && LevelsAgree(t.caches)
      && t.now == s.now && t.requests.Keys == s.requests.Keys + {id}
  {
    hide CacheKey, Live;
    StoreKeepsLevels(s.caches, repo, i, token, expiresAt);
    var e0, e1 := AskFor(id, repo, i), Issued(id, token, expiresAt);
    var t := Step(s, e0);
    assert repo in s.caches.repoTokens ==> CacheKey(repo, s.caches.repoTokens[repo].installationId) in s.caches.installationTokens;
    assert t.caches == s.caches && t.requests[id].phase == AwaitingMint(i);
    RunOfOne(t, e1, []);
    RunOfOne(s, e0, [e1]);
    assert [e0, e1] == [e0] + [e1] && [e1] == [e1] + [];
  }

  /** A request through an installation with a live token rebinds the repository to it. */
  lemma RequestRebinds(s: State, id: nat, repo: Repo, j: nat)
    requires LevelsAgree(s.caches) && id !in s.requests && HasLive(s, repo, j)
    ensures var t := Step(s, AskFor(id, repo, j));
      var cached := s.caches.installationTokens[CacheKey(repo, j)];
      && repo in t.caches.repoTokens && t.caches.repoTokens[repo] == RepoToken(j, cached.token, cached.expiresAt)
      && t.requests.Keys == s.requests.Keys + {id} && t.now == s.now
  {
    hide CacheKey;
  }

  lemma LiveEntryAnswers(s: State, id: nat, repo: Repo)
    requires id !in s.requests && repo in s.caches.repoTokens && Live(s.caches.repoTokens[repo].expiresAt, s.now)
    ensures Step(s, Ask(id, repo)).requests[id].phase == Returned(s.caches.repoTokens[repo], s.now, false)
  {
  }

  /** The condition on installations is needed: a request through another installation with a live
      token rebinds the repository, without any mint, so the token minted last is not returned. */
  lemma RepositoryCanBeRebound(now: int, repo: Repo, i: nat, j: nat, a: string, b: string, expiresAt: int)
    requires i != j && a != b && Live(expiresAt, now)
    ensures var events := MintEvents(0, repo, j, b, expiresAt) + (MintEvents(1, repo, i, a, expiresAt) + [AskFor(2, repo, j)]);
      && IsRun(Fresh(now), events) && Enabled(After(Fresh(now), events), Ask(3, repo))
      && Step(After(Fresh(now), events), Ask(3, repo)).requests[3].phase == Returned(RepoToken(j, b, expiresAt), now, false)
  {
    var first, second, last := MintEvents(0, repo, j, b, expiresAt), MintEvents(1, repo, i, a, expiresAt), AskFor(2, repo, j);
    TwoMints(now, repo, i, j, a, b, expiresAt);
    hide IsRun, After, CacheKey, MintEvents, Live, HasLive, LevelsAgree, Step, Enabled;
    var s := After(Fresh(now), first);
    var t := After(s, second);
    RequestRebinds(t, 2, repo, j);
    LiveEntryAnswers(Step(t, last), 3, repo);
    OneMore(s, second, last);
    RunThenRun(Fresh(now), first, second + [last]);
    CanAsk(Step(t, last), 3, repo);
  }

  lemma CanAsk(s: State, id: nat, repo: Repo)
    requires id !in s.requests
    ensures Enabled(s, Ask(id, repo))
  {
  }

  lemma OneMore(s: State, events: seq<Event>, last: Event)
    requires IsRun(s, events) && Enabled(After(s, events), last)
    ensures IsRun(s, events + [last]) && After(s, events + [last]) == Step(After(s, events), last)
  {
    hide Step, Enabled;
    var t := After(s, events);
    RunNothing(Step(t, last));
    RunOfOne(t, last, []);
    assert [last] + [] == [last];
    RunThenRun(s, events, [last]);
  }

  /** Two mints for one repository through different installations; the first token stays cached. */
  lemma TwoMints(now: int, repo: Repo, i: nat, j: nat, a: string, b: string, expiresAt: int)
    requires i != j && Live(expiresAt, now)
    ensures var first, second := MintEvents(0, repo, j, b, expiresAt), MintEvents(1, repo, i, a, expiresAt);
      IsRun(Fresh(now), first) && IsRun(After(Fresh(now), first), second)
    ensures var t := After(After(Fresh(now), MintEvents(0, repo, j, b, expiresAt)), MintEvents(1, repo, i, a, expiresAt));
      && LevelsAgree(t.caches) && HasLive(t, repo, j) && t.now == now && t.requests.Keys == {0, 1}
      && t.caches.installationTokens[CacheKey(repo, j)] == CachedToken(b, expiresAt)
      && Enabled(t, AskFor(2, repo, j))
  {
    MintAlone(Fresh(now), 0, repo, j, b, expiresAt);
    hide IsRun, After, MintEvents, Step;
    if CacheKey(repo, i) == CacheKey(repo, j) { CacheKeyInjective(repo, i, repo, j); }
    hide CacheKey;
    MintAlone(After(Fresh(now), MintEvents(0, repo, j, b, expiresAt)), 1, repo, i, a, expiresAt);
  }

  lemma RunNothing(s: State)
    ensures IsRun(s, []) && After(s, []) == s
  {
  }

  lemma {:induction false} RunThenRun(s: State, first: seq<Event>, second: seq<Event>)
    requires IsRun(s, first) && IsRun(After(s, first), second)
    ensures IsRun(s, first + second) && After(s, first + second) == After(After(s, first), second)
    decreases |first|
  {
    hide Step, Enabled;
    if first == [] {
      assert first + second == second;
    } else {
      RunThenRun(Step(s, first[0]), first[1..], second);
      RunOfOne(s, first[0], first[1..] + second);
      assert first + second == [first[0]] + (first[1..] + second);
    }
  }

  lemma RunOfOne(s: State, e: Event, rest: seq<Event>)
    requires Enabled(s, e) && IsRun(Step(s, e), rest)
    ensures IsRun(s, [e] + rest) && After(s, [e] + rest) == After(Step(s, e), rest)
  {
    assert ([e] + rest)[1..] == rest;
  }

  // ---------------------------------------------------------------- the two maps, updated in place

  class InstallationTokens {
    var installationTokens: map<string, CachedToken>
    var repoInstallationTokens: map<Repo, RepoToken>

    function Value(): Caches
      reads this
    {
      Caches(installationTokens, repoInstallationTokens)
    }

    constructor ()
      ensures Value() == Caches(map[], map[]) && LevelsAgree(Value())
    {
      installationTokens, repoInstallationTokens := map[], map[];
    }

    method CachedForRepo(repo: Repo, now: int) returns (found: Option<RepoToken>)
      requires LevelsAgree(Value())
      ensures found == ForRepo(Value(), repo, now)
    {
      found := None;
      if repo in repoInstallationTokens && repoInstallationTokens[repo].expiresAt > now + MARGIN_MS {
        found := Some(repoInstallationTokens[repo]);
      }
    }

    method CachedForId(repo: Repo, installationId: nat, now: int) returns (found: Option<RepoToken>)
      requires LevelsAgree(Value())
      modifies this`repoInstallationTokens
      ensures (Value(), found) == ForInstallation(old(Value()), repo, installationId, now)
      ensures LevelsAgree(Value())
    {
      if repo in repoInstallationTokens {
        var repoCached := repoInstallationTokens[repo];
        if repoCached.installationId == installationId && repoCached.expiresAt > now + MARGIN_MS {
          return Some(repoCached);
        }
      }
      var tokenCacheKey := CacheKey(repo, installationId);
      if tokenCacheKey in installationTokens {
        var cached := installationTokens[tokenCacheKey];
        if cached.expiresAt > now + MARGIN_MS {
          var entry := RepoToken(installationId, cached.token, cached.expiresAt);
          repoInstallationTokens := repoInstallationTokens[repo := entry];
          return Some(entry);
        }
      }
      return None;
    }

    method StoreMinted(repo: Repo, installationId: nat, token: string, expiresAt: int)
      requires LevelsAgree(Value())
      modifies this
      ensures Value() == Store(old(Value()), repo, installationId, token, expiresAt)
      ensures LevelsAgree(Value())
    {
      StoreKeepsLevels(Value(), repo, installationId, token, expiresAt);
      installationTokens := installationTokens[CacheKey(repo, installationId) := CachedToken(token, expiresAt)];
      repoInstallationTokens := repoInstallationTokens[repo := RepoToken(installationId, token, expiresAt)];
    }
  }
}
