/** Which related references a review packet may name (src/github-related-context.ts): the coverage
  check, the item limit, the fetch loop and the byte budget.

  A reference stands for its identifier. Lower-casing, the coverage answer for a repository (an
  error counts as no), the fetch outcome, the relevance order, the omission order and the rendered
  size are fields of an environment. Extraction has already removed repeated identifiers.
*/
module RelatedContext {
  import opened Basics
  import Sorting

  datatype Ref = Ref(repo: string, number: nat)

  datatype Reason = CrossRepoDisabled | ReferenceLimit | FetchFailed | RateLimited | BudgetExceeded

  datatype Omitted = Omitted(ref: Ref, reason: Reason)

  datatype Fetch = Item | NotReturned | RateLimit | Error

  datatype Config = Config(includeCrossRepoRefs: bool, maxRelatedItems: nat, maxPacketBytes: nat, conceal: bool)

  datatype Env = Env(
    home: string,
    lower: string -> string,
    repositoryCovered: Option<string -> bool>,
    fetch: Ref -> Fetch,
    relevance: (Ref, Ref) -> bool,
    omissionOrder: (Omitted, Omitted) -> bool,
    size: (seq<Ref>, seq<Omitted>) -> nat,
    secretFree: (seq<Ref>, seq<Omitted>) -> bool)

  const MAX_COVERAGE_CHECKED_REPOSITORIES := 10

  function Select<T>(s: seq<T>, keep: T -> bool): seq<T> {
    if s == [] then [] else Select(s[..|s| - 1], keep) + (if keep(s[|s| - 1]) then [s[|s| - 1]] else [])
  }

  ghost predicate NoRepeats<T>(s: seq<T>) {
    forall i, j :: 0 <= i < j < |s| ==> s[i] != s[j]
  }

  function Key(r: Ref, env: Env): string { env.lower(r.repo) }

  predicate AtHome(r: Ref, env: Env) { Key(r, env) == env.lower(env.home) }

  // ---------------------------------------------------------------- scope

  function InScope(config: Config, env: Env): Ref -> bool {
    (r: Ref) => AtHome(r, env) || config.includeCrossRepoRefs
  }

  function OutOfScope(config: Config, env: Env): Ref -> bool {
    (r: Ref) => !(AtHome(r, env) || config.includeCrossRepoRefs)
  }

  // ---------------------------------------------------------------- the coverage check

  /** `answers` holds the repositories asked about, by lower-cased name; `asked` lists the calls. */
  datatype Coverage = Coverage(
    covered: seq<Ref>, unchecked: seq<Ref>, answers: map<string, bool>, asked: seq<string>, otherRepos: nat)

  const NO_COVERAGE := Coverage([], [], map[], [], 0)

  function Accept(c: Coverage, r: Ref, yes: bool): Coverage {
    if yes then c.(covered := c.covered + [r]) else c
  }

  function Check(c: Coverage, r: Ref, config: Config, env: Env): Coverage {
    match env.repositoryCovered
    case None => Accept(c, r, true)
    case Some(callback) =>
      var key := Key(r, env);
      if key in c.answers then Accept(c, r, c.answers[key])
      else if !AtHome(r, env)
              && (|c.covered| >= config.maxRelatedItems || c.otherRepos >= MAX_COVERAGE_CHECKED_REPOSITORIES)
      then c.(unchecked := c.unchecked + [r])
      else
        var answer := callback(r.repo);
        Accept(c.(answers := c.answers[key := answer], asked := c.asked + [r.repo],
                  otherRepos := c.otherRepos + (if AtHome(r, env) then 0 else 1)), r, answer)
  }

  function Cover(refs: seq<Ref>, config: Config, env: Env): Coverage {
    if refs == [] then NO_COVERAGE else Check(Cover(refs[..|refs| - 1], config, env), refs[|refs| - 1], config, env)
  }

  method CheckCoverage(refs: seq<Ref>, config: Config, env: Env) returns (c: Coverage)
    ensures c == Cover(refs, config, env)
  {
    var coveredRefs: seq<Ref>, uncheckedRefs: seq<Ref>, coverage: map<string, bool> := [], [], map[];
    var asked: seq<string>, checkedOtherRepos := [], 0;
    for i := 0 to |refs|
      invariant Coverage(coveredRefs, uncheckedRefs, coverage, asked, checkedOtherRepos) == Cover(refs[..i], config, env)
    {
      assert refs[..i + 1][..i] == refs[..i];
      var r := refs[i];
      if env.repositoryCovered.None? {
        coveredRefs := coveredRefs + [r];
        continue;
      }
      var repoKey := env.lower(r.repo);
      if repoKey !in coverage {
        var otherRepo := repoKey != env.lower(env.home);
        if otherRepo && |coveredRefs| >= config.maxRelatedItems {
          uncheckedRefs := uncheckedRefs + [r];
          continue;
        }
        if otherRepo && checkedOtherRepos >= MAX_COVERAGE_CHECKED_REPOSITORIES {
          uncheckedRefs := uncheckedRefs + [r];
          continue;
        }
        if otherRepo { checkedOtherRepos := checkedOtherRepos + 1; }
        asked := asked + [r.repo];
        coverage := coverage[repoKey := env.repositoryCovered.value(r.repo)];
      }
      if coverage[repoKey] { coveredRefs := coveredRefs + [r]; }
    }
    assert refs[..|refs|] == refs;
    c := Coverage(coveredRefs, uncheckedRefs, coverage, asked, checkedOtherRepos);
  }

  function AnsweredYes(c: Coverage, env: Env): Ref -> bool {
    (r: Ref) => Key(r, env) in c.answers && c.answers[Key(r, env)]
  }

  function Unanswered(c: Coverage, env: Env): Ref -> bool { (r: Ref) => Key(r, env) !in c.answers }

  /** Once a reference has gone unchecked, no other repository will be asked about. */
  ghost predicate Closed(c: Coverage, config: Config, env: Env) {
    && (c.unchecked != [] ==>
          |c.covered| >= config.maxRelatedItems || c.otherRepos >= MAX_COVERAGE_CHECKED_REPOSITORIES)
    && (forall k :: 0 <= k < |c.unchecked| ==> !AtHome(c.unchecked[k], env) && Key(c.unchecked[k], env) !in c.answers)
  }

  lemma {:induction false} CoverIsClosed(refs: seq<Ref>, config: Config, env: Env)
    ensures Closed(Cover(refs, config, env), config, env)
  {
    if refs != [] { CoverIsClosed(refs[..|refs| - 1], config, env); }
  }

  ghost predicate Exact(refs: seq<Ref>, c: Coverage, env: Env) {
    c.covered == Select(refs, AnsweredYes(c, env)) && c.unchecked == Select(refs, Unanswered(c, env))
  }

  /** With a callback, the loop keeps exactly the references of repositories answered yes, and leaves
      unchecked exactly those of repositories never asked about, judged by the final answers. */
  lemma {:induction false} CoverageIsExact(refs: seq<Ref>, config: Config, env: Env)
    requires env.repositoryCovered.Some?
    ensures Exact(refs, Cover(refs, config, env), env)
  {
    if refs != [] {
      hide Check, Exact;
      var init, r := refs[..|refs| - 1], refs[|refs| - 1];
      CoverageIsExact(init, config, env);
      CheckStaysExact(init, r, config, env);
      assert refs == init + [r];
    } else {
      assert Cover(refs, config, env) == NO_COVERAGE;
    }
  }

  lemma CheckStaysExact(init: seq<Ref>, r: Ref, config: Config, env: Env)
    requires env.repositoryCovered.Some? && Exact(init, Cover(init, config, env), env)
    ensures Exact(init + [r], Check(Cover(init, config, env), r, config, env), env)
  {
    hide Cover, Select;
    var before := Cover(init, config, env);
    var c := Check(before, r, config, env);
    var key := Key(r, env);
    if key !in before.answers && key in c.answers { AskedKeyIsNew(init, r, config, env); }
    assert forall x :: x in init ==> AnsweredYes(before, env)(x) == AnsweredYes(c, env)(x);
    assert forall x :: x in init ==> Unanswered(before, env)(x) == Unanswered(c, env)(x);
    SelectAgree(init, AnsweredYes(before, env), AnsweredYes(c, env));
    SelectAgree(init, Unanswered(before, env), Unanswered(c, env));
    SelectOneMore(init, r, AnsweredYes(c, env));
    SelectOneMore(init, r, Unanswered(c, env));
  }

  /** When a repository is asked about, no earlier reference belongs to it. */
  lemma AskedKeyIsNew(init: seq<Ref>, r: Ref, config: Config, env: Env)
    requires env.repositoryCovered.Some?
    requires var c := Cover(init, config, env);
      && c.unchecked == Select(init, Unanswered(c, env))
      && Key(r, env) !in c.answers && Key(r, env) in Check(c, r, config, env).answers
    ensures forall x :: x in init ==> Key(x, env) != Key(r, env)
  {
    hide Cover, Select;
    var c := Cover(init, config, env);
    CoverIsClosed(init, config, env);
    forall x | x in init ensures Key(x, env) != Key(r, env) {
      KeysAskedOrUnchecked(init, x, c, env);
    }
  }

  lemma KeysAskedOrUnchecked(refs: seq<Ref>, x: Ref, c: Coverage, env: Env)
    requires x in refs && c.unchecked == Select(refs, Unanswered(c, env))
    ensures Key(x, env) in c.answers || x in c.unchecked
  {
    SelectMembers(refs, Unanswered(c, env), x);
  }

  lemma {:induction false} SelectMembers<T>(s: seq<T>, p: T -> bool, x: T)
    ensures x in Select(s, p) <==> x in s && p(x)
  {
    if s != [] {
      SelectMembers(s[..|s| - 1], p, x);
      assert s == s[..|s| - 1] + [s[|s| - 1]];
    }
  }

  lemma {:induction false} SelectAgree<T>(s: seq<T>, p: T -> bool, q: T -> bool)
    requires forall x :: x in s ==> p(x) == q(x)
    ensures Select(s, p) == Select(s, q)
  {
    if s != [] { SelectAgree(s[..|s| - 1], p, q); }
  }

  /** What the log of calls says: one call per repository, at most ten of them to other repositories,
      and the recorded answer is the callback's. */
  ghost predicate CallsAreBounded(c: Coverage, env: Env)
    requires env.repositoryCovered.Some?
  {
    && AskedOnce(c.asked, env)
    && AnswersRecorded(c.asked, c.answers, env, env.repositoryCovered.value)
    && c.otherRepos == |Select(c.asked, Elsewhere(env))| <= MAX_COVERAGE_CHECKED_REPOSITORIES
  }

  ghost predicate AskedOnce(asked: seq<string>, env: Env) {
    forall i, j :: 0 <= i < j < |asked| ==> env.lower(asked[i]) != env.lower(asked[j])
  }

  ghost predicate AnswersRecorded(asked: seq<string>, answers: map<string, bool>, env: Env, callback: string -> bool) {
    && (forall i :: 0 <= i < |asked| ==>
          env.lower(asked[i]) in answers && answers[env.lower(asked[i])] == callback(asked[i]))
    && (forall key :: key in answers ==> exists i :: 0 <= i < |asked| && env.lower(asked[i]) == key)
  }

  function Elsewhere(env: Env): string -> bool { (repo: string) => env.lower(repo) != env.lower(env.home) }

  /** A new call, made about a repository that has not been asked about. */
  lemma CallKeepsRecord(asked: seq<string>, answers: map<string, bool>, repo: string, env: Env, callback: string -> bool)
    requires AskedOnce(asked, env) && AnswersRecorded(asked, answers, env, callback) && env.lower(repo) !in answers
    ensures AskedOnce(asked + [repo], env)
    ensures AnswersRecorded(asked + [repo], answers[env.lower(repo) := callback(repo)], env, callback)
  {
    var more, now := asked + [repo], answers[env.lower(repo) := callback(repo)];
    assert env.lower(more[|asked|]) == env.lower(repo);
    forall key | key in now ensures exists i :: 0 <= i < |more| && env.lower(more[i]) == key {
      if key in answers {
        var i :| 0 <= i < |asked| && env.lower(asked[i]) == key;
        assert more[i] == asked[i];
      }
    }
  }

  lemma {:induction false} CoverageCallsBounded(refs: seq<Ref>, config: Config, env: Env)
    requires env.repositoryCovered.Some?
    ensures CallsAreBounded(Cover(refs, config, env), env)
  {
    if refs != [] {
      var init, r := refs[..|refs| - 1], refs[|refs| - 1];
      CoverageCallsBounded(init, config, env);
      CheckKeepsBounds(Cover(init, config, env), r, config, env);
    }
  }

  lemma CheckKeepsBounds(c: Coverage, r: Ref, config: Config, env: Env)
    requires env.repositoryCovered.Some? && CallsAreBounded(c, env)
    ensures CallsAreBounded(Check(c, r, config, env), env)
  {
    hide AskedOnce, AnswersRecorded;
    if Key(r, env) !in c.answers {
      CallKeepsRecord(c.asked, c.answers, r.repo, env, env.repositoryCovered.value);
      SelectOneMore(c.asked, r.repo, Elsewhere(env));
    }
  }

  lemma SelectOneMore<T>(s: seq<T>, x: T, p: T -> bool)
    ensures Select(s + [x], p) == Select(s, p) + if p(x) then [x] else []
  {
  }

  // ---------------------------------------------------------------- the fetch loop

  datatype Fetched = Fetched(found: seq<Ref>, omitted: seq<Omitted>)

  function AllOmitted(refs: seq<Ref>, reason: Reason): seq<Omitted> {
    seq(|refs|, k requires 0 <= k < |refs| => Omitted(refs[k], reason))
  }

  function FetchAll(refs: seq<Ref>, env: Env): Fetched {
    if refs == [] then Fetched([], [])
    else match env.fetch(refs[0])
      case RateLimit => Fetched([], AllOmitted(refs, RateLimited))
      case Item =>
        var later := FetchAll(refs[1..], env);
        later.(found := [refs[0]] + later.found)
      case _ =>
        var later := FetchAll(refs[1..], env);
        later.(omitted := [Omitted(refs[0], FetchFailed)] + later.omitted)
  }

  method FetchReferences(boundedRefs: seq<Ref>, env: Env) returns (result: Fetched)
    ensures result == FetchAll(boundedRefs, env)
  {
    var found: seq<Ref>, omitted: seq<Omitted> := [], [];
    for index := 0 to |boundedRefs|
      invariant FetchAll(boundedRefs, env) ==
                Fetched(found + FetchAll(boundedRefs[index..], env).found,
                        omitted + FetchAll(boundedRefs[index..], env).omitted)
    {
      var r := boundedRefs[index];
      assert boundedRefs[index..][1..] == boundedRefs[index + 1..];
      match env.fetch(r) {
        case Item => found := found + [r];
        case RateLimit =>
          return Fetched(found, omitted + AllOmitted(boundedRefs[index..], RateLimited));
        case NotReturned => omitted := omitted + [Omitted(r, FetchFailed)];
        case Error => omitted := omitted + [Omitted(r, FetchFailed)];
      }
    }
    result := Fetched(found, omitted);
  }

  /** The loop gets as far as the `k`-th reference: no earlier request met a rate limit. */
  ghost predicate Reached(refs: seq<Ref>, k: nat, env: Env) {
    forall j :: 0 <= j < k && j < |refs| ==> !env.fetch(refs[j]).RateLimit?
  }

  /** The loop reaches the reference, and the request for it has this outcome. */
  ghost predicate Meets(refs: seq<Ref>, x: Ref, outcome: Fetch, env: Env) {
    exists k :: 0 <= k < |refs| && refs[k] == x && Reached(refs, k, env) && env.fetch(x) == outcome
  }

  /** A rate limit takes the reference that met it and all later ones. */
  ghost predicate HitsRateLimit(refs: seq<Ref>, x: Ref, env: Env) {
    exists k :: 0 <= k < |refs| && refs[k] == x && !Reached(refs, k + 1, env)
  }

  /** What each fetch outcome does to a reference, in both directions. */
  lemma {:induction false} FetchOutcomes(refs: seq<Ref>, env: Env, x: Ref)
    ensures var f := FetchAll(refs, env);
      && (x in f.found <==> Meets(refs, x, Item, env))
      && (Omitted(x, FetchFailed) in f.omitted <==> Meets(refs, x, NotReturned, env) || Meets(refs, x, Error, env))
      && (Omitted(x, RateLimited) in f.omitted <==> HitsRateLimit(refs, x, env))
      && forall o :: o in f.omitted ==> o.reason.FetchFailed? || o.reason.RateLimited?
  {
    if refs != [] {
      MeetsByHead(refs, x, Item, env);
      MeetsByHead(refs, x, NotReturned, env);
      MeetsByHead(refs, x, Error, env);
      HitsByHead(refs, x, env);
      if env.fetch(refs[0]).RateLimit? {
        assert forall k :: 0 <= k < |refs| ==> AllOmitted(refs, RateLimited)[k] == Omitted(refs[k], RateLimited);
      } else {
        hide Meets, HitsRateLimit;
        FetchOutcomes(refs[1..], env, x);
      }
    }
  }

  lemma ReachedByHead(refs: seq<Ref>, k: nat, env: Env)
    requires refs != []
    ensures Reached(refs, k + 1, env) <==> !env.fetch(refs[0]).RateLimit? && Reached(refs[1..], k, env)
  {
    var rest := refs[1..];
    if !env.fetch(refs[0]).RateLimit? && Reached(rest, k, env) {
      forall j | 0 <= j < k + 1 && j < |refs| ensures !env.fetch(refs[j]).RateLimit? {
        if j > 0 { assert refs[j] == rest[j - 1]; }
      }
    }
    if Reached(refs, k + 1, env) {
      forall j | 0 <= j < k && j < |rest| ensures !env.fetch(rest[j]).RateLimit? { assert rest[j] == refs[j + 1]; }
    }
  }

  lemma MeetsByHead(refs: seq<Ref>, x: Ref, outcome: Fetch, env: Env)
    requires refs != []
    ensures Meets(refs, x, outcome, env) <==> ((refs[0] == x && env.fetch(x) == outcome)
              || (!env.fetch(refs[0]).RateLimit? && Meets(refs[1..], x, outcome, env)))
  {
    assert Reached(refs, 0, env);
    hide Reached;
    var rest := refs[1..];
    if Meets(refs, x, outcome, env) {
      var k :| 0 <= k < |refs| && refs[k] == x && Reached(refs, k, env) && env.fetch(x) == outcome;
      if k > 0 {
        ReachedByHead(refs, k - 1, env);
        assert rest[k - 1] == x;
      }
    }
    if !env.fetch(refs[0]).RateLimit? && Meets(rest, x, outcome, env) {
      var k :| 0 <= k < |rest| && rest[k] == x && Reached(rest, k, env) && env.fetch(x) == outcome;
      ReachedByHead(refs, k, env);
      assert refs[k + 1] == x;
    }
  }

  lemma HitsByHead(refs: seq<Ref>, x: Ref, env: Env)
    requires refs != []
    ensures HitsRateLimit(refs, x, env)
      <==> if env.fetch(refs[0]).RateLimit? then x in refs else HitsRateLimit(refs[1..], x, env)
  {
    var rest := refs[1..];
    assert Reached(rest, 0, env);
    hide Reached;
    forall k: nat ensures Reached(refs, k + 1, env) <==> !env.fetch(refs[0]).RateLimit? && Reached(rest, k, env) {
      ReachedByHead(refs, k, env);
    }
    if x in refs {
      var k :| 0 <= k < |refs| && refs[k] == x;
      assert env.fetch(refs[0]).RateLimit? ==> !Reached(refs, k + 1, env);
    }
    if HitsRateLimit(refs, x, env) {
      var k :| 0 <= k < |refs| && refs[k] == x && !Reached(refs, k + 1, env);
      if k > 0 { assert rest[k - 1] == x; }
    }
    if HitsRateLimit(rest, x, env) {
      var k :| 0 <= k < |rest| && rest[k] == x && !Reached(rest, k + 1, env);
      assert refs[k + 1] == x;
    }
  }

  function Refs(omitted: seq<Omitted>): seq<Ref> {
    seq(|omitted|, k requires 0 <= k < |omitted| => omitted[k].ref)
  }

  lemma RefsJoin(a: seq<Omitted>, b: seq<Omitted>)
    ensures Refs(a + b) == Refs(a) + Refs(b)
  {
  }

  lemma {:induction false} FetchConserves(refs: seq<Ref>, env: Env)
    ensures multiset(FetchAll(refs, env).found) + multiset(Refs(FetchAll(refs, env).omitted)) == multiset(refs)
  {
    if refs != [] {
      assert refs == [refs[0]] + refs[1..];
      if env.fetch(refs[0]).RateLimit? {
        assert Refs(AllOmitted(refs, RateLimited)) == refs;
      } else {
        FetchConserves(refs[1..], env);
        RefsJoin([Omitted(refs[0], FetchFailed)], FetchAll(refs[1..], env).omitted);
        assert Refs([Omitted(refs[0], FetchFailed)]) == [refs[0]];
      }
    }
  }

  // ---------------------------------------------------------------- the byte budget

  /** The omission list once all but the first `n` references have been trimmed. */
  function Trimmed(refs: seq<Ref>, omitted: seq<Omitted>, n: nat, env: Env): seq<Omitted>
    requires n <= |refs|
    decreases |refs| - n
  {
    if n == |refs| then Sorting.Sort(omitted, env.omissionOrder)
    else Sorting.Sort(Trimmed(refs, omitted, n + 1, env) + [Omitted(refs[n], BudgetExceeded)], env.omissionOrder)
  }

  predicate FitsAt(refs: seq<Ref>, omitted: seq<Omitted>, n: nat, maxBytes: nat, env: Env)
    requires n <= |refs|
  {
    env.size(refs[..n], Trimmed(refs, omitted, n, env)) <= maxBytes
  }

  /** `n` is the length of the longest prefix that fits, or zero when none does. */
  ghost predicate LongestFit(refs: seq<Ref>, omitted: seq<Omitted>, n: nat, maxBytes: nat, env: Env) {
    && n <= |refs|
    && (FitsAt(refs, omitted, n, maxBytes, env) || n == 0)
    && forall m :: n < m <= |refs| ==> !FitsAt(refs, omitted, m, maxBytes, env)
  }

  datatype Budgeted = Budgeted(references: seq<Ref>, omitted: seq<Omitted>)

  /** Trimming keeps the longest prefix whose rendering, omissions included, fits the budget; only
      when none fits, not even the empty one, is the result over budget. */
  method RenderWithinBudget(refs: seq<Ref>, omitted: seq<Omitted>, maxBytes: nat, env: Env) returns (b: Budgeted)
    ensures b.references <= refs && b.omitted == Trimmed(refs, omitted, |b.references|, env)
    ensures LongestFit(refs, omitted, |b.references|, maxBytes, env)
  {
    var references := refs;
    var omittedReferences := Sorting.Sort(omitted, env.omissionOrder);
    while true
      invariant references <= refs
      invariant omittedReferences == Trimmed(refs, omitted, |references|, env)
      invariant forall m :: |references| < m <= |refs| ==> !FitsAt(refs, omitted, m, maxBytes, env)
      decreases |references|
    {
      assert references == refs[..|references|];
      if env.size(references, omittedReferences) <= maxBytes || |references| == 0 {
        return Budgeted(references, omittedReferences);
      }
      var last := references[|references| - 1];
      references := references[..|references| - 1];
      omittedReferences := Sorting.Sort(omittedReferences + [Omitted(last, BudgetExceeded)], env.omissionOrder);
    }
  }

  lemma {:induction false} RefsOfInsert(x: Omitted, s: seq<Omitted>, le: (Omitted, Omitted) -> bool)
    ensures multiset(Refs(Sorting.Insert(x, s, le))) == multiset(Refs([x] + s))
  {
    if s == [] || le(x, s[0]) {
    } else {
      RefsOfInsert(x, s[1..], le);
      RefsJoin([s[0]], Sorting.Insert(x, s[1..], le));
      RefsJoin([x], s[1..]);
      RefsJoin([x], s);
      RefsJoin([s[0]], s[1..]);
      assert s == [s[0]] + s[1..];
    }
  }

  lemma {:induction false} RefsOfSort(s: seq<Omitted>, le: (Omitted, Omitted) -> bool)
    ensures multiset(Refs(Sorting.Sort(s, le))) == multiset(Refs(s))
  {
    if s != [] {
      RefsOfSort(s[1..], le);
      RefsOfInsert(s[0], Sorting.Sort(s[1..], le), le);
      RefsJoin([s[0]], Sorting.Sort(s[1..], le));
      RefsJoin([s[0]], s[1..]);
      assert s == [s[0]] + s[1..];
    }
  }

  lemma {:induction false} TrimConserves(refs: seq<Ref>, omitted: seq<Omitted>, n: nat, env: Env)
    requires n <= |refs|
    ensures multiset(refs[..n]) + multiset(Refs(Trimmed(refs, omitted, n, env))) == multiset(refs) + multiset(Refs(omitted))
    decreases |refs| - n
  {
    if n == |refs| {
      RefsOfSort(omitted, env.omissionOrder);
      assert refs[..n] == refs;
    } else {
      TrimConserves(refs, omitted, n + 1, env);
      var later, last := Trimmed(refs, omitted, n + 1, env), [Omitted(refs[n], BudgetExceeded)];
      RefsOfSort(later + last, env.omissionOrder);
      RefsJoin(later, last);
      assert Refs(last) == [refs[n]];
      assert refs[..n + 1] == refs[..n] + [refs[n]];
    }
  }

  /** Trimming adds an omission for each trimmed reference, and no other. */
  lemma {:induction false} TrimmedMembers(refs: seq<Ref>, omitted: seq<Omitted>, n: nat, env: Env, o: Omitted)
    requires n <= |refs|
    ensures o in Trimmed(refs, omitted, n, env) <==> (o in omitted || (o.reason.BudgetExceeded? && o.ref in refs[n..]))
    decreases |refs| - n
  {
    if n == |refs| {
      SortKeepsMembers(omitted, env.omissionOrder, o);
    } else {
      TrimmedMembers(refs, omitted, n + 1, env, o);
      SortKeepsMembers(Trimmed(refs, omitted, n + 1, env) + [Omitted(refs[n], BudgetExceeded)], env.omissionOrder, o);
      assert refs[n..] == [refs[n]] + refs[n + 1..];
    }
  }

  lemma SortKeepsMembers<T>(s: seq<T>, le: (T, T) -> bool, x: T)
    ensures x in Sorting.Sort(s, le) <==> x in s
  {
    Sorting.SortPermutes(s, le);
    assert x in s <==> x in multiset(s);
    assert x in Sorting.Sort(s, le) <==> x in multiset(Sorting.Sort(s, le));
  }

  // ---------------------------------------------------------------- the packet

  datatype Packet = Packet(references: seq<Ref>, omitted: seq<Omitted>) | Refused

  function Bounded(c: Coverage, config: Config): seq<Ref> {
    c.covered[..if config.maxRelatedItems <= |c.covered| then config.maxRelatedItems else |c.covered|]
  }

  function Limited(c: Coverage, config: Config): seq<Ref> {
    c.covered[if config.maxRelatedItems <= |c.covered| then config.maxRelatedItems else |c.covered|..]
      + (if config.conceal then [] else c.unchecked)
  }

  function OverLimit(c: Coverage, config: Config): Ref -> bool {
    (r: Ref) => r in Limited(c, config)
  }

  /** The fetched references, in relevance order. */
  function Ordered(c: Coverage, config: Config, env: Env): seq<Ref> {
    Sorting.Sort(FetchAll(Bounded(c, config), env).found, env.relevance)
  }

  /** What is omitted before any trimming. */
  function Omissions(refs: seq<Ref>, c: Coverage, config: Config, env: Env): seq<Omitted> {
    AllOmitted(if config.conceal then [] else Select(refs, OutOfScope(config, env)), CrossRepoDisabled)
    + AllOmitted(Select(Select(refs, InScope(config, env)), OverLimit(c, config)), ReferenceLimit)
    + FetchAll(Bounded(c, config), env).omitted
  }

  /** No rendering fits the budget, not even the one without references. */
  ghost predicate NothingFits(ordered: seq<Ref>, omitted: seq<Omitted>, maxBytes: nat, env: Env) {
    forall n: nat :: n <= |ordered| ==> !FitsAt(ordered, omitted, n, maxBytes, env)
  }

  /** The longest prefix has this length, and its rendering passes the secret check. */
  ghost predicate LongestFitIsSecretFree(ordered: seq<Ref>, omitted: seq<Omitted>, n: nat, maxBytes: nat, env: Env) {
    LongestFit(ordered, omitted, n, maxBytes, env) && env.secretFree(ordered[..n], Trimmed(ordered, omitted, n, env))
  }

  /** A packet lists the longest prefix that fits, of the fetched references in relevance order. It is
      refused if and only if nothing fits or the rendering of the longest prefix is not free of secrets. */
  method BuildPacket(refs: seq<Ref>, config: Config, env: Env) returns (packet: Packet, c: Coverage)
    requires NoRepeats(refs)
    ensures c == Cover(Select(refs, InScope(config, env)), config, env)
    ensures var ordered, omitted := Ordered(c, config, env), Omissions(refs, c, config, env);
      && (packet.Packet? <==>
            && !NothingFits(ordered, omitted, config.maxPacketBytes, env)
            && exists n: nat :: LongestFitIsSecretFree(ordered, omitted, n, config.maxPacketBytes, env))
      && (packet.Packet? ==>
            && packet.references <= ordered
            && LongestFit(ordered, omitted, |packet.references|, config.maxPacketBytes, env)
            && packet.omitted == Trimmed(ordered, omitted, |packet.references|, env))
    ensures packet.Packet? ==>
      && multiset(packet.references) + multiset(Refs(packet.omitted)) == Nameable(refs, c, config, env)
      && |packet.references| <= config.maxRelatedItems
      && env.size(packet.references, packet.omitted) <= config.maxPacketBytes
      && env.secretFree(packet.references, packet.omitted)
      && (Sorting.TotalPreorder(env.relevance) ==> Sorting.InOrder(packet.references, env.relevance))
  {
    hide Cover, FetchAll, Trimmed, Sorting.Sort, Select;
    var scopedRefs := Select(refs, InScope(config, env));
    var crossRepo := if config.conceal then [] else Select(refs, OutOfScope(config, env));
    c := CheckCoverage(scopedRefs, config, env);
    var limited := Select(scopedRefs, OverLimit(c, config));
    var omitted := AllOmitted(crossRepo, CrossRepoDisabled) + AllOmitted(limited, ReferenceLimit);
    var fetched := FetchReferences(Bounded(c, config), env);
    omitted := omitted + fetched.omitted;
    var ordered := Sorting.Sort(fetched.found, env.relevance);
    var b := RenderWithinBudget(ordered, omitted, config.maxPacketBytes, env);
    PacketFollows(refs, c, config, env, b);
    if !env.secretFree(b.references, b.omitted) || env.size(b.references, b.omitted) > config.maxPacketBytes {
      return Refused, c;
    }
    packet := Packet(b.references, b.omitted);
  }

  /** What the trimmed rendering decides. */
  lemma PacketFollows(refs: seq<Ref>, c: Coverage, config: Config, env: Env, b: Budgeted)
    requires NoRepeats(refs) && c == Cover(Select(refs, InScope(config, env)), config, env)
    requires var ordered, omitted := Ordered(c, config, env), Omissions(refs, c, config, env);
      && b.references <= ordered && b.omitted == Trimmed(ordered, omitted, |b.references|, env)
      && LongestFit(ordered, omitted, |b.references|, config.maxPacketBytes, env)
    ensures var ordered, omitted := Ordered(c, config, env), Omissions(refs, c, config, env);
      && (NothingFits(ordered, omitted, config.maxPacketBytes, env) <==> env.size(b.references, b.omitted) > config.maxPacketBytes)
      && ((exists n: nat :: LongestFitIsSecretFree(ordered, omitted, n, config.maxPacketBytes, env))
          <==> env.secretFree(b.references, b.omitted))
    ensures multiset(b.references) + multiset(Refs(b.omitted)) == Nameable(refs, c, config, env)
    ensures |b.references| <= config.maxRelatedItems
    ensures Sorting.TotalPreorder(env.relevance) ==> Sorting.InOrder(b.references, env.relevance)
  {
    hide Cover, FetchAll, Trimmed, Sorting.Sort, Select, Nameable;
    var ordered, omitted := Ordered(c, config, env), Omissions(refs, c, config, env);
    var n := |b.references|;
    assert b.references == ordered[..n];
    PacketConserves(refs, c, config, env, n);
    if Sorting.TotalPreorder(env.relevance) {
      Sorting.SortOrders(FetchAll(Bounded(c, config), env).found, env.relevance);
    }
    hide Ordered, Omissions, Sorting.InOrder;
    assert env.secretFree(b.references, b.omitted) ==> LongestFitIsSecretFree(ordered, omitted, n, config.maxPacketBytes, env);
    forall m: nat | LongestFitIsSecretFree(ordered, omitted, m, config.maxPacketBytes, env)
      ensures env.secretFree(b.references, b.omitted) {
      OneLongestFit(ordered, omitted, n, m, config.maxPacketBytes, env);
    }
  }

  lemma OneLongestFit(refs: seq<Ref>, omitted: seq<Omitted>, n: nat, m: nat, maxBytes: nat, env: Env)
    requires LongestFit(refs, omitted, n, maxBytes, env) && LongestFit(refs, omitted, m, maxBytes, env)
    ensures n == m
  {
    hide FitsAt;
  }

  /** Among the first `maxRelatedItems` covered references, one before any rate limit with this outcome. */
  ghost predicate Requested(c: Coverage, config: Config, env: Env, x: Ref, outcome: Fetch) {
    exists k :: 0 <= k < |c.covered| && k < config.maxRelatedItems && c.covered[k] == x
      && Reached(c.covered, k, env) && env.fetch(x) == outcome
  }

  /** Among the first `maxRelatedItems` covered references, one at or after a rate limit. */
  ghost predicate CutOff(c: Coverage, config: Config, env: Env, x: Ref) {
    exists k :: 0 <= k < |c.covered| && k < config.maxRelatedItems && c.covered[k] == x && !Reached(c.covered, k + 1, env)
  }

  lemma BoundedOutcomes(c: Coverage, config: Config, env: Env, x: Ref, outcome: Fetch)
    ensures Meets(Bounded(c, config), x, outcome, env) <==> Requested(c, config, env, x, outcome)
    ensures HitsRateLimit(Bounded(c, config), x, env) <==> CutOff(c, config, env, x)
  {
    var bounded := Bounded(c, config);
    forall k: nat | k <= |bounded| ensures Reached(bounded, k, env) <==> Reached(c.covered, k, env) {
      assert forall j :: 0 <= j < |bounded| ==> bounded[j] == c.covered[j];
    }
    hide Reached;
  }

  /** The fetched references are those among the first `maxRelatedItems` covered ones whose request
      returned an item before any rate limit. */
  lemma FetchedExactly(c: Coverage, config: Config, env: Env, x: Ref)
    ensures x in Ordered(c, config, env) <==> Requested(c, config, env, x, Item)
  {
    hide Requested, CutOff, Meets, HitsRateLimit, Bounded;
    var bounded := Bounded(c, config);
    SortKeepsMembers(FetchAll(bounded, env).found, env.relevance, x);
    FetchOutcomes(bounded, env, x);
    BoundedOutcomes(c, config, env, x, Item);
  }

  /** Everything a packet may name: the covered references and, unless unchecked repositories are
      concealed, also the unchecked and the out-of-scope ones. */
  ghost function Nameable(refs: seq<Ref>, c: Coverage, config: Config, env: Env): multiset<Ref> {
    multiset(c.covered)
    + (if config.conceal then multiset{} else multiset(c.unchecked) + multiset(Select(refs, OutOfScope(config, env))))
  }

  lemma {:induction false} SelectKeepsNoRepeats<T>(s: seq<T>, p: T -> bool)
    requires NoRepeats(s)
    ensures NoRepeats(Select(s, p))
  {
    if s != [] {
      var init := s[..|s| - 1];
      SelectKeepsNoRepeats(init, p);
      forall x | x in Select(init, p) ensures x != s[|s| - 1] {
        SelectMembers(init, p, x);
        var i :| 0 <= i < |init| && init[i] == x;
        assert s[i] == x;
      }
      var kept := Select(init, p);
      assert forall i :: 0 <= i < |kept| ==> kept[i] in kept;
      assert Select(s, p) == if p(s[|s| - 1]) then kept + [s[|s| - 1]] else kept;
    }
  }

  lemma {:induction false} CountNoRepeats<T>(s: seq<T>, x: T)
    requires NoRepeats(s)
    ensures multiset(s)[x] == if x in s then 1 else 0
  {
    if s != [] {
      CountNoRepeats(s[..|s| - 1], x);
      assert s == s[..|s| - 1] + [s[|s| - 1]];
    }
  }

  /** Selecting, from a list without repeats, the members of another one picks exactly that one. */
  lemma SelectListed(s: seq<Ref>, t: seq<Ref>, p: Ref -> bool)
    requires NoRepeats(s) && NoRepeats(t) && forall x :: x in t ==> x in s
    requires forall x :: p(x) <==> x in t
    ensures multiset(Select(s, p)) == multiset(t)
  {
    SelectKeepsNoRepeats(s, p);
    forall x ensures multiset(Select(s, p))[x] == multiset(t)[x] {
      CountNoRepeats(Select(s, p), x);
      CountNoRepeats(t, x);
      SelectMembers(s, p, x);
    }
  }

  ghost predicate CoverageShape(scoped: seq<Ref>, c: Coverage) {
    && NoRepeats(c.covered) && NoRepeats(c.unchecked)
    && (forall x :: x in c.covered ==> x in scoped && x !in c.unchecked)
    && (forall x :: x in c.unchecked ==> x in scoped)
  }

  lemma CoverHasShape(scoped: seq<Ref>, config: Config, env: Env)
    requires NoRepeats(scoped)
    ensures CoverageShape(scoped, Cover(scoped, config, env))
  {
    var c := Cover(scoped, config, env);
    if env.repositoryCovered.None? {
      CoverWithoutCallback(scoped, config, env);
    } else {
      CoverageIsExact(scoped, config, env);
      SelectKeepsNoRepeats(scoped, AnsweredYes(c, env));
      SelectKeepsNoRepeats(scoped, Unanswered(c, env));
      forall x ensures x in c.covered ==> x in scoped && x !in c.unchecked
               ensures x in c.unchecked ==> x in scoped {
        SelectMembers(scoped, AnsweredYes(c, env), x);
        SelectMembers(scoped, Unanswered(c, env), x);
      }
    }
  }

  lemma CheckWithoutCallback(c: Coverage, r: Ref, config: Config, env: Env)
    requires env.repositoryCovered.None?
    ensures Check(c, r, config, env) == c.(covered := c.covered + [r])
  {
  }

  lemma {:induction false} CoverWithoutCallback(refs: seq<Ref>, config: Config, env: Env)
    requires env.repositoryCovered.None?
    ensures Cover(refs, config, env) == NO_COVERAGE.(covered := refs)
  {
    if refs != [] {
      hide Check;
      var init, r := refs[..|refs| - 1], refs[|refs| - 1];
      CoverWithoutCallback(init, config, env);
      CheckWithoutCallback(Cover(init, config, env), r, config, env);
      assert refs == init + [r];
    }
  }

  lemma LimitedPart(scoped: seq<Ref>, c: Coverage, config: Config)
    requires NoRepeats(scoped) && CoverageShape(scoped, c)
    ensures multiset(Bounded(c, config)) + multiset(Select(scoped, OverLimit(c, config)))
            == multiset(c.covered) + (if config.conceal then multiset{} else multiset(c.unchecked))
  {
    var limited := Limited(c, config);
    var cut := |Bounded(c, config)|;
    assert c.covered == c.covered[..cut] + c.covered[cut..];
    assert NoRepeats(limited) by {
      forall i, j | 0 <= i < j < |limited| ensures limited[i] != limited[j] {
        if i < |c.covered[cut..]| <= j { assert limited[i] in c.covered && limited[j] in c.unchecked; }
      }
    }
    SelectListed(scoped, limited, OverLimit(c, config));
    hide Select;
  }

  lemma PacketConserves(refs: seq<Ref>, c: Coverage, config: Config, env: Env, n: nat)
    requires NoRepeats(refs)
    requires c == Cover(Select(refs, InScope(config, env)), config, env)
    requires n <= |Ordered(c, config, env)|
    ensures var ordered, omitted := Ordered(c, config, env), Omissions(refs, c, config, env);
      && multiset(ordered[..n]) + multiset(Refs(Trimmed(ordered, omitted, n, env))) == Nameable(refs, c, config, env)
      && |ordered| <= config.maxRelatedItems
  {
    hide Cover, FetchAll, Trimmed, Sorting.Sort, Select, CoverageShape;
    var scoped := Select(refs, InScope(config, env));
    var crossRepo := if config.conceal then [] else Select(refs, OutOfScope(config, env));
    var fetched := FetchAll(Bounded(c, config), env);
    var limited := Select(scoped, OverLimit(c, config));
    var a, b := AllOmitted(crossRepo, CrossRepoDisabled), AllOmitted(limited, ReferenceLimit);
    var ordered := Sorting.Sort(fetched.found, env.relevance);
    SelectKeepsNoRepeats(refs, InScope(config, env));
    CoverHasShape(scoped, config, env);
    LimitedPart(scoped, c, config);
    FetchConserves(Bounded(c, config), env);
    Sorting.SortPermutes(fetched.found, env.relevance);
    TrimConserves(ordered, a + b + fetched.omitted, n, env);
    RefsOfAll(crossRepo, limited, fetched.omitted);
    SizesFollow(ordered, fetched.found, Refs(fetched.omitted), Bounded(c, config));
    var unchecked := if config.conceal then multiset{} else multiset(c.unchecked);
    var omitted := a + b + fetched.omitted;
    AddUp(multiset(ordered[..n]), multiset(Refs(Trimmed(ordered, omitted, n, env))), multiset(ordered),
          multiset(Refs(omitted)), multiset(crossRepo), multiset(limited), multiset(Refs(fetched.omitted)),
          multiset(Bounded(c, config)), multiset(c.covered), unchecked);
  }

  lemma AddUp(kept: multiset<Ref>, trimmed: multiset<Ref>, ordered: multiset<Ref>, omitted: multiset<Ref>,
              cross: multiset<Ref>, limited: multiset<Ref>, lost: multiset<Ref>, bounded: multiset<Ref>,
              covered: multiset<Ref>, unchecked: multiset<Ref>)
    requires kept + trimmed == ordered + omitted
    requires omitted == cross + limited + lost
    requires ordered + lost == bounded
    requires bounded + limited == covered + unchecked
    ensures kept + trimmed == covered + (unchecked + cross)
  {
    assert ordered + (cross + limited + lost) == (ordered + lost) + limited + cross;
  }

  lemma RefsOfAll(crossRepo: seq<Ref>, limited: seq<Ref>, rest: seq<Omitted>)
    ensures multiset(Refs(AllOmitted(crossRepo, CrossRepoDisabled) + AllOmitted(limited, ReferenceLimit) + rest))
            == multiset(crossRepo) + multiset(limited) + multiset(Refs(rest))
  {
    var a, b := AllOmitted(crossRepo, CrossRepoDisabled), AllOmitted(limited, ReferenceLimit);
    RefsJoin(a + b, rest);
    RefsJoin(a, b);
    assert Refs(a) == crossRepo && Refs(b) == limited;
  }

  lemma SizesFollow(ordered: seq<Ref>, found: seq<Ref>, lost: seq<Ref>, bounded: seq<Ref>)
    requires multiset(ordered) == multiset(found) && multiset(found) + multiset(lost) == multiset(bounded)
    ensures |ordered| <= |bounded|
  {
    assert |multiset(ordered)| == |ordered| && |multiset(bounded)| == |bounded|;
    assert |multiset(found) + multiset(lost)| == |multiset(found)| + |multiset(lost)|;
  }

  /** In scope, a reference is named if its repository was answered yes, or if there is no check;
      out of scope or unasked, only when such references are not concealed. */
  predicate IsNamed(refs: seq<Ref>, answers: map<string, bool>, config: Config, env: Env, r: Ref) {
    var repo := env.lower(r.repo);
    && r in refs
    && if repo != env.lower(env.home) && !config.includeCrossRepoRefs then !config.conceal
       else if env.repositoryCovered.None? then true
       else if repo in answers then answers[repo]
       else !config.conceal
  }

  lemma PacketNamesExactly(refs: seq<Ref>, config: Config, env: Env, r: Ref)
    requires NoRepeats(refs)
    ensures var c := Cover(Select(refs, InScope(config, env)), config, env);
      Nameable(refs, c, config, env)[r] == if IsNamed(refs, c.answers, config, env, r) then 1 else 0
  {
    hide Cover, Select;
    var scoped, outside := Select(refs, InScope(config, env)), Select(refs, OutOfScope(config, env));
    var c := Cover(scoped, config, env);
    SelectKeepsNoRepeats(refs, InScope(config, env));
    SelectKeepsNoRepeats(refs, OutOfScope(config, env));
    SelectMembers(refs, InScope(config, env), r);
    SelectMembers(refs, OutOfScope(config, env), r);
    CoverHasShape(scoped, config, env);
    CountNoRepeats(c.covered, r);
    CountNoRepeats(c.unchecked, r);
    CountNoRepeats(outside, r);
    if env.repositoryCovered.None? {
      CoverWithoutCallback(scoped, config, env);
    } else {
      CoverageIsExact(scoped, config, env);
      SelectMembers(scoped, AnsweredYes(c, env), r);
      SelectMembers(scoped, Unanswered(c, env), r);
    }
  }

  /** The reason given with each omission: outside the scope, over a limit, lost in fetching, or
      trimmed for the budget. */
  ghost predicate HasReason(refs: seq<Ref>, c: Coverage, config: Config, env: Env, o: Omitted) {
    match o.reason
    case CrossRepoDisabled =>
      && !config.conceal && !config.includeCrossRepoRefs
      && o.ref in refs && env.lower(o.ref.repo) != env.lower(env.home)
    case ReferenceLimit =>
      || (exists k :: config.maxRelatedItems <= k < |c.covered| && c.covered[k] == o.ref)
      || (!config.conceal && o.ref in c.unchecked)
    case FetchFailed => Requested(c, config, env, o.ref, NotReturned) || Requested(c, config, env, o.ref, Error)
    case RateLimited => CutOff(c, config, env, o.ref)
    case BudgetExceeded => false
  }

  lemma OmittedExactly(refs: seq<Ref>, config: Config, env: Env, n: nat, o: Omitted)
    requires NoRepeats(refs)
    requires n <= |Ordered(Cover(Select(refs, InScope(config, env)), config, env), config, env)|
    ensures var c := Cover(Select(refs, InScope(config, env)), config, env);
      var ordered, omitted := Ordered(c, config, env), Omissions(refs, c, config, env);
      o in Trimmed(ordered, omitted, n, env)
      <==> HasReason(refs, c, config, env, o) || (o.reason.BudgetExceeded? && o.ref in ordered[n..])
  {
    hide Cover, Select, Ordered, Omissions, Trimmed;
    var c := Cover(Select(refs, InScope(config, env)), config, env);
    TrimmedMembers(Ordered(c, config, env), Omissions(refs, c, config, env), n, env, o);
    OmissionReasons(refs, c, config, env, o);
  }

  lemma OmissionReasons(refs: seq<Ref>, c: Coverage, config: Config, env: Env, o: Omitted)
    requires NoRepeats(refs) && c == Cover(Select(refs, InScope(config, env)), config, env)
    ensures o in Omissions(refs, c, config, env) <==> HasReason(refs, c, config, env, o)
  {
    hide Cover, Select, FetchAll, Bounded, Requested, CutOff, Meets, HitsRateLimit, AllOmitted;
    var scoped, outside := Select(refs, InScope(config, env)), Select(refs, OutOfScope(config, env));
    SelectMembers(refs, OutOfScope(config, env), o.ref);
    AllOmittedMembers(if config.conceal then [] else outside, CrossRepoDisabled, o);
    AllOmittedMembers(Select(scoped, OverLimit(c, config)), ReferenceLimit, o);
    LimitReasons(refs, c, config, env, o.ref);
    FetchOutcomes(Bounded(c, config), env, o.ref);
    BoundedOutcomes(c, config, env, o.ref, NotReturned);
    BoundedOutcomes(c, config, env, o.ref, Error);
  }

  lemma LimitReasons(refs: seq<Ref>, c: Coverage, config: Config, env: Env, r: Ref)
    requires NoRepeats(refs) && c == Cover(Select(refs, InScope(config, env)), config, env)
    ensures r in Select(Select(refs, InScope(config, env)), OverLimit(c, config))
      <==> (exists k :: config.maxRelatedItems <= k < |c.covered| && c.covered[k] == r) || (!config.conceal && r in c.unchecked)
  {
    hide Cover, Select;
    var scoped := Select(refs, InScope(config, env));
    SelectKeepsNoRepeats(refs, InScope(config, env));
    CoverHasShape(scoped, config, env);
    SelectMembers(scoped, OverLimit(c, config), r);
    hide NoRepeats;
    var from := if config.maxRelatedItems <= |c.covered| then config.maxRelatedItems else |c.covered|;
    var over := c.covered[from..];
    assert forall j :: 0 <= j < |over| ==> over[j] == c.covered[from + j];
    if k :| config.maxRelatedItems <= k < |c.covered| && c.covered[k] == r { assert over[k - from] == r; }
  }

  lemma AllOmittedMembers(refs: seq<Ref>, reason: Reason, o: Omitted)
    ensures o in AllOmitted(refs, reason) <==> o.reason == reason && o.ref in refs
  {
    var all := AllOmitted(refs, reason);
    if o.reason == reason && o.ref in refs {
      var k :| 0 <= k < |refs| && refs[k] == o.ref;
      assert all[k] == o;
    }
  }

  /** With a callback and concealment, a packet names each in-scope reference to a repository that was
      checked as covered exactly once, and names nothing else. */
  lemma ConcealedPacketNamesCoveredOnly(refs: seq<Ref>, config: Config, env: Env, r: Ref)
    requires NoRepeats(refs) && config.conceal && env.repositoryCovered.Some?
    ensures var scoped := Select(refs, InScope(config, env));
      var c := Cover(scoped, config, env);
      Nameable(refs, c, config, env)[r]
      == if r in refs && InScope(config, env)(r) && AnsweredYes(c, env)(r) then 1 else 0
  {
    var scoped := Select(refs, InScope(config, env));
    var c := Cover(scoped, config, env);
    SelectKeepsNoRepeats(refs, InScope(config, env));
    CoverHasShape(scoped, config, env);
    CoverageIsExact(scoped, config, env);
    CountNoRepeats(c.covered, r);
    SelectMembers(scoped, AnsweredYes(c, env), r);
    SelectMembers(refs, InScope(config, env), r);
  }
}
