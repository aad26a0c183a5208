/** From raw findings to review comments (src/findings.ts): the secret screen, the rank order,
  same-run near-duplicate suppression and the comment cap.

  Secret detection, redaction, category normalisation, title normalisation, text rendering and the
  collation of strings are fields of an environment; the collation is a total preorder.
*/
module Findings {
  import opened Basics
  import Sorting

  datatype Finding = Finding(
    severity: Severity, path: string, line: int, title: string, body: string, why: string, confidence: real)

  datatype Reason = SecretDetected | SameRunNearDuplicate | CommentCapExceeded

  datatype DroppedFinding = DroppedFinding(finding: Finding, reason: Reason)

  datatype ReviewComment = ReviewComment(
    path: string, line: int, severity: Severity, category: string, confidence: real, fingerprint: string,
    title: string, body: string)

  datatype Env = Env(
    containsSecret: Finding -> bool,
    redact: Finding -> Finding,
    sanitize: Finding -> Finding,
    category: Finding -> string,
    titleKey: string -> string,
    fingerprint: Finding -> string,
    publicTitle: Finding -> string,
    publicBody: Finding -> string,
    collate: (string, string) -> bool)

  const DEFAULT_MAX_INLINE_COMMENTS := 25
  const MAX_LINE_DELTA := 3
  const MIN_PREFIX_LENGTH := 12

  // ---------------------------------------------------------------- near-duplicates

  predicate TitlesAreNearDuplicate(a: string, b: string) {
    if a == b then |a| > 0
    else
      var (shorter, longer) := if |a| <= |b| then (a, b) else (b, a);
      |shorter| >= MIN_PREFIX_LENGTH && shorter <= longer
  }

  predicate NearDuplicates(x: Finding, y: Finding, env: Env) {
    && x.path == y.path
    && env.category(x) == env.category(y)
    && Abs(x.line - y.line) <= MAX_LINE_DELTA
    && TitlesAreNearDuplicate(env.titleKey(x.title), env.titleKey(y.title))
  }

  lemma NearDuplicateSymmetric(x: Finding, y: Finding, env: Env)
    ensures NearDuplicates(x, y, env) <==> NearDuplicates(y, x, env)
  {
  }

  /** Two findings are near-duplicates exactly when they share path and category, lie at most three
      lines apart, and their title keys are equal and not empty, or the shorter one has at least
      twelve characters and begins the longer one. */
  lemma NearDuplicateExactly(x: Finding, y: Finding, env: Env)
    ensures var a, b := env.titleKey(x.title), env.titleKey(y.title);
      NearDuplicates(x, y, env) <==>
        && x.path == y.path && env.category(x) == env.category(y)
        && -3 <= x.line - y.line <= 3
        && ((a == b && a != "")
            || (a != b && 12 <= |a| <= |b| && b[..|a|] == a)
            || (a != b && 12 <= |b| <= |a| && a[..|b|] == b))
  {
    var a, b := env.titleKey(x.title), env.titleKey(y.title);
    assert |a| <= |b| ==> (a <= b <==> b[..|a|] == a);
    assert |b| <= |a| ==> (b <= a <==> a[..|b|] == b);
    assert |a| == |b| ==> a[..|b|] == a && b[..|a|] == b;
  }

  /** The relation is not transitive, so which finding of a cluster survives depends on rank. */
  lemma NearDuplicateNotTransitive(f: Finding, env: Env)
    requires env.titleKey(f.title) != []
    requires env.category(f) == env.category(f.(line := f.line + 3)) == env.category(f.(line := f.line + 6))
    ensures NearDuplicates(f, f.(line := f.line + 3), env)
            && NearDuplicates(f.(line := f.line + 3), f.(line := f.line + 6), env)
            && !NearDuplicates(f, f.(line := f.line + 6), env)
  {
  }

  // ---------------------------------------------------------------- rank order

  function SeverityRank(s: Severity): nat {
    match s
    case P0 => 0
    case P1 => 1
    case P2 => 2
    case P3 => 3
  }

  predicate RanksBefore(a: Finding, b: Finding, collate: (string, string) -> bool) {
    if SeverityRank(a.severity) != SeverityRank(b.severity) then SeverityRank(a.severity) < SeverityRank(b.severity)
    else if a.confidence != b.confidence then a.confidence > b.confidence
    else if !(collate(a.path, b.path) && collate(b.path, a.path)) then collate(a.path, b.path)
    else if a.line != b.line then a.line < b.line
    else collate(a.title, b.title)
  }

  function Rank(env: Env): (Finding, Finding) -> bool {
    (a: Finding, b: Finding) => RanksBefore(a, b, env.collate)
  }

  lemma RankIsPreorder(env: Env)
    requires Sorting.TotalPreorder(env.collate)
    ensures Sorting.TotalPreorder(Rank(env))
  {
  }

  predicate MoreSevere(a: Severity, b: Severity) {
    match a
    case P0 => !b.P0?
    case P1 => b.P2? || b.P3?
    case P2 => b.P3?
    case P3 => false
  }

  /** What it means for `x` to be at least as important as `y`: never a less severe one, within a
      severity never a less confident one, and otherwise earlier by path, line and title. */
  predicate AtLeastAsImportant(x: Finding, y: Finding, collate: (string, string) -> bool) {
    && !MoreSevere(y.severity, x.severity)
    && (x.severity == y.severity ==> x.confidence >= y.confidence)
    && (x.severity == y.severity && x.confidence == y.confidence ==>
          && collate(x.path, y.path)
          && (collate(y.path, x.path) ==>
                && x.line <= y.line
                && (x.line == y.line ==> collate(x.title, y.title))))
  }

  lemma RankIsImportance(x: Finding, y: Finding, env: Env)
    requires Sorting.TotalPreorder(env.collate)
    ensures Rank(env)(x, y) <==> AtLeastAsImportant(x, y, env.collate)
  {
    assert env.collate(x.path, y.path) || env.collate(y.path, x.path);
  }

  // ---------------------------------------------------------------- suppression

  datatype Split = Split(kept: seq<Finding>, dropped: seq<Finding>)

  predicate HasDuplicate(kept: seq<Finding>, f: Finding, env: Env) {
    exists k :: 0 <= k < |kept| && NearDuplicates(kept[k], f, env)
  }

  function Suppress(findings: seq<Finding>, env: Env): Split {
    if findings == [] then Split([], [])
    else
      var s, f := Suppress(findings[..|findings| - 1], env), findings[|findings| - 1];
      if HasDuplicate(s.kept, f, env) then s.(dropped := s.dropped + [f]) else s.(kept := s.kept + [f])
  }

  method SuppressSameRunNearDuplicates(findings: seq<Finding>, env: Env) returns (result: Split)
    ensures result == Suppress(findings, env)
  {
    var kept: seq<Finding>, dropped: seq<Finding> := [], [];
    for i := 0 to |findings|
      invariant Split(kept, dropped) == Suppress(findings[..i], env)
    {
      assert findings[..i + 1][..i] == findings[..i];
      var isDuplicate := false;
      for k := 0 to |kept|
        invariant isDuplicate <==> exists j :: 0 <= j < k && NearDuplicates(kept[j], findings[i], env)
      {
        if NearDuplicates(kept[k], findings[i], env) { isDuplicate := true; }
      }
      if isDuplicate { dropped := dropped + [findings[i]]; } else { kept := kept + [findings[i]]; }
    }
    assert findings[..|findings|] == findings;
    result := Split(kept, dropped);
  }

  lemma {:induction false} SuppressConserves(findings: seq<Finding>, env: Env)
    ensures multiset(findings) == multiset(Suppress(findings, env).kept) + multiset(Suppress(findings, env).dropped)
  {
    if findings != [] {
      SuppressConserves(findings[..|findings| - 1], env);
      assert findings == findings[..|findings| - 1] + [findings[|findings| - 1]];
    }
  }

  ghost predicate PairwiseDistinct(kept: seq<Finding>, env: Env) {
    forall i, j :: 0 <= i < j < |kept| ==> !NearDuplicates(kept[i], kept[j], env)
  }

  lemma {:induction false} KeptAreDistinct(findings: seq<Finding>, env: Env)
    ensures PairwiseDistinct(Suppress(findings, env).kept, env)
  {
    if findings != [] { KeptAreDistinct(findings[..|findings| - 1], env); }
  }

  /** Suppressing a list that is already free of near-duplicates drops nothing. */
  lemma {:induction false} SuppressIsIdempotent(kept: seq<Finding>, env: Env)
    requires PairwiseDistinct(kept, env)
    ensures Suppress(kept, env) == Split(kept, [])
  {
    if kept != [] {
      SuppressIsIdempotent(kept[..|kept| - 1], env);
      assert kept == kept[..|kept| - 1] + [kept[|kept| - 1]];
    }
  }

  /** In rank order, the survivors stay in rank order and each dropped finding has a survivor that
      it duplicates and that ranks no lower. */
  lemma {:induction false} SuppressRespectsRank(findings: seq<Finding>, env: Env)
    requires Sorting.InOrder(findings, Rank(env))
    ensures var s := Suppress(findings, env);
      && Sorting.InOrder(s.kept, Rank(env))
      && (forall f :: f in s.kept ==> f in findings)
      && (forall d :: d in s.dropped ==> exists k :: k in s.kept && NearDuplicates(k, d, env) && Rank(env)(k, d))
  {
    if findings != [] {
      var init, f := findings[..|findings| - 1], findings[|findings| - 1];
      SuppressRespectsRank(init, env);
      var s, t := Suppress(init, env), Suppress(findings, env);
      assert findings == init + [f];
      forall k | k in s.kept ensures Rank(env)(k, f) {
        var i :| 0 <= i < |init| && init[i] == k;
        assert findings[i] == k;
      }
      forall d | d in t.dropped ensures exists k :: k in t.kept && NearDuplicates(k, d, env) && Rank(env)(k, d) {
        if d in s.dropped {
          var k :| k in s.kept && NearDuplicates(k, d, env) && Rank(env)(k, d);
          assert k in t.kept;
        } else {
          var i :| 0 <= i < |s.kept| && NearDuplicates(s.kept[i], f, env);
          assert s.kept[i] in t.kept;
        }
      }
    }
  }

  // ---------------------------------------------------------------- the whole pipeline

  function Select(findings: seq<Finding>, keep: Finding -> bool): seq<Finding> {
    if findings == [] then []
    else Select(findings[..|findings| - 1], keep)
         + (if keep(findings[|findings| - 1]) then [findings[|findings| - 1]] else [])
  }

  function Clean(env: Env): Finding -> bool { f => !env.containsSecret(f) }

  function Ranked(findings: seq<Finding>, env: Env): seq<Finding> {
    Sorting.Sort(Select(findings, Clean(env)), Rank(env))
  }

  /** Where `slice(0, cap)` ends and `slice(cap)` begins; a negative cap counts from the end. */
  function Cut(length: nat, cap: int): (cut: nat)
    ensures cut <= length
  {
    if cap < 0 then (if length + cap < 0 then 0 else length + cap)
    else if cap <= length then cap else length
  }

  /** The four groups a finding can end in. */
  datatype Outcome = Outcome(secret: seq<Finding>, posted: seq<Finding>, duplicate: seq<Finding>, overCap: seq<Finding>)

  function Cap(maxInlineComments: Option<int>): int {
    if maxInlineComments.Some? then maxInlineComments.value else DEFAULT_MAX_INLINE_COMMENTS
  }

  function OutcomeOf(findings: seq<Finding>, cap: int, env: Env): Outcome {
    var s := Suppress(Ranked(findings, env), env);
    var cut := Cut(|s.kept|, cap);
    Outcome(Select(findings, env.containsSecret), s.kept[..cut], s.dropped, s.kept[cut..])
  }

  function ToComment(f: Finding, env: Env): ReviewComment {
    ReviewComment(f.path, f.line, f.severity, env.category(f), f.confidence, env.fingerprint(f),
                  env.publicTitle(f), env.publicBody(f))
  }

  function ToComments(fs: seq<Finding>, env: Env): seq<ReviewComment> {
    seq(|fs|, k requires 0 <= k < |fs| => ToComment(fs[k], env))
  }

  function Drops(fs: seq<Finding>, reason: Reason, clean: Finding -> Finding): seq<DroppedFinding> {
    seq(|fs|, k requires 0 <= k < |fs| => DroppedFinding(clean(fs[k]), reason))
  }

  function RedactAndSanitize(env: Env): Finding -> Finding { f => env.sanitize(env.redact(f)) }

  /** There is one comment for each finding posted, at its place and with its fingerprint, and one
      drop for each finding dropped, with its reason. */
  lemma OutputsCarryTheirFindings(fs: seq<Finding>, reason: Reason, clean: Finding -> Finding, env: Env)
    ensures var comments, drops := ToComments(fs, env), Drops(fs, reason, clean);
      && |comments| == |fs| == |drops|
      && forall k :: 0 <= k < |fs| ==>
           && comments[k].path == fs[k].path && comments[k].line == fs[k].line
           && comments[k].severity == fs[k].severity && comments[k].confidence == fs[k].confidence
           && comments[k].category == env.category(fs[k]) && comments[k].fingerprint == env.fingerprint(fs[k])
           && comments[k].title == env.publicTitle(fs[k]) && comments[k].body == env.publicBody(fs[k])
           && drops[k] == DroppedFinding(clean(fs[k]), reason)
  {
  }

  method NormalizeFindingsForReview(findings: seq<Finding>, maxInlineComments: Option<int>, env: Env)
    returns (comments: seq<ReviewComment>, dropped: seq<DroppedFinding>)
    ensures var o := OutcomeOf(findings, Cap(maxInlineComments), env);
      && comments == ToComments(o.posted, env)
      && dropped == Drops(o.secret, SecretDetected, RedactAndSanitize(env))
                    + Drops(o.duplicate, SameRunNearDuplicate, env.sanitize)
                    + Drops(o.overCap, CommentCapExceeded, env.sanitize)
  {
    hide Suppress, Sorting.Sort;
    var cap := if maxInlineComments.Some? then maxInlineComments.value else DEFAULT_MAX_INLINE_COMMENTS;
    ghost var o := OutcomeOf(findings, cap, env);
    var accepted: seq<Finding> := [];
    dropped := [];
    for i := 0 to |findings|
      invariant accepted == Select(findings[..i], Clean(env))
      invariant dropped == Drops(Select(findings[..i], env.containsSecret), SecretDetected, RedactAndSanitize(env))
    {
      assert findings[..i + 1][..i] == findings[..i];
      if env.containsSecret(findings[i]) {
        dropped := dropped + [DroppedFinding(env.sanitize(env.redact(findings[i])), SecretDetected)];
        continue;
      }
      accepted := accepted + [findings[i]];
    }
    assert findings[..|findings|] == findings;
    var deduped := SuppressSameRunNearDuplicates(Sorting.Sort(accepted, Rank(env)), env);
    ghost var screened := dropped;
    dropped := AppendDrops(dropped, deduped.dropped, SameRunNearDuplicate, env.sanitize);
    var cut := Cut(|deduped.kept|, cap);
    dropped := AppendDrops(dropped, deduped.kept[cut..], CommentCapExceeded, env.sanitize);
    comments := ToComments(deduped.kept[..cut], env);
  }

  method AppendDrops(dropped: seq<DroppedFinding>, fs: seq<Finding>, reason: Reason, clean: Finding -> Finding)
    returns (result: seq<DroppedFinding>)
    ensures result == dropped + Drops(fs, reason, clean)
  {
    result := dropped;
    for i := 0 to |fs|
      invariant result == dropped + Drops(fs[..i], reason, clean)
    {
      assert Drops(fs[..i + 1], reason, clean) == Drops(fs[..i], reason, clean) + [DroppedFinding(clean(fs[i]), reason)];
      result := result + [DroppedFinding(clean(fs[i]), reason)];
    }
    assert fs[..|fs|] == fs;
  }

  lemma {:induction false} SelectSplits(findings: seq<Finding>, env: Env)
    ensures multiset(findings) == multiset(Select(findings, env.containsSecret)) + multiset(Select(findings, Clean(env)))
    ensures forall f :: f in Select(findings, Clean(env)) ==> !env.containsSecret(f)
  {
    if findings != [] {
      SelectSplits(findings[..|findings| - 1], env);
      assert findings == findings[..|findings| - 1] + [findings[|findings| - 1]];
    }
  }

  /** Every input finding ends exactly once, as a comment or as one kind of drop. */
  lemma EveryFindingEndsOnce(findings: seq<Finding>, cap: int, env: Env)
    ensures var o := OutcomeOf(findings, cap, env);
      multiset(findings) == multiset(o.secret) + multiset(o.posted) + multiset(o.duplicate) + multiset(o.overCap)
  {
    hide Suppress, Select, Sorting.Sort;
    var accepted := Select(findings, Clean(env));
    var s := Suppress(Ranked(findings, env), env);
    var cut := Cut(|s.kept|, cap);
    SelectSplits(findings, env);
    Sorting.SortPermutes(accepted, Rank(env));
    SuppressConserves(Ranked(findings, env), env);
    assert s.kept == s.kept[..cut] + s.kept[cut..];
  }

  /** What is posted: as many as the cap allows, free of secrets, in rank order, pairwise distinct,
      and never outranked by a finding dropped for the cap. */
  lemma PostedAreTheBest(findings: seq<Finding>, cap: int, env: Env)
    requires Sorting.TotalPreorder(env.collate)
    ensures var o := OutcomeOf(findings, cap, env);
      var distinct := |o.posted| + |o.overCap|;
      && (cap >= 0 ==> |o.posted| == if cap <= distinct then cap else distinct)
      && Sorting.InOrder(o.posted + o.overCap, Rank(env))
      && PairwiseDistinct(o.posted + o.overCap, env)
      && (forall f :: f in o.posted ==> !env.containsSecret(f))
      && (forall f, d :: f in o.posted && d in o.overCap ==> Rank(env)(f, d))
  {
    hide Suppress, Select, Sorting.Sort, Rank, NearDuplicates;
    var ranked := Ranked(findings, env);
    var s := Suppress(ranked, env);
    var o := OutcomeOf(findings, cap, env);
    RankIsPreorder(env);
    Sorting.SortOrders(Select(findings, Clean(env)), Rank(env));
    Sorting.SortPermutes(Select(findings, Clean(env)), Rank(env));
    SelectSplits(findings, env);
    SuppressRespectsRank(ranked, env);
    KeptAreDistinct(ranked, env);
    assert o.posted + o.overCap == s.kept;
    forall f | f in o.posted ensures !env.containsSecret(f) {
      assert f in s.kept && f in ranked;
      assert f in multiset(ranked);
      assert f in multiset(Select(findings, Clean(env)));
    }
    forall f, d | f in o.posted && d in o.overCap ensures Rank(env)(f, d) {
      var i :| 0 <= i < |o.posted| && o.posted[i] == f;
      var j :| 0 <= j < |o.overCap| && o.overCap[j] == d;
      assert s.kept[i] == f && s.kept[|o.posted| + j] == d;
    }
  }

  /** Importance decides, spelled out: comments come in order of importance, no finding dropped for
      the cap is more important than a comment, and each suppressed duplicate has a surviving
      near-duplicate that is at least as important. What is dropped as secret contains a secret. */
  lemma ImportanceDecides(findings: seq<Finding>, cap: int, env: Env)
    requires Sorting.TotalPreorder(env.collate)
    ensures var o := OutcomeOf(findings, cap, env);
      && (forall i, j :: 0 <= i < j < |o.posted| ==> AtLeastAsImportant(o.posted[i], o.posted[j], env.collate))
      && (forall f, d :: f in o.posted && d in o.overCap ==> AtLeastAsImportant(f, d, env.collate))
      && (forall d :: d in o.duplicate ==>
            exists k :: k in o.posted + o.overCap && NearDuplicates(k, d, env) && AtLeastAsImportant(k, d, env.collate))
      && (forall f :: f in o.secret ==> env.containsSecret(f))
  {
    hide OutcomeOf, NearDuplicates, AtLeastAsImportant, Rank;
    var o := OutcomeOf(findings, cap, env);
    PostedAreTheBest(findings, cap, env);
    DuplicatesHaveRepresentatives(findings, cap, env);
    SecretsAreSecret(findings, cap, env);
    forall x, y ensures Rank(env)(x, y) <==> AtLeastAsImportant(x, y, env.collate) { RankIsImportance(x, y, env); }
    forall i, j | 0 <= i < j < |o.posted| ensures AtLeastAsImportant(o.posted[i], o.posted[j], env.collate) {
      assert (o.posted + o.overCap)[i] == o.posted[i] && (o.posted + o.overCap)[j] == o.posted[j];
    }
    forall d | d in o.duplicate
      ensures exists k :: k in o.posted + o.overCap && NearDuplicates(k, d, env) && AtLeastAsImportant(k, d, env.collate)
    {
      var k :| k in o.posted + o.overCap && NearDuplicates(k, d, env) && Rank(env)(k, d);
    }
  }

  lemma SecretsAreSecret(findings: seq<Finding>, cap: int, env: Env)
    ensures forall f :: f in OutcomeOf(findings, cap, env).secret ==> env.containsSecret(f)
  {
    SelectedSatisfy(findings, env.containsSecret);
  }

  lemma {:induction false} SelectedSatisfy(findings: seq<Finding>, keep: Finding -> bool)
    ensures forall f :: f in Select(findings, keep) ==> keep(f)
  {
    if findings != [] { SelectedSatisfy(findings[..|findings| - 1], keep); }
  }

  /** Each duplicate drop has a near-duplicate that ranks no lower and survived suppression, and
      suppressing the survivors again drops nothing. */
  lemma DuplicatesHaveRepresentatives(findings: seq<Finding>, cap: int, env: Env)
    requires Sorting.TotalPreorder(env.collate)
    ensures var o := OutcomeOf(findings, cap, env);
      && (forall d :: d in o.duplicate ==>
            exists k :: k in o.posted + o.overCap && NearDuplicates(k, d, env) && Rank(env)(k, d))
      && Suppress(o.posted + o.overCap, env) == Split(o.posted + o.overCap, [])
  {
    var ranked := Ranked(findings, env);
    var o := OutcomeOf(findings, cap, env);
    RankIsPreorder(env);
    Sorting.SortOrders(Select(findings, Clean(env)), Rank(env));
    SuppressRespectsRank(ranked, env);
    KeptAreDistinct(ranked, env);
    assert o.posted + o.overCap == Suppress(ranked, env).kept;
    SuppressIsIdempotent(o.posted + o.overCap, env);
  }
}
