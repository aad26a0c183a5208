/** One-to-one greedy matching of bot findings to labels, and the scorecard counts
  (src/eval-harness.ts).

  Tokenised text is a field of a finding; the collation of identifiers is a parameter. The greedy
  matching is proved maximal in rank order and at least half as large as any matching.
*/
module EvalMatching {
  import opened Basics
  import Sorting

  datatype EvalFinding = EvalFinding(
    id: string, severity: Severity, path: string, line: int, tokens: set<string>, confidence: real)

  datatype Kind = ExactLine | NearbyLine | Semantic

  datatype Candidate = Candidate(finding: EvalFinding, expected: EvalFinding, kind: Kind)

  datatype EvalMatch = EvalMatch(botFindingId: string, labelId: string, kind: Kind)

  function Min(a: int, b: int): int { if a <= b then a else b }

  function TokenOverlap(a: EvalFinding, b: EvalFinding): real {
    if |a.tokens| == 0 || |b.tokens| == 0 then 0.0
    else |a.tokens * b.tokens| as real / Min(|a.tokens|, |b.tokens|) as real
  }

  function ClassifyMatch(finding: EvalFinding, expected: EvalFinding): Option<Kind> {
    if finding.severity != expected.severity then None
    else
      var overlap := TokenOverlap(finding, expected);
      if finding.line == expected.line && overlap >= 0.25 then Some(ExactLine)
      else if Abs(finding.line - expected.line) <= 3 && overlap >= 0.35 then Some(NearbyLine)
      else if overlap >= 0.55 then Some(Semantic)
      else None
  }

  /** At least `percent` of the smaller token set is shared, and no token set is empty. */
  predicate SharesTokens(a: EvalFinding, b: EvalFinding, percent: nat) {
    && a.tokens != {} && b.tokens != {}
    && (100 * |a.tokens * b.tokens| >= percent * |a.tokens| || 100 * |a.tokens * b.tokens| >= percent * |b.tokens|)
  }

  lemma RatioAtLeast(n: nat, m: nat, percent: nat)
    requires m > 0
    ensures n as real / m as real >= percent as real / 100.0 <==> 100 * n >= percent * m
  {
    var q := n as real / m as real;
    assert q * m as real == n as real;
    if q >= percent as real / 100.0 {
      assert (q - percent as real / 100.0) * m as real >= 0.0;
      assert 100.0 * n as real >= percent as real * m as real;
    } else {
      assert (percent as real / 100.0 - q) * m as real > 0.0;
      assert 100.0 * n as real < percent as real * m as real;
    }
    assert (100 * n) as real == 100.0 * n as real && (percent * m) as real == percent as real * m as real;
  }

  lemma OverlapReaches(a: EvalFinding, b: EvalFinding, percent: nat)
    requires percent > 0
    ensures TokenOverlap(a, b) >= percent as real / 100.0 <==> SharesTokens(a, b, percent)
  {
    if a.tokens != {} && b.tokens != {} {
      var n, m := |a.tokens * b.tokens|, Min(|a.tokens|, |b.tokens|);
      RatioAtLeast(n, m, percent);
      assert percent * m <= percent * |a.tokens| && percent * m <= percent * |b.tokens|;
    }
  }

  /** When a finding matches a label, and how: on the same line with a quarter of the tokens shared,
      within three lines with 35 percent, anywhere in the file with 55 percent. */
  lemma MatchKindsExactly(finding: EvalFinding, expected: EvalFinding)
    ensures var kind := ClassifyMatch(finding, expected);
      var near := -3 <= finding.line - expected.line <= 3;
      var exact := finding.line == expected.line && SharesTokens(finding, expected, 25);
      var nearby := near && SharesTokens(finding, expected, 35);
      var same := finding.severity == expected.severity;
      && (kind == Some(ExactLine) <==> same && exact)
      && (kind == Some(NearbyLine) <==> same && !exact && nearby)
      && (kind == Some(Semantic) <==> same && !exact && !nearby && SharesTokens(finding, expected, 55))
  {
    OverlapReaches(finding, expected, 25);
    OverlapReaches(finding, expected, 35);
    OverlapReaches(finding, expected, 55);
    hide TokenOverlap, SharesTokens;
  }

  predicate IsCandidate(c: Candidate, findings: seq<EvalFinding>, labels: seq<EvalFinding>) {
    && c.finding in findings && c.expected in labels && c.finding.path == c.expected.path
    && ClassifyMatch(c.finding, c.expected) == Some(c.kind)
  }

  // ---------------------------------------------------------------- candidates

  function CandidatesOfLabel(findings: seq<EvalFinding>, expected: EvalFinding): seq<Candidate> {
    if findings == [] then []
    else
      var kind := ClassifyMatch(findings[0], expected);
      (if findings[0].path == expected.path && kind.Some? then [Candidate(findings[0], expected, kind.value)] else [])
      + CandidatesOfLabel(findings[1..], expected)
  }

  function Candidates(findings: seq<EvalFinding>, labels: seq<EvalFinding>): seq<Candidate> {
    if labels == [] then [] else CandidatesOfLabel(findings, labels[0]) + Candidates(findings, labels[1..])
  }

  lemma {:induction false} CandidatesOfLabelExact(findings: seq<EvalFinding>, expected: EvalFinding, c: Candidate)
    ensures c in CandidatesOfLabel(findings, expected) <==> c.expected == expected && IsCandidate(c, findings, [expected])
  {
    if findings != [] {
      CandidatesOfLabelExact(findings[1..], expected, c);
      assert findings == [findings[0]] + findings[1..];
    }
  }

  lemma {:induction false} CandidatesExact(findings: seq<EvalFinding>, labels: seq<EvalFinding>, c: Candidate)
    ensures c in Candidates(findings, labels) <==> IsCandidate(c, findings, labels)
  {
    if labels != [] {
      CandidatesOfLabelExact(findings, labels[0], c);
      CandidatesExact(findings, labels[1..], c);
      assert labels == [labels[0]] + labels[1..];
    }
  }

  // ---------------------------------------------------------------- rank order

  function MatchRank(kind: Kind): nat {
    match kind
    case ExactLine => 0
    case NearbyLine => 1
    case Semantic => 2
  }

  function Distance(c: Candidate): nat { Abs(c.finding.line - c.expected.line) }

  predicate Before(a: Candidate, b: Candidate, collate: (string, string) -> bool) {
    if MatchRank(a.kind) != MatchRank(b.kind) then MatchRank(a.kind) < MatchRank(b.kind)
    else if Distance(a) != Distance(b) then Distance(a) < Distance(b)
    else if a.finding.confidence != b.finding.confidence then a.finding.confidence > b.finding.confidence
    else collate(a.expected.id, b.expected.id)
  }

  function Order(collate: (string, string) -> bool): (Candidate, Candidate) -> bool {
    (a: Candidate, b: Candidate) => Before(a, b, collate)
  }

  lemma OrderIsPreorder(collate: (string, string) -> bool)
    requires Sorting.TotalPreorder(collate)
    ensures Sorting.TotalPreorder(Order(collate))
  {
  }

  // ---------------------------------------------------------------- the greedy choice

  predicate SharesEnd(a: Candidate, b: Candidate) {
    a.finding.id == b.finding.id || a.expected.id == b.expected.id
  }

  predicate Blocked(chosen: seq<Candidate>, c: Candidate) {
    exists m :: m in chosen && SharesEnd(m, c)
  }

  function Greedy(candidates: seq<Candidate>): seq<Candidate> {
    if candidates == [] then []
    else
      var chosen, c := Greedy(candidates[..|candidates| - 1]), candidates[|candidates| - 1];
      if Blocked(chosen, c) then chosen else chosen + [c]
  }

  /** No two members share a finding or a label. */
  ghost predicate IsMatching(m: seq<Candidate>) {
    forall i, j :: 0 <= i < j < |m| ==> !SharesEnd(m[i], m[j])
  }

  lemma {:induction false} GreedyIsMatching(candidates: seq<Candidate>)
    ensures IsMatching(Greedy(candidates))
    ensures forall c :: c in Greedy(candidates) ==> c in candidates
  {
    if candidates != [] {
      GreedyIsMatching(candidates[..|candidates| - 1]);
    }
  }

  lemma {:induction false} GreedyGrows(candidates: seq<Candidate>, k: nat)
    requires k <= |candidates|
    ensures Greedy(candidates[..k]) <= Greedy(candidates)
    decreases |candidates|
  {
    if k < |candidates| {
      var init := candidates[..|candidates| - 1];
      GreedyGrows(init, k);
      assert init[..k] == candidates[..k];
    } else {
      assert candidates[..k] == candidates;
    }
  }

  /** A candidate that was not chosen shares an end with a chosen one that was sorted no later. */
  lemma UnchosenIsBlocked(candidates: seq<Candidate>, k: nat, le: (Candidate, Candidate) -> bool)
    requires k < |candidates| && Sorting.InOrder(candidates, le)
    requires candidates[k] !in Greedy(candidates)
    ensures exists m :: m in Greedy(candidates) && SharesEnd(m, candidates[k]) && le(m, candidates[k])
  {
    var c := candidates[k];
    var chosen := Greedy(candidates[..k]);
    assert candidates[..k + 1][..k] == candidates[..k];
    GreedyGrows(candidates, k);
    GreedyGrows(candidates, k + 1);
    GreedyIsMatching(candidates[..k]);
    assert (chosen + [c])[|chosen|] == c;
    assert Blocked(chosen, c);
    var m :| m in chosen && SharesEnd(m, c);
    assert m in candidates[..k];
    var j :| 0 <= j < k && candidates[j] == m;
    assert le(candidates[j], candidates[k]);
  }

  // ---------------------------------------------------------------- at least half of any matching

  function FindingIds(m: seq<Candidate>): set<string> { set c | c in m :: c.finding.id }

  function LabelIds(m: seq<Candidate>): set<string> { set c | c in m :: c.expected.id }

  lemma {:induction false} IdsAreDistinct(m: seq<Candidate>)
    requires IsMatching(m)
    ensures |FindingIds(m)| == |m| && |LabelIds(m)| == |m|
  {
    if m != [] {
      var init, last := m[..|m| - 1], m[|m| - 1];
      IdsAreDistinct(init);
      assert m == init + [last];
      assert FindingIds(m) == FindingIds(init) + {last.finding.id};
      assert LabelIds(m) == LabelIds(init) + {last.expected.id};
    }
  }

  /** A set of rivals each touching a used end is no larger than the number of used ends. */
  lemma {:induction false} TouchingBound(rivals: seq<Candidate>, findings: set<string>, labels: set<string>)
    requires IsMatching(rivals)
    requires forall c :: c in rivals ==> c.finding.id in findings || c.expected.id in labels
    ensures |rivals| <= |findings| + |labels|
    decreases |rivals|
  {
    if rivals != [] {
      var init, last := rivals[..|rivals| - 1], rivals[|rivals| - 1];
      assert forall c :: c in init ==> c in rivals;
      forall c | c in init ensures !SharesEnd(c, last) {
        var i :| 0 <= i < |init| && init[i] == c;
        assert rivals[i] == c;
      }
      if last.finding.id in findings {
        TouchingBound(init, findings - {last.finding.id}, labels);
      } else {
        TouchingBound(init, findings, labels - {last.expected.id});
      }
    }
  }

  /** Greedy matching has at least half as many pairs as any matching of the same candidates. */
  lemma GreedyIsHalfOfAny(candidates: seq<Candidate>, rivals: seq<Candidate>)
    requires IsMatching(rivals) && forall c :: c in rivals ==> c in candidates
    ensures |rivals| <= 2 * |Greedy(candidates)|
  {
    var g := Greedy(candidates);
    GreedyIsMatching(candidates);
    IdsAreDistinct(g);
    var any := (a: Candidate, b: Candidate) => true;
    forall c | c in rivals ensures c.finding.id in FindingIds(g) || c.expected.id in LabelIds(g) {
      if c !in g {
        var k :| 0 <= k < |candidates| && candidates[k] == c;
        UnchosenIsBlocked(candidates, k, any);
      }
    }
    TouchingBound(rivals, FindingIds(g), LabelIds(g));
  }

  // ---------------------------------------------------------------- the loop of matchFindings

  function ToMatch(c: Candidate): EvalMatch { EvalMatch(c.finding.id, c.expected.id, c.kind) }

  function ToMatches(chosen: seq<Candidate>): seq<EvalMatch> {
    seq(|chosen|, k requires 0 <= k < |chosen| => ToMatch(chosen[k]))
  }

  function Ranked(findings: seq<EvalFinding>, labels: seq<EvalFinding>, collate: (string, string) -> bool): seq<Candidate> {
    Sorting.Sort(Candidates(findings, labels), Order(collate))
  }

  method MatchFindings(findings: seq<EvalFinding>, labels: seq<EvalFinding>, collate: (string, string) -> bool)
    returns (matches: seq<EvalMatch>)
    ensures matches == ToMatches(Greedy(Ranked(findings, labels, collate)))
  {
    hide Ranked;
    var candidates := Ranked(findings, labels, collate);
    var usedBotIds: set<string>, usedLabelIds: set<string> := {}, {};
    ghost var chosen: seq<Candidate> := [];
    var found: seq<EvalMatch> := [];
    for i := 0 to |candidates|
      invariant chosen == Greedy(candidates[..i])
      invariant found == ToMatches(chosen)
      invariant usedBotIds == FindingIds(chosen) && usedLabelIds == LabelIds(chosen)
    {
      var candidate := candidates[i];
      assert candidates[..i + 1][..i] == candidates[..i];
      assert Blocked(chosen, candidate) <==> candidate.finding.id in usedBotIds || candidate.expected.id in usedLabelIds;
      if candidate.finding.id in usedBotIds || candidate.expected.id in usedLabelIds { continue; }
      usedBotIds := usedBotIds + {candidate.finding.id};
      usedLabelIds := usedLabelIds + {candidate.expected.id};
      chosen := chosen + [candidate];
      found := found + [ToMatch(candidate)];
    }
    assert candidates[..|candidates|] == candidates;
    // The closing filter keeps everything.
    matches := [];
    for i := 0 to |found|
      invariant matches == found[..i]
    {
      assert found[i].labelId == chosen[i].expected.id;
      assert chosen[i] in chosen;
      if found[i].labelId in usedLabelIds { matches := matches + [found[i]]; }
    }
  }

  /** What the matching promises about the findings and labels it was given. */
  lemma MatchFindingsCorrect(findings: seq<EvalFinding>, labels: seq<EvalFinding>, collate: (string, string) -> bool)
    requires Sorting.TotalPreorder(collate)
    ensures var g := Greedy(Ranked(findings, labels, collate));
      && IsMatching(g)
      && (forall c :: c in g ==> IsCandidate(c, findings, labels))
      && (forall c :: IsCandidate(c, findings, labels) && c !in g ==>
            exists m :: m in g && SharesEnd(m, c) && Before(m, c, collate))
      && (forall rivals :: IsMatching(rivals) && (forall c :: c in rivals ==> IsCandidate(c, findings, labels)) ==>
            |rivals| <= 2 * |g|)
  {
    var all, le := Candidates(findings, labels), Order(collate);
    var ranked := Ranked(findings, labels, collate);
    var g := Greedy(ranked);
    OrderIsPreorder(collate);
    Sorting.SortPermutes(all, le);
    Sorting.SortOrders(all, le);
    forall c ensures c in ranked <==> IsCandidate(c, findings, labels) {
      CandidatesExact(findings, labels, c);
      assert c in ranked <==> c in multiset(ranked);
      assert c in all <==> c in multiset(all);
    }
    GreedyIsMatching(ranked);
    forall c | IsCandidate(c, findings, labels) && c !in g
      ensures exists m :: m in g && SharesEnd(m, c) && Before(m, c, collate)
    {
      var k :| 0 <= k < |ranked| && ranked[k] == c;
      UnchosenIsBlocked(ranked, k, le);
      var m :| m in g && SharesEnd(m, c) && le(m, c);
    }
    forall rivals | IsMatching(rivals) && (forall c :: c in rivals ==> IsCandidate(c, findings, labels))
      ensures |rivals| <= 2 * |g|
    {
      GreedyIsHalfOfAny(ranked, rivals);
    }
  }

  /** Every candidate left out gave way, at its finding or its label, to a chosen one: never an
      exact-line match to another kind, nor a nearby one to a semantic one; and between two of one kind
      only to one at most as far from its label, at equal distance only to one at least as confident. */
  lemma LeftOutForABetterOne(findings: seq<EvalFinding>, labels: seq<EvalFinding>, collate: (string, string) -> bool, c: Candidate)
    requires Sorting.TotalPreorder(collate) && IsCandidate(c, findings, labels)
    requires c !in Greedy(Ranked(findings, labels, collate))
    ensures exists m :: m in Greedy(Ranked(findings, labels, collate)) && IsCandidate(m, findings, labels) && GivesWay(c, m)
  {
    MatchFindingsCorrect(findings, labels, collate);
    var g := Greedy(Ranked(findings, labels, collate));
    var m :| m in g && SharesEnd(m, c) && Before(m, c, collate);
    hide Greedy, Ranked, IsCandidate;
    assert GivesWay(c, m);
  }

  predicate GivesWay(c: Candidate, m: Candidate) {
    var far, near := c.finding.line - c.expected.line, m.finding.line - m.expected.line;
    && (m.finding.id == c.finding.id || m.expected.id == c.expected.id)
    && (c.kind == ExactLine ==> m.kind == ExactLine)
    && (c.kind == NearbyLine ==> m.kind != Semantic)
    && (m.kind == c.kind ==> Abs(near) <= Abs(far))
    && (m.kind == c.kind && Abs(near) == Abs(far) ==> m.finding.confidence >= c.finding.confidence)
  }

  // ---------------------------------------------------------------- scorecard counts

  datatype Counts = Counts(
    botFindings: int, labels: int, truePositive: int, falsePositive: int, falseNegative: int,
    exactLineMatches: int, nearbyLineMatches: int, semanticMatches: int)

  function BotIds(matches: seq<EvalMatch>): set<string> { set m | m in matches :: m.botFindingId }

  function MatchedLabelIds(matches: seq<EvalMatch>): set<string> { set m | m in matches :: m.labelId }

  function CountKind(matches: seq<EvalMatch>, kind: Kind): nat {
    if matches == [] then 0 else (if matches[0].kind == kind then 1 else 0) + CountKind(matches[1..], kind)
  }

  function ScorecardCounts(findings: seq<EvalFinding>, labels: seq<EvalFinding>, matches: seq<EvalMatch>): Counts {
    var truePositive := |BotIds(matches)|;
    Counts(|findings|, |labels|, truePositive, |findings| - truePositive, |labels| - |MatchedLabelIds(matches)|,
           CountKind(matches, ExactLine), CountKind(matches, NearbyLine), CountKind(matches, Semantic))
  }

  ghost predicate DistinctIds(fs: seq<EvalFinding>) {
    forall i, j :: 0 <= i < j < |fs| ==> fs[i].id != fs[j].id
  }

  function Outside(fs: seq<EvalFinding>, ids: set<string>): seq<EvalFinding> {
    if fs == [] then [] else (if fs[0].id in ids then [] else [fs[0]]) + Outside(fs[1..], ids)
  }

  lemma {:induction false} KindsAddUp(matches: seq<EvalMatch>)
    ensures CountKind(matches, ExactLine) + CountKind(matches, NearbyLine) + CountKind(matches, Semantic) == |matches|
  {
    if matches != [] { KindsAddUp(matches[1..]); }
  }

  /** With distinct identifiers, those named by `ids` and those outside it make up the list. */
  lemma {:induction false} OutsideCount(fs: seq<EvalFinding>, ids: set<string>)
    requires DistinctIds(fs) && forall id :: id in ids ==> exists f :: f in fs && f.id == id
    ensures |fs| == |ids| + |Outside(fs, ids)|
    decreases |fs|
  {
    if fs == [] {
      assert ids == {};
    } else {
      var rest := ids - {fs[0].id};
      forall id | id in rest ensures exists f :: f in fs[1..] && f.id == id {
        var f :| f in fs && f.id == id;
        assert f in fs[1..];
      }
      OutsideCount(fs[1..], rest);
      OutsideIgnores(fs[1..], ids, fs[0].id);
    }
  }

  lemma {:induction false} OutsideIgnores(fs: seq<EvalFinding>, ids: set<string>, id: string)
    requires forall f :: f in fs ==> f.id != id
    ensures Outside(fs, ids) == Outside(fs, ids - {id})
  {
    if fs != [] {
      assert fs[0] in fs;
      OutsideIgnores(fs[1..], ids, id);
    }
  }

  /** True positives and false positives are exactly the matched and unmatched findings, false
      negatives the unmatched labels, and the kinds add up to the true positives. */
  lemma CountsAreExact(findings: seq<EvalFinding>, labels: seq<EvalFinding>, collate: (string, string) -> bool)
    requires Sorting.TotalPreorder(collate) && DistinctIds(findings) && DistinctIds(labels)
    ensures
      var matches := ToMatches(Greedy(Ranked(findings, labels, collate)));
      var counts := ScorecardCounts(findings, labels, matches);
      && counts.truePositive == |matches| == |MatchedLabelIds(matches)|
      && counts.falsePositive == |Outside(findings, BotIds(matches))|
      && counts.falseNegative == |Outside(labels, MatchedLabelIds(matches))|
      && counts.truePositive + counts.falsePositive == |findings|
      && counts.truePositive + counts.falseNegative == |labels|
      && counts.exactLineMatches + counts.nearbyLineMatches + counts.semanticMatches == counts.truePositive
  {
    var g := Greedy(Ranked(findings, labels, collate));
    var matches := ToMatches(g);
    MatchFindingsCorrect(findings, labels, collate);
    IdsAreDistinct(g);
    MatchIds(g);
    KindsAddUp(matches);
    forall id | id in BotIds(matches) ensures exists f :: f in findings && f.id == id {
      var c :| c in g && c.finding.id == id;
    }
    forall id | id in MatchedLabelIds(matches) ensures exists f :: f in labels && f.id == id {
      var c :| c in g && c.expected.id == id;
    }
    OutsideCount(findings, BotIds(matches));
    OutsideCount(labels, MatchedLabelIds(matches));
  }

  lemma MatchIds(g: seq<Candidate>)
    ensures BotIds(ToMatches(g)) == FindingIds(g) && MatchedLabelIds(ToMatches(g)) == LabelIds(g)
  {
    var matches := ToMatches(g);
    forall c | c in g ensures ToMatch(c) in matches {
      var k :| 0 <= k < |g| && g[k] == c;
      assert matches[k] == ToMatch(c);
    }
    assert forall m :: m in matches ==> exists c :: c in g && ToMatch(c) == m;
  }
}
