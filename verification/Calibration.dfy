/** Confidence bins, the calibration aggregate and the two promotion gates
  (src/calibration-aggregate.ts and the bin and gate functions of src/eval-harness.ts), over exact
  reals. A label store record keeps the fields the arithmetic reads.
*/
module Calibration {
  import opened Basics
  import Sorting
  import Wilson

  datatype Verdict = TruePositive | FalsePositive | Unvalidated

  datatype OutcomeLabel = OutcomeLabel(
    fingerprint: string, confidence: real, verdict: Verdict, explicitControl: bool, severity: Severity, category: string)

  datatype BinFinding = BinFinding(id: string, confidence: real)

  datatype Bin = Bin(minConfidence: real, maxConfidence: real)

  datatype BinStat = BinStat(
    minConfidence: real, maxConfidence: real, findings: nat, matched: nat,
    empiricalPrecision: real, rawWilsonLowerBound: real)

  const LOW := Bin(0.0, 0.5)
  const MIDDLE := Bin(0.5, 0.8)
  const HIGH := Bin(0.8, 1.01)

  const MIN_WILSON_LOWER_BOUND := 0.95
  const MIN_LABELED_FINDINGS := 100
  const MIN_P0P1_LABELS := 30
  const MIN_NEGATIVE_CONTROL_SCENARIOS := 10

  function Filter<T>(s: seq<T>, keep: T -> bool): seq<T> {
    if s == [] then [] else Filter(s[..|s| - 1], keep) + (if keep(s[|s| - 1]) then [s[|s| - 1]] else [])
  }

  function Count<T>(s: seq<T>, keep: T -> bool): nat { |Filter(s, keep)| }

  function And<T>(p: T -> bool, q: T -> bool): T -> bool { x => p(x) && q(x) }

  lemma AndTest<T>(p: T -> bool, q: T -> bool, x: T)
    ensures And(p, q)(x) <==> p(x) && q(x)
  {
  }

  /** Where in the list the test holds. */
  function Positions<T>(s: seq<T>, p: T -> bool): set<nat> { set i: nat | i < |s| && p(s[i]) }

  lemma {:induction false} CountIsPositions<T>(s: seq<T>, p: T -> bool)
    ensures Count(s, p) == |Positions(s, p)|
  {
    if s != [] {
      var init, last := s[..|s| - 1], |s| - 1;
      CountIsPositions(init, p);
      assert Positions(s, p) == Positions(init, p) + (if p(s[last]) then {last} else {});
    }
  }

  // ---------------------------------------------------------------- confidence bins

  predicate InBin(f: BinFinding, bin: Bin) {
    bin.minConfidence <= f.confidence < bin.maxConfidence
  }

  function In(bin: Bin): BinFinding -> bool { f => InBin(f, bin) }

  function HasId(ids: set<string>): BinFinding -> bool { (f: BinFinding) => f.id in ids }

  predicate Any(f: BinFinding) { true }

  /** The range the three bins cover together. */
  predicate InAnyBin(f: BinFinding) { 0.0 <= f.confidence < 1.01 }

  function BinStatOf(findings: seq<BinFinding>, matchedIds: set<string>, bin: Bin, sqrt: real -> real): BinStat {
    var inside := Filter(findings, In(bin));
    var matched := Count(inside, HasId(matchedIds));
    BinStat(bin.minConfidence, if bin.maxConfidence == 1.01 then 1.0 else bin.maxConfidence, |inside|, matched,
            if |inside| == 0 then 0.0 else matched as real / |inside| as real,
            Wilson.WilsonLowerBound95(matched, |inside|, sqrt))
  }

  function ComputeConfidenceBinStats(findings: seq<BinFinding>, matchedIds: set<string>, sqrt: real -> real)
    : (bins: seq<BinStat>)
    ensures |bins| == 3
  {
    [BinStatOf(findings, matchedIds, LOW, sqrt),
     BinStatOf(findings, matchedIds, MIDDLE, sqrt),
     BinStatOf(findings, matchedIds, HIGH, sqrt)]
  }

  lemma {:induction false} FilterTwice<T>(s: seq<T>, p: T -> bool, q: T -> bool)
    ensures Filter(Filter(s, p), q) == Filter(s, And(p, q))
  {
    if s != [] {
      var init, last := s[..|s| - 1], s[|s| - 1];
      FilterTwice(init, p, q);
      var t := Filter(init, p) + [last];
      assert t[..|t| - 1] == Filter(init, p);
      assert Filter(init, p) + [] == Filter(init, p);
    }
  }

  lemma {:induction false} CountExtensional<T>(s: seq<T>, p: T -> bool, q: T -> bool)
    requires forall x :: x in s ==> p(x) == q(x)
    ensures Filter(s, p) == Filter(s, q)
  {
    if s != [] { CountExtensional(s[..|s| - 1], p, q); }
  }

  lemma {:induction false} CountImplies<T>(s: seq<T>, p: T -> bool, q: T -> bool)
    requires forall x :: x in s && p(x) ==> q(x)
    ensures Count(s, p) <= Count(s, q)
    ensures Count(s, p) == Count(s, q) <==> forall x :: x in s && q(x) ==> p(x)
  {
    if s != [] {
      CountImplies(s[..|s| - 1], p, q);
      assert s == s[..|s| - 1] + [s[|s| - 1]];
    }
  }

  lemma {:induction false} BinsPartition(findings: seq<BinFinding>, keep: BinFinding -> bool)
    ensures Count(findings, And(In(LOW), keep)) + Count(findings, And(In(MIDDLE), keep))
            + Count(findings, And(In(HIGH), keep))
            == Count(findings, And(InAnyBin, keep))
  {
    if findings != [] { BinsPartition(findings[..|findings| - 1], keep); }
  }

  lemma {:induction false} CountAll<T>(s: seq<T>, p: T -> bool)
    ensures Count(s, p) <= |s|
    ensures Count(s, p) == |s| <==> forall x :: x in s ==> p(x)
  {
    if s != [] {
      CountAll(s[..|s| - 1], p);
      assert s == s[..|s| - 1] + [s[|s| - 1]];
    }
  }

  lemma BinCounts(findings: seq<BinFinding>, matchedIds: set<string>, bin: Bin, sqrt: real -> real)
    ensures var b := BinStatOf(findings, matchedIds, bin, sqrt);
      && b.findings == Count(findings, And(In(bin), Any))
      && b.matched == Count(findings, And(In(bin), HasId(matchedIds)))
      && b.matched <= b.findings
  {
    CountExtensional(findings, In(bin), And(In(bin), Any));
    FilterTwice(findings, In(bin), HasId(matchedIds));
    CountAll(Filter(findings, In(bin)), HasId(matchedIds));
  }

  /** The bins cover every finding exactly once if and only if no confidence lies outside [0, 1.01). */
  lemma BinSizesSum(findings: seq<BinFinding>, matchedIds: set<string>, sqrt: real -> real)
    ensures var bins := ComputeConfidenceBinStats(findings, matchedIds, sqrt);
      && (bins[0].findings + bins[1].findings + bins[2].findings == |findings|
          <==> forall f :: f in findings ==> InAnyBin(f))
      && bins[0].matched + bins[1].matched + bins[2].matched == Count(findings, And(InAnyBin, HasId(matchedIds)))
  {
    BinCounts(findings, matchedIds, LOW, sqrt);
    BinCounts(findings, matchedIds, MIDDLE, sqrt);
    BinCounts(findings, matchedIds, HIGH, sqrt);
    BinsPartition(findings, Any);
    BinsPartition(findings, HasId(matchedIds));
    CountAll(findings, And(InAnyBin, Any));
  }

  // ---------------------------------------------------------------- per-category counts

  datatype CategoryPrecision = CategoryPrecision(category: string, labeled: nat, matched: nat, precision: real)

  datatype Tally = Tally(labeled: nat, matched: nat)

  /** Categories in order of first appearance, as a Map lists its keys. */
  function FirstSeen(labels: seq<OutcomeLabel>): seq<string> {
    if labels == [] then []
    else
      var seen, c := FirstSeen(labels[..|labels| - 1]), labels[|labels| - 1].category;
      if c in seen then seen else seen + [c]
  }

  function OfCategory(category: string): OutcomeLabel -> bool { (l: OutcomeLabel) => l.category == category }

  predicate IsTruePositive(l: OutcomeLabel) { l.verdict == TruePositive }

  function TallyOf(labels: seq<OutcomeLabel>, category: string): Tally {
    Tally(Count(labels, OfCategory(category)), Count(labels, And(OfCategory(category), IsTruePositive)))
  }

  function EntryOf(category: string, tally: Tally): CategoryPrecision {
    CategoryPrecision(category, tally.labeled, tally.matched,
                      if tally.labeled == 0 then 0.0 else tally.matched as real / tally.labeled as real)
  }

  function Entries(labels: seq<OutcomeLabel>): seq<CategoryPrecision> {
    var seen := FirstSeen(labels);
    seq(|seen|, k requires 0 <= k < |seen| => EntryOf(seen[k], TallyOf(labels, seen[k])))
  }

  function ByCategory(collate: (string, string) -> bool): (CategoryPrecision, CategoryPrecision) -> bool {
    (a: CategoryPrecision, b: CategoryPrecision) => collate(a.category, b.category)
  }

  function CategoryTable(labels: seq<OutcomeLabel>, collate: (string, string) -> bool): seq<CategoryPrecision> {
    Sorting.Sort(Entries(labels), ByCategory(collate))
  }

  lemma {:induction false} FirstSeenExact(labels: seq<OutcomeLabel>)
    ensures forall c :: c in FirstSeen(labels) <==> exists l :: l in labels && l.category == c
    ensures forall i, j :: 0 <= i < j < |FirstSeen(labels)| ==> FirstSeen(labels)[i] != FirstSeen(labels)[j]
  {
    if labels != [] {
      var init, last := labels[..|labels| - 1], labels[|labels| - 1];
      FirstSeenExact(init);
      assert labels == init + [last];
    }
  }

  lemma TallyOfNone(category: string)
    ensures TallyOf([], category) == Tally(0, 0)
  {
  }

  lemma TallyStep(labels: seq<OutcomeLabel>, i: nat, category: string)
    requires i < |labels|
    ensures var before, now := TallyOf(labels[..i], category), TallyOf(labels[..i + 1], category);
            var hit := labels[i].category == category;
            now == Tally(before.labeled + (if hit then 1 else 0),
                         before.matched + (if hit && labels[i].verdict == TruePositive then 1 else 0))
  {
    assert labels[..i + 1][..i] == labels[..i];
  }

  method ComputeCategoryPrecision(validated: seq<OutcomeLabel>, collate: (string, string) -> bool)
    returns (table: seq<CategoryPrecision>)
    ensures table == CategoryTable(validated, collate)
  {
    hide TallyOf, Sorting.Sort;
    var byCategory: map<string, Tally> := map[];
    var order: seq<string> := [];
    forall c { TallyOfNone(c); }
    assert validated[..0] == [];
    for i := 0 to |validated|
      invariant order == FirstSeen(validated[..i])
      invariant forall c :: c in byCategory <==> c in order
      invariant forall c :: c in byCategory ==> byCategory[c] == TallyOf(validated[..i], c)
      invariant forall c :: c !in byCategory ==> TallyOf(validated[..i], c) == Tally(0, 0)
    {
      forall c { TallyStep(validated, i, c); }
      assert validated[..i + 1][..i] == validated[..i];
      var entry := if validated[i].category in byCategory then byCategory[validated[i].category] else Tally(0, 0);
      entry := entry.(labeled := entry.labeled + 1);
      if validated[i].verdict == TruePositive { entry := entry.(matched := entry.matched + 1); }
      if validated[i].category !in byCategory { order := order + [validated[i].category]; }
      byCategory := byCategory[validated[i].category := entry];
    }
    assert validated[..|validated|] == validated;
    var entries := seq(|order|, k requires 0 <= k < |order| && order[k] in byCategory =>
      EntryOf(order[k], byCategory[order[k]]));
    assert entries == Entries(validated);
    table := Sorting.Sort(entries, ByCategory(collate));
  }

  function SumLabeled(table: seq<CategoryPrecision>): nat {
    if table == [] then 0 else table[0].labeled + SumLabeled(table[1..])
  }

  function SumMatched(table: seq<CategoryPrecision>): nat {
    if table == [] then 0 else table[0].matched + SumMatched(table[1..])
  }

  lemma {:induction false} SumsIgnoreInsertion(
    x: CategoryPrecision, t: seq<CategoryPrecision>, le: (CategoryPrecision, CategoryPrecision) -> bool)
    ensures SumLabeled(Sorting.Insert(x, t, le)) == x.labeled + SumLabeled(t)
    ensures SumMatched(Sorting.Insert(x, t, le)) == x.matched + SumMatched(t)
  {
    if t == [] || le(x, t[0]) {
    } else {
      SumsIgnoreInsertion(x, t[1..], le);
    }
  }

  lemma {:induction false} SumsIgnoreOrder(t: seq<CategoryPrecision>, le: (CategoryPrecision, CategoryPrecision) -> bool)
    ensures SumLabeled(Sorting.Sort(t, le)) == SumLabeled(t) && SumMatched(Sorting.Sort(t, le)) == SumMatched(t)
  {
    if t != [] {
      SumsIgnoreOrder(t[1..], le);
      SumsIgnoreInsertion(t[0], Sorting.Sort(t[1..], le), le);
    }
  }

  function TalliesFrom(labels: seq<OutcomeLabel>, categories: seq<string>): Tally {
    if categories == [] then Tally(0, 0)
    else
      var here, later := TallyOf(labels, categories[0]), TalliesFrom(labels, categories[1..]);
      Tally(here.labeled + later.labeled, here.matched + later.matched)
  }

  lemma {:induction false} TalliesOfNone(categories: seq<string>)
    ensures TalliesFrom([], categories) == Tally(0, 0)
  {
    if categories != [] { TalliesOfNone(categories[1..]); }
  }

  /** One more label raises the tallies of a list of distinct categories by one if its category is listed. */
  lemma {:induction false} TalliesStep(init: seq<OutcomeLabel>, last: OutcomeLabel, categories: seq<string>)
    requires forall i, j :: 0 <= i < j < |categories| ==> categories[i] != categories[j]
    ensures var before, now := TalliesFrom(init, categories), TalliesFrom(init + [last], categories);
            var hit := if last.category in categories then 1 else 0;
            && now.labeled == before.labeled + hit
            && now.matched == before.matched + (if last.verdict == TruePositive then hit else 0)
  {
    assert (init + [last])[..|init|] == init;
    if categories != [] {
      TalliesStep(init, last, categories[1..]);
    }
  }

  lemma {:induction false} TalliesCoverAll(labels: seq<OutcomeLabel>, categories: seq<string>)
    requires forall i, j :: 0 <= i < j < |categories| ==> categories[i] != categories[j]
    requires forall l :: l in labels ==> l.category in categories
    ensures TalliesFrom(labels, categories)
            == Tally(|labels|, Count(labels, IsTruePositive))
  {
    if labels == [] {
      TalliesOfNone(categories);
    } else {
      var init, last := labels[..|labels| - 1], labels[|labels| - 1];
      assert labels == init + [last];
      TalliesCoverAll(init, categories);
      TalliesStep(init, last, categories);
    }
  }

  lemma {:induction false} SumsAreTallies(
    labels: seq<OutcomeLabel>, entries: seq<CategoryPrecision>, categories: seq<string>)
    requires |entries| == |categories|
    requires forall k :: 0 <= k < |categories| ==> entries[k] == EntryOf(categories[k], TallyOf(labels, categories[k]))
    ensures Tally(SumLabeled(entries), SumMatched(entries)) == TalliesFrom(labels, categories)
  {
    if categories != [] { SumsAreTallies(labels, entries[1..], categories[1..]); }
  }

  lemma ByCategoryIsPreorder(collate: (string, string) -> bool)
    requires Sorting.TotalPreorder(collate)
    ensures Sorting.TotalPreorder(ByCategory(collate))
  {
    var le := ByCategory(collate);
    forall a, b ensures le(a, b) || le(b, a) {
      assert collate(a.category, b.category) || collate(b.category, a.category);
    }
    forall a, b, c | le(a, b) && le(b, c) ensures le(a, c) {
      assert collate(a.category, b.category) && collate(b.category, c.category);
    }
  }

  /** The table lists each category once, in collation order, and its counts add up to all labels. */
  lemma CategoryTableExact(labels: seq<OutcomeLabel>, collate: (string, string) -> bool)
    requires Sorting.TotalPreorder(collate)
    ensures var table := CategoryTable(labels, collate);
      && Sorting.InOrder(table, ByCategory(collate))
      && multiset(table) == multiset(Entries(labels))
      && SumLabeled(table) == |labels|
      && SumMatched(table) == Count(labels, IsTruePositive)
  {
    var le := ByCategory(collate);
    ByCategoryIsPreorder(collate);
    Sorting.SortOrders(Entries(labels), le);
    Sorting.SortPermutes(Entries(labels), le);
    SumsIgnoreOrder(Entries(labels), le);
    FirstSeenExact(labels);
    SumsAreTallies(labels, Entries(labels), FirstSeen(labels));
    TalliesCoverAll(labels, FirstSeen(labels));
  }

  /** The table has an entry for a category if and only if some label has it, one only, and it counts
      that category's labels and those confirmed among them. */
  lemma CategoryEntriesExact(labels: seq<OutcomeLabel>, collate: (string, string) -> bool, e: CategoryPrecision)
    ensures e in CategoryTable(labels, collate) <==>
      && (exists l :: l in labels && l.category == e.category)
      && e.labeled == |Positions(labels, OfCategory(e.category))|
      && e.matched == |Positions(labels, ConfirmedIn(e.category))|
      && e.precision * e.labeled as real == e.matched as real
    ensures |CategoryTable(labels, collate)| == |set l | l in labels :: l.category|
  {
    var table, entries, seen := CategoryTable(labels, collate), Entries(labels), FirstSeen(labels);
    Sorting.SortPermutes(entries, ByCategory(collate));
    assert |table| == |multiset(table)| == |entries|;
    assert e in table <==> e in multiset(table);
    assert e in entries <==> e in multiset(entries);
    FirstSeenExact(labels);
    DistinctMembers(seen, set l | l in labels :: l.category);
    TallyIsPositions(labels, e.category);
    hide TallyOf, Positions, Sorting.Sort;
    if e.category in seen {
      PositiveTally(labels, e.category);
      var k :| 0 <= k < |seen| && seen[k] == e.category;
      assert entries[k].category == e.category;
      assert e in entries ==> e == entries[k];
      SameRatio(e, TallyOf(labels, e.category));
    }
  }

  lemma SameRatio(e: CategoryPrecision, t: Tally)
    requires t.labeled > 0
    ensures e == EntryOf(e.category, t) <==>
      e.labeled == t.labeled && e.matched == t.matched && e.precision * e.labeled as real == e.matched as real
  {
    if e.labeled == t.labeled && e.matched == t.matched && e.precision * e.labeled as real == e.matched as real {
      QuotientOf(e.precision, e.labeled as real, e.matched as real);
    } else if e == EntryOf(e.category, t) {
      QuotientOf(e.precision, e.labeled as real, e.matched as real);
    }
  }

  lemma QuotientOf(q: real, n: real, m: real)
    requires n > 0.0
    ensures q * n == m <==> q == m / n
  {
    if q * n == m { assert m / n == (q * n) / n == q; }
    if q == m / n { assert q * n == (m / n) * n == m; }
  }

  lemma TallyIsPositions(labels: seq<OutcomeLabel>, category: string)
    ensures var t := TallyOf(labels, category);
      && t.labeled == |Positions(labels, OfCategory(category))|
      && t.matched == |Positions(labels, ConfirmedIn(category))|
  {
    CountIsPositions(labels, OfCategory(category));
    forall l { ConfirmedInTest(l, category); }
    hide And, ConfirmedIn;
    CountExtensional(labels, And(OfCategory(category), IsTruePositive), ConfirmedIn(category));
    CountIsPositions(labels, ConfirmedIn(category));
  }

  function ConfirmedIn(category: string): OutcomeLabel -> bool {
    (l: OutcomeLabel) => l.category == category && l.verdict == TruePositive
  }

  lemma ConfirmedInTest(l: OutcomeLabel, category: string)
    ensures And(OfCategory(category), IsTruePositive)(l) <==> ConfirmedIn(category)(l)
  {
    AndTest(OfCategory(category), IsTruePositive, l);
  }

  lemma {:induction false} PositiveTally(labels: seq<OutcomeLabel>, category: string)
    requires exists l :: l in labels && l.category == category
    ensures TallyOf(labels, category).labeled > 0
  {
    var init, last := labels[..|labels| - 1], labels[|labels| - 1];
    assert labels == init + [last];
    if last.category != category { PositiveTally(init, category); }
  }

  lemma {:induction false} DistinctMembers(s: seq<string>, members: set<string>)
    requires forall i, j :: 0 <= i < j < |s| ==> s[i] != s[j]
    requires forall x :: x in s <==> x in members
    ensures |s| == |members|
  {
    if s == [] {
      assert members == {};
    } else {
      var init, last := s[..|s| - 1], s[|s| - 1];
      assert s == init + [last];
      DistinctMembers(init, members - {last});
    }
  }

  // ---------------------------------------------------------------- the aggregate and its gate

  datatype Reason =
    | InsufficientLabeledFindings
    | InsufficientP0P1Labels
    | InsufficientNegativeControls
    | WilsonLowerBoundBelowThreshold
    | Eligible

  datatype Aggregate = Aggregate(
    labeledFindings: nat, p0p1Labels: nat, negativeControlScenarios: nat, bins: seq<BinStat>,
    bestWilsonLowerBound: real, categoryPrecision: seq<CategoryPrecision>, reason: Reason)

  predicate IsValidated(l: OutcomeLabel) { l.verdict != Unvalidated && !l.explicitControl }

  predicate IsControl(l: OutcomeLabel) { l.explicitControl }

  predicate IsP0P1(l: OutcomeLabel) { l.severity == P0 || l.severity == P1 }

  function Validated(labels: seq<OutcomeLabel>): seq<OutcomeLabel> { Filter(labels, IsValidated) }

  function ToFindings(validated: seq<OutcomeLabel>): seq<BinFinding> {
    seq(|validated|, k requires 0 <= k < |validated| => BinFinding(validated[k].fingerprint, validated[k].confidence))
  }

  function MatchedIds(validated: seq<OutcomeLabel>): set<string> {
    set l | l in validated && l.verdict == TruePositive :: l.fingerprint
  }

  function Best(bins: seq<BinStat>): real {
    if bins == [] then 0.0 else MaxReal(Best(bins[..|bins| - 1]), bins[|bins| - 1].rawWilsonLowerBound)
  }

  function EvaluateThresholds(labeledFindings: int, p0p1Labels: int, negativeControls: int, best: real): Reason {
    if labeledFindings < MIN_LABELED_FINDINGS then InsufficientLabeledFindings
    else if p0p1Labels < MIN_P0P1_LABELS then InsufficientP0P1Labels
    else if negativeControls < MIN_NEGATIVE_CONTROL_SCENARIOS then InsufficientNegativeControls
    else if best < MIN_WILSON_LOWER_BOUND then WilsonLowerBoundBelowThreshold
    else Eligible
  }

  function AggregateCalibrationLabels(
    labels: seq<OutcomeLabel>, sqrt: real -> real, collate: (string, string) -> bool): Aggregate
  {
    var negativeControlScenarios := Count(labels, IsControl);
    var validated := Validated(labels);
    var bins := ComputeConfidenceBinStats(ToFindings(validated), MatchedIds(validated), sqrt);
    var best := Best(bins);
    var p0p1Labels := Count(validated, IsP0P1);
    Aggregate(|validated|, p0p1Labels, negativeControlScenarios, bins, best, CategoryTable(validated, collate),
              EvaluateThresholds(|validated|, p0p1Labels, negativeControlScenarios, best))
  }

  lemma {:induction false} FilterSplits<T>(a: seq<T>, b: seq<T>, p: T -> bool)
    ensures Filter(a + b, p) == Filter(a, p) + Filter(b, p)
  {
    if b == [] {
      assert a + b == a;
    } else {
      FilterSplits(a, b[..|b| - 1], p);
      assert (a + b)[..|a + b| - 1] == a + b[..|b| - 1];
    }
  }

  lemma FilterDropsOne<T>(before: seq<T>, x: T, after: seq<T>, p: T -> bool)
    requires !p(x)
    ensures Filter(before + [x] + after, p) == Filter(before + after, p)
  {
    FilterSplits(before + [x], after, p);
    FilterSplits(before, [x], p);
    FilterSplits(before, after, p);
    assert Filter([x], p) == [];
  }

  /** An unvalidated label that is not an explicit control earns nothing, wherever it stands. */
  lemma UnvalidatedEarnsNothing(
    before: seq<OutcomeLabel>, l: OutcomeLabel, after: seq<OutcomeLabel>, sqrt: real -> real,
    collate: (string, string) -> bool)
    requires l.verdict == Unvalidated && !l.explicitControl
    ensures AggregateCalibrationLabels(before + [l] + after, sqrt, collate)
            == AggregateCalibrationLabels(before + after, sqrt, collate)
  {
    FilterDropsOne(before, l, after, IsValidated);
    FilterDropsOne(before, l, after, IsControl);
  }

  /** With confidences in [0, 1] the bins and the categories both account for every validated label. */
  lemma AggregateConserves(labels: seq<OutcomeLabel>, sqrt: real -> real, collate: (string, string) -> bool)
    requires Sorting.TotalPreorder(collate)
    requires forall l :: l in labels ==> 0.0 <= l.confidence <= 1.0
    ensures var a := AggregateCalibrationLabels(labels, sqrt, collate);
      && |a.bins| == 3
      && a.bins[0].findings + a.bins[1].findings + a.bins[2].findings == a.labeledFindings
      && SumLabeled(a.categoryPrecision) == a.labeledFindings
  {
    var validated := Validated(labels);
    FilterSelects(labels, IsValidated);
    BinSizesSum(ToFindings(validated), MatchedIds(validated), sqrt);
    CategoryTableExact(validated, collate);
  }

  lemma {:induction false} FilterSelects<T>(s: seq<T>, p: T -> bool)
    ensures forall x :: x in Filter(s, p) <==> x in s && p(x)
  {
    if s != [] {
      FilterSelects(s[..|s| - 1], p);
      assert s == s[..|s| - 1] + [s[|s| - 1]];
    }
  }

  function Binned(ids: set<string>): OutcomeLabel -> bool {
    (l: OutcomeLabel) => 0.0 <= l.confidence < 1.01 && l.fingerprint in ids
  }

  /** Counting the findings made from labels is counting the labels. */
  lemma {:induction false} CountFindings(validated: seq<OutcomeLabel>, p: BinFinding -> bool, q: OutcomeLabel -> bool)
    requires forall l :: q(l) <==> p(BinFinding(l.fingerprint, l.confidence))
    ensures Count(ToFindings(validated), p) == Count(validated, q)
  {
    if validated != [] {
      var init := validated[..|validated| - 1];
      CountFindings(init, p, q);
      assert ToFindings(validated)[..|validated| - 1] == ToFindings(init);
    }
  }

  lemma BinnedTest(l: OutcomeLabel, ids: set<string>)
    ensures Binned(ids)(l) <==> And(InAnyBin, HasId(ids))(BinFinding(l.fingerprint, l.confidence))
  {
    AndTest(InAnyBin, HasId(ids), BinFinding(l.fingerprint, l.confidence));
  }

  lemma CountBinned(validated: seq<OutcomeLabel>, ids: set<string>)
    ensures Count(ToFindings(validated), And(InAnyBin, HasId(ids))) == Count(validated, Binned(ids))
  {
    forall l { BinnedTest(l, ids); }
    hide Binned, And;
    CountFindings(validated, And(InAnyBin, HasId(ids)), Binned(ids));
  }

  /** The bins' matched counts equal the true positives exactly when no false positive shares its
      fingerprint with a true positive: the bins look a finding up by fingerprint, not by record. */
  lemma MatchedCountsTruePositives(labels: seq<OutcomeLabel>, sqrt: real -> real, collate: (string, string) -> bool)
    requires forall l :: l in labels ==> 0.0 <= l.confidence <= 1.0
    ensures var a := AggregateCalibrationLabels(labels, sqrt, collate);
      var validated := Validated(labels);
      && |a.bins| == 3
      && (a.bins[0].matched + a.bins[1].matched + a.bins[2].matched
          == Count(validated, IsTruePositive)
          <==> forall fp :: fp in validated && fp.verdict == FalsePositive ==>
                 fp.fingerprint !in MatchedIds(validated))
  {
    var validated := Validated(labels);
    var ids := MatchedIds(validated);
    FilterSelects(labels, IsValidated);
    BinSizesSum(ToFindings(validated), ids, sqrt);
    CountBinned(validated, ids);
    CountImplies(validated, IsTruePositive,
                 Binned(ids));
  }

  /** A store with one shared fingerprint for which the counts differ. */
  lemma SharedFingerprintInflates(sqrt: real -> real, collate: (string, string) -> bool)
    ensures var t := OutcomeLabel("x", 0.9, TruePositive, false, P1, "c");
            var f := OutcomeLabel("x", 0.9, FalsePositive, false, P1, "c");
            var a := AggregateCalibrationLabels([t, f], sqrt, collate);
            && |a.bins| == 3
            && a.bins[0].matched + a.bins[1].matched + a.bins[2].matched != Count(Validated([t, f]), IsTruePositive)
  {
    var t := OutcomeLabel("x", 0.9, TruePositive, false, P1, "c");
    var f := OutcomeLabel("x", 0.9, FalsePositive, false, P1, "c");
    FilterSelects([t, f], IsValidated);
    assert t in Validated([t, f]) && f in Validated([t, f]);
    assert "x" in MatchedIds(Validated([t, f]));
    MatchedCountsTruePositives([t, f], sqrt, collate);
  }

  lemma {:induction false} BestIsAttained(bins: seq<BinStat>)
    ensures Best(bins) > 0.0 ==> exists k :: 0 <= k < |bins| && Best(bins) == bins[k].rawWilsonLowerBound
  {
    if bins != [] {
      BestIsAttained(bins[..|bins| - 1]);
      if Best(bins) > 0.0 && Best(bins) != bins[|bins| - 1].rawWilsonLowerBound {
        var k :| 0 <= k < |bins| - 1 && Best(bins[..|bins| - 1]) == bins[..|bins| - 1][k].rawWilsonLowerBound;
        assert bins[k] == bins[..|bins| - 1][k];
      }
    }
  }

  lemma BinBoundOrigin(findings: seq<BinFinding>, ids: set<string>, sqrt: real -> real, k: nat)
    requires k < 3
    ensures var b := ComputeConfidenceBinStats(findings, ids, sqrt)[k];
            b.rawWilsonLowerBound == Wilson.WilsonLowerBound95(b.matched, b.findings, sqrt)
            && (b.findings > 0 ==> b.empiricalPrecision == Wilson.Rate(b.matched, b.findings))
  {
  }

  lemma {:induction false} BestIsGreatest(bins: seq<BinStat>, floor: real)
    requires floor > 0.0
    ensures Best(bins) >= floor <==> exists k :: 0 <= k < |bins| && bins[k].rawWilsonLowerBound >= floor
  {
    if bins != [] {
      var init, last := bins[..|bins| - 1], |bins| - 1;
      BestIsGreatest(init, floor);
      assert forall k :: 0 <= k < last ==> init[k] == bins[k];
      if bins[last].rawWilsonLowerBound >= floor { assert 0 <= last < |bins|; }
    }
  }

  /** A label that counts as a finding: validated, and not a clean-run marker. */
  predicate IsFinding(l: OutcomeLabel) {
    (l.verdict == TruePositive || l.verdict == FalsePositive) && !l.explicitControl
  }

  function FindingsBetween(low: real, high: real): OutcomeLabel -> bool {
    (l: OutcomeLabel) => IsFinding(l) && low <= l.confidence < high
  }

  /** The fingerprints that some label confirms. */
  function Confirmed(labels: seq<OutcomeLabel>): set<string> {
    set l | l in labels && l.verdict == TruePositive && !l.explicitControl :: l.fingerprint
  }

  function ConfirmedBetween(labels: seq<OutcomeLabel>, low: real, high: real): OutcomeLabel -> bool {
    (l: OutcomeLabel) => IsFinding(l) && low <= l.confidence < high && l.fingerprint in Confirmed(labels)
  }

  predicate IsUrgentFinding(l: OutcomeLabel) { IsFinding(l) && (l.severity == P0 || l.severity == P1) }

  /** A bin holds the findings with a confidence in its range, and counts as matched those whose
      fingerprint is confirmed. */
  ghost predicate BinAccounts(b: BinStat, labels: seq<OutcomeLabel>, low: real, high: real, sqrt: real -> real) {
    && b.minConfidence == low
    && b.findings == |Positions(labels, FindingsBetween(low, high))|
    && b.matched == |Positions(labels, ConfirmedBetween(labels, low, high))|
    && b.rawWilsonLowerBound == Wilson.WilsonLowerBound95(b.matched, b.findings, sqrt)
    && b.empiricalPrecision * b.findings as real == b.matched as real
  }

  lemma BinOfLabels(labels: seq<OutcomeLabel>, bin: Bin, sqrt: real -> real)
    ensures var b := BinStatOf(ToFindings(Validated(labels)), MatchedIds(Validated(labels)), bin, sqrt);
      BinAccounts(b, labels, bin.minConfidence, bin.maxConfidence, sqrt)
  {
    hide BinStatOf, FindingsBetween, ConfirmedBetween, Count, Positions;
    var findings, ids := ToFindings(Validated(labels)), MatchedIds(Validated(labels));
    MatchedAreConfirmed(labels);
    BinCounts(findings, ids, bin, sqrt);
    BinCountsLabels(labels, bin);
    BinShape(findings, ids, bin, sqrt);
  }

  lemma MatchedAreConfirmed(labels: seq<OutcomeLabel>)
    ensures MatchedIds(Validated(labels)) == Confirmed(labels)
  {
    FilterSelects(labels, IsValidated);
  }

  lemma BinCountsLabels(labels: seq<OutcomeLabel>, bin: Bin)
    ensures var findings := ToFindings(Validated(labels));
      var low, high := bin.minConfidence, bin.maxConfidence;
      && Count(findings, And(In(bin), Any)) == |Positions(labels, FindingsBetween(low, high))|
      && Count(findings, And(In(bin), HasId(Confirmed(labels)))) == |Positions(labels, ConfirmedBetween(labels, low, high))|
  {
    var low, high := bin.minConfidence, bin.maxConfidence;
    forall l { BetweenTests(l, labels, bin); }
    hide FindingsBetween, ConfirmedBetween, And, IsFinding, In, HasId, Any, Confirmed, Count;
    CountOfFindings(labels, And(In(bin), Any), FindingsBetween(low, high));
    CountOfFindings(labels, And(In(bin), HasId(Confirmed(labels))), ConfirmedBetween(labels, low, high));
  }

  lemma BinShape(findings: seq<BinFinding>, ids: set<string>, bin: Bin, sqrt: real -> real)
    ensures var b := BinStatOf(findings, ids, bin, sqrt);
      && b.minConfidence == bin.minConfidence
      && b.rawWilsonLowerBound == Wilson.WilsonLowerBound95(b.matched, b.findings, sqrt)
      && b.empiricalPrecision * b.findings as real == b.matched as real
  {
    CountAll(Filter(findings, In(bin)), HasId(ids));
    var b := BinStatOf(findings, ids, bin, sqrt);
    if b.findings > 0 { QuotientOf(b.empiricalPrecision, b.findings as real, b.matched as real); }
  }

  lemma BetweenTests(l: OutcomeLabel, labels: seq<OutcomeLabel>, bin: Bin)
    ensures var f := BinFinding(l.fingerprint, l.confidence);
      var low, high := bin.minConfidence, bin.maxConfidence;
      && (FindingsBetween(low, high)(l) <==> IsFinding(l) && And(In(bin), Any)(f))
      && (ConfirmedBetween(labels, low, high)(l) <==> IsFinding(l) && And(In(bin), HasId(Confirmed(labels)))(f))
  {
    hide IsFinding;
    var f := BinFinding(l.fingerprint, l.confidence);
    AndTest(In(bin), Any, f);
    AndTest(In(bin), HasId(Confirmed(labels)), f);
  }

  lemma CountOfFindings(labels: seq<OutcomeLabel>, p: BinFinding -> bool, q: OutcomeLabel -> bool)
    requires forall l :: q(l) <==> IsFinding(l) && p(BinFinding(l.fingerprint, l.confidence))
    ensures Count(ToFindings(Validated(labels)), p) == |Positions(labels, q)|
  {
    var onLabel := (l: OutcomeLabel) => p(BinFinding(l.fingerprint, l.confidence));
    CountFindings(Validated(labels), p, onLabel);
    CountOfValidated(labels, onLabel, q);
  }

  lemma CountOfValidated(labels: seq<OutcomeLabel>, p: OutcomeLabel -> bool, q: OutcomeLabel -> bool)
    requires forall l :: q(l) <==> IsFinding(l) && p(l)
    ensures Count(Validated(labels), p) == |Positions(labels, q)|
  {
    FilterTwice(labels, IsValidated, p);
    CountExtensional(labels, And(IsValidated, p), q);
    CountIsPositions(labels, q);
  }

  /** The counts and bins of the aggregate, as sets of positions in the label store. */
  lemma AggregateAccounts(labels: seq<OutcomeLabel>, sqrt: real -> real, collate: (string, string) -> bool)
    ensures var a := AggregateCalibrationLabels(labels, sqrt, collate);
      && a.labeledFindings == |Positions(labels, IsFinding)|
      && a.p0p1Labels == |Positions(labels, IsUrgentFinding)|
      && a.negativeControlScenarios == |Positions(labels, (l: OutcomeLabel) => l.explicitControl)|
      && |a.bins| == 3
      && BinAccounts(a.bins[0], labels, 0.0, 0.5, sqrt)
      && BinAccounts(a.bins[1], labels, 0.5, 0.8, sqrt)
      && BinAccounts(a.bins[2], labels, 0.8, 1.01, sqrt)
  {
    hide BinAccounts, Wilson.WilsonLowerBound95;
    BinOfLabels(labels, LOW, sqrt);
    BinOfLabels(labels, MIDDLE, sqrt);
    BinOfLabels(labels, HIGH, sqrt);
    CountIsPositions(labels, IsControl);
    assert Positions(labels, IsControl) == Positions(labels, (l: OutcomeLabel) => l.explicitControl);
    CountExtensional(labels, IsValidated, IsFinding);
    CountIsPositions(labels, IsFinding);
    CountOfValidated(labels, IsP0P1, IsUrgentFinding);
  }

  /** The first gate that fails gives the reason, in this order: labels, urgent labels, controls, and a
      bin whose lower bound reaches 0.95. The store is eligible exactly when none fails. */
  lemma EligibleExactly(labels: seq<OutcomeLabel>, sqrt: real -> real, collate: (string, string) -> bool)
    ensures var a := AggregateCalibrationLabels(labels, sqrt, collate);
      var enough := a.labeledFindings >= 100;
      var urgent := a.p0p1Labels >= 30;
      var controls := a.negativeControlScenarios >= 10;
      var precise := exists k :: 0 <= k < |a.bins| && a.bins[k].rawWilsonLowerBound >= 0.95;
      && (a.reason == Eligible <==> enough && urgent && controls && precise)
      && (a.reason == InsufficientLabeledFindings <==> !enough)
      && (a.reason == InsufficientP0P1Labels <==> enough && !urgent)
      && (a.reason == InsufficientNegativeControls <==> enough && urgent && !controls)
      && (a.reason == WilsonLowerBoundBelowThreshold <==> enough && urgent && controls && !precise)
  {
    BestIsGreatest(AggregateCalibrationLabels(labels, sqrt, collate).bins, 0.95);
    hide Best, CategoryTable, ComputeConfidenceBinStats;
  }

  /** Eligibility forces the label counts, and one bin of at least 73 labels of which at least 95%
      were confirmed. */
  lemma EligibilityForcesEvidence(labels: seq<OutcomeLabel>, sqrt: real -> real, collate: (string, string) -> bool)
    requires Wilson.IsSquareRoot(sqrt)
    requires AggregateCalibrationLabels(labels, sqrt, collate).reason == Eligible
    ensures var a := AggregateCalibrationLabels(labels, sqrt, collate);
      && a.labeledFindings >= 100 && a.p0p1Labels >= 30 && a.negativeControlScenarios >= 10
      && (exists k :: 0 <= k < |a.bins| && a.bins[k].findings >= 73 && a.bins[k].empiricalPrecision >= 0.95)
  {
    var validated := Validated(labels);
    var findings, ids := ToFindings(validated), MatchedIds(validated);
    var a := AggregateCalibrationLabels(labels, sqrt, collate);
    BestIsAttained(a.bins);
    var k :| 0 <= k < |a.bins| && Best(a.bins) == a.bins[k].rawWilsonLowerBound;
    var b := a.bins[k];
    BinBoundOrigin(findings, ids, sqrt, k);
    Wilson.FloorForcesFindings(b.matched, b.findings, sqrt);
    Wilson.BoundInRange(b.matched, b.findings, sqrt);
  }

  // ---------------------------------------------------------------- the suite gate agrees

  /** choosePromotionReason: the suite gate, which also refuses a bound above one. */
  function ChoosePromotionReason(labeledFindings: int, p0p1Labels: int, negativeControls: int, best: real): Reason {
    if labeledFindings < MIN_LABELED_FINDINGS then InsufficientLabeledFindings
    else if p0p1Labels < MIN_P0P1_LABELS then InsufficientP0P1Labels
    else if negativeControls < MIN_NEGATIVE_CONTROL_SCENARIOS then InsufficientNegativeControls
    else if best < MIN_WILSON_LOWER_BOUND || best > 1.0 then WilsonLowerBoundBelowThreshold
    else Eligible
  }

  /** On every bound the bins can produce, the suite gate and the aggregate gate give the same reason. */
  lemma GatesAgree(findings: seq<BinFinding>, ids: set<string>, sqrt: real -> real, labeled: int, p0p1: int, controls: int)
    requires Wilson.IsSquareRoot(sqrt)
    ensures var best := Best(ComputeConfidenceBinStats(findings, ids, sqrt));
            ChoosePromotionReason(labeled, p0p1, controls, best) == EvaluateThresholds(labeled, p0p1, controls, best)
  {
    var bins := ComputeConfidenceBinStats(findings, ids, sqrt);
    if Best(bins) > 1.0 {
      BestIsAttained(bins);
      var k :| 0 <= k < |bins| && Best(bins) == bins[k].rawWilsonLowerBound;
      BinBoundOrigin(findings, ids, sqrt, k);
      Wilson.BoundInRange(bins[k].matched, bins[k].findings, sqrt);
    }
  }
}
