/** The context-budget planner (src/context-budget.ts).

  A greedy loop packs the changed files of a pull request, in order, into chunks whose prompt
  estimate fits a token budget. The main result is that the greedy packing is optimal: whenever
  every part of an in-budget run is itself in budget, the loop returns chunks exactly when some
  contiguous split into at most maxChunks parts exists, and it uses the fewest parts possible.
  Prompt building is a parameter.
*/
module ContextBudget {
  import opened Basics

  datatype PullFilePatch = PullFilePatch(filename: string, patch: string)

  datatype OverflowPolicy = Skip | Chunk

  datatype Config = Config(
    enabled: bool,
    overflow: OverflowPolicy,
    reservedOutputTokens: int,
    charsPerToken: real,
    providerFudgeFactor: real,
    maxChunks: int)

  datatype ContextBudgetChunk = ContextBudgetChunk(
    index: nat, files: seq<PullFilePatch>, filenames: seq<string>, estimatedTokens: int)

  datatype Refusal = Overflow | NoAvailableInputTokens | SingleFileOverflow | ChunkCountExceeded

  datatype ChunkResult = Chunks(chunks: seq<ContextBudgetChunk>) | Refused(reason: Refusal)

  datatype Plan = Plan(estimatedTokens: int, reservedOutputTokens: int, overflow: OverflowPolicy, mode: Mode)

  datatype Mode =
    | Disabled
    | UnknownWindow
    | WithinBudget(budgetTokens: int)
    | SkipReview(why: Refusal)
    | ChunkReview(budgetTokens: int, chunks: seq<ContextBudgetChunk>)

  type PromptBuilder = seq<PullFilePatch> -> string

  function Ceiling(x: real): int { -((-x).Floor) }

  function EstimateContextTokens(input: string, config: Config): int {
    var charsPerToken := MaxReal(1.0, config.charsPerToken);
    var fudge := MaxReal(0.01, config.providerFudgeFactor);
    Ceiling((|input| as real / charsPerToken) * fudge)
  }

  /** The estimate is the least number of tokens whose character allowance covers the scaled length. */
  lemma EstimateIsLeast(input: string, config: Config, tokens: int)
    ensures EstimateContextTokens(input, config) <= tokens <==>
            |input| as real * MaxReal(0.01, config.providerFudgeFactor)
            <= tokens as real * MaxReal(1.0, config.charsPerToken)
  {
    var charsPerToken := MaxReal(1.0, config.charsPerToken);
    var fudge := MaxReal(0.01, config.providerFudgeFactor);
    Rescale(|input| as real, charsPerToken, fudge, tokens as real);
  }

  lemma Rescale(length: real, charsPerToken: real, fudge: real, tokens: real)
    requires charsPerToken > 0.0
    ensures (length / charsPerToken) * fudge <= tokens <==> length * fudge <= tokens * charsPerToken
  {
  }

  function Estimate(files: seq<PullFilePatch>, config: Config, build: PromptBuilder): int {
    EstimateContextTokens(build(files), config)
  }

  predicate Fits(run: seq<PullFilePatch>, budget: int, config: Config, build: PromptBuilder) {
    Estimate(run, config, build) <= budget
  }

  // ---------------------------------------------------------------- splits

  /** Concatenation of a list of parts. */
  function Flatten<T>(parts: seq<seq<T>>): seq<T> {
    if parts == [] then [] else Flatten(parts[..|parts| - 1]) + parts[|parts| - 1]
  }

  /** Every part is non-empty and within the budget. */
  ghost predicate InBudgetParts(parts: seq<seq<PullFilePatch>>, budget: int, config: Config, build: PromptBuilder) {
    forall k :: 0 <= k < |parts| ==> parts[k] != [] && Fits(parts[k], budget, config, build)
  }

  ghost predicate IsSplit(
    parts: seq<seq<PullFilePatch>>, files: seq<PullFilePatch>, budget: int, config: Config, build: PromptBuilder)
  {
    InBudgetParts(parts, budget, config, build) && Flatten(parts) == files
  }

  ghost predicate Splittable(
    files: seq<PullFilePatch>, maxParts: int, budget: int, config: Config, build: PromptBuilder)
  {
    exists parts :: IsSplit(parts, files, budget, config, build) && |parts| <= maxParts
  }

  /** Every non-empty part of an in-budget run of `files` is in budget. */
  ghost predicate Hereditary(files: seq<PullFilePatch>, budget: int, config: Config, build: PromptBuilder) {
    forall a, b, c, d ::
      0 <= a <= b < c <= d <= |files| && Fits(files[a..d], budget, config, build)
      ==> Fits(files[b..c], budget, config, build)
  }

  /** Dropping files from either end of a run never raises its estimate. */
  ghost predicate MonotoneEstimate(files: seq<PullFilePatch>, config: Config, build: PromptBuilder) {
    forall a, b, c, d ::
      0 <= a <= b < c <= d <= |files|
      ==> Estimate(files[b..c], config, build) <= Estimate(files[a..d], config, build)
  }

  lemma MonotoneIsHereditary(files: seq<PullFilePatch>, budget: int, config: Config, build: PromptBuilder)
    requires MonotoneEstimate(files, config, build)
    ensures Hereditary(files, budget, config, build)
  {
  }

  /** The parts form an in-budget split of a prefix of `files`. */
  ghost predicate IsPrefixSplit(
    parts: seq<seq<PullFilePatch>>, files: seq<PullFilePatch>, budget: int, config: Config, build: PromptBuilder)
  {
    InBudgetParts(parts, budget, config, build) && Flatten(parts) <= files
  }

  /** No in-budget split of at most `count` parts reaches past position `reach`. */
  ghost predicate NoSplitReachesPast(
    files: seq<PullFilePatch>, count: nat, reach: nat, budget: int, config: Config, build: PromptBuilder)
  {
    forall parts :: IsPrefixSplit(parts, files, budget, config, build) && |parts| <= count
                    ==> |Flatten(parts)| <= reach
  }

  /** Greedy stays ahead: closing a chunk because the next file does not fit keeps the greedy cut
      at least as far as the cut of any rival split with the same number of parts. */
  lemma GreedyStaysAhead(
    files: seq<PullFilePatch>, count: nat, start: nat, next: nat, budget: int, config: Config, build: PromptBuilder)
    requires Hereditary(files, budget, config, build)
    requires start < next < |files|
    requires !Fits(files[start..next + 1], budget, config, build)
    requires NoSplitReachesPast(files, count, start, budget, config, build)
    ensures NoSplitReachesPast(files, count + 1, next, budget, config, build)
  {
    forall parts | IsPrefixSplit(parts, files, budget, config, build) && |parts| <= count + 1
      ensures |Flatten(parts)| <= next
    {
      if parts != [] {
        var init, last := parts[..|parts| - 1], parts[|parts| - 1];
        assert Fits(last, budget, config, build);
        var cut := |Flatten(init)|;
        assert IsPrefixSplit(init, files, budget, config, build);
        assert cut <= start;
        var end := cut + |last|;
        assert Flatten(parts) == files[..end];
        assert last == files[cut..end];
      }
    }
  }

  /** A file that is over budget on its own rules out every split. */
  lemma {:induction false} OversizeFileBlocks(
    files: seq<PullFilePatch>, at: nat, parts: seq<seq<PullFilePatch>>, budget: int, config: Config, build: PromptBuilder)
    requires Hereditary(files, budget, config, build)
    requires at < |files| && !Fits(files[at..at + 1], budget, config, build)
    requires IsPrefixSplit(parts, files, budget, config, build)
    ensures |Flatten(parts)| <= at
  {
    if parts != [] {
      var init, last := parts[..|parts| - 1], parts[|parts| - 1];
      OversizeFileBlocks(files, at, init, budget, config, build);
      var cut := |Flatten(init)|;
      assert last == files[cut..cut + |last|];
      assert Fits(last, budget, config, build);
    }
  }

  // ---------------------------------------------------------------- the loop

  function Filenames(files: seq<PullFilePatch>): seq<string> {
    seq(|files|, k requires 0 <= k < |files| => files[k].filename)
  }

  function ToChunk(index: nat, files: seq<PullFilePatch>, config: Config, build: PromptBuilder): ContextBudgetChunk {
    ContextBudgetChunk(index, files, Filenames(files), Estimate(files, config, build))
  }

  function ChunkFiles(chunks: seq<ContextBudgetChunk>): seq<seq<PullFilePatch>> {
    seq(|chunks|, k requires 0 <= k < |chunks| => chunks[k].files)
  }

  /** Chunks are numbered from one and carry their own names and estimates. */
  ghost predicate WellLabelled(chunks: seq<ContextBudgetChunk>, config: Config, build: PromptBuilder) {
    forall k :: 0 <= k < |chunks| ==>
      && chunks[k].index == k + 1
      && chunks[k].filenames == Filenames(chunks[k].files)
      && chunks[k].estimatedTokens == Estimate(chunks[k].files, config, build)
  }

  lemma AppendPart<T>(parts: seq<seq<T>>, part: seq<T>)
    ensures Flatten(parts + [part]) == Flatten(parts) + part
  {
  }

  method BuildFileBoundaryChunks(files: seq<PullFilePatch>, budget: int, config: Config, build: PromptBuilder)
    returns (result: ChunkResult)
    // What is returned is always a labelled, in-budget split of the files in order.
    ensures result.Chunks? ==>
              && files != []
              && IsSplit(ChunkFiles(result.chunks), files, budget, config, build)
              && WellLabelled(result.chunks, config, build)
              && |result.chunks| <= config.maxChunks
    // Optimality: no in-budget split has fewer parts.
    ensures result.Chunks? && Hereditary(files, budget, config, build) ==>
              forall parts :: IsSplit(parts, files, budget, config, build) ==> |result.chunks| <= |parts|
    // Completeness: on a non-empty list a refusal means that no split exists.
    ensures files != [] && Hereditary(files, budget, config, build) ==>
              (result.Chunks? <==> Splittable(files, config.maxChunks, budget, config, build))
    // What each refusal means.
    ensures result.Refused? ==>
              result.reason == Overflow || result.reason == SingleFileOverflow || result.reason == ChunkCountExceeded
    ensures files == [] <==> result == Refused(Overflow)
    ensures result == Refused(SingleFileOverflow) ==>
              exists f :: f in files && !Fits([f], budget, config, build)
    ensures result == Refused(ChunkCountExceeded) && Hereditary(files, budget, config, build) ==>
              !Splittable(files, config.maxChunks, budget, config, build)
    // An oversized file is the reason exactly when the files before it did not exhaust the chunks.
    ensures Hereditary(files, budget, config, build) ==>
              (result == Refused(SingleFileOverflow) <==> StopsAtOversize(files, budget, config, build))
  {
    hide NoSplitReachesPast, Hereditary, Flatten, Filenames, InBudgetParts, StopsAtOversize, Splittable;
    if files == [] {
      NoneOversize(files, budget, config, build);
      return Refused(Overflow);
    }
    NothingReached(files, budget, config, build);
    var chunks: seq<ContextBudgetChunk> := [];
    var current: seq<PullFilePatch> := [];
    ghost var start := 0;
    ghost var hereditary := Hereditary(files, budget, config, build);
    for i := 0 to |files|
      invariant start <= i && current == files[start..i]
      invariant i > 0 ==> current != []
      invariant current != [] ==> Fits(current, budget, config, build)
      invariant IsSplit(ChunkFiles(chunks), files[..start], budget, config, build)
      invariant WellLabelled(chunks, config, build)
      invariant chunks == [] || |chunks| < config.maxChunks
      invariant forall j :: 0 <= j < i ==> Fits([files[j]], budget, config, build)
      invariant hereditary ==> NoSplitReachesPast(files, |chunks|, start, budget, config, build)
    {
      var file := files[i];
      assert files[i..i + 1] == [file];
      var singleEstimate := EstimateContextTokens(build([file]), config);
      if singleEstimate > budget {
        if hereditary { OversizeFileBlocksAll(files, i, budget, config, build); }
        FilesBeforeWereSplit(files, chunks, start, i, budget, config, build);
        return Refused(SingleFileOverflow);
      }
      var candidate := current + [file];
      assert candidate == files[start..i + 1];
      var candidateEstimate := if |current| == 0 then singleEstimate else EstimateContextTokens(build(candidate), config);
      if |current| > 0 && candidateEstimate > budget {
        if hereditary { GreedyStaysAhead(files, |chunks|, start, i, budget, config, build); }
        CloseChunk(chunks, current, files[..start], budget, config, build);
        assert files[..start] + current == files[..i];
        chunks := chunks + [ToChunk(|chunks| + 1, current, config, build)];
        start := i;
        if |chunks| >= config.maxChunks {
          if hereditary {
            TooManyChunks(files, |chunks|, i, budget, config, build);
            ChunksRanOutFirst(files, |chunks|, i, budget, config, build);
          }
          return Refused(ChunkCountExceeded);
        }
        current := [file];
      } else {
        assert |current| == 0 ==> candidate == [file];
        current := candidate;
      }
    }
    if hereditary { MinimumParts(files, |chunks|, start, budget, config, build); }
    NoneOversize(files, budget, config, build);
    CloseChunk(chunks, current, files[..start], budget, config, build);
    assert files[..start] + current == files;
    chunks := chunks + [ToChunk(|chunks| + 1, current, config, build)];
    FewestPartsDecide(files, ChunkFiles(chunks), budget, config, build);
    if |chunks| > config.maxChunks { return Refused(ChunkCountExceeded); }
    return Chunks(chunks);
  }

  /** A split with the fewest parts decides whether the files can be split into at most maxChunks. */
  lemma FewestPartsDecide(
    files: seq<PullFilePatch>, fewest: seq<seq<PullFilePatch>>, budget: int, config: Config, build: PromptBuilder)
    requires IsSplit(fewest, files, budget, config, build)
    ensures |fewest| <= config.maxChunks ==> Splittable(files, config.maxChunks, budget, config, build)
    ensures (forall parts :: IsSplit(parts, files, budget, config, build) ==> |fewest| <= |parts|) ==>
              (Splittable(files, config.maxChunks, budget, config, build) <==> |fewest| <= config.maxChunks)
  {
    hide IsSplit;
  }

  /** The `k`-th file is the first one that is over budget on its own. */
  ghost predicate FirstOversize(files: seq<PullFilePatch>, k: int, budget: int, config: Config, build: PromptBuilder) {
    && 0 <= k < |files| && !Fits([files[k]], budget, config, build)
    && forall j :: 0 <= j < k ==> Fits([files[j]], budget, config, build)
  }

  /** The first oversized file is met before the chunks run out: the files before it can be split into
      at most maxChunks parts, or fill the one chunk that is always collected. */
  ghost predicate StopsAtOversize(files: seq<PullFilePatch>, budget: int, config: Config, build: PromptBuilder) {
    exists k :: FirstOversize(files, k, budget, config, build)
      && Splittable(files[..k], if config.maxChunks < 1 then 1 else config.maxChunks, budget, config, build)
  }

  lemma FilesBeforeWereSplit(
    files: seq<PullFilePatch>, chunks: seq<ContextBudgetChunk>, start: nat, at: nat, budget: int, config: Config, build: PromptBuilder)
    requires start <= at < |files| && FirstOversize(files, at, budget, config, build)
    requires IsSplit(ChunkFiles(chunks), files[..start], budget, config, build)
    requires (at > 0 ==> start < at) && (start < at ==> Fits(files[start..at], budget, config, build))
    requires chunks == [] || |chunks| < config.maxChunks
    ensures StopsAtOversize(files, budget, config, build)
  {
    hide Flatten, Filenames, Fits, FirstOversize;
    var limit := if config.maxChunks < 1 then 1 else config.maxChunks;
    if at == 0 {
      assert IsSplit(ChunkFiles(chunks), files[..at], budget, config, build) && |ChunkFiles(chunks)| <= limit;
    } else {
      CloseChunk(chunks, files[start..at], files[..start], budget, config, build);
      assert files[..start] + files[start..at] == files[..at];
      var parts := ChunkFiles(chunks + [ToChunk(|chunks| + 1, files[start..at], config, build)]);
      assert IsSplit(parts, files[..at], budget, config, build) && |parts| <= limit;
    }
    hide IsSplit;
    assert Splittable(files[..at], limit, budget, config, build);
  }

  lemma ChunksRanOutFirst(files: seq<PullFilePatch>, count: nat, at: nat, budget: int, config: Config, build: PromptBuilder)
    requires at < |files| && forall j :: 0 <= j <= at ==> Fits([files[j]], budget, config, build)
    requires NoSplitReachesPast(files, count, at, budget, config, build)
    requires config.maxChunks <= count && 1 <= count
    ensures !StopsAtOversize(files, budget, config, build)
  {
    hide Flatten, InBudgetParts, Fits;
  }

  lemma NoneOversize(files: seq<PullFilePatch>, budget: int, config: Config, build: PromptBuilder)
    requires forall j :: 0 <= j < |files| ==> Fits([files[j]], budget, config, build)
    ensures !StopsAtOversize(files, budget, config, build)
  {
    hide Fits, Splittable;
  }

  lemma NothingReached(files: seq<PullFilePatch>, budget: int, config: Config, build: PromptBuilder)
    ensures NoSplitReachesPast(files, 0, 0, budget, config, build)
    ensures IsSplit(ChunkFiles([]), files[..0], budget, config, build)
  {
  }

  lemma OversizeFileBlocksAll(files: seq<PullFilePatch>, at: nat, budget: int, config: Config, build: PromptBuilder)
    requires Hereditary(files, budget, config, build)
    requires at < |files| && !Fits([files[at]], budget, config, build)
    ensures !Splittable(files, config.maxChunks, budget, config, build)
  {
    assert files[at..at + 1] == [files[at]];
    forall parts | IsSplit(parts, files, budget, config, build) ensures false {
      OversizeFileBlocks(files, at, parts, budget, config, build);
    }
  }

  lemma CloseChunk(
    chunks: seq<ContextBudgetChunk>, current: seq<PullFilePatch>, covered: seq<PullFilePatch>,
    budget: int, config: Config, build: PromptBuilder)
    requires IsSplit(ChunkFiles(chunks), covered, budget, config, build)
    requires current != [] && Fits(current, budget, config, build)
    ensures IsSplit(ChunkFiles(chunks + [ToChunk(|chunks| + 1, current, config, build)]), covered + current,
                    budget, config, build)
  {
    AppendPart(ChunkFiles(chunks), current);
    assert ChunkFiles(chunks + [ToChunk(|chunks| + 1, current, config, build)]) == ChunkFiles(chunks) + [current];
  }

  lemma MinimumParts(files: seq<PullFilePatch>, count: nat, reach: nat, budget: int, config: Config, build: PromptBuilder)
    requires reach < |files|
    requires NoSplitReachesPast(files, count, reach, budget, config, build)
    ensures forall parts :: IsSplit(parts, files, budget, config, build) ==> count < |parts|
  {
  }

  lemma TooManyChunks(files: seq<PullFilePatch>, count: nat, reach: nat, budget: int, config: Config, build: PromptBuilder)
    requires reach < |files| && config.maxChunks <= count
    requires NoSplitReachesPast(files, count, reach, budget, config, build)
    ensures !Splittable(files, config.maxChunks, budget, config, build)
  {
  }

  // ---------------------------------------------------------------- the plan

  method PlanContextBudget(
    prompt: string, files: seq<PullFilePatch>, contextWindowTokens: Option<int>, config: Config, build: PromptBuilder)
    returns (plan: Plan)
    ensures plan.estimatedTokens == EstimateContextTokens(prompt, config)
    ensures plan.reservedOutputTokens == config.reservedOutputTokens && plan.overflow == config.overflow
    // The mode is decided in this order of precedence.
    ensures plan.mode.Disabled? <==> !config.enabled
    ensures plan.mode.UnknownWindow? <==>
            config.enabled && (contextWindowTokens.None? || contextWindowTokens.value == 0)
    ensures plan.mode == SkipReview(NoAvailableInputTokens) <==>
            HasWindow(config, contextWindowTokens) && Budget(config, contextWindowTokens) < 1
    ensures plan.mode.WithinBudget? <==>
            HasBudget(config, contextWindowTokens) && plan.estimatedTokens <= Budget(config, contextWindowTokens)
    ensures plan.mode.WithinBudget? || plan.mode.ChunkReview? ==>
              plan.mode.budgetTokens == Budget(config, contextWindowTokens)
    // Under the skip policy, or without files, an overflow is skipped.
    ensures plan.mode == SkipReview(Overflow) <==>
            MustSplit(prompt, config, contextWindowTokens) && (config.overflow == Skip || files == [])
    // Under the chunk policy a review is skipped only when it cannot be split.
    ensures plan.mode.ChunkReview? ==>
              && IsSplit(ChunkFiles(plan.mode.chunks), files, plan.mode.budgetTokens, config, build)
              && |plan.mode.chunks| <= config.maxChunks
              && WellLabelled(plan.mode.chunks, config, build)
    ensures MustSplit(prompt, config, contextWindowTokens) && config.overflow == Chunk && files != []
            && Hereditary(files, Budget(config, contextWindowTokens), config, build) ==>
              (plan.mode.ChunkReview? <==>
               Splittable(files, config.maxChunks, Budget(config, contextWindowTokens), config, build))
    // Why it cannot be split is passed on.
    ensures MustSplit(prompt, config, contextWindowTokens) && config.overflow == Chunk && files != []
            && Hereditary(files, Budget(config, contextWindowTokens), config, build) ==>
              var stops := StopsAtOversize(files, Budget(config, contextWindowTokens), config, build);
              && (plan.mode == SkipReview(SingleFileOverflow) <==> stops)
              && (plan.mode == SkipReview(ChunkCountExceeded) <==>
                  !stops && !Splittable(files, config.maxChunks, Budget(config, contextWindowTokens), config, build))
  {
    hide Hereditary, Splittable, IsSplit, WellLabelled, Estimate, StopsAtOversize;
    var estimatedTokens := EstimateContextTokens(prompt, config);
    plan := Plan(estimatedTokens, config.reservedOutputTokens, config.overflow, Disabled);
    if !config.enabled { return; }
    if contextWindowTokens.None? || contextWindowTokens.value == 0 { return plan.(mode := UnknownWindow); }
    var budgetTokens := contextWindowTokens.value - config.reservedOutputTokens;
    if budgetTokens < 1 { return plan.(mode := SkipReview(NoAvailableInputTokens)); }
    if estimatedTokens <= budgetTokens { return plan.(mode := WithinBudget(budgetTokens)); }
    if config.overflow == Skip { return plan.(mode := SkipReview(Overflow)); }
    var chunks := BuildFileBoundaryChunks(files, budgetTokens, config, build);
    if chunks.Refused? { return plan.(mode := SkipReview(chunks.reason)); }
    return plan.(mode := ChunkReview(budgetTokens, chunks.chunks));
  }

  predicate HasWindow(config: Config, contextWindowTokens: Option<int>) {
    config.enabled && contextWindowTokens.Some? && contextWindowTokens.value != 0
  }

  function Budget(config: Config, contextWindowTokens: Option<int>): int {
    if contextWindowTokens.Some? then contextWindowTokens.value - config.reservedOutputTokens else 0
  }

  predicate HasBudget(config: Config, contextWindowTokens: Option<int>) {
    HasWindow(config, contextWindowTokens) && Budget(config, contextWindowTokens) >= 1
  }

  predicate MustSplit(prompt: string, config: Config, contextWindowTokens: Option<int>) {
    HasBudget(config, contextWindowTokens)
    && EstimateContextTokens(prompt, config) > Budget(config, contextWindowTokens)
  }
}
