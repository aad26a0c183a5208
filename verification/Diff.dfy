/** Right-side lines of a patch and the location check of findings (src/diff.ts), on patch text.

  The theorem holds for every list of hunks, also those the line loop misreads: a removed line
  whose text starts with two dashes, and a newline after the last line, each count as one more
  new-file line. From it follows exactly when the collected lines are the lines the hunks cover.
*/
module Diff {
  import opened Basics
  import opened Scanner
  import opened Decimal

  datatype PullFilePatch = PullFilePatch(filename: string, patch: Option<string>)

  datatype Finding = Finding(path: string, line: int, title: string)

  datatype DropReason = FileNotInDiff | LineNotInCurrentDiff

  datatype DroppedFinding = DroppedFinding(finding: Finding, reason: DropReason)

  // ---------------------------------------------------------------- reading a patch

  predicate NotNewline(c: char) { c != '\n' }

  function SplitLines(s: string): seq<string>
    decreases |s|
  {
    var end := Skip(s, 0, NotNewline);
    if end == |s| then [s] else [s[..end]] + SplitLines(s[end + 1..])
  }

  /** A number and, after a comma, an optional count. */
  function AfterRange(s: string, i: nat): (j: Option<nat>)
    requires i <= |s|
    ensures j.Some? ==> i < j.value <= |s|
  {
    var end :- Run(s, i, IsDigit);
    if end < |s| && s[end] == ',' then Run(s, end + 1, IsDigit) else Some(end)
  }

  /** The new-file start line, if the line is a hunk header. */
  function HunkStart(s: string): Option<nat> {
    var oldRange :- Expect(s, 0, "@@ -");
    var oldEnd :- AfterRange(s, oldRange);
    var start :- Expect(s, oldEnd, " +");
    var startEnd :- Run(s, start, IsDigit);
    var newEnd :- AfterRange(s, start);
    var close :- Expect(s, newEnd, " @@");
    Some(Value(s[start..startEnd]))
  }

  datatype Cursor = Cursor(newLine: Option<nat>, lines: set<nat>)

  predicate StartsWith(s: string, prefix: string) { prefix <= s }

  function Advance(c: Cursor, raw: string): Cursor {
    var hunk := HunkStart(raw);
    if hunk.Some? then c.(newLine := hunk)
    else if c.newLine.None? || StartsWith(raw, "\\ No newline") then c
    else if StartsWith(raw, "+") && !StartsWith(raw, "+++") then Count(c)
    else if StartsWith(raw, "-") && !StartsWith(raw, "---") then c
    else Count(c)
  }

  function Count(c: Cursor): Cursor
    requires c.newLine.Some?
  {
    Cursor(Some(c.newLine.value + 1), c.lines + {c.newLine.value})
  }

  function Scan(c: Cursor, raws: seq<string>): Cursor
    decreases |raws|
  {
    if raws == [] then c else Scan(Advance(c, raws[0]), raws[1..])
  }

  function RightSideLines(patch: Option<string>): set<nat> {
    Scan(Cursor(None, {}), SplitLines(if patch.Some? then patch.value else "")).lines
  }

  method CollectFileLines(patch: Option<string>) returns (lines: set<nat>)
    ensures lines == RightSideLines(patch)
  {
    lines := {};
    var newLine: Option<nat> := None;
    var raws := SplitLines(if patch.Some? then patch.value else "");
    for i := 0 to |raws|
      invariant Scan(Cursor(newLine, lines), raws[i..]) == Scan(Cursor(None, {}), raws)
    {
      var rawLine := raws[i];
      assert raws[i..][1..] == raws[i + 1..];
      var hunk := HunkStart(rawLine);
      if hunk.Some? {
        newLine := hunk;
        continue;
      }
      if newLine.None? || StartsWith(rawLine, "\\ No newline") { continue; }
      if StartsWith(rawLine, "+") && !StartsWith(rawLine, "+++") {
        lines := lines + {newLine.value};
        newLine := Some(newLine.value + 1);
        continue;
      }
      if StartsWith(rawLine, "-") && !StartsWith(rawLine, "---") { continue; }
      lines := lines + {newLine.value};
      newLine := Some(newLine.value + 1);
    }
  }

  /** The last file of a name with any right-side line decides; a file without one has no entry. */
  function LinesByPath(files: seq<PullFilePatch>): map<string, set<nat>> {
    if files == [] then map[]
    else
      var before, file := LinesByPath(files[..|files| - 1]), files[|files| - 1];
      var lines := RightSideLines(file.patch);
      if lines == {} then before else before[file.filename := lines]
  }

  predicate HasLines(file: PullFilePatch, name: string) {
    file.filename == name && RightSideLines(file.patch) != {}
  }

  /** File `k` is the last one of that name with a right-side line. */
  ghost predicate IsLastOf(files: seq<PullFilePatch>, k: nat, name: string)
    requires k < |files|
  {
    HasLines(files[k], name) && forall j :: k < j < |files| ==> !HasLines(files[j], name)
  }

  /** A name has an entry if and only if some file of that name has a right-side line, and the entry
      is the set of the last such file. */
  lemma {:induction false} EntriesAreExact(files: seq<PullFilePatch>, name: string)
    ensures name in LinesByPath(files) <==> exists k :: 0 <= k < |files| && HasLines(files[k], name)
    ensures forall k :: 0 <= k < |files| && IsLastOf(files, k, name) ==>
              name in LinesByPath(files) && LinesByPath(files)[name] == RightSideLines(files[k].patch)
  {
    hide RightSideLines;
    if files != [] {
      var init, last := files[..|files| - 1], files[|files| - 1];
      EntriesAreExact(init, name);
      assert forall k :: 0 <= k < |init| ==> init[k] == files[k];
      if HasLines(last, name) {
        assert HasLines(files[|files| - 1], name);
      } else {
        assert forall k :: 0 <= k < |init| && IsLastOf(files, k, name) ==> IsLastOf(init, k, name);
      }
    }
  }

  method CollectRightSideLines(files: seq<PullFilePatch>) returns (byPath: map<string, set<nat>>)
    ensures byPath == LinesByPath(files)
  {
    byPath := map[];
    for i := 0 to |files|
      invariant byPath == LinesByPath(files[..i])
    {
      assert files[..i + 1][..i] == files[..i];
      var lines := CollectFileLines(files[i].patch);
      if |lines| > 0 { byPath := byPath[files[i].filename := lines]; }
    }
    assert files[..|files|] == files;
  }

  // ---------------------------------------------------------------- rendering hunks

  datatype DiffLine = Context(text: string) | Added(text: string) | Removed(text: string) | NoNewline(rest: string)

  datatype Hunk = Hunk(
    oldStart: nat, oldCount: Option<nat>, newStart: nat, newCount: Option<nat>, section: string, body: seq<DiffLine>)

  function RenderRange(start: nat, count: Option<nat>, rest: string): string {
    Numeral(start) + (match count
                      case Some(n) => "," + (Numeral(n) + rest)
                      case None => rest)
  }

  function RenderHeader(h: Hunk): string {
    "@@ -" + RenderRange(h.oldStart, h.oldCount, " +" + RenderRange(h.newStart, h.newCount, " @@" + h.section))
  }

  function RenderLine(l: DiffLine): string {
    match l
    case Context(text) => " " + text
    case Added(text) => "+" + text
    case Removed(text) => "-" + text
    case NoNewline(rest) => "\\ No newline" + rest
  }

  function RenderBody(body: seq<DiffLine>): seq<string> {
    if body == [] then [] else [RenderLine(body[0])] + RenderBody(body[1..])
  }

  function RenderHunks(hunks: seq<Hunk>): seq<string> {
    if hunks == [] then [] else [RenderHeader(hunks[0])] + RenderBody(hunks[0].body) + RenderHunks(hunks[1..])
  }

  function Join(lines: seq<string>): string
    requires lines != []
  {
    if |lines| == 1 then lines[0] else lines[0] + ("\n" + Join(lines[1..]))
  }

  /** The patch text, with or without a newline after the last line. */
  function RenderPatch(hunks: seq<Hunk>, trailingNewline: bool): string
    requires hunks != []
  {
    Join(RenderHunks(hunks) + LastLine(trailingNewline))
  }

  ghost predicate OneLine(s: string) { All(s, NotNewline) }

  ghost predicate ValidHunk(h: Hunk) {
    OneLine(h.section) && forall k :: 0 <= k < |h.body| ==> OneLine(RenderLine(h.body[k]))
  }

  ghost predicate ValidHunks(hunks: seq<Hunk>) {
    forall k :: 0 <= k < |hunks| ==> ValidHunk(hunks[k])
  }

  // ---------------------------------------------------------------- what the hunks say

  predicate OnNewSide(l: DiffLine) { l.Context? || l.Added? }

  /** A removed line that the loop takes for part of a file header, and so for a new-file line. */
  predicate Misread(l: DiffLine) { l.Removed? && StartsWith(l.text, "--") }

  function Tally(body: seq<DiffLine>, p: DiffLine -> bool): nat {
    if body == [] then 0 else (if p(body[0]) then 1 else 0) + Tally(body[1..], p)
  }

  predicate Counted(l: DiffLine) { OnNewSide(l) || Misread(l) }

  function Range(start: nat, length: nat): set<nat> {
    if length == 0 then {} else Range(start, length - 1) + {start + length - 1}
  }

  lemma {:induction false} RangeMember(start: nat, length: nat, k: nat)
    ensures k in Range(start, length) <==> start <= k < start + length
  {
    if length != 0 { RangeMember(start, length - 1, k); }
  }

  /** The new-file lines the hunks cover. */
  function Covered(hunks: seq<Hunk>): set<nat> {
    if hunks == [] then {} else Range(hunks[0].newStart, Tally(hunks[0].body, OnNewSide)) + Covered(hunks[1..])
  }

  /** The lines the loop collects: each hunk's lines, its misread lines, and one more at the very end
      when the text ends in a newline. */
  function Collected(hunks: seq<Hunk>, trailingNewline: bool): set<nat> {
    if hunks == [] then {}
    else
      var extra := if |hunks| == 1 && trailingNewline then 1 else 0;
      Range(hunks[0].newStart, Tally(hunks[0].body, Counted) + extra) + Collected(hunks[1..], trailingNewline)
  }

  // ---------------------------------------------------------------- reading rendered text

  lemma {:induction false} SplitJoin(lines: seq<string>)
    requires lines != [] && forall k :: 0 <= k < |lines| ==> OneLine(lines[k])
    ensures SplitLines(Join(lines)) == lines
  {
    hide Skip;
    var s := Join(lines);
    if |lines| == 1 {
      assert s[0..] == lines[0] + [];
      SkipPrinted(s, 0, NotNewline, lines[0], []);
    } else {
      var rest := Join(lines[1..]);
      assert s[0..] == lines[0] + ("\n" + rest);
      SkipPrinted(s, 0, NotNewline, lines[0], "\n" + rest);
      var end := |lines[0]|;
      assert s[..end] == lines[0];
      assert s[end + 1..] == s[end..][1..] == rest;
      SplitJoin(lines[1..]);
    }
  }

  /** A numeral followed by something that is not a digit. */
  lemma NumeralPrinted(s: string, i: nat, n: nat, rest: string)
    requires i <= |s| && s[i..] == Numeral(n) + rest
    requires rest != [] && !IsDigit(rest[0])
    ensures var end := i + |Numeral(n)|;
      && Run(s, i, IsDigit) == Some(end) && s[i..end] == Numeral(n)
      && end < |s| && s[end] == rest[0] && s[end..] == rest
  {
    hide Numeral, Skip, Value;
    NumeralReadsBack(n);
    var end := i + |Numeral(n)|;
    SkipPrinted(s, i, IsDigit, Numeral(n), rest);
    SliceBefore(s, i, end, Numeral(n), rest);
    assert s[end] == s[end..][0];
  }

  lemma RangePrinted(s: string, i: nat, start: nat, count: Option<nat>, rest: string)
    requires i <= |s| && s[i..] == RenderRange(start, count, rest)
    requires rest != [] && !IsDigit(rest[0]) && rest[0] != ','
    ensures Run(s, i, IsDigit) == Some(i + |Numeral(start)|)
    ensures s[i..i + |Numeral(start)|] == Numeral(start)
    ensures AfterRange(s, i).Some? && s[AfterRange(s, i).value..] == rest
  {
    hide Numeral, Run;
    assert !IsDigit(',');
    hide IsDigit;
    match count
    case None =>
      NumeralPrinted(s, i, start, rest);
    case Some(n) =>
      var end := i + |Numeral(start)|;
      var tail := Numeral(n) + rest;
      NumeralPrinted(s, i, start, "," + tail);
      assert s[end + 1..] == s[end..][1..] == tail;
      NumeralPrinted(s, end + 1, n, rest);
  }

  lemma HeaderReadsBack(h: Hunk)
    ensures HunkStart(RenderHeader(h)) == Some(h.newStart)
  {
    hide RenderRange, AfterRange, Skip, Expect, Numeral;
    var s := RenderHeader(h);
    var tail := " @@" + h.section;
    var newRange := RenderRange(h.newStart, h.newCount, tail);
    var oldRange := RenderRange(h.oldStart, h.oldCount, " +" + newRange);
    assert s[0..] == "@@ -" + oldRange;
    ExpectPrinted(s, 0, "@@ -", oldRange);
    RangePrinted(s, 4, h.oldStart, h.oldCount, " +" + newRange);
    var oldEnd := AfterRange(s, 4).value;
    ExpectPrinted(s, oldEnd, " +", newRange);
    RangePrinted(s, oldEnd + 2, h.newStart, h.newCount, tail);
    ExpectPrinted(s, AfterRange(s, oldEnd + 2).value, " @@", h.section);
    NumeralReadsBack(h.newStart);
  }

  lemma BodyLineIsNoHeader(l: DiffLine)
    ensures HunkStart(RenderLine(l)).None?
  {
    hide AfterRange, Run;
    var s := RenderLine(l);
    assert s[0] != '@';
    assert |s| >= 4 ==> s[0..4][0] == s[0];
  }

  lemma BodyLineCounts(c: Cursor, l: DiffLine)
    requires c.newLine.Some?
    ensures Advance(c, RenderLine(l)) == if Counted(l) then Count(c) else c
  {
    BodyLineIsNoHeader(l);
    hide HunkStart;
    var s := RenderLine(l);
    match l
    case Context(text) => assert s[0] == ' ';
    case Added(text) => assert s[0] == '+';
    case Removed(text) =>
      assert s[0] == '-';
      assert StartsWith(s, "-");
      assert s[1..] == text;
      assert StartsWith(s, "---") <==> StartsWith(text, "--");
    case NoNewline(rest) =>
      assert s[0] == '\\';
  }

  lemma RangeOfNone(lines: set<nat>, start: nat)
    ensures lines + Range(start, 0) == lines
  {
  }

  lemma {:induction false} RangeFromFront(lines: set<nat>, start: nat, length: nat)
    ensures (lines + {start}) + Range(start + 1, length) == lines + Range(start, length + 1)
  {
    if length > 0 { RangeFromFront(lines, start, length - 1); }
  }

  lemma {:induction false} ScanBody(c: Cursor, body: seq<DiffLine>, rest: seq<string>)
    requires c.newLine.Some?
    ensures var n := Tally(body, Counted);
      Scan(c, RenderBody(body) + rest)
      == Scan(Cursor(Some(c.newLine.value + n), c.lines + Range(c.newLine.value, n)), rest)
    decreases |body|
  {
    hide Advance, Range, RenderLine, Counted;
    if body == [] {
      assert RenderBody(body) + rest == rest;
      RangeOfNone(c.lines, c.newLine.value);
    } else {
      var raws := RenderBody(body) + rest;
      assert raws[0] == RenderLine(body[0]) && raws[1..] == RenderBody(body[1..]) + rest;
      BodyLineCounts(c, body[0]);
      var d := if Counted(body[0]) then Count(c) else c;
      ScanBody(d, body[1..], rest);
      RangeFromFront(c.lines, c.newLine.value, Tally(body[1..], Counted));
    }
  }

  lemma ScanCons(c: Cursor, raw: string, rest: seq<string>)
    ensures Scan(c, [raw] + rest) == Scan(Advance(c, raw), rest)
  {
  }

  lemma UnfoldHunks(hunks: seq<Hunk>, last: seq<string>)
    requires hunks != []
    ensures RenderHunks(hunks) + last
            == [RenderHeader(hunks[0])] + (RenderBody(hunks[0].body) + (RenderHunks(hunks[1..]) + last))
  {
  }

  function LastLine(trailingNewline: bool): seq<string> { if trailingNewline then [""] else [] }

  /** Scanning one rendered hunk and what follows it. */
  lemma ScanHunk(c: Cursor, h: Hunk, rest: seq<string>)
    ensures var n := Tally(h.body, Counted);
      Scan(c, [RenderHeader(h)] + (RenderBody(h.body) + rest))
      == Scan(Cursor(Some(h.newStart + n), c.lines + Range(h.newStart, n)), rest)
  {
    hide Advance, RenderHeader, RenderBody, Range, Tally, Scan;
    ScanCons(c, RenderHeader(h), RenderBody(h.body) + rest);
    HeaderStartsHunk(c, h);
    ScanBody(c.(newLine := Some(h.newStart)), h.body, rest);
  }

  lemma {:induction false} ScanHunks(c: Cursor, hunks: seq<Hunk>, trailingNewline: bool)
    requires hunks != []
    ensures Scan(c, RenderHunks(hunks) + LastLine(trailingNewline)).lines == c.lines + Collected(hunks, trailingNewline)
    decreases |hunks|
  {
    hide Advance, RenderHeader, RenderBody, Range, Tally;
    var h, last := hunks[0], LastLine(trailingNewline);
    var rest := RenderHunks(hunks[1..]) + last;
    UnfoldHunks(hunks, last);
    ScanHunk(c, h, rest);
    var n := Tally(h.body, Counted);
    var e := Cursor(Some(h.newStart + n), c.lines + Range(h.newStart, n));
    if |hunks| > 1 {
      ScanHunks(e, hunks[1..], trailingNewline);
      assert e.lines + Collected(hunks[1..], trailingNewline) == c.lines + Collected(hunks, trailingNewline);
    } else {
      assert rest == last;
      assert Collected(hunks[1..], trailingNewline) == {};
      if trailingNewline {
        EmptyLineCounts(e);
        ScanCons(e, "", []);
        assert last == [""] + [];
        RangeAtBack(c.lines, h.newStart, n);
      }
    }
  }

  lemma RangeAtBack(lines: set<nat>, start: nat, length: nat)
    ensures (lines + Range(start, length)) + {start + length} == lines + Range(start, length + 1)
  {
  }

  lemma HeaderStartsHunk(c: Cursor, h: Hunk)
    ensures Advance(c, RenderHeader(h)) == c.(newLine := Some(h.newStart))
  {
    HeaderReadsBack(h);
  }

  lemma EmptyLineCounts(c: Cursor)
    requires c.newLine.Some?
    ensures Advance(c, "") == Count(c)
  {
  }

  lemma {:induction false} RenderedLinesAreOneLine(hunks: seq<Hunk>)
    requires ValidHunks(hunks)
    ensures forall k :: 0 <= k < |RenderHunks(hunks)| ==> OneLine(RenderHunks(hunks)[k])
  {
    if hunks != [] {
      RenderedLinesAreOneLine(hunks[1..]);
      HeaderIsOneLine(hunks[0]);
      BodyIsOneLine(hunks[0].body);
    }
  }

  lemma HeaderIsOneLine(h: Hunk)
    requires OneLine(h.section)
    ensures OneLine(RenderHeader(h))
  {
    hide Numeral;
    NumeralReadsBack(h.oldStart);
    NumeralReadsBack(h.newStart);
    if h.oldCount.Some? { NumeralReadsBack(h.oldCount.value); }
    if h.newCount.Some? { NumeralReadsBack(h.newCount.value); }
    var tail := " @@" + h.section;
    var newRange := RenderRange(h.newStart, h.newCount, tail);
    assert OneLine(newRange);
    assert OneLine(RenderRange(h.oldStart, h.oldCount, " +" + newRange));
  }

  lemma {:induction false} BodyIsOneLine(body: seq<DiffLine>)
    requires forall k :: 0 <= k < |body| ==> OneLine(RenderLine(body[k]))
    ensures forall k :: 0 <= k < |RenderBody(body)| ==> OneLine(RenderBody(body)[k])
  {
    if body != [] { BodyIsOneLine(body[1..]); }
  }

  // ---------------------------------------------------------------- results

  /** For every rendered list of hunks, what the loop collects. */
  lemma CollectsExactly(hunks: seq<Hunk>, trailingNewline: bool)
    requires hunks != [] && ValidHunks(hunks)
    ensures RightSideLines(Some(RenderPatch(hunks, trailingNewline))) == Collected(hunks, trailingNewline)
  {
    RenderedLinesAreOneLine(hunks);
    SplitJoin(RenderHunks(hunks) + LastLine(trailingNewline));
    ScanHunks(Cursor(None, {}), hunks, trailingNewline);
    assert {} + Collected(hunks, trailingNewline) == Collected(hunks, trailingNewline);
  }

  ghost predicate NoMisreads(hunks: seq<Hunk>) {
    forall k :: 0 <= k < |hunks| ==> Tally(hunks[k].body, Misread) == 0
  }

  /** Hunks in order, with an unchanged line between neighbours. */
  ghost predicate Separated(hunks: seq<Hunk>) {
    forall i, j :: 0 <= i < j < |hunks| ==>
      hunks[i].newStart + Tally(hunks[i].body, OnNewSide) < hunks[j].newStart
  }

  lemma {:induction false} TallySplits(body: seq<DiffLine>)
    ensures Tally(body, Counted) == Tally(body, OnNewSide) + Tally(body, Misread)
  {
    if body != [] { TallySplits(body[1..]); }
  }

  lemma {:induction false} CleanHunksCollectCovered(hunks: seq<Hunk>)
    requires NoMisreads(hunks)
    ensures Collected(hunks, false) == Covered(hunks)
  {
    if hunks != [] {
      TallySplits(hunks[0].body);
      CleanHunksCollectCovered(hunks[1..]);
    }
  }

  lemma {:induction false} CollectedMember(hunks: seq<Hunk>, trailingNewline: bool, k: nat, line: nat)
    requires k < |hunks|
    requires hunks[k].newStart <= line
             < hunks[k].newStart + Tally(hunks[k].body, Counted) + (if k == |hunks| - 1 && trailingNewline then 1 else 0)
    ensures line in Collected(hunks, trailingNewline)
  {
    if k == 0 {
      var extra := if |hunks| == 1 && trailingNewline then 1 else 0;
      RangeMember(hunks[0].newStart, Tally(hunks[0].body, Counted) + extra, line);
    } else { CollectedMember(hunks[1..], trailingNewline, k - 1, line); }
  }

  lemma {:induction false} CoveredMember(hunks: seq<Hunk>, line: nat)
    requires line in Covered(hunks)
    ensures exists k :: 0 <= k < |hunks| && hunks[k].newStart <= line < hunks[k].newStart + Tally(hunks[k].body, OnNewSide)
  {
    RangeMember(hunks[0].newStart, Tally(hunks[0].body, OnNewSide), line);
    if line !in Range(hunks[0].newStart, Tally(hunks[0].body, OnNewSide)) {
      CoveredMember(hunks[1..], line);
      var rest := hunks[1..];
      var k :| 0 <= k < |rest| && rest[k].newStart <= line < rest[k].newStart + Tally(rest[k].body, OnNewSide);
      assert hunks[k + 1] == rest[k];
    }
  }

  /** The first line past a hunk is covered by no hunk. */
  lemma PastHunkIsUncovered(hunks: seq<Hunk>, k: nat)
    requires k < |hunks| && Separated(hunks)
    ensures hunks[k].newStart + Tally(hunks[k].body, OnNewSide) !in Covered(hunks)
  {
    hide Covered, Tally;
    var line := hunks[k].newStart + Tally(hunks[k].body, OnNewSide);
    if line in Covered(hunks) {
      CoveredMember(hunks, line);
      assert false;
    }
  }

  /** The collected lines are the covered lines if and only if no removed line starts with two
      dashes and the text does not end in a newline. */
  lemma CollectsTheCoveredLines(hunks: seq<Hunk>, trailingNewline: bool)
    requires hunks != [] && ValidHunks(hunks) && Separated(hunks)
    ensures RightSideLines(Some(RenderPatch(hunks, trailingNewline))) == Covered(hunks)
            <==> NoMisreads(hunks) && !trailingNewline
  {
    hide RightSideLines, RenderPatch;
    CollectsExactly(hunks, trailingNewline);
    if NoMisreads(hunks) && !trailingNewline {
      CleanHunksCollectCovered(hunks);
    } else {
      var k: nat;
      if trailingNewline {
        k := |hunks| - 1;
      } else {
        k :| 0 <= k < |hunks| && Tally(hunks[k].body, Misread) != 0;
      }
      TallySplits(hunks[k].body);
      PastHunkIsUncovered(hunks, k);
      CollectedMember(hunks, trailingNewline, k, hunks[k].newStart + Tally(hunks[k].body, OnNewSide));
    }
  }

  // ---------------------------------------------------------------- location check

  datatype Validation = Validation(valid: seq<Finding>, dropped: seq<DroppedFinding>)

  predicate OnRightSide(f: Finding, byPath: map<string, set<nat>>) {
    f.path in byPath && f.line >= 0 && f.line in byPath[f.path]
  }

  function Validate(findings: seq<Finding>, byPath: map<string, set<nat>>): Validation {
    if findings == [] then Validation([], [])
    else
      var v, f := Validate(findings[..|findings| - 1], byPath), findings[|findings| - 1];
      if OnRightSide(f, byPath) then v.(valid := v.valid + [f])
      else v.(dropped := v.dropped + [DroppedFinding(f, if f.path in byPath then LineNotInCurrentDiff else FileNotInDiff)])
  }

  method ValidateFindingLocations(findings: seq<Finding>, files: seq<PullFilePatch>) returns (v: Validation)
    ensures v == Validate(findings, LinesByPath(files))
  {
    var rightLines := CollectRightSideLines(files);
    var valid: seq<Finding>, dropped: seq<DroppedFinding> := [], [];
    for i := 0 to |findings|
      invariant Validation(valid, dropped) == Validate(findings[..i], rightLines)
    {
      assert findings[..i + 1][..i] == findings[..i];
      var f := findings[i];
      if f.path !in rightLines {
        dropped := dropped + [DroppedFinding(f, FileNotInDiff)];
        continue;
      }
      if f.line < 0 || f.line !in rightLines[f.path] {
        dropped := dropped + [DroppedFinding(f, LineNotInCurrentDiff)];
        continue;
      }
      valid := valid + [f];
    }
    assert findings[..|findings|] == findings;
    v := Validation(valid, dropped);
  }

  function DroppedOnes(dropped: seq<DroppedFinding>): seq<Finding> {
    seq(|dropped|, k requires 0 <= k < |dropped| => dropped[k].finding)
  }

  /** Every finding ends once, as valid or dropped; the valid ones lie on right-side lines and the
      dropped ones do not, each for the reason given. */
  lemma {:induction false} ValidationSplits(findings: seq<Finding>, byPath: map<string, set<nat>>)
    ensures var v := Validate(findings, byPath);
      && multiset(findings) == multiset(v.valid) + multiset(DroppedOnes(v.dropped))
      && (forall f :: f in v.valid ==> OnRightSide(f, byPath))
      && (forall d :: d in v.dropped ==>
            && !OnRightSide(d.finding, byPath)
            && (d.reason == FileNotInDiff <==> d.finding.path !in byPath))
  {
    if findings != [] {
      var init, f := findings[..|findings| - 1], findings[|findings| - 1];
      ValidationSplits(init, byPath);
      assert findings == init + [f];
      var before, v := Validate(init, byPath), Validate(findings, byPath);
      if !OnRightSide(f, byPath) {
        assert DroppedOnes(v.dropped) == DroppedOnes(before.dropped) + [f];
      }
    }
  }

  /** A changed file and its hunks. */
  datatype FileDiff = FileDiff(filename: string, hunks: seq<Hunk>)

  ghost predicate CleanDiff(d: FileDiff) {
    d.hunks != [] && ValidHunks(d.hunks) && NoMisreads(d.hunks)
  }

  ghost predicate CleanDiffs(diffs: seq<FileDiff>) {
    && (forall k :: 0 <= k < |diffs| ==> CleanDiff(diffs[k]))
    && (forall i, j :: 0 <= i < j < |diffs| ==> diffs[i].filename != diffs[j].filename)
  }

  function RenderFile(d: FileDiff): PullFilePatch
    requires d.hunks != []
  {
    PullFilePatch(d.filename, Some(RenderPatch(d.hunks, false)))
  }

  ghost function RenderFiles(diffs: seq<FileDiff>): seq<PullFilePatch>
    requires CleanDiffs(diffs)
  {
    seq(|diffs|, k requires 0 <= k < |diffs| => RenderFile(diffs[k]))
  }

  lemma CleanDiffLines(d: FileDiff)
    requires CleanDiff(d)
    ensures RightSideLines(RenderFile(d).patch) == Covered(d.hunks)
  {
    hide RightSideLines, RenderPatch;
    CollectsExactly(d.hunks, false);
    CleanHunksCollectCovered(d.hunks);
  }

  /** For any files of distinct names rendered from clean hunks, the lines of a name are the lines its
      own hunks cover. */
  lemma EntryOfCleanDiff(diffs: seq<FileDiff>, k: nat)
    requires CleanDiffs(diffs) && k < |diffs|
    ensures var byPath := LinesByPath(RenderFiles(diffs));
      var name := diffs[k].filename;
      (if name in byPath then byPath[name] else {}) == Covered(diffs[k].hunks)
  {
    hide RightSideLines, RenderPatch, LinesByPath, Covered, ValidHunks, NoMisreads;
    var files := RenderFiles(diffs);
    var name := diffs[k].filename;
    CleanDiffLines(diffs[k]);
    EntriesAreExact(files, name);
    assert files[k] == RenderFile(diffs[k]);
    assert forall j :: 0 <= j < |files| && j != k ==> files[j].filename == diffs[j].filename != name;
    if Covered(diffs[k].hunks) != {} {
      assert HasLines(files[k], name);
    }
  }

  /** For any files of distinct names rendered from clean hunks, a finding is valid exactly when the
      hunks of the file it names cover its line. */
  lemma ValidOnCoveredLines(diffs: seq<FileDiff>, findings: seq<Finding>, f: Finding)
    requires CleanDiffs(diffs) && f in findings
    ensures f in Validate(findings, LinesByPath(RenderFiles(diffs))).valid <==>
            exists k :: 0 <= k < |diffs| && diffs[k].filename == f.path && f.line >= 0 && f.line in Covered(diffs[k].hunks)
  {
    hide RightSideLines, RenderPatch, LinesByPath, Covered, ValidHunks, NoMisreads;
    var files := RenderFiles(diffs);
    var byPath := LinesByPath(files);
    ValidExactlyOnRightSide(findings, byPath, f);
    EntriesAreExact(files, f.path);
    if f.path in byPath {
      var k :| 0 <= k < |files| && HasLines(files[k], f.path);
      assert files[k] == RenderFile(diffs[k]);
      EntryOfCleanDiff(diffs, k);
      assert forall j :: 0 <= j < |diffs| && j != k ==> diffs[j].filename != f.path;
    } else {
      forall k | 0 <= k < |diffs| && diffs[k].filename == f.path ensures Covered(diffs[k].hunks) == {} {
        EntryOfCleanDiff(diffs, k);
      }
    }
  }

  lemma ValidExactlyOnRightSide(findings: seq<Finding>, byPath: map<string, set<nat>>, f: Finding)
    requires f in findings
    ensures f in Validate(findings, byPath).valid <==> OnRightSide(f, byPath)
  {
    ValidationSplits(findings, byPath);
    var v := Validate(findings, byPath);
    assert f in multiset(findings);
    if f !in v.valid {
      assert f in multiset(DroppedOnes(v.dropped));
      var k :| 0 <= k < |v.dropped| && DroppedOnes(v.dropped)[k] == f;
      assert v.dropped[k] in v.dropped;
    }
  }
}
