/** The exec-transcript reader (src/codex-runtime.ts, parseCodexCommands), over classified lines.

  The tool prints the headers of a parallel batch first and their statuses afterwards, so the
  reader keeps a queue of headers that still wait for a status. Reading the command out of a
  header is a parameter (None when the header is blank).
*/
module CodexTranscript {
  import opened Basics

  datatype Line = Exec | Status(code: int) | Other(text: string)

  datatype Block = Block(command: string, cwd: Option<string>, flagged: bool)

  datatype Record = Record(block: Block, exitStatus: Option<int>)

  type Reader = seq<string> -> Option<Block>

  const MAX_RECORDS := 200
  const MAX_HEADER_LINES := 200

  /** Reader state. `pending` lists the positions, in `commands`, of headers without a status. */
  datatype State = State(
    commands: seq<Record>, pending: seq<nat>, statusesStarted: bool, blocksSeen: nat, flaggedCount: nat,
    headerTruncated: bool)

  const INITIAL := State([], [], false, 0, 0, false)

  predicate Valid(s: State) {
    forall k :: 0 <= k < |s.pending| ==> s.pending[k] < |s.commands|
  }

  function OnStatus(s: State, code: int): (t: State)
    requires Valid(s)
    ensures Valid(t)
  {
    if s.pending == [] then s.(statusesStarted := true)
    else
      var at := s.pending[0];
      s.(statusesStarted := true, pending := s.pending[1..],
         commands := s.commands[at := s.commands[at].(exitStatus := Some(code))])
  }

  function OnExec(s: State, header: seq<string>, tooLong: bool, read: Reader): (t: State)
    requires Valid(s)
    ensures Valid(t)
  {
    var reset := if s.statusesStarted then s.(pending := [], statusesStarted := false) else s;
    var long := reset.(headerTruncated := reset.headerTruncated || tooLong);
    match read(header)
    case None => long
    case Some(block) =>
      var counted := long.(blocksSeen := long.blocksSeen + 1,
                           flaggedCount := long.flaggedCount + (if block.flagged then 1 else 0));
      if |counted.commands| < MAX_RECORDS then
        counted.(commands := counted.commands + [Record(block, None)],
                 pending := counted.pending + [|counted.commands|])
      else counted
  }

  /** How many lines in a row, from the front, are plain output. */
  function Lead(lines: seq<Line>): (n: nat)
    ensures n <= |lines|
    ensures forall k :: 0 <= k < n ==> lines[k].Other?
    ensures n < |lines| ==> !lines[n].Other?
  {
    if lines == [] || !lines[0].Other? then 0 else 1 + Lead(lines[1..])
  }

  function Min(a: nat, b: nat): nat { if a <= b then a else b }

  function Texts(lines: seq<Line>): seq<string>
    requires forall k :: 0 <= k < |lines| ==> lines[k].Other?
  {
    seq(|lines|, k requires 0 <= k < |lines| => lines[k].text)
  }

  function Parse(s: State, lines: seq<Line>, read: Reader): (t: State)
    requires Valid(s)
    ensures Valid(t)
    decreases |lines|
  {
    if lines == [] then s
    else match lines[0]
      case Status(code) => Parse(OnStatus(s, code), lines[1..], read)
      case Other(_) => Parse(s, lines[1..], read)
      case Exec =>
        var rest := lines[1..];
        var n := Min(Lead(rest), MAX_HEADER_LINES);
        Parse(OnExec(s, Texts(rest[..n]), Lead(rest) > MAX_HEADER_LINES, read), rest[n..], read)
  }

  datatype Result = Result(
    commands: seq<Record>, total: nat, flagged: nat, blocksRecorded: nat, truncated: bool)

  function Summary(s: State): Result {
    Result(s.commands, s.blocksSeen, s.flaggedCount, |s.commands|, s.headerTruncated || s.blocksSeen > |s.commands|)
  }

  // ---------------------------------------------------------------- the loop

  method ParseCodexCommands(lines: seq<Line>, read: Reader) returns (result: Result)
    ensures result == Summary(Parse(INITIAL, lines, read))
  {
    hide OnStatus, OnExec, Parse;
    var s := INITIAL;
    var i := 0;
    assert lines[0..] == lines;
    while i < |lines|
      invariant i <= |lines| && Valid(s)
      invariant Parse(s, lines[i..], read) == Parse(INITIAL, lines, read)
    {
      ghost var rest := lines[i + 1..];
      assert lines[i..] == [lines[i]] + rest;
      match lines[i] {
        case Status(code) =>
          ParseStatusLine(s, code, rest, read);
          s := OnStatus(s, code);
          i := i + 1;
        case Other(text) =>
          ParseOtherLine(s, text, rest, read);
          i := i + 1;
        case Exec =>
          ParseExecLine(s, rest, read);
          var end := HeaderEnd(lines, i);
          var tooLong := end < |lines| && end > i + MAX_HEADER_LINES && lines[end].Other?;
          assert rest[..end - i - 1] == lines[i + 1..end] && rest[end - i - 1..] == lines[end..];
          s := OnExec(s, Texts(lines[i + 1..end]), tooLong, read);
          i := end;
      }
    }
    assert lines[i..] == [];
    ParseNothing(s, read);
    result := Summary(s);
  }

  lemma ParseNothing(s: State, read: Reader)
    requires Valid(s)
    ensures Parse(s, [], read) == s
  {
  }

  lemma ParseOtherLine(s: State, text: string, tail: seq<Line>, read: Reader)
    requires Valid(s)
    ensures Parse(s, [Other(text)] + tail, read) == Parse(s, tail, read)
  {
  }

  method HeaderEnd(lines: seq<Line>, i: nat) returns (end: nat)
    requires i < |lines|
    ensures end == i + 1 + Min(Lead(lines[i + 1..]), MAX_HEADER_LINES)
    ensures i < end <= |lines|
    ensures (end < |lines| && end > i + MAX_HEADER_LINES && lines[end].Other?) <==> Lead(lines[i + 1..]) > MAX_HEADER_LINES
    ensures forall k :: i < k < end ==> lines[k].Other?
  {
    end := i + 1;
    ghost var rest := lines[i + 1..];
    while end < |lines| && end <= i + MAX_HEADER_LINES && lines[end].Other?
      invariant i < end <= |lines| && end <= i + 1 + MAX_HEADER_LINES
      invariant end - i - 1 <= Lead(rest)
    {
      assert lines[end] == rest[end - i - 1];
      end := end + 1;
    }
    assert forall k :: i < k < end ==> lines[k] == rest[k - i - 1];
    assert end < |lines| ==> lines[end] == rest[end - i - 1];
  }

  // ---------------------------------------------------------------- transcripts of batches

  datatype StatusBlock = StatusBlock(code: int, output: seq<string>)

  datatype Batch = Batch(headers: seq<seq<string>>, statuses: seq<StatusBlock>)

  function Others(texts: seq<string>): seq<Line> {
    seq(|texts|, k requires 0 <= k < |texts| => Other(texts[k]))
  }

  function RenderHeaders(headers: seq<seq<string>>): seq<Line> {
    if headers == [] then [] else [Exec] + (Others(headers[0]) + RenderHeaders(headers[1..]))
  }

  function RenderStatuses(statuses: seq<StatusBlock>): seq<Line> {
    if statuses == [] then []
    else [Status(statuses[0].code)] + (Others(statuses[0].output) + RenderStatuses(statuses[1..]))
  }

  function Render(batches: seq<Batch>): seq<Line> {
    if batches == [] then []
    else RenderHeaders(batches[0].headers) + (RenderStatuses(batches[0].statuses) + Render(batches[1..]))
  }

  /** A header is read from its first 200 lines. */
  function ReadHeader(header: seq<string>, read: Reader): Option<Block> {
    read(header[..Min(|header|, MAX_HEADER_LINES)])
  }

  ghost predicate Readable(headers: seq<seq<string>>, read: Reader) {
    forall k :: 0 <= k < |headers| ==> ReadHeader(headers[k], read).Some?
  }

  ghost predicate ValidBatch(b: Batch, read: Reader) {
    1 <= |b.statuses| <= |b.headers| && Readable(b.headers, read)
  }

  ghost predicate ValidBatches(batches: seq<Batch>, read: Reader) {
    forall k :: 0 <= k < |batches| ==> ValidBatch(batches[k], read)
  }

  // What a faithful reader reports.

  function Unmarked(headers: seq<seq<string>>, read: Reader): seq<Record>
    requires Readable(headers, read)
  {
    seq(|headers|, k requires 0 <= k < |headers| => Record(ReadHeader(headers[k], read).value, None))
  }

  /** Give the j-th record the j-th status. */
  function Marked(records: seq<Record>, statuses: seq<StatusBlock>): seq<Record> {
    seq(|records|, k requires 0 <= k < |records| =>
      if k < |statuses| then records[k].(exitStatus := Some(statuses[k].code)) else records[k])
  }

  function AllRecords(batches: seq<Batch>, read: Reader): seq<Record>
    requires ValidBatches(batches, read)
  {
    if batches == [] then []
    else Marked(Unmarked(batches[0].headers, read), batches[0].statuses) + AllRecords(batches[1..], read)
  }

  function Flags(records: seq<Record>): nat {
    if records == [] then 0 else (if records[0].block.flagged then 1 else 0) + Flags(records[1..])
  }

  predicate AnyLong(headers: seq<seq<string>>) {
    exists k :: 0 <= k < |headers| && |headers[k]| > MAX_HEADER_LINES
  }

  predicate AnyLongBatch(batches: seq<Batch>) {
    exists k :: 0 <= k < |batches| && AnyLong(batches[k].headers)
  }

  function First(records: seq<Record>, limit: nat): seq<Record> { records[..Min(|records|, limit)] }

  // ---------------------------------------------------------------- plain output is skipped

  lemma ParseStatusLine(s: State, code: int, tail: seq<Line>, read: Reader)
    requires Valid(s)
    ensures Parse(s, [Status(code)] + tail, read) == Parse(OnStatus(s, code), tail, read)
  {
  }

  lemma ParseExecLine(s: State, tail: seq<Line>, read: Reader)
    requires Valid(s)
    ensures var n := Min(Lead(tail), MAX_HEADER_LINES);
      Parse(s, [Exec] + tail, read)
      == Parse(OnExec(s, Texts(tail[..n]), Lead(tail) > MAX_HEADER_LINES, read), tail[n..], read)
  {
  }

  lemma {:induction false} SkipOthers(s: State, texts: seq<string>, rest: seq<Line>, read: Reader)
    requires Valid(s)
    ensures Parse(s, Others(texts) + rest, read) == Parse(s, rest, read)
  {
    if texts == [] {
      assert Others(texts) + rest == rest;
    } else {
      var lines := Others(texts) + rest;
      assert lines[0] == Other(texts[0]) && lines[1..] == Others(texts[1..]) + rest;
      SkipOthers(s, texts[1..], rest, read);
    }
  }

  lemma {:induction false} LeadOfOthers(texts: seq<string>, rest: seq<Line>)
    requires rest == [] || !rest[0].Other?
    ensures Lead(Others(texts) + rest) == |texts|
  {
    if texts == [] {
      assert Others(texts) + rest == rest;
    } else {
      var lines := Others(texts) + rest;
      assert lines[0] == Other(texts[0]) && lines[1..] == Others(texts[1..]) + rest;
      LeadOfOthers(texts[1..], rest);
    }
  }

  lemma CutOthers(texts: seq<string>, rest: seq<Line>, n: nat)
    requires n <= |texts|
    ensures var lines := Others(texts) + rest;
      && (forall k :: 0 <= k < n ==> lines[..n][k].Other?)
      && Texts(lines[..n]) == texts[..n]
      && lines[n..] == Others(texts[n..]) + rest
  {
  }

  /** One header and what follows it. */
  lemma ParseHeader(s: State, header: seq<string>, rest: seq<Line>, read: Reader)
    requires Valid(s) && (rest == [] || !rest[0].Other?)
    ensures Parse(s, [Exec] + (Others(header) + rest), read)
            == Parse(OnExec(s, header[..Min(|header|, MAX_HEADER_LINES)], |header| > MAX_HEADER_LINES, read), rest, read)
  {
    hide OnExec, Parse, Lead, Others, Texts;
    var tail := Others(header) + rest;
    ParseExecLine(s, tail, read);
    LeadOfOthers(header, rest);
    var n := Min(|header|, MAX_HEADER_LINES);
    CutOthers(header, rest, n);
    var t := OnExec(s, header[..n], |header| > MAX_HEADER_LINES, read);
    SkipOthers(t, header[n..], rest, read);
  }

  // ---------------------------------------------------------------- the headers of a batch

  function Indices(from: nat, to: nat): seq<nat>
    requires from <= to
  {
    seq(to - from, k requires 0 <= k < to - from => from + k)
  }

  /** The state after a run of headers, when the queue holds exactly the records from `base` on. */
  function AfterHeaders(s: State, base: nat, headers: seq<seq<string>>, read: Reader): State
    requires base <= |s.commands| && Readable(headers, read)
  {
    var records := Unmarked(headers, read);
    var room := if |s.commands| < MAX_RECORDS then MAX_RECORDS - |s.commands| else 0;
    var commands := s.commands + First(records, room);
    State(commands, Indices(base, |commands|), false, s.blocksSeen + |headers|, s.flaggedCount + Flags(records),
          s.headerTruncated || AnyLong(headers))
  }

  lemma OneHeader(s: State, base: nat, header: seq<string>, read: Reader)
    requires Valid(s) && base <= |s.commands| && !s.statusesStarted && s.pending == Indices(base, |s.commands|)
    requires ReadHeader(header, read).Some?
    ensures OnExec(s, header[..Min(|header|, MAX_HEADER_LINES)], |header| > MAX_HEADER_LINES, read)
            == AfterHeaders(s, base, [header], read)
  {
    var records := Unmarked([header], read);
    assert records == [Record(ReadHeader(header, read).value, None)];
    assert records[1..] == [];
    assert AnyLong([header]) <==> |header| > MAX_HEADER_LINES by {
      if |header| > MAX_HEADER_LINES { assert |[header][0]| > MAX_HEADER_LINES; }
    }
    assert First(records, 0) == [] && s.commands + [] == s.commands;
    assert forall room: nat :: room > 0 ==> First(records, room) == records;
    assert Flags(records) == if ReadHeader(header, read).value.flagged then 1 else 0;
    assert Indices(base, |s.commands| + 1) == Indices(base, |s.commands|) + [|s.commands|];
  }

  lemma JoinRecords(commands: seq<Record>, one: seq<Record>, more: seq<Record>)
    ensures var room := if |commands| < MAX_RECORDS then MAX_RECORDS - |commands| else 0;
      var first := commands + First(one, room);
      var left := if |first| < MAX_RECORDS then MAX_RECORDS - |first| else 0;
      first + First(more, left) == commands + First(one + more, room)
  {
  }

  lemma JoinHeaders(s: State, base: nat, header: seq<string>, more: seq<seq<string>>, read: Reader)
    requires base <= |s.commands| && Readable([header], read) && Readable(more, read) && Readable([header] + more, read)
    ensures AfterHeaders(AfterHeaders(s, base, [header], read), base, more, read)
            == AfterHeaders(s, base, [header] + more, read)
  {
    hide First, AnyLong, Indices, ReadHeader;
    var one, later := Unmarked([header], read), Unmarked(more, read);
    var all := Unmarked([header] + more, read);
    assert all == one + later;
    JoinRecords(s.commands, one, later);
    FlagsSplit(one, later);
    AnyLongJoin(header, more);
  }

  lemma AnyLongJoin(header: seq<string>, more: seq<seq<string>>)
    ensures AnyLong([header] + more) <==> AnyLong([header]) || AnyLong(more)
  {
    var all := [header] + more;
    assert all[0] == header && [header][0] == header;
    assert forall k :: 0 <= k < |more| ==> more[k] == all[k + 1];
  }

  lemma EmptyHeaders(s: State, base: nat, read: Reader)
    requires base <= |s.commands| && !s.statusesStarted && s.pending == Indices(base, |s.commands|)
    ensures AfterHeaders(s, base, [], read) == s
  {
  }

  lemma {:induction false} ParseHeaders(s: State, base: nat, headers: seq<seq<string>>, rest: seq<Line>, read: Reader)
    requires Valid(s) && base <= |s.commands| && !s.statusesStarted && s.pending == Indices(base, |s.commands|)
    requires Readable(headers, read) && (rest == [] || !rest[0].Other?)
    ensures Valid(AfterHeaders(s, base, headers, read))
    ensures Parse(s, RenderHeaders(headers) + rest, read) == Parse(AfterHeaders(s, base, headers, read), rest, read)
    decreases |headers|
  {
    hide Parse, OnExec, Others, AnyLong, ReadHeader, Flags;
    if headers == [] {
      EmptyHeaders(s, base, read);
      assert RenderHeaders(headers) + rest == rest;
    } else {
      var header, more := headers[0], headers[1..];
      assert headers == [header] + more;
      assert Readable([header], read) && Readable(more, read);
      var tail := RenderHeaders(more) + rest;
      HeadersStep(headers, rest);
      ParseHeader(s, header, tail, read);
      OneHeader(s, base, header, read);
      var t := AfterHeaders(s, base, [header], read);
      ParseHeaders(t, base, more, rest, read);
      JoinHeaders(s, base, header, more, read);
    }
  }

  lemma HeadersStep(headers: seq<seq<string>>, rest: seq<Line>)
    requires headers != [] && (rest == [] || !rest[0].Other?)
    ensures var tail := RenderHeaders(headers[1..]) + rest;
      RenderHeaders(headers) + rest == [Exec] + (Others(headers[0]) + tail) && (tail == [] || !tail[0].Other?)
  {
  }

  // ---------------------------------------------------------------- the statuses of a batch

  function AfterStatuses(s: State, statuses: seq<StatusBlock>): (t: State)
    requires Valid(s)
    ensures Valid(t)
    decreases |statuses|
  {
    if statuses == [] then s else AfterStatuses(OnStatus(s, statuses[0].code), statuses[1..])
  }

  lemma {:induction false} ParseStatuses(s: State, statuses: seq<StatusBlock>, rest: seq<Line>, read: Reader)
    requires Valid(s)
    ensures Parse(s, RenderStatuses(statuses) + rest, read) == Parse(AfterStatuses(s, statuses), rest, read)
    decreases |statuses|
  {
    hide OnStatus, Parse, Others;
    if statuses == [] {
      assert RenderStatuses(statuses) + rest == rest;
    } else {
      var st, tail := statuses[0], RenderStatuses(statuses[1..]) + rest;
      assert RenderStatuses(statuses) + rest == [Status(st.code)] + (Others(st.output) + tail);
      ParseStatusLine(s, st.code, Others(st.output) + tail, read);
      SkipOthers(OnStatus(s, st.code), st.output, tail, read);
      ParseStatuses(OnStatus(s, st.code), statuses[1..], rest, read);
    }
  }

  /** When the queue holds exactly the records after `done`, the j-th status lands on the j-th of them. */
  lemma {:induction false} StatusesMarkInOrder(s: State, done: seq<Record>, records: seq<Record>, statuses: seq<StatusBlock>)
    requires Valid(s) && s.commands == done + records && s.pending == Indices(|done|, |done| + |records|)
    ensures var t := AfterStatuses(s, statuses);
      && t.commands == done + Marked(records, statuses)
      && t.statusesStarted == (s.statusesStarted || statuses != [])
      && t.blocksSeen == s.blocksSeen && t.flaggedCount == s.flaggedCount && t.headerTruncated == s.headerTruncated
    decreases |statuses|
  {
    hide Indices, OnStatus;
    if statuses == [] {
      assert Marked(records, statuses) == records;
    } else {
      var u := OnStatus(s, statuses[0].code);
      OneStatus(s, done, records, statuses[0].code);
      if records == [] {
        StatusesMarkInOrder(u, done, records, statuses[1..]);
      } else {
        var head := records[0].(exitStatus := Some(statuses[0].code));
        StatusesMarkInOrder(u, done + [head], records[1..], statuses[1..]);
        MarkFirst(done, records, statuses);
      }
    }
  }

  lemma MarkFirst(done: seq<Record>, records: seq<Record>, statuses: seq<StatusBlock>)
    requires records != [] && statuses != []
    ensures done + Marked(records, statuses)
            == (done + [records[0].(exitStatus := Some(statuses[0].code))]) + Marked(records[1..], statuses[1..])
  {
  }

  lemma OneStatus(s: State, done: seq<Record>, records: seq<Record>, code: int)
    requires Valid(s) && s.commands == done + records && s.pending == Indices(|done|, |done| + |records|)
    ensures var u := OnStatus(s, code);
      && u.statusesStarted
      && u.blocksSeen == s.blocksSeen && u.flaggedCount == s.flaggedCount && u.headerTruncated == s.headerTruncated
      && (records == [] ==> u.commands == s.commands && u.pending == s.pending)
      && (records != [] ==>
            && u.commands == (done + [records[0].(exitStatus := Some(code))]) + records[1..]
            && u.pending == Indices(|done| + 1, |done| + |records|))
  {
  }

  // ---------------------------------------------------------------- whole transcripts

  /** Nothing is waiting: the next header starts a new batch. */
  predicate BetweenBatches(s: State) {
    Valid(s) && |s.commands| <= MAX_RECORDS && (s.statusesStarted || s.pending == [])
  }

  function Reset(s: State): State { s.(pending := [], statusesStarted := false) }

  lemma ExecResets(s: State, header: seq<string>, rest: seq<Line>, read: Reader)
    requires BetweenBatches(s) && (rest == [] || !rest[0].Other?)
    ensures Parse(s, [Exec] + (Others(header) + rest), read) == Parse(Reset(s), [Exec] + (Others(header) + rest), read)
  {
    hide Parse, Others;
    ParseHeader(s, header, rest, read);
    ParseHeader(Reset(s), header, rest, read);
  }

  ghost predicate Extends(s: State, t: State, records: seq<Record>, long: bool) {
    && t.commands == First(s.commands + records, MAX_RECORDS)
    && t.blocksSeen == s.blocksSeen + |records|
    && t.flaggedCount == s.flaggedCount + Flags(records)
    && t.headerTruncated == (s.headerTruncated || long)
  }

  lemma {:induction false} FlagsOfMarked(records: seq<Record>, statuses: seq<StatusBlock>)
    ensures Flags(Marked(records, statuses)) == Flags(records)
  {
    if records != [] {
      var more := if statuses == [] then [] else statuses[1..];
      FlagsOfMarked(records[1..], more);
      assert Marked(records, statuses)[1..] == Marked(records[1..], more);
    }
  }

  /** One batch, read from a state between batches. */
  lemma ParseBatch(s: State, b: Batch, rest: seq<Line>, read: Reader) returns (t: State)
    requires BetweenBatches(s) && ValidBatch(b, read)
    ensures BetweenBatches(t)
    ensures Extends(s, t, Marked(Unmarked(b.headers, read), b.statuses), AnyLong(b.headers))
    ensures Parse(s, RenderHeaders(b.headers) + (RenderStatuses(b.statuses) + rest), read) == Parse(t, rest, read)
  {
    hide Parse, RenderHeaders, OnExec, OnStatus, AnyLong, AfterStatuses;
    var statusLines := RenderStatuses(b.statuses) + rest;
    assert statusLines[0] == Status(b.statuses[0].code);
    HeadersStep(b.headers, statusLines);
    ExecResets(s, b.headers[0], RenderHeaders(b.headers[1..]) + statusLines, read);
    var base := |s.commands|;
    var r := Reset(s);
    assert r.pending == Indices(base, base);
    ParseHeaders(r, base, b.headers, statusLines, read);
    var u := AfterHeaders(r, base, b.headers, read);
    ParseStatuses(u, b.statuses, rest, read);
    t := AfterStatuses(u, b.statuses);
    BatchExtends(s, b, read);
  }

  lemma BatchExtends(s: State, b: Batch, read: Reader)
    requires BetweenBatches(s) && ValidBatch(b, read) && Valid(AfterHeaders(Reset(s), |s.commands|, b.headers, read))
    ensures var t := AfterStatuses(AfterHeaders(Reset(s), |s.commands|, b.headers, read), b.statuses);
      BetweenBatches(t) && Extends(s, t, Marked(Unmarked(b.headers, read), b.statuses), AnyLong(b.headers))
  {
    hide AnyLong, AfterStatuses, ReadHeader;
    var records, room := Unmarked(b.headers, read), MAX_RECORDS - |s.commands|;
    var u := AfterHeaders(Reset(s), |s.commands|, b.headers, read);
    StatusesMarkInOrder(u, s.commands, First(records, room), b.statuses);
    assert Marked(First(records, room), b.statuses) == First(Marked(records, b.statuses), room);
    assert s.commands + First(Marked(records, b.statuses), room)
           == First(s.commands + Marked(records, b.statuses), MAX_RECORDS);
    FlagsOfMarked(records, b.statuses);
  }

  lemma {:induction false} FlagsSplit(a: seq<Record>, b: seq<Record>)
    ensures Flags(a + b) == Flags(a) + Flags(b)
  {
    if a == [] {
      assert a + b == b;
    } else {
      FlagsSplit(a[1..], b);
      assert (a + b)[1..] == a[1..] + b;
    }
  }

  lemma ExtendsCompose(s: State, t: State, u: State, a: seq<Record>, b: seq<Record>, x: bool, y: bool)
    requires Extends(s, t, a, x) && Extends(t, u, b, y)
    ensures Extends(s, u, a + b, x || y)
  {
    FlagsSplit(a, b);
    assert First(First(s.commands + a, MAX_RECORDS) + b, MAX_RECORDS) == First(s.commands + (a + b), MAX_RECORDS);
  }

  lemma {:induction false} ParseBatches(s: State, batches: seq<Batch>, read: Reader)
    requires BetweenBatches(s) && ValidBatches(batches, read)
    ensures Extends(s, Parse(s, Render(batches), read), AllRecords(batches, read), AnyLongBatch(batches))
    decreases |batches|
  {
    if batches == [] {
      assert s.commands + [] == s.commands;
    } else {
      var b, more := batches[0], batches[1..];
      assert ValidBatch(b, read) && ValidBatches(more, read);
      var t := ParseBatch(s, b, Render(more), read);
      ParseBatches(t, more, read);
      ExtendsCompose(s, t, Parse(t, Render(more), read), Marked(Unmarked(b.headers, read), b.statuses),
                     AllRecords(more, read), AnyLong(b.headers), AnyLongBatch(more));
      assert AnyLongBatch(batches) <==> AnyLong(b.headers) || AnyLongBatch(more) by {
        assert forall k :: 0 <= k < |more| ==> more[k] == batches[k + 1];
        if AnyLong(b.headers) { assert AnyLong(batches[0].headers); }
      }
    }
  }

  /** For every transcript of batches after any plain output: the records are the first 200 headers,
      each with the status of its own position in its own batch or none, the totals count every
      header, and the truncation flag is set exactly when records or header lines were left out. */
  lemma TranscriptIsReadBack(preamble: seq<string>, batches: seq<Batch>, read: Reader)
    requires ValidBatches(batches, read)
    ensures var all := AllRecords(batches, read);
      Summary(Parse(INITIAL, Others(preamble) + Render(batches), read))
      == Result(First(all, MAX_RECORDS), |all|, Flags(all), Min(|all|, MAX_RECORDS),
                AnyLongBatch(batches) || |all| > MAX_RECORDS)
  {
    var all := AllRecords(batches, read);
    SkipOthers(INITIAL, preamble, Render(batches), read);
    ParseBatches(INITIAL, batches, read);
    assert [] + all == all;
  }
}
