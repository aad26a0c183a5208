/** The strict Link header reader for issue-event pagination (src/issue-event-pagination-links.ts).

  The source is a cursor parser. It accepts a subset of section 3 of RFC 8288: each member has a
  target and exactly one `rel` parameter, and optional white space is that of section 5.6.3 of
  RFC 9110. The grammar below is written as a printer over concrete syntax, independently of the
  parser. The parser is proved to accept exactly what the printer produces and to return exactly
  the printed pieces.
*/
module LinkHeader {
  import opened Basics
  import opened Scanner

  datatype LinkMember = LinkMember(raw: string, target: string, relation: string)

  /** A header value that was not sent, one that is not text, or text. */
  datatype LinkInput = Missing | NotText | Text(link: string)

  datatype LinkResult = Absent | Present(link: string, members: seq<LinkMember>) | Invalid

  // ---------------------------------------------------------------- character classes

  predicate IsOws(c: char) { c == ' ' || c == '\t' }

  predicate IsSpace(c: char) { c == ' ' }

  predicate IsTargetChar(c: char) {
    0x21 <= c as int <= 0x7e && c != ',' && c != '<' && c != '>'
  }

  predicate IsRelationChar(c: char) {
    0x21 <= c as int <= 0x7e && c != '"' && c != ',' && c != ';' && c != '<' && c != '>' && c != '\\'
  }

  /** The classes by their codes, and how they nest: a relation character is a target character other
      than the double quote, the semicolon and the backslash; none is white space. */
  lemma CharacterClasses(c: char)
    ensures IsOws(c) <==> c as int == 0x20 || c as int == 0x09
    ensures IsTargetChar(c) <==> 0x21 <= c as int <= 0x7e && c as int !in {0x2c, 0x3c, 0x3e}
    ensures IsRelationChar(c) <==> IsTargetChar(c) && c as int !in {0x22, 0x3b, 0x5c}
    ensures IsTargetChar(c) ==> !IsOws(c)
  {
  }

  // ---------------------------------------------------------------- concrete syntax and its printer

  datatype SpacedToken = SpacedToken(gap: string, token: string)

  datatype Relation = Bare(token: string) | Quoted(first: string, more: seq<SpacedToken>)

  /** One link member: the optional white space between its tokens, its target and its relation.
      `trail` is the white space before the comma that follows a member that is not the last. */
  datatype Piece = Piece(
    lead: string, target: string, beforeSemi: string, afterSemi: string,
    beforeEq: string, afterEq: string, relation: Relation, trail: string)

  ghost predicate ValidRelation(r: Relation) {
    match r
    case Bare(token) => Word(token, IsRelationChar)
    case Quoted(first, more) => Word(first, IsRelationChar) && ValidMore(more)
  }

  ghost predicate ValidMore(more: seq<SpacedToken>) {
    forall k :: 0 <= k < |more| ==> Word(more[k].gap, IsSpace) && Word(more[k].token, IsRelationChar)
  }

  ghost predicate ValidPiece(p: Piece) {
    && All(p.lead, IsOws) && Word(p.target, IsTargetChar)
    && All(p.beforeSemi, IsOws) && All(p.afterSemi, IsOws)
    && All(p.beforeEq, IsOws) && All(p.afterEq, IsOws)
    && ValidRelation(p.relation) && All(p.trail, IsOws)
  }

  /** The members of a header: every one valid, and no white space after the last. */
  ghost predicate ValidPieces(ps: seq<Piece>) {
    && ps != []
    && (forall k :: 0 <= k < |ps| ==> ValidPiece(ps[k]))
    && ps[|ps| - 1].trail == []
  }

  // Each printer takes the text that follows, so that printed text nests to the right.

  function PrintMore(more: seq<SpacedToken>, rest: string): string {
    if more == [] then rest
    else more[0].gap + (more[0].token + PrintMore(more[1..], rest))
  }

  function PrintRelation(r: Relation, rest: string): string {
    match r
    case Bare(token) => token + rest
    case Quoted(first, more) => "\"" + (first + PrintMore(more, "\"" + rest))
  }

  function PrintTarget(lead: string, target: string, rest: string): string {
    lead + ("<" + (target + (">" + rest)))
  }

  function PrintParameter(p: Piece, rest: string): string {
    p.beforeSemi + (";" + (p.afterSemi + ("rel" + (p.beforeEq + ("=" + (p.afterEq + rest))))))
  }

  function PrintPiece(p: Piece, rest: string): string {
    PrintTarget(p.lead, p.target, PrintParameter(p, PrintRelation(p.relation, rest)))
  }

  function Print(ps: seq<Piece>): string
    requires ps != []
  {
    if |ps| == 1 then PrintPiece(ps[0], [])
    else PrintPiece(ps[0], ps[0].trail + ("," + Print(ps[1..])))
  }

  /** What a reader should report for a piece. */
  function View(p: Piece): LinkMember {
    LinkMember(PrintPiece(p, []), p.target, PrintRelation(p.relation, []))
  }

  function Views(ps: seq<Piece>): seq<LinkMember> {
    seq(|ps|, k requires 0 <= k < |ps| => View(ps[k]))
  }

  // ---------------------------------------------------------------- the parser as a function of a cursor

  function More(s: string, i: nat): (j: Option<nat>)
    requires i <= |s|
    ensures j.Some? ==> i <= j.value <= |s|
    decreases |s| - i
  {
    if i < |s| && s[i] == ' ' then
      var token := Skip(s, i, IsSpace);
      var end :- Run(s, token, IsRelationChar);
      More(s, end)
    else Some(i)
  }

  function RelationEnd(s: string, i: nat): (j: Option<nat>)
    requires i <= |s|
    ensures j.Some? ==> i <= j.value <= |s|
  {
    if i < |s| && s[i] == '"' then
      var first :- Run(s, i + 1, IsRelationChar);
      var close :- More(s, first);
      Expect(s, close, "\"")
    else Run(s, i, IsRelationChar)
  }

  /** White space and then a literal. */
  function Token(s: string, i: nat, literal: string): (j: Option<nat>)
    requires i <= |s|
    ensures j.Some? ==> i <= j.value <= |s|
  {
    Expect(s, Skip(s, i, IsOws), literal)
  }

  /** Where the target starts and ends. */
  function TargetAt(s: string, i: nat): (r: Option<(nat, nat)>)
    requires i <= |s|
    ensures r.Some? ==> i <= r.value.0 < r.value.1 < |s|
  {
    var target :- Token(s, i, "<");
    var end :- Run(s, target, IsTargetChar);
    var close :- Expect(s, end, ">");
    Some((target, end))
  }

  /** Where the relation starts. */
  function ParameterAt(s: string, i: nat): (j: Option<nat>)
    requires i <= |s|
    ensures j.Some? ==> i <= j.value <= |s|
  {
    var semi :- Token(s, i, ";");
    var rel :- Token(s, semi, "rel");
    var eq :- Token(s, rel, "=");
    Some(Skip(s, eq, IsOws))
  }

  function MemberAt(s: string, i: nat): (r: Option<(LinkMember, nat)>)
    requires i <= |s|
    ensures r.Some? ==> i < r.value.1 <= |s|
  {
    var (target, targetEnd) :- TargetAt(s, i);
    var relation :- ParameterAt(s, targetEnd + 1);
    var end :- RelationEnd(s, relation);
    Some((LinkMember(s[i..end], s[target..targetEnd], s[relation..end]), end))
  }

  function MembersAt(s: string, i: nat): Option<seq<LinkMember>>
    requires i <= |s|
    decreases |s| - i
  {
    var (member, end) :- MemberAt(s, i);
    if end == |s| then Some([member])
    else
      var next :- Expect(s, Skip(s, end, IsOws), ",");
      var rest :- MembersAt(s, next);
      Some([member] + rest)
  }

  function Parse(input: LinkInput): LinkResult {
    match input
    case Missing => Absent
    case NotText => Invalid
    case Text(link) =>
      if link == [] then Invalid
      else match MembersAt(link, 0)
        case Some(members) => Present(link, members)
        case None => Invalid
  }

  // ---------------------------------------------------------------- scanning a printed prefix

  lemma SpacedTokenPrinted(s: string, i: nat, gap: string, token: string, tail: string)
    requires i <= |s| && s[i..] == gap + (token + tail)
    requires Word(gap, IsSpace) && Word(token, IsRelationChar)
    requires tail != [] && !IsRelationChar(tail[0])
    ensures i < |s| && s[i] == ' ' && Skip(s, i, IsSpace) == i + |gap|
    ensures Run(s, i + |gap|, IsRelationChar) == Some(i + |gap| + |token|)
    ensures s[i + |gap| + |token|..] == tail
  {
    hide Skip;
    HeadOfSuffix(s, i);
    SkipPrinted(s, i, IsSpace, gap, token + tail);
    SkipPrinted(s, i + |gap|, IsRelationChar, token, tail);
  }

  lemma {:induction false} MorePrinted(s: string, i: nat, more: seq<SpacedToken>, rest: string)
    requires i <= |s| && s[i..] == PrintMore(more, "\"" + rest)
    requires ValidMore(more)
    ensures More(s, i).Some? && s[More(s, i).value..] == "\"" + rest
    decreases |more|
  {
    hide Skip, Run, IsSpace;
    if more == [] {
      HeadOfSuffix(s, i);
    } else {
      var tail := PrintMore(more[1..], "\"" + rest);
      var gap, token := more[0].gap, more[0].token;
      PrintMoreHead(more[1..], rest);
      SpacedTokenPrinted(s, i, gap, token, tail);
      MorePrinted(s, i + |gap| + |token|, more[1..], rest);
    }
  }

  lemma HeadOfSuffix(s: string, i: nat)
    ensures i < |s| ==> s[i..][0] == s[i]
  {
  }

  lemma PrintMoreHead(more: seq<SpacedToken>, rest: string)
    requires ValidMore(more)
    ensures var text := PrintMore(more, "\"" + rest);
            text != [] && text[0] == if more == [] then '"' else ' '
  {
  }

  /** Text that may follow a relation: nothing, white space or a comma. */
  predicate EndsRelation(rest: string) {
    rest == [] || IsOws(rest[0]) || rest[0] == ','
  }

  lemma RelationPrinted(s: string, i: nat, r: Relation, rest: string)
    requires i <= |s| && s[i..] == PrintRelation(r, rest)
    requires ValidRelation(r) && EndsRelation(rest)
    ensures RelationEnd(s, i).Some? && s[RelationEnd(s, i).value..] == rest
  {
    hide PrintMore, More, Skip;
    HeadOfSuffix(s, i);
    match r
    case Bare(token) =>
      SkipPrinted(s, i, IsRelationChar, token, rest);
    case Quoted(first, more) =>
      var tail := PrintMore(more, "\"" + rest);
      ExpectPrinted(s, i, "\"", first + tail);
      PrintMoreHead(more, rest);
      SkipPrinted(s, i + 1, IsRelationChar, first, tail);
      MorePrinted(s, i + 1 + |first|, more, rest);
      ExpectPrinted(s, More(s, i + 1 + |first|).value, "\"", rest);
  }

  lemma Assoc(a: string, b: string, c: string)
    ensures a + (b + c) == (a + b) + c
  {
  }

  lemma {:induction false} PrintMoreSplits(more: seq<SpacedToken>, a: string, b: string)
    ensures PrintMore(more, a + b) == PrintMore(more, a) + b
  {
    if more != [] {
      var tail := PrintMore(more[1..], a);
      PrintMoreSplits(more[1..], a, b);
      Assoc(more[0].token, tail, b);
      Assoc(more[0].gap, more[0].token + tail, b);
    }
  }

  lemma PrintRelationSplits(r: Relation, rest: string)
    ensures PrintRelation(r, rest) == PrintRelation(r, []) + rest
  {
    match r
    case Bare(token) =>
    case Quoted(first, more) =>
      PrintMoreSplits(more, "\"", rest);
      assert "\"" + [] == "\"";
  }

  lemma PrintTargetSplits(lead: string, target: string, a: string, b: string)
    ensures PrintTarget(lead, target, a + b) == PrintTarget(lead, target, a) + b
  {
  }

  lemma PrintParameterSplits(p: Piece, a: string, b: string)
    ensures PrintParameter(p, a + b) == PrintParameter(p, a) + b
  {
  }

  lemma PrintPieceSplits(p: Piece, rest: string)
    ensures PrintPiece(p, rest) == PrintPiece(p, []) + rest
  {
    PrintRelationSplits(p.relation, rest);
    PrintParameterSplits(p, PrintRelation(p.relation, []), rest);
    PrintTargetSplits(p.lead, p.target, PrintParameter(p, PrintRelation(p.relation, [])), rest);
  }

  lemma TokenPrinted(s: string, i: nat, ows: string, literal: string, rest: string)
    requires i <= |s| && s[i..] == ows + (literal + rest)
    requires All(ows, IsOws) && literal != [] && !IsOws(literal[0])
    ensures Token(s, i, literal) == Some(i + |ows| + |literal|)
    ensures s[i + |ows| + |literal|..] == rest
  {
    SkipPrinted(s, i, IsOws, ows, literal + rest);
    ExpectPrinted(s, i + |ows|, literal, rest);
  }

  lemma TargetPrinted(s: string, i: nat, lead: string, target: string, rest: string)
    requires i <= |s| && s[i..] == PrintTarget(lead, target, rest)
    requires All(lead, IsOws) && Word(target, IsTargetChar)
    ensures TargetAt(s, i) == Some((i + |lead| + 1, i + |lead| + 1 + |target|))
    ensures s[i + |lead| + 1..i + |lead| + 1 + |target|] == target
    ensures s[i + |lead| + 1 + |target| + 1..] == rest
  {
    var start := i + |lead| + 1;
    TokenPrinted(s, i, lead, "<", target + (">" + rest));
    SkipPrinted(s, start, IsTargetChar, target, ">" + rest);
    SliceBefore(s, start, start + |target|, target, ">" + rest);
    ExpectPrinted(s, start + |target|, ">", rest);
  }

  lemma ParameterPrinted(s: string, i: nat, p: Piece, rest: string)
    requires i <= |s| && s[i..] == PrintParameter(p, rest)
    requires ValidPiece(p) && rest != [] && !IsOws(rest[0])
    ensures ParameterAt(s, i).Some? && s[ParameterAt(s, i).value..] == rest
  {
    hide Token, Skip, Expect;
    var afterEq := p.afterEq + rest;
    var afterRel := p.beforeEq + ("=" + afterEq);
    var afterSemi := p.afterSemi + ("rel" + afterRel);
    TokenPrinted(s, i, p.beforeSemi, ";", afterSemi);
    var semi := Token(s, i, ";").value;
    TokenPrinted(s, semi, p.afterSemi, "rel", afterRel);
    var rel := Token(s, semi, "rel").value;
    TokenPrinted(s, rel, p.beforeEq, "=", afterEq);
    var eq := Token(s, rel, "=").value;
    SkipPrinted(s, eq, IsOws, p.afterEq, rest);
  }

  lemma RelationHead(r: Relation, rest: string)
    requires ValidRelation(r)
    ensures PrintRelation(r, rest) != [] && !IsOws(PrintRelation(r, rest)[0])
  {
  }

  lemma MemberPrinted(s: string, i: nat, p: Piece, rest: string)
    requires i <= |s| && s[i..] == PrintPiece(p, rest)
    requires ValidPiece(p) && EndsRelation(rest)
    ensures MemberAt(s, i).Some?
    ensures var (member, end) := MemberAt(s, i).value; member == View(p) && s[end..] == rest
  {
    hide PrintTarget, PrintParameter, PrintRelation, TargetAt, ParameterAt, RelationEnd;
    var relationText := PrintRelation(p.relation, rest);
    var parameterText := PrintParameter(p, relationText);
    TargetPrinted(s, i, p.lead, p.target, parameterText);
    var afterTarget := TargetAt(s, i).value.1 + 1;
    RelationHead(p.relation, rest);
    ParameterPrinted(s, afterTarget, p, relationText);
    var relation := ParameterAt(s, afterTarget).value;
    RelationPrinted(s, relation, p.relation, rest);
    var end := RelationEnd(s, relation).value;
    PrintRelationSplits(p.relation, rest);
    SliceBefore(s, relation, end, PrintRelation(p.relation, []), rest);
    PrintPieceSplits(p, rest);
    SliceBefore(s, i, end, PrintPiece(p, []), rest);
  }

  // ---------------------------------------------------------------- round trip

  lemma {:induction false} MembersPrinted(s: string, i: nat, ps: seq<Piece>)
    requires ValidPieces(ps)
    requires i <= |s| && s[i..] == Print(ps)
    ensures MembersAt(s, i) == Some(Views(ps))
    decreases |ps|
  {
    hide PrintPiece, View, MemberAt, Skip, Expect;
    var p := ps[0];
    if |ps| == 1 {
      MemberPrinted(s, i, p, []);
      assert Views(ps) == [View(p)];
    } else {
      var rest := "," + Print(ps[1..]);
      MemberPrinted(s, i, p, p.trail + rest);
      var (member, end) := MemberAt(s, i).value;
      SkipPrinted(s, end, IsOws, p.trail, rest);
      ExpectPrinted(s, end + |p.trail|, ",", Print(ps[1..]));
      MembersPrinted(s, end + |p.trail| + 1, ps[1..]);
      assert Views(ps) == [View(p)] + Views(ps[1..]);
    }
  }

  /** Printing any valid list of members and parsing the text returns exactly those members. */
  lemma RoundTrip(ps: seq<Piece>)
    requires ValidPieces(ps)
    ensures Parse(Text(Print(ps))) == Present(Print(ps), Views(ps))
  {
    var s := Print(ps);
    assert s[0..] == s;
    MembersPrinted(s, 0, ps);
  }

  // ---------------------------------------------------------------- soundness: what is accepted was printed

  lemma {:induction false} MoreScans(s: string, i: nat) returns (more: seq<SpacedToken>)
    requires i <= |s| && More(s, i).Some?
    ensures ValidMore(more)
    ensures s[i..] == PrintMore(more, s[More(s, i).value..])
    decreases |s| - i
  {
    if i < |s| && s[i] == ' ' {
      var token := Skip(s, i, IsSpace);
      SkipScans(s, i, IsSpace);
      var end := Run(s, token, IsRelationChar).value;
      SkipScans(s, token, IsRelationChar);
      var later := MoreScans(s, end);
      var here := SpacedToken(s[i..token], s[token..end]);
      more := [here] + later;
      assert more[1..] == later;
    } else {
      more := [];
    }
  }

  lemma RelationScans(s: string, i: nat) returns (r: Relation)
    requires i <= |s| && RelationEnd(s, i).Some?
    ensures ValidRelation(r)
    ensures s[i..] == PrintRelation(r, s[RelationEnd(s, i).value..])
  {
    hide Skip, More, PrintMore;
    if i < |s| && s[i] == '"' {
      assert s[i..] == "\"" + s[i + 1..];
      var first := Run(s, i + 1, IsRelationChar).value;
      SkipScans(s, i + 1, IsRelationChar);
      var more := MoreScans(s, first);
      ExpectScans(s, More(s, first).value, "\"");
      r := Quoted(s[i + 1..first], more);
    } else {
      SkipScans(s, i, IsRelationChar);
      r := Bare(s[i..RelationEnd(s, i).value]);
    }
  }

  lemma TokenScans(s: string, i: nat, literal: string) returns (ows: string)
    requires i <= |s| && Token(s, i, literal).Some?
    ensures All(ows, IsOws)
    ensures s[i..] == ows + (literal + s[Token(s, i, literal).value..])
  {
    var at := Skip(s, i, IsOws);
    SkipScans(s, i, IsOws);
    ExpectScans(s, at, literal);
    ows := s[i..at];
  }

  lemma TargetScans(s: string, i: nat) returns (lead: string, target: string)
    requires i <= |s| && TargetAt(s, i).Some?
    ensures All(lead, IsOws) && Word(target, IsTargetChar)
    ensures s[i..] == PrintTarget(lead, target, s[TargetAt(s, i).value.1 + 1..])
  {
    hide Skip;
    lead := TokenScans(s, i, "<");
    var (start, end) := TargetAt(s, i).value;
    SkipScans(s, start, IsTargetChar);
    ExpectScans(s, end, ">");
    target := s[start..end];
  }

  lemma ParameterScans(s: string, i: nat) returns (beforeSemi: string, afterSemi: string, beforeEq: string, afterEq: string)
    requires i <= |s| && ParameterAt(s, i).Some?
    ensures All(beforeSemi, IsOws) && All(afterSemi, IsOws) && All(beforeEq, IsOws) && All(afterEq, IsOws)
    ensures forall p: Piece ::
              p.beforeSemi == beforeSemi && p.afterSemi == afterSemi && p.beforeEq == beforeEq && p.afterEq == afterEq
              ==> s[i..] == PrintParameter(p, s[ParameterAt(s, i).value..])
  {
    beforeSemi := TokenScans(s, i, ";");
    var semi := Token(s, i, ";").value;
    afterSemi := TokenScans(s, semi, "rel");
    var rel := Token(s, semi, "rel").value;
    beforeEq := TokenScans(s, rel, "=");
    var eq := Token(s, rel, "=").value;
    SkipScans(s, eq, IsOws);
    afterEq := s[eq..Skip(s, eq, IsOws)];
  }

  lemma MemberScans(s: string, i: nat, trail: string) returns (p: Piece)
    requires i <= |s| && MemberAt(s, i).Some? && All(trail, IsOws)
    ensures ValidPiece(p) && p.trail == trail
    ensures s[i..] == PrintPiece(p, s[MemberAt(s, i).value.1..])
  {
    hide PrintTarget, PrintParameter, PrintRelation, TargetAt, ParameterAt, RelationEnd, ValidRelation;
    var lead, target := TargetScans(s, i);
    var afterTarget := TargetAt(s, i).value.1 + 1;
    var beforeSemi, afterSemi, beforeEq, afterEq := ParameterScans(s, afterTarget);
    var r := RelationScans(s, ParameterAt(s, afterTarget).value);
    p := Piece(lead, target, beforeSemi, afterSemi, beforeEq, afterEq, r, trail);
  }

  lemma {:induction false} MembersScan(s: string, i: nat) returns (ps: seq<Piece>)
    requires i <= |s| && MembersAt(s, i).Some?
    ensures ValidPieces(ps)
    ensures s[i..] == Print(ps)
    decreases |s| - i
  {
    hide PrintPiece, MemberAt, Skip, ValidPiece;
    var end := MemberAt(s, i).value.1;
    if end == |s| {
      var p := MemberScans(s, i, []);
      ps := [p];
      assert s[end..] == [];
    } else {
      var comma := Skip(s, end, IsOws);
      SkipScans(s, end, IsOws);
      ExpectScans(s, comma, ",");
      var p := MemberScans(s, i, s[end..comma]);
      var later := MembersScan(s, comma + 1);
      ps := [p] + later;
      assert ps[1..] == later;
      assert s[end..] == p.trail + ("," + Print(later));
    }
  }

  /** The parser accepts exactly the printed language, and what it returns is what was printed. */
  lemma AcceptsExactlyTheGrammar(s: string, members: seq<LinkMember>)
    ensures Parse(Text(s)) == Present(s, members) <==>
            exists ps :: ValidPieces(ps) && Print(ps) == s && Views(ps) == members
  {
    if exists ps :: ValidPieces(ps) && Print(ps) == s && Views(ps) == members {
      var ps :| ValidPieces(ps) && Print(ps) == s && Views(ps) == members;
      RoundTrip(ps);
    }
    if Parse(Text(s)) == Present(s, members) {
      var ps := MembersScan(s, 0);
      assert s[0..] == s;
      RoundTrip(ps);
    }
  }

  lemma TextIsPrintedOrInvalid(s: string)
    ensures Parse(Text(s)).Present? <==> exists ps :: ValidPieces(ps) && Print(ps) == s
    ensures Parse(Text(s)).Present? || Parse(Text(s)).Invalid?
  {
    hide Print, ValidPiece, Views, MembersAt;
    forall members { AcceptsExactlyTheGrammar(s, members); }
    if ps :| ValidPieces(ps) && Print(ps) == s {
      assert Parse(Text(s)) == Present(s, Views(ps));
    }
    if Parse(Text(s)).Present? { assert Parse(Text(s)) == Present(s, Parse(Text(s)).members); }
  }

  // ---------------------------------------------------------------- the raw slices rebuild the input

  /** The reported raw slices, each followed by its separator, except the last. */
  function Rebuild(members: seq<LinkMember>, separators: seq<string>): string
    requires members != [] && |separators| == |members| - 1
  {
    if |members| == 1 then members[0].raw
    else members[0].raw + separators[0] + Rebuild(members[1..], separators[1..])
  }

  /** A separator is white space and then one comma. */
  ghost predicate IsSeparator(s: string) {
    s != [] && All(s[..|s| - 1], IsOws) && s[|s| - 1] == ','
  }

  lemma {:induction false} PrintRebuilds(ps: seq<Piece>) returns (separators: seq<string>)
    requires ValidPieces(ps)
    ensures |separators| == |ps| - 1
    ensures forall k :: 0 <= k < |separators| ==> IsSeparator(separators[k])
    ensures Rebuild(Views(ps), separators) == Print(ps)
  {
    hide PrintPiece, PrintRelation;
    if |ps| == 1 {
      separators := [];
    } else {
      var later := PrintRebuilds(ps[1..]);
      var separator := ps[0].trail + ",";
      separators := [separator] + later;
      assert separators[1..] == later && Views(ps)[1..] == Views(ps[1..]);
      var rest := Print(ps[1..]);
      PrintPieceSplits(ps[0], ps[0].trail + ("," + rest));
      assert separator + rest == ps[0].trail + ("," + rest);
    }
  }

  /** The raw slices of an accepted header, joined by white space and commas, are the header. */
  lemma RawSlicesRebuildTheHeader(s: string, members: seq<LinkMember>) returns (separators: seq<string>)
    requires Parse(Text(s)) == Present(s, members)
    ensures members != [] && |separators| == |members| - 1
    ensures forall k :: 0 <= k < |separators| ==> IsSeparator(separators[k])
    ensures Rebuild(members, separators) == s
  {
    AcceptsExactlyTheGrammar(s, members);
    var ps :| ValidPieces(ps) && Print(ps) == s && Views(ps) == members;
    separators := PrintRebuilds(ps);
  }

  // ---------------------------------------------------------------- the cursor loops

  method SkipOws(value: string, start: nat) returns (index: nat)
    requires start <= |value|
    ensures index == Skip(value, start, IsOws)
  {
    index := start;
    while index < |value| && (value[index] == ' ' || value[index] == '\t')
      invariant index <= |value|
      invariant Skip(value, start, IsOws) == Skip(value, index, IsOws)
    {
      index := index + 1;
    }
  }

  method ConsumeRelationToken(value: string, start: nat) returns (end: Option<nat>)
    requires start <= |value|
    ensures end == Run(value, start, IsRelationChar)
  {
    var index := start;
    while index < |value| && IsRelationChar(value[index])
      invariant start <= index <= |value|
      invariant Skip(value, start, IsRelationChar) == Skip(value, index, IsRelationChar)
    {
      index := index + 1;
    }
    return if index == start then None else Some(index);
  }

  method ConsumeTarget(link: string, start: nat) returns (end: Option<nat>)
    requires start <= |link|
    ensures end == match Run(link, start, IsTargetChar)
                   case Some(j) => if Expect(link, j, ">").Some? then Some(j) else None
                   case None => None
    ensures end.Some? ==> end.value < |link|
  {
    var index := start;
    while index < |link| && link[index] != '>'
      invariant start <= index <= |link|
      invariant Skip(link, start, IsTargetChar) == Skip(link, index, IsTargetChar)
    {
      if !IsTargetChar(link[index]) { return None; }
      index := index + 1;
    }
    if index == start || index == |link| { return None; }
    assert link[index..index + 1] == ">";
    return Some(index);
  }

  method ConsumeRelation(link: string, start: nat) returns (end: Option<nat>)
    requires start <= |link|
    ensures end == RelationEnd(link, start)
  {
    if start < |link| && link[start] == '"' {
      var first := ConsumeRelationToken(link, start + 1);
      if first.None? { return None; }
      var index := first.value;
      while index < |link| && link[index] == ' '
        invariant index <= |link|
        invariant More(link, first.value) == More(link, index)
      {
        var token := index;
        while token < |link| && link[token] == ' '
          invariant index <= token <= |link|
          invariant Skip(link, index, IsSpace) == Skip(link, token, IsSpace)
        {
          token := token + 1;
        }
        assert token == Skip(link, index, IsSpace);
        var next := ConsumeRelationToken(link, token);
        if next.None? { return None; }
        index := next.value;
      }
      if index == |link| || link[index] != '"' { return None; }
      assert link[index..index + 1] == "\"";
      return Some(index + 1);
    } else {
      end := ConsumeRelationToken(link, start);
    }
  }

  method ExpectLiteral(link: string, start: nat, literal: string) returns (end: Option<nat>)
    requires start <= |link|
    ensures end == Expect(link, start, literal)
  {
    if start + |literal| <= |link| && link[start..start + |literal|] == literal {
      return Some(start + |literal|);
    }
    return None;
  }

  method ParseMember(link: string, memberStart: nat) returns (result: Option<(LinkMember, nat)>)
    requires memberStart <= |link|
    ensures result == MemberAt(link, memberStart)
  {
    hide Skip, Expect, RelationEnd;
    var index := SkipOws(link, memberStart);
    var step := ExpectLiteral(link, index, "<");
    if step.None? { return None; }
    var targetStart := step.value;
    step := ConsumeTarget(link, targetStart);
    if step.None? { return None; }
    var targetEnd := step.value;
    var target := link[targetStart..targetEnd];
    index := SkipOws(link, targetEnd + 1);
    step := ExpectLiteral(link, index, ";");
    if step.None? { return None; }
    index := SkipOws(link, step.value);
    step := ExpectLiteral(link, index, "rel");
    if step.None? { return None; }
    index := SkipOws(link, step.value);
    step := ExpectLiteral(link, index, "=");
    if step.None? { return None; }
    var relationStart := SkipOws(link, step.value);
    step := ConsumeRelation(link, relationStart);
    if step.None? { return None; }
    return Some((LinkMember(link[memberStart..step.value], target, link[relationStart..step.value]), step.value));
  }

  function Prepend(members: seq<LinkMember>, later: Option<seq<LinkMember>>): Option<seq<LinkMember>> {
    match later
    case Some(tail) => Some(members + tail)
    case None => None
  }

  lemma PrependNone(later: Option<seq<LinkMember>>)
    ensures Prepend([], later) == later
  {
    assert later.Some? ==> [] + later.value == later.value;
  }

  lemma PrependAll(members: seq<LinkMember>, member: LinkMember)
    ensures forall tail: seq<LinkMember> :: members + ([member] + tail) == (members + [member]) + tail
  {
  }

  method ParseIssueEventLink(input: LinkInput) returns (result: LinkResult)
    ensures result == Parse(input)
    ensures result.Absent? <==> input.Missing?
    ensures input.NotText? || input == Text([]) ==> result == Invalid
    ensures result.Present? ==> input == Text(result.link) && result.members != []
    ensures input.Text? ==> (result.Present? <==> exists ps :: ValidPieces(ps) && Print(ps) == input.link)
  {
    hide MemberAt, Skip, Expect, Print, ValidPiece, Views;
    if input.Text? { TextIsPrintedOrInvalid(input.link); }
    if input.Missing? { return Absent; }
    if input.NotText? || input.link == [] { return Invalid; }
    var link := input.link;
    var members: seq<LinkMember> := [];
    var index := 0;
    PrependNone(MembersAt(link, 0));
    while true
      invariant index <= |link|
      invariant MembersAt(link, 0) == Prepend(members, MembersAt(link, index))
      decreases |link| - index
    {
      var member := ParseMember(link, index);
      if member.None? { return Invalid; }
      PrependAll(members, member.value.0);
      members := members + [member.value.0];
      index := member.value.1;
      if index == |link| { return Present(link, members); }
      var comma := SkipOws(link, index);
      var step := ExpectLiteral(link, comma, ",");
      if step.None? { return Invalid; }
      index := step.value;
    }
  }
}
