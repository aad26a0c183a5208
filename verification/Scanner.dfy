/** Cursor scanning over text, shared by the hand-written readers: runs of a character class and
  literals, and how they read back text that was printed as a word followed by a rest.
*/
module Scanner {
  import opened Basics

  ghost predicate All(s: string, p: char -> bool) {
    forall k :: 0 <= k < |s| ==> p(s[k])
  }

  ghost predicate Word(s: string, p: char -> bool) {
    s != [] && All(s, p)
  }

  /** The first position at or after `i` whose character is not in the class. */
  function Skip(s: string, i: nat, p: char -> bool): (j: nat)
    requires i <= |s|
    ensures i <= j <= |s|
    decreases |s| - i
  {
    if i < |s| && p(s[i]) then Skip(s, i + 1, p) else i
  }

  function Expect(s: string, i: nat, literal: string): (j: Option<nat>)
    requires i <= |s|
    ensures j.Some? ==> i <= j.value <= |s|
  {
    if i + |literal| <= |s| && s[i..i + |literal|] == literal then Some(i + |literal|) else None
  }

  /** A non-empty run of the class. */
  function Run(s: string, i: nat, p: char -> bool): (j: Option<nat>)
    requires i <= |s|
    ensures j.Some? ==> i < j.value <= |s|
  {
    var end := Skip(s, i, p);
    if end == i then None else Some(end)
  }

  // ---------------------------------------------------------------- reading printed text

  lemma {:induction false} SkipPrinted(s: string, i: nat, p: char -> bool, word: string, rest: string)
    requires i <= |s| && s[i..] == word + rest
    requires All(word, p) && (rest == [] || !p(rest[0]))
    ensures Skip(s, i, p) == i + |word| && s[i + |word|..] == rest
    decreases |word|
  {
    if word == [] {
    } else {
      assert s[i] == (word + rest)[0];
      assert s[i + 1..] == s[i..][1..] == word[1..] + rest;
      SkipPrinted(s, i + 1, p, word[1..], rest);
    }
  }

  lemma ExpectPrinted(s: string, i: nat, literal: string, rest: string)
    requires i <= |s| && s[i..] == literal + rest
    ensures Expect(s, i, literal) == Some(i + |literal|) && s[i + |literal|..] == rest
  {
  }

  lemma SliceBefore(s: string, i: nat, end: nat, text: string, rest: string)
    requires i <= end <= |s| && s[i..] == text + rest && s[end..] == rest
    ensures s[i..end] == text
  {
  }

  // ---------------------------------------------------------------- what was read

  lemma {:induction false} SkipScans(s: string, i: nat, p: char -> bool)
    requires i <= |s|
    ensures All(s[i..Skip(s, i, p)], p)
    ensures Skip(s, i, p) < |s| ==> !p(s[Skip(s, i, p)])
    ensures s[i..] == s[i..Skip(s, i, p)] + s[Skip(s, i, p)..]
    decreases |s| - i
  {
    if i < |s| && p(s[i]) {
      SkipScans(s, i + 1, p);
      assert s[i..Skip(s, i, p)] == [s[i]] + s[i + 1..Skip(s, i, p)];
    }
  }

  lemma ExpectScans(s: string, i: nat, literal: string)
    requires i <= |s| && Expect(s, i, literal).Some?
    ensures s[i..] == literal + s[i + |literal|..]
  {
  }
}
