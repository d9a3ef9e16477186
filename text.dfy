/** Whitespace trimming as `String.prototype.trim` performs it on a task's text. */
module Text {

  /** The characters ECMAScript's `trim` strips: WhiteSpace (tab, vertical tab,
      form feed, space, no-break space, byte-order mark and the Zs space
      separators U+1680, U+2000 to U+200A, U+202F, U+205F, U+3000) and
      LineTerminator (LF, CR, line and paragraph separator). */
  const Whitespace: set<char> :=
    {'\t', '\n', '\U{000B}', '\U{000C}', '\r', ' ', '\U{00A0}', '\U{1680}',
     '\U{2000}', '\U{2001}', '\U{2002}', '\U{2003}', '\U{2004}', '\U{2005}',
     '\U{2006}', '\U{2007}', '\U{2008}', '\U{2009}', '\U{200A}',
     '\U{2028}', '\U{2029}', '\U{202F}', '\U{205F}', '\U{3000}', '\U{FEFF}'}

  predicate IsWhitespace(c: char) {
    c in Whitespace
  }

  /** True when every character of `s` is whitespace (the empty string included). */
  predicate AllWhitespace(s: string) {
    forall i :: 0 <= i < |s| ==> IsWhitespace(s[i])
  }

  /** The length of the whitespace run that `s` starts with. */
  function LeadingWhitespace(s: string): (n: nat)
    ensures n <= |s|
    ensures forall i :: 0 <= i < n ==> IsWhitespace(s[i])
    ensures n < |s| ==> !IsWhitespace(s[n])
  {
    if s != [] && IsWhitespace(s[0]) then 1 + LeadingWhitespace(s[1..]) else 0
  }

  /** The length of the whitespace run that `s` ends with. */
  function TrailingWhitespace(s: string): (n: nat)
    ensures n <= |s|
    ensures forall i :: |s| - n <= i < |s| ==> IsWhitespace(s[i])
    ensures n < |s| ==> !IsWhitespace(s[|s| - 1 - n])
  {
    if s != [] && IsWhitespace(s[|s| - 1]) then 1 + TrailingWhitespace(s[..|s| - 1]) else 0
  }

  /** `text.trim()`: what is left of `s` once the whitespace runs at both ends
      are cut off. It is empty exactly when `s` is all whitespace, and
      otherwise begins and ends with a non-whitespace character. */
  function Trim(s: string): (r: string)
    ensures |r| <= |s|
    ensures r == [] <==> AllWhitespace(s)
    ensures r != [] ==> !IsWhitespace(r[0]) && !IsWhitespace(r[|r| - 1])
  {
    var front := LeadingWhitespace(s);
    if front == |s| then
      []
    else
      var back := TrailingWhitespace(s);
      assert front + back < |s|;
      s[front..|s| - back]
  }

  /** Trimming only cuts whitespace off the two ends: the trimmed text is the
      slice of `s` after its leading whitespace, and everything of `s` before
      and after that slice is whitespace. */
  lemma TrimSplits(s: string)
    ensures var lead, r := LeadingWhitespace(s), Trim(s);
            lead + |r| <= |s| && r == s[lead..lead + |r|] &&
            AllWhitespace(s[..lead]) && AllWhitespace(s[lead + |r|..])
  {
  }

  /** Trimming an already trimmed string changes nothing. */
  lemma TrimIdempotent(s: string)
    ensures Trim(Trim(s)) == Trim(s)
  {
  }

  /** Spaces and tabs around a task's text go, inner spaces stay, and text of
      spaces and tabs alone trims to nothing. */
  lemma TrimExamples()
    ensures Trim(" \t ") == []
    ensures Trim("  Buy milk\t") == "Buy milk"
  {
    assert AllWhitespace(" \t ");
    var s := "  Buy milk\t";
    assert LeadingWhitespace(s) == 2 by {
      assert !IsWhitespace('B');
      assert s[2..] == "Buy milk\t";
      assert s[1..][1..] == s[2..];
    }
    assert TrailingWhitespace(s) == 1 by {
      assert !IsWhitespace('k');
      assert s[..|s| - 1] == "  Buy milk";
    }
  }

  /** The JavaScript test `!text.trim()`: the trimmed text is the empty string. */
  predicate IsBlank(s: string)
    ensures IsBlank(s) <==> AllWhitespace(s)
  {
    Trim(s) == []
  }
}
