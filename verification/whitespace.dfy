/**
 The blank-name test of the note editor: a name is rejected when
 `String.prototype.trim` leaves nothing of it. `trim` strips, from both ends,
 the code points ECMAScript classes as WhiteSpace or LineTerminator.
 */
module Whitespace {

  /** ECMAScript WhiteSpace (TAB, VT, FF, SP, NBSP, ZWNBSP and the Unicode
      space separators U+1680, U+2000 to U+200A, U+202F, U+205F, U+3000) and
      LineTerminator (LF, CR, LS, PS). */
  const SpaceChars: set<char> := {
    '\t', '\U{000B}', '\U{000C}', ' ', '\U{00A0}', '\U{FEFF}', '\U{1680}',
    '\U{2000}', '\U{2001}', '\U{2002}', '\U{2003}', '\U{2004}', '\U{2005}',
    '\U{2006}', '\U{2007}', '\U{2008}', '\U{2009}', '\U{200A}',
    '\U{202F}', '\U{205F}', '\U{3000}',
    '\n', '\r', '\U{2028}', '\U{2029}'
  }

  /** The characters `trim` removes. */
  function IsSpace(c: char): (b: bool)
    ensures b ==> c <= '\U{FEFF}'
    ensures '!' <= c <= '~' ==> !b
  {
    c in SpaceChars
  }

  predicate AllSpace(s: string) {
    forall i :: 0 <= i < |s| ==> IsSpace(s[i])
  }

  /** How many characters of white space `s` starts with. */
  function LeadingSpaces(s: string): (n: nat)
    ensures n <= |s|
    ensures forall k :: 0 <= k < n ==> IsSpace(s[k])
    ensures n < |s| ==> !IsSpace(s[n])
    decreases |s|
  {
    if |s| > 0 && IsSpace(s[0]) then 1 + LeadingSpaces(s[1..]) else 0
  }

  /** How many characters of white space `s` ends with. */
  function TrailingSpaces(s: string): (n: nat)
    ensures n <= |s|
    ensures forall k :: |s| - n <= k < |s| ==> IsSpace(s[k])
    ensures n < |s| ==> !IsSpace(s[|s| - 1 - n])
    decreases |s|
  {
    if |s| > 0 && IsSpace(s[|s| - 1]) then 1 + TrailingSpaces(s[..|s| - 1]) else 0
  }

  /** `s.trim()`: the middle slice of `s` that starts where the leading white
      space ends; every character outside it is white space, and it neither
      starts nor ends with white space. */
  function Trim(s: string): (r: string)
    ensures LeadingSpaces(s) + |r| <= |s|
    ensures r == s[LeadingSpaces(s)..LeadingSpaces(s) + |r|]
    ensures forall k :: 0 <= k < |s| && !(LeadingSpaces(s) <= k < LeadingSpaces(s) + |r|) ==> IsSpace(s[k])
    ensures |r| > 0 ==> !IsSpace(r[0]) && !IsSpace(r[|r| - 1])
  {
    var i := LeadingSpaces(s);
    var j := TrailingSpaces(s[i..]);
    s[i..|s| - j]
  }

  /** Trimming leaves nothing exactly when every character is white space. */
  lemma TrimEmptyIffAllSpace(s: string)
    ensures Trim(s) == [] <==> AllSpace(s)
  {
  }

  /** `!name.trim()`: the trimmed name is the empty string, JavaScript's only
      falsy string. That happens exactly when every character of the name is
      white space. */
  function IsBlank(name: string): (b: bool)
    ensures b <==> AllSpace(name)
  {
    TrimEmptyIffAllSpace(name);
    Trim(name) == []
  }

  /** The empty name and a run of spaces are blank. */
  lemma BlankExamples()
    ensures IsBlank("") && IsBlank("   ")
  {
  }

  /** A name with a visible character is never blank, however it is padded. */
  lemma NotBlankWithVisible(s: string, i: nat)
    requires i < |s| && !IsSpace(s[i])
    ensures !IsBlank(s)
  {
  }
}
