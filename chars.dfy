/**
 * Character classes and case mapping as Python 3 defines them for `str`.
 *
 * The register is decoded as cp1252, so every character the pipeline sees is
 * in Latin-1 or is one of the 27 characters cp1252 adds at 0x80-0x9F.  Over
 * that repertoire the classes below are exactly Python's `\s` (= `str.isspace`),
 * `\d` and `\w`, and the case mappings are exactly `str.lower`/`str.upper`,
 * except for the three characters whose upper case leaves the repertoire or
 * takes two characters (see README).
 */
module Chars {

  /** Regex `\s` and `str.isspace`. */
  predicate IsSpace(c: char) {
    ('\t' <= c <= '\r') || ('\U{1C}' <= c <= ' ') || c == '\U{85}' || c == '\U{A0}'
  }

  /** Regex `\d`: Unicode decimal digits, which in this repertoire are the ASCII digits. */
  predicate IsDigit(c: char) {
    '0' <= c <= '9'
  }

  predicate IsAsciiLetter(c: char) {
    ('A' <= c <= 'Z') || ('a' <= c <= 'z')
  }

  /** Latin-1 and cp1252 letters outside ASCII, the modifier letter U+02C6 (cp1252 0x88) included. */
  predicate IsOtherLetter(c: char) {
    c == '\U{AA}' || c == '\U{B5}' || c == '\U{BA}'
    || ('\U{C0}' <= c <= '\U{FF}' && c != '\U{D7}' && c != '\U{F7}')
    || c == '\U{152}' || c == '\U{153}' || c == '\U{160}' || c == '\U{161}'
    || c == '\U{178}' || c == '\U{17D}' || c == '\U{17E}' || c == '\U{192}'
    || c == '\U{2C6}'
  }

  /** Latin-1 characters that are numeric without being decimal digits (superscripts, fractions). */
  predicate IsOtherNumeric(c: char) {
    c == '\U{B2}' || c == '\U{B3}' || c == '\U{B9}' || ('\U{BC}' <= c <= '\U{BE}')
  }

  /** Regex `\w`: alphanumerics and the underscore. */
  predicate IsWordChar(c: char) {
    IsDigit(c) || IsAsciiLetter(c) || IsOtherLetter(c) || IsOtherNumeric(c) || c == '_'
  }

  /** Upper-case letters that have a one-character lower case in the repertoire. */
  predicate IsUpperCased(c: char) {
    ('A' <= c <= 'Z') || ('\U{C0}' <= c <= '\U{DE}' && c != '\U{D7}')
    || c == '\U{152}' || c == '\U{160}' || c == '\U{17D}' || c == '\U{178}'
  }

  /** Lower-case letters that have a one-character upper case in the repertoire. */
  predicate IsLowerCased(c: char) {
    ('a' <= c <= 'z') || ('\U{E0}' <= c <= '\U{FE}' && c != '\U{F7}')
    || c == '\U{153}' || c == '\U{161}' || c == '\U{17E}' || c == '\U{FF}'
  }

  /** `str.lower` on one character. */
  function ToLower(c: char): (r: char)
    ensures !IsUpperCased(r)
    ensures IsUpperCased(c) <==> r != c
  {
    if 'A' <= c <= 'Z' || ('\U{C0}' <= c <= '\U{DE}' && c != '\U{D7}') then (c as int + 32) as char
    else if c == '\U{152}' || c == '\U{160}' || c == '\U{17D}' then (c as int + 1) as char
    else if c == '\U{178}' then '\U{FF}'
    else c
  }

  /** `str.upper` on one character (also its title case, which `str.capitalize` uses). */
  function ToUpper(c: char): (r: char)
    ensures !IsLowerCased(r)
    ensures IsLowerCased(c) <==> r != c
  {
    if 'a' <= c <= 'z' || ('\U{E0}' <= c <= '\U{FE}' && c != '\U{F7}') then (c as int - 32) as char
    else if c == '\U{153}' || c == '\U{161}' || c == '\U{17E}' then (c as int - 1) as char
    else if c == '\U{FF}' then '\U{178}'
    else c
  }

  /** `str.lower` on a string. */
  function LowerAll(s: string): (r: string)
    ensures |r| == |s|
    ensures forall i :: 0 <= i < |s| ==> r[i] == ToLower(s[i])
  {
    seq(|s|, i requires 0 <= i < |s| => ToLower(s[i]))
  }

  /** Case-insensitive comparison with a lower-case literal at position `i`, as a regex compiled with IGNORECASE does it. */
  predicate StartsWithCI(s: string, i: nat, lit: string)
    ensures StartsWithCI(s, i, lit) ==> i + |lit| <= |s|
    decreases |lit|
  {
    i + |lit| <= |s| && (lit == [] || (ToLower(s[i]) == lit[0] && StartsWithCI(s, i + 1, lit[1..])))
  }

  /** One character of a case-insensitive prefix. */
  lemma {:induction false} StartsWithCIAt(s: string, i: nat, lit: string, k: nat)
    requires StartsWithCI(s, i, lit) && k < |lit|
    ensures ToLower(s[i + k]) == lit[k]
    decreases k
  {
    if k > 0 {
      StartsWithCIAt(s, i + 1, lit[1..], k - 1);
    }
  }

  /** One differing character rules a case-insensitive prefix out. */
  lemma {:induction false} NotStartsWithCI(s: string, i: nat, lit: string, k: nat)
    requires k < |lit| && (i + k >= |s| || ToLower(s[i + k]) != lit[k])
    ensures !StartsWithCI(s, i, lit)
  {
    if StartsWithCI(s, i, lit) {
      StartsWithCIAt(s, i, lit, k);
    }
  }

  /** Changing case never changes the class of a character. */
  lemma CaseKeepsClass(c: char)
    ensures IsSpace(ToLower(c)) == IsSpace(c) && IsSpace(ToUpper(c)) == IsSpace(c)
    ensures IsWordChar(ToLower(c)) == IsWordChar(c) && IsWordChar(ToUpper(c)) == IsWordChar(c)
    ensures IsDigit(ToLower(c)) == IsDigit(c) && IsDigit(ToUpper(c)) == IsDigit(c)
  {
  }

  lemma LowerCaseIsStable(c: char)
    ensures ToLower(ToLower(c)) == ToLower(c)
    ensures ToUpper(ToUpper(c)) == ToUpper(c)
    ensures ToLower(ToUpper(c)) == ToLower(c)
  {
  }
}
