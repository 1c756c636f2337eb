/**
 * The fixed-length regular expressions of the record sanitiser, with Python's
 * `re` semantics: `.` matches any character but a newline, an alternation tries
 * its branches in order, `match` is anchored at the start of the string only
 * (it need not reach the end), and `sub` replaces every non-overlapping match,
 * scanning left to right.
 */
module Patterns {
  import opened Wrappers

  /** A pattern is the text of the regular expression; `.` is its only metacharacter. */
  type Pattern = string

  /** The branches of an alternation, in the order the engine tries them. */
  type Regex = seq<Pattern>

  /** One pattern character against one text character: `.` matches anything but a newline. */
  predicate CharMatches(p: char, c: char) {
    if p == '.' then c != '\n' else c == p
  }

  predicate MatchesAt(p: Pattern, s: string, i: nat) {
    i + |p| <= |s| && forall k :: 0 <= k < |p| ==> CharMatches(p[k], s[i + k])
  }

  /** No branch is empty, so every match makes progress. */
  predicate WellFormed(re: Regex) {
    forall k :: 0 <= k < |re| ==> |re[k]| > 0
  }

  /** Length of the first branch of `re` that matches at position `i`. */
  function MatchLength(re: Regex, s: string, i: nat): (r: Option<nat>)
    ensures r.Some? ==> i + r.value <= |s|
    ensures r.Some? && WellFormed(re) ==> r.value > 0
  {
    if re == [] then None
    else if MatchesAt(re[0], s, i) then Some(|re[0]|)
    else MatchLength(re[1..], s, i)
  }

  /** A match is found exactly when some branch matches, and its length is that of a matching branch. */
  lemma {:induction false} MatchLengthFindsBranch(re: Regex, s: string, i: nat)
    ensures MatchLength(re, s, i).Some? <==> exists b :: b in re && MatchesAt(b, s, i)
    ensures MatchLength(re, s, i).Some? ==> exists b :: b in re && MatchesAt(b, s, i) && |b| == MatchLength(re, s, i).value
  {
    if re != [] {
      MatchLengthFindsBranch(re[1..], s, i);
      if !MatchesAt(re[0], s, i) {
        assert forall b :: b in re && b != re[0] ==> b in re[1..];
      }
    }
  }

  /** `re.match(s) is not None`. */
  predicate Match(re: Regex, s: string) {
    MatchLength(re, s, 0).Some?
  }

  /** `re.sub(replacement, s)` from position `i` on. */
  function SubFrom(re: Regex, replacement: string, s: string, i: nat): string
    requires WellFormed(re)
    decreases |s| - i
  {
    if i >= |s| then []
    else match MatchLength(re, s, i)
      case Some(n) => replacement + SubFrom(re, replacement, s, i + n)
      case None => [s[i]] + SubFrom(re, replacement, s, i + 1)
  }

  function Sub(re: Regex, replacement: string, s: string): string
    requires WellFormed(re)
  {
    SubFrom(re, replacement, s, 0)
  }

  /** `re.search(s) is not None` from position `i` on. */
  predicate SearchFrom(re: Regex, s: string, i: nat) {
    exists j :: i <= j < |s| && MatchLength(re, s, j).Some?
  }

  /** Substitution changes nothing where the pattern occurs nowhere. */
  lemma {:induction false} SubWithoutMatch(re: Regex, replacement: string, s: string, i: nat)
    requires WellFormed(re) && i <= |s|
    requires !SearchFrom(re, s, i)
    ensures SubFrom(re, replacement, s, i) == s[i..]
    decreases |s| - i
  {
    if i < |s| {
      assert MatchLength(re, s, i).None?;
      SubWithoutMatch(re, replacement, s, i + 1);
    }
  }

  /** A string that begins with a match and continues with `rest` is rewritten to the replacement followed by the rewritten rest. */
  lemma SubOfLeadingMatch(re: Regex, replacement: string, s: string, n: nat)
    requires WellFormed(re)
    requires MatchLength(re, s, 0) == Some(n)
    ensures Sub(re, replacement, s) == replacement + Sub(re, replacement, s[n..])
  {
    SubShift(re, replacement, s, n, n);
  }

  /** Scanning `s` from `k` gives the same text as scanning `s[n..]` from `k - n`. */
  lemma {:induction false} SubShift(re: Regex, replacement: string, s: string, n: nat, k: nat)
    requires WellFormed(re) && n <= k <= |s|
    ensures SubFrom(re, replacement, s, k) == SubFrom(re, replacement, s[n..], k - n)
    decreases |s| - k
  {
    if k < |s| {
      MatchLengthShift(re, s, n, k);
      match MatchLength(re, s, k)
      case Some(m) =>
        SubShift(re, replacement, s, n, k + m);
        SubShiftReplaces(re, replacement, s, n, k, m);
      case None =>
        SubShift(re, replacement, s, n, k + 1);
        SubShiftCopies(re, replacement, s, n, k);
    }
  }

  /** One step of `SubShift` where both scans find the same match at `k`. */
  lemma SubShiftReplaces(re: Regex, replacement: string, s: string, n: nat, k: nat, m: nat)
    requires WellFormed(re) && n <= k < |s| && k + m <= |s|
    requires MatchLength(re, s, k) == Some(m) && MatchLength(re, s[n..], k - n) == Some(m)
    requires SubFrom(re, replacement, s, k + m) == SubFrom(re, replacement, s[n..], k + m - n)
    ensures SubFrom(re, replacement, s, k) == SubFrom(re, replacement, s[n..], k - n)
  {
    SubFromReplaces(re, replacement, s, k, m);
    SubFromReplaces(re, replacement, s[n..], k - n, m);
  }

  /** One step of `SubShift` where neither scan finds a match at `k`. */
  lemma SubShiftCopies(re: Regex, replacement: string, s: string, n: nat, k: nat)
    requires WellFormed(re) && n <= k < |s|
    requires MatchLength(re, s, k).None? && MatchLength(re, s[n..], k - n).None?
    requires SubFrom(re, replacement, s, k + 1) == SubFrom(re, replacement, s[n..], k + 1 - n)
    ensures SubFrom(re, replacement, s, k) == SubFrom(re, replacement, s[n..], k - n)
  {
    SubFromCopies(re, replacement, s, k);
    SubFromCopies(re, replacement, s[n..], k - n);
    assert s[n..][k - n] == s[k];
  }

  lemma SubFromReplaces(re: Regex, replacement: string, s: string, i: nat, m: nat)
    requires WellFormed(re) && i < |s| && MatchLength(re, s, i) == Some(m)
    ensures SubFrom(re, replacement, s, i) == replacement + SubFrom(re, replacement, s, i + m)
  {
  }

  lemma SubFromCopies(re: Regex, replacement: string, s: string, i: nat)
    requires WellFormed(re) && i < |s| && MatchLength(re, s, i).None?
    ensures SubFrom(re, replacement, s, i) == [s[i]] + SubFrom(re, replacement, s, i + 1)
  {
  }

  lemma {:induction false} MatchLengthShift(re: Regex, s: string, n: nat, k: nat)
    requires n <= k <= |s|
    ensures MatchLength(re, s, k) == MatchLength(re, s[n..], k - n)
  {
    if re != [] {
      assert MatchesAt(re[0], s, k) == MatchesAt(re[0], s[n..], k - n) by {
        if MatchesAt(re[0], s[n..], k - n) {
          forall j | 0 <= j < |re[0]| ensures CharMatches(re[0][j], s[k + j]) {
            assert s[n..][k - n + j] == s[k + j];
          }
        }
      }
      MatchLengthShift(re[1..], s, n, k);
    }
  }

  /** A pattern compiled from a text matches that text (a `.` matches itself). */
  lemma MatchesOwnText(text: string, s: string, i: nat)
    requires i + |text| <= |s| && s[i..i + |text|] == text
    ensures MatchesAt(text, s, i)
  {
    forall k | 0 <= k < |text| ensures CharMatches(text[k], s[i + k]) {
      assert s[i + k] == text[k];
    }
  }

  /** A text that differs from the pattern at position `k` does not match it there. */
  lemma DiffersAt(p: Pattern, s: string, i: nat, k: nat)
    requires k < |p| && i + k < |s| && !CharMatches(p[k], s[i + k])
    ensures !MatchesAt(p, s, i)
  {
  }

  /** A pattern of one branch matches where that branch does. */
  lemma MatchLengthOfOne(p: Pattern, s: string, i: nat)
    ensures MatchLength([p], s, i) == if MatchesAt(p, s, i) then Some(|p|) else None
  {
    assert [p][1..] == [];
  }

  /** Of two branches the first is tried first. */
  lemma MatchLengthOfTwo(p: Pattern, q: Pattern, s: string, i: nat)
    ensures MatchLength([p, q], s, i) ==
            if MatchesAt(p, s, i) then Some(|p|) else if MatchesAt(q, s, i) then Some(|q|) else None
  {
    assert [p, q][1..] == [q];
    MatchLengthOfOne(q, s, i);
  }

  /** A string that is exactly one match of the pattern becomes the replacement. */
  lemma SubOfWholeMatch(re: Regex, replacement: string, s: string)
    requires WellFormed(re)
    requires MatchLength(re, s, 0) == Some(|s|)
    ensures Sub(re, replacement, s) == replacement
  {
    SubOfLeadingMatch(re, replacement, s, |s|);
  }
}
