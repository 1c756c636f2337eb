/**
 * The rewriting steps of `transform_address` (app/transformer.py), one
 * function per regular expression or string method, with the properties each
 * step guarantees.  `Transformer.TransformAddress` runs them in order.
 */
module Address {
  import opened Wrappers
  import opened Chars

  // ---------------------------------------------------------------------------
  // Step 1: `[^\s\d\w]` replaced by a space
  // ---------------------------------------------------------------------------

  /** A character that `non_valid_regex` leaves alone: whitespace, a digit or a word character. */
  predicate IsValid(c: char) {
    IsSpace(c) || IsDigit(c) || IsWordChar(c)
  }

  predicate HasInvalid(s: string) {
    exists i :: 0 <= i < |s| && !IsValid(s[i])
  }

  /** `non_valid_regex.sub(' ', s)`: every other character becomes exactly one space. */
  function ReplaceInvalid(s: string): (r: string)
    ensures |r| == |s|
    ensures forall i :: 0 <= i < |r| ==> IsValid(r[i])
    ensures forall i :: 0 <= i < |s| && IsValid(s[i]) ==> r[i] == s[i]
    ensures forall i :: 0 <= i < |s| && !IsValid(s[i]) ==> r[i] == ' '
  {
    seq(|s|, i requires 0 <= i < |s| => if IsValid(s[i]) then s[i] else ' ')
  }

  /** Without a character to replace the substitution is the identity, so the `search` guard changes nothing. */
  lemma ReplaceInvalidWithoutInvalid(s: string)
    requires !HasInvalid(s)
    ensures ReplaceInvalid(s) == s
  {
  }

  // ---------------------------------------------------------------------------
  // Steps 2 and 5: `str.lstrip()`
  // ---------------------------------------------------------------------------

  /** `s.lstrip()`: the longest suffix of `s` that does not start with whitespace. */
  function LStrip(s: string): (r: string)
    ensures |r| <= |s| && r == s[|s| - |r|..]
    ensures r == [] || !IsSpace(r[0])
    ensures forall i :: 0 <= i < |s| - |r| ==> IsSpace(s[i])
  {
    s[SpaceRun(s, 0)..]
  }

  // ---------------------------------------------------------------------------
  // Step 3: `^\s*(Apts?|Apartments?|Flts?|Flats?|Nos?|Nums?|Numbers?|Houses?)`, IGNORECASE
  // ---------------------------------------------------------------------------

  /** The stems of the alternatives, in the order the pattern lists them; each is followed by `s?`. */
  const MarkerStems: seq<string> := ["apt", "apartment", "flt", "flat", "no", "num", "number", "house"]

  /** Length matched by the alternative `stem s?` at position `i`, if it matches there. */
  function StemMatch(s: string, i: nat, stem: string): (r: Option<nat>)
    ensures r.Some? <==> StartsWithCI(s, i, stem)
    ensures r.Some? ==> i + r.value <= |s| && |stem| <= r.value <= |stem| + 1
  {
    if StartsWithCI(s, i, stem) then
      Some(if i + |stem| < |s| && ToLower(s[i + |stem|]) == 's' then |stem| + 1 else |stem|)
    else None
  }

  /** What the regex engine does: the first alternative that matches wins. */
  function FirstMarker(s: string, i: nat, stems: seq<string>): Option<nat> {
    if stems == [] then None
    else match StemMatch(s, i, stems[0])
      case Some(n) => Some(n)
      case None => FirstMarker(s, i, stems[1..])
  }

  /** The evidently intended matcher: the longest marker at position `i`. */
  function LongestMarker(s: string, i: nat, stems: seq<string>): (r: Option<nat>)
    ensures r.Some? ==> i + r.value <= |s|
  {
    if stems == [] then None
    else
      var rest := LongestMarker(s, i, stems[1..]);
      match StemMatch(s, i, stems[0])
      case None => rest
      case Some(n) => if rest.Some? && rest.value > n then rest else Some(n)
  }

  /** The longest marker is found exactly when some marker matches, and no matching marker is longer. */
  lemma {:induction false} LongestMarkerIsLongest(s: string, i: nat, stems: seq<string>)
    ensures LongestMarker(s, i, stems).Some? <==> exists k :: 0 <= k < |stems| && StartsWithCI(s, i, stems[k])
    ensures LongestMarker(s, i, stems).Some? ==>
              exists k :: 0 <= k < |stems| && StemMatch(s, i, stems[k]) == LongestMarker(s, i, stems)
    ensures forall k :: 0 <= k < |stems| && StemMatch(s, i, stems[k]).Some? ==>
              LongestMarker(s, i, stems).Some? && StemMatch(s, i, stems[k]).value <= LongestMarker(s, i, stems).value
  {
    if stems != [] {
      LongestMarkerIsLongest(s, i, stems[1..]);
      var r := LongestMarker(s, i, stems);
      forall k | 0 <= k < |stems| && StemMatch(s, i, stems[k]).Some?
        ensures r.Some? && StemMatch(s, i, stems[k]).value <= r.value
      {
        if k > 0 {
          assert stems[k] == stems[1..][k - 1];
        }
      }
      if r.Some? {
        if StemMatch(s, i, stems[0]) == r {
        } else {
          var k :| 0 <= k < |stems[1..]| && StemMatch(s, i, stems[1..][k]) == r;
          assert stems[1..][k] == stems[k + 1];
        }
      }
      if exists k :: 0 <= k < |stems| && StartsWithCI(s, i, stems[k]) {
        var k :| 0 <= k < |stems| && StartsWithCI(s, i, stems[k]);
        assert StemMatch(s, i, stems[k]).Some?;
      }
    }
  }

  /** The alternative whose match the longest marker is. */
  lemma LongestMarkerWitness(s: string, i: nat, stems: seq<string>) returns (k: nat)
    requires LongestMarker(s, i, stems).Some?
    ensures k < |stems| && StemMatch(s, i, stems[k]) == LongestMarker(s, i, stems)
  {
    LongestMarkerIsLongest(s, i, stems);
    k :| k < |stems| && StemMatch(s, i, stems[k]) == LongestMarker(s, i, stems);
  }

  /** Number of leading whitespace characters, which `^\s*` consumes. */
  function Indent(s: string): (k: nat)
    ensures k <= |s|
  {
    SpaceRun(s, 0)
  }

  /** `start_regex.match(s)` as written: the end of the match. */
  function StartMatchAsWritten(s: string): Option<nat> {
    match FirstMarker(s, Indent(s), MarkerStems)
    case Some(n) => Some(Indent(s) + n)
    case None => None
  }

  /** `start_regex.match(s)` with the longest marker taken. */
  function StartMatch(s: string): (r: Option<nat>)
    ensures r.Some? ==> Indent(s) <= r.value <= |s|
  {
    match LongestMarker(s, Indent(s), MarkerStems)
    case Some(n) => Some(Indent(s) + n)
    case None => None
  }

  /**
   * The leading marker is found exactly when one of the marker words follows
   * the indentation, and the match reaches to the end of the longest of them.
   */
  lemma StartMatchFindsLongestMarker(s: string)
    ensures StartMatch(s).Some? <==> exists k :: 0 <= k < |MarkerStems| && StartsWithCI(s, Indent(s), MarkerStems[k])
    ensures forall k :: 0 <= k < |MarkerStems| && StemMatch(s, Indent(s), MarkerStems[k]).Some? ==>
              StartMatch(s).Some? && Indent(s) + StemMatch(s, Indent(s), MarkerStems[k]).value <= StartMatch(s).value
  {
    LongestMarkerIsLongest(s, Indent(s), MarkerStems);
  }

  /** `start_regex.sub(' ', s)` as written. */
  function StripMarkerAsWritten(s: string): string {
    match StartMatchAsWritten(s)
    case Some(n) => if n <= |s| then " " + s[n..] else s
    case None => s
  }

  /** The leading marker and the whitespace before it become one space. */
  function StripMarker(s: string): (r: string)
    ensures StartMatch(s).None? ==> r == s
    ensures StartMatch(s).Some? ==> r == " " + s[StartMatch(s).value..]
  {
    match StartMatch(s)
    case Some(n) => " " + s[n..]
    case None => s
  }

  /** Alternatives that do not match are passed over. */
  lemma {:induction false} FirstMarkerSkips(s: string, i: nat, stems: seq<string>, k: nat)
    requires k <= |stems|
    requires forall j :: 0 <= j < k ==> !StartsWithCI(s, i, stems[j])
    ensures FirstMarker(s, i, stems) == FirstMarker(s, i, stems[k..])
  {
    if k > 0 {
      FirstMarkerSkips(s, i, stems[1..], k - 1);
      assert stems[1..][k - 1..] == stems[k..];
    }
  }

  /** As written, the alternative `Numbers?` is never the one chosen: `Nums?` matches the first three letters of "number" first. */
  lemma NumbersIsShadowed(s: string, i: nat)
    requires StartsWithCI(s, i, "number")
    ensures FirstMarker(s, i, MarkerStems) == Some(3)
  {
    NumberIsNoEarlierMarker(s, i);
    FirstMarkerSkips(s, i, MarkerStems, 5);
    NumberStartsWithNum(s, i);
    assert MarkerStems[5..][0] == "num";
  }

  lemma NumberStartsWithNum(s: string, i: nat)
    requires StartsWithCI(s, i, "number")
    ensures StemMatch(s, i, "num") == Some(3)
  {
    StartsWithCIAt(s, i, "number", 0);
    StartsWithCIAt(s, i, "number", 1);
    StartsWithCIAt(s, i, "number", 2);
    StartsWithCIAt(s, i, "number", 3);
    assert StartsWithCI(s, i + 3, []);
  }

  /** None of the five alternatives in front of `Nums?` matches "number". */
  lemma NumberIsNoEarlierMarker(s: string, i: nat)
    requires StartsWithCI(s, i, "number")
    ensures forall j :: 0 <= j < 5 ==> !StartsWithCI(s, i, MarkerStems[j])
  {
    StartsWithCIAt(s, i, "number", 0);
    StartsWithCIAt(s, i, "number", 1);
    NotStartsWithCI(s, i, "apt", 0);
    NotStartsWithCI(s, i, "apartment", 0);
    NotStartsWithCI(s, i, "flt", 0);
    NotStartsWithCI(s, i, "flat", 0);
    NotStartsWithCI(s, i, "no", 1);
  }

  /** The intended matcher consumes the whole word "number". */
  lemma NumberIsConsumed(s: string)
    requires StartsWithCI(s, Indent(s), "number")
    ensures StartMatch(s).Some? && StartMatch(s).value >= Indent(s) + 6
  {
    StartMatchFindsLongestMarker(s);
    assert MarkerStems[6] == "number";
  }

  /**
   * As written, a leading "Number" loses only its first three letters: the
   * text after the indent and "Num" is kept ("Number 5" becomes " ber 5").
   */
  lemma NumberMarkerAsWritten(s: string)
    requires StartsWithCI(s, Indent(s), "number")
    ensures StripMarkerAsWritten(s) == " " + s[Indent(s) + 3..]
  {
    NumbersIsShadowed(s, Indent(s));
  }

  /** The intended matcher removes the whole word "number" (and a plural "s"), so nothing of it is left. */
  lemma NumberMarkerCorrected(s: string)
    requires StartsWithCI(s, Indent(s), "number")
    ensures StripMarker(s) == " " + s[Indent(s) + StemMatch(s, Indent(s), "number").value..]
  {
    NumberIsLongestMarker(s, Indent(s));
  }

  lemma NumberIsLongestMarker(s: string, i: nat)
    requires StartsWithCI(s, i, "number")
    ensures LongestMarker(s, i, MarkerStems) == StemMatch(s, i, "number")
  {
    var r := LongestMarker(s, i, MarkerStems);
    var n := StemMatch(s, i, "number").value;
    assert r.Some? && n <= r.value by {
      LongestMarkerIsLongest(s, i, MarkerStems);
      assert MarkerStems[6] == "number";
    }
    var k := LongestMarkerWitness(s, i, MarkerStems);
    var stem := MarkerStems[k];
    assert stem != "apartment" by {
      StartsWithCIAt(s, i, "number", 0);
      NotStartsWithCI(s, i, "apartment", 0);
    }
    assert r.value <= |stem| + 1;
    assert |stem| <= 5 || stem == "number" by {
      StemLengths(k);
    }
  }

  /** Every alternative other than `Apartments?` and `Numbers?` matches at most six characters. */
  lemma StemLengths(k: nat)
    requires k < |MarkerStems|
    ensures |MarkerStems[k]| <= 5 || MarkerStems[k] == "apartment" || MarkerStems[k] == "number"
  {
  }

  // ---------------------------------------------------------------------------
  // Step 4: `Co(?<=\w)(?!\w)`, IGNORECASE
  // ---------------------------------------------------------------------------

  /** The pattern as written matches "co" at `i` when no word character follows; its lookbehind sits after the "o". */
  predicate CountyAtAsWritten(s: string, i: nat) {
    && i + 2 <= |s|
    && ToLower(s[i]) == 'c' && ToLower(s[i + 1]) == 'o'
    && IsWordChar(s[i + 1])
    && (i + 2 == |s| || !IsWordChar(s[i + 2]))
  }

  /** The intended token: "co" with no word character on either side. */
  predicate CountyAt(s: string, i: nat) {
    CountyAtAsWritten(s, i) && (i == 0 || !IsWordChar(s[i - 1]))
  }

  /** The lookbehind `(?<=\w)` tests the "o" just matched, so it never rejects a match. */
  lemma CountyLookbehindIsVacuous(s: string, i: nat)
    requires i + 2 <= |s| && ToLower(s[i]) == 'c' && ToLower(s[i + 1]) == 'o'
    requires i + 2 == |s| || !IsWordChar(s[i + 2])
    ensures CountyAtAsWritten(s, i)
  {
    CaseKeepsClass(s[i + 1]);
  }

  /** `county_regex.sub(' ', s)` from `i` on; `boundary` selects the intended left word boundary. */
  function StripCountyFrom(s: string, i: nat, boundary: bool): (r: string)
    ensures |r| <= |s| - i || (i > |s| && r == [])
    decreases |s| - i
  {
    if i >= |s| then []
    else if (if boundary then CountyAt(s, i) else CountyAtAsWritten(s, i)) then " " + StripCountyFrom(s, i + 2, boundary)
    else [s[i]] + StripCountyFrom(s, i + 1, boundary)
  }

  function StripCountyAsWritten(s: string): string {
    StripCountyFrom(s, 0, false)
  }

  function StripCounty(s: string): string {
    StripCountyFrom(s, 0, true)
  }

  predicate HasCountyFrom(s: string, i: nat) {
    exists j :: i <= j < |s| && CountyAt(s, j)
  }

  /** Without a "co" token the substitution is the identity, so the `search` guard changes nothing. */
  lemma {:induction false} StripCountyWithoutToken(s: string, i: nat)
    requires i <= |s| && !HasCountyFrom(s, i)
    ensures StripCountyFrom(s, i, true) == s[i..]
    decreases |s| - i
  {
    if i < |s| {
      assert !CountyAt(s, i);
      StripCountyWithoutToken(s, i + 1);
    }
  }

  /** As written, a word that merely ends in "co" loses its ending; the intended pattern leaves it alone. */
  lemma CountySuffixCounterexample()
    ensures StripCountyAsWritten("Tesco") == "Tes "
    ensures StripCounty("Tesco") == "Tesco"
  {
    var s := "Tesco";
    CountyLookbehindIsVacuous(s, 3);
    assert !CountyAtAsWritten(s, 0) && !CountyAtAsWritten(s, 1) && !CountyAtAsWritten(s, 2) && !CountyAtAsWritten(s, 4);
    assert StripCountyFrom(s, 0, false) == "Tes" + StripCountyFrom(s, 3, false);
    assert !CountyAt(s, 3);
    assert StripCountyFrom(s, 3, true) == "co";
  }

  /** The county abbreviation in front of the county name becomes a space. */
  lemma CountyTokenExample()
    ensures StripCounty("Co Cork") == "  Cork"
  {
    var s := "Co Cork";
    assert CountyAt(s, 0);
    assert !CountyAt(s, 2) && !CountyAt(s, 3) && !CountyAt(s, 4) && !CountyAt(s, 5) && !CountyAt(s, 6);
    assert StripCountyFrom(s, 2, true) == " Cork";
  }

  // ---------------------------------------------------------------------------
  // Step 6: `^(\d+(\w{1})?(\s*And)?\W+){2,}`, IGNORECASE
  // ---------------------------------------------------------------------------

  /** Length of the run of characters satisfying the class at `p`. */
  function DigitRun(s: string, p: nat): (n: nat)
    ensures p + n <= |s| || (p > |s| && n == 0)
    ensures forall k :: p <= k < p + n ==> IsDigit(s[k])
    ensures p + n < |s| ==> !IsDigit(s[p + n])
    decreases |s| - p
  {
    if p < |s| && IsDigit(s[p]) then 1 + DigitRun(s, p + 1) else 0
  }

  function SpaceRun(s: string, p: nat): (n: nat)
    ensures p + n <= |s| || (p > |s| && n == 0)
    ensures forall k :: p <= k < p + n ==> IsSpace(s[k])
    ensures p + n < |s| ==> !IsSpace(s[p + n])
    decreases |s| - p
  {
    if p < |s| && IsSpace(s[p]) then 1 + SpaceRun(s, p + 1) else 0
  }

  function NonWordRun(s: string, p: nat): (n: nat)
    ensures p + n <= |s| || (p > |s| && n == 0)
    ensures forall k :: p <= k < p + n ==> !IsWordChar(s[k])
    ensures p + n < |s| ==> IsWordChar(s[p + n])
    decreases |s| - p
  {
    if p < |s| && !IsWordChar(s[p]) then 1 + NonWordRun(s, p + 1) else 0
  }

  /** `\s*And\W+` from `r`: the end of the match, if any. */
  function AndEnd(s: string, r: nat): Option<nat> {
    var a := r + SpaceRun(s, r);
    if StartsWithCI(s, a, "and") && NonWordRun(s, a + 3) > 0 then Some(a + 3 + NonWordRun(s, a + 3)) else None
  }

  /** `(\s*And)?\W+` from `r`: the optional group is tried first. */
  function TailEnd(s: string, r: nat): (e: Option<nat>)
    ensures e.Some? ==> r < e.value <= |s| && !IsWordChar(s[e.value - 1]) && (e.value == |s| || IsWordChar(s[e.value]))
  {
    if AndEnd(s, r).Some? then AndEnd(s, r)
    else if NonWordRun(s, r) > 0 then Some(r + NonWordRun(s, r))
    else None
  }

  /**
   * One repetition of the group from `p`: the end of the first way the
   * backtracking engine finds (the optional `\w` is tried first).  Other ways
   * end just before the "And", where no further repetition can begin, so the
   * first way decides the whole match.
   */
  function FragmentEnd(s: string, p: nat): (e: Option<nat>)
    ensures e.Some? ==> p < e.value <= |s| && IsDigit(s[p])
    ensures e.Some? ==> !IsWordChar(s[e.value - 1]) && (e.value == |s| || IsWordChar(s[e.value]))
  {
    var q := p + DigitRun(s, p);
    if q == p then None
    else if q < |s| && IsWordChar(s[q]) && TailEnd(s, q + 1).Some? then TailEnd(s, q + 1)
    else TailEnd(s, q)
  }

  datatype Run = Run(count: nat, end: nat)

  /** The greedy repetition from `p`: how many fragments follow one another and where the last ends. */
  function Fragments(s: string, p: nat): (r: Run)
    requires p <= |s|
    ensures p <= r.end <= |s|
    ensures r.count == 0 <==> FragmentEnd(s, p).None?
    ensures r.count == 0 ==> r.end == p
    ensures r.count > 0 ==> p < r.end && IsDigit(s[p])
    ensures FragmentEnd(s, r.end).None?
    decreases |s| - p
  {
    match FragmentEnd(s, p)
    case None => Run(0, p)
    case Some(e) =>
      var rest := Fragments(s, e);
      Run(rest.count + 1, rest.end)
  }

  /** `multiples_regex.match(s)`: the end of the match, when two or more fragments begin the string. */
  function MultiplesMatch(s: string): Option<nat> {
    var run := Fragments(s, 0);
    if run.count >= 2 then Some(run.end) else None
  }

  /**
   * `multiples_regex.sub(' ', s)`: a leading run of two or more numbers
   * becomes one space; what follows does not begin with another number fragment.
   */
  function CollapseNumbers(s: string): (r: string)
    ensures MultiplesMatch(s).None? ==> r == s
    ensures MultiplesMatch(s).Some? ==>
              var e := MultiplesMatch(s).value;
              0 < e <= |s| && IsDigit(s[0]) && FragmentEnd(s, e).None? && r == " " + s[e..]
  {
    match MultiplesMatch(s)
    case Some(e) => " " + s[e..]
    case None => s
  }

  /** Two number fragments in front, "And" included, are collapsed into one space, whatever follows them. */
  lemma TwoNumbersCollapse(s: string, e: nat)
    requires FragmentEnd(s, 0) == Some(e) && FragmentEnd(s, e).Some?
    ensures e < Fragments(s, 0).end
    ensures CollapseNumbers(s) == " " + s[Fragments(s, 0).end..]
  {
  }

  /** A single house number is kept: the pattern needs at least two fragments. */
  lemma SingleNumberIsKept(s: string, e: nat)
    requires FragmentEnd(s, 0) == Some(e) && FragmentEnd(s, e).None?
    ensures CollapseNumbers(s) == s
  {
  }

  // ---------------------------------------------------------------------------
  // Step 7: `string.capwords`
  // ---------------------------------------------------------------------------

  predicate NoSpace(w: string) {
    forall k :: 0 <= k < |w| ==> !IsSpace(w[k])
  }

  /** A word as `str.split()` yields it: non-empty and without whitespace. */
  predicate IsWord(w: string) {
    |w| > 0 && NoSpace(w)
  }

  predicate AllWords(ws: seq<string>) {
    forall k :: 0 <= k < |ws| ==> IsWord(ws[k])
  }

  /** Length of the run of non-whitespace characters at `p`. */
  function WordLength(s: string, p: nat): (n: nat)
    ensures p + n <= |s| || (p > |s| && n == 0)
    ensures forall k :: p <= k < p + n ==> !IsSpace(s[k])
    ensures p + n < |s| ==> IsSpace(s[p + n])
    decreases |s| - p
  {
    if p < |s| && !IsSpace(s[p]) then 1 + WordLength(s, p + 1) else 0
  }

  /** `s[p..].split()`: the maximal runs of non-whitespace characters from `p` on, in order. */
  function SplitFrom(s: string, p: nat): (ws: seq<string>)
    ensures AllWords(ws)
    decreases |s| - p
  {
    if p >= |s| then []
    else if IsSpace(s[p]) then SplitFrom(s, p + 1)
    else
      var n := WordLength(s, p);
      var rest := SplitFrom(s, p + n);
      WordAt(s, p);
      AllWordsCons(s[p..p + n], rest);
      [s[p..p + n]] + rest
  }

  function Split(s: string): seq<string> {
    SplitFrom(s, 0)
  }

  /** The characters from a non-whitespace one up to the next whitespace form a word. */
  lemma WordAt(s: string, p: nat)
    requires p < |s| && !IsSpace(s[p])
    ensures IsWord(s[p..p + WordLength(s, p)])
  {
  }

  lemma AllWordsCons(w: string, ws: seq<string>)
    requires IsWord(w) && AllWords(ws)
    ensures AllWords([w] + ws)
  {
  }

  /** The words put together without separators. */
  function Concat(ws: seq<string>): string {
    if ws == [] then [] else ws[0] + Concat(ws[1..])
  }

  /** The non-whitespace characters of `s` from `p` on, in order. */
  function NonSpaceFrom(s: string, p: nat): string
    decreases |s| - p
  {
    if p >= |s| then [] else (if IsSpace(s[p]) then [] else [s[p]]) + NonSpaceFrom(s, p + 1)
  }

  /** The words of `s[p..].split()`, put together, are exactly its non-whitespace characters in order. */
  lemma {:induction false} SplitFromCharacters(s: string, p: nat)
    ensures Concat(SplitFrom(s, p)) == NonSpaceFrom(s, p)
    decreases |s| - p
  {
    if p < |s| {
      if IsSpace(s[p]) {
        SplitFromAtSpace(s, p);
        SplitFromCharacters(s, p + 1);
        assert NonSpaceFrom(s, p) == [] + NonSpaceFrom(s, p + 1);
      } else {
        var n := WordLength(s, p);
        SplitFromAtWord(s, p);
        SplitFromCharacters(s, p + n);
        NonSpaceOfWord(s, p, n);
        ConcatCons(s[p..p + n], SplitFrom(s, p + n));
      }
    }
  }

  lemma ConcatCons(w: string, ws: seq<string>)
    ensures Concat([w] + ws) == w + Concat(ws)
  {
    assert ([w] + ws)[0] == w && ([w] + ws)[1..] == ws;
  }

  /** A run of non-whitespace characters contributes itself to the non-whitespace characters. */
  lemma {:induction false} NonSpaceOfWord(s: string, p: nat, n: nat)
    requires p + n <= |s| && forall k :: p <= k < p + n ==> !IsSpace(s[k])
    ensures NonSpaceFrom(s, p) == s[p..p + n] + NonSpaceFrom(s, p + n)
    decreases n
  {
    if n > 0 {
      NonSpaceOfWord(s, p + 1, n - 1);
      assert s[p..p + n] == [s[p]] + s[p + 1..p + n];
      assert [s[p]] + (s[p + 1..p + n] + NonSpaceFrom(s, p + n))
          == ([s[p]] + s[p + 1..p + n]) + NonSpaceFrom(s, p + n);
    } else {
      assert s[p..p] + NonSpaceFrom(s, p) == NonSpaceFrom(s, p);
    }
  }

  /** `' '.join(ws)`. */
  function Join(ws: seq<string>): string {
    if ws == [] then []
    else if |ws| == 1 then ws[0]
    else ws[0] + " " + Join(ws[1..])
  }

  /** `w.capitalize()`: the first character in upper case, the others in lower case. */
  function Capitalize(w: string): (r: string)
    ensures |r| == |w|
    ensures |w| > 0 ==> r[0] == ToUpper(w[0])
    ensures forall k :: 0 < k < |w| ==> r[k] == ToLower(w[k])
  {
    if w == [] then [] else [ToUpper(w[0])] + LowerAll(w[1..])
  }

  function CapitalizeAll(ws: seq<string>): (r: seq<string>)
    ensures |r| == |ws|
    ensures forall k :: 0 <= k < |ws| ==> r[k] == Capitalize(ws[k])
  {
    seq(|ws|, k requires 0 <= k < |ws| => Capitalize(ws[k]))
  }

  /** `string.capwords(s)`: split on whitespace, capitalise every word, join with single spaces. */
  function CapWords(s: string): string {
    Join(CapitalizeAll(Split(s)))
  }

  /** A run of non-whitespace characters is measured the same way in a text as in its suffix from `d`. */
  lemma {:induction false} WordLengthShift(t: string, s: string, d: nat, p: nat)
    requires d <= |t| && t[d..] == s && p <= |s|
    ensures WordLength(t, d + p) == WordLength(s, p)
    decreases |s| - p
  {
    if p < |s| {
      assert t[d + p] == s[p];
      WordLengthShift(t, s, d, p + 1);
    }
  }

  /** A text splits from `d + p` as its suffix from `d` splits from `p`. */
  lemma {:induction false} SplitFromShift(t: string, s: string, d: nat, p: nat)
    requires d <= |t| && t[d..] == s && p <= |s|
    ensures SplitFrom(t, d + p) == SplitFrom(s, p)
    decreases |s| - p
  {
    if p < |s| {
      assert t[d + p] == s[p];
      if IsSpace(s[p]) {
        SplitFromShift(t, s, d, p + 1);
        SplitFromAtSpace(t, d + p);
        SplitFromAtSpace(s, p);
      } else {
        var n := WordLength(s, p);
        WordLengthShift(t, s, d, p);
        SplitFromShift(t, s, d, p + n);
        SplitFromShiftStep(t, s, d, p, n);
      }
    } else {
      assert d + p == |t|;
    }
  }

  /** Whitespace in front of the words is skipped. */
  lemma SplitFromAtSpace(s: string, p: nat)
    requires p < |s| && IsSpace(s[p])
    ensures SplitFrom(s, p) == SplitFrom(s, p + 1)
  {
  }

  lemma SplitFromShiftStep(t: string, s: string, d: nat, p: nat, n: nat)
    requires d <= |t| && t[d..] == s && p < |s| && !IsSpace(s[p])
    requires n == WordLength(s, p) == WordLength(t, d + p)
    requires SplitFrom(t, d + p + n) == SplitFrom(s, p + n)
    ensures SplitFrom(t, d + p) == SplitFrom(s, p)
  {
    assert t[d + p] == s[p];
    SplitFromAtWord(t, d + p);
    SplitFromAtWord(s, p);
    SliceOfSuffix(t, s, d, p, p + n);
  }

  /** At a non-space the first word runs to the next whitespace, and the rest follows. */
  lemma SplitFromAtWord(s: string, p: nat)
    requires p < |s| && !IsSpace(s[p])
    ensures SplitFrom(s, p) == [s[p..p + WordLength(s, p)]] + SplitFrom(s, p + WordLength(s, p))
  {
  }

  /** A slice of `s` is the same slice of any text that ends in `s`, shifted by the length in front. */
  lemma SliceOfSuffix(t: string, s: string, d: nat, i: nat, j: nat)
    requires d <= |t| && t[d..] == s && i <= j <= |s|
    ensures t[d + i..d + j] == s[i..j]
  {
    assert |t[d + i..d + j]| == |s[i..j]|;
    forall k | 0 <= k < j - i
      ensures t[d + i..d + j][k] == s[i..j][k]
    {
      assert t[d + i + k] == t[d..][i + k];
    }
  }

  /** A word followed by a space and more text splits into that word and the words of the text. */
  lemma SplitWordThenRest(w: string, rest: string)
    requires IsWord(w)
    ensures Split(w + " " + rest) == [w] + Split(rest)
  {
    var s := w + " " + rest;
    assert s == (w + " ") + rest;
    assert WordLength(s, 0) == |w| by {
      WordLengthOfWord(w, " " + rest);
      assert s == w + (" " + rest);
    }
    assert s[0..|w|] == w;
    assert SplitFrom(s, |w|) == SplitFrom(s, |w| + 1) by {
      assert s[|w|] == ' ';
    }
    assert s[|w| + 1..] == rest;
    SplitFromShift(s, rest, |w| + 1, 0);
  }

  /** A word followed by whitespace or nothing is one run. */
  lemma WordLengthOfWord(w: string, rest: string)
    requires IsWord(w) && (rest == [] || IsSpace(rest[0]))
    ensures WordLength(w + rest, 0) == |w|
  {
    var s := w + rest;
    assert forall k :: 0 <= k < |w| ==> s[k] == w[k];
    if rest != [] {
      assert s[|w|] == rest[0];
    }
  }

  lemma SplitOneWord(w: string)
    requires IsWord(w)
    ensures Split(w) == [w]
  {
    WordLengthOfWord(w, []);
    assert w + [] == w;
    assert w[0..|w|] == w;
    assert SplitFrom(w, |w|) == [];
  }

  /** Splitting undoes joining, for words as `split` yields them. */
  lemma {:induction false} SplitJoin(ws: seq<string>)
    requires AllWords(ws)
    ensures Split(Join(ws)) == ws
  {
    if |ws| == 1 {
      SplitOneWord(ws[0]);
    } else if |ws| > 1 {
      SplitJoin(ws[1..]);
      SplitJoinStep(ws);
    }
  }

  lemma SplitJoinStep(ws: seq<string>)
    requires |ws| > 1 && IsWord(ws[0]) && Split(Join(ws[1..])) == ws[1..]
    ensures Split(Join(ws)) == ws
  {
    JoinCons(ws);
    SplitWordThenWords(ws[0], Join(ws[1..]), ws);
  }

  lemma JoinCons(ws: seq<string>)
    requires |ws| > 1
    ensures Join(ws) == ws[0] + " " + Join(ws[1..])
  {
  }

  lemma SplitWordThenWords(w: string, rest: string, ws: seq<string>)
    requires IsWord(w) && |ws| > 1 && ws[0] == w && Split(rest) == ws[1..]
    ensures Split(w + " " + rest) == ws
  {
    SplitWordThenRest(w, rest);
  }

  lemma CapitalizeKeepsWord(w: string)
    requires IsWord(w)
    ensures IsWord(Capitalize(w))
  {
    forall k | 0 <= k < |w| ensures !IsSpace(Capitalize(w)[k]) {
      CaseKeepsClass(w[k]);
    }
  }

  lemma CapitalizeIsIdempotent(w: string)
    ensures Capitalize(Capitalize(w)) == Capitalize(w)
  {
    if w != [] {
      LowerCaseIsStable(w[0]);
      forall k | 0 < k < |w| ensures ToLower(ToLower(w[k])) == ToLower(w[k]) {
        LowerCaseIsStable(w[k]);
      }
    }
  }

  /** Whitespace occurs only as single spaces between words: none leads, trails or repeats. */
  predicate Tidy(s: string) {
    forall i :: 0 <= i < |s| && IsSpace(s[i]) ==> s[i] == ' ' && 0 < i < |s| - 1 && !IsSpace(s[i + 1])
  }

  lemma {:induction false} JoinIsTidy(ws: seq<string>)
    requires AllWords(ws)
    ensures Tidy(Join(ws))
    ensures |ws| > 0 ==> |Join(ws)| > 0 && !IsSpace(Join(ws)[0])
  {
    if |ws| > 1 {
      JoinIsTidy(ws[1..]);
      var w, r := ws[0], Join(ws[1..]);
      var s := w + " " + r;
      forall i | 0 <= i < |s| && IsSpace(s[i])
        ensures s[i] == ' ' && 0 < i < |s| - 1 && !IsSpace(s[i + 1])
      {
        if i > |w| {
          assert s[i] == r[i - |w| - 1];
          if i + 1 < |s| {
            assert s[i + 1] == r[i - |w|];
          }
        }
      }
    }
  }

  /**
   * `capwords` cleans the whitespace and capitalises every word: its words
   * are the input's words, capitalised, and it is tidy.
   */
  lemma CapWordsShape(s: string)
    ensures Split(CapWords(s)) == CapitalizeAll(Split(s))
    ensures Tidy(CapWords(s))
  {
    var ws := CapitalizeAll(Split(s));
    forall k | 0 <= k < |ws| ensures IsWord(ws[k]) {
      CapitalizeKeepsWord(Split(s)[k]);
    }
    SplitJoin(ws);
    JoinIsTidy(ws);
  }

  /** A second `capwords` changes nothing. */
  lemma CapWordsIsIdempotent(s: string)
    ensures CapWords(CapWords(s)) == CapWords(s)
  {
    var ws := CapitalizeAll(Split(s));
    assert Split(CapWords(s)) == ws by {
      CapWordsShape(s);
    }
    assert CapitalizeAll(ws) == ws by {
      forall k | 0 <= k < |ws| ensures Capitalize(ws[k]) == ws[k] {
        CapitalizeIsIdempotent(Split(s)[k]);
      }
    }
  }

  // ---------------------------------------------------------------------------
  // Steps 8 and 9: `if x not in s: s += " " + x`
  // ---------------------------------------------------------------------------

  /** `x in s`: `x` occurs in `s` as a substring (the empty string occurs everywhere). */
  predicate Contains(s: string, x: string) {
    exists i :: 0 <= i <= |s| - |x| && OccursAt(s, x, i)
  }

  predicate OccursAt(s: string, x: string, i: int) {
    0 <= i <= |s| - |x| && s[i..i + |x|] == x
  }

  /** Appends `x` after a space unless it already occurs. */
  function AppendIfAbsent(s: string, x: string): (r: string)
    ensures Contains(s, x) ==> r == s
    ensures !Contains(s, x) ==> r == s + " " + x
  {
    if Contains(s, x) then s else s + " " + x
  }

  /** Afterwards `x` occurs, and the text before is kept as a prefix. */
  lemma AppendIfAbsentContains(s: string, x: string)
    ensures Contains(AppendIfAbsent(s, x), x)
    ensures |s| <= |AppendIfAbsent(s, x)| && AppendIfAbsent(s, x)[..|s|] == s
  {
    if !Contains(s, x) {
      var r := s + " " + x;
      assert OccursAt(r, x, |s| + 1);
    }
  }

  /** A second append of the same text changes nothing. */
  lemma AppendIfAbsentIsIdempotent(s: string, x: string)
    ensures AppendIfAbsent(AppendIfAbsent(s, x), x) == AppendIfAbsent(s, x)
  {
    AppendIfAbsentContains(s, x);
  }

  /** Text already present in a prefix is still present after appending. */
  lemma ContainsInPrefix(s: string, t: string, x: string)
    requires Contains(s, x)
    ensures Contains(s + t, x)
  {
    var i :| 0 <= i <= |s| - |x| && OccursAt(s, x, i);
    assert (s + t)[i..i + |x|] == s[i..i + |x|];
    assert OccursAt(s + t, x, i);
  }

  // ---------------------------------------------------------------------------
  // Step 10: `address_abbreviations`, `\s+Key\s+` replaced by " Value "
  // ---------------------------------------------------------------------------

  /**
   * One entry of the table: the case-sensitive abbreviation, its expansion,
   * and whether the pattern carries the lookbehind `(?<!\d)`.
   */
  datatype Abbreviation = Abbreviation(short: string, long: string, notAfterDigit: bool)

  /** `Street` is the one entry guarded against a digit in front ("12 St Mary's" names a saint). */
  const Street := Abbreviation("St", "Street", true)

  /**
   * The table in dictionary order.  The source lists `Ave` twice; both
   * `re.compile` calls return the same cached pattern object, so the
   * dictionary holds it once, in the position of its first entry.
   */
  const Abbreviations: seq<Abbreviation> := [
    Abbreviation("Apts", "Apartments", false), Abbreviation("Ave", "Avenue", false),
    Abbreviation("Blvd", "Boulevard", false), Abbreviation("Bldg", "Building", false),
    Abbreviation("Ct", "Court", false), Abbreviation("Cts", "Courts", false),
    Abbreviation("Cres", "Crescent", false), Abbreviation("Dr", "Drive", false),
    Abbreviation("Est", "Estate", false), Abbreviation("Ft", "Fort", false),
    Abbreviation("Frnt", "Front", false), Abbreviation("Gdn", "Garden", false),
    Abbreviation("Gdns", "Gardens", false), Abbreviation("Gln", "Glen", false),
    Abbreviation("Grv", "Grove", false), Abbreviation("Grvs", "Groves", false),
    Abbreviation("Hvn", "Haven", false), Abbreviation("Hts", "Heights", false),
    Abbreviation("Hl", "Hill", false), Abbreviation("Hls", "Hills", false),
    Abbreviation("Hse", "House", false), Abbreviation("Isl", "Island", false),
    Abbreviation("Ln", "Lane", false), Abbreviation("Ldg", "Lodge", false),
    Abbreviation("Lwr", "Lower", false), Abbreviation("Mnr", "Manor", false),
    Abbreviation("Mdw", "Meadow", false), Abbreviation("Mdws", "Meadows", false),
    Abbreviation("Mls", "Mills", false), Abbreviation("Mt", "Mount", false),
    Abbreviation("Orch", "Orchard", false), Abbreviation("Pk", "Park", false),
    Abbreviation("Pl", "Place", false), Abbreviation("Plz", "Plaza", false),
    Abbreviation("Pt", "Point", false), Abbreviation("Riv", "River", false),
    Abbreviation("Rd", "Road", false), Abbreviation("Sq", "Square", false),
    Abbreviation("Spr", "Spring", false), Abbreviation("Spg", "Spring", false),
    Abbreviation("Spgs", "Springs", false), Abbreviation("Sta", "Station", false),
    Street, Abbreviation("Ter", "Terrace", false),
    Abbreviation("Uppr", "Upper", false), Abbreviation("Vw", "View", false),
    Abbreviation("Vlg", "Village", false)
  ]

  /** The abbreviation text occurs at `j`, compared case-sensitively. */
  predicate ShortAt(s: string, j: nat, short: string) {
    j + |short| <= |s| && s[j..j + |short|] == short
  }

  /**
   * End of the match of the entry's pattern at `i`, if it matches there.  The
   * greedy `\s+` can only give back whitespace, and the abbreviation starts
   * with a letter, so the whole run of whitespace is the only way to match.
   */
  function AbbreviationEnd(s: string, i: nat, a: Abbreviation): (e: Option<nat>)
    ensures e.Some? ==> i < e.value <= |s| && IsSpace(s[i]) && IsSpace(s[e.value - 1])
    ensures e.Some? ==> ShortAt(s, i + SpaceRun(s, i), a.short)
    ensures e.Some? && a.notAfterDigit ==> i == 0 || !IsDigit(s[i - 1])
  {
    if i < |s| && IsSpace(s[i]) && (!a.notAfterDigit || i == 0 || !IsDigit(s[i - 1])) then
      var j := i + SpaceRun(s, i);
      var k := j + |a.short|;
      if ShortAt(s, j, a.short) && k < |s| && IsSpace(s[k]) then Some(k + SpaceRun(s, k)) else None
    else None
  }

  /** `re.sub(key, " " + value + " ", s)` from `i` on. */
  function ExpandFrom(s: string, i: nat, a: Abbreviation): string
    decreases |s| - i
  {
    if i >= |s| then []
    else match AbbreviationEnd(s, i, a)
      case Some(e) => " " + a.long + " " + ExpandFrom(s, e, a)
      case None => [s[i]] + ExpandFrom(s, i + 1, a)
  }

  function Expand(s: string, a: Abbreviation): string {
    ExpandFrom(s, 0, a)
  }

  /** `key.search(s)`: the pattern matches somewhere from `i` on. */
  predicate HasAbbreviationFrom(s: string, i: nat, a: Abbreviation) {
    exists j :: i <= j < |s| && AbbreviationEnd(s, j, a).Some?
  }

  /** The entries from the table applied one after another, in order. */
  function ExpandAll(table: seq<Abbreviation>, s: string): string {
    if table == [] then s else ExpandAll(table[1..], Expand(s, table[0]))
  }

  /** Without a match the substitution is the identity, so the `search` guard changes nothing. */
  lemma {:induction false} ExpandWithoutMatch(s: string, i: nat, a: Abbreviation)
    requires i <= |s| && !HasAbbreviationFrom(s, i, a)
    ensures ExpandFrom(s, i, a) == s[i..]
    decreases |s| - i
  {
    if i < |s| {
      assert AbbreviationEnd(s, i, a).None?;
      ExpandWithoutMatch(s, i + 1, a);
    }
  }

  /**
   * The substitution copies the text up to the first match, writes the
   * expansion between single spaces in place of the match and carries on
   * after it.
   */
  lemma ExpandAtFirstMatch(s: string, i: nat, j: nat, a: Abbreviation)
    requires i <= j < |s| && AbbreviationEnd(s, j, a).Some?
    requires forall k :: i <= k < j ==> AbbreviationEnd(s, k, a).None?
    ensures ExpandFrom(s, i, a) == s[i..j] + Expansion(s, j, a)
  {
    ExpandCopiesEach(s, i, j, a);
    CopiedUpTo(s, i, j, (k: nat) => ExpandFrom(s, k, a));
    ExpandReplaces(s, j, a);
  }

  /** Before the first match every character is copied in front of the rest. */
  lemma ExpandCopiesEach(s: string, i: nat, j: nat, a: Abbreviation)
    requires j <= |s|
    requires forall k :: i <= k < j ==> AbbreviationEnd(s, k, a).None?
    ensures forall k :: i <= k < j ==> ExpandFrom(s, k, a) == [s[k]] + ExpandFrom(s, k + 1, a)
  {
    forall k | i <= k < j
      ensures ExpandFrom(s, k, a) == [s[k]] + ExpandFrom(s, k + 1, a)
    {
      ExpandCopies(s, k, a);
    }
  }

  /**
   * Output that, at every position in `[i, j)`, is the character there in
   * front of the output from the next position, is `s[i..j]` in front of the
   * output from `j`.
   */
  lemma {:induction false} CopiedUpTo(s: string, i: nat, j: nat, out: nat -> string)
    requires i <= j <= |s|
    requires forall k :: i <= k < j ==> out(k) == [s[k]] + out(k + 1)
    ensures out(i) == s[i..j] + out(j)
    decreases j - i
  {
    if i < j {
      CopiedUpTo(s, i + 1, j, out);
      PrependToSlice(s, i, j, out(i + 1), out(j));
    } else {
      assert s[i..j] + out(j) == out(j);
    }
  }

  /** `s[i]` in front of `s[i + 1..j] + e` is `s[i..j] + e`. */
  lemma PrependToSlice(s: string, i: nat, j: nat, rest: string, e: string)
    requires i < j <= |s| && rest == s[i + 1..j] + e
    ensures [s[i]] + rest == s[i..j] + e
  {
    assert s[i..j] == [s[i]] + s[i + 1..j];
  }

  lemma ExpandCopies(s: string, i: nat, a: Abbreviation)
    requires i < |s| && AbbreviationEnd(s, i, a).None?
    ensures ExpandFrom(s, i, a) == [s[i]] + ExpandFrom(s, i + 1, a)
  {
  }

  lemma ExpandReplaces(s: string, j: nat, a: Abbreviation)
    requires j < |s| && AbbreviationEnd(s, j, a).Some?
    ensures ExpandFrom(s, j, a) == Expansion(s, j, a)
  {
  }

  /** What the substitution writes from a match at `j` on: the expansion between spaces, then the rest. */
  function Expansion(s: string, j: nat, a: Abbreviation): string
    requires AbbreviationEnd(s, j, a).Some?
  {
    " " + a.long + " " + ExpandFrom(s, AbbreviationEnd(s, j, a).value, a)
  }

  /** "St" straight after a digit is never expanded: the whitespace in front of it must not follow a digit. */
  lemma StreetNotAfterDigit(s: string, i: nat)
    requires 0 < i <= |s| && IsDigit(s[i - 1])
    ensures AbbreviationEnd(s, i, Street).None?
  {
  }

  /**
   * An abbreviation with one space on either side is replaced, spaces
   * included, by its expansion between single spaces.
   */
  lemma AbbreviationBetweenSpaces(x: string, a: Abbreviation, y: string)
    requires IsWord(a.short) && (y == [] || !IsSpace(y[0]))
    requires a.notAfterDigit ==> x == [] || !IsDigit(x[|x| - 1])
    ensures AbbreviationEnd(x + " " + a.short + " " + y, |x|, a) == Some(|x| + |a.short| + 2)
  {
    var s := x + " " + a.short + " " + y;
    var k := |x| + 1 + |a.short|;
    SpacedLayout(x, a.short, y);
    SingleSpace(s, |x|);
    SingleSpace(s, k);
    AbbreviationEndAt(s, |x|, a, k);
  }

  /** Where the pieces of `x + " " + w + " " + y` sit. */
  lemma SpacedLayout(x: string, w: string, y: string)
    requires |w| > 0
    ensures var s := x + " " + w + " " + y; var k := |x| + 1 + |w|;
      && |s| == k + 1 + |y| && s[|x|] == ' ' && s[|x| + 1] == w[0] && s[k] == ' '
      && (k + 1 == |s| || s[k + 1] == y[0])
      && ShortAt(s, |x| + 1, w)
      && (|x| > 0 ==> s[|x| - 1] == x[|x| - 1])
  {
    var s := x + " " + w + " " + y;
    assert s[|x| + 1..|x| + 1 + |w|] == w;
  }

  lemma SingleSpace(s: string, i: nat)
    requires i < |s| && IsSpace(s[i]) && (i + 1 == |s| || !IsSpace(s[i + 1]))
    ensures SpaceRun(s, i) == 1
  {
    assert SpaceRun(s, i + 1) == 0;
  }

  /** The pattern matches at `i` when one space, the abbreviation and one space follow. */
  lemma AbbreviationEndAt(s: string, i: nat, a: Abbreviation, k: nat)
    requires i < |s| && IsSpace(s[i]) && SpaceRun(s, i) == 1 && ShortAt(s, i + 1, a.short)
    requires a.notAfterDigit ==> i == 0 || !IsDigit(s[i - 1])
    requires k == i + 1 + |a.short| && k < |s| && IsSpace(s[k]) && SpaceRun(s, k) == 1
    ensures AbbreviationEnd(s, i, a) == Some(k + 1)
  {
  }
}
