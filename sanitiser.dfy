/**
 * The record sanitiser (app/sanitiser.py): each field sanitiser turns the
 * Irish-language form of a value into the English one, leaves everything else
 * as it is and reports whether the value looked unusual (the source logs a
 * warning instead).  `Sanitiser.Sanitise` rewrites five fields of one record
 * in place.
 */
module Sanitiser {
  import opened Wrappers
  import opened Chars
  import opened Patterns
  import opened Register
  import opened Transformer

  /** A sanitised value, and whether the source would log it as unusual. */
  datatype Sanitised = Sanitised(value: string, unusual: bool)

  // ---------------------------------------------------------------------------
  // The patterns of `Sanitiser.regexes`
  // ---------------------------------------------------------------------------

  const DublinIrishText := "Baile .tha Cliath"
  const NoneIrishText := "Ní Bhaineann"
  const DublinIrish: Regex := [DublinIrishText]
  const NoneIrish: Regex := [NoneIrishText]
  const DublinEnglish: Regex := ["Dublin"]

  const NewIrishText := "Teach/.ras.n C.naithe Nua"
  const UsedIrishText := "Teach/Árasán Cónaithe Atháimhe"
  const NewIrish: Regex := [NewIrishText]
  const UsedIrish: Regex := [UsedIrishText]
  const SecondHand := "Second-Hand Dwelling house /Apartment"
  const NewEnglish: Regex := [NewDwelling]
  const UsedEnglish: Regex := [SecondHand]

  const LargeShort := "greater than 125 sq metres"
  /** `greater than( or equal to)? 125 sq metres`: the greedy optional group is tried present first. */
  const LargeEnglish: Regex := [LargeText, LargeShort]
  const MediumEnglish: Regex := [MediumText]
  const MediumIrishText := "níos mó ná nó cothrom le 38 méadar cearnach" + " agus níos lú ná 125 méadar cearnach"
  const MediumIrish: Regex := [MediumIrishText]
  const SmallEnglish: Regex := [SmallText]
  const SmallIrishText := "n.os l. n. 38 m.adar cearnach"
  const SmallIrish: Regex := [SmallIrishText]

  // ---------------------------------------------------------------------------
  // `sanitise_address`
  // ---------------------------------------------------------------------------

  /** Addresses are passed through as they are. */
  function SanitiseAddress(address: string): (r: string)
    ensures r == address
  {
    address
  }

  // ---------------------------------------------------------------------------
  // `sanitise_postcode`
  // ---------------------------------------------------------------------------

  /**
   * "Baile Átha Cliath" becomes "Dublin" and "Ní Bhaineann" ("not
   * applicable") is deleted, wherever they occur once the postcode starts
   * with them; any other postcode is kept.
   */
  function SanitisePostcode(p: string): (r: Sanitised)
    ensures Match(DublinIrish, p) ==> r == Sanitised(Sub(DublinIrish, "Dublin", p), false)
    ensures !Match(DublinIrish, p) && Match(NoneIrish, p) ==> r == Sanitised(Sub(NoneIrish, "", p), false)
    ensures !Match(DublinIrish, p) && !Match(NoneIrish, p) ==> r.value == p
    ensures r.unusual <==> |p| > 0 && !Match(DublinIrish, p) && !Match(NoneIrish, p) && !Match(DublinEnglish, p)
  {
    if Match(DublinIrish, p) then Sanitised(Sub(DublinIrish, "Dublin", p), false)
    else if Match(NoneIrish, p) then Sanitised(Sub(NoneIrish, "", p), false)
    else Sanitised(p, |p| > 0 && !Match(DublinEnglish, p))
  }

  /** A postcode in Irish for a Dublin district becomes the English one: "Baile Átha Cliath 15" gives "Dublin 15". */
  lemma IrishDublinPostcode(c: char, rest: string)
    requires c != '\n'
    requires !SearchFrom(DublinIrish, rest, 0)
    ensures SanitisePostcode("Baile " + [c] + "tha Cliath" + rest) == Sanitised("Dublin" + rest, false)
  {
    var p := "Baile " + [c] + "tha Cliath" + rest;
    assert MatchLength(DublinIrish, p, 0) == Some(17) by {
      forall k | 0 <= k < 17 ensures CharMatches(DublinIrishText[k], p[k]) {
        if k != 6 {
          assert p[k] == DublinIrishText[k];
        }
      }
    }
    SubOfLeadingMatch(DublinIrish, "Dublin", p, 17);
    assert p[17..] == rest;
    SubWithoutMatch(DublinIrish, "Dublin", rest, 0);
  }

  /** A postcode rewritten to the English form is kept, without a warning, when sanitised again. */
  lemma SanitisedDublinIsStable(p: string)
    requires Match(DublinIrish, p)
    ensures SanitisePostcode(SanitisePostcode(p).value) == Sanitised(SanitisePostcode(p).value, false)
  {
    var n := MatchLength(DublinIrish, p, 0).value;
    SubOfLeadingMatch(DublinIrish, "Dublin", p, n);
    EnglishDublinIsKept("Dublin", Sub(DublinIrish, "Dublin", p[n..]));
  }

  /** A postcode that starts with "Dublin" is kept, without a warning. */
  lemma EnglishDublinIsKept(dublin: string, rest: string)
    requires dublin == "Dublin"
    ensures SanitisePostcode(dublin + rest) == Sanitised(dublin + rest, false)
  {
    var q := dublin + rest;
    assert q[0] == 'D' && q[..6] == dublin;
    DiffersAt(DublinIrishText, q, 0, 0);
    MatchLengthOfOne(DublinIrishText, q, 0);
    DiffersAt(NoneIrishText, q, 0, 0);
    MatchLengthOfOne(NoneIrishText, q, 0);
    MatchesOwnText(dublin, q, 0);
    MatchLengthOfOne(dublin, q, 0);
  }

  // ---------------------------------------------------------------------------
  // `sanitise_price`: `(€(\d+,?)*.\d{2})`
  // ---------------------------------------------------------------------------

  /** Text matched by `(\d+,?)*`: digits and commas, each comma right after a digit. */
  predicate Grouped(t: string) {
    forall k :: 0 <= k < |t| ==> IsDigit(t[k]) || (t[k] == ',' && k > 0 && IsDigit(t[k - 1]))
  }

  /**
   * `price_regex.match(p)` as written: the unescaped `.` accepts any
   * character but a newline where the decimal point belongs.
   */
  predicate PriceMatchAsWritten(p: string) {
    |p| > 0 && p[0] == '€' &&
    exists j :: 1 <= j <= |p| - 3 && Grouped(p[1..j]) && p[j] != '\n' && IsDigit(p[j + 1]) && IsDigit(p[j + 2])
  }

  /** The price pattern with the decimal point escaped: euros, grouped digits, a point and two digits of cents. */
  predicate PriceMatch(p: string) {
    |p| > 0 && p[0] == '€' &&
    exists j :: 1 <= j <= |p| - 3 && Grouped(p[1..j]) && p[j] == '.' && IsDigit(p[j + 1]) && IsDigit(p[j + 2])
  }

  /** The price is never changed; it is unusual exactly when it does not start with a price in euro and cent. */
  function SanitisePrice(p: string): (r: Sanitised)
    ensures r.value == p
    ensures r.unusual <==> !PriceMatch(p)
  {
    Sanitised(p, !PriceMatch(p))
  }

  /** As written, a whole number of euro without cents passes as a well-formed price. */
  lemma PriceWithoutCentsAsWritten(p: string)
    requires p == "€100"
    ensures PriceMatchAsWritten(p)
    ensures !PriceMatch(p)
  {
    assert Grouped(p[1..1]);
    assert p[2] == '0' && p[3] == '0';
  }

  /** A register price such as "€185,000.00" is not flagged. */
  lemma RegisterPriceIsUsual(euros: string, cents: string, rest: string)
    requires |euros| > 0 && Grouped(euros)
    requires |cents| == 2 && IsDigit(cents[0]) && IsDigit(cents[1])
    ensures !SanitisePrice("€" + euros + "." + cents + rest).unusual
  {
    var p := "€" + euros + "." + cents + rest;
    var j := 1 + |euros|;
    assert p[1..j] == euros;
    assert p[j] == '.' && p[j + 1] == cents[0] && p[j + 2] == cents[1];
  }

  // ---------------------------------------------------------------------------
  // `sanitise_property_description`
  // ---------------------------------------------------------------------------

  /**
   * The Irish descriptions of a new and a second-hand dwelling become the
   * English ones; anything else is kept, and is unusual when it is neither
   * English description either.
   */
  function SanitisePropertyDescription(d: string): (r: Sanitised)
    ensures Match(NewIrish, d) ==> r == Sanitised(Sub(NewIrish, NewDwelling, d), false)
    ensures !Match(NewIrish, d) && Match(UsedIrish, d) ==> r == Sanitised(Sub(UsedIrish, SecondHand, d), false)
    ensures !Match(NewIrish, d) && !Match(UsedIrish, d) ==> r.value == d
    ensures r.unusual <==> !Match(NewIrish, d) && !Match(UsedIrish, d) && !Match(NewEnglish, d) && !Match(UsedEnglish, d)
  {
    if Match(NewIrish, d) then Sanitised(Sub(NewIrish, NewDwelling, d), false)
    else if Match(UsedIrish, d) then Sanitised(Sub(UsedIrish, SecondHand, d), false)
    else Sanitised(d, !Match(NewEnglish, d) && !Match(UsedEnglish, d))
  }

  /** The Irish description of a new dwelling, on its own, becomes the one the transformer counts as new. */
  lemma IrishNewDwellingIsNew(d: string)
    requires |d| == |NewIrishText| && MatchesAt(NewIrishText, d, 0)
    ensures SanitisePropertyDescription(d) == Sanitised(NewDwelling, false)
  {
    MatchLengthOfOne(NewIrishText, d, 0);
    SubOfWholeMatch(NewIrish, NewDwelling, d);
  }

  /** The Irish description of a second-hand dwelling, on its own, becomes the English one. */
  lemma IrishSecondHandIsEnglish(d: string)
    requires d == UsedIrishText
    ensures SanitisePropertyDescription(d) == Sanitised(SecondHand, false)
  {
    DiffersAt(NewIrishText, d, 0, 22);
    MatchLengthOfOne(NewIrishText, d, 0);
    MatchesOwnText(d, d, 0);
    MatchLengthOfOne(UsedIrishText, d, 0);
    SubOfWholeMatch(UsedIrish, SecondHand, d);
  }

  /** The English descriptions are kept, without a warning. */
  lemma EnglishDescriptionsAreKept(d: string)
    requires d == NewDwelling || d == SecondHand
    ensures SanitisePropertyDescription(d) == Sanitised(d, false)
  {
    DiffersAt(NewIrishText, d, 0, 0);
    MatchLengthOfOne(NewIrishText, d, 0);
    DiffersAt(UsedIrishText, d, 0, 0);
    MatchLengthOfOne(UsedIrishText, d, 0);
    MatchesOwnText(d, d, 0);
    MatchLengthOfOne(d, d, 0);
  }

  // ---------------------------------------------------------------------------
  // `sanitise_size_description`
  // ---------------------------------------------------------------------------

  /**
   * Size bands are brought to the English form the transformer classifies,
   * the large band first; anything else is kept, and a non-empty value
   * matching no English form is unusual.
   */
  function SanitiseSizeDescription(d: string): (r: Sanitised)
    ensures Match(LargeEnglish, d) ==> r == Sanitised(Sub(LargeEnglish, LargeText, d), false)
    ensures !Match(LargeEnglish, d) && Match(MediumIrish, d) ==> r == Sanitised(Sub(MediumIrish, MediumText, d), false)
    ensures !Match(LargeEnglish, d) && !Match(MediumIrish, d) && Match(SmallIrish, d) ==>
              r == Sanitised(Sub(SmallIrish, SmallText, d), false)
    ensures !Match(LargeEnglish, d) && !Match(MediumIrish, d) && !Match(SmallIrish, d) ==> r.value == d
    ensures d == [] ==> r == Sanitised([], false)
    ensures r.unusual <==> |d| > 0 && !Match(LargeEnglish, d) && !Match(MediumIrish, d) && !Match(SmallIrish, d)
                           && !Match(MediumEnglish, d) && !Match(SmallEnglish, d)
  {
    if Match(LargeEnglish, d) then Sanitised(Sub(LargeEnglish, LargeText, d), false)
    else if Match(MediumIrish, d) then Sanitised(Sub(MediumIrish, MediumText, d), false)
    else if Match(SmallIrish, d) then Sanitised(Sub(SmallIrish, SmallText, d), false)
    else Sanitised(d, |d| > 0 && !Match(LargeEnglish, d) && !Match(MediumEnglish, d) && !Match(SmallEnglish, d))
  }

  /** "greater than 125 sq metres" is written out as the band's English name. */
  lemma ShortLargeBandIsCanonical(d: string)
    requires d == LargeShort
    ensures SanitiseSizeDescription(d) == Sanitised(LargeText, false)
  {
    MatchesOwnText(d, d, 0);
    MatchLengthOfTwo(LargeText, LargeShort, d, 0);
    SubOfWholeMatch(LargeEnglish, LargeText, d);
  }

  /** The large band's English name is kept. */
  lemma LargeBandIsKept(d: string)
    requires d == LargeText
    ensures SanitiseSizeDescription(d) == Sanitised(LargeText, false)
  {
    MatchesOwnText(d, d, 0);
    MatchLengthOfTwo(LargeText, LargeShort, d, 0);
    SubOfWholeMatch(LargeEnglish, LargeText, d);
  }

  /** The medium band's English name is kept, without a warning. */
  lemma MediumBandIsKept(d: string)
    requires d == MediumText
    ensures SanitiseSizeDescription(d) == Sanitised(MediumText, false)
  {
    MediumIsNoOtherBand(d);
    MatchLengthOfTwo(LargeText, LargeShort, d, 0);
    MatchLengthOfOne(MediumIrishText, d, 0);
    MatchLengthOfOne(SmallIrishText, d, 0);
    MatchesOwnText(d, d, 0);
    MatchLengthOfOne(MediumText, d, 0);
  }

  lemma MediumIsNoOtherBand(d: string)
    requires d == MediumText
    ensures !MatchesAt(LargeText, d, 0) && !MatchesAt(LargeShort, d, 0) && !MatchesAt(SmallIrishText, d, 0)
  {
    MediumIsNotLarge(d);
    MediumIsNotShortLarge(d);
    MediumIsNotIrishSmall(d);
  }

  lemma MediumIsNotLarge(d: string)
    requires d == MediumText
    ensures !MatchesAt(LargeText, d, 0)
  {
    assert !CharMatches(LargeText[25], d[25]);
  }

  lemma MediumIsNotShortLarge(d: string)
    requires d == MediumText
    ensures !MatchesAt(LargeShort, d, 0)
  {
    assert !CharMatches(LargeShort[25], d[25]);
  }

  lemma MediumIsNotIrishSmall(d: string)
    requires d == MediumText
    ensures !MatchesAt(SmallIrishText, d, 0)
  {
    assert !CharMatches(SmallIrishText[28], d[28]);
  }

  /** The small band's English name is kept, without a warning. */
  lemma SmallBandIsKept(d: string)
    requires d == SmallText
    ensures SanitiseSizeDescription(d) == Sanitised(SmallText, false)
  {
    MatchLengthOfTwo(LargeText, LargeShort, d, 0);
    MatchLengthOfOne(MediumIrishText, d, 0);
    MatchLengthOfOne(SmallIrishText, d, 0);
    MatchesOwnText(d, d, 0);
    MatchLengthOfOne(SmallText, d, 0);
  }

  /** The Irish medium band becomes the English one. */
  lemma IrishMediumBandIsEnglish(d: string)
    requires d == MediumIrishText
    ensures SanitiseSizeDescription(d) == Sanitised(MediumText, false)
  {
    IrishMediumIsNotLarge(d);
    MatchLengthOfTwo(LargeText, LargeShort, d, 0);
    MatchesOwnText(d, d, 0);
    MatchLengthOfOne(MediumIrishText, d, 0);
    SubOfWholeMatch(MediumIrish, MediumText, d);
  }

  lemma IrishMediumIsNotLarge(d: string)
    requires d == MediumIrishText
    ensures !MatchesAt(LargeText, d, 0) && !MatchesAt(LargeShort, d, 0)
  {
    assert !CharMatches(LargeText[37], d[37]);
    assert !CharMatches(LargeShort[25], d[25]);
  }

  /** The Irish small band, on its own, becomes the English one. */
  lemma IrishSmallBandIsEnglish(d: string)
    requires |d| == |SmallIrishText| && MatchesAt(SmallIrishText, d, 0)
    ensures SanitiseSizeDescription(d) == Sanitised(SmallText, false)
  {
    assert CharMatches(SmallIrishText[0], d[0]);
    DiffersAt(LargeText, d, 0, 0);
    DiffersAt(LargeShort, d, 0, 0);
    MatchLengthOfTwo(LargeText, LargeShort, d, 0);
    MatchLengthOfOne(MediumIrishText, d, 0);
    MatchLengthOfOne(SmallIrishText, d, 0);
    SubOfWholeMatch(SmallIrish, SmallText, d);
  }

  /** A sanitised size band in either language is one the transformer classifies. */
  lemma SanitisedBandsAreClassified(d: string)
    requires d in {LargeShort, LargeText, MediumText, MediumIrishText, SmallText, SmallIrishText}
    ensures TransformSizeDescription(SanitiseSizeDescription(d).value) != ""
  {
    if d == LargeShort {
      ShortLargeBandIsCanonical(d);
    } else if d == LargeText {
      LargeBandIsKept(d);
    } else if d == MediumText {
      MediumBandIsKept(d);
    } else if d == MediumIrishText {
      IrishMediumBandIsEnglish(d);
    } else if d == SmallText {
      SmallBandIsKept(d);
    } else {
      MatchesOwnText(d, d, 0);
      IrishSmallBandIsEnglish(d);
    }
  }

  // ---------------------------------------------------------------------------
  // `Sanitiser` and `sanitise`
  // ---------------------------------------------------------------------------

  /** Holds the record it sanitises; the record is shared, not copied. */
  class Sanitiser {
    const sale: RawPropertySale

    constructor(sale: RawPropertySale)
      ensures this.sale == sale
    {
      this.sale := sale;
    }

    /**
     * Rewrites address, postcode, price, property description and size
     * description of the record in place and returns the same record; the
     * other fields are untouched.  `unusual` is set when any field would be
     * logged.
     */
    method Sanitise() returns (r: RawPropertySale, unusual: bool)
      modifies sale
      ensures r == sale
      ensures sale.address == SanitiseAddress(old(sale.address))
      ensures sale.postcode == SanitisePostcode(old(sale.postcode)).value
      ensures sale.price == SanitisePrice(old(sale.price)).value
      ensures sale.propertyDescription == SanitisePropertyDescription(old(sale.propertyDescription)).value
      ensures sale.sizeDescription == SanitiseSizeDescription(old(sale.sizeDescription)).value
      ensures sale.appId == old(sale.appId) && sale.date == old(sale.date) && sale.county == old(sale.county)
      ensures sale.notFullPrice == old(sale.notFullPrice) && sale.vatExclusive == old(sale.vatExclusive)
      ensures unusual <==> (SanitisePostcode(old(sale.postcode)).unusual || SanitisePrice(old(sale.price)).unusual ||
                            SanitisePropertyDescription(old(sale.propertyDescription)).unusual ||
                            SanitiseSizeDescription(old(sale.sizeDescription)).unusual)
    {
      var s := sale;
      s.address := SanitiseAddress(s.address);
      var postcode := SanitisePostcode(s.postcode);
      s.postcode := postcode.value;
      var price := SanitisePrice(s.price);
      s.price := price.value;
      var description := SanitisePropertyDescription(s.propertyDescription);
      s.propertyDescription := description.value;
      var size := SanitiseSizeDescription(s.sizeDescription);
      s.sizeDescription := size.value;
      unusual := postcode.unusual || price.unusual || description.unusual || size.unusual;
      r := s;
    }
  }
}
