/**
 * Turning a raw register record into the record the analysis uses
 * (app/transformer.py): the size classifier, the price cleaning, the ten-step
 * address normalisation and the derived flags.
 */
module Transformer {
  import opened Chars
  import opened Address
  import opened Register

  // ---------------------------------------------------------------------------
  // `transform_size_description`
  // ---------------------------------------------------------------------------

  const SmallText := "less than 38 sq metres"
  const MediumText := "greater than or equal to 38 sq metres and less than 125 sq metres"
  const LargeText := "greater than or equal to 125 sq metres"

  /** The three English size bands become "small", "medium" and "large"; anything else becomes "". */
  function TransformSizeDescription(d: string): (r: string)
    ensures r == "small" <==> d == SmallText
    ensures r == "medium" <==> d == MediumText
    ensures r == "large" <==> d == LargeText
    ensures r == "" <==> d != SmallText && d != MediumText && d != LargeText
  {
    if d == SmallText then "small"
    else if d == MediumText then "medium"
    else if d == LargeText then "large"
    else ""
  }

  // ---------------------------------------------------------------------------
  // `transform_price`: `[€,]` replaced by nothing
  // ---------------------------------------------------------------------------

  /** The euro sign and the thousands separator. */
  predicate IsPriceNoise(c: char) {
    c == '€' || c == ','
  }

  /** `price_regex.sub('', p)`: the price with every '€' and ',' deleted. */
  function CleanPrice(p: string): (r: string)
    ensures |r| <= |p|
    ensures forall i :: 0 <= i < |r| ==> !IsPriceNoise(r[i])
  {
    if p == [] then [] else (if IsPriceNoise(p[0]) then [] else [p[0]]) + CleanPrice(p[1..])
  }

  /** Cleaning works piece by piece, so the characters that remain keep their order. */
  lemma {:induction false} CleanPriceAppend(p: string, q: string)
    ensures CleanPrice(p + q) == CleanPrice(p) + CleanPrice(q)
  {
    if p != [] {
      var head := if IsPriceNoise(p[0]) then [] else [p[0]];
      assert (p + q)[0] == p[0] && (p + q)[1..] == p[1..] + q;
      assert CleanPrice(p + q) == head + CleanPrice(p[1..] + q);
      CleanPriceAppend(p[1..], q);
      assert CleanPrice(p) == head + CleanPrice(p[1..]);
    } else {
      assert p + q == q;
    }
  }

  /** Every other character occurs as often as before; the deleted ones not at all. */
  lemma {:induction false} CleanPriceCounts(p: string, c: char)
    ensures multiset(CleanPrice(p))[c] == if IsPriceNoise(c) then 0 else multiset(p)[c]
  {
    if p != [] {
      CleanPriceCounts(p[1..], c);
      assert p == [p[0]] + p[1..];
    }
  }

  /** A price without a separator or a currency sign is left as it is. */
  lemma {:induction false} CleanPriceWithoutNoise(p: string)
    requires forall i :: 0 <= i < |p| ==> !IsPriceNoise(p[i])
    ensures CleanPrice(p) == p
  {
    if p != [] {
      CleanPriceWithoutNoise(p[1..]);
    }
  }

  /** Cleaning a cleaned price changes nothing. */
  lemma CleanPriceIsIdempotent(p: string)
    ensures CleanPrice(CleanPrice(p)) == CleanPrice(p)
  {
    CleanPriceWithoutNoise(CleanPrice(p));
  }

  // ---------------------------------------------------------------------------
  // `transform_address`
  // ---------------------------------------------------------------------------

  /** Steps 1 and 2: other characters become spaces, then leading whitespace goes. */
  function Cleaned(address: string): string {
    LStrip(ReplaceInvalid(address))
  }

  /** Steps 3 to 5: the leading marker and every "Co" token become spaces, then leading whitespace goes. */
  function Unmarked(address: string): string {
    LStrip(StripCounty(StripMarker(Cleaned(address))))
  }

  /** Steps 6 and 7: a leading run of numbers becomes a space, then `capwords`. */
  function Capitalised(address: string): string {
    CapWords(CollapseNumbers(Unmarked(address)))
  }

  /** Steps 8 and 9: the postcode, then the county, appended when absent. */
  function WithPlace(address: string, postcode: string, county: string): string {
    AppendIfAbsent(AppendIfAbsent(Capitalised(address), postcode), county)
  }

  /** All ten steps, step 10 being the abbreviation table in order. */
  function NormalizedAddress(address: string, postcode: string, county: string): string {
    ExpandAll(Abbreviations, WithPlace(address, postcode, county))
  }

  /**
   * `transform_address`: the steps applied one after another to a local
   * string, each substitution behind the `search`/`match` guard the source
   * puts in front of it.  The guards never change the outcome.
   */
  method TransformAddress(address: string, postcode: string, county: string) returns (r: string)
    ensures r == NormalizedAddress(address, postcode, county)
  {
    var a := address;
    if HasInvalid(a) {
      a := ReplaceInvalid(a);
    } else {
      ReplaceInvalidWithoutInvalid(a);
    }
    a := LStrip(a);
    assert a == Cleaned(address);
    if StartMatch(a).Some? {
      a := StripMarker(a);
    }
    if HasCountyFrom(a, 0) {
      a := StripCounty(a);
    } else {
      StripCountyWithoutToken(a, 0);
    }
    a := LStrip(a);
    assert a == Unmarked(address);
    if MultiplesMatch(a).Some? {
      a := CollapseNumbers(a);
    }
    a := CapWords(a);
    assert a == Capitalised(address);
    if !Contains(a, postcode) {
      a := a + " " + postcode;
    }
    if !Contains(a, county) {
      a := a + " " + county;
    }
    assert a == WithPlace(address, postcode, county);
    r := ExpandTable(Abbreviations, a);
  }

  /** The loop over the abbreviation table: each entry's substitution, behind its `search` guard, in order. */
  method ExpandTable(table: seq<Abbreviation>, s: string) returns (r: string)
    ensures r == ExpandAll(table, s)
  {
    r := s;
    var i := 0;
    while i < |table|
      invariant 0 <= i <= |table|
      invariant ExpandAll(table[i..], r) == ExpandAll(table, s)
    {
      var key := table[i];
      if HasAbbreviationFrom(r, 0, key) {
        ExpandAllStep(table, i, r);
        r := Expand(r, key);
      } else {
        ExpandWithoutMatch(r, 0, key);
        ExpandAllStep(table, i, r);
      }
      i := i + 1;
    }
    assert table[i..] == [];
  }

  /** Applying the table from entry `i` is entry `i` followed by the rest. */
  lemma ExpandAllStep(table: seq<Abbreviation>, i: nat, s: string)
    requires i < |table|
    ensures ExpandAll(table[i..], s) == ExpandAll(table[i + 1..], Expand(s, table[i]))
  {
    assert table[i..][1..] == table[i + 1..];
  }

  /** After steps 1 and 2 only whitespace, digits and word characters are left, and none leads. */
  lemma {:induction false} CleanedIsValid(address: string)
    ensures forall i :: 0 <= i < |Cleaned(address)| ==> IsValid(Cleaned(address)[i])
    ensures Cleaned(address) == [] || !IsSpace(Cleaned(address)[0])
  {
    var s := ReplaceInvalid(address);
    forall i | 0 <= i < |LStrip(s)| ensures IsValid(LStrip(s)[i]) {
      assert LStrip(s)[i] == s[|s| - |LStrip(s)| + i];
    }
  }

  /**
   * After `capwords` the address is tidy (single spaces between words only)
   * and its words are the words before, capitalised.
   */
  lemma CapitalisedIsTidy(address: string)
    ensures Tidy(Capitalised(address))
    ensures Split(Capitalised(address)) == CapitalizeAll(Split(CollapseNumbers(Unmarked(address))))
  {
    CapWordsShape(CollapseNumbers(Unmarked(address)));
  }

  /** After both appends `x` and `y` occur, and the text before is kept as a prefix. */
  lemma AppendBothContains(s: string, x: string, y: string)
    ensures Contains(AppendIfAbsent(AppendIfAbsent(s, x), y), x)
    ensures Contains(AppendIfAbsent(AppendIfAbsent(s, x), y), y)
    ensures |s| <= |AppendIfAbsent(AppendIfAbsent(s, x), y)|
    ensures AppendIfAbsent(AppendIfAbsent(s, x), y)[..|s|] == s
  {
    var t := AppendIfAbsent(s, x);
    AppendIfAbsentContains(s, x);
    AppendIfAbsentContains(t, y);
    if !Contains(t, y) {
      assert t + " " + y == t + (" " + y);
      ContainsInPrefix(t, " " + y, x);
    }
  }

  /**
   * Before the abbreviations are expanded the address contains the postcode
   * and the county, and begins with the capitalised address.
   */
  lemma WithPlaceContainsBoth(address: string, postcode: string, county: string)
    ensures Contains(WithPlace(address, postcode, county), postcode)
    ensures Contains(WithPlace(address, postcode, county), county)
    ensures |Capitalised(address)| <= |WithPlace(address, postcode, county)|
    ensures WithPlace(address, postcode, county)[..|Capitalised(address)|] == Capitalised(address)
  {
    AppendBothContains(Capitalised(address), postcode, county);
  }

  /** Appending the postcode and the county a second time changes nothing. */
  lemma WithPlaceIsStable(address: string, postcode: string, county: string)
    ensures AppendIfAbsent(AppendIfAbsent(WithPlace(address, postcode, county), postcode), county)
            == WithPlace(address, postcode, county)
  {
    WithPlaceContainsBoth(address, postcode, county);
  }

  // ---------------------------------------------------------------------------
  // `TransformedPropertySale` and `transformed_from_raw`
  // ---------------------------------------------------------------------------

  /** The transformed record; the date stays the register's text and the price the cleaned text. */
  datatype TransformedSale = TransformedSale(
    appId: string, date: string, address: string, postcode: string, county: string, price: string,
    fullPrice: bool, vatExclusive: bool, isNew: bool, size: string)

  const NewDwelling := "New Dwelling house /Apartment"

  /** `transformed_from_raw`: derived fields computed from the record, the identifying fields copied. */
  function TransformedFromRaw(raw: RawPropertySale): (t: TransformedSale)
    reads raw
    ensures t.appId == raw.appId && t.date == raw.date
    ensures t.postcode == raw.postcode && t.county == raw.county
    ensures t.fullPrice <==> raw.notFullPrice == "No"
    ensures t.vatExclusive <==> raw.vatExclusive == "Yes"
    ensures t.isNew <==> raw.propertyDescription == NewDwelling
    ensures t.address == NormalizedAddress(raw.address, raw.postcode, raw.county)
    ensures t.price == CleanPrice(raw.price)
    ensures forall i :: 0 <= i < |t.price| ==> !IsPriceNoise(t.price[i])
    ensures t.size == TransformSizeDescription(raw.sizeDescription)
    ensures t.size in {"small", "medium", "large", ""}
  {
    TransformedSale(raw.appId, raw.date, NormalizedAddress(raw.address, raw.postcode, raw.county),
                    raw.postcode, raw.county, CleanPrice(raw.price),
                    raw.notFullPrice == "No", raw.vatExclusive == "Yes",
                    raw.propertyDescription == NewDwelling, TransformSizeDescription(raw.sizeDescription))
  }
}
