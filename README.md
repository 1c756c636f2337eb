# Irish property price register: record cleaning and geocode store

This project models the core of a pipeline that reads the Irish residential
Property Price Register. It proves properties of that model in Dafny.

The register is a CSV file with one row per sale. Each row becomes a
`RawPropertySale` record. The pipeline then:

- **sanitises** the record (`app/sanitiser.py`). Irish-language variants of the
  postcode, the property description and the size band become their English
  forms. Values that match no known form are flagged as unusual.
- **transforms** the record (`app/transformer.py`):
  - It classifies the size band.
  - It strips the euro sign and the thousands separators from the price.
  - It normalises the address in ten fixed steps.
  - It derives three flags by exact comparison.
- **geocodes** the distinct addresses (`app/geocoder.py`). They are kept in a
  document store with one document per address. Each geocoding provider
  records its answer and a "processed" marker, so an address is never looked up
  twice by the same provider. Writes are sent in batches.

Modules:

- `Wrappers`: the `Option` type.
- `Chars`: Python's `\s`, `\d` and `\w` classes and its case mapping. They are
  defined over the characters a cp1252-decoded file can contain.
- `Patterns`: the literal regular expressions the sanitiser uses.
  - A pattern is a list of alternatives, each a literal in which `.` matches
    any character but a newline.
  - `match` is anchored at the start.
  - `sub` replaces every non-overlapping match, left to right.
  - The first alternative that matches wins.
- `Address`: the regular expressions and helpers of the address normalisation,
  each coded by hand with Python's semantics. These are the marker, the county
  token, the run of house numbers, `string.capwords`, the append of the
  postcode and county, and the abbreviation table.
  - Two of these patterns are defective as written (see "## Findings"). Both the
    as-written and the corrected matcher are defined, but the pipeline
    (`NormalizedAddress`, and so `TransformAddress` and `TransformedFromRaw`)
    uses the corrected ones. It removes the whole "Number" marker where the
    source leaves "ber", and it keeps words such as "Tesco" that the source
    cuts to "Tes ".
- `Register`: the `RawPropertySale` record, a class whose fields the sanitiser
  rewrites in place.
- `Transformer`: `transform_size_description`, the cleaning step of
  `transform_price`, `transform_address` and `transformed_from_raw`.
  - `transform_address` is a method that reassigns a local string step by
    step. Each step sits behind the same guard the source uses.
  - The loop over the abbreviation table is a method with an invariant.
  - `TransformAddress` is proved equal to the function `NormalizedAddress`,
    and the table loop to the function `ExpandAll` that `NormalizedAddress`
    ends with.
- `Sanitiser`: the field sanitisers as functions that return the value and an
  "unusual" flag, which stands in for the warning the source logs. The price
  check uses the corrected price pattern with a literal decimal point (see
  "## Findings"), so "€100" is unusual here while the source lets it pass. Also the
  `Sanitiser` class, whose `Sanitise` method updates the shared record in place.
- `Geocoder`: the document store as a class.
  - Its fields are the documents and the log of bulk writes.
  - `update_addresses` and `geocode` are methods.
  - `geocode` is proved to apply and write exactly the updates given by the
    function `Recorded`, in batches given by `Chunks`.
  - The properties of a run are lemmas about `Recorded`: the marker, the
    timeouts, the quota and the cap.

## Model

| member | source | states |
|---|---|---|
| Register.RawPropertySale.constructor | app/property_price_register.py:16-27 | every field holds the corresponding column text; the identifier is supplied by the caller |
| Transformer.TransformSizeDescription | app/transformer.py:14-23 | "small", "medium" and "large" come from exactly the three English band texts, each in both directions, and "" from anything else |
| Transformer.CleanPrice | app/transformer.py:26-30 | the cleaned price is no longer than the input and holds no '€' and no ',' |
| Transformer.CleanPriceAppend | app/transformer.py:26-30 | cleaning works piece by piece, so the kept characters stay in their original order |
| Transformer.CleanPriceCounts | app/transformer.py:26-30 | every character other than '€' and ',' occurs as often as in the input; those two do not occur |
| Transformer.CleanPriceWithoutNoise | app/transformer.py:26-30 | a price without '€' or ',' is left unchanged |
| Transformer.CleanPriceIsIdempotent | app/transformer.py:26-30 | cleaning a cleaned price changes nothing |
| Transformer.TransformAddress | app/transformer.py:92-113 | the guarded step-by-step rewrite gives exactly `NormalizedAddress`: the ten steps in order; none of the `search`/`match` guards changes the result. `NormalizedAddress` uses the corrected marker and county matchers of the first two findings, not the source's as-written patterns |
| Transformer.NormalizedAddress | app/transformer.py:92-113 | the reference definition of `transform_address`: replace invalid characters, strip, remove the marker and the "Co" tokens (corrected matchers), strip, collapse a leading run of numbers, `capwords`, append postcode and county when absent, then the abbreviation table in order |
| Transformer.ExpandTable | app/transformer.py:109-111 | the loop over the table, with each substitution behind its `search` guard, applies every entry in dictionary order |
| Transformer.ExpandAllStep | app/transformer.py:109-111 | applying the table from entry i is entry i followed by the remaining entries |
| Transformer.CleanedIsValid | app/transformer.py:94-96 | after steps 1 and 2 only whitespace, digits and word characters remain, and no whitespace leads |
| Transformer.CapitalisedIsTidy | app/transformer.py:104 | after `capwords` whitespace occurs only as single spaces between words, and the words are the earlier words, capitalised |
| Transformer.AppendBothContains | app/transformer.py:105-108 | after both conditional appends the postcode and the county occur, and the earlier text is kept as a prefix |
| Transformer.WithPlaceContainsBoth | app/transformer.py:105-108 | before the abbreviations are expanded the address contains the postcode and the county and starts with the capitalised address |
| Transformer.WithPlaceIsStable | app/transformer.py:105-108 | appending the postcode and the county a second time changes nothing |
| Transformer.TransformedFromRaw | app/transformer.py:146-152 | identifier, date, postcode and county are copied; full_price iff not_full_price is "No"; vat_exclusive iff "Yes"; new iff the description is exactly the English new-dwelling text; the address is `NormalizedAddress` (with the corrected marker and county matchers of the first two findings); the price is exactly the cleaned price, so it has no '€' or ','; the size is exactly the classified size band, one of the four classes |
| Address.ReplaceInvalid | app/transformer.py:94-95 | same length; every character is whitespace, digit or word character; valid characters are kept and each other character becomes exactly one space |
| Address.ReplaceInvalidWithoutInvalid | app/transformer.py:94-95 | without an invalid character the substitution is the identity |
| Address.LStrip | app/transformer.py:96 | the result is the suffix after the leading whitespace: all removed characters are whitespace and the result does not start with whitespace |
| Address.StemMatch | app/transformer.py:86 | the alternative `stem s?` matches exactly when the stem occurs there ignoring case; the match is the stem plus an optional "s" |
| Address.LongestMarkerIsLongest | app/transformer.py:86 | the intended marker matcher finds a marker iff some alternative matches, and no matching alternative is longer |
| Address.StartMatchFindsLongestMarker | app/transformer.py:86 | the leading marker is found iff a marker word follows the indentation, and the match reaches the end of the longest one |
| Address.StripMarker | app/transformer.py:97-98 | without a marker the address is unchanged; otherwise the indentation and the marker become one space |
| Address.StripMarkerAsWritten | app/transformer.py:97-98 | as written: the indentation and the first alternative of the pattern that matches (`Nums?` before `Numbers?`) become one space; without a match the address is unchanged |
| Address.NumbersIsShadowed | app/transformer.py:86 | as written, the pattern always chooses `Nums?` at "number", matching 3 characters |
| Address.NumberIsConsumed | app/transformer.py:86 | the corrected matcher consumes the whole word "number" |
| Address.NumberIsLongestMarker | app/transformer.py:86 | at "number" the longest marker is the `Numbers?` alternative |
| Address.NumberMarkerAsWritten | app/transformer.py:97-98 | as written, a leading "Number" loses only "Num": "Number 5" becomes " ber 5" |
| Address.NumberMarkerCorrected | app/transformer.py:97-98 | corrected, the whole "Number"/"Numbers" is replaced by one space |
| Address.CountyLookbehindIsVacuous | app/transformer.py:88 | the lookbehind `(?<=\w)` tests the "o" just matched, so it never rejects a "co" that no word character follows |
| Address.StripCountyFrom | app/transformer.py:99-100 | the county substitution from position i on, left to right: each two-character "co" match becomes one space and every other character is copied; the result is no longer than the rest of the input |
| Address.StripCountyAsWritten | app/transformer.py:99-100 | as written: every "co", in any case, not followed by a word character becomes one space |
| Address.StripCounty | app/transformer.py:99-100 | corrected: every "co", in any case, with a word boundary on both sides becomes one space |
| Address.StripCountyWithoutToken | app/transformer.py:99-100 | without a "co" token standing on its own the substitution is the identity, so a word that merely ends in "co" is kept |
| Address.CountySuffixCounterexample | app/transformer.py:88 | as written "Tesco" becomes "Tes "; corrected it is kept |
| Address.CountyTokenExample | app/transformer.py:99-100 | "Co Cork" becomes "  Cork" |
| Address.TailEnd | app/transformer.py:89 | `(\s*And)?\W+` ends after a non-word character and before a word character or the end |
| Address.FragmentEnd | app/transformer.py:89 | a number fragment starts with a digit and ends after non-word characters, before a word character or the end |
| Address.Fragments | app/transformer.py:89 | the greedy repetition counts the consecutive fragments and stops where no further fragment begins |
| Address.MultiplesMatch | app/transformer.py:102 | the anchored match succeeds exactly when at least two number fragments begin the address, and ends after the last of them |
| Address.CollapseNumbers | app/transformer.py:102-103 | without two leading fragments the address is unchanged; otherwise the run of fragments becomes one space, and what follows begins no further fragment |
| Address.TwoNumbersCollapse | app/transformer.py:89 | two leading number fragments, "And" included, are collapsed into one space |
| Address.SingleNumberIsKept | app/transformer.py:89 | a single leading house number is kept |
| Address.SplitFrom | app/transformer.py:104 | `split()` yields only non-empty words without whitespace |
| Address.SplitFromCharacters | app/transformer.py:104 | the words of `split()`, put together, are exactly the non-whitespace characters of the input, in order |
| Address.Capitalize | app/transformer.py:104 | the first character is in upper case and the others in lower case |
| Address.CapitalizeAll | app/transformer.py:104 | every word is capitalised, in order |
| Address.CapWords | app/transformer.py:104 | `string.capwords`: split on whitespace, capitalise every word, join with single spaces |
| Address.SplitJoin | app/transformer.py:104 | splitting undoes joining with single spaces |
| Address.JoinIsTidy | app/transformer.py:104 | joining words leaves no leading, trailing or repeated whitespace |
| Address.CapWordsShape | app/transformer.py:104 | the words of `capwords(s)` are the words of s, capitalised, and the result is tidy |
| Address.CapWordsIsIdempotent | app/transformer.py:104 | a second `capwords` changes nothing |
| Address.CapitalizeIsIdempotent | app/transformer.py:104 | capitalising a capitalised word changes nothing |
| Address.AppendIfAbsent | app/transformer.py:105-108 | text already present leaves the address unchanged; otherwise it is appended after one space |
| Address.AppendIfAbsentContains | app/transformer.py:105-108 | afterwards the text occurs, and the address before is a prefix |
| Address.AppendIfAbsentIsIdempotent | app/transformer.py:105-108 | a second append of the same text changes nothing |
| Address.ContainsInPrefix | app/transformer.py:105-108 | text present in the address stays present after more is appended |
| Address.AbbreviationEnd | app/transformer.py:36-83 | a match starts and ends with whitespace and has the abbreviation after the leading whitespace; "St" never matches after a digit |
| Address.ExpandFrom | app/transformer.py:111 | `re.sub` from position i on: at a match the expansion between single spaces is written and scanning resumes after the match; elsewhere the character is copied |
| Address.Expand | app/transformer.py:111 | `re.sub(key, " " + value + " ", s)` over the whole address |
| Address.ExpandAll | app/transformer.py:109-111 | the table entries applied one after another, in dictionary order |
| Address.ExpandWithoutMatch | app/transformer.py:110-111 | without a match the substitution is the identity |
| Address.ExpandAtFirstMatch | app/transformer.py:111 | the text before the first match is copied, then the match is replaced by the expansion between single spaces |
| Address.StreetNotAfterDigit | app/transformer.py:79 | a match of "St" never starts directly after a digit; after two or more whitespace characters following a digit "St" is still expanded, as in the source |
| Address.AbbreviationBetweenSpaces | app/transformer.py:109-111 | an abbreviation with one space on each side matches, spaces included |
| Patterns.MatchLengthFindsBranch | app/sanitiser.py:65 | `match` succeeds iff some alternative matches at the start, and the match has that alternative's length |
| Patterns.MatchLength | app/sanitiser.py:65 | `match` at a position: the length of the first alternative that matches there, which ends inside the text and is non-empty for a well-formed pattern |
| Patterns.SubFrom | app/sanitiser.py:67 | `sub` from position i on: a match is replaced and scanning resumes after it; elsewhere the character is copied |
| Patterns.Sub | app/sanitiser.py:67 | `sub` over the whole value |
| Patterns.SubWithoutMatch | app/sanitiser.py:67 | `sub` changes nothing where the pattern occurs nowhere |
| Patterns.SubOfLeadingMatch | app/sanitiser.py:67 | a match at the start is replaced, and the substitution continues after it |
| Patterns.SubOfWholeMatch | app/sanitiser.py:67 | a value that is one whole match becomes the replacement |
| Sanitiser.SanitiseAddress | app/sanitiser.py:59-61 | the address is returned unchanged |
| Sanitiser.SanitisePostcode | app/sanitiser.py:63-73 | the Irish Dublin form is replaced by "Dublin"; the Irish "not applicable" form is removed; other postcodes are unchanged; unusual iff non-empty, neither Irish form and not starting with "Dublin" |
| Sanitiser.IrishDublinPostcode | app/sanitiser.py:65-67 | "Baile ?tha Cliath" followed by any text without the phrase becomes "Dublin" followed by that text |
| Sanitiser.SanitisedDublinIsStable | app/sanitiser.py:65-71 | sanitising a sanitised Irish Dublin postcode again changes nothing and raises no warning |
| Sanitiser.EnglishDublinIsKept | app/sanitiser.py:71-73 | a postcode starting with "Dublin" is kept without a warning |
| Sanitiser.SanitisePrice | app/sanitiser.py:75-79 | the price is never changed; it is unusual iff it does not start with € and grouped digits, a point and two digits |
| Sanitiser.PriceMatchAsWritten | app/sanitiser.py:32 | as written: "€", then grouped digits, then any character but a newline, then two digits |
| Sanitiser.PriceMatch | app/sanitiser.py:32 | corrected: "€", then grouped digits, then a literal point, then two digits |
| Sanitiser.PriceWithoutCentsAsWritten | app/sanitiser.py:32 | as written, the pattern accepts "€100" (`(\d+,?)*` matches nothing and its unescaped `.` matches the "1"); corrected, it does not |
| Sanitiser.RegisterPriceIsUsual | app/sanitiser.py:76-79 | a register price in euro and cent raises no warning |
| Sanitiser.SanitisePropertyDescription | app/sanitiser.py:81-94 | the Irish new and used descriptions become the English texts; anything else is kept; unusual iff it matches none of the four forms |
| Sanitiser.IrishNewDwellingIsNew | app/sanitiser.py:83-86 | the Irish new-dwelling text becomes exactly the English one, which the transformer marks as new |
| Sanitiser.IrishSecondHandIsEnglish | app/sanitiser.py:87-90 | the Irish second-hand text becomes exactly the English one |
| Sanitiser.EnglishDescriptionsAreKept | app/sanitiser.py:91-94 | the English descriptions are kept without a warning |
| Sanitiser.SanitiseSizeDescription | app/sanitiser.py:96-114 | the large band (either English form) becomes its canonical text first, then the Irish medium and small bands become English; anything else is kept; the empty value is kept without a warning; unusual iff non-empty and matching none of the five forms |
| Sanitiser.ShortLargeBandIsCanonical | app/sanitiser.py:98-101 | "greater than 125 sq metres" becomes the canonical large text |
| Sanitiser.LargeBandIsKept | app/sanitiser.py:98-101 | the canonical large text is kept without a warning |
| Sanitiser.MediumBandIsKept | app/sanitiser.py:102-114 | the English medium text is kept without a warning |
| Sanitiser.SmallBandIsKept | app/sanitiser.py:106-114 | the English small text is kept without a warning |
| Sanitiser.IrishMediumBandIsEnglish | app/sanitiser.py:102-105 | the Irish medium text becomes the English medium text |
| Sanitiser.IrishSmallBandIsEnglish | app/sanitiser.py:106-108 | the Irish small text becomes the English small text |
| Sanitiser.SanitisedBandsAreClassified | app/sanitiser.py:96-108 | every known band (the two English large forms, the English and Irish medium and small bands), once sanitised, is classified by the transformer as small, medium or large |
| Sanitiser.Sanitiser.constructor | app/sanitiser.py:9-11 | the sanitiser holds the record it is given, not a copy |
| Sanitiser.Sanitiser.Sanitise | app/sanitiser.py:13-20 | returns the same record; the five fields hold their sanitised values; the other five are unchanged; unusual iff any field sanitiser warned. The price warning uses the corrected pattern of the third finding, so "€100" warns here but not in the source |
| Geocoder.FirstWithAddress | app/geocoder.py:41 | the index found is the first document with the address, and none is found only when no document has it |
| Geocoder.Apply | app/geocoder.py:41-54 | without a document with the address nothing changes; otherwise only the first document with the address changes, its `geocoded` object overwritten by the update's fields; no document's address changes and the number of documents is kept |
| Geocoder.ApplyAll | app/geocoder.py:57-59 | a bulk write keeps the number of documents and their addresses |
| Geocoder.ApplyAllAppend | app/geocoder.py:57-59 | two bulk writes in a row have the effect of one bulk write of both |
| Geocoder.Unprocessed | app/geocoder.py:63-65 | every visited address belongs to a document without the marker, and every document without the marker is visited |
| Geocoder.AppliedIsProcessed | app/geocoder.py:50-54 | the document an update changes carries the marker afterwards |
| Geocoder.ApplyKeepsMarked | app/geocoder.py:50-54 | an update that does not set the marker to null leaves a marked document marked |
| Geocoder.ApplyAllKeepsMarked | app/geocoder.py:57-59 | a bulk write of such updates leaves every marked document marked |
| Geocoder.ApplyAllMarksUpdated | app/geocoder.py:57-59 | after a bulk write of marker-setting updates, the first document with each updated address carries the marker, whatever comes after it in the write |
| Geocoder.Fresh | app/geocoder.py:29-30 | only addresses from the input that are not stored are kept |
| Geocoder.FreshCounts | app/geocoder.py:30-32 | every new address is inserted as often as the input lists it, and a stored one not at all |
| Geocoder.NewDocuments | app/geocoder.py:32 | one document with an empty `geocoded` object per new address, in input order |
| Geocoder.SecondUpdateInsertsNothing | app/geocoder.py:27-34 | once the addresses are stored, storing them again inserts nothing |
| Geocoder.RawData | app/geocoder.py:40 | the raw data has exactly the provider's keys, with the answer's value or None |
| Geocoder.ProcessLocation | app/geocoder.py:38-54 | the update targets the address and sets the marker to the run's time; a location also fills the provider's slot, no location adds nothing else |
| Geocoder.Capped | app/geocoder.py:84 | the cap test `count >= max_requests != -1` |
| Geocoder.Recorded | app/geocoder.py:68-85 | the updates a run records from the address at j on with count results so far: a timeout records nothing, quota exhaustion ends the run, an answer records its update, and the run ends once the cap is reached after a lookup |
| Geocoder.RecordedMarks | app/geocoder.py:68-74 | every update of a run is for a visited address and carries the marker with the run's one timestamp |
| Geocoder.RecordedTimedOut | app/geocoder.py:76-77 | a timeout records nothing and leaves the count unchanged |
| Geocoder.RecordedAnswer | app/geocoder.py:73-75 | an answer records one update and counts one result |
| Geocoder.RecordedWithinCap | app/geocoder.py:84-85 | with a positive cap m a run records at most m results |
| Geocoder.RecordedStopsAtQuota | app/geocoder.py:78-80 | a run over addresses whose lookup at q exhausts the quota records exactly what a run over the addresses before q records; so every recorded update is for an address at a position from j up to q, and there are at most q − j of them |
| Geocoder.RunMarksDocuments | app/geocoder.py:63-87 | after a run, every document marked before is still marked, and every address the run recorded an answer for has its first document marked, so a later run with the same key visits none of these documents |
| Geocoder.Chunks | app/geocoder.py:81-87 | every batch is non-empty and at most flush_count long, and all but the last are exactly flush_count long |
| Geocoder.ChunksAppend | app/geocoder.py:81-83 | batching a run whose first part fills whole batches batches the two parts separately |
| Geocoder.FlattenChunks | app/geocoder.py:81-87 | the batches together are exactly the recorded updates, in order |
| Geocoder.PendingRemainder | app/geocoder.py:81-83 | the pending updates number the count modulo flush_count, or a whole batch when it divides the count |
| Geocoder.PendingAppend | app/geocoder.py:74-75 | recording an update while the batch is not full keeps it pending |
| Geocoder.PendingFlush | app/geocoder.py:81-83 | writing a full batch leaves nothing pending |
| Geocoder.PendingFinish | app/geocoder.py:86-87 | writing the rest at the end writes every recorded update, in batches |
| Geocoder.GeocodeStore.BulkWrite | app/geocoder.py:57-59 | the documents are updated in order and the write is logged |
| Geocoder.GeocodeStore.constructor | app/geocoder.py:19-21 | the store opens holding the given documents and with no write logged |
| Geocoder.GeocodeStore.UpdateAddresses | app/geocoder.py:27-34 | the new documents are appended, the stored ones untouched; nothing is written when there is nothing new |
| Geocoder.GeocodeStore.Geocode | app/geocoder.py:62-87 | the count is the number of recorded updates; the documents are the old ones with every recorded update applied; the writes are the recorded updates in batches of flush_count |
| Geocoder.GeocodeStore.VisitAll | app/geocoder.py:70-85 | the loop stops at quota exhaustion or the cap and has recorded exactly `Recorded`; whole batches are written and the rest is pending |
| Geocoder.GeocodeStore.Visit | app/geocoder.py:70-85 | one turn of the loop keeps the invariant and tells whether the run stops |
| Geocoder.GeocodeStore.FlushWhenFull | app/geocoder.py:81-83 | a full batch is written; what stays pending is less than a batch |

## Left out

- Characters outside the cp1252 repertoire are treated as non-word and uncased. The case mappings of ß, µ and ƒ, which change length or leave the repertoire, are left out.
- Alternatives, character classes and repetition are not implemented in general. Each pattern is coded by hand, and `Patterns` covers only literal alternatives.
- `transform_date` (`strptime`), the `Decimal` conversion in `transform_price`, and `json_serialise` and `__str__` are left out because they are library parsing and formatting. `TransformedSale` keeps the date text and the cleaned price text.
- Logging is left out. Each warning is the `unusual` flag of the value, and `Sanitise` returns their disjunction.
- The CSV download and parsing, `export_collection`, the configuration, the database connection and the index creation are I/O and are left out.
- `uuid4()` is left out: the record's identifier is a constructor parameter.
- `datetime.now()` is left out: the timestamp is a parameter of `Geocode`.
- `__bulk_write` is modelled as `GeocodeStore.BulkWrite`. Its log message and provider identifier are left out.
- Provider answers are an oracle `lookup(n, address)`. Latitude, longitude and altitude are carried as reals and never computed with.
- Geocoder.GeocodeStore.Geocode: the cursor is a snapshot of the unprocessed addresses taken at the start. Documents the run changes while iterating are not re-read.
- Geocoder.Apply: `UpdateOne` changes the first document with the address and does not upsert. With duplicate addresses only that first document changes.
- Geocoder.GeocodeStore.Geocode: requires a positive flush_count. With a flush_count of 0 the source raises `ZeroDivisionError` at the first flush test after a lookup, and a negative flush_count flushes on multiples of its absolute value under Python's floored `%`. Neither is modelled.
- Transformer.NormalizedAddress: uses the corrected marker and county matchers, not the as-written patterns of `app/transformer.py:86` and `:88`. So `TransformAddress` and the address of `TransformedFromRaw` remove a whole leading "Number" where the source leaves "ber", and keep words ending in "co", such as "Tesco", that the source cuts to "Tes ". Both as-written matchers are modelled and the differences proved (see "## Findings").
- Sanitiser.Sanitiser.Sanitise: the price warning uses the corrected pattern with a literal point, so a price such as "€100" is unusual here but passes the source's check (`app/sanitiser.py:32`; see "## Findings").
- Address.StripMarker: the marker alternatives have no word boundary after them, in the source and here alike, so "Northwood Road" loses its "No" and becomes " rthwood Road". The corrected matcher fixes only the order of `Nums?` and `Numbers?` and keeps this behaviour of the source.
- Geocoder.RecordedWithinCap: states the bound only for a positive cap. A cap of 0 or another negative value other than -1 allows one lookup, because the cap test comes after the lookup. That follows from `Recorded`'s definition, but no lemma states it.

## Findings

| source | as written | input that shows it | evidently intended | confidence | as-written member | corrected member |
|---|---|---|---|---|---|---|
| app/transformer.py:86 | the alternative `Nums?` comes before `Numbers?`, so at "Number" the match stops after "Num" | "Number 5" becomes " ber 5" | the whole marker word is removed (longest alternative) | not executed | Address.NumberMarkerAsWritten | Address.NumberMarkerCorrected |
| app/transformer.py:88 | the lookbehind `(?<=\w)` after "Co" always sees the "o", so only the right word boundary is checked | "Tesco" becomes "Tes " | "Co" as a token of its own (word boundary on both sides) | not executed | Address.CountySuffixCounterexample | Address.StripCountyWithoutToken |
| app/sanitiser.py:32 | the decimal point in the price pattern is an unescaped `.`, which matches any character but a newline | "€100" matches and raises no warning | a literal decimal point before the two digits of cents | not executed | Sanitiser.PriceWithoutCentsAsWritten | Sanitiser.SanitisePrice |
