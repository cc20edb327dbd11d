/** Worked examples of `extract_prices`, each proved by unfolding the scanner
    position by position. */
module PriceExamples {
  import opened Wrappers
  import opened Text
  import opened Prices

  /** The upper-cased triple spells a currency code. */
  predicate IsCodeTriple(a: char, b: char, c: char) {
    (a == 'P' && b == 'H' && c == 'P') || (a == 'U' && b == 'S' && c == 'D') ||
    (a == 'E' && b == 'U' && c == 'R') || (a == 'G' && b == 'B' && c == 'P') ||
    (a == 'J' && b == 'P' && c == 'Y') || (a == 'I' && b == 'N' && c == 'R')
  }

  /** A character-level test that no marker starts at `i`. */
  predicate NoMarkerStart(s: string, i: nat)
    requires i <= |s|
  {
    i == |s| ||
    (!IsSymbolMarker(s[i]) &&
     (i + 3 > |s| || !IsCodeTriple(UpperAscii(s[i]), UpperAscii(s[i + 1]), UpperAscii(s[i + 2]))))
  }

  lemma CodeAtTriple(s: string, i: nat)
    requires i + 3 <= |s|
    ensures CodeAt(s, i) ==> IsCodeTriple(UpperAscii(s[i]), UpperAscii(s[i + 1]), UpperAscii(s[i + 2]))
  {
    var w := [UpperAscii(s[i]), UpperAscii(s[i + 1]), UpperAscii(s[i + 2])];
    assert w in CurrencyCodes ==>
      w == "PHP" || w == "USD" || w == "EUR" || w == "GBP" || w == "JPY" || w == "INR";
    assert w in CurrencyCodes ==> IsCodeTriple(w[0], w[1], w[2]);
  }

  lemma NoMarkerHere(s: string, i: nat)
    requires i <= |s| && NoMarkerStart(s, i)
    ensures MarkerLen(s, i) == 0
  {
    if i + 3 <= |s| {
      CodeAtTriple(s, i);
    }
  }

  /** No match starts at `i`: either no marker is there and it is not a
      digit, or the numeral starting there is followed by no marker. */
  predicate NoStartAt(s: string, i: nat)
    requires i < |s|
  {
    if IsDigit(s[i]) then NoMarkerStart(s, SkipSpaces(s, NumberEnd(s, i)))
    else NoMarkerStart(s, i)
  }

  lemma NoStartHere(s: string, i: nat)
    requires i < |s| && NoStartAt(s, i)
    ensures Matches(s, i) == Matches(s, i + 1)
  {
    if IsDigit(s[i]) {
      DigitStartsNoMarker(s, i);
      NoMarkerHere(s, SkipSpaces(s, NumberEnd(s, i)));
    } else {
      NoMarkerHere(s, i);
    }
  }

  /** The upper-cased character begins one of the currency codes. */
  predicate IsCodeInitial(c: char) {
    c == 'P' || c == 'U' || c == 'E' || c == 'G' || c == 'J' || c == 'I'
  }

  /** A character that is no symbol and begins no code starts no marker. */
  lemma PlainHere(s: string, i: nat)
    requires i < |s| && !IsSymbolMarker(s[i]) && !IsCodeInitial(UpperAscii(s[i]))
    ensures NoMarkerStart(s, i)
  {
  }

  /** Three characters that spell no code start no marker. */
  lemma NoTripleHere(s: string, i: nat)
    requires i + 3 <= |s| && !IsSymbolMarker(s[i])
    requires !IsCodeTriple(UpperAscii(s[i]), UpperAscii(s[i + 1]), UpperAscii(s[i + 2]))
    ensures NoMarkerStart(s, i)
  {
  }

  /** Fewer than three characters before the end start no code. */
  lemma ShortHere(s: string, i: nat)
    requires i < |s| < i + 3 && !IsSymbolMarker(s[i])
    ensures NoMarkerStart(s, i)
  {
  }

  /** No match starts anywhere in `[i, j)`. */
  predicate Skippable(s: string, i: nat, j: nat)
    requires i <= j <= |s|
    decreases j - i
  {
    i == j || (NoStartAt(s, i) && Skippable(s, i + 1, j))
  }

  lemma {:induction false} SkipRun(s: string, i: nat, j: nat)
    requires i <= j <= |s| && Skippable(s, i, j)
    ensures Matches(s, i) == Matches(s, j)
    decreases j - i
  {
    if i < j {
      NoStartHere(s, i);
      SkipRun(s, i + 1, j);
    }
  }

  lemma TakePosition(s: string, i: nat, j: nat)
    requires i < |s| && MatchAt(s, i) == Some(j)
    ensures Matches(s, i) == [Span(i, j)] + Matches(s, j)
  {
  }

  /** `s` is "Price: $50.00 and 1,200 PHP", character by character. */
  predicate ExampleTwoPricesText(s: string) {
    |s| == 27 && s[0] == 'P' && s[1] == 'r' && s[2] == 'i' && s[3] == 'c' && s[4] == 'e'
    && s[5] == ':' && s[6] == ' ' && s[7] == '$' && s[8] == '5' && s[9] == '0' && s[10] == '.'
    && s[11] == '0' && s[12] == '0' && s[13] == ' ' && s[14] == 'a' && s[15] == 'n' && s[16] == 'd'
    && s[17] == ' ' && s[18] == '1' && s[19] == ',' && s[20] == '2' && s[21] == '0' && s[22] == '0'
    && s[23] == ' ' && s[24] == 'P' && s[25] == 'H' && s[26] == 'P'
  }

  lemma ExampleTwoPricesSkip0(s: string)
    requires ExampleTwoPricesText(s)
    ensures Matches(s, 0) == Matches(s, 6)
  {
    NoTripleHere(s, 0);
    PlainHere(s, 1);
    NoTripleHere(s, 2);
    PlainHere(s, 3);
    NoTripleHere(s, 4);
    PlainHere(s, 5);
    assert Skippable(s, 5, 6);
    assert Skippable(s, 4, 6);
    assert Skippable(s, 3, 6);
    assert Skippable(s, 2, 6);
    assert Skippable(s, 1, 6);
    assert Skippable(s, 0, 6);
    SkipRun(s, 0, 6);
  }

  lemma ExampleTwoPricesSkip6(s: string)
    requires ExampleTwoPricesText(s)
    ensures Matches(s, 6) == Matches(s, 7)
  {
    PlainHere(s, 6);
    assert Skippable(s, 6, 7);
    SkipRun(s, 6, 7);
  }

  lemma ExampleTwoPricesMatch7(s: string)
    requires ExampleTwoPricesText(s)
    ensures MatchAt(s, 7) == Some(13)
  {
    assert MarkerLen(s, 7) == 1;
    assert SkipSpaces(s, 8) == 8;
    assert SkipDigits(s, 10) == 10;
    assert SkipDigits(s, 9) == 10;
    assert SkipDigits(s, 8) == 10;
    assert GroupsEnd(s, 10) == 10;
    assert FractionEnd(s, 10) == 13;
  }

  lemma ExampleTwoPricesSkip13(s: string)
    requires ExampleTwoPricesText(s)
    ensures Matches(s, 13) == Matches(s, 18)
  {
    PlainHere(s, 13);
    PlainHere(s, 14);
    PlainHere(s, 15);
    PlainHere(s, 16);
    PlainHere(s, 17);
    assert Skippable(s, 17, 18);
    assert Skippable(s, 16, 18);
    assert Skippable(s, 15, 18);
    assert Skippable(s, 14, 18);
    assert Skippable(s, 13, 18);
    SkipRun(s, 13, 18);
  }

  lemma ExampleTwoPricesMatch18(s: string)
    requires ExampleTwoPricesText(s)
    ensures MatchAt(s, 18) == Some(27)
  {
    assert SkipDigits(s, 19) == 19;
    assert SkipDigits(s, 18) == 19;
    assert GroupsEnd(s, 23) == 23;
    assert GroupsEnd(s, 19) == 23;
    assert FractionEnd(s, 23) == 23;
    assert SkipSpaces(s, 23) == 24;
    assert MarkerLen(s, 24) == 3;
    DigitStartsNoMarker(s, 18);
  }

  lemma ExampleTwoPricesScan(s: string)
    requires ExampleTwoPricesText(s)
    ensures Matches(s, 0) == [Span(7, 13), Span(18, 27)]
  {
    ExampleTwoPricesSkip0(s);
    ExampleTwoPricesSkip6(s);
    ExampleTwoPricesMatch7(s);
    TakePosition(s, 7, 13);
    ExampleTwoPricesSkip13(s);
    ExampleTwoPricesMatch18(s);
    TakePosition(s, 18, 27);
  }

  lemma ExampleTwoPricesSlices(s: string)
    requires ExampleTwoPricesText(s)
    ensures FindAll(s) == ["$50.00", "1,200 PHP"]
  {
    ExampleTwoPricesScan(s);
    assert FindAll(s) == [s[7..13], s[18..27]];
    assert s[7..13] == "$50.00";
    assert s[18..27] == "1,200 PHP";
  }

  lemma ExampleTwoPricesTokens(s: string)
    requires s == "Price: $50.00 and 1,200 PHP"
    ensures FindAll(s) == ["$50.00", "1,200 PHP"]
  {
    assert ExampleTwoPricesText(s);
    ExampleTwoPricesSlices(s);
  }

  /** A symbol-prefixed price and a code-suffixed price with a thousands group. */
  lemma ExampleTwoPrices(s: string)
    requires s == "Price: $50.00 and 1,200 PHP"
    ensures ExtractPrices(s) == "$50.00 | 1,200 PHP"
  {
    ExampleTwoPricesTokens(s);
    assert Join(["$50.00", "1,200 PHP"], " | ") == "$50.00 | 1,200 PHP";
  }

  /** `s` is "Room 50B, item 123", character by character. */
  predicate ExampleNoPriceText(s: string) {
    |s| == 18 && s[0] == 'R' && s[1] == 'o' && s[2] == 'o' && s[3] == 'm' && s[4] == ' '
    && s[5] == '5' && s[6] == '0' && s[7] == 'B' && s[8] == ',' && s[9] == ' ' && s[10] == 'i'
    && s[11] == 't' && s[12] == 'e' && s[13] == 'm' && s[14] == ' ' && s[15] == '1' && s[16] == '2'
    && s[17] == '3'
  }

  lemma ExampleNoPriceSkip0(s: string)
    requires ExampleNoPriceText(s)
    ensures Matches(s, 0) == Matches(s, 6)
  {
    PlainHere(s, 0);
    PlainHere(s, 1);
    PlainHere(s, 2);
    PlainHere(s, 3);
    PlainHere(s, 4);
    assert SkipDigits(s, 7) == 7;
    assert SkipDigits(s, 6) == 7;
    assert SkipDigits(s, 5) == 7;
    assert GroupsEnd(s, 7) == 7;
    assert FractionEnd(s, 7) == 7;
    assert NumberEnd(s, 5) == 7;
    assert SkipSpaces(s, 7) == 7;
    PlainHere(s, 7);
    assert Skippable(s, 5, 6);
    assert Skippable(s, 4, 6);
    assert Skippable(s, 3, 6);
    assert Skippable(s, 2, 6);
    assert Skippable(s, 1, 6);
    assert Skippable(s, 0, 6);
    SkipRun(s, 0, 6);
  }

  lemma ExampleNoPriceSkip6(s: string)
    requires ExampleNoPriceText(s)
    ensures Matches(s, 6) == Matches(s, 12)
  {
    assert SkipDigits(s, 7) == 7;
    assert SkipDigits(s, 6) == 7;
    assert GroupsEnd(s, 7) == 7;
    assert FractionEnd(s, 7) == 7;
    assert NumberEnd(s, 6) == 7;
    assert SkipSpaces(s, 7) == 7;
    PlainHere(s, 7);
    PlainHere(s, 8);
    PlainHere(s, 9);
    NoTripleHere(s, 10);
    PlainHere(s, 11);
    assert Skippable(s, 11, 12);
    assert Skippable(s, 10, 12);
    assert Skippable(s, 9, 12);
    assert Skippable(s, 8, 12);
    assert Skippable(s, 7, 12);
    assert Skippable(s, 6, 12);
    SkipRun(s, 6, 12);
  }

  lemma ExampleNoPriceSkip12(s: string)
    requires ExampleNoPriceText(s)
    ensures Matches(s, 12) == Matches(s, 18)
  {
    NoTripleHere(s, 12);
    PlainHere(s, 13);
    PlainHere(s, 14);
    assert SkipDigits(s, 18) == 18;
    assert SkipDigits(s, 17) == 18;
    assert SkipDigits(s, 16) == 18;
    assert SkipDigits(s, 15) == 18;
    assert GroupsEnd(s, 18) == 18;
    assert FractionEnd(s, 18) == 18;
    assert NumberEnd(s, 15) == 18;
    assert SkipSpaces(s, 18) == 18;
    assert NumberEnd(s, 16) == 18;
    assert NumberEnd(s, 17) == 18;
    assert Skippable(s, 17, 18);
    assert Skippable(s, 16, 18);
    assert Skippable(s, 15, 18);
    assert Skippable(s, 14, 18);
    assert Skippable(s, 13, 18);
    assert Skippable(s, 12, 18);
    SkipRun(s, 12, 18);
  }

  lemma ExampleNoPriceScan(s: string)
    requires ExampleNoPriceText(s)
    ensures Matches(s, 0) == []
  {
    ExampleNoPriceSkip0(s);
    ExampleNoPriceSkip6(s);
    ExampleNoPriceSkip12(s);
  }

  /** A number followed by a letter that starts no code, and a bare number, are not prices. */
  lemma ExampleNoPrice(s: string)
    requires s == "Room 50B, item 123"
    ensures ExtractPrices(s) == ""
  {
    assert ExampleNoPriceText(s);
    ExampleNoPriceScan(s);
  }

  /** `s` is "12.345 USD", character by character. */
  predicate ExampleSplitDecimalText(s: string) {
    |s| == 10 && s[0] == '1' && s[1] == '2' && s[2] == '.' && s[3] == '3' && s[4] == '4'
    && s[5] == '5' && s[6] == ' ' && s[7] == 'U' && s[8] == 'S' && s[9] == 'D'
  }

  lemma ExampleSplitDecimalSkip0(s: string)
    requires ExampleSplitDecimalText(s)
    ensures Matches(s, 0) == Matches(s, 3)
  {
    assert SkipDigits(s, 2) == 2;
    assert SkipDigits(s, 1) == 2;
    assert SkipDigits(s, 0) == 2;
    assert GroupsEnd(s, 2) == 2;
    assert FractionEnd(s, 2) == 5;
    assert NumberEnd(s, 0) == 5;
    assert SkipSpaces(s, 5) == 5;
    PlainHere(s, 5);
    assert NumberEnd(s, 1) == 5;
    PlainHere(s, 2);
    assert Skippable(s, 2, 3);
    assert Skippable(s, 1, 3);
    assert Skippable(s, 0, 3);
    SkipRun(s, 0, 3);
  }

  lemma ExampleSplitDecimalMatch3(s: string)
    requires ExampleSplitDecimalText(s)
    ensures MatchAt(s, 3) == Some(10)
  {
    assert SkipDigits(s, 6) == 6;
    assert SkipDigits(s, 5) == 6;
    assert SkipDigits(s, 4) == 6;
    assert SkipDigits(s, 3) == 6;
    assert GroupsEnd(s, 6) == 6;
    assert FractionEnd(s, 6) == 6;
    assert SkipSpaces(s, 6) == 7;
    assert MarkerLen(s, 7) == 3;
    DigitStartsNoMarker(s, 3);
  }

  lemma ExampleSplitDecimalScan(s: string)
    requires ExampleSplitDecimalText(s)
    ensures Matches(s, 0) == [Span(3, 10)]
  {
    ExampleSplitDecimalSkip0(s);
    ExampleSplitDecimalMatch3(s);
    TakePosition(s, 3, 10);
  }

  lemma ExampleSplitDecimalSlices(s: string)
    requires ExampleSplitDecimalText(s)
    ensures FindAll(s) == ["345 USD"]
  {
    ExampleSplitDecimalScan(s);
    assert FindAll(s) == [s[3..10]];
    assert s[3..10] == "345 USD";
  }

  lemma ExampleSplitDecimalTokens(s: string)
    requires s == "12.345 USD"
    ensures FindAll(s) == ["345 USD"]
  {
    assert ExampleSplitDecimalText(s);
    ExampleSplitDecimalSlices(s);
  }

  /** The match cannot start inside `12.34` because `5` follows the fraction, so it starts at the `3`. */
  lemma ExampleSplitDecimal(s: string)
    requires s == "12.345 USD"
    ensures ExtractPrices(s) == "345 USD"
  {
    ExampleSplitDecimalTokens(s);
    assert Join(["345 USD"], " | ") == "345 USD";
  }

  /** `s` is "php 1,000.50", character by character. */
  predicate ExampleLowerCaseCodeText(s: string) {
    |s| == 12 && s[0] == 'p' && s[1] == 'h' && s[2] == 'p' && s[3] == ' ' && s[4] == '1'
    && s[5] == ',' && s[6] == '0' && s[7] == '0' && s[8] == '0' && s[9] == '.' && s[10] == '5'
    && s[11] == '0'
  }

  lemma ExampleLowerCaseCodeMatch0(s: string)
    requires ExampleLowerCaseCodeText(s)
    ensures MatchAt(s, 0) == Some(12)
  {
    assert MarkerLen(s, 0) == 3;
    assert SkipSpaces(s, 3) == 4;
    assert SkipDigits(s, 5) == 5;
    assert SkipDigits(s, 4) == 5;
    assert GroupsEnd(s, 9) == 9;
    assert GroupsEnd(s, 5) == 9;
    assert FractionEnd(s, 9) == 12;
  }

  lemma ExampleLowerCaseCodeScan(s: string)
    requires ExampleLowerCaseCodeText(s)
    ensures Matches(s, 0) == [Span(0, 12)]
  {
    ExampleLowerCaseCodeMatch0(s);
    TakePosition(s, 0, 12);
  }

  lemma ExampleLowerCaseCodeSlices(s: string)
    requires ExampleLowerCaseCodeText(s)
    ensures FindAll(s) == ["php 1,000.50"]
  {
    ExampleLowerCaseCodeScan(s);
    assert FindAll(s) == [s[0..12]];
    assert s[0..12] == "php 1,000.50";
  }

  lemma ExampleLowerCaseCodeTokens(s: string)
    requires s == "php 1,000.50"
    ensures FindAll(s) == ["php 1,000.50"]
  {
    assert ExampleLowerCaseCodeText(s);
    ExampleLowerCaseCodeSlices(s);
  }

  /** Codes match in any case. */
  lemma ExampleLowerCaseCode(s: string)
    requires s == "php 1,000.50"
    ensures ExtractPrices(s) == "php 1,000.50"
  {
    ExampleLowerCaseCodeTokens(s);
    assert Join(["php 1,000.50"], " | ") == "php 1,000.50";
  }

  /** `s` is "Red Shirt $10", character by character. */
  predicate ExampleMarkupPriceText(s: string) {
    |s| == 13 && s[0] == 'R' && s[1] == 'e' && s[2] == 'd' && s[3] == ' ' && s[4] == 'S'
    && s[5] == 'h' && s[6] == 'i' && s[7] == 'r' && s[8] == 't' && s[9] == ' ' && s[10] == '$'
    && s[11] == '1' && s[12] == '0'
  }

  lemma ExampleMarkupPriceSkip0(s: string)
    requires ExampleMarkupPriceText(s)
    ensures Matches(s, 0) == Matches(s, 6)
  {
    PlainHere(s, 0);
    NoTripleHere(s, 1);
    PlainHere(s, 2);
    PlainHere(s, 3);
    PlainHere(s, 4);
    PlainHere(s, 5);
    assert Skippable(s, 5, 6);
    assert Skippable(s, 4, 6);
    assert Skippable(s, 3, 6);
    assert Skippable(s, 2, 6);
    assert Skippable(s, 1, 6);
    assert Skippable(s, 0, 6);
    SkipRun(s, 0, 6);
  }

  lemma ExampleMarkupPriceSkip6(s: string)
    requires ExampleMarkupPriceText(s)
    ensures Matches(s, 6) == Matches(s, 10)
  {
    NoTripleHere(s, 6);
    PlainHere(s, 7);
    PlainHere(s, 8);
    PlainHere(s, 9);
    assert Skippable(s, 9, 10);
    assert Skippable(s, 8, 10);
    assert Skippable(s, 7, 10);
    assert Skippable(s, 6, 10);
    SkipRun(s, 6, 10);
  }

  lemma ExampleMarkupPriceMatch10(s: string)
    requires ExampleMarkupPriceText(s)
    ensures MatchAt(s, 10) == Some(13)
  {
    assert MarkerLen(s, 10) == 1;
    assert SkipSpaces(s, 11) == 11;
    assert SkipDigits(s, 13) == 13;
    assert SkipDigits(s, 12) == 13;
    assert SkipDigits(s, 11) == 13;
    assert GroupsEnd(s, 13) == 13;
    assert FractionEnd(s, 13) == 13;
  }

  lemma ExampleMarkupPriceScan(s: string)
    requires ExampleMarkupPriceText(s)
    ensures Matches(s, 0) == [Span(10, 13)]
  {
    ExampleMarkupPriceSkip0(s);
    ExampleMarkupPriceSkip6(s);
    ExampleMarkupPriceMatch10(s);
    TakePosition(s, 10, 13);
  }

  lemma ExampleMarkupPriceSlices(s: string)
    requires ExampleMarkupPriceText(s)
    ensures FindAll(s) == ["$10"]
  {
    ExampleMarkupPriceScan(s);
    assert FindAll(s) == [s[10..13]];
    assert s[10..13] == "$10";
  }

  lemma ExampleMarkupPriceTokens(s: string)
    requires s == "Red Shirt $10"
    ensures FindAll(s) == ["$10"]
  {
    assert ExampleMarkupPriceText(s);
    ExampleMarkupPriceSlices(s);
  }

  /** A symbol before the number. */
  lemma ExampleMarkupPrice(s: string)
    requires s == "Red Shirt $10"
    ensures ExtractPrices(s) == "$10"
  {
    ExampleMarkupPriceTokens(s);
    assert Join(["$10"], " | ") == "$10";
  }

  /** `s` is "Red shirt, priced at 10 USD", character by character. */
  predicate ExampleDescriptionPriceText(s: string) {
    |s| == 27 && s[0] == 'R' && s[1] == 'e' && s[2] == 'd' && s[3] == ' ' && s[4] == 's'
    && s[5] == 'h' && s[6] == 'i' && s[7] == 'r' && s[8] == 't' && s[9] == ',' && s[10] == ' '
    && s[11] == 'p' && s[12] == 'r' && s[13] == 'i' && s[14] == 'c' && s[15] == 'e' && s[16] == 'd'
    && s[17] == ' ' && s[18] == 'a' && s[19] == 't' && s[20] == ' ' && s[21] == '1' && s[22] == '0'
    && s[23] == ' ' && s[24] == 'U' && s[25] == 'S' && s[26] == 'D'
  }

  lemma ExampleDescriptionPriceSkip0(s: string)
    requires ExampleDescriptionPriceText(s)
    ensures Matches(s, 0) == Matches(s, 6)
  {
    PlainHere(s, 0);
    NoTripleHere(s, 1);
    PlainHere(s, 2);
    PlainHere(s, 3);
    PlainHere(s, 4);
    PlainHere(s, 5);
    assert Skippable(s, 5, 6);
    assert Skippable(s, 4, 6);
    assert Skippable(s, 3, 6);
    assert Skippable(s, 2, 6);
    assert Skippable(s, 1, 6);
    assert Skippable(s, 0, 6);
    SkipRun(s, 0, 6);
  }

  lemma ExampleDescriptionPriceSkip6(s: string)
    requires ExampleDescriptionPriceText(s)
    ensures Matches(s, 6) == Matches(s, 12)
  {
    NoTripleHere(s, 6);
    PlainHere(s, 7);
    PlainHere(s, 8);
    PlainHere(s, 9);
    PlainHere(s, 10);
    NoTripleHere(s, 11);
    assert Skippable(s, 11, 12);
    assert Skippable(s, 10, 12);
    assert Skippable(s, 9, 12);
    assert Skippable(s, 8, 12);
    assert Skippable(s, 7, 12);
    assert Skippable(s, 6, 12);
    SkipRun(s, 6, 12);
  }

  lemma ExampleDescriptionPriceSkip12(s: string)
    requires ExampleDescriptionPriceText(s)
    ensures Matches(s, 12) == Matches(s, 18)
  {
    PlainHere(s, 12);
    NoTripleHere(s, 13);
    PlainHere(s, 14);
    NoTripleHere(s, 15);
    PlainHere(s, 16);
    PlainHere(s, 17);
    assert Skippable(s, 17, 18);
    assert Skippable(s, 16, 18);
    assert Skippable(s, 15, 18);
    assert Skippable(s, 14, 18);
    assert Skippable(s, 13, 18);
    assert Skippable(s, 12, 18);
    SkipRun(s, 12, 18);
  }

  lemma ExampleDescriptionPriceSkip18(s: string)
    requires ExampleDescriptionPriceText(s)
    ensures Matches(s, 18) == Matches(s, 21)
  {
    PlainHere(s, 18);
    PlainHere(s, 19);
    PlainHere(s, 20);
    assert Skippable(s, 20, 21);
    assert Skippable(s, 19, 21);
    assert Skippable(s, 18, 21);
    SkipRun(s, 18, 21);
  }

  lemma ExampleDescriptionPriceMatch21(s: string)
    requires ExampleDescriptionPriceText(s)
    ensures MatchAt(s, 21) == Some(27)
  {
    assert SkipDigits(s, 23) == 23;
    assert SkipDigits(s, 22) == 23;
    assert SkipDigits(s, 21) == 23;
    assert GroupsEnd(s, 23) == 23;
    assert FractionEnd(s, 23) == 23;
    assert SkipSpaces(s, 23) == 24;
    assert MarkerLen(s, 24) == 3;
    DigitStartsNoMarker(s, 21);
  }

  lemma ExampleDescriptionPriceScan(s: string)
    requires ExampleDescriptionPriceText(s)
    ensures Matches(s, 0) == [Span(21, 27)]
  {
    ExampleDescriptionPriceSkip0(s);
    ExampleDescriptionPriceSkip6(s);
    ExampleDescriptionPriceSkip12(s);
    ExampleDescriptionPriceSkip18(s);
    ExampleDescriptionPriceMatch21(s);
    TakePosition(s, 21, 27);
  }

  lemma ExampleDescriptionPriceSlices(s: string)
    requires ExampleDescriptionPriceText(s)
    ensures FindAll(s) == ["10 USD"]
  {
    ExampleDescriptionPriceScan(s);
    assert FindAll(s) == [s[21..27]];
    assert s[21..27] == "10 USD";
  }

  lemma ExampleDescriptionPriceTokens(s: string)
    requires s == "Red shirt, priced at 10 USD"
    ensures FindAll(s) == ["10 USD"]
  {
    assert ExampleDescriptionPriceText(s);
    ExampleDescriptionPriceSlices(s);
  }

  /** A code after the number and a space. */
  lemma ExampleDescriptionPrice(s: string)
    requires s == "Red shirt, priced at 10 USD"
    ensures ExtractPrices(s) == "10 USD"
  {
    ExampleDescriptionPriceTokens(s);
    assert Join(["10 USD"], " | ") == "10 USD";
  }
}
