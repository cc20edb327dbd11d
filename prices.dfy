/** `extract_prices`: the currency-token scanner.

    The source applies one fixed regular expression with `re.findall` and
    `re.IGNORECASE` and joins the matches with `" | "`. A token has one of
    two shapes,

        marker \s* numeral        or        numeral \s* marker

    where a numeral is `\d+(,\d{3})*(\.\d{2})?` and a marker is one of the
    symbols `$ ₱ £ € ¥ ₹` or one of the codes `PHP USD EUR GBP JPY INR`.

    The module gives the pattern twice: as the language it denotes
    (`PriceTokenIn`, existentially quantified over the split points) and as
    a hand-written greedy scanner (`MatchAt`). `MatchAtIsLongestMatch`
    proves that at every position the scanner returns the longest match of
    the language, which is what Python's backtracking matcher returns here:
    the two alternatives begin with disjoint characters (a marker or a
    digit), every quantifier is greedy, and no marker character is a digit,
    `,`, `.` or white space, so no backtracking into a quantifier can ever
    succeed where the greedy choice failed. `re.findall` semantics
    (leftmost match, resume after it) is the predicate `IsFindAll`. */
module Prices {

  import opened Wrappers
  import opened Text

  // ---------------------------------------------------------------------
  // The pattern as a language over positions of `s`

  /** The one-character markers `$ ₱ £ € ¥ ₹`. */
  predicate IsSymbolMarker(c: char) {
    c == '$' || c == '\U{20B1}' || c == '\U{A3}' || c == '\U{20AC}' || c == '\U{A5}' || c == '\U{20B9}'
  }

  /** ASCII upper-casing: the case folding `re.IGNORECASE` is given here. */
  function UpperAscii(c: char): char {
    if 'a' <= c <= 'z' then (c as int - 32) as char else c
  }

  const CurrencyCodes: seq<string> := ["PHP", "USD", "EUR", "GBP", "JPY", "INR"]

  /** `s[i..i+3]` spells one of the currency codes, ignoring case. */
  predicate CodeAt(s: string, i: nat) {
    i + 3 <= |s| && [UpperAscii(s[i]), UpperAscii(s[i + 1]), UpperAscii(s[i + 2])] in CurrencyCodes
  }

  /** The marker alternative matches exactly `s[i..j]`. */
  predicate MarkerIn(s: string, i: nat, j: nat) {
    (j == i + 1 && j <= |s| && IsSymbolMarker(s[i])) || (j == i + 3 && CodeAt(s, i))
  }

  predicate AllSpaces(s: string, i: nat, j: nat)
    requires i <= j <= |s|
  {
    forall k :: i <= k < j ==> IsSpace(s[k])
  }

  predicate AllDigits(s: string, i: nat, j: nat)
    requires i <= j <= |s|
  {
    forall k :: i <= k < j ==> IsDigit(s[k])
  }

  /** `(,\d{3})*` matches exactly `s[i..j]`. */
  predicate GroupsIn(s: string, i: nat, j: nat)
    requires i <= j <= |s|
    decreases j - i
  {
    i == j || (i + 4 <= j && s[i] == ',' && AllDigits(s, i + 1, i + 4) && GroupsIn(s, i + 4, j))
  }

  /** `(\.\d{2})?` matches exactly `s[i..j]`. */
  predicate FractionIn(s: string, i: nat, j: nat)
    requires i <= j <= |s|
  {
    j == i || (j == i + 3 && s[i] == '.' && AllDigits(s, i + 1, j))
  }

  /** `\d+(,\d{3})*(\.\d{2})?` matches exactly `s[i..j]`. */
  ghost predicate NumeralIn(s: string, i: nat, j: nat)
    requires i <= j <= |s|
  {
    exists a: nat, b: nat :: i < a <= b <= j && AllDigits(s, i, a) && GroupsIn(s, a, b) && FractionIn(s, b, j)
  }

  /** marker \s* numeral matches exactly `s[i..j]`. */
  ghost predicate PrefixTokenIn(s: string, i: nat, j: nat)
    requires i <= j <= |s|
  {
    exists a: nat, b: nat :: i < a <= b < j && MarkerIn(s, i, a) && AllSpaces(s, a, b) && NumeralIn(s, b, j)
  }

  /** numeral \s* marker matches exactly `s[i..j]`. */
  ghost predicate SuffixTokenIn(s: string, i: nat, j: nat)
    requires i <= j <= |s|
  {
    exists a: nat, b: nat :: i < a <= b < j && NumeralIn(s, i, a) && AllSpaces(s, a, b) && MarkerIn(s, b, j)
  }

  /** The whole pattern matches exactly `s[i..j]`. The pattern has no anchors
      or look-arounds, so this does not depend on the text around `s[i..j]`. */
  ghost predicate PriceTokenIn(s: string, i: nat, j: nat)
    requires i <= j <= |s|
  {
    PrefixTokenIn(s, i, j) || SuffixTokenIn(s, i, j)
  }

  /** The match the pattern makes when tried at position `i` ends at `j`. */
  ghost predicate LongestMatchAt(s: string, i: nat, j: nat) {
    && i < j <= |s|
    && PriceTokenIn(s, i, j)
    && forall j': nat :: i < j' <= |s| && PriceTokenIn(s, i, j') ==> j' <= j
  }

  /** The pattern does not match at position `i`. */
  ghost predicate NoMatchAt(s: string, i: nat) {
    forall j: nat :: i < j <= |s| ==> !PriceTokenIn(s, i, j)
  }

  datatype Span = Span(lo: nat, hi: nat)

  /** `spans` is what `re.findall` collects scanning `s` from position `i`:
      the leftmost match, then the matches from the point where it ends. */
  ghost predicate IsFindAll(s: string, i: nat, spans: seq<Span>)
    decreases |spans|
  {
    if spans == [] then
      forall p: nat :: i <= p < |s| ==> NoMatchAt(s, p)
    else
      && i <= spans[0].lo
      && (forall p: nat :: i <= p < spans[0].lo ==> NoMatchAt(s, p))
      && LongestMatchAt(s, spans[0].lo, spans[0].hi)
      && IsFindAll(s, spans[0].hi, spans[1..])
  }

  // ---------------------------------------------------------------------
  // The scanner

  /** Length of the marker at `i`, or 0 if none starts there. */
  function MarkerLen(s: string, i: nat): (m: nat)
    requires i <= |s|
    ensures m != 0 ==> MarkerIn(s, i, i + m)
    ensures forall j: nat :: MarkerIn(s, i, j) ==> j == i + m
  {
    if i < |s| && IsSymbolMarker(s[i]) then 1
    else if CodeAt(s, i) then 3
    else 0
  }

  function SkipSpaces(s: string, i: nat): (k: nat)
    requires i <= |s|
    ensures i <= k <= |s| && AllSpaces(s, i, k)
    ensures k < |s| ==> !IsSpace(s[k])
    ensures forall j: nat :: k < j <= |s| ==> !AllSpaces(s, i, j)
    decreases |s| - i
  {
    if i < |s| && IsSpace(s[i]) then SkipSpaces(s, i + 1) else i
  }

  function SkipDigits(s: string, i: nat): (k: nat)
    requires i <= |s|
    ensures i <= k <= |s| && AllDigits(s, i, k)
    ensures k < |s| ==> !IsDigit(s[k])
    ensures forall j: nat :: k < j <= |s| ==> !AllDigits(s, i, j)
    decreases |s| - i
  {
    if i < |s| && IsDigit(s[i]) then SkipDigits(s, i + 1) else i
  }

  function GroupsEnd(s: string, i: nat): (k: nat)
    requires i <= |s|
    ensures i <= k <= |s| && GroupsIn(s, i, k)
    decreases |s| - i
  {
    if i + 4 <= |s| && s[i] == ',' && AllDigits(s, i + 1, i + 4) then GroupsEnd(s, i + 4) else i
  }

  function FractionEnd(s: string, i: nat): (k: nat)
    requires i <= |s|
    ensures i <= k <= |s| && FractionIn(s, i, k)
  {
    if i + 3 <= |s| && s[i] == '.' && AllDigits(s, i + 1, i + 3) then i + 3 else i
  }

  /** End of the greedy numeral that starts at the digit `s[i]`. */
  function NumberEnd(s: string, i: nat): (e: nat)
    requires i < |s| && IsDigit(s[i])
    ensures i < e <= |s| && NumeralIn(s, i, e)
  {
    var d := SkipDigits(s, i);
    var g := GroupsEnd(s, d);
    var f := FractionEnd(s, g);
    assert AllDigits(s, i, d) && GroupsIn(s, d, g) && FractionIn(s, g, f);
    f
  }

  /** The prefix shape tried at `i`: marker, spaces, numeral. */
  function PrefixAt(s: string, i: nat): (r: Option<nat>)
    requires i <= |s|
    ensures r.Some? ==> i < r.value <= |s| && PrefixTokenIn(s, i, r.value)
  {
    var m := MarkerLen(s, i);
    if m == 0 then None
    else
      var k := SkipSpaces(s, i + m);
      if k < |s| && IsDigit(s[k]) then
        var e := NumberEnd(s, k);
        assert MarkerIn(s, i, i + m) && AllSpaces(s, i + m, k) && NumeralIn(s, k, e);
        Some(e)
      else None
  }

  /** The suffix shape tried at `i`: numeral, spaces, marker. */
  function SuffixAt(s: string, i: nat): (r: Option<nat>)
    requires i <= |s|
    ensures r.Some? ==> i < r.value <= |s| && SuffixTokenIn(s, i, r.value)
  {
    if i < |s| && IsDigit(s[i]) then
      var e := NumberEnd(s, i);
      var k := SkipSpaces(s, e);
      var m := MarkerLen(s, k);
      if m > 0 then
        assert NumeralIn(s, i, e) && AllSpaces(s, e, k) && MarkerIn(s, k, k + m);
        Some(k + m)
      else None
    else None
  }

  /** The pattern tried at `i`: the prefix alternative first, then the suffix one. */
  function MatchAt(s: string, i: nat): (r: Option<nat>)
    requires i < |s|
    ensures r.Some? ==> i < r.value <= |s| && PriceTokenIn(s, i, r.value)
  {
    match PrefixAt(s, i)
    case Some(j) => Some(j)
    case None => SuffixAt(s, i)
  }

  /** The scan of `re.findall` from position `i`. */
  function Matches(s: string, i: nat): (spans: seq<Span>)
    requires i <= |s|
    ensures forall k :: 0 <= k < |spans| ==> i <= spans[k].lo < spans[k].hi <= |s|
    decreases |s| - i
  {
    if i == |s| then []
    else match MatchAt(s, i)
      case Some(j) => [Span(i, j)] + Matches(s, j)
      case None => Matches(s, i + 1)
  }

  function Substrings(s: string, spans: seq<Span>): (r: seq<string>)
    requires forall k :: 0 <= k < |spans| ==> spans[k].lo <= spans[k].hi <= |s|
    ensures |r| == |spans|
    ensures forall k :: 0 <= k < |r| ==> r[k] == s[spans[k].lo..spans[k].hi]
  {
    if spans == [] then [] else [s[spans[0].lo..spans[0].hi]] + Substrings(s, spans[1..])
  }

  /** `re.findall(price_pattern, text, re.IGNORECASE)`. */
  function FindAll(text: string): seq<string>
  {
    Substrings(text, Matches(text, 0))
  }

  /** `extract_prices(text)`. */
  function ExtractPrices(text: string): string
  {
    var prices := FindAll(text);
    if |prices| > 0 then Join(prices, " | ") else ""
  }

  // ---------------------------------------------------------------------
  // The scanner finds exactly the pattern's matches

  /** A marker starts with none of the characters a numeral, white space or
      the `" | "` separator consists of. */
  lemma MarkerStart(s: string, i: nat, j: nat)
    requires MarkerIn(s, i, j)
    ensures i < |s| && !IsDigit(s[i]) && !IsSpace(s[i]) && s[i] != ',' && s[i] != '.' && s[i] != '|'
  {
    if !IsSymbolMarker(s[i]) {
      var w := [UpperAscii(s[i]), UpperAscii(s[i + 1]), UpperAscii(s[i + 2])];
      assert w == "PHP" || w == "USD" || w == "EUR" || w == "GBP" || w == "JPY" || w == "INR";
      assert 'A' <= w[0] <= 'Z';
    }
  }

  /** No character of a marker is `|`. */
  lemma MarkerHasNoBar(s: string, i: nat, j: nat)
    requires MarkerIn(s, i, j)
    ensures j <= |s| && forall k :: i <= k < j ==> s[k] != '|'
  {
    if !IsSymbolMarker(s[i]) || j != i + 1 {
      var w := [UpperAscii(s[i]), UpperAscii(s[i + 1]), UpperAscii(s[i + 2])];
      assert w == "PHP" || w == "USD" || w == "EUR" || w == "GBP" || w == "JPY" || w == "INR";
      assert 'A' <= w[0] <= 'Z' && 'A' <= w[1] <= 'Z' && 'A' <= w[2] <= 'Z';
      assert UpperAscii('|') == '|';
    }
  }

  /** A digit starts no marker. */
  lemma DigitStartsNoMarker(s: string, i: nat)
    requires i < |s| && IsDigit(s[i])
    ensures MarkerLen(s, i) == 0
  {
    assert UpperAscii(s[i]) == s[i];
    if i + 3 <= |s| {
      var w := [UpperAscii(s[i]), UpperAscii(s[i + 1]), UpperAscii(s[i + 2])];
      assert w[0] == s[i];
      assert w != "PHP" && w != "USD" && w != "EUR" && w != "GBP" && w != "JPY" && w != "INR";
    }
  }

  /** `GroupsEnd` reaches at least as far as any run of groups, and a shorter
      run stops at a comma. */
  lemma {:induction false} GroupsBound(s: string, d: nat, x: nat)
    requires d <= x <= |s| && GroupsIn(s, d, x)
    ensures x <= GroupsEnd(s, d)
    ensures x < GroupsEnd(s, d) ==> s[x] == ','
    decreases x - d
  {
    if x != d {
      GroupsBound(s, d + 4, x);
    }
  }

  /** The greedy numeral is the longest numeral at `i`, and a shorter one
      stops at a digit, a comma or a point. */
  lemma NumeralBound(s: string, i: nat, e: nat)
    requires i <= e <= |s| && NumeralIn(s, i, e)
    ensures i < e && IsDigit(s[i]) && e <= NumberEnd(s, i)
    ensures e < NumberEnd(s, i) ==> IsDigit(s[e]) || s[e] == ',' || s[e] == '.'
  {
    var a: nat, b: nat :| i < a <= b <= e && AllDigits(s, i, a) && GroupsIn(s, a, b) && FractionIn(s, b, e);
    var d := SkipDigits(s, i);
    var g := GroupsEnd(s, d);
    assert IsDigit(s[i]);
    assert a <= d;
    if a < d {
      assert IsDigit(s[a]);
      assert b == a && e == b;
    } else {
      GroupsBound(s, d, b);
      if b < g {
        assert s[b] == ',';
        assert e == b;
      }
    }
  }

  /** A marker, white space and then a digit: `PrefixAt` reads a numeral there. */
  lemma PrefixAtDigit(s: string, i: nat, a: nat, b: nat)
    requires i < a <= b < |s| && MarkerIn(s, i, a) && AllSpaces(s, a, b) && IsDigit(s[b])
    ensures PrefixAt(s, i) == Some(NumberEnd(s, b))
  {
    assert MarkerLen(s, i) == a - i;
    var k := SkipSpaces(s, a);
    assert b <= k;
    assert !IsSpace(s[b]);
    assert b == k;
  }

  /** Every prefix-shaped match at `i` is found by `PrefixAt`, and is no
      longer than what it returns. */
  lemma PrefixComplete(s: string, i: nat, j: nat)
    requires i <= j <= |s| && PrefixTokenIn(s, i, j)
    ensures !IsDigit(s[i])
    ensures PrefixAt(s, i).Some? && j <= PrefixAt(s, i).value
  {
    var a: nat, b: nat :| i < a <= b < j && MarkerIn(s, i, a) && AllSpaces(s, a, b) && NumeralIn(s, b, j);
    MarkerStart(s, i, a);
    NumeralBound(s, b, j);
    PrefixAtDigit(s, i, a, b);
  }

  /** A greedy numeral, white space and a marker: `SuffixAt` ends after the marker. */
  lemma SuffixAtMarker(s: string, i: nat, b: nat, j: nat)
    requires i < |s| && IsDigit(s[i])
    requires NumberEnd(s, i) <= b <= |s| && AllSpaces(s, NumberEnd(s, i), b) && MarkerIn(s, b, j)
    ensures SuffixAt(s, i) == Some(j)
  {
    MarkerStart(s, b, j);
    var k := SkipSpaces(s, NumberEnd(s, i));
    assert b <= k;
    assert b == k;
    assert MarkerLen(s, k) == j - k;
  }

  /** Every suffix-shaped match at `i` is the one `SuffixAt` returns. */
  lemma SuffixComplete(s: string, i: nat, j: nat)
    requires i <= j <= |s| && SuffixTokenIn(s, i, j)
    ensures IsDigit(s[i]) && SuffixAt(s, i) == Some(j)
  {
    var a: nat, b: nat :| i < a <= b < j && NumeralIn(s, i, a) && AllSpaces(s, a, b) && MarkerIn(s, b, j);
    MarkerStart(s, b, j);
    assert a < b ==> IsSpace(s[a]);
    NumeralEndsAt(s, i, a);
    SuffixAtMarker(s, i, b, j);
  }

  /** A numeral followed by no digit, comma or point ends where the scan of
      the numeral does. */
  lemma NumeralEndsAt(s: string, i: nat, a: nat)
    requires i <= a < |s| && NumeralIn(s, i, a)
    requires !IsDigit(s[a]) && s[a] != ',' && s[a] != '.'
    ensures IsDigit(s[i]) && a == NumberEnd(s, i)
  {
    NumeralBound(s, i, a);
  }

  /** At every position the scanner returns the longest match of the
      pattern, and nothing exactly when the pattern does not match there. */
  lemma MatchAtIsLongestMatch(s: string, i: nat)
    requires i < |s|
    ensures MatchAt(s, i).Some? ==> LongestMatchAt(s, i, MatchAt(s, i).value)
    ensures MatchAt(s, i).None? ==> NoMatchAt(s, i)
  {
    forall j: nat | i < j <= |s| && PriceTokenIn(s, i, j)
      ensures MatchAt(s, i).Some? && j <= MatchAt(s, i).value
    {
      if PrefixTokenIn(s, i, j) {
        PrefixComplete(s, i, j);
      } else {
        SuffixComplete(s, i, j);
        DigitStartsNoMarker(s, i);
      }
    }
  }

  /** A position where the pattern does not match can be skipped. */
  lemma FindAllSkip(s: string, i: nat, spans: seq<Span>)
    requires i < |s| && NoMatchAt(s, i) && IsFindAll(s, i + 1, spans)
    ensures IsFindAll(s, i, spans)
  {
  }

  /** A match at the scan position, then `re.findall` from its end. */
  lemma FindAllTake(s: string, i: nat, j: nat, spans: seq<Span>)
    requires LongestMatchAt(s, i, j) && IsFindAll(s, j, spans)
    ensures IsFindAll(s, i, [Span(i, j)] + spans)
  {
    assert ([Span(i, j)] + spans)[1..] == spans;
  }

  /** A match at the scan position is the first span of the scan. */
  lemma MatchesTake(s: string, i: nat)
    requires i < |s| && MatchAt(s, i).Some?
    requires IsFindAll(s, MatchAt(s, i).value, Matches(s, MatchAt(s, i).value))
    ensures IsFindAll(s, i, Matches(s, i))
  {
    var j := MatchAt(s, i).value;
    MatchAtIsLongestMatch(s, i);
    assert Matches(s, i) == [Span(i, j)] + Matches(s, j);
    FindAllTake(s, i, j, Matches(s, j));
  }

  /** A position where the scanner finds nothing is skipped. */
  lemma MatchesSkip(s: string, i: nat)
    requires i < |s| && MatchAt(s, i).None?
    requires IsFindAll(s, i + 1, Matches(s, i + 1))
    ensures IsFindAll(s, i, Matches(s, i))
  {
    MatchAtIsLongestMatch(s, i);
    assert Matches(s, i) == Matches(s, i + 1);
    FindAllSkip(s, i, Matches(s, i + 1));
  }

  /** Where the scan goes on after position `i`. */
  function NextScan(s: string, i: nat): (k: nat)
    requires i < |s|
    ensures i < k <= |s|
  {
    match MatchAt(s, i)
    case Some(j) => j
    case None => i + 1
  }

  lemma MatchesStep(s: string, i: nat)
    requires i < |s| && IsFindAll(s, NextScan(s, i), Matches(s, NextScan(s, i)))
    ensures IsFindAll(s, i, Matches(s, i))
  {
    if MatchAt(s, i).Some? {
      MatchesTake(s, i);
    } else {
      MatchesSkip(s, i);
    }
  }

  lemma MatchesEnd(s: string)
    ensures IsFindAll(s, |s|, Matches(s, |s|))
  {
    assert Matches(s, |s|) == [];
  }

  /** The scan is `re.findall`'s. */
  lemma {:induction false} MatchesAreFindAll(s: string, i: nat)
    requires i <= |s|
    ensures IsFindAll(s, i, Matches(s, i))
    decreases |s| - i
  {
    if i == |s| {
      MatchesEnd(s);
    } else {
      MatchesAreFindAll(s, NextScan(s, i));
      MatchesStep(s, i);
    }
  }

  /** `IsFindAll` determines the match list. */
  lemma {:induction false} FindAllUnique(s: string, i: nat, x: seq<Span>, y: seq<Span>)
    requires IsFindAll(s, i, x) && IsFindAll(s, i, y)
    ensures x == y
    decreases |x|
  {
    assert x != [] ==> PriceTokenIn(s, x[0].lo, x[0].hi) && i <= x[0].lo < |s|;
    assert y != [] ==> PriceTokenIn(s, y[0].lo, y[0].hi) && i <= y[0].lo < |s|;
    assert x == [] && y != [] ==> NoMatchAt(s, y[0].lo);
    assert y == [] && x != [] ==> NoMatchAt(s, x[0].lo);
    if x != [] && y != [] {
      assert x[0].lo < y[0].lo ==> NoMatchAt(s, x[0].lo);
      assert y[0].lo < x[0].lo ==> NoMatchAt(s, y[0].lo);
      assert x[0].lo == y[0].lo;
      assert x[0].hi == y[0].hi;
      FindAllUnique(s, x[0].hi, x[1..], y[1..]);
      assert x == [x[0]] + x[1..] && y == [y[0]] + y[1..];
    }
  }

  // ---------------------------------------------------------------------
  // What the extracted tokens look like

  lemma {:induction false} GroupsChars(s: string, i: nat, j: nat)
    requires i <= j <= |s| && GroupsIn(s, i, j)
    ensures forall k :: i <= k < j ==> IsDigit(s[k]) || s[k] == ','
    decreases j - i
  {
    if i != j {
      GroupsChars(s, i + 4, j);
    }
  }

  /** A numeral starts with a digit and holds only digits, commas and points. */
  lemma NumeralChars(s: string, i: nat, j: nat)
    requires i <= j <= |s| && NumeralIn(s, i, j)
    ensures i < j && IsDigit(s[i])
    ensures forall k :: i <= k < j ==> IsDigit(s[k]) || s[k] == ',' || s[k] == '.'
  {
    var a: nat, b: nat :| i < a <= b <= j && AllDigits(s, i, a) && GroupsIn(s, a, b) && FractionIn(s, b, j);
    GroupsChars(s, a, b);
  }

  /** A price token holds at least one digit and no `|`. */
  lemma PriceTokenShape(s: string, i: nat, j: nat)
    requires i <= j <= |s| && PriceTokenIn(s, i, j)
    ensures exists k :: i <= k < j && IsDigit(s[k])
    ensures forall k :: i <= k < j ==> s[k] != '|'
  {
    if PrefixTokenIn(s, i, j) {
      var a: nat, b: nat :| i < a <= b < j && MarkerIn(s, i, a) && AllSpaces(s, a, b) && NumeralIn(s, b, j);
      MarkerHasNoBar(s, i, a);
      NumeralChars(s, b, j);
      assert IsDigit(s[b]);
    } else {
      var a: nat, b: nat :| i < a <= b < j && NumeralIn(s, i, a) && AllSpaces(s, a, b) && MarkerIn(s, b, j);
      NumeralChars(s, i, a);
      MarkerHasNoBar(s, b, j);
      assert IsDigit(s[i]);
    }
  }

  /** The spans of an `IsFindAll` list are matches of the pattern, in text
      order and without overlap. */
  lemma {:induction false} FindAllSpans(s: string, i: nat, spans: seq<Span>)
    requires IsFindAll(s, i, spans)
    ensures forall k :: 0 <= k < |spans| ==> i <= spans[k].lo && LongestMatchAt(s, spans[k].lo, spans[k].hi)
    ensures forall k :: 0 <= k < |spans| - 1 ==> spans[k].hi <= spans[k + 1].lo
    decreases |spans|
  {
    if spans != [] {
      FindAllSpans(s, spans[0].hi, spans[1..]);
      assert forall k :: 1 <= k < |spans| ==> spans[k] == spans[1..][k - 1];
    }
  }

  /** `extract_prices` reports, in text order and without overlap, exactly
      the matches `re.findall` makes; each is a price token of the text. */
  lemma FindAllTokens(text: string)
    ensures |FindAll(text)| == |Matches(text, 0)|
    ensures IsFindAll(text, 0, Matches(text, 0))
    ensures forall k :: 0 <= k < |FindAll(text)| ==>
      && FindAll(text)[k] == text[Matches(text, 0)[k].lo..Matches(text, 0)[k].hi]
      && LongestMatchAt(text, Matches(text, 0)[k].lo, Matches(text, 0)[k].hi)
    ensures forall k :: 0 <= k < |FindAll(text)| - 1 ==> Matches(text, 0)[k].hi <= Matches(text, 0)[k + 1].lo
  {
    MatchesAreFindAll(text, 0);
    FindAllSpans(text, 0, Matches(text, 0));
  }

  /** The substring a price token spans holds a digit and no `|`. */
  lemma TokenTextShape(s: string, lo: nat, hi: nat)
    requires lo <= hi <= |s| && PriceTokenIn(s, lo, hi)
    ensures forall c :: 0 <= c < hi - lo ==> s[lo..hi][c] != '|'
    ensures exists c :: 0 <= c < hi - lo && IsDigit(s[lo..hi][c])
  {
    PriceTokenShape(s, lo, hi);
    var d :| lo <= d < hi && IsDigit(s[d]);
    assert s[lo..hi][d - lo] == s[d];
  }

  /** No token in the result is empty or has a `|`. */
  lemma TokensHaveNoBar(text: string)
    ensures forall k :: 0 <= k < |FindAll(text)| ==> |FindAll(text)[k]| > 0
    ensures forall k, c :: 0 <= k < |FindAll(text)| && 0 <= c < |FindAll(text)[k]| ==> FindAll(text)[k][c] != '|'
  {
    FindAllTokens(text);
    var spans := Matches(text, 0);
    var toks := FindAll(text);
    forall k | 0 <= k < |toks|
      ensures |toks[k]| > 0 && forall c :: 0 <= c < |toks[k]| ==> toks[k][c] != '|'
    {
      TokenTextShape(text, spans[k].lo, spans[k].hi);
    }
  }

  /** Every token in the result holds a digit. */
  lemma TokenHasDigit(text: string, k: nat)
    requires k < |FindAll(text)|
    ensures exists c :: 0 <= c < |FindAll(text)[k]| && IsDigit(FindAll(text)[k][c])
  {
    FindAllTokens(text);
    TokenTextShape(text, Matches(text, 0)[k].lo, Matches(text, 0)[k].hi);
  }

  /** `extract_prices` returns `''` exactly when the pattern matches nowhere. */
  lemma ExtractPricesEmpty(text: string)
    ensures ExtractPrices(text) == "" <==> forall p: nat :: p < |text| ==> NoMatchAt(text, p)
  {
    FindAllTokens(text);
    var spans := Matches(text, 0);
    var toks := FindAll(text);
    if |toks| > 0 {
      assert |toks[0]| > 0;
      assert ExtractPrices(text)[0] == toks[0][0];
      assert !NoMatchAt(text, spans[0].lo);
    }
  }

  /** The `" | "`-joined result splits back into the token list. */
  lemma SplitRecoversTokens(text: string)
    ensures ExtractPrices(text) != "" ==> SplitOn(ExtractPrices(text), " | ") == FindAll(text)
    ensures ExtractPrices(text) == "" ==> FindAll(text) == []
  {
    var toks := FindAll(text);
    TokensHaveNoBar(text);
    if |toks| > 0 {
      SplitOnJoinBar(toks);
      assert ExtractPrices(text)[0] == toks[0][0];
    }
  }
}
