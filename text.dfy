/** The few Python `str` operations the back end relies on: `isspace`
    (which is also what `\s` matches), `s.split()`, `sep.join(parts)` and
    `s.split(sep)`. Strings are sequences of Unicode scalar values. */
module Text {

  import opened Wrappers

  /** Python's `str.isspace()`: the characters `\s` matches in a str pattern
      and the separators of `str.split()` without arguments. */
  predicate IsSpace(c: char) {
    || ('\U{9}' <= c <= '\U{D}')
    || ('\U{1C}' <= c <= ' ')
    || c == '\U{85}' || c == '\U{A0}' || c == '\U{1680}'
    || ('\U{2000}' <= c <= '\U{200A}')
    || c == '\U{2028}' || c == '\U{2029}' || c == '\U{202F}' || c == '\U{205F}'
    || c == '\U{3000}'
  }

  /** An ASCII decimal digit. */
  predicate IsDigit(c: char) {
    '0' <= c <= '9'
  }

  /** A word of `str.split()`: a non-empty run of non-space characters. */
  predicate IsWord(w: string) {
    |w| > 0 && forall k :: 0 <= k < |w| ==> !IsSpace(w[k])
  }

  predicate StartsWith(s: string, prefix: string) {
    |prefix| <= |s| && s[..|prefix|] == prefix
  }

  /** The end of the run of non-space characters that starts at `i`. */
  function WordEnd(s: string, i: nat): (e: nat)
    requires i <= |s|
    ensures i <= e <= |s|
    ensures forall k :: i <= k < e ==> !IsSpace(s[k])
    ensures e == |s| || IsSpace(s[e])
    decreases |s| - i
  {
    if i == |s| || IsSpace(s[i]) then i else WordEnd(s, i + 1)
  }

  /** Python's `s.split()`: the maximal runs of non-space characters, in order. */
  function Split(s: string): (words: seq<string>)
    ensures forall k :: 0 <= k < |words| ==> IsWord(words[k])
    decreases |s|
  {
    if s == [] then []
    else if IsSpace(s[0]) then Split(s[1..])
    else
      var e := WordEnd(s, 0);
      [s[..e]] + Split(s[e..])
  }

  /** Python's `sep.join(parts)`. */
  function Join(parts: seq<string>, sep: string): string
  {
    if |parts| == 0 then ""
    else if |parts| == 1 then parts[0]
    else parts[0] + sep + Join(parts[1..], sep)
  }

  /** `sep` occurs in `s` at position `p`. */
  predicate OccursAt(s: string, sep: string, p: nat) {
    p + |sep| <= |s| && s[p..p + |sep|] == sep
  }

  /** The first occurrence of `sep` in `s` at or after position `i`. */
  function Find(s: string, sep: string, i: nat): (r: Option<nat>)
    requires |sep| > 0
    ensures r.Some? ==> i <= r.value && OccursAt(s, sep, r.value)
    ensures r.Some? ==> forall p :: i <= p < r.value ==> !OccursAt(s, sep, p)
    ensures r.None? ==> forall p :: i <= p ==> !OccursAt(s, sep, p)
    decreases |s| - i
  {
    if i + |sep| > |s| then None
    else if OccursAt(s, sep, i) then Some(i)
    else Find(s, sep, i + 1)
  }

  /** Python's `s.split(sep)` for a non-empty separator. */
  function SplitOn(s: string, sep: string): seq<string>
    requires |sep| > 0
    decreases |s|
  {
    match Find(s, sep, 0)
    case None => [s]
    case Some(p) => [s[..p]] + SplitOn(s[p + |sep|..], sep)
  }

  /** A joined word list splits back into the same words. */
  lemma {:induction false} SplitJoin(words: seq<string>)
    requires forall k :: 0 <= k < |words| ==> IsWord(words[k])
    ensures Split(Join(words, " ")) == words
    decreases |words|
  {
    if |words| == 0 {
    } else {
      var w := words[0];
      var s := Join(words, " ");
      var rest := if |words| == 1 then "" else " " + Join(words[1..], " ");
      assert s == w + rest;
      assert s[0] == w[0];
      forall k | 0 <= k < |w| ensures !IsSpace(s[k]) {
        assert s[k] == w[k];
      }
      assert |w| == |s| || s[|w|] == ' ';
      var e := WordEnd(s, 0);
      assert e == |w|;
      assert s[..e] == w;
      assert s[e..] == rest;
      if |words| > 1 {
        assert rest[0] == ' ' && rest[1..] == Join(words[1..], " ");
        SplitJoin(words[1..]);
        assert Split(rest) == Split(rest[1..]);
        assert [w] + words[1..] == words;
      }
    }
  }

  /** A string of white space alone splits into no words. */
  lemma {:induction false} SplitAllSpaces(s: string)
    requires forall k :: 0 <= k < |s| ==> IsSpace(s[k])
    ensures Split(s) == []
    decreases |s|
  {
    if s != [] {
      SplitAllSpaces(s[1..]);
    }
  }

  /** A single word splits into itself. */
  lemma SplitWord(w: string)
    requires IsWord(w)
    ensures Split(w) == [w]
  {
    assert WordEnd(w, 0) == |w|;
    assert w[..|w|] == w && w[|w|..] == [];
  }

  /** A run that ends before `p` ends at the same place in `s[..p]`. */
  lemma {:induction false} WordEndPrefix(s: string, p: nat, i: nat)
    requires i <= p <= |s| && WordEnd(s, i) <= p
    ensures WordEnd(s[..p], i) == WordEnd(s, i)
    decreases p - i
  {
    if i < p {
      assert s[..p][i] == s[i];
      if !IsSpace(s[i]) {
        WordEndPrefix(s, p, i + 1);
      }
    }
  }

  /** Splitting at any white-space character: the words of `s` are the
      words before it followed by the words after it. With `SplitAllSpaces`
      and `SplitWord` this fixes `Split` on every string. */
  lemma {:induction false} SplitAt(s: string, p: nat)
    requires p < |s| && IsSpace(s[p])
    ensures Split(s) == Split(s[..p]) + Split(s[p + 1..])
    decreases |s|
  {
    if p == 0 {
      assert s[..0] == [];
    } else if IsSpace(s[0]) {
      SplitAt(s[1..], p - 1);
      SplitAtSpaceHead(s, p);
    } else {
      var e := WordEnd(s, 0);
      SplitAt(s[e..], p - e);
      SplitAtWordHead(s, p);
    }
  }

  /** The step of `SplitAt` when `s` starts with white space. */
  lemma SplitAtSpaceHead(s: string, p: nat)
    requires 0 < p < |s| && IsSpace(s[p]) && IsSpace(s[0])
    requires Split(s[1..]) == Split(s[1..][..p - 1]) + Split(s[1..][p..])
    ensures Split(s) == Split(s[..p]) + Split(s[p + 1..])
  {
    assert s[1..][..p - 1] == s[..p][1..];
    assert s[1..][p..] == s[p + 1..];
    assert Split(s[..p]) == Split(s[..p][1..]);
  }

  /** `Split` on a string that starts with a word. */
  lemma SplitWordUnfold(s: string)
    requires s != [] && !IsSpace(s[0])
    ensures Split(s) == [s[..WordEnd(s, 0)]] + Split(s[WordEnd(s, 0)..])
  {
  }

  /** The step of `SplitAt` when `s` starts with a word. */
  lemma SplitAtWordHead(s: string, p: nat)
    requires 0 < p < |s| && IsSpace(s[p]) && !IsSpace(s[0])
    requires var e := WordEnd(s, 0);
      Split(s[e..]) == Split(s[e..][..p - e]) + Split(s[e..][p - e + 1..])
    ensures Split(s) == Split(s[..p]) + Split(s[p + 1..])
  {
    var e := WordEnd(s, 0);
    assert e <= p;
    SplitPrefixWord(s, p, e);
    SuffixSlices(s, p, e);
    ConsConcat(s[..e], Split(s[e..p]), Split(s[p + 1..]));
  }

  /** The first word of `s` is also the first word of `s[..p]`, when the
      white space at `p` ends it or comes later. */
  lemma SplitPrefixWord(s: string, p: nat, e: nat)
    requires 0 < p < |s| && IsSpace(s[p]) && !IsSpace(s[0])
    requires e == WordEnd(s, 0) && e <= p
    ensures Split(s) == [s[..e]] + Split(s[e..])
    ensures Split(s[..p]) == [s[..e]] + Split(s[e..p])
  {
    var t := s[..p];
    WordEndPrefix(s, p, 0);
    assert t[..e] == s[..e] && t[e..] == s[e..p];
    SplitWordUnfold(t);
  }

  lemma SuffixSlices(s: string, p: nat, e: nat)
    requires e <= p < |s|
    ensures s[e..][..p - e] == s[e..p] && s[e..][p - e + 1..] == s[p + 1..]
  {
  }

  lemma ConsConcat(w: string, x: seq<string>, y: seq<string>)
    ensures [w] + (x + y) == ([w] + x) + y
  {
  }

  /** Repeated and mixed white space between words separates them once. */
  lemma ExampleSplitRepeatedSpace()
    ensures Split("a \tb") == ["a", "b"]
  {
    var s := "a \tb";
    SplitAt(s, 1);
    assert s[..1] == "a" && s[2..] == "\tb";
    SplitWord("a");
    SplitAt("\tb", 0);
    assert "\tb"[..0] == [] && "\tb"[1..] == "b";
    SplitWord("b");
  }

  /** Splitting a `" | "`-joined list of strings that contain no `|`
      recovers the list. */
  lemma {:induction false} SplitOnJoinBar(parts: seq<string>)
    requires |parts| > 0
    requires forall k, c :: 0 <= k < |parts| && 0 <= c < |parts[k]| ==> parts[k][c] != '|'
    ensures SplitOn(Join(parts, " | "), " | ") == parts
    decreases |parts|
  {
    var t := parts[0];
    var s := Join(parts, " | ");
    if |parts| == 1 {
      forall p: nat ensures !OccursAt(s, " | ", p) {
        assert p + 3 <= |s| ==> s[p..p + 3][1] == s[p + 1];
      }
      assert Find(s, " | ", 0).None?;
    } else {
      var rest := Join(parts[1..], " | ");
      assert s == t + " | " + rest;
      assert OccursAt(s, " | ", |t|);
      forall p: nat | p < |t| ensures !OccursAt(s, " | ", p) {
        assert s[p..p + 3][1] == s[p + 1];
        assert p + 1 < |t| ==> s[p + 1] == t[p + 1];
        assert p + 1 == |t| ==> s[p + 1] == ' ';
      }
      var p := |t|;
      assert Find(s, " | ", 0) == Some(p);
      assert s[..p] == t;
      assert s[p + 3..] == rest;
      forall k, c | 0 <= k < |parts[1..]| && 0 <= c < |parts[1..][k]|
        ensures parts[1..][k][c] != '|'
      {
        assert parts[1..][k] == parts[k + 1];
      }
      SplitOnJoinBar(parts[1..]);
      assert [t] + parts[1..] == parts;
    }
  }
}
