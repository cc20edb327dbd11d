/** The difference column of `get_differences`: Python's
    `difflib.unified_diff(words1, words2, n=0)` over opcodes supplied from
    outside, the removal of its header lines, and the join with spaces. */
module Diff {
  import opened Text
  import opened Cells
  import opened Prices

  datatype Tag = Equal | Replace | Delete | Insert

  /** One opcode of `SequenceMatcher.get_opcodes()`: the words `a[i1:i2]`
      are equal to, replaced by, deleted from or inserted as `b[j1:j2]`. */
  datatype Opcode = Opcode(tag: Tag, i1: nat, i2: nat, j1: nat, j2: nat)

  /** How `SequenceMatcher` aligns two word lists. */
  type Matcher = (seq<string>, seq<string>) -> seq<Opcode>

  function Min(x: nat, y: nat): nat {
    if x <= y then x else y
  }

  function Max(x: nat, y: nat): nat {
    if x >= y then x else y
  }

  /** Python's `a[lo:hi]` with non-negative bounds: out-of-range bounds are
      clamped and a reversed range is empty. */
  function Slice(a: seq<string>, lo: nat, hi: nat): (r: seq<string>)
    ensures |r| == if lo < Min(hi, |a|) then Min(hi, |a|) - lo else 0
    ensures forall k :: 0 <= k < |r| ==> lo + k < |a| && r[k] == a[lo + k]
  {
    var h := Min(hi, |a|);
    if lo >= h then [] else a[lo..h]
  }

  /** `[prefix + w for w in ws]`. */
  function Prefixed(prefix: string, ws: seq<string>): (r: seq<string>)
    ensures |r| == |ws|
    ensures forall k :: 0 <= k < |r| ==> r[k] == prefix + ws[k]
  {
    if ws == [] then [] else [prefix + ws[0]] + Prefixed(prefix, ws[1..])
  }

  // ---------------------------------------------------------------------
  // difflib.unified_diff with n=0

  /** The lines `unified_diff` writes for one opcode of a hunk. */
  function OpLines(a: seq<string>, b: seq<string>, op: Opcode): seq<string> {
    match op.tag
    case Equal => Prefixed(" ", Slice(a, op.i1, op.i2))
    case Replace => Prefixed("-", Slice(a, op.i1, op.i2)) + Prefixed("+", Slice(b, op.j1, op.j2))
    case Delete => Prefixed("-", Slice(a, op.i1, op.i2))
    case Insert => Prefixed("+", Slice(b, op.j1, op.j2))
  }

  /** The lines of a hunk's opcodes, without its `@@` header. */
  function Lines(a: seq<string>, b: seq<string>, ops: seq<Opcode>): seq<string> {
    if ops == [] then [] else OpLines(a, b, ops[0]) + Lines(a, b, ops[1..])
  }

  /** The reference reading of a diff without context: for each change, in
      order, a `-word` line for every removed word, then a `+word` line for
      every added word; equal runs contribute nothing. */
  function ChangeLines(a: seq<string>, b: seq<string>, ops: seq<Opcode>): seq<string> {
    if ops == [] then []
    else (if ops[0].tag == Equal then [] else OpLines(a, b, ops[0])) + ChangeLines(a, b, ops[1..])
  }

  /** `get_grouped_opcodes(0)` before its loop: an empty opcode list becomes
      one equal opcode, and a leading or trailing equal run is cut to nothing
      (with no context, `max(i1, i2 - 0)` and `min(i2, i1 + 0)`). */
  function Fixup(codes: seq<Opcode>): (r: seq<Opcode>)
    ensures |r| > 0
  {
    CutLast(CutFirst(NonEmpty(codes)))
  }

  /** `if not codes: codes = [("equal", 0, 1, 0, 1)]`. */
  function NonEmpty(codes: seq<Opcode>): (r: seq<Opcode>)
    ensures |r| > 0
  {
    if codes == [] then [Opcode(Equal, 0, 1, 0, 1)] else codes
  }

  /** A leading equal opcode is cut to its end. */
  function CutFirst(c: seq<Opcode>): (r: seq<Opcode>)
    requires |c| > 0
    ensures |r| == |c|
  {
    var first := c[0];
    if first.tag == Equal then c[0 := first.(i1 := Max(first.i1, first.i2), j1 := Max(first.j1, first.j2))] else c
  }

  /** A trailing equal opcode is cut to its start. */
  function CutLast(c: seq<Opcode>): (r: seq<Opcode>)
    requires |c| > 0
    ensures |r| == |c|
  {
    var last := c[|c| - 1];
    if last.tag == Equal then c[|c| - 1 := last.(i2 := Min(last.i2, last.i1), j2 := Min(last.j2, last.j1))] else c
  }

  /** The loop of `get_grouped_opcodes(0)`, with `group` the hunk being
      built: an equal run of at least one word closes the hunk (cut to
      nothing) and opens the next one (also cut to nothing); at the end the
      hunk is yielded unless it is a lone equal opcode. */
  function Groups(codes: seq<Opcode>, group: seq<Opcode>): (r: seq<seq<Opcode>>)
    ensures forall k :: 0 <= k < |r| ==> |r[k]| > 0
  {
    if codes == [] then
      if group != [] && !(|group| == 1 && group[0].tag == Equal) then [group] else []
    else
      var c := codes[0];
      if c.tag == Equal && c.i2 > c.i1 then
        [group + [c.(i2 := Min(c.i2, c.i1), j2 := Min(c.j2, c.j1))]]
          + Groups(codes[1..], [c.(i1 := Max(c.i1, c.i2), j1 := Max(c.j1, c.j2))])
      else
        Groups(codes[1..], group + [c])
  }

  function DigitChar(d: nat): char
    requires d < 10
  {
    "0123456789"[d]
  }

  /** Python's `str(n)` for a natural number. */
  function NatToString(n: nat): (s: string)
    ensures |s| > 0 && forall k :: 0 <= k < |s| ==> IsDigit(s[k])
  {
    if n < 10 then [DigitChar(n)] else NatToString(n / 10) + [DigitChar(n % 10)]
  }

  /** Python's `str(i)`. */
  function IntToString(i: int): string {
    if i < 0 then "-" + NatToString(-i) else NatToString(i)
  }

  /** difflib's `_format_range_unified(start, stop)`: a 1-based line
      number, followed by `,` and a count unless the range has one line. */
  function FormatRange(start: nat, stop: nat): (r: string)
    ensures |r| > 0 && IsDigit(r[0])
    ensures start <= stop ==> forall k :: 0 <= k < |r| ==> IsDigit(r[k]) || r[k] == ','
  {
    var beginning := start + 1;
    var length := stop - start;
    if length == 1 then IntToString(beginning)
    else if length == 0 then IntToString(beginning - 1) + "," + IntToString(length)
    else IntToString(beginning) + "," + IntToString(length)
  }

  /** The `@@ -R +R @@` line that opens a hunk. */
  function HunkHeader(group: seq<Opcode>): string
    requires |group| > 0
  {
    var first := group[0];
    var last := group[|group| - 1];
    "@@ -" + FormatRange(first.i1, last.i2) + " +" + FormatRange(first.j1, last.j2) + " @@\n"
  }

  function Hunks(a: seq<string>, b: seq<string>, groups: seq<seq<Opcode>>): seq<string>
    requires forall k :: 0 <= k < |groups| ==> |groups[k]| > 0
  {
    if groups == [] then []
    else [HunkHeader(groups[0])] + Lines(a, b, groups[0]) + Hunks(a, b, groups[1..])
  }

  /** `list(unified_diff(a, b, n=0))` for the given opcodes, with empty file
      names and dates: the `--- ` and `+++ ` lines once, if there is any
      hunk, then each hunk. */
  function UnifiedDiff(a: seq<string>, b: seq<string>, codes: seq<Opcode>): seq<string> {
    var groups := Groups(Fixup(codes), []);
    if groups == [] then [] else ["--- \n", "+++ \n"] + Hunks(a, b, groups)
  }

  // ---------------------------------------------------------------------
  // get_differences

  /** The comprehension's test: the line starts with none of `@@`, `---`, `+++`. */
  predicate KeepLine(line: string) {
    !StartsWith(line, "@@") && !StartsWith(line, "---") && !StartsWith(line, "+++")
  }

  function FilterLines(lines: seq<string>): (r: seq<string>)
    ensures forall k :: 0 <= k < |r| ==> r[k] in lines && KeepLine(r[k])
  {
    if lines == [] then []
    else (if KeepLine(lines[0]) then [lines[0]] else []) + FilterLines(lines[1..])
  }

  /** The first result of `get_differences` on its normal path. */
  function Differences(a: seq<string>, b: seq<string>, codes: seq<Opcode>): string {
    Join(FilterLines(UnifiedDiff(a, b, codes)), " ")
  }

  /** The value `get_differences` returns after a failure. */
  const ErrorTriple: (string, string, string) := ("Error comparing texts", "", "")

  /** `get_differences(text1, text2)`. The first text is always a string
      (it comes from `html_to_text`); the second is a description cell, and
      when it is not a string `extract_prices` raises a `TypeError`, which
      the handler turns into the error triple. Nothing else in the body can
      raise. */
  function GetDifferences(text1: string, text2: Cell, matcher: Matcher): (r: (string, string, string))
    ensures text2.Other? ==> r == ErrorTriple
    ensures text2.Str? ==> r.1 == ExtractPrices(text1) && r.2 == ExtractPrices(text2.s)
    ensures text2.Str? ==>
      var w1 := Split(text1);
      var w2 := Split(text2.s);
      Split(r.0) == FilterLines(ChangeLines(w1, w2, matcher(w1, w2)))
    ensures text2.Str? ==>
      var w1 := Split(text1);
      var w2 := Split(text2.s);
      r.0 == Join(FilterLines(ChangeLines(w1, w2, matcher(w1, w2))), " ")
    ensures text2.Str? ==> forall k :: 0 <= k < |Split(r.0)| ==>
      ChangeLine(Split(text1), Split(text2.s), Split(r.0)[k])
  {
    match text2
    case Other(_) => ErrorTriple
    case Str(t2) =>
      var w1 := Split(text1);
      var w2 := Split(t2);
      DifferencesSplit(w1, w2, matcher(w1, w2));
      KeptLinesShape(w1, w2, matcher(w1, w2));
      DiffIsChangeLines(w1, w2, matcher(w1, w2));
      (Differences(w1, w2, matcher(w1, w2)), ExtractPrices(text1), ExtractPrices(t2))
  }

  // ---------------------------------------------------------------------
  // The filtered diff is exactly the change lines

  lemma {:induction false} FilterConcat(x: seq<string>, y: seq<string>)
    ensures FilterLines(x + y) == FilterLines(x) + FilterLines(y)
  {
    if x == [] {
      assert x + y == y;
    } else {
      assert (x + y)[0] == x[0];
      assert (x + y)[1..] == x[1..] + y;
      FilterConcat(x[1..], y);
    }
  }

  lemma FilterDropsHead(h: string, rest: seq<string>)
    requires !KeepLine(h)
    ensures FilterLines([h] + rest) == FilterLines(rest)
  {
    assert ([h] + rest)[1..] == rest;
  }

  /** A hunk header is always removed by the filter. */
  lemma HeaderDropped(group: seq<Opcode>)
    requires |group| > 0
    ensures !KeepLine(HunkHeader(group))
  {
    var h := HunkHeader(group);
    assert h[..2] == "@@";
  }

  /** An equal opcode whose range is reversed or empty writes nothing. */
  predicate EqualsAreEmpty(ops: seq<Opcode>) {
    forall k :: 0 <= k < |ops| && ops[k].tag == Equal ==> ops[k].i2 <= ops[k].i1
  }

  lemma {:induction false} LinesConcat(a: seq<string>, b: seq<string>, x: seq<Opcode>, y: seq<Opcode>)
    ensures Lines(a, b, x + y) == Lines(a, b, x) + Lines(a, b, y)
  {
    if x == [] {
      assert x + y == y;
    } else {
      assert (x + y)[0] == x[0];
      assert (x + y)[1..] == x[1..] + y;
      LinesConcat(a, b, x[1..], y);
    }
  }

  lemma LinesSingle(a: seq<string>, b: seq<string>, op: Opcode)
    ensures Lines(a, b, [op]) == if op.tag == Equal && op.i2 <= op.i1 then [] else OpLines(a, b, op)
  {
    assert [op][1..] == [];
  }

  /** The hunks' lines, without their headers. */
  function Flat(a: seq<string>, b: seq<string>, groups: seq<seq<Opcode>>): seq<string> {
    if groups == [] then [] else Lines(a, b, groups[0]) + Flat(a, b, groups[1..])
  }

  lemma FlatCons(a: seq<string>, b: seq<string>, g: seq<Opcode>, groups: seq<seq<Opcode>>)
    ensures Flat(a, b, [g] + groups) == Lines(a, b, g) + Flat(a, b, groups)
  {
    assert ([g] + groups)[1..] == groups;
  }

  lemma GroupsLastHunk(a: seq<string>, b: seq<string>, group: seq<Opcode>)
    requires EqualsAreEmpty(group)
    ensures Flat(a, b, Groups([], group)) == Lines(a, b, group)
  {
    if group != [] && !(|group| == 1 && group[0].tag == Equal) {
      FlatCons(a, b, group, []);
    } else if group != [] {
      assert group == [group[0]];
      LinesSingle(a, b, group[0]);
    }
  }

  /** An equal run of at least one word: the open hunk is closed and a new one opened. */
  lemma GroupsSplitStep(a: seq<string>, b: seq<string>, codes: seq<Opcode>, group: seq<Opcode>)
    requires codes != [] && codes[0].tag == Equal && codes[0].i2 > codes[0].i1
    requires Flat(a, b, Groups(codes[1..], [codes[0].(i1 := Max(codes[0].i1, codes[0].i2), j1 := Max(codes[0].j1, codes[0].j2))]))
      == Lines(a, b, [codes[0].(i1 := Max(codes[0].i1, codes[0].i2), j1 := Max(codes[0].j1, codes[0].j2))]) + ChangeLines(a, b, codes[1..])
    ensures Flat(a, b, Groups(codes, group)) == Lines(a, b, group) + ChangeLines(a, b, codes)
  {
    var c := codes[0];
    var closing := c.(i2 := Min(c.i2, c.i1), j2 := Min(c.j2, c.j1));
    var opening := c.(i1 := Max(c.i1, c.i2), j1 := Max(c.j1, c.j2));
    var rest := Groups(codes[1..], [opening]);
    var changes := ChangeLines(a, b, codes[1..]);
    GroupsSplitUnfold(codes, group);
    FlatCons(a, b, group + [closing], rest);
    LinesSnoc(a, b, group, closing);
    LinesSingle(a, b, opening);
    ChangeLinesCons(a, b, codes);
    assert Lines(a, b, group + [closing]) == Lines(a, b, group);
    assert Flat(a, b, rest) == changes;
    assert ChangeLines(a, b, codes) == changes;
  }

  lemma GroupsSplitUnfold(codes: seq<Opcode>, group: seq<Opcode>)
    requires codes != [] && codes[0].tag == Equal && codes[0].i2 > codes[0].i1
    ensures Groups(codes, group) ==
      [group + [codes[0].(i2 := Min(codes[0].i2, codes[0].i1), j2 := Min(codes[0].j2, codes[0].j1))]]
        + Groups(codes[1..], [codes[0].(i1 := Max(codes[0].i1, codes[0].i2), j1 := Max(codes[0].j1, codes[0].j2))])
  {
  }

  /** Any other opcode joins the open hunk unchanged. */
  lemma GroupsJoinStep(a: seq<string>, b: seq<string>, codes: seq<Opcode>, group: seq<Opcode>)
    requires codes != [] && !(codes[0].tag == Equal && codes[0].i2 > codes[0].i1)
    requires Flat(a, b, Groups(codes[1..], group + [codes[0]])) == Lines(a, b, group + [codes[0]]) + ChangeLines(a, b, codes[1..])
    ensures Flat(a, b, Groups(codes, group)) == Lines(a, b, group) + ChangeLines(a, b, codes)
  {
    var c := codes[0];
    var head := if c.tag == Equal then [] else OpLines(a, b, c);
    GroupsJoinUnfold(codes, group);
    ChangeLinesCons(a, b, codes);
    LinesSnoc(a, b, group, c);
    Assoc(Lines(a, b, group), head, ChangeLines(a, b, codes[1..]));
  }

  lemma Assoc<T>(x: seq<T>, y: seq<T>, z: seq<T>)
    ensures x + y + z == x + (y + z)
  {
  }

  lemma GroupsJoinUnfold(codes: seq<Opcode>, group: seq<Opcode>)
    requires codes != [] && !(codes[0].tag == Equal && codes[0].i2 > codes[0].i1)
    ensures Groups(codes, group) == Groups(codes[1..], group + [codes[0]])
  {
  }

  lemma ChangeLinesCons(a: seq<string>, b: seq<string>, codes: seq<Opcode>)
    requires codes != []
    ensures ChangeLines(a, b, codes) == (if codes[0].tag == Equal then [] else OpLines(a, b, codes[0])) + ChangeLines(a, b, codes[1..])
  {
  }

  lemma LinesSnoc(a: seq<string>, b: seq<string>, group: seq<Opcode>, c: Opcode)
    requires c.tag == Equal ==> c.i2 <= c.i1
    ensures Lines(a, b, group + [c]) == Lines(a, b, group) + (if c.tag == Equal then [] else OpLines(a, b, c))
  {
    LinesConcat(a, b, group, [c]);
    LinesSingle(a, b, c);
  }

  /** Grouping keeps every change, in order, and only empties equal runs:
      the hunks' lines are those of the open hunk followed by the change
      lines of the remaining opcodes. */
  lemma {:induction false} GroupsKeepChanges(a: seq<string>, b: seq<string>, codes: seq<Opcode>, group: seq<Opcode>)
    requires EqualsAreEmpty(group)
    ensures Flat(a, b, Groups(codes, group)) == Lines(a, b, group) + ChangeLines(a, b, codes)
    decreases |codes|
  {
    if codes == [] {
      GroupsLastHunk(a, b, group);
    } else {
      var c := codes[0];
      if c.tag == Equal && c.i2 > c.i1 {
        var opening := c.(i1 := Max(c.i1, c.i2), j1 := Max(c.j1, c.j2));
        assert EqualsAreEmpty([opening]);
        GroupsKeepChanges(a, b, codes[1..], [opening]);
        GroupsSplitStep(a, b, codes, group);
      } else {
        assert EqualsAreEmpty(group + [c]);
        GroupsKeepChanges(a, b, codes[1..], group + [c]);
        GroupsJoinStep(a, b, codes, group);
      }
    }
  }

  lemma {:induction false} ChangeLinesUpdate(a: seq<string>, b: seq<string>, ops: seq<Opcode>, k: nat, op: Opcode)
    requires k < |ops| && ops[k].tag == Equal && op.tag == Equal
    ensures ChangeLines(a, b, ops[k := op]) == ChangeLines(a, b, ops)
  {
    var updated := ops[k := op];
    assert updated[0].tag == ops[0].tag;
    if k > 0 {
      assert updated[0] == ops[0];
      assert updated[1..] == ops[1..][k - 1 := op];
      ChangeLinesUpdate(a, b, ops[1..], k - 1, op);
    } else {
      assert updated[1..] == ops[1..];
    }
    assert ChangeLines(a, b, updated) == (if ops[0].tag == Equal then [] else OpLines(a, b, ops[0])) + ChangeLines(a, b, updated[1..]);
  }

  /** Cutting the leading and trailing equal runs changes no change line. */
  lemma FixupKeepsChanges(a: seq<string>, b: seq<string>, codes: seq<Opcode>)
    ensures ChangeLines(a, b, Fixup(codes)) == ChangeLines(a, b, codes)
  {
    var c := NonEmpty(codes);
    assert ChangeLines(a, b, c) == ChangeLines(a, b, codes) by {
      assert codes == [] ==> ChangeLines(a, b, c) == [] + ChangeLines(a, b, c[1..]);
      assert c[1..] == [] ==> ChangeLines(a, b, c[1..]) == [];
    }
    var c1 := CutFirst(c);
    if c[0].tag == Equal {
      ChangeLinesUpdate(a, b, c, 0, c[0].(i1 := Max(c[0].i1, c[0].i2), j1 := Max(c[0].j1, c[0].j2)));
    }
    assert ChangeLines(a, b, c1) == ChangeLines(a, b, c);
    var last := c1[|c1| - 1];
    if last.tag == Equal {
      ChangeLinesUpdate(a, b, c1, |c1| - 1, last.(i2 := Min(last.i2, last.i1), j2 := Min(last.j2, last.j1)));
    }
    assert ChangeLines(a, b, CutLast(c1)) == ChangeLines(a, b, c1);
  }

  lemma {:induction false} HunksFilter(a: seq<string>, b: seq<string>, groups: seq<seq<Opcode>>)
    requires forall k :: 0 <= k < |groups| ==> |groups[k]| > 0
    ensures FilterLines(Hunks(a, b, groups)) == FilterLines(Flat(a, b, groups))
  {
    if groups != [] {
      var g := groups[0];
      var lines := Lines(a, b, g);
      var rest := Hunks(a, b, groups[1..]);
      assert Hunks(a, b, groups) == [HunkHeader(g)] + lines + rest;
      Assoc([HunkHeader(g)], lines, rest);
      HeaderDropped(g);
      FilterDropsHead(HunkHeader(g), lines + rest);
      FilterConcat(lines, rest);
      FilterConcat(lines, Flat(a, b, groups[1..]));
      HunksFilter(a, b, groups[1..]);
    }
  }

  /** The `--- ` and `+++ ` lines and every hunk header are filtered out. */
  lemma HeadersFiltered(a: seq<string>, b: seq<string>, codes: seq<Opcode>)
    ensures FilterLines(UnifiedDiff(a, b, codes)) == FilterLines(Flat(a, b, Groups(Fixup(codes), [])))
  {
    var groups := Groups(Fixup(codes), []);
    if groups != [] {
      var hunks := Hunks(a, b, groups);
      assert "--- \n"[..3] == "---" && "+++ \n"[..3] == "+++";
      assert UnifiedDiff(a, b, codes) == ["--- \n", "+++ \n"] + hunks;
      assert ["--- \n", "+++ \n"] == ["--- \n"] + ["+++ \n"];
      Assoc(["--- \n"], ["+++ \n"], hunks);
      FilterDropsHead("--- \n", ["+++ \n"] + hunks);
      FilterDropsHead("+++ \n", hunks);
      HunksFilter(a, b, groups);
    }
  }

  /** With no context, the filtered `unified_diff` output is exactly the
      filtered change lines: the file and hunk headers all go, and no equal
      word is written. */
  lemma DiffIsChangeLines(a: seq<string>, b: seq<string>, codes: seq<Opcode>)
    ensures FilterLines(UnifiedDiff(a, b, codes)) == FilterLines(ChangeLines(a, b, codes))
  {
    var groups := Groups(Fixup(codes), []);
    assert EqualsAreEmpty([]);
    GroupsKeepChanges(a, b, Fixup(codes), []);
    FixupKeepsChanges(a, b, codes);
    assert Lines(a, b, []) == [];
    assert [] + ChangeLines(a, b, codes) == ChangeLines(a, b, codes);
    assert Flat(a, b, groups) == ChangeLines(a, b, codes);
    HeadersFiltered(a, b, codes);
  }

  /** Every change line is a removed word of `a` behind `-` or an added
      word of `b` behind `+`. */
  predicate ChangeLine(a: seq<string>, b: seq<string>, line: string) {
    |line| > 0 && ((line[0] == '-' && line[1..] in a) || (line[0] == '+' && line[1..] in b))
  }

  lemma {:induction false} ChangeLinesShape(a: seq<string>, b: seq<string>, codes: seq<Opcode>)
    ensures forall k :: 0 <= k < |ChangeLines(a, b, codes)| ==> ChangeLine(a, b, ChangeLines(a, b, codes)[k])
  {
    if codes != [] {
      ChangeLinesShape(a, b, codes[1..]);
      var op := codes[0];
      var minus := Prefixed("-", Slice(a, op.i1, op.i2));
      var plus := Prefixed("+", Slice(b, op.j1, op.j2));
      forall k | 0 <= k < |minus| ensures ChangeLine(a, b, minus[k]) {
        assert minus[k][1..] == Slice(a, op.i1, op.i2)[k];
      }
      forall k | 0 <= k < |plus| ensures ChangeLine(a, b, plus[k]) {
        assert plus[k][1..] == Slice(b, op.j1, op.j2)[k];
      }
    }
  }

  /** What `get_differences` keeps is a subset of the change lines, so each
      kept line is a `-word` of the first list or a `+word` of the second. */
  lemma KeptLinesShape(a: seq<string>, b: seq<string>, codes: seq<Opcode>)
    ensures forall k :: 0 <= k < |FilterLines(ChangeLines(a, b, codes))| ==>
      ChangeLine(a, b, FilterLines(ChangeLines(a, b, codes))[k])
  {
    ChangeLinesShape(a, b, codes);
  }

  /** When both word lists come from `str.split()`, splitting the
      difference string on whitespace gives back exactly the kept change
      lines, in order. */
  lemma DifferencesSplit(a: seq<string>, b: seq<string>, codes: seq<Opcode>)
    requires forall k :: 0 <= k < |a| ==> IsWord(a[k])
    requires forall k :: 0 <= k < |b| ==> IsWord(b[k])
    ensures Split(Differences(a, b, codes)) == FilterLines(ChangeLines(a, b, codes))
  {
    DiffIsChangeLines(a, b, codes);
    var kept := FilterLines(ChangeLines(a, b, codes));
    KeptLinesShape(a, b, codes);
    forall k | 0 <= k < |kept| ensures IsWord(kept[k]) {
      ChangeLineIsWord(a, b, kept[k]);
    }
    SplitJoin(kept);
  }

  lemma ChangeLineIsWord(a: seq<string>, b: seq<string>, line: string)
    requires forall k :: 0 <= k < |a| ==> IsWord(a[k])
    requires forall k :: 0 <= k < |b| ==> IsWord(b[k])
    requires ChangeLine(a, b, line)
    ensures IsWord(line)
  {
    assert IsWord(line[1..]);
    forall c | 0 <= c < |line| ensures !IsSpace(line[c]) {
      if c > 0 {
        assert line[c] == line[1..][c - 1];
      }
    }
  }

  /** The difference string is empty exactly when no change line survives
      the filter. */
  lemma DifferencesEmpty(a: seq<string>, b: seq<string>, codes: seq<Opcode>)
    requires forall k :: 0 <= k < |a| ==> IsWord(a[k])
    requires forall k :: 0 <= k < |b| ==> IsWord(b[k])
    ensures Differences(a, b, codes) == "" <==> FilterLines(ChangeLines(a, b, codes)) == []
  {
    DifferencesSplit(a, b, codes);
    DiffIsChangeLines(a, b, codes);
  }

  lemma {:induction false} AllEqualNoChangeLines(a: seq<string>, b: seq<string>, codes: seq<Opcode>)
    requires forall k :: 0 <= k < |codes| ==> codes[k].tag == Equal
    ensures ChangeLines(a, b, codes) == []
  {
    if codes != [] {
      AllEqualNoChangeLines(a, b, codes[1..]);
    }
  }

  /** Two texts the matcher finds equal throughout have no differences. */
  lemma AllEqualNoDifferences(a: seq<string>, b: seq<string>, codes: seq<Opcode>)
    requires forall k :: 0 <= k < |codes| ==> codes[k].tag == Equal
    ensures Differences(a, b, codes) == ""
  {
    AllEqualNoChangeLines(a, b, codes);
    DiffIsChangeLines(a, b, codes);
  }

  /** The filter meant for header lines also drops a removed word that
      starts with `--` and an added word that starts with `++`, and only
      those. */
  lemma KeepChangeLine(w: string)
    ensures KeepLine("-" + w) <==> !StartsWith(w, "--")
    ensures KeepLine("+" + w) <==> !StartsWith(w, "++")
  {
    var m := "-" + w;
    var p := "+" + w;
    if |w| >= 2 {
      assert m[..3] == ['-', w[0], w[1]] && p[..3] == ['+', w[0], w[1]];
      assert w[..2] == [w[0], w[1]];
    }
    if |w| >= 1 {
      assert m[..2] == ['-', w[0]] && p[..2] == ['+', w[0]];
    }
  }

  lemma {:induction false} FilterKeepsAll(lines: seq<string>)
    requires forall k :: 0 <= k < |lines| ==> KeepLine(lines[k])
    ensures FilterLines(lines) == lines
  {
    if lines != [] {
      FilterKeepsAll(lines[1..]);
    }
  }

  /** Without such words nothing is lost: the filter keeps every change line. */
  lemma NothingDropped(a: seq<string>, b: seq<string>, codes: seq<Opcode>)
    requires forall k :: 0 <= k < |a| ==> !StartsWith(a[k], "--")
    requires forall k :: 0 <= k < |b| ==> !StartsWith(b[k], "++")
    ensures FilterLines(ChangeLines(a, b, codes)) == ChangeLines(a, b, codes)
  {
    var lines := ChangeLines(a, b, codes);
    ChangeLinesShape(a, b, codes);
    forall k | 0 <= k < |lines| ensures KeepLine(lines[k]) {
      var line := lines[k];
      assert ChangeLine(a, b, line);
      assert line == [line[0]] + line[1..];
      KeepChangeLine(line[1..]);
    }
    FilterKeepsAll(lines);
  }

  /** Removing the word `--x` leaves no trace in the difference string. */
  lemma ExampleDashWordDropped(a: seq<string>, b: seq<string>, codes: seq<Opcode>)
    requires a == ["--x"] && b == [] && codes == [Opcode(Delete, 0, 1, 0, 0)]
    ensures Differences(a, b, codes) == ""
  {
    DiffIsChangeLines(a, b, codes);
    ExampleDashWordLines(a, b, codes);
    assert "---x"[..3] == "---";
    FilterDropsHead("---x", []);
  }

  lemma ExampleDashWordLines(a: seq<string>, b: seq<string>, codes: seq<Opcode>)
    requires a == ["--x"] && b == [] && codes == [Opcode(Delete, 0, 1, 0, 0)]
    ensures ChangeLines(a, b, codes) == ["---x"]
  {
    var minus := Prefixed("-", Slice(a, 0, 1));
    assert |minus| == 1 && minus[0] == "-" + a[0];
    assert minus[0] == "---x";
    assert minus == ["---x"];
    ChangeLinesCons(a, b, codes);
    assert ChangeLines(a, b, codes[1..]) == [];
  }

  /** The opcodes `SequenceMatcher` finds for `Red Shirt` against
      `Red shirt`, and the resulting difference string. */
  lemma ExampleReplace(a: seq<string>, b: seq<string>, codes: seq<Opcode>)
    requires a == ["Red", "Shirt"] && b == ["Red", "shirt"]
    requires codes == [Opcode(Equal, 0, 1, 0, 1), Opcode(Replace, 1, 2, 1, 2)]
    ensures Differences(a, b, codes) == "-Shirt +shirt"
  {
    DiffIsChangeLines(a, b, codes);
    var lines := ExampleReplaceLines(a, b, codes);
    ExampleReplaceJoin(lines);
  }

  lemma ExampleReplaceJoin(lines: seq<string>)
    requires lines == ["-Shirt", "+shirt"]
    ensures Join(FilterLines(lines), " ") == "-Shirt +shirt"
  {
    assert lines[1..] == ["+shirt"];
    assert lines[1..][1..] == [];
    KeepChangeLine("Shirt");
    KeepChangeLine("shirt");
    assert "Shirt"[..2][0] == 'S' && "shirt"[..2][0] == 's';
    assert lines[0] == "-" + "Shirt" && lines[1] == "+" + "shirt";
    assert KeepLine(lines[0]) && KeepLine(lines[1]);
    FilterKeepsAll(lines);
  }

  lemma ExampleReplaceLines(a: seq<string>, b: seq<string>, codes: seq<Opcode>) returns (lines: seq<string>)
    requires a == ["Red", "Shirt"] && b == ["Red", "shirt"]
    requires codes == [Opcode(Equal, 0, 1, 0, 1), Opcode(Replace, 1, 2, 1, 2)]
    ensures lines == ["-Shirt", "+shirt"]
    ensures ChangeLines(a, b, codes) == lines
  {
    lines := ["-Shirt", "+shirt"];
    var minus := Prefixed("-", Slice(a, 1, 2));
    var plus := Prefixed("+", Slice(b, 1, 2));
    assert |minus| == 1 && minus[0] == "-" + a[1];
    assert |plus| == 1 && plus[0] == "+" + b[1];
    assert minus[0] == "-Shirt" && plus[0] == "+shirt";
    assert minus + plus == ["-Shirt", "+shirt"];
    ChangeLinesCons(a, b, codes);
    ChangeLinesCons(a, b, codes[1..]);
    assert codes[1..][1..] == [];
  }
}
