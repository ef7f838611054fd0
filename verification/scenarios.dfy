/** Worked examples: what the parser and the copy loop give for small concrete inputs.

    A concrete expression is passed in as a parameter that a `requires` pins to
    its literal, rather than written into the `ensures`: that keeps the
    verifier from unfolding the parser on the literal everywhere the lemma's
    facts are in scope. For the same reason `{:induction false}` sits on every
    lemma with parameters here, none of which is proved by induction. */
module Scenarios {
  import opened Maybe
  import opened SortedSets
  import opened PageRanges
  import PyStr
  import PyInt
  import Extraction

  lemma SmallNumerals()
    ensures PyInt.FormatNat(0) == "0" && PyInt.FormatNat(1) == "1" && PyInt.FormatNat(2) == "2"
    ensures PyInt.FormatNat(3) == "3" && PyInt.FormatNat(4) == "4" && PyInt.FormatNat(5) == "5"
  {
  }

  /** A canonical expression whose selections are all allowed parses to any
      ascending list of exactly the pages they ask for. */
  lemma {:induction false} RenderParsesTo(sels: seq<Selection>, maxPages: int, want: seq<int>)
    requires |sels| >= 1
    requires forall i :: 0 <= i < |sels| ==> Natural(sels[i]) && Allowed(sels[i], maxPages)
    requires StrictlyAscending(want) && Elements(want) == PagesOf(sels)
    ensures ParseRanges(Render(sels), maxPages) == Some(want)
  {
    ParseRender(sels, maxPages);
    var got := SortedWithin(PagesOf(sels), 1, maxPages);
    AllowedWithin(sels, maxPages);
    AscendingUnique(got, want);
  }

  /** The pages of allowed selections all lie in `[1, maxPages]`, so listing
      them within those bounds keeps them all. */
  lemma {:induction false} AllowedWithin(sels: seq<Selection>, maxPages: int)
    requires forall i :: 0 <= i < |sels| ==> Allowed(sels[i], maxPages)
    ensures Elements(SortedWithin(PagesOf(sels), 1, maxPages)) == PagesOf(sels)
  {
    forall p | p in PagesOf(sels) ensures 1 <= p <= maxPages {
      var i :| 0 <= i < |sels| && p in Pages(sels[i]);
    }
  }

  lemma RenderOverlap()
    ensures Render([Single(2), Span(2, 4), Single(3)]) == "2,2-4,3"
  {
    var sels := [Single(2), Span(2, 4), Single(3)];
    SmallNumerals();
    var tokens := FormatAll(sels);
    assert tokens[0] == "2" && tokens[1] == "2-4" && tokens[2] == "3";
    assert tokens == ["2", "2-4", "3"];
    assert PyStr.Join(["3"], ',') == "3";
    assert PyStr.Join(["2-4", "3"], ',') == "2-4,3";
  }

  /** Overlapping tokens collapse: `"2,2-4,3"` on five pages selects 2, 3, 4. */
  lemma {:induction false} OverlapsCollapse(expr: string)
    requires expr == "2,2-4,3"
    ensures ParseRanges(expr, 5) == Some([2, 3, 4])
  {
    var sels := [Single(2), Span(2, 4), Single(3)];
    var want := [2, 3, 4];
    assert forall i :: 0 <= i < |sels| ==> Natural(sels[i]) && Allowed(sels[i], 5);
    RenderOverlap();
    assert Pages(sels[1]) == {2, 3, 4};
    assert PagesOf(sels) == {2, 3, 4};
    assert want[0] == 2 && want[1] == 3 && want[2] == 4;
    assert Elements(want) == {2, 3, 4};
    RenderParsesTo(sels, 5, want);
  }

  lemma {:induction false} FormatOne(sel: Selection)
    requires Natural(sel)
    ensures Render([sel]) == FormatSelection(sel)
  {
    assert FormatAll([sel]) == [FormatSelection(sel)];
  }

  /** A range may end on the last page: `"1-1"` on one page. */
  lemma {:induction false} SinglePageDocument(expr: string)
    requires expr == "1-1"
    ensures ParseRanges(expr, 1) == Some([1])
  {
    var sels := [Span(1, 1)];
    SmallNumerals();
    FormatOne(sels[0]);
    assert FormatSelection(sels[0]) == expr;
    var want := [1];
    assert Pages(sels[0]) == {1};
    assert want[0] == 1;
    assert Elements(want) == {1};
    RenderParsesTo(sels, 1, want);
  }

  /** `"1-5"` on five pages selects them all. */
  lemma {:induction false} WholeDocument(expr: string)
    requires expr == "1-5"
    ensures ParseRanges(expr, 5) == Some([1, 2, 3, 4, 5])
  {
    var sels := [Span(1, 5)];
    SmallNumerals();
    FormatOne(sels[0]);
    assert FormatSelection(sels[0]) == expr;
    var want := [1, 2, 3, 4, 5];
    assert Pages(sels[0]) == {1, 2, 3, 4, 5};
    assert want[0] == 1 && want[1] == 2 && want[2] == 3 && want[3] == 4 && want[4] == 5;
    assert Elements(want) == {1, 2, 3, 4, 5};
    RenderParsesTo(sels, 5, want);
  }

  /** A range starting before page 1 fails: `"0-2"` on five pages. */
  lemma {:induction false} RangeFromZeroFails(expr: string)
    requires expr == "0-2"
    ensures ParseRanges(expr, 5) == None
  {
    var sels := [Span(0, 2)];
    SmallNumerals();
    FormatOne(sels[0]);
    assert FormatSelection(sels[0]) == expr;
    ParseRender(sels, 5);
    assert !Allowed(sels[0], 5);
  }

  /** A range running backwards fails: `"3-2"` on five pages. */
  lemma {:induction false} BackwardRangeFails(expr: string)
    requires expr == "3-2"
    ensures ParseRanges(expr, 5) == None
  {
    var sels := [Span(3, 2)];
    SmallNumerals();
    FormatOne(sels[0]);
    assert FormatSelection(sels[0]) == expr;
    ParseRender(sels, 5);
    assert !Allowed(sels[0], 5);
  }

  /** One good token does not rescue a bad one: `"1,9"` on five pages fails. */
  lemma {:induction false} NoPartialResult(expr: string)
    requires expr == "1,9"
    ensures ParseRanges(expr, 5) == None
  {
    SmallNumerals();
    var sels := [Single(1), Single(9)];
    assert PyInt.FormatNat(9) == "9";
    assert FormatAll(sels) == ["1", "9"];
    assert Render(sels) == expr;
    ParseRender(sels, 5);
    assert !Allowed(sels[1], 5);
  }

  /** An empty token fails: `"1,,3"`. */
  lemma {:induction false} DoubledCommaFails(expr: string)
    requires expr == "1,,3"
    ensures ParseRanges(expr, 5) == None
  {
    var tokens := ["1", "", "3"];
    PyStr.SplitJoin(tokens, ',');
    assert PyStr.Join(tokens, ',') == expr;
    EmptyTokenRejected(5);
    BadTokenSpoils(expr, 5, 1);
  }

  /** An empty token fails: a trailing comma, `"1,"`. */
  lemma {:induction false} TrailingCommaFails(expr: string)
    requires expr == "1,"
    ensures ParseRanges(expr, 5) == None
  {
    var tokens := ["1", ""];
    PyStr.SplitJoin(tokens, ',');
    assert PyStr.Join(tokens, ',') == expr;
    EmptyTokenRejected(5);
    BadTokenSpoils(expr, 5, 1);
  }

  /** The empty expression fails: it is one empty token. */
  lemma {:induction false} EmptyExpressionFails(expr: string)
    requires expr == ""
    ensures ParseRanges(expr, 5) == None
  {
    assert Tokens(expr) == [""];
    EmptyTokenRejected(5);
    BadTokenSpoils(expr, 5, 0);
  }

  lemma {:induction false} HyphenCount(a: string, b: string, c: string)
    requires '-' !in a && '-' !in b && '-' !in c
    ensures Hyphens(a + ['-'] + b + ['-'] + c) == 2
  {
    assert multiset(a + ['-'] + b + ['-'] + c)
        == multiset(a) + multiset(['-']) + multiset(b) + multiset(['-']) + multiset(c);
  }

  lemma {:induction false} TwoHyphenToken(expr: string)
    requires expr == "1-2-3"
    ensures ParseToken(expr) == None
  {
    var a, b, c := "1", "2", "3";
    assert expr == a + ['-'] + b + ['-'] + c;
    HyphenCount(a, b, c);
  }

  lemma {:induction false} LoneToken(expr: string)
    requires expr == "1-2-3"
    ensures Tokens(expr) == [expr]
  {
    PyStr.SplitNoSeparator(expr, ',');
  }

  /** An expression that is one token fails when that token does. */
  lemma {:induction false} LoneBadToken(expr: string, maxPages: int)
    requires Tokens(expr) == [expr] && ParseToken(expr) == None
    ensures ParseRanges(expr, maxPages) == None
  {
    BadTokenSpoils(expr, maxPages, 0);
  }

  /** A token with two hyphens fails, as the unpacking into `start, end` does. */
  lemma {:induction false} TwoHyphensFail(expr: string)
    requires expr == "1-2-3"
    ensures ParseRanges(expr, 5) == None
  {
    TwoHyphenToken(expr);
    LoneToken(expr);
    LoneBadToken(expr, 5);
  }

  /** `int()` skips only tab, line feed, vertical tab, form feed, carriage
      return and space around a number, so the information separator U+001C
      in front of a digit makes `"\x1c3"` a bad page, although
      `str.isspace()` counts it as whitespace. */
  lemma {:induction false} SeparatorIsNotPadding(expr: string)
    requires expr == "\U{1C}3"
    ensures ParseRanges(expr, 5) == None
  {
    SeparatorToken(expr);
    PyStr.SplitNoSeparator(expr, ',');
    LoneBadToken(expr, 5);
  }

  lemma {:induction false} SeparatorToken(expr: string)
    requires expr == "\U{1C}3"
    ensures ParseToken(expr) == None
  {
    assert '-' !in expr;
    assert !PyStr.IsSpace(expr[0]) && PyStr.TrimLeft(expr) == expr;
    assert !PyStr.IsSpace(expr[1]) && PyStr.TrimRight(expr) == expr;
    assert !PyInt.IsDigit(expr[0]);
  }

  lemma {:induction false} NoHyphenAround(lead: string, n: nat, trail: string)
    requires PyStr.AllSpace(lead) && PyStr.AllSpace(trail)
    ensures '-' !in lead + PyInt.FormatNat(n) + trail
  {
    var s := lead + PyInt.FormatNat(n) + trail;
    forall i | 0 <= i < |s| ensures s[i] != '-' {
      if i < |lead| {
        assert PyStr.IsSpace(lead[i]);
      } else if i < |lead| + |PyInt.FormatNat(n)| {
        assert PyInt.IsDigit(PyInt.FormatNat(n)[i - |lead|]);
      } else {
        assert PyStr.IsSpace(trail[i - |lead| - |PyInt.FormatNat(n)|]);
      }
    }
  }

  /** A number with whitespace around it, as it may stand on either side of
      a range's hyphen. */
  lemma {:induction false} PaddedSide(lead: string, n: nat, trail: string)
    requires PyStr.AllSpace(lead) && PyStr.AllSpace(trail)
    ensures '-' !in lead + PyInt.FormatNat(n) + trail
    ensures PyInt.ParseInt(lead + PyInt.FormatNat(n) + trail) == Some(n)
  {
    NoHyphenAround(lead, n, trail);
    PyInt.ParseFormatInt(lead, n, trail);
    assert PyInt.FormatInt(n) == PyInt.FormatNat(n);
  }

  /** Whitespace around either number of a range is accepted, as `int()`
      accepts it: `" 2 - 3 "` reads as the range 2 to 3. */
  lemma {:induction false} PaddedSpan(lead1: string, first: nat, trail1: string, lead2: string, last: nat, trail2: string)
    requires PyStr.AllSpace(lead1) && PyStr.AllSpace(trail1)
    requires PyStr.AllSpace(lead2) && PyStr.AllSpace(trail2)
    ensures ParseToken((lead1 + PyInt.FormatNat(first) + trail1) + ['-'] + (lead2 + PyInt.FormatNat(last) + trail2))
         == Some(Span(first, last))
  {
    PaddedSide(lead1, first, trail1);
    PaddedSide(lead2, last, trail2);
    SpanToken(lead1 + PyInt.FormatNat(first) + trail1, lead2 + PyInt.FormatNat(last) + trail2);
  }

  lemma {:induction false} LenientSingle(tok: string)
    requires tok == "+4"
    ensures ParseToken(tok) == Some(Single(4))
  {
    assert PyInt.FormatNat(4) == "4";
    PlusToken(tok, 4);
  }

  /** A page number with an explicit `+` is a single page. */
  lemma {:induction false} PlusToken(tok: string, n: nat)
    requires tok == ['+'] + PyInt.FormatNat(n)
    ensures ParseToken(tok) == Some(Single(n))
  {
    PyInt.DigitsExclude(PyInt.FormatNat(n), '-');
    assert '-' !in tok;
    PlusParsed(n);
  }

  lemma {:induction false} PlusParsed(n: nat)
    ensures PyInt.ParseInt(['+'] + PyInt.FormatNat(n)) == Some(n)
  {
    PlusDigits(PyInt.FormatNat(n));
    PyInt.DigitsValueFormatNat(n);
  }

  lemma {:induction false} PlusDigits(d: string)
    requires |d| > 0 && PyInt.AllDigits(d)
    ensures PyInt.ParseInt(['+'] + d) == Some(PyInt.DigitsValue(d))
  {
    var t := ['+'] + d;
    assert t[0] == '+' && PyStr.TrimLeft(t) == t;
    assert t[|t| - 1] == d[|d| - 1] && PyStr.TrimRight(t) == t;
    PyInt.SignedAccepts("+", d);
  }

  /** `"1,3"` on three pages selects pages 1 and 3. */
  lemma {:induction false} FirstAndThird(expr: string)
    requires expr == "1,3"
    ensures ParseRanges(expr, 3) == Some([1, 3])
  {
    SmallNumerals();
    var sels := [Single(1), Single(3)];
    assert FormatAll(sels) == ["1", "3"];
    assert Render(sels) == expr;
    var want := [1, 3];
    assert want[0] == 1 && want[1] == 3;
    assert Elements(want) == {1, 3};
    RenderParsesTo(sels, 3, want);
  }

  /** A one-page expression `"<n>"` selects page `n` when it exists. */
  lemma {:induction false} OnePage(expr: string, n: nat, count: int)
    requires 1 <= n <= count && expr == PyInt.FormatNat(n)
    ensures ParseRanges(expr, count) == Some([n])
  {
    var sels := [Single(n)];
    FormatOne(sels[0]);
    var want := [n];
    assert want[0] == n;
    assert Elements(want) == {n};
    RenderParsesTo(sels, count, want);
  }

  /** A one-page expression naming a page past the end fails. */
  lemma {:induction false} PastTheEnd(expr: string, n: nat, count: int)
    requires count < n && expr == PyInt.FormatNat(n)
    ensures ParseRanges(expr, count) == None
  {
    var sels := [Single(n)];
    FormatOne(sels[0]);
    ParseRender(sels, count);
  }

  /** `"1-2"` on two pages selects both. */
  lemma {:induction false} BothPages(expr: string)
    requires expr == "1-2"
    ensures ParseRanges(expr, 2) == Some([1, 2])
  {
    var sels := [Span(1, 2)];
    SmallNumerals();
    FormatOne(sels[0]);
    assert FormatSelection(sels[0]) == expr;
    var want := [1, 2];
    assert Pages(sels[0]) == {1, 2};
    assert want[0] == 1 && want[1] == 2;
    assert Elements(want) == {1, 2};
    RenderParsesTo(sels, 2, want);
  }

  /** A small library of source files: `a.pdf` has pages A1 to A3, `b.pdf`
      has B1 and B2, and nothing else can be opened. */
  function Library(path: Extraction.Path): Option<seq<string>> {
    if path == "a.pdf" then Some(["A1", "A2", "A3"])
    else if path == "b.pdf" then Some(["B1", "B2"])
    else None
  }

  /** Two parts concatenate as two. */
  lemma {:induction false} ConcatTwo<T>(parts: seq<seq<T>>)
    requires |parts| == 2
    ensures Extraction.Concat(parts) == parts[0] + parts[1]
  {
    var rest := parts[1..];
    assert rest[0] == parts[1] && rest[1..] == [];
    assert Extraction.Concat(rest) == parts[1] + Extraction.Concat<T>([]);
  }

  /** Three parts concatenate as three. */
  lemma {:induction false} ConcatThree<T>(parts: seq<seq<T>>)
    requires |parts| == 3
    ensures Extraction.Concat(parts) == parts[0] + parts[1] + parts[2]
  {
    var rest := parts[1..];
    ConcatTwo(rest);
    assert rest[0] == parts[1] && rest[1] == parts[2];
  }

  lemma {:induction false} PairOrderWith(parse: Extraction.Parser, paths: seq<Extraction.Path>, ranges: seq<string>)
    requires Extraction.Bounded(parse)
    requires paths == ["a.pdf", "b.pdf"] && |ranges| == 2
    requires parse(ranges[0], 3) == Some([1, 3]) && parse(ranges[1], 2) == Some([2])
    ensures Extraction.ExtractWith(parse, paths, ranges, Library) == Extraction.Written(["A1", "A3", "B2"])
  {
    var a, b := ["A1", "A2", "A3"], ["B1", "B2"];
    assert Library(paths[0]) == Some(a) && Library(paths[1]) == Some(b);
    Extraction.ContributionOf(parse, a, ranges[0], [1, 3]);
    Extraction.ContributionOf(parse, b, ranges[1], [2]);
    assert Extraction.Gather(a, [1, 3]) == ["A1", "A3"];
    assert Extraction.Gather(b, [2]) == ["B2"];
    var parts := Extraction.Contributions(parse, paths, ranges, Library, 2);
    PartAt(parse, paths, ranges, 2, 0);
    PartAt(parse, paths, ranges, 2, 1);
    assert parts[0] == ["A1", "A3"];
    assert parts[1] == ["B2"];
    ConcatTwo(parts);
    Extraction.ExtractResult(parse, paths, ranges, Library);
  }

  /** Pages are copied pair by pair, each pair's pages in its own order:
      pages 1 and 3 of `a.pdf`, then page 2 of `b.pdf`. */
  lemma {:induction false} PairOrder(paths: seq<Extraction.Path>, ranges: seq<string>)
    requires paths == ["a.pdf", "b.pdf"] && ranges == ["1,3", "2"]
    ensures Extraction.Extract(paths, ranges, Library) == Extraction.Written(["A1", "A3", "B2"])
  {
    Extraction.ParseRangesBounded();
    FirstAndThird(ranges[0]);
    SmallNumerals();
    OnePage(ranges[1], 2, 2);
    PairOrderWith(ParseRanges, paths, ranges);
  }

  lemma {:induction false} PartAt(parse: Extraction.Parser, paths: seq<Extraction.Path>, ranges: seq<string>, n: nat, i: nat)
    requires Extraction.Bounded(parse)
    requires i < n <= |paths| && n <= |ranges|
    ensures Extraction.Contributions(parse, paths, ranges, Library, n)[i]
         == Extraction.Contribution(parse, Library(paths[i]), ranges[i]).GetOr([])
  {
  }

  lemma SkippedMiddle()
    ensures ["A2"] + [] + ["B1", "B2"] == ["A2", "B1", "B2"]
  {
  }

  lemma {:induction false} SkipAndContinueWith(parse: Extraction.Parser, paths: seq<Extraction.Path>, ranges: seq<string>)
    requires Extraction.Bounded(parse)
    requires |paths| == 3 && paths[0] == "a.pdf" && paths[2] == "b.pdf" && |ranges| == 3
    requires parse(ranges[0], 3) == Some([2]) && parse(ranges[2], 2) == Some([1, 2])
    requires Extraction.Contribution(parse, Library(paths[1]), ranges[1]) == None
    ensures Extraction.ExtractWith(parse, paths, ranges, Library) == Extraction.Written(["A2", "B1", "B2"])
  {
    var parts := Extraction.Contributions(parse, paths, ranges, Library, 3);
    SkipParts(parse, paths, ranges);
    ConcatThree(parts);
    SkippedMiddle();
    assert Extraction.Pairs(paths, ranges) == 3;
    Extraction.ExtractResult(parse, paths, ranges, Library);
  }

  /** The three contributions of the skip scenarios: page 2 of `a.pdf`,
      nothing, then both pages of `b.pdf`. */
  lemma {:induction false} SkipParts(parse: Extraction.Parser, paths: seq<Extraction.Path>, ranges: seq<string>)
    requires Extraction.Bounded(parse)
    requires |paths| == 3 && paths[0] == "a.pdf" && paths[2] == "b.pdf" && |ranges| == 3
    requires parse(ranges[0], 3) == Some([2]) && parse(ranges[2], 2) == Some([1, 2])
    requires Extraction.Contribution(parse, Library(paths[1]), ranges[1]) == None
    ensures var parts := Extraction.Contributions(parse, paths, ranges, Library, 3);
            |parts| == 3 && parts[0] == ["A2"] && parts[1] == [] && parts[2] == ["B1", "B2"]
  {
    var a, b := ["A1", "A2", "A3"], ["B1", "B2"];
    assert Library(paths[0]) == Some(a) && Library(paths[2]) == Some(b);
    Extraction.ContributionOf(parse, a, ranges[0], [2]);
    Extraction.ContributionOf(parse, b, ranges[2], [1, 2]);
    assert Extraction.Gather(a, [2]) == ["A2"];
    assert Extraction.Gather(b, [1, 2]) == ["B1", "B2"];
    PartAt(parse, paths, ranges, 3, 0);
    PartAt(parse, paths, ranges, 3, 1);
    PartAt(parse, paths, ranges, 3, 2);
  }

  /** A pair whose source cannot be opened is skipped and the pairs after it
      still run: page 2 of `a.pdf`, nothing from `missing.pdf`, then both
      pages of `b.pdf`. */
  lemma {:induction false} SkipUnreadable(paths: seq<Extraction.Path>, ranges: seq<string>)
    requires paths == ["a.pdf", "missing.pdf", "b.pdf"] && ranges == ["2", "1", "1-2"]
    ensures Extraction.Extract(paths, ranges, Library) == Extraction.Written(["A2", "B1", "B2"])
  {
    Extraction.ParseRangesBounded();
    SmallNumerals();
    OnePage(ranges[0], 2, 3);
    BothPages(ranges[2]);
    assert Library(paths[1]) == None;
    SkipAndContinueWith(ParseRanges, paths, ranges);
  }

  /** A range running past the end of its document fails: `"1-3"` on two pages. */
  lemma {:induction false} RangePastTheEnd(expr: string)
    requires expr == "1-3"
    ensures ParseRanges(expr, 2) == None
  {
    var sels := [Span(1, 3)];
    SmallNumerals();
    FormatOne(sels[0]);
    assert FormatSelection(sels[0]) == expr;
    ParseRender(sels, 2);
    assert !Allowed(sels[0], 2);
  }

  lemma {:induction false} SkippedOnB(path: Extraction.Path, range: string)
    requires path == "b.pdf" && ParseRanges(range, 2) == None
    ensures (Extraction.ParseRangesBounded(); Extraction.Contribution(ParseRanges, Library(path), range) == None)
  {
    Extraction.ParseRangesBounded();
    assert Library(path) == Some(["B1", "B2"]);
  }

  /** A pair whose range expression is invalid for its document is skipped and
      the pairs after it still run: page 2 of `a.pdf`, nothing for `"1-3"` on
      the two-page `b.pdf`, then both pages of `b.pdf`. */
  lemma {:induction false} SkipBadRange(paths: seq<Extraction.Path>, ranges: seq<string>)
    requires paths == ["a.pdf", "b.pdf", "b.pdf"] && ranges == ["2", "1-3", "1-2"]
    ensures Extraction.Extract(paths, ranges, Library) == Extraction.Written(["A2", "B1", "B2"])
  {
    Extraction.ParseRangesBounded();
    SmallNumerals();
    OnePage(ranges[0], 2, 3);
    BothPages(ranges[2]);
    RangePastTheEnd(ranges[1]);
    SkippedOnB(paths[1], ranges[1]);
    SkipAndContinueWith(ParseRanges, paths, ranges);
  }

  /** When every pair is skipped no output file is written: `a.pdf` has no
      page 4, and the second range has no source to go with it. */
  lemma {:induction false} NothingToWrite(paths: seq<Extraction.Path>, ranges: seq<string>)
    requires paths == ["a.pdf"] && ranges == ["4", "1"]
    ensures Extraction.Extract(paths, ranges, Library) == Extraction.NothingProduced
  {
    SmallNumerals();
    PastTheEnd(ranges[0], 4, 3);
    assert Library(paths[0]) == Some(["A1", "A2", "A3"]);
    assert Extraction.Pairs(paths, ranges) == 1;
  }
}
