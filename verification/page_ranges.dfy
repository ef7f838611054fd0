/** `parse_page_ranges(page_ranges, max_pages)`: a comma-separated range
    expression such as `"1,3-4,6-8,10"` and a page count become the ascending
    list of distinct 1-based pages it selects, or `None` if any token is bad. */
module PageRanges {
  import opened Maybe
  import PyStr
  import PyInt
  import opened SortedSets

  /** What one comma-separated token asks for: a single page, or every page
      from `first` to `last` inclusive. */
  datatype Selection = Single(page: int) | Span(first: int, last: int)

  /** A token with one hyphen is read as a range of the two integers around
      it, each read as `int()` reads it, or fails if either is not one. */
  lemma {:induction false} SpanToken(left: string, right: string)
    requires '-' !in left && '-' !in right
    ensures ParseToken(left + ['-'] + right) ==
              match (PyInt.ParseInt(left), PyInt.ParseInt(right))
              case (Some(first), Some(last)) => Some(Span(first, last))
              case _ => None
  {
    var tok := left + ['-'] + right;
    assert tok[|left|] == '-';
    PyStr.SplitJoin([left, right], '-');
    assert PyStr.Join([left, right], '-') == tok;
  }

  /** How many hyphens a string holds. */
  function Hyphens(s: string): nat {
    multiset(s)['-']
  }

  /** The integers a token names, before any bound is checked. A token with a
      hyphen must split on `-` into exactly two integers (a third piece makes
      the tuple unpacking fail); any other token must be one integer. Since no
      piece can carry a `-`, every number read here is non-negative. */
  function ParseToken(tok: string): (r: Option<Selection>)
    ensures Hyphens(tok) > 1 ==> r.None?
    ensures r.Some? && r.value.Single? ==> Hyphens(tok) == 0 && r.value.page >= 0
    ensures r.Some? && r.value.Span? ==> Hyphens(tok) == 1 && r.value.first >= 0 && r.value.last >= 0
  {
    if '-' in tok then
      var parts := PyStr.Split(tok, '-');
      if |parts| != 2 then None
      else
        match (PyInt.ParseInt(parts[0]), PyInt.ParseInt(parts[1]))
        case (Some(first), Some(last)) => Some(Span(first, last))
        case _ => None
    else
      assert Hyphens(tok) == 0;
      match PyInt.ParseInt(tok)
      case Some(page) => Some(Single(page))
      case None => None
  }

  /** The bound checks: `1 <= page <= max_pages` for a single page, and
      `1 <= start <= end <= max_pages` for a range. */
  predicate Allowed(sel: Selection, maxPages: int) {
    match sel
    case Single(page) => 1 <= page <= maxPages
    case Span(first, last) => 1 <= first && first <= last && last <= maxPages
  }

  /** The pages a selection adds to the set. */
  function Pages(sel: Selection): set<int> {
    match sel
    case Single(page) => {page}
    case Span(first, last) => Interval(first, last)
  }

  /** `set(range(first, last + 1))`. */
  function Interval(first: int, last: int): (r: set<int>)
    ensures forall p :: p in r <==> first <= p <= last
    decreases last - first
  {
    if first > last then {} else {first} + Interval(first + 1, last)
  }

  /** The pages one token selects, or `None` when it is malformed or out of
      bounds. An accepted token always selects at least one page, and only
      pages of the document. */
  function TokenPages(tok: string, maxPages: int): (r: Option<set<int>>)
    ensures r.Some? ==> r.value != {}
    ensures r.Some? ==> forall p :: p in r.value ==> 1 <= p <= maxPages
  {
    match ParseToken(tok)
    case Some(sel) =>
      if Allowed(sel, maxPages) then
        assert (if sel.Single? then sel.page else sel.first) in Pages(sel);
        Some(Pages(sel))
      else None
    case None => None
  }

  /** Page `p` is selected by some token of the list. */
  ghost predicate Selected(tokens: seq<string>, maxPages: int, p: int) {
    exists i :: 0 <= i < |tokens| && TokenPages(tokens[i], maxPages).Some? && p in TokenPages(tokens[i], maxPages).value
  }

  /** The loop over the tokens, adding each token's pages to `pages`; the
      first bad token abandons the whole expression. */
  function Collect(tokens: seq<string>, maxPages: int, pages: set<int>): (r: Option<set<int>>)
    ensures r.Some? <==> forall i :: 0 <= i < |tokens| ==> TokenPages(tokens[i], maxPages).Some?
    ensures r.Some? ==> forall p :: p in r.value <==> p in pages || Selected(tokens, maxPages, p)
  {
    if |tokens| == 0 then Some(pages)
    else
      match TokenPages(tokens[0], maxPages)
      case None => None
      case Some(more) =>
        SelectedFirst(tokens, maxPages);
        Collect(tokens[1..], maxPages, pages + more)
  }

  /** A page is selected by a list of tokens whose first is good when the first
      token or one of the others selects it; and the list is all good when the
      first and the rest are. */
  lemma {:induction false} SelectedFirst(tokens: seq<string>, maxPages: int)
    requires |tokens| > 0 && TokenPages(tokens[0], maxPages).Some?
    ensures forall p :: Selected(tokens, maxPages, p) <==>
              p in TokenPages(tokens[0], maxPages).value || Selected(tokens[1..], maxPages, p)
    ensures (forall i :: 0 <= i < |tokens| ==> TokenPages(tokens[i], maxPages).Some?) <==>
              (forall i :: 0 <= i < |tokens[1..]| ==> TokenPages(tokens[1..][i], maxPages).Some?)
  {
    SelectedFromRest(tokens, maxPages);
    SelectedInRest(tokens, maxPages);
    GoodFromRest(tokens, maxPages);
  }

  lemma {:induction false} SelectedFromRest(tokens: seq<string>, maxPages: int)
    requires |tokens| > 0
    ensures forall p :: Selected(tokens[1..], maxPages, p) ==> Selected(tokens, maxPages, p)
  {
    var rest := tokens[1..];
    forall p | Selected(rest, maxPages, p) ensures Selected(tokens, maxPages, p) {
      var i :| 0 <= i < |rest| && TokenPages(rest[i], maxPages).Some? && p in TokenPages(rest[i], maxPages).value;
      assert tokens[i + 1] == rest[i];
    }
  }

  lemma {:induction false} SelectedInRest(tokens: seq<string>, maxPages: int)
    requires |tokens| > 0 && TokenPages(tokens[0], maxPages).Some?
    ensures forall p :: Selected(tokens, maxPages, p) && p !in TokenPages(tokens[0], maxPages).value ==>
              Selected(tokens[1..], maxPages, p)
  {
    var rest := tokens[1..];
    forall p | Selected(tokens, maxPages, p) && p !in TokenPages(tokens[0], maxPages).value
      ensures Selected(rest, maxPages, p)
    {
      var i :| 0 <= i < |tokens| && TokenPages(tokens[i], maxPages).Some? && p in TokenPages(tokens[i], maxPages).value;
      assert i > 0 && rest[i - 1] == tokens[i];
    }
  }

  lemma {:induction false} GoodFromRest(tokens: seq<string>, maxPages: int)
    requires |tokens| > 0 && TokenPages(tokens[0], maxPages).Some?
    ensures (forall i :: 0 <= i < |tokens| ==> TokenPages(tokens[i], maxPages).Some?) <==>
              (forall i :: 0 <= i < |tokens[1..]| ==> TokenPages(tokens[1..][i], maxPages).Some?)
  {
    AllFromRest(tokens, tok => TokenPages(tok, maxPages).Some?);
  }

  /** A property holds of every element exactly when it holds of the first
      and of every later one. */
  lemma {:induction false} AllFromRest<T>(s: seq<T>, good: T -> bool)
    requires |s| > 0 && good(s[0])
    ensures (forall i :: 0 <= i < |s| ==> good(s[i])) <==> (forall i :: 0 <= i < |s[1..]| ==> good(s[1..][i]))
  {
    var rest := s[1..];
    if forall i :: 0 <= i < |rest| ==> good(rest[i]) {
      forall i | 0 <= i < |s| ensures good(s[i]) {
        if i > 0 {
          assert s[i] == rest[i - 1];
        }
      }
    }
  }

  /** Only pages of the document are ever selected. */
  lemma {:induction false} SelectedInBounds(tokens: seq<string>, maxPages: int, p: int)
    requires Selected(tokens, maxPages, p)
    ensures 1 <= p <= maxPages
  {
    var i :| 0 <= i < |tokens| && TokenPages(tokens[i], maxPages).Some? && p in TokenPages(tokens[i], maxPages).value;
  }

  /** The tokens of an expression: `page_ranges.split(",")`. */
  function Tokens(expr: string): (tokens: seq<string>)
    ensures |tokens| >= 1
  {
    PyStr.Split(expr, ',')
  }

  /** A single bad token spoils the whole expression: no partial list is
      returned. */
  lemma {:induction false} BadTokenSpoils(expr: string, maxPages: int, i: nat)
    requires i < |Tokens(expr)| && TokenPages(Tokens(expr)[i], maxPages).None?
    ensures ParseRanges(expr, maxPages).None?
  {
  }

  /** An empty token is never accepted: `int("")` fails. */
  lemma {:induction false} EmptyTokenRejected(maxPages: int)
    ensures TokenPages("", maxPages).None?
  {
    assert PyStr.Strip("") == "";
  }

  /** A list of page numbers the copy loop can use: at least one page, and
      every page within `[1, maxPages]`. */
  predicate Acceptable(pages: seq<int>, maxPages: int) {
    |pages| > 0 && forall k :: 0 <= k < |pages| ==> 1 <= pages[k] <= maxPages
  }

  /** `parse_page_ranges(expr, maxPages)`. It succeeds exactly when every
      token is good; the pages it then returns are strictly ascending, never
      empty, within `[1, maxPages]`, and are exactly the pages some token
      selects. With no pages to choose from every expression fails. */
  function ParseRanges(expr: string, maxPages: int): (r: Option<seq<int>>)
    ensures r.Some? <==> forall i :: 0 <= i < |Tokens(expr)| ==> TokenPages(Tokens(expr)[i], maxPages).Some?
    ensures r.Some? ==> StrictlyAscending(r.value)
    ensures r.Some? ==> Acceptable(r.value, maxPages)
    ensures r.Some? ==> forall p :: p in Elements(r.value) <==> Selected(Tokens(expr), maxPages, p)
    ensures maxPages < 1 ==> r.None?
  {
    var tokens := Tokens(expr);
    match Collect(tokens, maxPages, {})
    case None => None
    case Some(pages) =>
      var sorted := SortedWithin(pages, 1, maxPages);
      SortedSelection(tokens, maxPages, pages, sorted);
      Some(sorted)
  }

  /** Listing the collected pages of `[1, maxPages]` in order loses none of
      them, and at least the first token's pages are there. */
  lemma {:induction false} SortedSelection(tokens: seq<string>, maxPages: int, pages: set<int>, sorted: seq<int>)
    requires |tokens| >= 1 && TokenPages(tokens[0], maxPages).Some?
    requires forall p :: p in pages <==> Selected(tokens, maxPages, p)
    requires Elements(sorted) == set x | x in pages && 1 <= x <= maxPages
    ensures Elements(sorted) == pages
    ensures forall k :: 0 <= k < |sorted| ==> 1 <= sorted[k] <= maxPages
    ensures |sorted| > 0
  {
    forall p | p in pages ensures 1 <= p <= maxPages {
      SelectedInBounds(tokens, maxPages, p);
    }
    forall k | 0 <= k < |sorted| ensures 1 <= sorted[k] <= maxPages {
      assert sorted[k] in Elements(sorted);
    }
    var first := TokenPages(tokens[0], maxPages).value;
    assert first <= pages by {
      forall p | p in first ensures p in pages {
        assert Selected(tokens, maxPages, p);
      }
    }
  }

  /** A selection every token could name: no negative number in it. */
  predicate Natural(sel: Selection) {
    match sel
    case Single(page) => page >= 0
    case Span(first, last) => first >= 0 && last >= 0
  }

  /** The canonical token for a selection: `"7"` or `"3-5"`. */
  function FormatSelection(sel: Selection): string
    requires Natural(sel)
  {
    match sel
    case Single(page) => PyInt.FormatNat(page)
    case Span(first, last) => PyInt.FormatNat(first) + ['-'] + PyInt.FormatNat(last)
  }

  /** The canonical expression for a non-empty list of selections: their
      tokens joined by commas. */
  function Render(sels: seq<Selection>): string
    requires |sels| >= 1
    requires forall i :: 0 <= i < |sels| ==> Natural(sels[i])
  {
    PyStr.Join(FormatAll(sels), ',')
  }

  function FormatAll(sels: seq<Selection>): (tokens: seq<string>)
    requires forall i :: 0 <= i < |sels| ==> Natural(sels[i])
    ensures |tokens| == |sels|
  {
    seq(|sels|, i requires 0 <= i < |sels| => FormatSelection(sels[i]))
  }

  /** Every page some selection of the list asks for. */
  function PagesOf(sels: seq<Selection>): (r: set<int>)
    ensures forall p :: p in r <==> exists i :: 0 <= i < |sels| && p in Pages(sels[i])
  {
    if |sels| == 0 then {}
    else
      var rest := PagesOf(sels[1..]);
      assert forall i :: 1 <= i < |sels| ==> sels[i] == sels[1..][i - 1];
      assert forall p :: p in Pages(sels[0]) + rest ==> exists i :: 0 <= i < |sels| && p in Pages(sels[i]) by {
        forall p | p in Pages(sels[0]) + rest ensures exists i :: 0 <= i < |sels| && p in Pages(sels[i]) {
          if p !in Pages(sels[0]) {
            var i :| 0 <= i < |sels[1..]| && p in Pages(sels[1..][i]);
            assert p in Pages(sels[i + 1]);
          }
        }
      }
      Pages(sels[0]) + rest
  }

  /** A canonical token reads back as the selection it was made from. */
  lemma {:induction false} ParseFormatSelection(sel: Selection)
    requires Natural(sel)
    ensures ParseToken(FormatSelection(sel)) == Some(sel)
  {
    match sel
    case Single(page) =>
      PyInt.DigitsExclude(PyInt.FormatNat(page), '-');
      PyInt.ParseFormatNat(page);
    case Span(first, last) =>
      ParseFormatSpan(first, last);
  }

  lemma {:induction false} ParseFormatSpan(first: nat, last: nat)
    ensures ParseToken(PyInt.FormatNat(first) + ['-'] + PyInt.FormatNat(last)) == Some(Span(first, last))
  {
    var a := PyInt.FormatNat(first);
    var b := PyInt.FormatNat(last);
    PyInt.DigitsExclude(a, '-');
    PyInt.DigitsExclude(b, '-');
    PyInt.ParseFormatNat(first);
    PyInt.ParseFormatNat(last);
    SpanToken(a, b);
  }

  /** The tokens of a canonical expression are the canonical tokens of its
      selections, one each. */
  lemma {:induction false} TokensOfRender(sels: seq<Selection>)
    requires |sels| >= 1
    requires forall i :: 0 <= i < |sels| ==> Natural(sels[i])
    ensures Tokens(Render(sels)) == FormatAll(sels)
  {
    var tokens := FormatAll(sels);
    forall i | 0 <= i < |tokens| ensures ',' !in tokens[i] {
      NoCommaInToken(sels[i]);
    }
    PyStr.SplitJoin(tokens, ',');
  }

  lemma {:induction false} NoCommaInToken(sel: Selection)
    requires Natural(sel)
    ensures ',' !in FormatSelection(sel)
  {
    match sel
    case Single(page) =>
      PyInt.DigitsExclude(PyInt.FormatNat(page), ',');
    case Span(first, last) =>
      PyInt.DigitsExclude(PyInt.FormatNat(first), ',');
      PyInt.DigitsExclude(PyInt.FormatNat(last), ',');
  }

  /** A canonical token is accepted exactly when its selection is within the
      document, and then selects the selection's pages. */
  lemma {:induction false} TokenPagesOfFormat(sel: Selection, maxPages: int)
    requires Natural(sel)
    ensures TokenPages(FormatSelection(sel), maxPages) == if Allowed(sel, maxPages) then Some(Pages(sel)) else None
  {
    ParseFormatSelection(sel);
  }

  /** The parser accepts a canonical expression exactly when every selection
      in it is within the document, and then returns the pages the selections
      ask for, in ascending order. */
  lemma {:induction false} ParseRender(sels: seq<Selection>, maxPages: int)
    requires |sels| >= 1
    requires forall i :: 0 <= i < |sels| ==> Natural(sels[i])
    ensures ParseRanges(Render(sels), maxPages).Some? <==> forall i :: 0 <= i < |sels| ==> Allowed(sels[i], maxPages)
    ensures ParseRanges(Render(sels), maxPages).Some? ==>
              ParseRanges(Render(sels), maxPages).value == SortedWithin(PagesOf(sels), 1, maxPages)
  {
    RenderedTokens(sels, maxPages);
    if ParseRanges(Render(sels), maxPages).Some? {
      RenderedValue(sels, maxPages);
    }
  }

  /** Each token of a rendering selects what its selection asks for, when allowed. */
  lemma {:induction false} RenderedTokens(sels: seq<Selection>, maxPages: int)
    requires |sels| >= 1
    requires forall i :: 0 <= i < |sels| ==> Natural(sels[i])
    ensures |Tokens(Render(sels))| == |sels|
    ensures forall i :: 0 <= i < |sels| ==>
              TokenPages(Tokens(Render(sels))[i], maxPages) == if Allowed(sels[i], maxPages) then Some(Pages(sels[i])) else None
  {
    var tokens := Tokens(Render(sels));
    TokensOfRender(sels);
    forall i | 0 <= i < |sels|
      ensures TokenPages(tokens[i], maxPages) == if Allowed(sels[i], maxPages) then Some(Pages(sels[i])) else None
    {
      TokenPagesOfFormat(sels[i], maxPages);
    }
  }

  lemma {:induction false} RenderedValue(sels: seq<Selection>, maxPages: int)
    requires |sels| >= 1
    requires forall i :: 0 <= i < |sels| ==> Natural(sels[i])
    requires ParseRanges(Render(sels), maxPages).Some?
    ensures ParseRanges(Render(sels), maxPages).value == SortedWithin(PagesOf(sels), 1, maxPages)
  {
    var tokens := Tokens(Render(sels));
    RenderedTokens(sels, maxPages);
    var r := ParseRanges(Render(sels), maxPages);
    SelectedRendered(sels, maxPages, tokens);
    var want := SortedWithin(PagesOf(sels), 1, maxPages);
    assert Elements(r.value) == Elements(want);
    AscendingUnique(r.value, want);
  }

  /** When every selection is allowed, the pages the tokens select are the
      pages the selections ask for. */
  lemma {:induction false} SelectedRendered(sels: seq<Selection>, maxPages: int, tokens: seq<string>)
    requires |tokens| == |sels|
    requires forall i :: 0 <= i < |sels| ==> TokenPages(tokens[i], maxPages) == Some(Pages(sels[i]))
    ensures forall p :: Selected(tokens, maxPages, p) <==> p in PagesOf(sels)
  {
    forall p | p in PagesOf(sels) ensures Selected(tokens, maxPages, p) {
      var i :| 0 <= i < |sels| && p in Pages(sels[i]);
      assert TokenPages(tokens[i], maxPages).Some?;
    }
  }
}
