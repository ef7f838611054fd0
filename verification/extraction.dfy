/** The page-copying loop of `extract_pages_to_pdf`, with the PDF library and
    the file system taken out. Opening and reading a path is the parameter
    `load`, which yields the document's pages or `None` when the file cannot
    be opened or read; the writer is the sequence of pages handed to it.

    The loop is written against any page-range parser that keeps the promise
    `parse_page_ranges` keeps (`Bounded` below), and `Extract` instantiates it with
    `PageRanges.ParseRanges`; the lemmas therefore hold for the real parser. */
module Extraction {
  import opened Maybe
  import PageRanges

  type Path = string

  /** A page-range parser: a range expression and a page count give the page
      numbers to copy, or `None`. */
  type Parser = (string, int) -> Option<seq<int>>

  /** What the loop relies on from the parser: a successful parse names at
      least one page, and only pages `1..count` of the document. */
  ghost predicate Bounded(parse: Parser) {
    forall range, count :: parse(range, count).Some? ==> PageRanges.Acceptable(parse(range, count).value, count)
  }

  /** `parse_page_ranges` keeps that promise. */
  lemma ParseRangesBounded()
    ensures Bounded(PageRanges.ParseRanges)
  {
  }

  /** The state the loop carries: the pages added to the writer so far and
      the `pages_added` flag. */
  datatype Run<Page> = Run(output: seq<Page>, pagesAdded: bool)

  /** How a run ends: the writer's pages are saved to the output path, or no
      output file is created. */
  datatype Outcome<Page> = Written(pages: seq<Page>) | NothingProduced

  /** `doc.pages[p - 1]` for each page number `p`, in order. */
  function Gather<Page>(doc: seq<Page>, pages: seq<int>): (r: seq<Page>)
    requires forall k :: 0 <= k < |pages| ==> 1 <= pages[k] <= |doc|
    ensures |r| == |pages|
    ensures forall k :: 0 <= k < |pages| ==> r[k] == doc[pages[k] - 1]
  {
    if |pages| == 0 then [] else [doc[pages[0] - 1]] + Gather(doc, pages[1..])
  }

  /** What one (path, range) pair adds to the writer, or `None` when the pair
      is skipped: the source could not be read, or its range expression does
      not parse against its page count. A pair that is not skipped adds at
      least one page: the pages its expression selects, in the order the
      parser lists them, each read at an index inside its document. */
  function Contribution<Page>(parse: Parser, source: Option<seq<Page>>, range: string): (r: Option<seq<Page>>)
    requires Bounded(parse)
    ensures r.Some? <==> source.Some? && parse(range, |source.value|).Some?
    ensures r.Some? ==>
              var pages := parse(range, |source.value|).value;
              && |r.value| == |pages| > 0
              && forall k :: 0 <= k < |pages| ==> 0 <= pages[k] - 1 < |source.value| && r.value[k] == source.value[pages[k] - 1]
  {
    match source
    case None => None
    case Some(doc) =>
      match parse(range, |doc|)
      case None => None
      case Some(pages) => Some(Gather(doc, pages))
  }

  /** A pair whose source opens and whose expression parses adds exactly the
      pages the parser lists. */
  lemma {:induction false} ContributionOf<Page>(parse: Parser, doc: seq<Page>, range: string, pages: seq<int>)
    requires Bounded(parse) && parse(range, |doc|) == Some(pages)
    ensures forall k :: 0 <= k < |pages| ==> 1 <= pages[k] <= |doc|
    ensures Contribution(parse, Some(doc), range) == Some(Gather(doc, pages))
  {
  }

  /** One iteration of the loop. */
  function Step<Page>(parse: Parser, run: Run<Page>, source: Option<seq<Page>>, range: string): Run<Page>
    requires Bounded(parse)
  {
    match Contribution(parse, source, range)
    case None => run
    case Some(pages) => Run(run.output + pages, true)
  }

  /** How many pairs `zip(pdf_paths, page_ranges)` yields. */
  function Pairs<A, B>(paths: seq<A>, ranges: seq<B>): (n: nat)
    ensures n <= |paths| && n <= |ranges| && (n == |paths| || n == |ranges|)
  {
    if |paths| <= |ranges| then |paths| else |ranges|
  }

  /** The loop after its first `n` pairs. `pages_added` is set exactly when
      some pair so far was not skipped, which is exactly when the writer has
      received a page. */
  function Process<Page>(parse: Parser, paths: seq<Path>, ranges: seq<string>, load: Path -> Option<seq<Page>>, n: nat): (run: Run<Page>)
    requires Bounded(parse)
    requires n <= |paths| && n <= |ranges|
    ensures run.pagesAdded <==> exists i :: 0 <= i < n && Contribution(parse, load(paths[i]), ranges[i]).Some?
    ensures run.pagesAdded <==> |run.output| > 0
  {
    if n == 0 then Run([], false)
    else Step(parse, Process(parse, paths, ranges, load, n - 1), load(paths[n - 1]), ranges[n - 1])
  }

  /** The run with a given parser: the output is written exactly when some
      pair contributed, and a written output is never empty. */
  function ExtractWith<Page>(parse: Parser, paths: seq<Path>, ranges: seq<string>, load: Path -> Option<seq<Page>>): (o: Outcome<Page>)
    requires Bounded(parse)
    ensures o.Written? <==> exists i :: 0 <= i < Pairs(paths, ranges) && Contribution(parse, load(paths[i]), ranges[i]).Some?
    ensures o.Written? ==> |o.pages| > 0
  {
    var run := Process(parse, paths, ranges, load, Pairs(paths, ranges));
    if run.pagesAdded then Written(run.output) else NothingProduced
  }

  /** `extract_pages_to_pdf(pdf_paths, page_ranges, output_path)`: the output
      is written exactly when some pair has a readable source whose range
      expression parses, and a written output is never empty. */
  function Extract<Page>(paths: seq<Path>, ranges: seq<string>, load: Path -> Option<seq<Page>>): (o: Outcome<Page>)
    ensures o.Written? <==>
              exists i :: && 0 <= i < Pairs(paths, ranges)
                          && load(paths[i]).Some?
                          && PageRanges.ParseRanges(ranges[i], |load(paths[i]).value|).Some?
    ensures o.Written? ==> |o.pages| > 0
  {
    ParseRangesBounded();
    ExtractWith(PageRanges.ParseRanges, paths, ranges, load)
  }

  /** The concatenation of a list of page lists, front to back. */
  function Concat<T>(parts: seq<seq<T>>): seq<T> {
    if |parts| == 0 then [] else parts[0] + Concat(parts[1..])
  }

  lemma {:induction false} ConcatAppend<T>(a: seq<seq<T>>, b: seq<seq<T>>)
    ensures Concat(a + b) == Concat(a) + Concat(b)
  {
    if |a| == 0 {
      assert a + b == b;
    } else {
      ConcatAppend(a[1..], b);
      assert (a + b)[1..] == a[1..] + b;
      assert (a + b)[0] == a[0];
    }
  }

  /** What each of the first `n` pairs adds, nothing for a skipped pair. */
  function Contributions<Page>(parse: Parser, paths: seq<Path>, ranges: seq<string>, load: Path -> Option<seq<Page>>, n: nat): (parts: seq<seq<Page>>)
    requires Bounded(parse)
    requires n <= |paths| && n <= |ranges|
    ensures |parts| == n
  {
    seq(n, i requires 0 <= i < n => Contribution(parse, load(paths[i]), ranges[i]).GetOr([]))
  }

  /** The writer receives each pair's pages in pair order: the output is the
      concatenation of the contributions. */
  lemma {:induction false} ProcessConcatenates<Page>(parse: Parser, paths: seq<Path>, ranges: seq<string>, load: Path -> Option<seq<Page>>, n: nat)
    requires Bounded(parse)
    requires n <= |paths| && n <= |ranges|
    ensures Process(parse, paths, ranges, load, n).output == Concat(Contributions(parse, paths, ranges, load, n))
  {
    if n > 0 {
      ProcessConcatenates(parse, paths, ranges, load, n - 1);
      var parts := Contributions(parse, paths, ranges, load, n);
      ContributionsSnoc(parse, paths, ranges, load, n);
      ConcatAppend(Contributions(parse, paths, ranges, load, n - 1), [parts[n - 1]]);
      assert Concat([parts[n - 1]]) == parts[n - 1] + Concat<Page>([]);
    }
  }

  /** The contributions of `n` pairs are those of the first `n - 1` and then the last one's. */
  lemma {:induction false} ContributionsSnoc<Page>(parse: Parser, paths: seq<Path>, ranges: seq<string>, load: Path -> Option<seq<Page>>, n: nat)
    requires Bounded(parse)
    requires 0 < n <= |paths| && n <= |ranges|
    ensures var parts := Contributions(parse, paths, ranges, load, n);
            parts == Contributions(parse, paths, ranges, load, n - 1) + [parts[n - 1]]
            && parts[n - 1] == Contribution(parse, load(paths[n - 1]), ranges[n - 1]).GetOr([])
  {
    var parts := Contributions(parse, paths, ranges, load, n);
    var front := Contributions(parse, paths, ranges, load, n - 1);
    forall i | 0 <= i < n - 1 ensures parts[i] == front[i] {
    }
  }

  /** The run's result in one formula: the concatenated contributions of the
      pairs `zip` yields, written if and only if they hold a page. */
  lemma {:induction false} ExtractResult<Page>(parse: Parser, paths: seq<Path>, ranges: seq<string>, load: Path -> Option<seq<Page>>)
    requires Bounded(parse)
    ensures var all := Concat(Contributions(parse, paths, ranges, load, Pairs(paths, ranges)));
            ExtractWith(parse, paths, ranges, load) == if |all| > 0 then Written(all) else NothingProduced
  {
    ProcessConcatenates(parse, paths, ranges, load, Pairs(paths, ranges));
  }

  /** `s` without its element at index `j`. */
  function RemoveAt<T>(s: seq<T>, j: nat): (r: seq<T>)
    requires j < |s|
    ensures |r| == |s| - 1
  {
    s[..j] + s[j + 1..]
  }

  /** A skipped pair changes nothing: the run gives the same result with that
      pair left out, so the pairs after it are processed as if it were not
      there. */
  lemma {:induction false} SkippedPairIsInert<Page>(parse: Parser, paths: seq<Path>, ranges: seq<string>, load: Path -> Option<seq<Page>>, j: nat)
    requires Bounded(parse)
    requires j < |paths| && j < |ranges|
    requires Contribution(parse, load(paths[j]), ranges[j]).None?
    ensures ExtractWith(parse, paths, ranges, load) == ExtractWith(parse, RemoveAt(paths, j), RemoveAt(ranges, j), load)
  {
    var n := Pairs(paths, ranges);
    var parts := Contributions(parse, paths, ranges, load, n);
    ContributionsWithout(parse, paths, ranges, load, j);
    ConcatSkipsEmpty(parts, j);
    ExtractResult(parse, paths, ranges, load);
    ExtractResult(parse, RemoveAt(paths, j), RemoveAt(ranges, j), load);
  }

  /** Leaving out pair `j` leaves out its contribution and keeps the others in order. */
  lemma {:induction false} ContributionsWithout<Page>(parse: Parser, paths: seq<Path>, ranges: seq<string>, load: Path -> Option<seq<Page>>, j: nat)
    requires Bounded(parse)
    requires j < |paths| && j < |ranges|
    ensures var n := Pairs(paths, ranges);
            var parts := Contributions(parse, paths, ranges, load, n);
            && Pairs(RemoveAt(paths, j), RemoveAt(ranges, j)) == n - 1
            && Contributions(parse, RemoveAt(paths, j), RemoveAt(ranges, j), load, n - 1) == RemoveAt(parts, j)
  {
    var paths', ranges' := RemoveAt(paths, j), RemoveAt(ranges, j);
    var n := Pairs(paths, ranges);
    var parts := Contributions(parse, paths, ranges, load, n);
    var parts' := Contributions(parse, paths', ranges', load, n - 1);
    forall i | 0 <= i < n - 1 ensures parts'[i] == RemoveAt(parts, j)[i] {
      if i < j {
        assert paths'[i] == paths[i] && ranges'[i] == ranges[i];
      } else {
        assert paths'[i] == paths[i + 1] && ranges'[i] == ranges[i + 1];
      }
    }
  }

  /** An empty part adds nothing to a concatenation. */
  lemma {:induction false} ConcatSkipsEmpty<T>(parts: seq<seq<T>>, j: nat)
    requires j < |parts| && parts[j] == []
    ensures Concat(parts) == Concat(RemoveAt(parts, j))
  {
    assert parts == parts[..j] + [parts[j]] + parts[j + 1..];
    ConcatAppend(parts[..j] + [parts[j]], parts[j + 1..]);
    ConcatAppend(parts[..j], [parts[j]]);
    ConcatAppend(parts[..j], parts[j + 1..]);
    assert Concat([parts[j]]) == [] + Concat<T>([]);
  }

  /** Only the pairs `zip` yields matter: paths or ranges beyond the shorter
      list are ignored. */
  lemma {:induction false} ZipTruncates<Page>(parse: Parser, paths: seq<Path>, ranges: seq<string>, load: Path -> Option<seq<Page>>)
    requires Bounded(parse)
    ensures var n := Pairs(paths, ranges);
            ExtractWith(parse, paths, ranges, load) == ExtractWith(parse, paths[..n], ranges[..n], load)
  {
    var n := Pairs(paths, ranges);
    var parts := Contributions(parse, paths, ranges, load, n);
    assert Contributions(parse, paths[..n], ranges[..n], load, n) == parts;
    ExtractResult(parse, paths, ranges, load);
    ExtractResult(parse, paths[..n], ranges[..n], load);
  }
}
