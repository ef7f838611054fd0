# Page extraction from PDF files, modelled in Dafny

`pdf_print/print_pdf.py` copies selected pages from several PDF files into
one output file. Each input path comes with a range expression such as
`"1,3-4,6-8,10"`:

- `parse_page_ranges(page_ranges, max_pages)` turns an expression and a
  document's page count into the ascending list of distinct 1-based pages it
  selects. It returns `None` if any comma-separated token is malformed or out
  of bounds.
- `extract_pages_to_pdf(pdf_paths, page_ranges, output_path)` walks the
  `(path, range)` pairs that `zip` yields. For each pair it opens the
  document and parses the range against its page count. When that works it
  appends the selected pages to a writer and sets `pages_added`. A pair that
  fails is skipped. At the end the writer is saved only if `pages_added` is
  set.

The model has seven modules:

- `Maybe`: the `Option` type, with `None` standing for Python's `None` and
  for a caught exception.
- `PyStr`: the parts of Python's `str` the parser relies on.
  - `Split` is `str.split` with a one-character separator, with its inverse `Join`.
  - `Strip` removes the padding `int()` skips around the digits of an ASCII
    string: the C-locale whitespace of codes 9 to 13 and the space. This is
    narrower than `str.strip()`, which also removes codes 28 to 31.
- `PyInt`: `int()` on a string, as it applies here.
  - Optional surrounding whitespace, an optional `+` or `-`, and a non-empty
    run of the digits `0` to `9`.
  - `FormatNat` and `FormatInt` play the part of `str(n)` and give the round trips.
- `SortedSets`: `sorted(pages)` for a set of integers.
  - `SortedWithin` lists the members of a set that lie in a bound, in order.
  - `AscendingUnique` shows that only one such list exists.
- `PageRanges`: `parse_page_ranges`.
  - `ParseToken`, `TokenPages` and `Collect` follow the loop body and the loop.
  - `ParseRanges` is the whole function.
  - `Selected` is an independent statement of which pages the tokens select.
  - `Render` writes a list of selections back as an expression, so that
    parsing can be checked against it.
- `Extraction`: the copy loop of `extract_pages_to_pdf`.
  - Opening and reading a path is a parameter `load: Path -> Option<seq<Page>>`.
  - The writer is the sequence of pages it has received.
  - The result is `Written(pages)` or `NothingProduced`.
  - The loop is written against any parser that keeps the promise
    `parse_page_ranges` keeps (`Bounded`), and `Extract` instantiates it with
    `PageRanges.ParseRanges`.
- `Scenarios`: worked examples, each proving the result for a small concrete input.
  - The parser cases include `"2,2-4,3"`, `"1-1"`, `"1-5"`, `"0-2"`, `"3-2"`,
    `"1,,3"`, a trailing comma and `""`.
  - The loop cases use a small library of two documents. They cover order
    across documents, a skipped pair followed by later pairs, and a run that
    writes nothing.

Decisions taken where the code leaves room:

- `sorted(pages)` is modelled by listing, in order, the members of the
  collected set that lie in `[1, max_pages]`. This is the same list as the
  source's, because every collected page is proved to lie in that interval
  (`SortedSelection`, `AscendingUnique`).
- A hyphenated token must split on `-` into exactly two pieces.
  - With more pieces, the unpacking `start, end = ...` raises `ValueError`,
    which the source catches.
  - A token with a leading `-`, such as `"-3"`, splits into `""` and `"3"`.
    It fails because `int("")` fails.
  - So no number read by the parser is ever negative.
- `max_pages` is an unbounded integer. `ParseRanges` fails for every
  expression when it is below 1.

## Model

| member | source | states |
|---|---|---|
| PyStr.Split | pdf_print/print_pdf.py:16 | `split` on a one-character separator gives one more piece than there are separators, and no piece contains the separator |
| PyStr.JoinSplit | pdf_print/print_pdf.py:16 | joining the pieces of a split with the separator gives back the original string |
| PyStr.SplitJoin | pdf_print/print_pdf.py:16 | splitting a join of separator-free pieces gives back exactly those pieces, so `split` has a unique decomposition |
| PyStr.SplitNoSeparator | pdf_print/print_pdf.py:16-19 | a string without the separator splits into itself alone: a comma-free expression is one token |
| PyStr.SplitFirstPiece | pdf_print/print_pdf.py:16 | a separator-free piece followed by the separator is split off as the first piece |
| PyStr.Strip | pdf_print/print_pdf.py:19-24 | the C-locale whitespace `int()` skips is removed at both ends: the result starts and ends with a non-space, keeps every non-space character and adds none |
| PyStr.StripPadded | pdf_print/print_pdf.py:19-24 | whitespace put around a string that starts and ends with a non-space is exactly what is removed |
| PyInt.ParseInt | pdf_print/print_pdf.py:24 | `int(s)` accepts only strings made of whitespace, digits and signs that hold at least one digit, and a negative result needs a `-` |
| PyInt.ParseIntAccepts | pdf_print/print_pdf.py:24 | whitespace, an optional `+` or `-`, a non-empty run of digits and whitespace is always accepted, with the value the digits spell under the sign, leading zeros included |
| PyInt.ParseIntShape | pdf_print/print_pdf.py:24 | conversely every accepted string has exactly that shape and that value, so strings such as `"1 2"`, `"3+"` or `"+-1"` are rejected |
| PyInt.ParseFormatInt | pdf_print/print_pdf.py:24 | `int()` reads back every integer's decimal form, with any whitespace around it |
| PyInt.ParsePlusFormatNat | pdf_print/print_pdf.py:24 | an explicit `+` before the digits is accepted and does not change the value |
| PyInt.ParseFormatNat | pdf_print/print_pdf.py:24 | `int(str(n)) == n` for every natural number |
| PyInt.DigitsValueFormatNat | pdf_print/print_pdf.py:24 | the value of the digits of `str(n)` is `n` |
| SortedSets.SortedWithin | pdf_print/print_pdf.py:31 | the result is strictly ascending and holds exactly the members of the set within the bounds |
| SortedSets.AscendingUnique | pdf_print/print_pdf.py:31 | two strictly ascending lists with the same members are equal, so the sorted list of a set is unique |
| PageRanges.ParseToken | pdf_print/print_pdf.py:18-24 | a token with more than one hyphen fails; a single page comes from a hyphen-free token and a range from a one-hyphen token; both hold only non-negative numbers |
| PageRanges.SpanToken | pdf_print/print_pdf.py:18-19 | a one-hyphen token is a range exactly when `int()` accepts both sides, with those two values |
| PageRanges.Interval | pdf_print/print_pdf.py:22 | `range(start, end + 1)` holds exactly the integers from `start` to `end` |
| PageRanges.TokenPages | pdf_print/print_pdf.py:18-27 | an accepted token selects at least one page and only pages in `[1, max_pages]` |
| PageRanges.Collect | pdf_print/print_pdf.py:14-30 | the token loop succeeds exactly when every token is accepted, and it then holds exactly the pages some token selects |
| PageRanges.SelectedInBounds | pdf_print/print_pdf.py:20-27 | no token selects a page outside `[1, max_pages]` |
| PageRanges.Tokens | pdf_print/print_pdf.py:16 | splitting on commas always gives at least one token |
| PageRanges.BadTokenSpoils | pdf_print/print_pdf.py:28-30 | a single bad token makes the whole call return `None`, with no partial list |
| PageRanges.EmptyTokenRejected | pdf_print/print_pdf.py:24 | an empty token is never accepted |
| PageRanges.ParseRanges | pdf_print/print_pdf.py:3-31 | success holds exactly when every token is accepted; the list is then strictly ascending, non-empty, within `[1, max_pages]`, and holds exactly the selected pages; with `max_pages < 1` it always fails |
| PageRanges.ParseFormatSelection | pdf_print/print_pdf.py:18-24 | the canonical token for a single page or a range parses back to that selection |
| PageRanges.TokensOfRender | pdf_print/print_pdf.py:16 | the tokens of a rendered list of selections are the selections' own tokens, in order |
| PageRanges.TokenPagesOfFormat | pdf_print/print_pdf.py:18-27 | a canonical token selects its selection's pages when the bound checks pass, and fails otherwise |
| PageRanges.ParseRender | pdf_print/print_pdf.py:3-31 | a rendered expression parses exactly when every selection passes the bound checks, and it then gives the sorted union of their pages |
| Extraction.ParseRangesBounded | pdf_print/print_pdf.py:20-27 | every list `parse_page_ranges` returns is non-empty and indexes only pages of the document |
| Extraction.Gather | pdf_print/print_pdf.py:58-59 | the pages fetched are `doc.pages[p - 1]` for each listed `p`, in order |
| Extraction.Contribution | pdf_print/print_pdf.py:46-61 | a pair adds pages exactly when its source opens and its range parses; it then adds at least one page, `doc[p - 1]` for each parsed `p` in order, each index inside the document |
| Extraction.ContributionOf | pdf_print/print_pdf.py:52-60 | a pair with a readable document and a parsed page list adds exactly those pages of the document |
| Extraction.Pairs | pdf_print/print_pdf.py:45 | `zip` yields as many pairs as the shorter of the two lists |
| Extraction.Process | pdf_print/print_pdf.py:43-64 | after the loop, `pages_added` is set exactly when some pair contributed, which is exactly when the writer holds a page |
| Extraction.ExtractWith | pdf_print/print_pdf.py:42-72 | output is written exactly when some pair contributed, and a written output is never empty |
| Extraction.Extract | pdf_print/print_pdf.py:42-72 | output is written exactly when some pair has a readable source whose range parses against its page count, and it is never empty |
| Extraction.ProcessConcatenates | pdf_print/print_pdf.py:45-61 | the writer receives each pair's pages in pair order: its contents are the concatenation of the pairs' contributions |
| Extraction.ExtractResult | pdf_print/print_pdf.py:66-72 | the result is `Written` with the concatenated contributions if they hold a page, and `NothingProduced` otherwise |
| Extraction.SkippedPairIsInert | pdf_print/print_pdf.py:53-64 | a skipped pair changes nothing: the run gives the same result with that pair removed, so later pairs still run |
| Extraction.ZipTruncates | pdf_print/print_pdf.py:45 | paths or ranges beyond the shorter list are ignored |
| Scenarios.OverlapsCollapse | pdf_print/print_pdf.py:14-31 | `"2,2-4,3"` on five pages gives `[2, 3, 4]` |
| Scenarios.SinglePageDocument | pdf_print/print_pdf.py:19-22 | `"1-1"` on one page gives `[1]` |
| Scenarios.WholeDocument | pdf_print/print_pdf.py:19-22 | `"1-5"` on five pages gives `[1, 2, 3, 4, 5]` |
| Scenarios.RangeFromZeroFails | pdf_print/print_pdf.py:20-21 | `"0-2"` fails because the start is below 1 |
| Scenarios.BackwardRangeFails | pdf_print/print_pdf.py:20-21 | `"3-2"` fails because the start exceeds the end |
| Scenarios.RangePastTheEnd | pdf_print/print_pdf.py:20-21 | `"1-3"` on two pages fails because the end exceeds the page count |
| Scenarios.NoPartialResult | pdf_print/print_pdf.py:25-30 | `"1,9"` on five pages fails as a whole, although `1` is a good token |
| Scenarios.DoubledCommaFails | pdf_print/print_pdf.py:16-30 | `"1,,3"` fails on its empty middle token |
| Scenarios.TrailingCommaFails | pdf_print/print_pdf.py:16-30 | `"1,"` fails on its empty last token |
| Scenarios.EmptyExpressionFails | pdf_print/print_pdf.py:16-30 | the empty expression fails |
| Scenarios.TwoHyphensFail | pdf_print/print_pdf.py:19 | `"1-2-3"` fails because it does not unpack into two numbers |
| Scenarios.PaddedSpan | pdf_print/print_pdf.py:19 | whitespace around either number of a range is accepted, as `int()` accepts it |
| Scenarios.LenientSingle | pdf_print/print_pdf.py:24 | `"+4"` is read as page 4 |
| Scenarios.SeparatorIsNotPadding | pdf_print/print_pdf.py:24-30 | `"\x1c3"` fails: `int()` does not skip the information separator U+001C that `str.isspace()` counts |
| Scenarios.OnePage | pdf_print/print_pdf.py:24-27 | a lone page number within the document selects that page |
| Scenarios.PastTheEnd | pdf_print/print_pdf.py:25-26 | a lone page number past the end fails |
| Scenarios.PairOrder | pdf_print/print_pdf.py:45-61 | pages 1 and 3 of a three-page document, then page 2 of a two-page one, are written in exactly that order |
| Scenarios.SkipUnreadable | pdf_print/print_pdf.py:45-66 | a source that cannot be opened is skipped, and the pairs after it still contribute |
| Scenarios.SkipBadRange | pdf_print/print_pdf.py:52-55 | a pair whose range is invalid for its document is skipped, and the pairs after it still contribute |
| Scenarios.NothingToWrite | pdf_print/print_pdf.py:66-72 | when every pair is skipped, or has no partner in `zip`, nothing is written |

## Left out

- The PDF library and files (lines 1, 42, 47-49, 60, 68-69). Reading a
  document is the parameter `load`, and `None` stands for any exception while
  opening or reading it. Writing is the `Written` outcome. The output path and
  its `"output.pdf"` default do not appear in the model.
- Every `print` message (lines 29, 54, 64, 70, 72). They are console output
  only.
- The interactive `__main__` block (lines 74-89). It only collects input with
  `input()`.
- Exceptions raised while pages are being added (lines 58-60).
  - In the source such an exception would leave the pages already added in
    the writer without setting `pages_added`.
  - Every index `p - 1` is proved to lie inside the document
    (`Extraction.Contribution`), so the model treats adding a page as unable
    to fail.
- Creating an output directory and adding a missing file extension. This code
  does neither.
- `PyInt.ParseInt` accepts only ASCII forms. Python's `int()` also accepts
  `_` between digits, non-ASCII decimal digits and non-ASCII whitespace; those
  strings are rejected here. A string holding any non-ASCII character is first
  rewritten by Python with every non-ASCII whitespace character (such as
  U+00A0) turned into a space; ASCII characters, codes 28 to 31 included, are
  left as they are. The model rejects every such string instead. Python's limit on the number of digits `int()` will convert (4300 by default since Python 3.11) is not modelled either;
  numbers here are unbounded.
- `PyStr.Split` handles only one-character separators, the only kind the
  source uses.
- `Extraction.Extract` gives the outcome and the page sequence only. It does
  not say which pair was skipped for which reason, since the source only
  prints that.
