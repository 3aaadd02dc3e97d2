/** The PDF extraction step (extract_pdfs.py): the text of one PDF assembled
    from its pages, and the merged text file that puts every PDF's text
    between `===== BEGIN FILE: ... =====` and `===== END FILE: ... =====`
    markers, the format the chunkers split on. Reading PDFs, listing the
    downloads directory and writing the file are left out; a PDF is given
    as the outcome of opening it and of extracting each of its pages, and
    the clock reading of the header as a string. */
module ExtractPdfs {
  import opened Wrappers
  import opened Strings
  import opened Regex

  /** What `page.extract_text()` gives for one page: text (possibly
      empty), None, or an exception with its message. */
  datatype PageOutcome = PageText(text: string) | NoText | PageRaised(message: string)

  /** The message of the TypeError that `len(None)` raises in the debug
      line after a page without text. */
  const NoneLength := "object of type 'NoneType' has no len()"
  const NoContent := "No text content found in PDF"

  function PageError(pageNum: nat, message: string): string
  {
    "[ERROR extracting page " + NatToString(pageNum) + ": " + message + "]"
  }

  /** What page `pageNum` (counted from 1) adds to `texts`: its text when
      non-empty, nothing when empty, and an error entry when extraction
      raised; a None text raises too, in the debug line that takes its
      length. */
  function PageEntry(pageNum: nat, page: PageOutcome): (r: seq<string>)
    ensures |r| <= 1
    ensures forall e :: e in r ==> e != ""
  {
    match page
    case PageText(t) => if t != "" then [t] else []
    case NoText => [PageError(pageNum, NoneLength)]
    case PageRaised(m) => [PageError(pageNum, m)]
  }

  /** The `texts` list after the page loop. */
  function PageEntries(pages: seq<PageOutcome>): seq<string>
  {
    if |pages| == 0 then []
    else PageEntries(pages[..|pages| - 1]) + PageEntry(|pages|, pages[|pages| - 1])
  }

  /** `PDFExtractor.extract_text_from_pdf`: `reader` is the pages of the
      opened PDF, or the message of the exception opening it raised.
      Returns (success, extracted_text, error_message). */
  method ExtractTextFromPdf(name: string, reader: Result<seq<PageOutcome>>)
    returns (success: bool, fullText: string, errorMessage: string)
    ensures reader.Err? ==>
      !success && fullText == "" && errorMessage == "Failed to read PDF " + name + ": " + reader.msg
    ensures reader.Ok? ==> (success <==> PageEntries(reader.value) != [])
    ensures reader.Ok? && success ==> fullText == Join(PageEntries(reader.value), "\n") && errorMessage == ""
    ensures reader.Ok? && !success ==> fullText == "" && errorMessage == NoContent
  {
    if reader.Err? {
      return false, "", "Failed to read PDF " + name + ": " + reader.msg;
    }
    var pages := reader.value;
    var texts: seq<string> := [];
    for pageNum := 1 to |pages| + 1
      invariant texts == PageEntries(pages[..pageNum - 1])
    {
      var page := pages[pageNum - 1];
      assert pages[..pageNum][..pageNum - 1] == pages[..pageNum - 1];
      match page {
        case PageText(text) =>
          if text != "" {
            texts := texts + [text];
          }
        case NoText =>
          texts := texts + [PageError(pageNum, NoneLength)];
        case PageRaised(e) =>
          texts := texts + [PageError(pageNum, e)];
      }
    }
    assert pages[..|pages|] == pages;
    if texts == [] {
      return false, "", NoContent;
    }
    success, fullText, errorMessage := true, Join(texts, "\n"), "";
  }

  lemma PageEntriesSnoc(pages: seq<PageOutcome>, page: PageOutcome)
    ensures PageEntries(pages + [page]) == PageEntries(pages) + PageEntry(|pages| + 1, page)
  {
    assert (pages + [page])[..|pages|] == pages;
  }

  /** Every page adds at most one entry and no empty one, and whatever a
      page adds (its text, or the error entry of a page that raised or had
      no text) is among the entries. */
  lemma {:induction false} PageEntriesSpec(pages: seq<PageOutcome>)
    ensures |PageEntries(pages)| <= |pages|
    ensures forall e :: e in PageEntries(pages) ==> e != ""
    ensures forall i, e :: 0 <= i < |pages| && e in PageEntry(i + 1, pages[i]) ==> e in PageEntries(pages)
  {
    if |pages| > 0 {
      var n := |pages| - 1;
      var init := pages[..n];
      PageEntriesSpec(init);
      forall i | 0 <= i < n ensures pages[i] == init[i] { }
    }
  }

  /** There are no entries exactly when every page's text is empty. */
  lemma {:induction false} NoEntries(pages: seq<PageOutcome>)
    ensures PageEntries(pages) == [] <==> forall i :: 0 <= i < |pages| ==> pages[i] == PageText("")
  {
    if |pages| > 0 {
      var n := |pages| - 1;
      var init := pages[..n];
      NoEntries(init);
      forall i | 0 <= i < n ensures pages[i] == init[i] { }
      if PageEntries(pages) == [] {
        assert PageEntry(n + 1, pages[n]) == [];
      }
    }
  }

  /** The page texts, in order, when every page yields text. */
  lemma {:induction false} AllPagesRead(pages: seq<PageOutcome>)
    requires forall i :: 0 <= i < |pages| ==> pages[i].PageText? && pages[i].text != ""
    ensures |PageEntries(pages)| == |pages|
    ensures forall i :: 0 <= i < |pages| ==> PageEntries(pages)[i] == pages[i].text
  {
    if |pages| > 0 {
      var n := |pages| - 1;
      var init := pages[..n];
      AllPagesRead(init);
      forall i | 0 <= i < n ensures pages[i] == init[i] { }
      assert PageEntries(pages) == PageEntries(init) + [pages[n].text];
    }
  }

  /** A PDF whose only page has no text reports the error of the debug
      line rather than "no content". */
  lemma NoTextPageReported()
    ensures PageEntries([NoText]) == ["[ERROR extracting page 1: " + NoneLength + "]"]
  {
    assert [NoText][..0] == [];
    assert NatToString(1) == "1";
    assert "[ERROR extracting page " + "1" + ": " == "[ERROR extracting page 1: ";
  }

  /** One extraction result: (filename, text, success). */
  datatype PdfResult = PdfResult(filename: string, text: string, success: bool)

  const HeaderNote := "# Each file is separated by a header marker"
  const FailedSuffix := " (EXTRACTION FAILED)"

  function Header(generatedAt: string): (r: seq<string>)
    ensures |r| == 3 && r[2] == ""
  {
    ["# Merged PDF text generated at " + generatedAt, HeaderNote, ""]
  }

  function BeginMarker(name: string, suffix: string): (r: string)
    ensures BeginPrefix <= r
  {
    BeginPrefix + " " + name + suffix + " " + Closing
  }

  function EndMarker(name: string, suffix: string): (r: string)
    ensures EndPrefix <= r
  {
    EndPrefix + " " + name + suffix + " " + Closing
  }

  /** The BEGIN and END lines written around a result are matched whole by
      the marker-line pattern that splits the file into sections, when the
      file name holds no `=====` and no newline. */
  lemma MarkersMatchWhole(name: string, suffix: string, rest: string)
    requires !Contains(name + suffix, Closing) && '\n' !in name + suffix
    ensures MatchAt(FileLine, BeginMarker(name, suffix) + rest, 0) == |BeginMarker(name, suffix)|
    ensures MatchAt(FileLine, EndMarker(name, suffix) + rest, 0) == |EndMarker(name, suffix)|
  {
    assert BeginMarker(name, suffix) == MarkerLine(BeginPrefix, name + suffix);
    assert EndMarker(name, suffix) == MarkerLine(EndPrefix, name + suffix);
    MarkerLineMatch(BeginPrefix, name + suffix, rest);
    MarkerLineMatch(EndPrefix, name + suffix, rest);
  }

  /** A result whose text goes into the file: successful and not blank. */
  predicate Usable(r: PdfResult)
  {
    r.success && Strip(r.text) != ""
  }

  /** The four lines one result contributes. */
  function ResultLines(r: PdfResult): (lines: seq<string>)
    ensures |lines| == 4
    ensures BeginPrefix <= lines[0] && EndPrefix <= lines[2] && lines[3] == ""
  {
    if Usable(r) then [BeginMarker(r.filename, ""), Strip(r.text), EndMarker(r.filename, ""), ""]
    else [BeginMarker(r.filename, FailedSuffix), "[ERROR: " + r.text + "]", EndMarker(r.filename, FailedSuffix), ""]
  }

  /** The `merged_content` list before it is joined. */
  function MergedLines(results: seq<PdfResult>, generatedAt: string): seq<string>
  {
    Header(generatedAt) + FlatMap(ResultLines, results)
  }

  /** `PDFExtractor.merge_texts`; `generatedAt` is the ISO-formatted UTC
      time of the call. */
  method MergeTexts(results: seq<PdfResult>, generatedAt: string) returns (merged: string)
    ensures merged == Join(MergedLines(results, generatedAt), "\n")
  {
    var mergedContent: seq<string> := [];
    mergedContent := mergedContent + ["# Merged PDF text generated at " + generatedAt];
    mergedContent := mergedContent + [HeaderNote];
    mergedContent := mergedContent + [""];
    for i := 0 to |results|
      invariant mergedContent == Header(generatedAt) + FlatMap(ResultLines, results[..i])
    {
      FlatMapPrefix(ResultLines, results, i);
      var filename, text, success := results[i].filename, results[i].text, results[i].success;
      var lines: seq<string>;
      if success && Strip(text) != "" {
        lines := [BeginMarker(filename, ""), Strip(text), EndMarker(filename, ""), ""];
      } else {
        lines := [BeginMarker(filename, FailedSuffix), "[ERROR: " + text + "]", EndMarker(filename, FailedSuffix), ""];
      }
      assert lines == ResultLines(results[i]);
      mergedContent := mergedContent + lines;
    }
    assert results[..|results|] == results;
    merged := Join(mergedContent, "\n");
  }

  /** The four lines of the i-th block after the three header lines. */
  function Block(lines: seq<string>, i: nat): seq<string>
    requires 3 + 4 * i + 4 <= |lines|
  {
    lines[3 + 4 * i..3 + 4 * i + 4]
  }

  lemma BlockOfConcat(before: seq<string>, block: seq<string>, k: nat, i: nat)
    requires |block| == 4 && |before| == 3 + 4 * k && i <= k
    ensures i < k ==> Block(before + block, i) == Block(before, i)
    ensures i == k ==> Block(before + block, i) == block
  {
  }

  lemma {:induction false} FlatMapLength<T>(f: T -> seq<string>, xs: seq<T>)
    requires forall x :: |f(x)| == 4
    ensures |FlatMap(f, xs)| == 4 * |xs|
  {
    if |xs| > 0 {
      FlatMapLength(f, xs[..|xs| - 1]);
    }
  }

  /** Three header lines followed by four lines per element: the i-th
      block is the i-th element's lines. */
  lemma {:induction false} BlockAt<T>(header: seq<string>, f: T -> seq<string>, xs: seq<T>, i: nat)
    requires |header| == 3
    requires forall x :: |f(x)| == 4
    requires i < |xs|
    ensures |header + FlatMap(f, xs)| == 3 + 4 * |xs|
    ensures Block(header + FlatMap(f, xs), i) == f(xs[i])
  {
    var n := |xs| - 1;
    var init := xs[..n];
    FlatMapLength(f, xs);
    FlatMapLength(f, init);
    FlatMapSnoc(f, init, xs[n]);
    assert init + [xs[n]] == xs;
    var before := header + FlatMap(f, init);
    assert header + FlatMap(f, xs) == before + f(xs[n]);
    BlockOfConcat(before, f(xs[n]), n, i);
    if i < n {
      BlockAt(header, f, init, i);
      assert init[i] == xs[i];
    }
  }

  /** The merged lines are the three header lines, then four lines per
      result in input order: BEGIN marker, body, END marker, empty line. */
  lemma MergedLayout(results: seq<PdfResult>, generatedAt: string)
    ensures |MergedLines(results, generatedAt)| == 3 + 4 * |results|
    ensures MergedLines(results, generatedAt)[..3] == Header(generatedAt)
    ensures forall i :: 0 <= i < |results| ==> Block(MergedLines(results, generatedAt), i) == ResultLines(results[i])
  {
    FlatMapLength(ResultLines, results);
    forall i | 0 <= i < |results|
      ensures Block(MergedLines(results, generatedAt), i) == ResultLines(results[i])
    {
      BlockAt(Header(generatedAt), ResultLines, results, i);
    }
  }

  /** A usable result is framed by plain markers around its stripped text;
      any other result, a success with blank text included, by markers
      marked as failed around `[ERROR: <text>]`. */
  lemma ResultFraming(r: PdfResult)
    ensures Usable(r) ==>
      ResultLines(r)[0] == "===== BEGIN FILE: " + r.filename + " =====" &&
      ResultLines(r)[1] == Strip(r.text) && Trimmed(ResultLines(r)[1])
    ensures !Usable(r) ==>
      ResultLines(r)[0] == "===== BEGIN FILE: " + r.filename + " (EXTRACTION FAILED) =====" &&
      ResultLines(r)[1] == "[ERROR: " + r.text + "]" &&
      ResultLines(r)[2] == "===== END FILE: " + r.filename + " (EXTRACTION FAILED) ====="
  {
  }

  /** Every block ends with an END marker and an empty line, and the
      next block, if any, starts with its BEGIN marker. */
  predicate EmptyGaps(lines: seq<string>, blocks: nat)
    requires 3 + 4 * blocks <= |lines|
  {
    forall i: nat {:trigger Block(lines, i)} :: i < blocks ==>
      && EndPrefix <= Block(lines, i)[2]
      && Block(lines, i)[3] == ""
      && (i + 1 < blocks ==> BeginPrefix <= Block(lines, i + 1)[0])
  }

  /** Only an empty line separates one file's END marker from the next
      file's BEGIN marker, so a split on the markers finds nothing in the
      gaps. */
  lemma GapsAreEmpty(results: seq<PdfResult>, generatedAt: string)
    ensures |MergedLines(results, generatedAt)| == 3 + 4 * |results|
    ensures EmptyGaps(MergedLines(results, generatedAt), |results|)
  {
    MergedLayout(results, generatedAt);
  }

  predicate IsBeginLine(line: string)
  {
    BeginPrefix <= line
  }

  /** The number of lines starting with `prefix`. */
  function CountPrefixed(lines: seq<string>, prefix: string): nat
  {
    if |lines| == 0 then 0
    else CountPrefixed(lines[..|lines| - 1], prefix) + (if prefix <= lines[|lines| - 1] then 1 else 0)
  }

  /** The number of lines starting a file. */
  function BeginLines(lines: seq<string>): nat
  {
    CountPrefixed(lines, BeginPrefix)
  }

  lemma CountSnoc(a: seq<string>, x: string, prefix: string)
    ensures CountPrefixed(a + [x], prefix) == CountPrefixed(a, prefix) + (if prefix <= x then 1 else 0)
  {
    assert (a + [x])[..|a|] == a;
  }

  lemma {:induction false} CountAppend(a: seq<string>, b: seq<string>, prefix: string)
    ensures CountPrefixed(a + b, prefix) == CountPrefixed(a, prefix) + CountPrefixed(b, prefix)
    decreases |b|
  {
    if |b| == 0 {
      assert a + b == a;
    } else {
      var n := |b| - 1;
      CountAppend(a, b[..n], prefix);
      assert a + b == (a + b[..n]) + [b[n]];
      CountSnoc(a + b[..n], b[n], prefix);
      CountSnoc(b[..n], b[n], prefix);
      assert b == b[..n] + [b[n]];
    }
  }

  lemma BeginLinesSnoc(a: seq<string>, x: string)
    ensures BeginLines(a + [x]) == BeginLines(a) + (if IsBeginLine(x) then 1 else 0)
  {
    CountSnoc(a, x, BeginPrefix);
  }

  lemma BeginLinesAppend(a: seq<string>, b: seq<string>)
    ensures BeginLines(a + b) == BeginLines(a) + BeginLines(b)
  {
    CountAppend(a, b, BeginPrefix);
  }

  /** Lines that start with '#', '[' or an END marker, or are empty, start
      no file. */
  lemma NotBeginLines(line: string)
    requires line == "" || line[0] == '#' || line[0] == '[' || EndPrefix <= line
    ensures !IsBeginLine(line)
  {
    if EndPrefix <= line {
      assert line[6] == EndPrefix[6] == 'E';
      assert BeginPrefix[6] == 'B';
    } else if line != "" {
      assert BeginPrefix[0] == '=';
    }
  }

  lemma ResultBeginLines(r: PdfResult)
    requires !IsBeginLine(Strip(r.text))
    ensures BeginLines(ResultLines(r)) == 1
  {
    var lines := ResultLines(r);
    if !Usable(r) {
      NotBeginLines(lines[1]);
    }
    NotBeginLines(lines[2]);
    NotBeginLines(lines[3]);
    assert [] + [lines[0]] == [lines[0]];
    assert [lines[0]] + [lines[1]] == [lines[0], lines[1]];
    assert [lines[0], lines[1]] + [lines[2]] == [lines[0], lines[1], lines[2]];
    BeginLinesSnoc([], lines[0]);
    BeginLinesSnoc([lines[0]], lines[1]);
    BeginLinesSnoc([lines[0], lines[1]], lines[2]);
    BeginLinesSnoc([lines[0], lines[1], lines[2]], lines[3]);
    assert lines == [lines[0], lines[1], lines[2]] + [lines[3]];
  }

  lemma HeaderBeginLines(generatedAt: string)
    ensures BeginLines(Header(generatedAt)) == 0
  {
    var h := Header(generatedAt);
    NotBeginLines(h[0]);
    NotBeginLines(h[1]);
    NotBeginLines(h[2]);
    BeginLinesSnoc([], h[0]);
    BeginLinesSnoc([h[0]], h[1]);
    BeginLinesSnoc([h[0], h[1]], h[2]);
    assert [] + [h[0]] == [h[0]];
    assert [h[0]] + [h[1]] == [h[0], h[1]];
    assert h == [h[0], h[1]] + [h[2]];
  }

  /** Blocks holding one line with the prefix each hold one such line per
      element between them. */
  lemma {:induction false} CountBlocks<T>(f: T -> seq<string>, xs: seq<T>, prefix: string)
    requires forall i :: 0 <= i < |xs| ==> CountPrefixed(f(xs[i]), prefix) == 1
    ensures CountPrefixed(FlatMap(f, xs), prefix) == |xs|
  {
    if |xs| > 0 {
      var n := |xs| - 1;
      var init := xs[..n];
      CountBlocks(f, init, prefix);
      FlatMapSnoc(f, init, xs[n]);
      assert init + [xs[n]] == xs;
      CountAppend(FlatMap(f, init), f(xs[n]), prefix);
    }
  }

  /** Given extracted texts that do not themselves start with a BEGIN
      marker, the merged file holds exactly one BEGIN line per result. */
  lemma OneBeginPerResult(results: seq<PdfResult>, generatedAt: string)
    requires forall i :: 0 <= i < |results| ==> !IsBeginLine(Strip(results[i].text))
    ensures BeginLines(MergedLines(results, generatedAt)) == |results|
  {
    forall i | 0 <= i < |results| ensures CountPrefixed(ResultLines(results[i]), BeginPrefix) == 1 {
      ResultBeginLines(results[i]);
    }
    CountBlocks(ResultLines, results, BeginPrefix);
    HeaderBeginLines(generatedAt);
    BeginLinesAppend(Header(generatedAt), FlatMap(ResultLines, results));
  }
}
