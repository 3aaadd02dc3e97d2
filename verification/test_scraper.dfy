/** The two pure helpers of the downloader (scraper/test_scraper.py): the
    test for a response that probably holds a PDF, and the local file name
    given to a downloaded URL. The URL is given by its path (URL parsing is
    left out), and the SHA-256 hex digest of the URL and the UTC timestamp
    are parameters. */
module TestScraper {
  import opened Wrappers
  import opened Strings

  newtype byte = b: int | 0 <= b < 256

  /** `b"%PDF"`. */
  const PdfMagic: seq<byte> := [0x25, 0x50, 0x44, 0x46]

  /** `is_probable_pdf`: `contentType` is the Content-Type header, None when
      the response has none; `contentStart` is the first bytes of the body. */
  function IsProbablePdf(contentType: Option<string>, contentStart: seq<byte>): bool
  {
    var ct := Lower(if contentType.Some? then contentType.value else "");
    if Contains(ct, "pdf") then true
    else PdfMagic <= contentStart
  }

  /** The header decides when it mentions "pdf" in any case; otherwise
      only a body starting with the `%PDF` signature is accepted, and a
      response without the header is judged by its body alone. */
  lemma IsProbablePdfSpec(contentType: Option<string>, contentStart: seq<byte>)
    ensures contentType.Some? && Contains(Lower(contentType.value), "pdf") ==> IsProbablePdf(contentType, contentStart)
    ensures PdfMagic <= contentStart ==> IsProbablePdf(contentType, contentStart)
    ensures contentType.None? ==> (IsProbablePdf(contentType, contentStart) <==> PdfMagic <= contentStart)
    ensures IsProbablePdf(contentType, contentStart) ==>
      (contentType.Some? && Contains(Lower(contentType.value), "pdf")) || PdfMagic <= contentStart
  {
    if contentType.None? {
      assert !Contains(Lower(""), "pdf");
    }
  }

  /** "Application/PDF" is accepted whatever the body. */
  lemma UpperCaseTypeAccepted(contentStart: seq<byte>)
    ensures IsProbablePdf(Some("Application/PDF"), contentStart)
  {
    var low := Lower("Application/PDF");
    assert low == "application/pdf";
    assert "pdf" <= low[12..];
  }

  /** An HTML page is refused unless its body starts with the signature. */
  lemma HtmlRefused(contentStart: seq<byte>)
    requires |contentStart| > 0 && contentStart[0] == 0x3c
    ensures !IsProbablePdf(Some("text/html"), contentStart)
  {
    var low := Lower("text/html");
    assert low == "text/html";
    assert !Contains(low, "pdf") by {
      forall i | 0 <= i <= |low| - 3 ensures !("pdf" <= low[i..]) {
        assert low[i] != 'p';
      }
    }
  }

  /** `os.path.basename`: the part of the path after its last '/'. */
  function Basename(path: string): (r: string)
    ensures '/' !in r
    ensures |r| <= |path|
    ensures r == path[|path| - |r|..]
    ensures |r| < |path| ==> path[|path| - |r| - 1] == '/'
  {
    path[RFind(path, '/') + 1..]
  }

  /** The fallback name: "download_" and the first 12 digits of the hex
      digest of the URL, with the ".pdf" extension. */
  function FallbackName(urlDigest: string): string
  {
    "download_" + Take(urlDigest, 12) + ".pdf"
  }

  predicate HasPdfExtension(name: string)
  {
    EndsWith(Lower(name), ".pdf")
  }

  /** The name chosen from the basename: the fallback when the basename is
      empty or has no '.'. */
  function ChosenName(base: string, urlDigest: string): string
  {
    if base == "" || '.' !in base then FallbackName(urlDigest) else base
  }

  /** ".pdf" appended unless the name already ends with it in any case. */
  function WithPdfExtension(name: string): string
  {
    if !HasPdfExtension(name) then name + ".pdf" else name
  }

  /** The file name before the timestamp. */
  function LocalName(path: string, urlDigest: string): string
  {
    WithPdfExtension(ChosenName(Basename(path), urlDigest))
  }

  /** `safe_filename_from_url`, given the URL's path, the SHA-256 hex digest
      of the URL and the `%Y%m%dT%H%M%SZ` timestamp. */
  function SafeFilename(path: string, urlDigest: string, timestamp: string): string
  {
    timestamp + "_" + LocalName(path, urlDigest)
  }

  lemma LowerAppend(a: string, b: string)
    ensures Lower(a + b) == Lower(a) + Lower(b)
  {
  }

  /** Prefixing a name keeps its extension. */
  lemma PdfExtensionOfConcat(a: string, b: string)
    requires HasPdfExtension(b)
    ensures HasPdfExtension(a + b)
  {
    LowerAppend(a, b);
    var lb := Lower(b);
    var la := Lower(a);
    assert (la + lb)[|la + lb| - 4..] == lb[|lb| - 4..];
  }

  /** A name with ".pdf" appended has the extension. */
  lemma PdfSuffixAppended(a: string)
    ensures HasPdfExtension(a + ".pdf")
  {
    assert Lower(".pdf") == ".pdf";
    assert HasPdfExtension(".pdf");
    PdfExtensionOfConcat(a, ".pdf");
  }

  /** The fallback name ends with ".pdf". */
  lemma FallbackIsPdf(urlDigest: string)
    ensures HasPdfExtension(FallbackName(urlDigest))
  {
    PdfSuffixAppended("download_" + Take(urlDigest, 12));
  }

  /** Appending the extension is needed at most once: the result always has
      it, and a name that has it is left alone. */
  lemma WithPdfExtensionSpec(name: string)
    ensures HasPdfExtension(WithPdfExtension(name))
    ensures HasPdfExtension(name) ==> WithPdfExtension(name) == name
    ensures !HasPdfExtension(name) ==> WithPdfExtension(name) == name + ".pdf"
  {
    if !HasPdfExtension(name) {
      PdfSuffixAppended(name);
    }
  }

  /** Every name ends with ".pdf" ignoring case. */
  lemma AlwaysPdfExtension(path: string, urlDigest: string)
    ensures HasPdfExtension(LocalName(path, urlDigest))
  {
    WithPdfExtensionSpec(ChosenName(Basename(path), urlDigest));
  }

  /** The name is the timestamp, '_', and a name ending in ".pdf" in any
      case. */
  lemma SafeFilenameIsPdf(path: string, urlDigest: string, timestamp: string)
    ensures SafeFilename(path, urlDigest, timestamp) == timestamp + "_" + LocalName(path, urlDigest)
    ensures HasPdfExtension(SafeFilename(path, urlDigest, timestamp))
  {
    AlwaysPdfExtension(path, urlDigest);
    PdfExtensionOfConcat(timestamp + "_", LocalName(path, urlDigest));
  }

  /** A basename with a '.' that already ends in ".pdf" (".PDF" included)
      is kept as it is, one with another extension gets ".pdf" appended,
      and an empty basename or one without a '.' is replaced by the
      fallback. */
  lemma LocalNameCases(path: string, urlDigest: string)
    ensures var base := Basename(path);
      base != "" && '.' in base && HasPdfExtension(base) ==> LocalName(path, urlDigest) == base
    ensures var base := Basename(path);
      base != "" && '.' in base && !HasPdfExtension(base) ==> LocalName(path, urlDigest) == base + ".pdf"
    ensures '.' !in Basename(path) ==> LocalName(path, urlDigest) == FallbackName(urlDigest)
  {
    var base := Basename(path);
    WithPdfExtensionSpec(ChosenName(base, urlDigest));
    FallbackIsPdf(urlDigest);
  }

  /** No '/' enters the name when the digest has none, so the file stays
      in the downloads directory. */
  lemma NoSeparatorInName(path: string, urlDigest: string)
    requires '/' !in urlDigest
    ensures '/' !in LocalName(path, urlDigest)
  {
    var fallback := FallbackName(urlDigest);
    assert '/' !in Take(urlDigest, 12);
    assert '/' !in fallback;
    var name := ChosenName(Basename(path), urlDigest);
    assert '/' !in name;
    assert '/' !in name + ".pdf";
  }

  /** The basename is what follows the last '/'. */
  lemma BasenameAfterSlash(dir: string, file: string)
    requires '/' !in file
    ensures Basename(dir + "/" + file) == file
  {
    var path := dir + "/" + file;
    var r := Basename(path);
    assert path[|dir|] == '/';
    assert path[|path| - |file|..] == file;
  }

  /** A basename with a '.' that ends in ".pdf" in any case (say
      "Report.PDF") is kept unchanged after the timestamp. */
  lemma PdfBasenameKept(dir: string, file: string, urlDigest: string, timestamp: string)
    requires '/' !in file && '.' in file && HasPdfExtension(file)
    ensures SafeFilename(dir + "/" + file, urlDigest, timestamp) == timestamp + "_" + file
  {
    BasenameAfterSlash(dir, file);
    WithPdfExtensionSpec(file);
  }
}
