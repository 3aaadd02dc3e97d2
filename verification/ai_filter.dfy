/** The text filter of the scraper (scraper/ai_filter.py): rule-based
    tagging against a keyword table, the year finder, the record built for
    one chunk without the AI service, and the marker-aware chunker that cuts
    the merged text into file sections, then paragraphs, then sentences. */
module AiFilter {
  import opened Strings
  import opened Regex
  import opened Keywords
  import opened Packing
  import opened Sorting

  const RuleKeywords: Table := [
    ("finance", [
      "finance", "financial", "budget", "revenue", "tax", "investment", "funding", "cost", "expense",
      "accounting", "audit", "compliance", "regulatory", "banking", "credit", "loan", "payment",
      "profit", "loss", "income", "expenditure", "fiscal", "monetary", "economic", "treasury"]),
    ("technology", [
      "technology", "digital", "software", "computer", "data", "system", "network", "cyber", "AI", "automation",
      "IT", "information", "database", "cloud", "security", "encryption", "algorithm", "machine learning",
      "artificial intelligence", "blockchain", "API", "integration", "platform", "application"]),
    ("healthcare", [
      "health", "medical", "healthcare", "hospital", "patient", "disease", "treatment", "medicine",
      "clinical", "diagnosis", "therapy", "pharmaceutical", "drug", "vaccine", "surgery", "nursing",
      "mental health", "wellness", "prevention", "epidemiology", "public health", "medical device"]),
    ("environment", [
      "environment", "climate", "carbon", "emission", "sustainability", "green", "renewable", "pollution",
      "ecosystem", "biodiversity", "conservation", "energy", "solar", "wind", "clean", "waste",
      "recycling", "sustainable", "environmental impact", "carbon footprint", "global warming"]),
    ("infrastructure", [
      "infrastructure", "construction", "building", "transport", "road", "bridge", "facility", "development",
      "urban", "city", "municipal", "public works", "engineering", "architecture", "planning",
      "housing", "utilities", "water", "sewage", "electricity", "telecommunications"]),
    ("legal", [
      "legal", "law", "regulation", "compliance", "policy", "legislation", "statute", "court",
      "judge", "attorney", "lawyer", "contract", "agreement", "liability", "rights", "obligations",
      "jurisdiction", "enforcement", "penalty", "sanction", "governance", "ethics"]),
    ("education", [
      "education", "school", "university", "college", "student", "teacher", "learning", "curriculum",
      "academic", "research", "study", "training", "certification", "degree", "scholarship",
      "literacy", "knowledge", "skill", "development", "pedagogy"]),
    ("government", [
      "government", "public", "administration", "bureaucracy", "civil service", "municipal", "federal",
      "state", "local", "election", "democracy", "citizen", "public service", "policy", "governance",
      "bureaucracy", "public sector", "civil servant", "official"])
  ]

  const MinChunkChars := 50
  const DefaultChunkSize := 1200
  const SampleChars := 500
  const ParagraphSep := "\n\n"

  // ---------------------------------------------------------------- tagging

  /** Loops over the table in order, keeping each category that has a
      keyword in the lower-cased text. */
  method RuleBasedTagging(text: string) returns (detectedTags: seq<string>)
    ensures detectedTags == Matched(RuleKeywords, Lower(text))
  {
    var textLower := Lower(text);
    detectedTags := [];
    var i := 0;
    while i < |RuleKeywords|
      invariant 0 <= i <= |RuleKeywords|
      invariant detectedTags == Matched(RuleKeywords[..i], textLower)
    {
      var (category, keywords) := RuleKeywords[i];
      assert RuleKeywords[..i + 1][..i] == RuleKeywords[..i];
      if AnyIn(keywords, textLower) {
        detectedTags := detectedTags + [category];
      }
      i := i + 1;
    }
    assert RuleKeywords[..i] == RuleKeywords;
  }

  /** The rule tags are exactly the categories with a keyword in the
      lower-cased text, in table order, none twice; the result may be empty. */
  lemma RuleTagsSpec(text: string)
    ensures forall c :: c in Matched(RuleKeywords, Lower(text)) <==>
      exists i :: 0 <= i < |RuleKeywords| && RuleKeywords[i].0 == c && AnyIn(RuleKeywords[i].1, Lower(text))
    ensures IsSubsequence(Matched(RuleKeywords, Lower(text)), Keys(RuleKeywords))
    ensures NoDuplicates(Matched(RuleKeywords, Lower(text)))
  {
    MatchedSpec(RuleKeywords, Lower(text));
    assert Keys(RuleKeywords) == ["finance", "technology", "healthcare", "environment",
      "infrastructure", "legal", "education", "government"];
  }

  /** `'AI'`, `'IT'` and `'API'` are compared with lower-cased text and never
      match, so the table tags exactly as it would without them. */
  lemma UpperCaseKeywordsInert(text: string)
    ensures !Contains(Lower(text), "AI") && !Contains(Lower(text), "IT") && !Contains(Lower(text), "API")
    ensures Matched(RuleKeywords, Lower(text)) == Matched(DropUpper(RuleKeywords), Lower(text))
  {
    UpperNeverInLower(text, "AI", 0);
    UpperNeverInLower(text, "IT", 0);
    UpperNeverInLower(text, "API", 0);
    MatchedIgnoresUpper(RuleKeywords, text);
  }

  // ---------------------------------------------------------------- years

  /** Python's `\w` on ASCII text. */
  predicate IsWordChar(c: char)
  {
    ('a' <= c <= 'z') || ('A' <= c <= 'Z') || IsDigit(c) || c == '_'
  }

  /** `\b(19|20)\d{2}\b` matches at position i. */
  predicate YearAt(t: string, i: nat)
  {
    i + 4 <= |t| &&
    (i == 0 || !IsWordChar(t[i - 1])) &&
    ((t[i] == '1' && t[i + 1] == '9') || (t[i] == '2' && t[i + 1] == '0')) &&
    IsDigit(t[i + 2]) && IsDigit(t[i + 3]) &&
    (i + 4 == |t| || !IsWordChar(t[i + 4]))
  }

  /** `re.findall` with one capturing group: the century digits of each
      match, converted with `int`, scanning left to right from i. */
  function CenturiesFrom(t: string, i: nat): (r: seq<int>)
    ensures forall k :: 0 <= k < |r| ==> r[k] == 19 || r[k] == 20
    decreases |t| - i
  {
    if i + 4 > |t| then []
    else if YearAt(t, i) then [if t[i] == '1' then 19 else 20] + CenturiesFrom(t, i + 4)
    else CenturiesFrom(t, i + 1)
  }

  function IntLess(a: int, b: int): bool
  {
    a < b
  }

  /** `sorted(list(set(int(y) for y in findall(...))))`: because the pattern
      has one group, only the century prefix is returned. */
  function ExtractYears(text: string): (years: seq<int>)
    ensures StrictlySorted(years, IntLess)
    ensures forall y :: y in years <==> y in CenturiesFrom(text, 0)
    ensures forall y :: y in years ==> y == 19 || y == 20
  {
    var found := CenturiesFrom(text, 0);
    SortedDistinctSpec(found, IntLess);
    assert forall y :: y in SortedDistinct(found, IntLess) <==> y in Elems(SortedDistinct(found, IntLess));
    SortedDistinct(found, IntLess)
  }

  /** A text naming the years 1999 and 2023 yields the centuries 19 and 20. */
  lemma YearsAreCenturies()
    ensures ExtractYears("in 2023 and 1999") == [19, 20]
  {
    var t := "in 2023 and 1999";
    assert CenturiesFrom(t, 16) == [];
    assert CenturiesFrom(t, 12) == [19] by {
      assert YearAt(t, 12);
    }
    assert CenturiesFrom(t, 7) == [19] by {
      assert !YearAt(t, 7) && !YearAt(t, 8) && !YearAt(t, 9) && !YearAt(t, 10) && !YearAt(t, 11);
      assert CenturiesFrom(t, 11) == CenturiesFrom(t, 12);
      assert CenturiesFrom(t, 10) == CenturiesFrom(t, 11);
      assert CenturiesFrom(t, 9) == CenturiesFrom(t, 10);
      assert CenturiesFrom(t, 8) == CenturiesFrom(t, 9);
    }
    assert CenturiesFrom(t, 3) == [20, 19] by {
      assert YearAt(t, 3);
    }
    assert CenturiesFrom(t, 0) == [20, 19] by {
      assert !YearAt(t, 0) && !YearAt(t, 1) && !YearAt(t, 2);
      assert CenturiesFrom(t, 2) == CenturiesFrom(t, 3);
      assert CenturiesFrom(t, 1) == CenturiesFrom(t, 2);
    }
    var found := [20, 19];
    assert found[..1] == [20] && found[..1][..0] == [];
    assert SortedDistinct([20], IntLess) == [20];
    assert SortedDistinct(found, IntLess) == InsertDistinct(19, [20], IntLess);
  }

  // ---------------------------------------------------------------- records

  /** A processed chunk: `id`, `created_at`, `summary`, `tags`,
      `detected_years`, `sample_text`, `processing_method`. */
  datatype ChunkRecord = ChunkRecord(
    id: int, createdAt: string, summary: string, tags: seq<string>,
    detectedYears: seq<int>, sampleText: string, processingMethod: string)

  /** `chunk[:500] + "..."` for a long chunk, the chunk itself otherwise. */
  function Summary(chunk: string): (s: string)
    ensures |chunk| <= SampleChars ==> s == chunk
    ensures |chunk| > SampleChars ==> s == chunk[..SampleChars] + "..."
  {
    if |chunk| > SampleChars then chunk[..SampleChars] + "..." else chunk
  }

  /** The record for one chunk with the AI service unavailable; `createdAt`
      stands for the current UTC time. */
  function ProcessTextChunk(chunk: string, chunkId: int, createdAt: string): (r: ChunkRecord)
    ensures r.id == chunkId && r.createdAt == createdAt
    ensures Blank(chunk) ==> r == ChunkRecord(chunkId, createdAt, "", [], [], "", "empty_chunk")
    ensures !Blank(chunk) ==>
      r.processingMethod == "rule_based" &&
      r.tags == Matched(RuleKeywords, Lower(chunk)) &&
      r.detectedYears == ExtractYears(chunk) &&
      (|chunk| <= SampleChars ==> r.summary == chunk) &&
      (|chunk| > SampleChars ==> r.summary == chunk[..SampleChars] + "...") &&
      r.sampleText == Take(chunk, SampleChars) && r.sampleText <= chunk
  {
    if Strip(chunk) == "" then ChunkRecord(chunkId, createdAt, "", [], [], "", "empty_chunk")
    else
      ChunkRecord(chunkId, createdAt, Summary(chunk), Matched(RuleKeywords, Lower(chunk)),
                  ExtractYears(chunk), Take(chunk, SampleChars), "rule_based")
  }

  // ---------------------------------------------------------------- chunker

  /** The non-empty stripped paragraphs, in order. */
  function Paragraphs(raw: seq<string>): (r: seq<string>)
    ensures AllTrimmed(r)
  {
    if |raw| == 0 then []
    else (if Strip(raw[0]) != "" then [Strip(raw[0])] else []) + Paragraphs(raw[1..])
  }

  lemma ParagraphsStep(raw: seq<string>, i: nat)
    requires i < |raw|
    ensures Paragraphs(raw[i..]) ==
      (if Strip(raw[i]) != "" then [Strip(raw[i])] else []) + Paragraphs(raw[i + 1..])
  {
    assert raw[i..][0] == raw[i];
    assert raw[i..][1..] == raw[i + 1..];
  }

  /** Second tier: a chunk that fits passes through; a longer one is re-split
      into sentences and those are packed, joined by a single space. */
  function Refine(chunk: string, size: int): seq<string>
  {
    if |chunk| <= size then [chunk] else Pack(Sentences(chunk), size, " ", "")
  }

  function Refiner(size: int): string -> seq<string>
  {
    chunk => Refine(chunk, size)
  }

  function SentencePass(chunks: seq<string>, size: int): seq<string>
  {
    FlatMap(Refiner(size), chunks)
  }

  /** The paragraph chunks of a section: paragraphs packed, joined by a blank line. */
  function ParagraphChunks(section: string, size: int): seq<string>
  {
    Pack(Paragraphs(Split(Literal(ParagraphSep), section)), size, ParagraphSep, "")
  }

  /** What `_split_section_into_chunks` returns. */
  function SectionPieces(section: string, size: int): seq<string>
  {
    SentencePass(ParagraphChunks(section, size), size)
  }

  /** First pass of `_split_section_into_chunks`: paragraphs split on a
      blank line, stripped, empty ones skipped, packed into a buffer. */
  method PackParagraphs(paragraphs: seq<string>, chunkSize: int) returns (chunks: seq<string>)
    ensures chunks == Pack(Paragraphs(paragraphs), chunkSize, ParagraphSep, "")
  {
    chunks := [];
    ghost var all := Pack(Paragraphs(paragraphs), chunkSize, ParagraphSep, "");
    var currentChunk := "";
    var i := 0;
    while i < |paragraphs|
      invariant 0 <= i <= |paragraphs|
      invariant chunks + Pack(Paragraphs(paragraphs[i..]), chunkSize, ParagraphSep, currentChunk) == all
    {
      var paragraph := Strip(paragraphs[i]);
      ghost var rest := Paragraphs(paragraphs[i + 1..]);
      ParagraphsStep(paragraphs, i);
      if paragraph != "" {
        PackStep(paragraph, rest, chunkSize, ParagraphSep, currentChunk);
        if |currentChunk| + |paragraph| > chunkSize && currentChunk != "" {
          assert chunks + ([Strip(currentChunk)] + Pack(rest, chunkSize, ParagraphSep, paragraph))
            == (chunks + [Strip(currentChunk)]) + Pack(rest, chunkSize, ParagraphSep, paragraph);
          chunks := chunks + [Strip(currentChunk)];
          currentChunk := paragraph;
        } else if currentChunk != "" {
          currentChunk := currentChunk + ParagraphSep + paragraph;
        } else {
          currentChunk := paragraph;
        }
      } else {
        assert [] + rest == rest;
      }
      i := i + 1;
    }
    assert paragraphs[i..] == [];
    if Strip(currentChunk) != "" {
      chunks := chunks + [Strip(currentChunk)];
    }
  }

  /** The sentence loop for one over-long chunk: sentences packed into a
      buffer joined by a single space. */
  method PackSentences(sentences: seq<string>, chunkSize: int) returns (pieces: seq<string>)
    ensures pieces == Pack(sentences, chunkSize, " ", "")
  {
    pieces := [];
    var currentSentenceChunk := "";
    var k := 0;
    while k < |sentences|
      invariant 0 <= k <= |sentences|
      invariant pieces + Pack(sentences[k..], chunkSize, " ", currentSentenceChunk)
        == Pack(sentences, chunkSize, " ", "")
    {
      var sentence := sentences[k];
      assert sentences[k..] == [sentence] + sentences[k + 1..];
      PackStep(sentence, sentences[k + 1..], chunkSize, " ", currentSentenceChunk);
      if |currentSentenceChunk| + |sentence| > chunkSize && currentSentenceChunk != "" {
        assert pieces + ([Strip(currentSentenceChunk)] + Pack(sentences[k + 1..], chunkSize, " ", sentence))
          == (pieces + [Strip(currentSentenceChunk)]) + Pack(sentences[k + 1..], chunkSize, " ", sentence);
        pieces := pieces + [Strip(currentSentenceChunk)];
        currentSentenceChunk := sentence;
      } else if currentSentenceChunk != "" {
        currentSentenceChunk := currentSentenceChunk + " " + sentence;
      } else {
        currentSentenceChunk := sentence;
      }
      k := k + 1;
    }
    assert sentences[k..] == [];
    if Strip(currentSentenceChunk) != "" {
      pieces := pieces + [Strip(currentSentenceChunk)];
    }
  }

  method SplitSectionIntoChunks(section: string, chunkSize: int) returns (finalChunks: seq<string>)
    ensures finalChunks == SectionPieces(section, chunkSize)
  {
    var chunks := PackParagraphs(Split(Literal(ParagraphSep), section), chunkSize);
    finalChunks := [];
    var j := 0;
    while j < |chunks|
      invariant 0 <= j <= |chunks|
      invariant finalChunks == SentencePass(chunks[..j], chunkSize)
    {
      var chunk := chunks[j];
      FlatMapPrefix(Refiner(chunkSize), chunks, j);
      if |chunk| <= chunkSize {
        finalChunks := finalChunks + [chunk];
      } else {
        var pieces := PackSentences(Sentences(chunk), chunkSize);
        finalChunks := finalChunks + pieces;
      }
      j := j + 1;
    }
    assert chunks[..j] == chunks;
  }

  /** The chunks one file section contributes before the size filter. */
  function SectionChunks(section: string, size: int): seq<string>
  {
    var s := Strip(section);
    if s == "" then [] else if |s| <= size then [s] else SectionPieces(s, size)
  }

  function SectionChunker(size: int): string -> seq<string>
  {
    section => SectionChunks(section, size)
  }

  function SectionsChunks(sections: seq<string>, size: int): seq<string>
  {
    FlatMap(SectionChunker(size), sections)
  }

  /** The final filter: chunks are stripped and kept from 50 characters up. */
  function Meaningful(chunks: seq<string>): seq<string>
  {
    FlatMap(Keep, chunks)
  }

  function Keep(chunk: string): seq<string>
  {
    var c := Strip(chunk);
    if |c| >= MinChunkChars then [c] else []
  }

  /** What `split_text_into_chunks` returns. */
  function TextChunks(text: string, size: int): seq<string>
  {
    Meaningful(SectionsChunks(Split(FilePrefix, text), size))
  }

  method SplitTextIntoChunks(text: string, chunkSize: int) returns (validChunks: seq<string>)
    ensures validChunks == TextChunks(text, chunkSize)
  {
    var fileSections := Split(FilePrefix, text);
    var chunks := ChunkSections(fileSections, chunkSize);
    validChunks := KeepMeaningful(chunks);
  }

  /** The loop over file sections: blank sections are skipped, the others
      stripped and kept whole when they fit, split further otherwise. */
  method ChunkSections(fileSections: seq<string>, chunkSize: int) returns (chunks: seq<string>)
    ensures chunks == SectionsChunks(fileSections, chunkSize)
  {
    chunks := [];
    var i := 0;
    while i < |fileSections|
      invariant 0 <= i <= |fileSections|
      invariant chunks == SectionsChunks(fileSections[..i], chunkSize)
    {
      var section := fileSections[i];
      FlatMapPrefix(SectionChunker(chunkSize), fileSections, i);
      if Strip(section) != "" {
        section := Strip(section);
        if |section| <= chunkSize {
          chunks := chunks + [section];
        } else {
          var sectionChunks := SplitSectionIntoChunks(section, chunkSize);
          chunks := chunks + sectionChunks;
        }
      }
      i := i + 1;
    }
    assert fileSections[..i] == fileSections;
  }

  /** The final loop: each chunk is stripped and kept from 50 characters up. */
  method KeepMeaningful(chunks: seq<string>) returns (validChunks: seq<string>)
    ensures validChunks == Meaningful(chunks)
  {
    validChunks := [];
    var j := 0;
    while j < |chunks|
      invariant 0 <= j <= |chunks|
      invariant validChunks == Meaningful(chunks[..j])
    {
      var chunk := Strip(chunks[j]);
      FlatMapPrefix(Keep, chunks, j);
      if |chunk| >= MinChunkChars {
        validChunks := validChunks + [chunk];
      }
      j := j + 1;
    }
    assert chunks[..j] == chunks;
  }

  // ---------------------------------------------------------------- chunker properties

  /** Paragraph pass: the chunks are the joins of consecutive groups of the
      non-empty stripped paragraphs, each group grown only while the buffer
      plus the next paragraph fit and closed only when it did not; every
      paragraph appears once, in order, and the chunks are stripped. A chunk
      longer than the limit + 2 is a single paragraph. */
  lemma ParagraphPassSpec(section: string, size: int)
    ensures var paragraphs := Paragraphs(Split(Literal(ParagraphSep), section));
      (exists groups :: (ParagraphChunks(section, size) == JoinEach(groups, ParagraphSep) &&
        Flatten(groups) == paragraphs && Maximal(groups, size, ParagraphSep) &&
        forall i :: 0 <= i < |groups| ==> |groups[i]| > 0 && Fits(groups[i], size, ParagraphSep))) &&
      Join(ParagraphChunks(section, size), ParagraphSep) == Join(paragraphs, ParagraphSep) &&
      AllTrimmed(ParagraphChunks(section, size)) &&
      forall c :: c in ParagraphChunks(section, size) ==> |c| <= size + 2 || c in paragraphs
  {
    PackSpec(Paragraphs(Split(Literal(ParagraphSep), section)), size, ParagraphSep);
  }

  /** Sentence pass on a stripped chunk: one that fits is kept as is; a
      longer one is cut after `.`, `!` or `?` plus whitespace and repacked,
      so that joining the pieces with a space gives the sentences joined
      with a space; every piece is stripped and is at most the limit + 1 or
      a single sentence; a chunk holding no sentence break comes back whole. */
  lemma SentencePassSpec(chunk: string, size: int)
    requires Trimmed(chunk)
    ensures |chunk| <= size ==> Refine(chunk, size) == [chunk]
    ensures Join(Refine(chunk, size), " ") == (if |chunk| <= size then chunk else Join(Sentences(chunk), " "))
    ensures forall c :: c in Refine(chunk, size) ==> Trimmed(c) && (|c| <= size + 1 || NoBreak(c))
    ensures NoBreak(chunk) ==> Refine(chunk, size) == [chunk]
  {
    if |chunk| > size {
      SentencesTrimmed(chunk);
      PackSpec(Sentences(chunk), size, " ");
      if NoBreak(chunk) {
        forall k | 0 <= k < |chunk| ensures MatchAt(SentenceBreak, chunk, k) == 0 {
        }
        SplitNoMatch(SentenceBreak, chunk, 0, 0);
        assert chunk[0..] == chunk;
        assert Sentences(chunk) == [chunk];
        assert [chunk][1..] == [];
        StripTrimmed(chunk);
      }
    }
  }

  lemma SentencePassShape(chunks: seq<string>, size: int)
    requires AllTrimmed(chunks)
    ensures forall c :: c in SentencePass(chunks, size) ==> Trimmed(c) && (|c| <= size + 1 || NoBreak(c))
  {
    forall c | c in SentencePass(chunks, size) ensures Trimmed(c) && (|c| <= size + 1 || NoBreak(c)) {
      FlatMapMember(Refiner(size), chunks, c);
      var i :| 0 <= i < |chunks| && c in Refine(chunks[i], size);
      SentencePassSpec(chunks[i], size);
    }
  }

  /** Every piece of a section is stripped (so non-empty) and is at most the
      limit + 1 characters or a single sentence. */
  lemma SectionPiecesShape(section: string, size: int)
    ensures forall c :: c in SectionPieces(section, size) ==> Trimmed(c) && (|c| <= size + 1 || NoBreak(c))
  {
    ParagraphPassSpec(section, size);
    SentencePassShape(ParagraphChunks(section, size), size);
  }

  /** What one file section contributes to the result. */
  function SectionResult(section: string, size: int): seq<string>
  {
    Meaningful(SectionChunks(section, size))
  }

  function PerSection(sections: seq<string>, size: int): (r: seq<seq<string>>)
    ensures |r| == |sections|
    ensures forall k :: 0 <= k < |sections| ==> r[k] == SectionResult(sections[k], size)
  {
    if |sections| == 0 then []
    else PerSection(sections[..|sections| - 1], size) + [SectionResult(sections[|sections| - 1], size)]
  }

  /** Sections are never merged: the result is the concatenation, in order,
      of what each file section gives on its own. */
  lemma {:induction false} SectionsNeverMerged(sections: seq<string>, size: int)
    ensures Meaningful(SectionsChunks(sections, size)) == Flatten(PerSection(sections, size))
  {
    if |sections| > 0 {
      var n := |sections| - 1;
      SectionsNeverMerged(sections[..n], size);
      FlatMapAppend(Keep, SectionsChunks(sections[..n], size), SectionChunks(sections[n], size));
      FlattenAppend(PerSection(sections[..n], size), SectionResult(sections[n], size));
    }
  }

  lemma TextChunksPerSection(text: string, size: int)
    ensures TextChunks(text, size) == Flatten(PerSection(Split(FilePrefix, text), size))
  {
    SectionsNeverMerged(Split(FilePrefix, text), size);
  }

  /** A section whose stripped text is between 50 characters and the limit
      becomes exactly one chunk: the stripped section. */
  lemma KeptWhole(section: string, size: int)
    requires MinChunkChars <= |Strip(section)| <= size
    ensures SectionResult(section, size) == [Strip(section)]
  {
    StripIdempotent(section);
    assert SectionChunks(section, size) == [Strip(section)];
    var x := Strip(section);
    assert [x][..|[x]| - 1] == [];
    assert Meaningful([x]) == Meaningful([]) + Keep(x);
    assert Keep(x) == [x];
  }

  /** There is no exception for a small corpus: when every stripped section
      is shorter than 50 characters (and fits the limit) nothing is kept. */
  lemma {:induction false} SmallSectionsGiveNothing(sections: seq<string>, size: int)
    requires forall k :: 0 <= k < |sections| ==> |Strip(sections[k])| < MinChunkChars && |Strip(sections[k])| <= size
    ensures Meaningful(SectionsChunks(sections, size)) == []
  {
    if |sections| > 0 {
      var n := |sections| - 1;
      SmallSectionsGiveNothing(sections[..n], size);
      FlatMapAppend(Keep, SectionsChunks(sections[..n], size), SectionChunks(sections[n], size));
      var s := Strip(sections[n]);
      if s != "" {
        StripIdempotent(sections[n]);
        assert [s][..0] == [];
      }
    }
  }

  lemma NoSmallCorpusException(text: string, size: int)
    requires forall k :: 0 <= k < |Split(FilePrefix, text)| ==>
      |Strip(Split(FilePrefix, text)[k])| < MinChunkChars && |Strip(Split(FilePrefix, text)[k])| <= size
    ensures TextChunks(text, size) == []
  {
    SmallSectionsGiveNothing(Split(FilePrefix, text), size);
  }

  predicate ChunkShape(c: string, size: int)
  {
    Trimmed(c) && (|c| <= size + 1 || NoBreak(c))
  }

  lemma SectionChunksShape(section: string, size: int)
    ensures forall c :: c in SectionChunks(section, size) ==> ChunkShape(c, size)
  {
    var s := Strip(section);
    if s != "" && |s| > size {
      SectionPiecesShape(s, size);
    }
  }

  lemma SectionsChunksShape(sections: seq<string>, size: int)
    ensures forall c :: c in SectionsChunks(sections, size) ==> ChunkShape(c, size)
  {
    forall c | c in SectionsChunks(sections, size) ensures ChunkShape(c, size) {
      FlatMapMember(SectionChunker(size), sections, c);
      var i :| 0 <= i < |sections| && c in SectionChunker(size)(sections[i]);
      assert SectionChunker(size)(sections[i]) == SectionChunks(sections[i], size);
      SectionChunksShape(sections[i], size);
    }
  }

  lemma MeaningfulShape(chunks: seq<string>, size: int)
    requires forall c :: c in chunks ==> ChunkShape(c, size)
    ensures forall c :: c in Meaningful(chunks) ==> ChunkShape(c, size) && |c| >= MinChunkChars
  {
    forall c | c in Meaningful(chunks) ensures ChunkShape(c, size) && |c| >= MinChunkChars {
      FlatMapMember(Keep, chunks, c);
      var i :| 0 <= i < |chunks| && c in Keep(chunks[i]);
      assert chunks[i] in chunks;
      StripTrimmed(chunks[i]);
    }
  }

  /** Every chunk `split_text_into_chunks` returns is stripped, at least 50
      characters long, and at most the limit + 1 characters unless it is a
      single sentence. */
  lemma TextChunksShape(text: string, size: int)
    ensures forall c :: c in TextChunks(text, size) ==>
      Trimmed(c) && |c| >= MinChunkChars && (|c| <= size + 1 || NoBreak(c))
  {
    SectionsChunksShape(Split(FilePrefix, text), size);
    MeaningfulShape(SectionsChunks(Split(FilePrefix, text), size), size);
  }
}
