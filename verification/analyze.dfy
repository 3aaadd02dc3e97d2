/** The web endpoint (netlify/functions/analyze.py): a request body holding
    a `text` field is split into paragraph chunks, and every chunk is tagged
    by keyword rules, summarised and tagged by the model, and answered with
    its id, summary, combined tags and a 300-character sample. The model
    service, the JSON parser and the `GEMINI_API_KEY` setting are
    parameters; logging is left out. */
module Analyze {
  import opened Wrappers
  import opened Strings
  import opened Regex
  import opened Keywords
  import opened Sorting
  import opened Json
  import opened Gemini
  import opened TagUnion

  const PromptChars := 3000
  const SampleChars := 300
  const ChunkSeparator := "\n\n"

  /** The endpoint's four rule categories; "ai" among the technology
      keywords matches inside ordinary words such as "maintain". */
  const RuleKeywords: Table := [
    ("finance", ["finance", "tax", "budget", "revenue", "investment", "accounting"]),
    ("legal", ["legal", "law", "regulation", "compliance", "policy", "contract"]),
    ("technology", ["technology", "software", "data", "cyber", "ai", "system"]),
    ("government", ["government", "public", "federal", "state", "irs"])
  ]

  /** `DocumentProcessor.rule_based_tagging`: the categories with a keyword
      in the lower-cased text, each once, in an order left open. */
  method RuleBasedTagging(text: string) returns (tags: seq<string>)
    ensures forall c :: c in tags <==> c in MatchedSet(RuleKeywords, Lower(text))
    ensures NoDuplicates(tags)
  {
    tags := SetTagging(RuleKeywords, text);
  }

  /** Keywords match as substrings: any text holding "ai" is technology. */
  lemma SubstringTagging(text: string)
    requires Contains(Lower(text), "ai")
    ensures "technology" in MatchedSet(RuleKeywords, Lower(text))
  {
    assert RuleKeywords[2].1[4] == "ai";
    assert AnyIn(RuleKeywords[2].1, Lower(text));
  }

  lemma MaintainIsTechnology()
    ensures "technology" in MatchedSet(RuleKeywords, Lower("maintain"))
  {
    var low := Lower("maintain");
    assert low == "maintain";
    assert "ai" <= low[1..];
    SubstringTagging("maintain");
  }

  /** One `generate_content` call, on the prompt built from a chunk's first
      3000 characters. */
  type Oracle = string -> Reply

  /** `json.loads`: the parsed value, or the message of the error raised. */
  type Parser = string -> Result<Json>

  const NotAvailable := JDict(map["summary" := JString("AI not available."), "tags" := JList([])])
  const ProcessingFailed := JDict(map["summary" := JString("AI processing failed."), "tags" := JList([])])

  /** `DocumentProcessor.process_with_ai`: one attempt; any exception (the
      call's or the parser's) gives the failure answer, and whatever the
      parser returns is handed back unchecked. */
  function ProcessWithAi(chunk: string, available: bool, oracle: Oracle, parse: Parser): Json
  {
    if !available then NotAvailable
    else match oracle(Take(chunk, PromptChars))
      case Raised(_) => ProcessingFailed
      case Answered(text) =>
        match parse(Unfenced(text))
        case Err(_) => ProcessingFailed
        case Ok(v) => v
  }

  /** The model answers only when available; every failure of the call or
      of the parser becomes the failure answer; a reply wrapped in a
      ```json block is parsed from the text inside it, and any value the
      parser returns, dict or not, is passed on. */
  lemma ProcessWithAiSpec(chunk: string, available: bool, oracle: Oracle, parse: Parser)
    ensures var r := ProcessWithAi(chunk, available, oracle, parse);
      && (!available ==> r == NotAvailable)
      && (available && oracle(Take(chunk, PromptChars)).Raised? ==> r == ProcessingFailed)
      && (available && oracle(Take(chunk, PromptChars)).Answered? && parse(Unfenced(oracle(Take(chunk, PromptChars)).text)).Err?
          ==> r == ProcessingFailed)
      && (r != NotAvailable && r != ProcessingFailed ==>
          available && oracle(Take(chunk, PromptChars)).Answered? &&
          parse(Unfenced(oracle(Take(chunk, PromptChars)).text)) == Ok(r))
  {
  }

  lemma FencedAnswerParsed(chunk: string, oracle: Oracle, parse: Parser, body: string)
    requires oracle(Take(chunk, PromptChars)) == Answered(JsonFence + body + Fence)
    requires NoBacktick(body)
    ensures parse(body).Ok? ==> ProcessWithAi(chunk, true, oracle, parse) == parse(body).value
    ensures parse(body).Err? ==> ProcessWithAi(chunk, true, oracle, parse) == ProcessingFailed
  {
    UnfencedBlock(body);
  }

  /** One entry of the response: `chunk_id`, `summary`, `tags`, `text_sample`. */
  datatype ChunkRecord = ChunkRecord(chunkId: int, summary: Json, tags: seq<string>, textSample: string)

  /** What `process_chunk` returns for a chunk, or the exception it raises:
      the AttributeError of `.get` on an answer that is not a dict, or the
      TypeError of combining model tags that are not all strings. */
  function ChunkAnalysis(chunk: string, chunkId: int, available: bool, oracle: Oracle, parse: Parser): Result<ChunkRecord>
  {
    var ai := ProcessWithAi(chunk, available, oracle, parse);
    if !ai.JDict? then Err(NoGet(ai))
    else if !AllStrings(AiTags(ai.fields)) then Err("TypeError")
    else Ok(ChunkRecord(chunkId, GetOr(ai.fields, "summary", JNull),
                        Combined(Matched(RuleKeywords, Lower(chunk)), AiTags(ai.fields)),
                        Take(chunk, SampleChars) + "..."))
  }

  /** `DocumentProcessor.process_chunk`. */
  method ProcessChunk(chunk: string, chunkId: int, available: bool, oracle: Oracle, parse: Parser)
    returns (record: Result<ChunkRecord>)
    ensures record == ChunkAnalysis(chunk, chunkId, available, oracle, parse)
  {
    var ruleTags := RuleBasedTagging(chunk);
    var aiResult := ProcessWithAi(chunk, available, oracle, parse);
    if !aiResult.JDict? {
      return Err(NoGet(aiResult));
    }
    var aiTags := AiTags(aiResult.fields);
    if !AllStrings(aiTags) {
      return Err("TypeError");
    }
    CombinedSpec(ruleTags, aiTags);
    MatchedSpec(RuleKeywords, Lower(chunk));
    assert Elems(Matched(RuleKeywords, Lower(chunk))) == Elems(ruleTags);
    var combinedTags := Combined(ruleTags, aiTags);
    record := Ok(ChunkRecord(chunkId, GetOr(aiResult.fields, "summary", JNull), combinedTags,
                             Take(chunk, SampleChars) + "..."));
  }

  /** A chunk's record carries its id and sample; its tags are ascending,
      distinct, and exactly the rule categories the chunk matches plus the
      model's tags; the summary is the answer's, None when it has none.
      It fails exactly when the answer is not a dict or its tag list holds
      a non-string. */
  lemma ChunkAnalysisSpec(chunk: string, chunkId: int, available: bool, oracle: Oracle, parse: Parser)
    ensures var ai := ProcessWithAi(chunk, available, oracle, parse);
      ChunkAnalysis(chunk, chunkId, available, oracle, parse).Ok? <==> ai.JDict? && AllStrings(AiTags(ai.fields))
    ensures var ai := ProcessWithAi(chunk, available, oracle, parse);
      var r := ChunkAnalysis(chunk, chunkId, available, oracle, parse);
      r.Ok? ==>
        && r.value.chunkId == chunkId
        && r.value.textSample == Take(chunk, SampleChars) + "..."
        && |r.value.textSample| <= SampleChars + 3
        && r.value.summary == (if "summary" in ai.fields then ai.fields["summary"] else JNull)
        && StrictlySorted(r.value.tags, StrLess)
        && (forall t :: t in r.value.tags <==>
              t in MatchedSet(RuleKeywords, Lower(chunk)) || JString(t) in AiTags(ai.fields))
  {
    var ai := ProcessWithAi(chunk, available, oracle, parse);
    if ai.JDict? && AllStrings(AiTags(ai.fields)) {
      CombinedSpec(Matched(RuleKeywords, Lower(chunk)), AiTags(ai.fields));
      MatchedSpec(RuleKeywords, Lower(chunk));
    }
  }

  /** Without the model (unavailable, or failing), a chunk is tagged by the
      rules alone and summarised by the fixed failure text. */
  lemma FallbackTagsAreRuleTags(chunk: string, chunkId: int, available: bool, oracle: Oracle, parse: Parser)
    requires ProcessWithAi(chunk, available, oracle, parse) in {NotAvailable, ProcessingFailed}
    ensures var r := ChunkAnalysis(chunk, chunkId, available, oracle, parse);
      && r.Ok?
      && (forall t :: t in r.value.tags <==> t in MatchedSet(RuleKeywords, Lower(chunk)))
      && r.value.summary in {JString("AI not available."), JString("AI processing failed.")}
  {
    var ai := ProcessWithAi(chunk, available, oracle, parse);
    assert AiTags(ai.fields) == [];
    ChunkAnalysisSpec(chunk, chunkId, available, oracle, parse);
  }

  /** The paragraph of a split that becomes a chunk: stripped, if not empty. */
  function KeepParagraph(p: string): seq<string>
  {
    if Strip(p) != "" then [Strip(p)] else []
  }

  /** `split_into_chunks`: `[p.strip() for p in text.split('\n\n') if p.strip()]`. */
  function SplitIntoChunks(text: string): seq<string>
  {
    FlatMap(KeepParagraph, Split(Literal(ChunkSeparator), text))
  }

  lemma {:induction false} KeptCount(paragraphs: seq<string>)
    ensures |FlatMap(KeepParagraph, paragraphs)| <= |paragraphs|
  {
    if |paragraphs| > 0 {
      KeptCount(paragraphs[..|paragraphs| - 1]);
    }
  }

  /** A stripped paragraph holds no blank-line separator. */
  lemma StripKeepsNoSeparator(p: string)
    requires !Contains(p, ChunkSeparator)
    ensures !Contains(Strip(p), ChunkSeparator)
  {
    StripIsSlice(p);
    var a, b :| 0 <= a <= b <= |p| && Strip(p) == p[a..b];
    if Contains(Strip(p), ChunkSeparator) {
      ContainsInSlice(p, a, b, ChunkSeparator);
    }
  }

  /** The chunks are the non-blank paragraphs between blank lines,
      stripped, in order, at most one per paragraph; no chunk is empty,
      starts or ends with whitespace, or holds a blank line itself. */
  lemma SplitIntoChunksSpec(text: string)
    ensures var paragraphs := Split(Literal(ChunkSeparator), text);
      var chunks := SplitIntoChunks(text);
      && |chunks| <= |paragraphs|
      && (forall c :: c in chunks ==> c != "" && Trimmed(c) && !Contains(c, ChunkSeparator))
      && (forall c :: c in chunks <==>
            exists i :: 0 <= i < |paragraphs| && !Blank(paragraphs[i]) && c == Strip(paragraphs[i]))
  {
    var paragraphs := Split(Literal(ChunkSeparator), text);
    var chunks := SplitIntoChunks(text);
    KeptCount(paragraphs);
    SplitPiecesLackSep(ChunkSeparator, text);
    forall i | 0 <= i < |paragraphs| ensures Strip(paragraphs[i]) != "" <==> !Blank(paragraphs[i]) {
      StripBlank(paragraphs[i]);
    }
    forall c | c in chunks
      ensures c != "" && Trimmed(c) && !Contains(c, ChunkSeparator)
      ensures exists i :: 0 <= i < |paragraphs| && !Blank(paragraphs[i]) && c == Strip(paragraphs[i])
    {
      FlatMapMember(KeepParagraph, paragraphs, c);
      var i :| 0 <= i < |paragraphs| && c in KeepParagraph(paragraphs[i]);
      assert paragraphs[i] in paragraphs;
      StripKeepsNoSeparator(paragraphs[i]);
    }
    forall c, i | 0 <= i < |paragraphs| && !Blank(paragraphs[i]) && c == Strip(paragraphs[i])
      ensures c in chunks
    {
      FlatMapHas(KeepParagraph, paragraphs, i, c);
    }
  }

  /** The endpoint's answer: an error status with its message, or 200 with
      one record per chunk. */
  datatype Response = Rejected(statusCode: int, error: string) | Analysed(results: seq<ChunkRecord>)

  function StatusCode(r: Response): int
  {
    if r.Rejected? then r.statusCode else 200
  }

  const MissingText := "Request body must contain a 'text' field."
  const MissingKey := "GEMINI_API_KEY is not set."

  /** Python truthiness of a JSON value. */
  predicate Truthy(v: Json)
  {
    match v
    case JNull => false
    case JBool(b) => b
    case JInt(i) => i != 0
    case JFloat(r) => r != 0.0
    case JString(s) => s != ""
    case JList(items) => items != []
    case JDict(fields) => fields != map[]
  }

  /** The guarded part of `handler`: `json.loads(event.get('body', '{}'))`,
      then `body.get('text')`, refused when falsy. Err is the message of the
      exception raised on the way. */
  function RequestText(event: map<string, Json>, parse: Parser): (r: Result<Json>)
    ensures r.Ok? ==> Truthy(r.value)
  {
    var body := GetOr(event, "body", JString("{}"));
    if !body.JString? then Err("the JSON object must be str, bytes or bytearray, not " + TypeName(body))
    else match parse(body.s)
      case Err(m) => Err(m)
      case Ok(v) =>
        if !v.JDict? then Err(NoGet(v))
        else
          var t := GetOr(v.fields, "text", JNull);
          if !Truthy(t) then Err(MissingText) else Ok(t)
  }

  /** How one chunk is answered, given its text and id. */
  type Analyser = (string, int) -> Result<ChunkRecord>

  function ChunkAnalyser(available: bool, oracle: Oracle, parse: Parser): Analyser
  {
    (chunk: string, chunkId: int) => ChunkAnalysis(chunk, chunkId, available, oracle, parse)
  }

  /** The records of the chunks, with ids counted from 1, or the first
      exception raised. */
  function Analyses(chunks: seq<string>, analyse: Analyser): Result<seq<ChunkRecord>>
  {
    if |chunks| == 0 then Ok([])
    else
      match Analyses(chunks[..|chunks| - 1], analyse)
      case Err(m) => Err(m)
      case Ok(rs) =>
        match analyse(chunks[|chunks| - 1], |chunks|)
        case Err(m) => Err(m)
        case Ok(rec) => Ok(rs + [rec])
  }

  /** What `handler` answers, or the exception that escapes it. */
  function Handle(event: map<string, Json>, apiKey: Option<string>, available: bool, oracle: Oracle, parse: Parser): Result<Response>
  {
    match RequestText(event, parse)
    case Err(m) => Ok(Rejected(400, "Invalid request: " + m))
    case Ok(t) =>
      if apiKey.None? || apiKey.value == "" then Ok(Rejected(500, MissingKey))
      else if !t.JString? then Err("'" + TypeName(t) + "' object has no attribute 'split'")
      else
        match Analyses(SplitIntoChunks(t.s), ChunkAnalyser(available, oracle, parse))
        case Err(m) => Err(m)
        case Ok(rs) => Ok(Analysed(rs))
  }

  /** The loop of `handler`: each chunk processed with its 1-based id, the
      records collected in order; an exception ends the loop. */
  method AnalyseChunks(chunks: seq<string>, available: bool, oracle: Oracle, parse: Parser)
    returns (allResults: Result<seq<ChunkRecord>>)
    ensures allResults == Analyses(chunks, ChunkAnalyser(available, oracle, parse))
  {
    ghost var analyse := ChunkAnalyser(available, oracle, parse);
    var collected: seq<ChunkRecord> := [];
    for i := 0 to |chunks|
      invariant Analyses(chunks[..i], analyse) == Ok(collected)
    {
      var result := ProcessChunk(chunks[i], i + 1, available, oracle, parse);
      assert chunks[..i + 1][..i] == chunks[..i];
      if result.Err? {
        AnalysesStopAtError(chunks, i + 1, analyse);
        return Err(result.msg);
      }
      collected := collected + [result.value];
    }
    assert chunks[..|chunks|] == chunks;
    allResults := Ok(collected);
  }

  /** `handler(event, context)`; `available` says whether the Gemini client
      could be set up with the key. */
  method Handler(event: map<string, Json>, apiKey: Option<string>, available: bool, oracle: Oracle, parse: Parser)
    returns (response: Result<Response>)
    ensures response == Handle(event, apiKey, available, oracle, parse)
  {
    var request := RequestText(event, parse);
    if request.Err? {
      return Ok(Rejected(400, "Invalid request: " + request.msg));
    }
    if apiKey.None? || apiKey.value == "" {
      return Ok(Rejected(500, MissingKey));
    }
    var textToProcess := request.value;
    if !textToProcess.JString? {
      return Err("'" + TypeName(textToProcess) + "' object has no attribute 'split'");
    }
    var chunks := SplitIntoChunks(textToProcess.s);
    var allResults := AnalyseChunks(chunks, available, oracle, parse);
    if allResults.Err? {
      return Err(allResults.msg);
    }
    response := Ok(Analysed(allResults.value));
  }

  /** A failing prefix makes the whole run fail with the same message. */
  lemma {:induction false} AnalysesStopAtError(chunks: seq<string>, k: nat, analyse: Analyser)
    requires k <= |chunks|
    requires Analyses(chunks[..k], analyse).Err?
    ensures Analyses(chunks, analyse) == Analyses(chunks[..k], analyse)
    decreases |chunks| - k
  {
    if k < |chunks| {
      assert chunks[..k + 1][..k] == chunks[..k];
      AnalysesStopAtError(chunks, k + 1, analyse);
    } else {
      assert chunks[..k] == chunks;
    }
  }

  /** A successful run answers every chunk once, in order, the i-th chunk
      as the i-th record, with id i + 1; it fails exactly when some chunk's
      processing raises, and then with the first such chunk's exception. */
  lemma {:induction false} AnalysesSpec(chunks: seq<string>, analyse: Analyser)
    ensures Analyses(chunks, analyse).Ok? <==> forall i :: 0 <= i < |chunks| ==> analyse(chunks[i], i + 1).Ok?
    ensures var r := Analyses(chunks, analyse);
      r.Ok? ==>
        && |r.value| == |chunks|
        && forall i :: 0 <= i < |chunks| ==> Ok(r.value[i]) == analyse(chunks[i], i + 1)
    ensures var r := Analyses(chunks, analyse);
      r.Err? ==>
        exists k :: 0 <= k < |chunks| && analyse(chunks[k], k + 1) == Err(r.msg) &&
          forall i :: 0 <= i < k ==> analyse(chunks[i], i + 1).Ok?
  {
    if |chunks| > 0 {
      var n := |chunks| - 1;
      var init := chunks[..n];
      AnalysesSpec(init, analyse);
      forall i | 0 <= i < n ensures init[i] == chunks[i] { }
    }
  }

  /** The endpoint answers 400 exactly when the body cannot be read or has
      no truthy `text`, and 500 exactly when the text is there but the key
      is unset or empty; every answer it gives is 200, 400 or 500, and
      otherwise it raises. */
  lemma HandleStatus(event: map<string, Json>, apiKey: Option<string>, available: bool, oracle: Oracle, parse: Parser)
    ensures var r := Handle(event, apiKey, available, oracle, parse);
      (r.Ok? && StatusCode(r.value) == 400) <==> RequestText(event, parse).Err?
    ensures var r := Handle(event, apiKey, available, oracle, parse);
      (r.Ok? && StatusCode(r.value) == 500) <==>
        RequestText(event, parse).Ok? && (apiKey.None? || apiKey == Some(""))
    ensures var r := Handle(event, apiKey, available, oracle, parse);
      r.Ok? ==> StatusCode(r.value) in {200, 400, 500}
  {
  }

  /** The ids of a successful run count the chunks from 1. */
  lemma AnalysedIds(chunks: seq<string>, available: bool, oracle: Oracle, parse: Parser)
    ensures var r := Analyses(chunks, ChunkAnalyser(available, oracle, parse));
      r.Ok? ==>
        && |r.value| == |chunks|
        && forall i :: 0 <= i < |chunks| ==>
             Ok(r.value[i]) == ChunkAnalysis(chunks[i], i + 1, available, oracle, parse) && r.value[i].chunkId == i + 1
  {
    AnalysesSpec(chunks, ChunkAnalyser(available, oracle, parse));
    forall i | 0 <= i < |chunks|
      ensures ChunkAnalysis(chunks[i], i + 1, available, oracle, parse).Ok? ==>
        ChunkAnalysis(chunks[i], i + 1, available, oracle, parse).value.chunkId == i + 1
    {
      ChunkAnalysisSpec(chunks[i], i + 1, available, oracle, parse);
    }
  }

  /** A 200 answer comes from a string text and a set key, and holds one
      record per chunk of the text, the i-th with id i + 1. */
  lemma HandleAnswers(event: map<string, Json>, apiKey: Option<string>, available: bool, oracle: Oracle, parse: Parser)
    ensures var r := Handle(event, apiKey, available, oracle, parse);
      var req := RequestText(event, parse);
      r.Ok? && r.value.Analysed? ==>
        && req.Ok? && req.value.JString? && apiKey.Some? && apiKey.value != ""
        && |r.value.results| == |SplitIntoChunks(req.value.s)|
        && forall i :: 0 <= i < |r.value.results| ==>
             Ok(r.value.results[i]) == ChunkAnalysis(SplitIntoChunks(req.value.s)[i], i + 1, available, oracle, parse) &&
             r.value.results[i].chunkId == i + 1
  {
    var req := RequestText(event, parse);
    if req.Ok? && req.value.JString? {
      AnalysedIds(SplitIntoChunks(req.value.s), available, oracle, parse);
    }
  }

  /** A request without a body reads as `{}`, which has no text: 400. */
  lemma MissingBodyRejected(event: map<string, Json>, apiKey: Option<string>, available: bool, oracle: Oracle, parse: Parser)
    requires "body" !in event
    requires parse("{}") == Ok(JDict(map[]))
    ensures Handle(event, apiKey, available, oracle, parse) == Ok(Rejected(400, "Invalid request: " + MissingText))
  {
  }

  /** The key is checked only after the request: an unreadable request is
      400 even when the key is unset. */
  lemma RequestCheckedBeforeKey(event: map<string, Json>, available: bool, oracle: Oracle, parse: Parser)
    requires RequestText(event, parse).Err?
    ensures StatusCode(Handle(event, None, available, oracle, parse).value) == 400
  {
  }
}
