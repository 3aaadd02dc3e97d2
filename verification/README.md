# Compliance-Copilot text pipeline, in Dafny

Compliance-Copilot downloads government PDFs and extracts their text. It
merges that text into one file between `===== BEGIN FILE: … =====` and
`===== END FILE: … =====` markers, then cuts it into chunks. Each chunk is
tagged by keyword rules and, when a Gemini key is set, by the model. The
tags are then checked against tables of evidence keywords. This project
models the deterministic core of that pipeline and proves what it
promises:

- `AiFilter` (scraper/ai_filter.py): the rule tagger, the year finder, the
  record built for a chunk without the model, and the marker-aware
  three-tier chunker (file sections, then paragraphs, then sentences).
  The chunker's loops are methods proved against specification functions.
- `AiCategorize` (ai_categorize.py): the input normaliser with its stable
  sort, `chunkify`, the offline tagger with its `"General"` sentinel, the
  reply parser, the model-and-retry policy of `categorize_chunk`, and the
  merge loop of `process`, which gives exactly one record per line.
- `ProcessDocuments` (scraper/process_documents.py): set-based rule
  tagging, the two-attempt retry loop with its fixed back-off,
  `verify_chunk`, `process_chunk`, and the cut into file sections.
- `VerifyCategorization` (scraper/verify_categorization.py): `verify_item`,
  which writes a `verification` entry into the caller's item (a class
  holding the item's fields).
- `Analyze` (netlify/functions/analyze.py): the web endpoint's tagging,
  model fallback, chunk record, paragraph chunker, and the status codes
  and chunk ids of `handler`.
- `ExtractPdfs` (extract_pdfs.py): page assembly in
  `extract_text_from_pdf` and the merged-file serialiser `merge_texts`.
- `TestScraper` (scraper/test_scraper.py): `is_probable_pdf` and
  `safe_filename_from_url`.

Shared modules hold what several files use:

- `Strings`: ASCII `lower`, `strip`, substring tests, `join`.
- `Regex`: the marker, sentence and `str.split` patterns, written over
  characters.
- `Keywords`: keyword tables and the matching and verification they drive.
- `Packing`: the accumulate-and-flush loop.
- `Sorting`: `sorted(set(…))` and the stable `list.sort`.
- `Json`: JSON values and the Python built-ins applied to them.
- `Gemini`: the model reply and its fence clean-up.
- `TagUnion`: the sorted union of rule and model tags.
- `Wrappers`: `Option` and `Result`.

Every external effect is a parameter: the Gemini model (an oracle
function), `json.loads` (a parser function), the clock, SHA-256 and the
environment variable. Sleeps are recorded in a ghost trace of events.
Python exceptions that escape a function are `Err` results carrying
Python's message.

The model follows the code, including where the code departs from what
the system is meant to do or behaves in a way that is easy to miss:

- The three-tier chunker is meant to bound the chunk size. In the
  code the paragraph buffer ignores the `"\n\n"` separator in its size
  test, and the sentence buffer ignores the `" "`. So a sentence-packed
  chunk may reach `chunk_size + 1` characters, and a single sentence
  longer than the limit is emitted whole (`AiFilter.TextChunksShape`).
- Content outside the file markers is meant to be discarded. In the code
  the marker split of `split_text_into_chunks` removes only
  `===== BEGIN FILE:` and `===== END FILE:`. The file name, the closing
  `=====` and the merged file's header lines stay in the section text
  (`Regex.MarkerSplitKeepsName`). The marker-line split of
  `split_into_chunks` does take the whole line, name and closing `=====`
  included (`ProcessDocuments.ChunksLackMarkerLines`).
- A failed model tagging is meant to fall back to the rule tags. In
  `process_chunk` (both files), a model answer that is not a JSON object,
  or that holds non-string tags, raises instead (`Analyze.ChunkAnalysisSpec`).
- The retry policy is meant to allow three attempts on one model.
  scraper/process_documents.py makes at most two, with one back-off of
  15 seconds after an exception (`ProcessDocuments.NoneAccepted`).
- In `extract_text_from_pdf`, the debug line after each page calls
  `len(text)`. A page whose text is None therefore raises inside the page's
  `try`, and its error entry is recorded. So such a PDF is not reported as
  "No text content found in PDF" (`ExtractPdfs.NoTextPageReported`).

## Model

| member | source | states |
|---|---|---|
| AiFilter.RuleBasedTagging | scraper/ai_filter.py:97-106 | the tags are the table's categories with some keyword in the lower-cased text, in table order |
| AiFilter.RuleTagsSpec | scraper/ai_filter.py:97-106 | a category is returned iff one of its keywords is a substring of the lower-cased text; result is a subsequence of the table's keys with no duplicates (may be empty) |
| AiFilter.UpperCaseKeywordsInert | scraper/ai_filter.py:33-35 | "AI", "IT", "API" never occur in lower-cased text, and tagging equals tagging with every upper-case keyword removed |
| AiFilter.CenturiesFrom | scraper/ai_filter.py:93-94 | `re.findall` with one capturing group yields only 19 or 20 |
| AiFilter.ExtractYears | scraper/ai_filter.py:91-95 | result is strictly ascending, holds exactly the values found, each 19 or 20 |
| AiFilter.YearsAreCenturies | scraper/ai_filter.py:91-95 | "in 2023 and 1999" yields [19, 20], not the years |
| AiFilter.Summary | scraper/ai_filter.py:169 | a chunk of at most 500 characters is its own summary; a longer one is its first 500 characters plus "..." |
| AiFilter.ProcessTextChunk | scraper/ai_filter.py:143-180 | a blank chunk gives the "empty_chunk" record; otherwise "rule_based" with the rule tags, the extracted years, the summary and the 500-character sample |
| AiFilter.Paragraphs | scraper/ai_filter.py:224-227 | the kept paragraphs are stripped and non-empty |
| AiFilter.PackParagraphs | scraper/ai_filter.py:221-241 | the paragraph loop emits exactly the packing of the non-empty stripped paragraphs joined by "\n\n" |
| AiFilter.PackSentences | scraper/ai_filter.py:250-264 | the sentence loop emits exactly the packing of the sentences joined by " " |
| AiFilter.SplitSectionIntoChunks | scraper/ai_filter.py:216-266 | returns the paragraph pass followed, for each over-long chunk, by its sentence pass |
| AiFilter.SplitTextIntoChunks | scraper/ai_filter.py:182-214 | returns the section loop followed by the 50-character filter |
| AiFilter.ChunkSections | scraper/ai_filter.py:188-204 | blank sections are skipped; others are stripped and kept whole when they fit, split further otherwise |
| AiFilter.KeepMeaningful | scraper/ai_filter.py:207-211 | each chunk is stripped and kept iff it has at least 50 characters |
| AiFilter.ParagraphPassSpec | scraper/ai_filter.py:221-241 | chunks are the joins of consecutive non-empty groups covering every paragraph once in order; a group grows only while it fits and closes only when the next paragraph does not; chunks are stripped; one over size + 2 is a single paragraph |
| AiFilter.SentencePassSpec | scraper/ai_filter.py:244-264 | a fitting chunk is kept; a longer one is re-split after . ! ? plus whitespace and repacked, the pieces joined by " " giving the sentences joined by " "; pieces are stripped and at most size + 1 or one sentence |
| AiFilter.SentencePassShape | scraper/ai_filter.py:244-264 | every piece of the sentence pass is stripped and at most size + 1 characters or one sentence |
| AiFilter.SectionPiecesShape | scraper/ai_filter.py:216-266 | every piece of a section is stripped and at most size + 1 characters or one sentence |
| AiFilter.PerSection | scraper/ai_filter.py:191-204 | one result per section, the section's own chunks |
| AiFilter.SectionsNeverMerged | scraper/ai_filter.py:188-211 | the result is the in-order concatenation of what each file section gives alone |
| AiFilter.TextChunksPerSection | scraper/ai_filter.py:182-214 | `split_text_into_chunks` is the per-section results of the marker split, concatenated |
| AiFilter.KeptWhole | scraper/ai_filter.py:196-200 | a section whose stripped length is between 50 and the limit becomes exactly one chunk |
| AiFilter.SmallSectionsGiveNothing | scraper/ai_filter.py:207-211 | when every stripped section is under 50 characters, nothing is kept |
| AiFilter.NoSmallCorpusException | scraper/ai_filter.py:182-214 | a text whose sections are all under 50 characters gives [] |
| AiFilter.SectionChunksShape | scraper/ai_filter.py:191-204 | every chunk of a section is stripped and at most size + 1 or one sentence |
| AiFilter.SectionsChunksShape | scraper/ai_filter.py:189-204 | the same for all sections |
| AiFilter.MeaningfulShape | scraper/ai_filter.py:207-211 | the filter keeps that shape and adds the 50-character minimum |
| AiFilter.TextChunksShape | scraper/ai_filter.py:182-214 | every returned chunk is stripped, at least 50 characters, and at most size + 1 unless it is one sentence |
| AiCategorize.NormalizeInputItems | ai_categorize.py:39-77 | the normalised lines are the stable sort by line number of the items kept, from the list or its "lines" entry |
| AiCategorize.CollectedSpec | ai_categorize.py:55-74 | no more lines than items; a line is kept iff some item normalises to it; every line number is at least 1 |
| AiCategorize.NormalizeSpec | ai_categorize.py:39-77 | output is sorted by line number, a permutation of the kept lines, stable for ties, numbered from 1, at most one line per item |
| AiCategorize.StringsNumbered | ai_categorize.py:57-58 | a list of plain strings becomes lines 1..n in input order |
| AiCategorize.CollectedStrings | ai_categorize.py:55-58 | the first n strings give lines 1..n |
| AiCategorize.ChunkifySpec | ai_categorize.py:80-81 | the chunks concatenate to the input; each is full except the last, which holds 1..size items; an empty input gives no chunk |
| AiCategorize.ChunkifySlice | ai_categorize.py:80-81 | chunk k is the slice starting at k * size, as the comprehension writes it |
| AiCategorize.DedupSpec | ai_categorize.py:94-99 | de-duplication leaves no duplicate and drops no value |
| AiCategorize.DedupDistinct | ai_categorize.py:94-99 | a duplicate-free list is left unchanged |
| AiCategorize.OfflineTags | ai_categorize.py:84-100 | the loops compute the offline tags (keyword hits, sentinel, de-duplication) |
| AiCategorize.OfflineHitsSpec | ai_categorize.py:88-90 | a tag is hit iff its keyword occurs in the lower-cased text; hits follow table order, without duplicates |
| AiCategorize.OfflineHitsAsMatched | ai_categorize.py:88-90 | the offline scan is the category matcher on a one-keyword-per-tag table |
| AiCategorize.OfflineHitsEmpty | ai_categorize.py:88-92 | there are no hits iff no keyword occurs |
| AiCategorize.OfflineChoice | ai_categorize.py:88-100 | with distinct tags and no "General" in the table, de-duplication changes nothing and the result is never empty |
| AiCategorize.OfflineTagsSpec | ai_categorize.py:84-100 | never empty; ["General"] iff no keyword occurs; otherwise the hits in table order, each once |
| AiCategorize.CandidateSpec | ai_categorize.py:162-173 | a reply starting with "[" is parsed whole; otherwise a slice is parsed iff some "[" precedes some "]", and it is the widest such slice |
| AiCategorize.BracketSlice | ai_categorize.py:167-170 | the `find`/`rfind` indices bound a slice that starts with "[" and ends with "]" |
| AiCategorize.Next | ai_categorize.py:126-147 | after a failure: the same model's next attempt unless the error gives up or the back-offs are used; else the next model's first attempt; none after the last model |
| AiCategorize.AttemptStep | ai_categorize.py:133-148 | an answer ends the run; a give-up error moves to the next model; another error retries the same model |
| AiCategorize.AheadExhausted | ai_categorize.py:126-127 | a model whose four attempts are used hands over to the next |
| AiCategorize.MakeAttempt | ai_categorize.py:128-141 | one attempt: the back-off sleep except on the first attempt, then the call and the parse |
| AiCategorize.TryModel | ai_categorize.py:127-148 | the inner loop returns the answer or gives the model up as the policy says; its trace is non-empty and calls this model only, so an answer it returns is this model's, and on None the policy goes on with the next model |
| AiCategorize.CategorizeChunk | ai_categorize.py:119-151 | the result and the sleeps and calls made are those of the policy run |
| AiCategorize.RunShape | ai_categorize.py:126-151 | a run starts at its first attempt, follows the policy, and ends with the first answer or with no attempt left (None) |
| AiCategorize.MaxStep | ai_categorize.py:127-131 | each attempt adds one call and, after the first, its back-off |
| AiCategorize.MaxMonotone | ai_categorize.py:145-147 | giving up on a model never leaves more calls or sleep than retrying it |
| AiCategorize.BlockCounts | ai_categorize.py:128-136 | one call per attempt, preceded by its back-off |
| AiCategorize.TraceCalls | ai_categorize.py:133-136 | the calls made equal the attempts made |
| AiCategorize.RunLength | ai_categorize.py:126-151 | no run makes more attempts than the all-retry run |
| AiCategorize.RunSleep | ai_categorize.py:126-151 | no run sleeps longer than the all-retry run |
| AiCategorize.RunAllRetry | ai_categorize.py:126-151 | with only retryable errors, every attempt and every back-off happen and the result is None |
| AiCategorize.Budget | ai_categorize.py:20-26 | the policy allows 12 calls and 630 seconds of sleep per chunk |
| AiCategorize.CategorizeSpec | ai_categorize.py:119-151 | offline gives None at once; live starts with the first model, follows the policy, returns the first answer, makes at most 12 calls and sleeps at most 630 seconds |
| AiCategorize.AllRetry | ai_categorize.py:126-151 | all-retryable errors: 12 calls, 630 seconds, None |
| AiCategorize.AllGiveUp | ai_categorize.py:145-147 | all give-up errors: one call per model in priority order, no sleep, None |
| AiCategorize.FirstAnswer | ai_categorize.py:133-141 | an answer on the first attempt is returned after a single call |
| AiCategorize.Clamp | ai_categorize.py:214 | the confidence is clamped into [0, 1], unchanged inside it |
| AiCategorize.StrAll | ai_categorize.py:214 | each tag is converted with `str` |
| AiCategorize.IndexAiResponse | ai_categorize.py:205-216 | the loop builds the index of the answer's items |
| AiCategorize.IndexKeys | ai_categorize.py:207-216 | a line number is indexed iff some item gives an entry for it |
| AiCategorize.IndexLast | ai_categorize.py:207-216 | the indexed entry is the last item's for that number |
| AiCategorize.IndexConfidence | ai_categorize.py:211-214 | every indexed confidence lies in [0, 1] |
| AiCategorize.MergeOf | ai_categorize.py:219-238 | one record per line of the chunk, in order |
| AiCategorize.AiCountBound | ai_categorize.py:223-230 | the model-tagged count is at most the chunk size, and 0 iff no line takes the answer |
| AiCategorize.MergeChunk | ai_categorize.py:219-238 | the merge loop's records and counters; the two counters add up to the chunk size |
| AiCategorize.DecideSpec | ai_categorize.py:223-238 | every record keeps its line's number and text, has a tag and a confidence in [0, 1]; without the answer it has the offline tags at 0.5 |
| AiCategorize.ProcessChunk | ai_categorize.py:194-238 | one chunk: ask the client when live, index the answer, merge |
| AiCategorize.Process | ai_categorize.py:176-251 | records and counters of the whole run; the counters add up to the number of lines |
| AiCategorize.MergedPointwise | ai_categorize.py:194-238 | the merged records match the concatenated chunks line by line |
| AiCategorize.MergedOffline | ai_categorize.py:223-231 | with no answers every line gets its offline record and nothing is counted as model-tagged |
| AiCategorize.ChunkIndexerSpec | ai_categorize.py:196-216 | indexed confidences lie in [0, 1]; offline no chunk is indexed |
| AiCategorize.ProcessedIsMerged | ai_categorize.py:240-241 | the final sort changes nothing: the chunks concatenate to the sorted lines |
| AiCategorize.ProcessSpec | ai_categorize.py:176-251 | one record per normalised line, in line-number order, each with its line's number and text, a tag and a confidence in [0, 1] |
| AiCategorize.ProcessOffline | ai_categorize.py:185-231 | offline, every line gets its offline tags at 0.5 and `ai_processed` is 0 |
| ProcessDocuments.RuleBasedTagging | scraper/process_documents.py:60-66 | the tags are exactly the matching categories, each once |
| ProcessDocuments.SubstringTagging | scraper/process_documents.py:36 | any text containing "state" is tagged government |
| ProcessDocuments.Outcomes | scraper/process_documents.py:72-79 | MAX_RETRIES outcomes, attempt k being the k-th call's |
| ProcessDocuments.AttemptAfter | scraper/process_documents.py:72-84 | one loop turn: the call, then accept, go on, or sleep and go on |
| ProcessDocuments.ProcessWithAi | scraper/process_documents.py:68-85 | the result and the calls and sleeps are those of the retry run |
| ProcessDocuments.CallsAppend | scraper/process_documents.py:72-75 | calls add up over concatenated traces |
| ProcessDocuments.StepShape | scraper/process_documents.py:72-84 | an attempt makes one call first; a sleep of 15 s follows only an exception on a non-final attempt |
| ProcessDocuments.AttemptsCalls | scraper/process_documents.py:72-85 | at most MAX_RETRIES calls in attempt order, ending with an accepted answer or the failure dict |
| ProcessDocuments.SleepsAppend | scraper/process_documents.py:80-84 | the sleep rule holds over concatenated traces |
| ProcessDocuments.AttemptsSleeps | scraper/process_documents.py:80-84 | every sleep follows an exception |
| ProcessDocuments.FirstAcceptedWins | scraper/process_documents.py:78-79 | the first accepted answer is the result, after one call per attempt up to it |
| ProcessDocuments.NoneAccepted | scraper/process_documents.py:72-85 | when none is accepted, every attempt is made and the failure dict is returned |
| ProcessDocuments.WithAiSpec | scraper/process_documents.py:68-85 | without the service, no call and the "not available" dict; an incomplete answer costs no sleep; a first exception is followed by one 15 s sleep |
| ProcessDocuments.FailureNotesSpec | scraper/process_documents.py:97 | one note per failing tag, in order |
| ProcessDocuments.FailureStep | scraper/process_documents.py:93-97 | one more tag adds a note iff it fails its check |
| ProcessDocuments.VerifyChunk | scraper/process_documents.py:87-102 | the item is returned with its verification set and nothing else changed |
| ProcessDocuments.VerificationSpec | scraper/process_documents.py:87-102 | "passed" with the fixed sentence iff no table tag lacks evidence; otherwise one note per failing tag in order; tags outside the table never fail |
| ProcessDocuments.ProcessChunk | scraper/process_documents.py:104-132 | live: the union of rule and model tags, the answer's summary and confidence, or an error on a non-dict answer or non-string tags; offline: rule tags, 200-character summary, 0.5; always verified on the 300-character sample |
| ProcessDocuments.SampleIsPrefix | scraper/process_documents.py:120-129 | the sample is a prefix of at most 300 characters, so evidence later in the chunk is not seen |
| ProcessDocuments.KeptCount | scraper/process_documents.py:134-136 | at most one chunk per section |
| ProcessDocuments.KeptSections | scraper/process_documents.py:136 | a chunk is exactly a stripped, non-blank section whose raw length exceeds 100 |
| ProcessDocuments.SplitIntoChunksSpec | scraper/process_documents.py:134-136 | the chunks are those sections, stripped, in source order, at most one per section |
| ProcessDocuments.ChunksLackMarkerLines | scraper/process_documents.py:134-136 | no chunk holds a complete BEGIN or END line whose name has no "=====" and no newline |
| VerifyCategorization.Item.constructor | scraper/verify_categorization.py:22 | the item holds the given fields |
| VerifyCategorization.ErrorSticks | scraper/verify_categorization.py:32-38 | once a tag raises, the whole loop raises with that error |
| VerifyCategorization.VerifyItem | scraper/verify_categorization.py:22-45 | on success the item gains its verification entry; on an exception the item is left as it was and the message is returned |
| VerifyCategorization.FailingNotesDefined | scraper/verify_categorization.py:32-33 | the notes exist iff no tag is unhashable |
| VerifyCategorization.FailingStringsStep | scraper/verify_categorization.py:32-38 | one more tag adds its failing entry, if any |
| VerifyCategorization.NotesForAppend | scraper/verify_categorization.py:38 | notes add up over concatenated tag lists |
| VerifyCategorization.FailingNotesSpec | scraper/verify_categorization.py:32-38 | the notes are, in tag order, one per string tag of the table with no keyword in the sample |
| VerifyCategorization.VerificationValueSpec | scraper/verify_categorization.py:41-44 | "passed" iff there is no note, with the fixed sentence; otherwise "failed" with the notes as a list |
| VerifyCategorization.VerifiedSpec | scraper/verify_categorization.py:22-45 | verify_item only adds or overwrites `verification`, and raises only on a non-string sample, non-iterable tags or an unhashable tag |
| VerifyCategorization.PassedMeansEvidence | scraper/verify_categorization.py:32-38 | no failing tag iff every string tag of the table has evidence; failing tags are table keys present in the item |
| VerifyCategorization.StringTagsFrom | scraper/verify_categorization.py:32 | every string tag comes from the item's tags |
| VerifyCategorization.MissingTagsPass | scraper/verify_categorization.py:26 | an item without tags passes |
| VerifyCategorization.UnknownTagsPass | scraper/verify_categorization.py:33 | tags outside the table never fail |
| VerifyCategorization.CapitalisedTagNotChecked | scraper/verify_categorization.py:16-20 | lookup is case-sensitive: "Finance" passes |
| VerifyCategorization.FinanceWithoutEvidenceFails | scraper/verify_categorization.py:36-38 | "finance" without its keywords fails with exactly one note naming them |
| VerifyCategorization.OfflineTagsCapitalised | ai_categorize.py:29-35 | offline tags are among the capitalised names and "General" |
| VerifyCategorization.OfflineRecordsPass | scraper/verify_categorization.py:32-38 | records tagged offline by the line categoriser always pass |
| Analyze.RuleBasedTagging | netlify/functions/analyze.py:41-47 | the tags are exactly the matching categories, each once |
| Analyze.SubstringTagging | netlify/functions/analyze.py:22 | any text containing "ai" is tagged technology |
| Analyze.MaintainIsTechnology | netlify/functions/analyze.py:22 | "maintain" is tagged technology |
| Analyze.ProcessWithAiSpec | netlify/functions/analyze.py:49-59 | unavailable gives the fixed dict; any exception of the call or the parser gives the failure dict; otherwise the parsed value, dict or not |
| Analyze.FencedAnswerParsed | netlify/functions/analyze.py:55-56 | a ```json-fenced reply is parsed from the text inside the fence |
| Analyze.ProcessChunk | netlify/functions/analyze.py:61-73 | the record or exception of `process_chunk` |
| Analyze.ChunkAnalysisSpec | netlify/functions/analyze.py:61-73 | fails iff the answer is not a dict or has a non-string tag; otherwise id, sample, ascending distinct union of rule and model tags, and the answer's summary |
| Analyze.FallbackTagsAreRuleTags | netlify/functions/analyze.py:61-73 | without a model answer a chunk carries the rule tags and a fixed summary |
| Analyze.KeptCount | netlify/functions/analyze.py:77 | at most one chunk per paragraph |
| Analyze.StripKeepsNoSeparator | netlify/functions/analyze.py:77 | stripping never creates a blank line |
| Analyze.SplitIntoChunksSpec | netlify/functions/analyze.py:75-77 | chunks are the non-blank paragraphs, stripped, in order, at most one per paragraph; none is empty, untrimmed, or holds "\n\n" |
| Analyze.RequestText | netlify/functions/analyze.py:87-93 | an accepted text is truthy |
| Analyze.AnalyseChunks | netlify/functions/analyze.py:103-106 | the loop gives the records of all chunks with ids from 1, or the first exception |
| Analyze.Handler | netlify/functions/analyze.py:80-112 | the response or exception of `handler` |
| Analyze.AnalysesStopAtError | netlify/functions/analyze.py:104-106 | an exception ends the loop with that exception |
| Analyze.AnalysesSpec | netlify/functions/analyze.py:103-106 | ok iff every chunk is processed; then record i is chunk i's with id i + 1; otherwise the first failing chunk's exception |
| Analyze.HandleStatus | netlify/functions/analyze.py:86-112 | 400 iff the request is unreadable or has no truthy text; 500 iff the text is there but the key is unset or empty; only 200, 400 or 500 |
| Analyze.AnalysedIds | netlify/functions/analyze.py:104-105 | ids count the chunks from 1 |
| Analyze.HandleAnswers | netlify/functions/analyze.py:100-112 | a 200 answer comes from a string text and a set key, with one record per chunk |
| Analyze.MissingBodyRejected | netlify/functions/analyze.py:88-93 | a request without a body is rejected with 400 |
| Analyze.RequestCheckedBeforeKey | netlify/functions/analyze.py:87-98 | an unreadable request is 400 even with no key |
| ExtractPdfs.PageEntry | extract_pdfs.py:48-55 | a page adds at most one entry and never an empty one |
| ExtractPdfs.ExtractTextFromPdf | extract_pdfs.py:37-66 | a failed open gives the "Failed to read PDF" message; success iff the page loop left entries; the text is the entries joined by "\n"; otherwise "No text content found in PDF" |
| ExtractPdfs.PageEntriesSnoc | extract_pdfs.py:47-55 | a page appends its entry |
| ExtractPdfs.PageEntriesSpec | extract_pdfs.py:47-55 | at most one entry per page, none empty, and every page's contribution is kept |
| ExtractPdfs.NoEntries | extract_pdfs.py:50-58 | no entries iff every page's text is empty |
| ExtractPdfs.AllPagesRead | extract_pdfs.py:47-51 | when every page has text, the entries are the page texts in order |
| ExtractPdfs.NoTextPageReported | extract_pdfs.py:49-55 | a page whose text is None yields the error entry of the debug line |
| ExtractPdfs.Header | extract_pdfs.py:84-86 | three header lines, the last empty |
| ExtractPdfs.BeginMarker | extract_pdfs.py:90 | a BEGIN line starts with the marker prefix |
| ExtractPdfs.EndMarker | extract_pdfs.py:92 | an END line starts with the marker prefix |
| ExtractPdfs.ResultLines | extract_pdfs.py:88-98 | four lines per result: BEGIN marker, body, END marker, empty line |
| ExtractPdfs.MergeTexts | extract_pdfs.py:78-100 | the merged text is the header and result blocks joined by "\n" |
| ExtractPdfs.BlockOfConcat | extract_pdfs.py:88-98 | appending a block keeps earlier blocks |
| ExtractPdfs.FlatMapLength | extract_pdfs.py:88-98 | four lines per result |
| ExtractPdfs.BlockAt | extract_pdfs.py:83-98 | block i of header + results is result i's lines |
| ExtractPdfs.MergedLayout | extract_pdfs.py:83-100 | 3 + 4n lines: the header, then result i's block at position i |
| ExtractPdfs.ResultFraming | extract_pdfs.py:89-98 | a usable result is framed around its stripped text; any other, a success with blank text included, by "(EXTRACTION FAILED)" markers around `[ERROR: text]` |
| ExtractPdfs.GapsAreEmpty | extract_pdfs.py:92-95 | only an empty line separates an END marker from the next BEGIN marker |
| ExtractPdfs.CountSnoc | extract_pdfs.py:83-98 | counting prefixed lines, one line at a time |
| ExtractPdfs.CountAppend | extract_pdfs.py:83-98 | counts add up over concatenation |
| ExtractPdfs.BeginLinesSnoc | extract_pdfs.py:83-98 | BEGIN lines, one line at a time |
| ExtractPdfs.BeginLinesAppend | extract_pdfs.py:83-98 | BEGIN lines add up over concatenation |
| ExtractPdfs.NotBeginLines | extract_pdfs.py:84-97 | header, error, END and empty lines start no file |
| ExtractPdfs.ResultBeginLines | extract_pdfs.py:89-98 | each result block holds one BEGIN line |
| ExtractPdfs.HeaderBeginLines | extract_pdfs.py:84-86 | the header holds none |
| ExtractPdfs.CountBlocks | extract_pdfs.py:88-98 | one prefixed line per block gives one per result |
| ExtractPdfs.MarkersMatchWhole | extract_pdfs.py:90-97 | the BEGIN and END lines written around a result, with or without " (EXTRACTION FAILED)", are each matched whole by the marker-line pattern of scraper/process_documents.py, for names without "=====" and without a newline |
| ExtractPdfs.OneBeginPerResult | extract_pdfs.py:78-100 | `merged_content` (the list of entries before the `"\n".join`) holds exactly one BEGIN entry per result, for texts that do not themselves start with a marker |
| TestScraper.IsProbablePdfSpec | scraper/test_scraper.py:31-36 | accepted iff the Content-Type mentions "pdf" in any case or the body starts with %PDF; without the header only the body decides |
| TestScraper.UpperCaseTypeAccepted | scraper/test_scraper.py:32-34 | "Application/PDF" is accepted whatever the body |
| TestScraper.HtmlRefused | scraper/test_scraper.py:31-36 | "text/html" with a body not starting with the signature is refused |
| TestScraper.Basename | scraper/test_scraper.py:40 | the basename is the suffix after the last "/", and holds no "/" |
| TestScraper.BasenameAfterSlash | scraper/test_scraper.py:40 | the basename of dir + "/" + file is file |
| TestScraper.LowerAppend | scraper/test_scraper.py:45 | lower-casing distributes over concatenation |
| TestScraper.PdfExtensionOfConcat | scraper/test_scraper.py:45-49 | a prefix keeps a ".pdf" extension |
| TestScraper.PdfSuffixAppended | scraper/test_scraper.py:45-46 | appending ".pdf" gives the extension |
| TestScraper.FallbackIsPdf | scraper/test_scraper.py:41-44 | the fallback name has the extension |
| TestScraper.WithPdfExtensionSpec | scraper/test_scraper.py:45-46 | ".pdf" is appended iff it is missing in any case, and the result always has it |
| TestScraper.AlwaysPdfExtension | scraper/test_scraper.py:38-46 | every local name ends with ".pdf" in any case |
| TestScraper.SafeFilenameIsPdf | scraper/test_scraper.py:38-49 | the file name is the timestamp, "_" and a name with the ".pdf" extension |
| TestScraper.LocalNameCases | scraper/test_scraper.py:40-46 | a dotted ".pdf" basename is kept, another dotted basename gets ".pdf", and one without a dot is replaced by the fallback |
| TestScraper.NoSeparatorInName | scraper/test_scraper.py:38-46 | no "/" enters the name when the digest has none |
| TestScraper.PdfBasenameKept | scraper/test_scraper.py:38-49 | a basename such as "Report.PDF" is kept unchanged after the timestamp |
| Keywords.Lookup | scraper/process_documents.py:94-95 | a key is missing iff it is not among the table's keys |
| Keywords.SetTagging | scraper/process_documents.py:60-66 | the set-building loop's list holds exactly the matching categories, each once |
| Keywords.MatchedSpec | scraper/ai_filter.py:102-104 | a category matches iff one of its keywords occurs; matches follow table order without duplicates; the list and set forms agree |
| Keywords.MatchedIgnoresUpper | scraper/ai_filter.py:99-103 | keywords with an upper-case letter never match lower-cased text |
| Keywords.ListOfSet | scraper/process_documents.py:66 | `list(set)` holds the set's elements, each once, in an order left open |
| Keywords.FailingSpec | scraper/process_documents.py:93-97 | a tag fails iff the table has it and none of its keywords occurs; no failure iff every tag passes |
| Packing.PackStep | scraper/ai_filter.py:229-237 | one step of the loop: flush, or join the buffer |
| Packing.PackIsJoinedGroups | scraper/ai_filter.py:224-241 | over stripped pieces the buffer is the join of the current group |
| Packing.GroupsShape | scraper/ai_filter.py:224-241 | groups cover the pieces in order; each grew only while it fit and closed only when the next did not |
| Packing.FitsBound | scraper/ai_filter.py:230 | a group of two or more pieces is at most size + the separator length |
| Packing.PackSpec | scraper/ai_filter.py:221-241 | the chunks are joins of such a partition of the pieces; every piece appears once, in order; a chunk over size + the separator length is a single piece |
| Regex.Split | scraper/ai_filter.py:188 | `re.split` always returns at least one piece |
| Regex.MarkerSplitKeepsName | scraper/ai_filter.py:188 | splitting `===== BEGIN FILE:` followed by any text holding no further "FILE:" gives an empty piece and that text whole: the file name and the closing "=====" stay in the section |
| Regex.SplitFromQuiet | scraper/process_documents.py:135 | every piece of a `re.split` is a stretch of the text where no match of the pattern starts |
| Regex.MarkerLineMatch | scraper/process_documents.py:135 | a whole `===== BEGIN FILE: name =====` or `===== END FILE: name =====` line is one match of the marker-line pattern, for any name without "=====" and without a newline |
| Regex.FileLineSplitDropsName | scraper/process_documents.py:135 | for any text, no piece of the marker-line split holds a complete BEGIN or END line whose name has no "=====" and no newline: the name goes with the marker |
| Regex.JoinSplit | netlify/functions/analyze.py:77 | joining `s.split(sep)` with sep gives s back |
| Regex.SplitPiecesLackSep | netlify/functions/analyze.py:77 | no piece of `s.split(sep)` contains sep |
| Regex.ReplaceAbsent | netlify/functions/analyze.py:55 | `replace` leaves a text without the target unchanged |
| Regex.Sentences | scraper/ai_filter.py:250 | the sentence split returns at least one piece |
| Regex.SentencesTrimmed | scraper/ai_filter.py:250 | splitting a stripped text gives non-empty stripped sentences with no further break |
| Sorting.SortedDistinctSpec | scraper/ai_filter.py:95 | `sorted(set(xs))` is strictly ascending and holds exactly the values of xs |
| Sorting.SortedUnique | scraper/process_documents.py:113 | `sorted(set(...))` depends only on the set, not on the list order |
| Sorting.StrLessIsStrictOrder | scraper/process_documents.py:113 | string comparison is a strict total order |
| Sorting.StableSortSpec | ai_categorize.py:76 | the key sort orders by key, is a permutation, and keeps ties in input order |
| Sorting.StableSortSorted | ai_categorize.py:241 | sorting an already ordered list changes nothing |
| Gemini.UnfencedPlain | scraper/process_documents.py:76 | a reply without fences reaches the parser stripped |
| Gemini.UnfencedBlock | scraper/process_documents.py:76 | a ```json block reaches the parser as its inside |
| TagUnion.CombinedSpec | scraper/process_documents.py:110-113 | the combined tags are strictly ascending, exactly the rule tags plus the model's, independent of the rule tags' order |
| Strings.Strip | scraper/ai_filter.py:196 | `strip` gives a slice with no surrounding whitespace |
| Strings.StripBlank | scraper/ai_filter.py:192 | the stripped text is empty iff the text is blank |
| Strings.StripIdempotent | scraper/ai_filter.py:209 | stripping twice is stripping once |
| Strings.RFindLast | ai_categorize.py:168 | `rfind` gives the last occurrence, or -1 |
| Strings.FindFirst | ai_categorize.py:167 | `find` gives the first occurrence, or -1 |
| Strings.JoinAppend | extract_pdfs.py:60 | joining distributes over appending |
| Json.Truncate | ai_categorize.py:209 | `int` of a float truncates toward zero |

## Left out

- Network, files, logging and the command-line `main` functions are not modelled. This covers `download_pdf`, `write_metadata_csv` and `run` in scraper/test_scraper.py, and `find_pdf_files`, `extract_all_pdfs` and `main` in extract_pdfs.py. It also covers reading and writing the JSON and text files in every script.
- The Gemini client, its configuration and `generate_content` are an oracle parameter. The model is assumed to answer the same prompt the same way within one run.
- `json.loads` is a parser parameter. `json.dumps` of the response body in `handler` is not rendered: the model returns the records, not their JSON text.
- `time.sleep` is an event in a ghost trace. The clock (`datetime.now`), SHA-256 and `urlparse` are parameters: the model takes the URL's path, the hex digest and the timestamp string.
- `str.lower`, `str.strip` and `\s` are modelled on ASCII only: letters A–Z and the whitespace codes 9–13 and 28–32.
- AiFilter.ExtractYears / AiFilter.CenturiesFrom: the word boundary `\b` and the digit class `\d` of `\b(19|20)\d{2}\b` are ASCII here (word characters A–Z, a–z, 0–9 and `_`; digits 0–9). Python matches them against all Unicode word characters and decimal digits. So "é2023" gives 20 in the model and nothing in Python, and "20२३" (Devanagari digits) gives nothing in the model and 20 in Python.
- ExtractPdfs.OneBeginPerResult: counts BEGIN entries of `merged_content`, not lines of the joined file. A page text holding a line that starts with `===== BEGIN FILE:` adds a line to the file that the count does not see.
- `ai_tagging` and the `ai_enhanced` branch of `process_text_chunk` in scraper/ai_filter.py are not modelled, since both depend on the network. Only the blank and rule-based branches are.
- `_build_prompt_payload` and the prompt text are not modelled. The oracle receives the lines or the chunk prefix the prompt is built from.
- Analyze.ChunkAnalysisSpec: a model tag list holding any non-string is an error. Python raises TypeError only when the set cannot be built or sorted. An all-integer tag list, for example, would sort.
- ProcessDocuments.ProcessChunk: same as Analyze.ChunkAnalysisSpec for non-string model tags.
- Analyze.ProcessChunk: returns exactly Analyze.ChunkAnalysis, so it shares the non-string-tag error of Analyze.ChunkAnalysisSpec.
- VerifyCategorization.VerifyItem: a `tags` value that is a dict (iterated over its keys in Python) is treated as an error.
- ProcessDocuments.VerifyChunk: models the in-place update of `item["verification"]` on a value, returning the updated item. The caller's dict is not aliased.
- ExtractPdfs.ExtractTextFromPdf: exceptions raised while iterating `reader.pages` itself (outside a page's `try`) are not modelled. Only a failure to open the PDF is.
- Confidence values are `real`. Python's NaN and infinity, and `float()` of such strings, are not modelled.
