/** The consolidated processor of scraper/process_documents.py: rule tags as
    a set, one Gemini model asked up to twice with a fixed back-off after an
    exception, the record built for a chunk in live or offline mode, its
    verification against a keyword table, and the cut of the merged text
    into file sections. The model call and the JSON parser are parameters;
    the sleeps are a ghost trace. */
module ProcessDocuments {
  import opened Wrappers
  import opened Strings
  import opened Regex
  import opened Keywords
  import opened Sorting
  import opened Json
  import opened Gemini
  import opened TagUnion

  const MaxRetries: nat := 2
  const BackoffTime: nat := 15
  const PromptChars: nat := 3000
  const SummaryChars: nat := 200
  const SampleChars: nat := 300
  const MinSectionChars: nat := 100

  const RuleKeywords: Table := [
    ("finance", ["finance", "tax", "budget", "revenue", "investment", "accounting", "irs"]),
    ("legal", ["legal", "law", "regulation", "compliance", "policy", "contract", "uscis", "ftc"]),
    ("labor", ["labor", "employment", "employee", "whd", "dol"]),
    ("safety", ["safety", "osha", "hazard"]),
    ("government", ["government", "public", "federal", "state"])
  ]

  const VerificationRules: Table := [
    ("finance", ["tax", "invoice", "payment", "financial", "budget", "revenue", "irs"]),
    ("legal", ["contract", "agreement", "policy", "regulation", "law", "uscis", "ftc"]),
    ("labor", ["employee", "salary", "recruitment", "leave", "labor", "dol"])
  ]

  // ---------------------------------------------------------------------
  // rule_based_tagging

  /** The categories with a keyword in the lower-cased text, as a list in
      the order `list(set)` happens to give. */
  method RuleBasedTagging(text: string) returns (tags: seq<string>)
    ensures forall c :: c in tags <==> c in MatchedSet(RuleKeywords, Lower(text))
    ensures NoDuplicates(tags)
  {
    tags := SetTagging(RuleKeywords, text);
  }

  /** Keywords are matched as substrings: any text whose lower-cased form
      holds "state" (as in "statement" or "estate") is tagged government. */
  lemma SubstringTagging(text: string)
    requires Contains(Lower(text), "state")
    ensures "government" in MatchedSet(RuleKeywords, Lower(text))
  {
    assert RuleKeywords[4].1[3] == "state";
    assert AnyIn(RuleKeywords[4].1, Lower(text));
  }

  // ---------------------------------------------------------------------
  // process_with_ai

  /** The model call for the prompt built from `chunk[:3000]`, on attempt
      number `attempt` (from 0). */
  type Oracle = (string, nat) -> Reply

  /** `json.loads`: the value, or the message of the error it raises. */
  type Parser = string -> Result<Json>

  /** `"summary" in result and "tags" in result`; None where `in` raises
      (on None, booleans and numbers). On a list `in` looks for an equal
      element, on a string for a substring. */
  function HasSummaryAndTags(v: Json): Option<bool>
  {
    match v
    case JDict(fields) => Some("summary" in fields && "tags" in fields)
    case JList(items) => Some(JString("summary") in items && JString("tags") in items)
    case JString(s) => Some(Contains(s, "summary") && Contains(s, "tags"))
    case _ => None
  }

  /** One attempt ends with the parsed value returned, with a value lacking
      a key (no exception), or with an exception. */
  datatype Outcome = Accepted(result: Json) | Incomplete | Raises

  function AttemptOutcome(reply: Reply, parse: Parser): Outcome
  {
    match reply
    case Raised(_) => Raises
    case Answered(text) =>
      match parse(Unfenced(text))
      case Err(_) => Raises
      case Ok(v) =>
        match HasSummaryAndTags(v)
        case None => Raises
        case Some(found) => if found then Accepted(v) else Incomplete
  }

  /** What the processor does that can be observed: calling the model,
      sleeping. */
  datatype Event = Call(attempt: nat) | Sleep(seconds: nat)

  datatype AiRun = AiRun(result: Json, trace: seq<Event>)

  const NotAvailable: Json :=
    JDict(map["summary" := JString("AI not available."), "tags" := JList([]), "confidence" := JFloat(0.0)])
  const ProcessingFailed: Json :=
    JDict(map["summary" := JString("AI processing failed."), "tags" := JList([]), "confidence" := JFloat(0.0)])

  /** The sleep after an exception: only when another attempt follows. */
  function Pause(attempt: nat): seq<Event>
  {
    if attempt < MaxRetries - 1 then [Sleep(BackoffTime)] else []
  }

  /** What one attempt does: the call, then the back-off if it raised. */
  function Step(outcome: Outcome, attempt: nat): seq<Event>
  {
    [Call(attempt)] + (if outcome.Raises? then Pause(attempt) else [])
  }

  /** How each attempt on `prompt` ends, in attempt order. */
  function Outcomes(prompt: string, oracle: Oracle, parse: Parser): (r: seq<Outcome>)
    ensures |r| == MaxRetries
    ensures forall k :: 0 <= k < MaxRetries ==> r[k] == AttemptOutcome(oracle(prompt, k), parse)
  {
    seq(MaxRetries, k requires 0 <= k < MaxRetries => AttemptOutcome(oracle(prompt, k), parse))
  }

  /** The retry loop from attempt number `attempt` on, given how each
      attempt ends. */
  function Retries(outcomes: seq<Outcome>, attempt: nat): AiRun
    requires |outcomes| == MaxRetries && attempt <= MaxRetries
    decreases MaxRetries - attempt
  {
    if attempt == MaxRetries then AiRun(ProcessingFailed, [])
    else
      var outcome := outcomes[attempt];
      if outcome.Accepted? then AiRun(outcome.result, Step(outcome, attempt))
      else
        var rest := Retries(outcomes, attempt + 1);
        AiRun(rest.result, Step(outcome, attempt) + rest.trace)
  }

  function WithAi(chunk: string, available: bool, oracle: Oracle, parse: Parser): AiRun
  {
    if !available then AiRun(NotAvailable, [])
    else Retries(Outcomes(Take(chunk, PromptChars), oracle, parse), 0)
  }

  /** One turn of the retry loop, seen from the events already recorded. */
  lemma AttemptAfter(outcomes: seq<Outcome>, attempt: nat, before: seq<Event>)
    requires |outcomes| == MaxRetries
    requires attempt < MaxRetries
    ensures var outcome := outcomes[attempt];
      var run := Retries(outcomes, attempt);
      var rest := Retries(outcomes, attempt + 1);
      && (outcome.Accepted? ==> run == AiRun(outcome.result, Step(outcome, attempt)))
      && (!outcome.Accepted? ==>
            run.result == rest.result && before + run.trace == (before + Step(outcome, attempt)) + rest.trace)
  {
  }

  method ProcessWithAi(chunk: string, available: bool, oracle: Oracle, parse: Parser)
    returns (result: Json, ghost trace: seq<Event>)
    ensures result == WithAi(chunk, available, oracle, parse).result
    ensures trace == WithAi(chunk, available, oracle, parse).trace
  {
    trace := [];
    if !available {
      return NotAvailable, trace;
    }
    var prompt := Take(chunk, PromptChars);
    ghost var outcomes := Outcomes(prompt, oracle, parse);
    ghost var goal := Retries(outcomes, 0);
    for attempt := 0 to MaxRetries
      invariant goal.result == Retries(outcomes, attempt).result
      invariant goal.trace == trace + Retries(outcomes, attempt).trace
    {
      AttemptAfter(outcomes, attempt, trace);
      var outcome := AttemptOutcome(oracle(prompt, attempt), parse);
      trace := trace + Step(outcome, attempt);
      if outcome.Accepted? {
        return outcome.result, trace;
      }
    }
    result := ProcessingFailed;
  }

  function Calls(trace: seq<Event>): nat
  {
    if |trace| == 0 then 0 else (if trace[0].Call? then 1 else 0) + Calls(trace[1..])
  }

  lemma {:induction false} CallsAppend(x: seq<Event>, y: seq<Event>)
    ensures Calls(x + y) == Calls(x) + Calls(y)
  {
    if |x| == 0 {
      assert x + y == y;
    } else {
      CallsAppend(x[1..], y);
      assert (x + y)[1..] == x[1..] + y;
    }
  }

  /** An attempt makes one call, first; a sleep follows only an exception on
      an attempt that is not the last, and lasts BACKOFF_TIME. */
  lemma StepShape(outcome: Outcome, attempt: nat)
    ensures var s := Step(outcome, attempt);
      && Calls(s) == 1 && s[0] == Call(attempt)
      && forall i :: 1 <= i < |s| ==> s[i] == Sleep(BackoffTime) && outcome.Raises? && attempt < MaxRetries - 1
  {
    var s := Step(outcome, attempt);
    if outcome.Raises? && attempt < MaxRetries - 1 {
      assert s == [Call(attempt), Sleep(BackoffTime)];
      assert s[1..] == [Sleep(BackoffTime)];
      assert s[1..][1..] == [];
      assert Calls(s[1..]) == 0;
    } else {
      assert s == [Call(attempt)];
      assert s[1..] == [];
    }
  }

  /** The attempts from number `attempt` on call the model once per attempt,
      in order and at most MAX_RETRIES times in all, and end with an accepted
      answer or the failure dict. */
  lemma {:induction false} AttemptsCalls(outcomes: seq<Outcome>, attempt: nat)
    requires |outcomes| == MaxRetries
    requires attempt <= MaxRetries
    ensures var run := Retries(outcomes, attempt);
      && Calls(run.trace) <= MaxRetries - attempt
      && (forall i :: 0 <= i < |run.trace| && run.trace[i].Call? ==> attempt <= run.trace[i].attempt < MaxRetries)
      && (run.result == ProcessingFailed ||
          exists j :: attempt <= j < MaxRetries && outcomes[j] == Accepted(run.result))
    decreases MaxRetries - attempt
  {
    if attempt < MaxRetries {
      var run := Retries(outcomes, attempt);
      var outcome := outcomes[attempt];
      var head := Step(outcome, attempt);
      StepShape(outcome, attempt);
      var rest := if outcome.Accepted? then [] else Retries(outcomes, attempt + 1).trace;
      if !outcome.Accepted? {
        AttemptsCalls(outcomes, attempt + 1);
      }
      assert run.trace == head + rest;
      CallsAppend(head, rest);
      forall i | 0 <= i < |run.trace| && run.trace[i].Call?
        ensures attempt <= run.trace[i].attempt < MaxRetries
      {
        if i >= |head| {
          assert run.trace[i] == rest[i - |head|];
        }
      }
    }
  }

  /** Every sleep in `t` lasts BACKOFF_TIME and directly follows a call
      that raised and was not the last attempt. */
  predicate SleepsAfterErrors(t: seq<Event>, outcomes: seq<Outcome>)
    requires |outcomes| == MaxRetries
  {
    forall i :: 0 <= i < |t| && t[i].Sleep? ==>
      t[i].seconds == BackoffTime && i > 0 && t[i - 1].Call? && t[i - 1].attempt < MaxRetries - 1 &&
      outcomes[t[i - 1].attempt].Raises?
  }

  lemma SleepsAppend(x: seq<Event>, y: seq<Event>, outcomes: seq<Outcome>)
    requires |outcomes| == MaxRetries
    requires SleepsAfterErrors(x, outcomes) && SleepsAfterErrors(y, outcomes)
    requires |y| > 0 ==> y[0].Call?
    ensures SleepsAfterErrors(x + y, outcomes)
  {
    var t := x + y;
    forall i | 0 <= i < |t| && t[i].Sleep?
      ensures t[i].seconds == BackoffTime && i > 0 && t[i - 1].Call? && t[i - 1].attempt < MaxRetries - 1
      ensures outcomes[t[i - 1].attempt].Raises?
    {
      if i < |x| {
        assert t[i] == x[i] && t[i - 1] == x[i - 1];
      } else {
        assert t[i] == y[i - |x|];
        assert t[i - 1] == y[i - 1 - |x|];
      }
    }
  }

  /** The sleeps of the retry loop come only after exceptions. */
  lemma {:induction false} AttemptsSleeps(outcomes: seq<Outcome>, attempt: nat)
    requires |outcomes| == MaxRetries
    requires attempt <= MaxRetries
    ensures SleepsAfterErrors(Retries(outcomes, attempt).trace, outcomes)
    decreases MaxRetries - attempt
  {
    if attempt < MaxRetries {
      var outcome := outcomes[attempt];
      var head := Step(outcome, attempt);
      StepShape(outcome, attempt);
      assert SleepsAfterErrors(head, outcomes) by {
        forall i | 0 <= i < |head| && head[i].Sleep?
          ensures i > 0 && head[i - 1] == Call(attempt)
        {
        }
      }
      if !outcome.Accepted? {
        var rest := Retries(outcomes, attempt + 1).trace;
        AttemptsSleeps(outcomes, attempt + 1);
        if attempt + 1 < MaxRetries {
          StepShape(outcomes[attempt + 1], attempt + 1);
        }
        SleepsAppend(head, rest, outcomes);
      }
    }
  }

  /** The first accepted answer is the result: the attempts before it made
      one call each, and none after it is made. */
  lemma {:induction false} FirstAcceptedWins(outcomes: seq<Outcome>, attempt: nat, j: nat)
    requires |outcomes| == MaxRetries
    requires attempt <= j < MaxRetries
    requires forall m :: attempt <= m < j ==> !outcomes[m].Accepted?
    requires outcomes[j].Accepted?
    ensures Retries(outcomes, attempt).result == outcomes[j].result
    ensures Calls(Retries(outcomes, attempt).trace) == j - attempt + 1
    decreases j - attempt
  {
    var outcome := outcomes[attempt];
    StepShape(outcome, attempt);
    if attempt < j {
      var rest := Retries(outcomes, attempt + 1);
      FirstAcceptedWins(outcomes, attempt + 1, j);
      CallsAppend(Step(outcome, attempt), rest.trace);
    }
  }

  /** When no attempt is accepted, every attempt is made and the result is
      the failure dict. */
  lemma {:induction false} NoneAccepted(outcomes: seq<Outcome>, attempt: nat)
    requires |outcomes| == MaxRetries
    requires attempt <= MaxRetries
    requires forall m :: attempt <= m < MaxRetries ==> !outcomes[m].Accepted?
    ensures Retries(outcomes, attempt).result == ProcessingFailed
    ensures Calls(Retries(outcomes, attempt).trace) == MaxRetries - attempt
    decreases MaxRetries - attempt
  {
    if attempt < MaxRetries {
      var outcome := outcomes[attempt];
      var rest := Retries(outcomes, attempt + 1);
      StepShape(outcome, attempt);
      NoneAccepted(outcomes, attempt + 1);
      CallsAppend(Step(outcome, attempt), rest.trace);
    }
  }

  /** Without the service there is no call and the fixed "not available"
      answer; with it, an answer lacking a key costs no sleep, while an
      exception on the first attempt is followed by one sleep of
      BACKOFF_TIME before the second. */
  lemma WithAiSpec(chunk: string, available: bool, oracle: Oracle, parse: Parser)
    ensures !available ==> WithAi(chunk, available, oracle, parse) == AiRun(NotAvailable, [])
    ensures var first := AttemptOutcome(oracle(Take(chunk, PromptChars), 0), parse);
      var run := WithAi(chunk, available, oracle, parse);
      && (available && first.Incomplete? ==> run.trace[..2] == [Call(0), Call(1)])
      && (available && first.Raises? ==> run.trace[..3] == [Call(0), Sleep(BackoffTime), Call(1)])
  {
    var outcomes := Outcomes(Take(chunk, PromptChars), oracle, parse);
    var first := outcomes[0];
    if available && !first.Accepted? {
      var run := WithAi(chunk, available, oracle, parse);
      assert run == Retries(outcomes, 0);
      var rest := Retries(outcomes, 1);
      assert run.trace == Step(first, 0) + rest.trace;
      StepShape(outcomes[1], 1);
      var t := run.trace;
      if first.Incomplete? {
        assert Step(first, 0) == [Call(0)];
        assert t[0] == Call(0) && t[1] == Call(1);
        assert t[..2] == [Call(0), Call(1)];
      } else {
        assert Step(first, 0) == [Call(0), Sleep(BackoffTime)];
        assert t[0] == Call(0) && t[1] == Sleep(BackoffTime) && t[2] == Call(1);
        assert t[..3] == [Call(0), Sleep(BackoffTime), Call(1)];
      }
    }
  }

  // ---------------------------------------------------------------------
  // verify_chunk

  /** `notes`: a list of messages, or the fixed sentence when the list is empty. */
  datatype Notes = NoteList(items: seq<string>) | NoteText(text: string)

  /** `item["verification"]`. */
  datatype Verification = Verification(status: string, notes: Notes)

  const ConsistentNote := "All tags appear consistent with text sample."

  function FailureNote(tag: string): string
  {
    "Tag '" + tag + "' present, but no required keywords found in sample."
  }

  function FailureNotes(failing: seq<string>): seq<string>
  {
    if |failing| == 0 then []
    else FailureNotes(failing[..|failing| - 1]) + [FailureNote(failing[|failing| - 1])]
  }

  lemma {:induction false} FailureNotesSpec(failing: seq<string>)
    ensures |FailureNotes(failing)| == |failing|
    ensures forall i :: 0 <= i < |failing| ==> FailureNotes(failing)[i] == FailureNote(failing[i])
  {
    if |failing| > 0 {
      FailureNotesSpec(failing[..|failing| - 1]);
    }
  }

  function VerificationOf(tags: seq<string>, sample: string): Verification
  {
    var failing := Failing(tags, VerificationRules, Lower(sample));
    Verification(
      if failing == [] then "passed" else "failed",
      if failing == [] then NoteText(ConsistentNote) else NoteList(FailureNotes(failing)))
  }

  /** One more tag adds a note exactly when it fails its check. */
  lemma FailureStep(tags: seq<string>, i: nat, lowered: string)
    requires i < |tags|
    ensures var before := Failing(tags[..i], VerificationRules, lowered);
      var after := Failing(tags[..i + 1], VerificationRules, lowered);
      var fails := FailsCheck(tags[i], VerificationRules, lowered);
      && FailureNotes(after) == FailureNotes(before) + (if fails then [FailureNote(tags[i])] else [])
      && (after == [] <==> before == [] && !fails)
  {
    var before := Failing(tags[..i], VerificationRules, lowered);
    var fails := FailsCheck(tags[i], VerificationRules, lowered);
    assert tags[..i + 1][..i] == tags[..i];
    assert tags[..i + 1][i] == tags[i];
    assert Failing(tags[..i + 1], VerificationRules, lowered) == before + (if fails then [tags[i]] else []);
    if fails {
      assert (before + [tags[i]])[..|before|] == before;
    } else {
      assert before + [] == before;
    }
  }

  /** A processed chunk; `verification` is absent until verify_chunk adds it. */
  datatype DocItem = DocItem(
    id: int, processingMethod: string, summary: Json, tags: seq<string>,
    confidence: Json, textSample: string, verification: Option<Verification>)

  /** Loops over the tags, noting each tag of the table none of whose
      keywords occurs in the lower-cased sample, and sets `verification`. */
  method VerifyChunk(item: DocItem) returns (verified: DocItem)
    ensures verified == item.(verification := Some(VerificationOf(item.tags, item.textSample)))
  {
    var tags := item.tags;
    var textSample := Lower(item.textSample);
    var verificationPassed := true;
    var notes: seq<string> := [];
    for i := 0 to |tags|
      invariant notes == FailureNotes(Failing(tags[..i], VerificationRules, textSample))
      invariant verificationPassed <==> Failing(tags[..i], VerificationRules, textSample) == []
    {
      var tag := tags[i];
      FailureStep(tags, i, textSample);
      match Lookup(VerificationRules, tag) {
        case Some(keywords) =>
          if !AnyIn(keywords, textSample) {
            verificationPassed := false;
            notes := notes + [FailureNote(tag)];
          }
        case None =>
      }
    }
    assert tags[..|tags|] == tags;
    var status := if verificationPassed then "passed" else "failed";
    var noteValue := if notes != [] then NoteList(notes) else NoteText(ConsistentNote);
    FailureNotesSpec(Failing(tags, VerificationRules, textSample));
    verified := item.(verification := Some(Verification(status, noteValue)));
  }

  /** The status is "passed" exactly when no tag of the table lacks all of
      its keywords in the lower-cased sample, and then the notes are the fixed
      sentence; otherwise there is one note per failing tag, in tag order.
      Tags outside the table never fail. */
  lemma VerificationSpec(tags: seq<string>, sample: string)
    ensures var v := VerificationOf(tags, sample);
      var failing := Failing(tags, VerificationRules, Lower(sample));
      && (v.status == "passed" <==> forall i :: 0 <= i < |tags| ==> !FailsCheck(tags[i], VerificationRules, Lower(sample)))
      && (v.status == "passed" <==> v.notes == NoteText(ConsistentNote))
      && (v.status == "failed" ==>
            v.notes.NoteList? && |v.notes.items| == |failing| <= |tags| &&
            forall i :: 0 <= i < |failing| ==> v.notes.items[i] == FailureNote(failing[i]))
      && (forall t :: t in failing ==> t in tags && t in Keys(VerificationRules))
  {
    var failing := Failing(tags, VerificationRules, Lower(sample));
    FailingSpec(tags, VerificationRules, Lower(sample));
    FailureNotesSpec(failing);
    if failing != [] {
      assert failing[0] in failing;
    }
  }

  // ---------------------------------------------------------------------
  // process_chunk

  /** The record for one chunk: rule tags, then in live mode the model's
      answer (its tags united with the rule tags, its summary and its
      confidence as given), in offline mode the rule tags, the first 200
      characters as summary and confidence 0.5; then verification of the
      first 300 characters. Err is the exception Python raises: an answer
      that is not a dict, or model tags that are not all strings. */
  method ProcessChunk(chunk: string, chunkId: int, useLive: bool, available: bool, oracle: Oracle, parse: Parser)
    returns (item: Result<DocItem>)
    ensures var sample := Take(chunk, SampleChars) + "...";
      item.Ok? ==>
        item.value.id == chunkId && item.value.textSample == sample &&
        item.value.verification == Some(VerificationOf(item.value.tags, sample))
    ensures !useLive ==>
      item.Ok? && item.value.processingMethod == "rule_based" &&
      (forall c :: c in item.value.tags <==> c in MatchedSet(RuleKeywords, Lower(chunk))) &&
      NoDuplicates(item.value.tags) &&
      item.value.summary == JString(Take(chunk, SummaryChars) + "...") &&
      item.value.confidence == JFloat(0.5)
    ensures var ai := WithAi(chunk, available, oracle, parse).result;
      useLive ==> (item.Ok? <==> ai.JDict? && AllStrings(AiTags(ai.fields)))
    ensures var ai := WithAi(chunk, available, oracle, parse).result;
      useLive && item.Ok? ==>
        item.value.processingMethod == "ai_enhanced" &&
        item.value.tags == Combined(Matched(RuleKeywords, Lower(chunk)), AiTags(ai.fields)) &&
        item.value.summary == GetOr(ai.fields, "summary", JNull) &&
        item.value.confidence == GetOr(ai.fields, "confidence", JFloat(0.0))
  {
    var ruleTags := RuleBasedTagging(chunk);
    var sample := Take(chunk, SampleChars) + "...";
    var processedItem: DocItem;
    if useLive {
      var aiResult;
      ghost var trace;
      aiResult, trace := ProcessWithAi(chunk, available, oracle, parse);
      if !aiResult.JDict? {
        return Err(NoGet(aiResult));
      }
      var aiTags := AiTags(aiResult.fields);
      if !AllStrings(aiTags) {
        return Err("TypeError");
      }
      CombinedSpec(ruleTags, aiTags);
      MatchedSpec(RuleKeywords, Lower(chunk));
      assert Elems(Matched(RuleKeywords, Lower(chunk))) == Elems(ruleTags);
      var combinedTags := Combined(ruleTags, aiTags);
      processedItem := DocItem(chunkId, "ai_enhanced", GetOr(aiResult.fields, "summary", JNull), combinedTags,
                               GetOr(aiResult.fields, "confidence", JFloat(0.0)), sample, None);
    } else {
      processedItem := DocItem(chunkId, "rule_based", JString(Take(chunk, SummaryChars) + "..."), ruleTags,
                               JFloat(0.5), sample, None);
    }
    var verified := VerifyChunk(processedItem);
    item := Ok(verified);
  }

  /** Verification sees only the first 300 characters of a chunk (plus
      "..."), so a tag whose evidence appears later in the chunk fails. */
  lemma SampleIsPrefix(chunk: string)
    ensures Take(chunk, SampleChars) <= chunk && |Take(chunk, SampleChars)| <= SampleChars
    ensures forall k :: Contains(Take(chunk, SampleChars), k) ==> Contains(chunk, k)
  {
    forall k | Contains(Take(chunk, SampleChars), k) ensures Contains(chunk, k) {
      assert chunk[0..|Take(chunk, SampleChars)|] == Take(chunk, SampleChars);
      ContainsInSlice(chunk, 0, |Take(chunk, SampleChars)|, k);
    }
  }

  // ---------------------------------------------------------------------
  // split_into_chunks

  /** A file section is kept, stripped, when it is not blank and its raw
      length (before stripping) exceeds 100. */
  function KeepSection(section: string): seq<string>
  {
    if Strip(section) != "" && |section| > MinSectionChars then [Strip(section)] else []
  }

  function SplitIntoChunks(text: string): seq<string>
  {
    FlatMap(KeepSection, Split(FileLine, text))
  }

  lemma {:induction false} KeptCount(sections: seq<string>)
    ensures |FlatMap(KeepSection, sections)| <= |sections|
  {
    if |sections| > 0 {
      KeptCount(sections[..|sections| - 1]);
    }
  }

  lemma KeptSections(sections: seq<string>)
    ensures |FlatMap(KeepSection, sections)| <= |sections|
    ensures forall c :: c in FlatMap(KeepSection, sections) <==>
      exists i :: 0 <= i < |sections| && Strip(sections[i]) != "" && |sections[i]| > MinSectionChars && c == Strip(sections[i])
  {
    KeptCount(sections);
    forall c | c in FlatMap(KeepSection, sections)
      ensures exists i :: 0 <= i < |sections| && Strip(sections[i]) != "" && |sections[i]| > MinSectionChars && c == Strip(sections[i])
    {
      FlatMapMember(KeepSection, sections, c);
    }
    forall c, i | 0 <= i < |sections| && Strip(sections[i]) != "" && |sections[i]| > MinSectionChars && c == Strip(sections[i])
      ensures c in FlatMap(KeepSection, sections)
    {
      FlatMapHas(KeepSection, sections, i, c);
    }
  }

  /** The chunks are stripped, non-empty file sections whose raw length is
      above 100, in source order, at most one per section; every such
      section yields its chunk. */
  lemma SplitIntoChunksSpec(text: string)
    ensures var sections := Split(FileLine, text);
      var chunks := SplitIntoChunks(text);
      && |chunks| <= |sections|
      && (forall c :: c in chunks ==> Trimmed(c))
      && (forall c :: c in chunks <==>
            exists i :: 0 <= i < |sections| && !Blank(sections[i]) && |sections[i]| > MinSectionChars && c == Strip(sections[i]))
  {
    var sections := Split(FileLine, text);
    KeptSections(sections);
    forall i | 0 <= i < |sections| ensures Strip(sections[i]) != "" <==> !Blank(sections[i]) {
      StripBlank(sections[i]);
    }
  }

  /** No chunk holds a whole BEGIN or END line, for any file name without
      `=====` and without a newline: the marker lines are cut out before the
      sections are stripped, and a stripped section is a slice of it. */
  lemma ChunksLackMarkerLines(text: string, c: string, prefix: string, name: string)
    requires c in SplitIntoChunks(text)
    requires prefix == BeginPrefix || prefix == EndPrefix
    requires !Contains(name, Closing) && '\n' !in name
    ensures !Contains(c, MarkerLine(prefix, name))
  {
    var sections := Split(FileLine, text);
    KeptSections(sections);
    var i :| 0 <= i < |sections| && Strip(sections[i]) != "" && |sections[i]| > MinSectionChars
      && c == Strip(sections[i]);
    FileLineSplitDropsName(text, sections[i], prefix, name);
    StripIsSlice(sections[i]);
    var a, b :| 0 <= a <= b <= |sections[i]| && Strip(sections[i]) == sections[i][a..b];
    if Contains(c, MarkerLine(prefix, name)) {
      ContainsInSlice(sections[i], a, b, MarkerLine(prefix, name));
    }
  }
}
