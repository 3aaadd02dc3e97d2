/** The line categoriser of `ai_categorize.py`: it normalises the input lines,
    cuts them into chunks of 50, asks a sequence of Gemini models for tags with
    a retry and back-off policy, and merges the answer with offline keyword
    tags so that every line gets exactly one record. The model call, the JSON
    parser and the sleeps are parameters or a ghost trace. */
module AiCategorize {
  import opened Wrappers
  import opened Strings
  import opened Keywords
  import opened Sorting
  import opened Json
  import opened Gemini

  const ChunkSize: nat := 50
  const BackoffSeconds: seq<nat> := [30, 60, 120]
  const ModelPriority: seq<string> := ["gemini-2.5-pro-exp", "gemini-2.0-pro-exp", "gemini-1.5-flash"]

  /** Keyword and tag, searched in the lower-cased text. */
  const OfflineKeywordTags: seq<(string, string)> := [
    ("compliance", "Compliance"),
    ("report", "Report"),
    ("invoice", "Invoice"),
    ("contract", "Contract"),
    ("policy", "Policy")
  ]

  /** A normalised input line: `{"line_number": n, "text": t}`. */
  datatype Line = Line(lineNumber: int, text: string)

  function LineKey(l: Line): int
  {
    l.lineNumber
  }

  // ---------------------------------------------------------------------
  // normalize_input_items

  /** The list the normaliser walks: the input itself when it is a list,
      else its "lines" entry when that is a list, else nothing. */
  function Entries(raw: Json): seq<Json>
  {
    match raw
    case JList(items) => items
    case JDict(fields) => if "lines" in fields && fields["lines"].JList? then fields["lines"].items else []
    case _ => []
  }

  /** The line number given to a dict item at index idx: its own
      `line_number` when that is an int above 0, else idx + 1. */
  function GivenLineNumber(fields: map<string, Json>, idx: nat): int
  {
    var ln := GetOr(fields, "line_number", JNull);
    if IsPyInt(ln) && IntOf(ln) > 0 then IntOf(ln) else idx + 1
  }

  /** The line item number idx becomes, or None when it is skipped. */
  function NormalizeItem(idx: nat, item: Json): Option<Line>
  {
    match item
    case JString(s) => Some(Line(idx + 1, s))
    case JDict(fields) =>
      var text := GetOr(fields, "text", JNull);
      if text.JString? then Some(Line(GivenLineNumber(fields, idx), text.s)) else None
    case _ => None
  }

  /** The kept lines of items, in input order, before sorting. */
  function Collected(items: seq<Json>): seq<Line>
  {
    if |items| == 0 then []
    else
      var n := |items| - 1;
      Collected(items[..n]) + (match NormalizeItem(n, items[n]) case Some(l) => [l] case None => [])
  }

  method NormalizeInputItems(raw: Json) returns (normalized: seq<Line>)
    ensures normalized == StableSort(Collected(Entries(raw)), LineKey)
  {
    var items: seq<Json>;
    if raw.JList? {
      items := raw.items;
    } else if raw.JDict? && "lines" in raw.fields && raw.fields["lines"].JList? {
      items := raw.fields["lines"].items;
    } else {
      return [];
    }
    normalized := [];
    for idx := 0 to |items|
      invariant normalized == Collected(items[..idx])
    {
      assert items[..idx + 1][..idx] == items[..idx];
      var item := items[idx];
      if item.JString? {
        normalized := normalized + [Line(idx + 1, item.s)];
      } else if item.JDict? {
        var text := GetOr(item.fields, "text", JNull);
        if !text.JString? {
          continue;
        }
        var ln := GetOr(item.fields, "line_number", JNull);
        var lineNumber;
        if IsPyInt(ln) && IntOf(ln) > 0 {
          lineNumber := IntOf(ln);
        } else {
          lineNumber := idx + 1;
        }
        normalized := normalized + [Line(lineNumber, text.s)];
      }
    }
    assert items[..|items|] == items;
    normalized := StableSort(normalized, LineKey);
  }

  lemma {:induction false} CollectedSpec(items: seq<Json>)
    ensures |Collected(items)| <= |items|
    ensures forall l :: l in Collected(items) <==> exists i :: 0 <= i < |items| && NormalizeItem(i, items[i]) == Some(l)
    ensures forall l :: l in Collected(items) ==> l.lineNumber >= 1
  {
    if |items| > 0 {
      var n := |items| - 1;
      CollectedSpec(items[..n]);
      forall l ensures l in Collected(items) <==> exists i :: 0 <= i < |items| && NormalizeItem(i, items[i]) == Some(l) {
        if l in Collected(items[..n]) {
          var i :| 0 <= i < n && NormalizeItem(i, items[..n][i]) == Some(l);
          assert items[..n][i] == items[i];
        }
        if exists i :: 0 <= i < |items| && NormalizeItem(i, items[i]) == Some(l) {
          var i :| 0 <= i < |items| && NormalizeItem(i, items[i]) == Some(l);
          if i < n {
            assert items[..n][i] == items[i];
          }
        }
      }
    }
  }

  /** The normalised lines are sorted by line number (stably, so lines that
      share a number keep their input order), all numbered from 1 up, no
      more than the items walked, and exactly the items that survive
      NormalizeItem. */
  lemma NormalizeSpec(raw: Json)
    ensures var out := StableSort(Collected(Entries(raw)), LineKey);
      && SortedBy(out, LineKey)
      && multiset(out) == multiset(Collected(Entries(raw)))
      && (forall k :: WithKey(out, LineKey, k) == WithKey(Collected(Entries(raw)), LineKey, k))
      && |out| <= |Entries(raw)|
      && (forall l :: l in out ==> l.lineNumber >= 1)
      && (forall l :: l in out <==> exists i :: 0 <= i < |Entries(raw)| && NormalizeItem(i, Entries(raw)[i]) == Some(l))
  {
    var c := Collected(Entries(raw));
    StableSortSpec(c, LineKey);
    CollectedSpec(Entries(raw));
    var out := StableSort(c, LineKey);
    assert |out| == |multiset(out)| == |multiset(c)| == |c|;
    forall l ensures l in out <==> l in c {
      assert l in out <==> l in multiset(out);
      assert l in c <==> l in multiset(c);
    }
  }

  /** A list of plain strings becomes lines numbered 1..n in input order. */
  lemma {:induction false} StringsNumbered(texts: seq<string>)
    ensures StableSort(Collected(seq(|texts|, i requires 0 <= i < |texts| => JString(texts[i]))), LineKey)
         == seq(|texts|, i requires 0 <= i < |texts| => Line(i + 1, texts[i]))
  {
    var items := seq(|texts|, i requires 0 <= i < |texts| => JString(texts[i]));
    var lines := seq(|texts|, i requires 0 <= i < |texts| => Line(i + 1, texts[i]));
    CollectedStrings(texts, |texts|);
    assert items[..|texts|] == items;
    assert lines[..|texts|] == lines;
    StableSortSorted(lines, LineKey);
  }

  lemma {:induction false} CollectedStrings(texts: seq<string>, n: nat)
    requires n <= |texts|
    ensures var items := seq(|texts|, i requires 0 <= i < |texts| => JString(texts[i]));
      Collected(items[..n]) == seq(n, i requires 0 <= i < n => Line(i + 1, texts[i]))
  {
    var items := seq(|texts|, i requires 0 <= i < |texts| => JString(texts[i]));
    if n > 0 {
      CollectedStrings(texts, n - 1);
      assert items[..n][..n - 1] == items[..n - 1];
    }
  }

  // ---------------------------------------------------------------------
  // chunkify

  /** `[items[i:i + size] for i in range(0, len(items), size)]`. */
  function Chunkify<T>(items: seq<T>, size: nat): seq<seq<T>>
    requires size > 0
    decreases |items|
  {
    if |items| == 0 then []
    else if |items| <= size then [items]
    else [items[..size]] + Chunkify(items[size..], size)
  }

  /** Concatenating the chunks gives the input back; every chunk but the
      last holds exactly `size` items and the last holds 1 to `size`; an
      empty input gives no chunk. */
  lemma {:induction false} ChunkifySpec<T>(items: seq<T>, size: nat)
    requires size > 0
    ensures Flatten(Chunkify(items, size)) == items
    ensures |items| == 0 <==> Chunkify(items, size) == []
    ensures var chunks := Chunkify(items, size);
      (forall i :: 0 <= i < |chunks| - 1 ==> |chunks[i]| == size) &&
      (|chunks| > 0 ==> 1 <= |chunks[|chunks| - 1]| <= size)
    decreases |items|
  {
    if |items| > size {
      var rest := Chunkify(items[size..], size);
      ChunkifySpec(items[size..], size);
      assert ([items[..size]] + rest)[1..] == rest;
      assert items == items[..size] + items[size..];
    }
  }

  /** Chunk k is the slice `items[k * size : k * size + size]`, as the
      comprehension writes it (the slice start k * size is written `start`). */
  lemma {:induction false} ChunkifySlice<T>(items: seq<T>, size: nat, k: nat, start: nat)
    requires size > 0
    requires k < |Chunkify(items, size)|
    requires start == k * size
    ensures start < |items|
    ensures Chunkify(items, size)[k] == items[start .. if start + size <= |items| then start + size else |items|]
  {
    MulIsSteps(k, size);
    ChunkAt(items, size, k, start);
  }

  lemma {:induction false} MulIsSteps(k: nat, size: nat)
    ensures k * size == Steps(k, size)
  {
    if k > 0 {
      MulIsSteps(k - 1, size);
    }
  }

  /** k * size, counted out one chunk at a time. */
  function Steps(k: nat, size: nat): nat
  {
    if k == 0 then 0 else Steps(k - 1, size) + size
  }

  lemma {:induction false} ChunkAt<T>(items: seq<T>, size: nat, k: nat, start: nat)
    requires size > 0
    requires k < |Chunkify(items, size)|
    requires start == Steps(k, size)
    ensures start < |items|
    ensures Chunkify(items, size)[k] == items[start .. if start + size <= |items| then start + size else |items|]
    decreases |items|
  {
    var chunks := Chunkify(items, size);
    if k == 0 {
      assert chunks[0] == if |items| <= size then items else items[..size];
    } else {
      var rest := items[size..];
      assert chunks == [items[..size]] + Chunkify(rest, size);
      var j := Steps(k - 1, size);
      ChunkAt(rest, size, k - 1, j);
      var e := if j + size <= |rest| then j + size else |rest|;
      assert rest[j..e] == items[size + j .. size + e];
    }
  }

  // ---------------------------------------------------------------------
  // offline_tags

  /** The tags of the pairs whose keyword occurs in `lowered`, in pair order. */
  function OfflineHits(pairs: seq<(string, string)>, lowered: string): seq<string>
  {
    if |pairs| == 0 then []
    else
      var n := |pairs| - 1;
      OfflineHits(pairs[..n], lowered) + (if Contains(lowered, pairs[n].0) then [pairs[n].1] else [])
  }

  /** The first occurrence of each element, in order. */
  function Dedup(xs: seq<string>): seq<string>
  {
    if |xs| == 0 then []
    else
      var n := |xs| - 1;
      var d := Dedup(xs[..n]);
      if xs[n] in d then d else d + [xs[n]]
  }

  /** De-duplication keeps every element once and drops nothing else. */
  lemma {:induction false} DedupSpec(xs: seq<string>)
    ensures NoDuplicates(Dedup(xs))
    ensures forall x :: x in Dedup(xs) <==> x in xs
  {
    if |xs| > 0 {
      var n := |xs| - 1;
      DedupSpec(xs[..n]);
      assert xs == xs[..n] + [xs[n]];
    }
  }

  lemma {:induction false} DedupDistinct(xs: seq<string>)
    requires NoDuplicates(xs)
    ensures Dedup(xs) == xs
  {
    if |xs| > 0 {
      var n := |xs| - 1;
      DedupDistinct(xs[..n]);
      assert xs[n] !in xs[..n];
      assert xs == xs[..n] + [xs[n]];
    }
  }

  /** What `offline_tags(text)` returns. */
  function OfflineTagsOf(text: string): seq<string>
  {
    Dedup(WithSentinel(OfflineHits(OfflineKeywordTags, Lower(text))))
  }

  method OfflineTags(text: string) returns (deduped: seq<string>)
    ensures deduped == OfflineTagsOf(text)
  {
    var lower := Lower(text);
    var tags: seq<string> := [];
    for i := 0 to |OfflineKeywordTags|
      invariant tags == OfflineHits(OfflineKeywordTags[..i], lower)
    {
      assert OfflineKeywordTags[..i + 1][..i] == OfflineKeywordTags[..i];
      var (keyword, tag) := OfflineKeywordTags[i];
      if Contains(lower, keyword) {
        tags := tags + [tag];
      }
    }
    assert OfflineKeywordTags[..|OfflineKeywordTags|] == OfflineKeywordTags;
    if tags == [] {
      tags := ["General"];
    }
    var seen: set<string> := {};
    deduped := [];
    for i := 0 to |tags|
      invariant deduped == Dedup(tags[..i])
      invariant forall x :: x in seen <==> x in deduped
    {
      assert tags[..i + 1][..i] == tags[..i];
      var t := tags[i];
      if t !in seen {
        seen := seen + {t};
        deduped := deduped + [t];
      }
    }
    assert tags[..|tags|] == tags;
  }

  lemma {:induction false} OfflineHitsSpec(pairs: seq<(string, string)>, lowered: string)
    ensures forall t :: t in OfflineHits(pairs, lowered) <==>
      exists i :: 0 <= i < |pairs| && pairs[i].1 == t && Contains(lowered, pairs[i].0)
    ensures IsSubsequence(OfflineHits(pairs, lowered), TagColumn(pairs))
    ensures NoDuplicates(TagColumn(pairs)) ==> NoDuplicates(OfflineHits(pairs, lowered))
  {
    var table := seq(|pairs|, i requires 0 <= i < |pairs| => (pairs[i].1, [pairs[i].0]));
    OfflineHitsAsMatched(pairs, lowered);
    MatchedSpec(table, lowered);
    assert Keys(table) == TagColumn(pairs);
    forall i | 0 <= i < |pairs| ensures AnyIn(table[i].1, lowered) <==> Contains(lowered, pairs[i].0) {
      assert table[i].1[0] == pairs[i].0;
    }
  }

  /** The offline scan is the category matcher on a table that gives each
      tag its single keyword. */
  lemma {:induction false} OfflineHitsAsMatched(pairs: seq<(string, string)>, lowered: string)
    ensures OfflineHits(pairs, lowered) == Matched(seq(|pairs|, i requires 0 <= i < |pairs| => (pairs[i].1, [pairs[i].0])), lowered)
  {
    var table := seq(|pairs|, i requires 0 <= i < |pairs| => (pairs[i].1, [pairs[i].0]));
    if |pairs| > 0 {
      var n := |pairs| - 1;
      OfflineHitsAsMatched(pairs[..n], lowered);
      assert table[..n] == seq(n, i requires 0 <= i < n => (pairs[..n][i].1, [pairs[..n][i].0]));
      assert AnyIn(table[n].1, lowered) <==> Contains(lowered, pairs[n].0) by {
        assert table[n].1[0] == pairs[n].0;
      }
    }
  }

  function TagColumn(pairs: seq<(string, string)>): (r: seq<string>)
    ensures |r| == |pairs|
    ensures forall i :: 0 <= i < |pairs| ==> r[i] == pairs[i].1
  {
    seq(|pairs|, i requires 0 <= i < |pairs| => pairs[i].1)
  }

  lemma {:induction false} OfflineHitsEmpty(pairs: seq<(string, string)>, lowered: string)
    ensures OfflineHits(pairs, lowered) == [] <==> forall i :: 0 <= i < |pairs| ==> !Contains(lowered, pairs[i].0)
  {
    if |pairs| > 0 {
      var n := |pairs| - 1;
      OfflineHitsEmpty(pairs[..n], lowered);
      if forall i :: 0 <= i < n ==> !Contains(lowered, pairs[..n][i].0) {
        forall i | 0 <= i < n ensures !Contains(lowered, pairs[i].0) {
          assert pairs[..n][i] == pairs[i];
        }
      }
    }
  }

  /** What the tagger returns before de-duplication. */
  function WithSentinel(hits: seq<string>): seq<string>
  {
    if hits == [] then ["General"] else hits
  }

  lemma OfflineChoice(pairs: seq<(string, string)>, lowered: string)
    requires NoDuplicates(TagColumn(pairs)) && "General" !in TagColumn(pairs)
    ensures Dedup(WithSentinel(OfflineHits(pairs, lowered))) == WithSentinel(OfflineHits(pairs, lowered))
    ensures WithSentinel(OfflineHits(pairs, lowered)) != []
    ensures WithSentinel(OfflineHits(pairs, lowered)) == ["General"] <==>
      forall i :: 0 <= i < |pairs| ==> !Contains(lowered, pairs[i].0)
    ensures NoDuplicates(WithSentinel(OfflineHits(pairs, lowered)))
  {
    var hits := OfflineHits(pairs, lowered);
    OfflineHitsSpec(pairs, lowered);
    OfflineHitsEmpty(pairs, lowered);
    assert TagColumn(pairs) == seq(|pairs|, i requires 0 <= i < |pairs| => pairs[i].1);
    if hits != [] {
      DedupDistinct(hits);
      assert hits[0] in hits;
      var i :| 0 <= i < |pairs| && pairs[i].1 == hits[0] && Contains(lowered, pairs[i].0);
      assert TagColumn(pairs)[i] == hits[0];
      assert WithSentinel(hits) == hits != ["General"];
    } else {
      assert Dedup(["General"]) == ["General"] by {
        assert ["General"][..0] == [];
      }
    }
  }

  /** The offline tagger never returns an empty list; it returns ["General"]
      exactly when no keyword occurs in the lower-cased text, and otherwise
      the matched tags in table order, each once (the de-duplication pass
      changes nothing, since the table's tags are distinct). */
  lemma OfflineTagsSpec(text: string)
    ensures OfflineTagsOf(text) != []
    ensures OfflineTagsOf(text) == ["General"] <==>
      forall i :: 0 <= i < |OfflineKeywordTags| ==> !Contains(Lower(text), OfflineKeywordTags[i].0)
    ensures OfflineTagsOf(text) != ["General"] ==>
      OfflineTagsOf(text) == OfflineHits(OfflineKeywordTags, Lower(text)) &&
      IsSubsequence(OfflineTagsOf(text), ["Compliance", "Report", "Invoice", "Contract", "Policy"])
    ensures forall t :: t in OfflineTagsOf(text) && t != "General" <==>
      exists i :: 0 <= i < |OfflineKeywordTags| && OfflineKeywordTags[i].1 == t && Contains(Lower(text), OfflineKeywordTags[i].0)
    ensures NoDuplicates(OfflineTagsOf(text))
  {
    var low := Lower(text);
    var pairs := OfflineKeywordTags;
    var hits := OfflineHits(pairs, low);
    assert TagColumn(pairs) == ["Compliance", "Report", "Invoice", "Contract", "Policy"];
    OfflineChoice(pairs, low);
    OfflineHitsSpec(pairs, low);
    assert OfflineTagsOf(text) == WithSentinel(hits);
    forall t | t in hits ensures t != "General" {
      var i :| 0 <= i < |pairs| && pairs[i].1 == t && Contains(low, pairs[i].0);
      assert TagColumn(pairs)[i] == t;
    }
  }

  // ---------------------------------------------------------------------
  // GeminiClient._parse_response

  /** A parser for a text that starts with `[`: `json.loads` either fails,
      with its message, or gives a list. */
  type ArrayParser = string -> Result<seq<Json>>

  /** The text `_parse_response` hands to `json.loads`, if any: the whole
      stripped reply when it starts with `[`, else the stretch from its first
      `[` to its last `]` when that `]` comes later. */
  function Candidate(text: string): Option<string>
  {
    var candidate := Strip(text);
    if "[" <= candidate then Some(candidate)
    else
      var start := Find(candidate, '[');
      var end := RFind(candidate, ']');
      if start != -1 && end != -1 && end > start then Some(candidate[start..end + 1]) else None
  }

  function ParseResponse(text: string, parse: ArrayParser): Result<seq<Json>>
  {
    match Candidate(text)
    case None => Err("Model did not return a JSON array")
    case Some(c) =>
      match parse(c)
      case Ok(v) => Ok(v)
      case Err(m) => Err("Failed to parse model JSON: " + m)
  }

  /** A reply starting with `[` (after stripping) is parsed whole. Otherwise
      a slice is parsed exactly when some `[` precedes some `]`, and the slice
      is the widest one: from the first `[` to the last `]`. */
  lemma CandidateSpec(text: string)
    ensures var c := Strip(text);
      && ("[" <= c ==> Candidate(text) == Some(c))
      && (!("[" <= c) ==>
            (Candidate(text).Some? <==> exists i, j :: 0 <= i < j < |c| && c[i] == '[' && c[j] == ']'))
      && (!("[" <= c) && Candidate(text).Some? ==>
            exists a, b :: 0 <= a < b < |c| && Candidate(text).value == c[a..b + 1] &&
              c[a] == '[' && c[b] == ']' && '[' !in c[..a] && ']' !in c[b + 1..])
    ensures Candidate(text).Some? ==> Candidate(text).value[0] == '['
  {
    var c := Strip(text);
    if !("[" <= c) {
      BracketSlice(c);
    }
  }

  lemma BracketSlice(c: string)
    ensures var start := Find(c, '[');
      var end := RFind(c, ']');
      && ((start != -1 && end != -1 && end > start) <==> exists i, j :: 0 <= i < j < |c| && c[i] == '[' && c[j] == ']')
  {
    var start := Find(c, '[');
    var end := RFind(c, ']');
    if start != -1 && end != -1 && end > start {
      assert c[start] == '[' && c[end] == ']';
    }
    forall i, j | 0 <= i < j < |c| && c[i] == '[' && c[j] == ']'
      ensures start != -1 && end != -1 && end > start
    {
      FindFirst(c, '[', i);
      RFindLast(c, ']', j);
    }
  }

  // ---------------------------------------------------------------------
  // GeminiClient.categorize_chunk

  /** The model call for a chunk of lines, a model name and an attempt number. */
  type Oracle = (seq<Line>, string, nat) -> Reply

  type ModelIndex = m: nat | m < |ModelPriority|
  type AttemptIndex = k: nat | k <= |BackoffSeconds|

  /** Attempt number k (0-based) with model number `model` of ModelPriority. */
  datatype Attempt = Attempt(model: ModelIndex, k: AttemptIndex)

  /** What the client does that can be observed: sleeping, calling a model. */
  datatype Event = Sleep(seconds: nat) | Call(modelName: string, attempt: nat)

  /** The answer, the attempts made in order, and what was observed. */
  datatype Run = Run(result: Option<seq<Json>>, attempts: seq<Attempt>, trace: seq<Event>)

  /** The body of the `try`: an exception, an empty response, or the parse. */
  function AttemptResult(reply: Reply, parse: ArrayParser): Result<seq<Json>>
  {
    match reply
    case Raised(m) => Err(m)
    case Answered(t) => if t == "" then Err("Empty response from model") else ParseResponse(t, parse)
  }

  /** An error whose lower-cased message mentions 404, quota or not found
      makes the client give up on the current model. */
  predicate GivesUp(message: string)
  {
    var m := Lower(message);
    Contains(m, "404") || Contains(m, "quota") || Contains(m, "not found")
  }

  /** How the client reads one attempt: an answer, an error worth a retry of
      the same model, or an error that makes it move on to the next model. */
  datatype Verdict = Answer(items: seq<Json>) | Retry(error: string) | GiveUp(error: string)

  function Classify(r: Result<seq<Json>>): Verdict
  {
    match r
    case Ok(items) => Answer(items)
    case Err(m) => if GivesUp(m) then GiveUp(m) else Retry(m)
  }

  /** What each attempt gives, by model name and attempt number. */
  type Verdicts = (string, nat) -> Verdict

  function VerdictsOf(lines: seq<Line>, oracle: Oracle, parse: ArrayParser): Verdicts
  {
    (name: string, k: nat) => Classify(AttemptResult(oracle(lines, name, k), parse))
  }

  function VerdictOf(verdicts: Verdicts, a: Attempt): Verdict
  {
    verdicts(ModelPriority[a.model], a.k)
  }

  /** The attempt that follows a failed one: the next model's first attempt
      after a give-up error or after the last back-off (None when no model
      is left); else the same model once more. */
  function Next(a: Attempt, giveUp: bool): (n: Option<Attempt>)
    ensures n.Some? ==> (n.value.model == a.model + 1 && n.value.k == 0) || (n.value.model == a.model && n.value.k == a.k + 1)
    ensures n.Some? && n.value.model == a.model <==> !giveUp && a.k < |BackoffSeconds|
    ensures n.None? <==> a.model == |ModelPriority| - 1 && (giveUp || a.k == |BackoffSeconds|)
  {
    if giveUp || a.k == |BackoffSeconds| then
      if a.model + 1 < |ModelPriority| then Some(Attempt(a.model + 1, 0)) else None
    else Some(Attempt(a.model, a.k + 1))
  }

  /** The events of one attempt: the back-off sleep before every attempt but
      the first of a model, then the call. */
  function Block(a: Attempt): seq<Event>
  {
    (if a.k > 0 then [Sleep(BackoffSeconds[a.k - 1])] else []) + [Call(ModelPriority[a.model], a.k)]
  }

  /** The attempts from attempt a on. */
  function RunFrom(verdicts: Verdicts, a: Attempt): Run
    decreases |ModelPriority| - a.model, |BackoffSeconds| - a.k
  {
    var v := VerdictOf(verdicts, a);
    if v.Answer? then Run(Some(v.items), [a], Block(a))
    else
      match Next(a, v.GiveUp?)
      case None => Run(None, [a], Block(a))
      case Some(n) =>
        var rest := RunFrom(verdicts, n);
        Run(rest.result, [a] + rest.attempts, Block(a) + rest.trace)
  }

  /** What `categorize_chunk` returns, the attempts it makes and the events
      it produces. */
  function Categorize(lines: seq<Line>, live: bool, oracle: Oracle, parse: ArrayParser): Run
  {
    if !live then Run(None, [], []) else RunFrom(VerdictsOf(lines, oracle, parse), Attempt(0, 0))
  }

  /** The events of a list of attempts. */
  function TraceOf(attempts: seq<Attempt>): seq<Event>
  {
    if |attempts| == 0 then [] else Block(attempts[0]) + TraceOf(attempts[1..])
  }

  /** The attempts still ahead when model number `model` is next, from its
      attempt k (k == 4: the model's attempts are used up). */
  function Ahead(verdicts: Verdicts, model: nat, k: nat): Run
  {
    var next := if k > |BackoffSeconds| then model + 1 else model;
    if next >= |ModelPriority| then Run(None, [], [])
    else RunFrom(verdicts, Attempt(next, if k > |BackoffSeconds| then 0 else k))
  }

  /** One attempt, seen from the loop: an answer ends the run; a give-up
      error moves on to the next model; any other error moves on to the next
      attempt of the same model. */
  lemma AttemptStep(verdicts: Verdicts, a: Attempt)
    ensures var v := VerdictOf(verdicts, a);
      var now := Ahead(verdicts, a.model, a.k);
      && (v.Answer? ==> now.result == Some(v.items) && now.trace == Block(a))
      && (v.GiveUp? ==>
            var rest := Ahead(verdicts, a.model + 1, 0);
            now.result == rest.result && now.trace == Block(a) + rest.trace)
      && (v.Retry? ==>
            var rest := Ahead(verdicts, a.model, a.k + 1);
            now.result == rest.result && now.trace == Block(a) + rest.trace)
  {
    var v := VerdictOf(verdicts, a);
    assert Ahead(verdicts, a.model, a.k) == RunFrom(verdicts, a);
    if !v.Answer? && Next(a, v.GiveUp?).None? {
      assert Block(a) + [] == Block(a);
    }
  }

  /** A model whose attempts are used up hands over to the next one. */
  lemma AheadExhausted(verdicts: Verdicts, model: ModelIndex)
    ensures Ahead(verdicts, model, |BackoffSeconds| + 1) == Ahead(verdicts, model + 1, 0)
  {
  }

  lemma Regroup<T>(a: seq<T>, b: seq<T>, c: seq<T>)
    ensures a + (b + c) == (a + b) + c
  {
  }

  /** AttemptStep, with the events observed before attempt a in front. */
  lemma AttemptStepAfter(verdicts: Verdicts, a: Attempt, before: seq<Event>)
    ensures var v := VerdictOf(verdicts, a);
      var now := Ahead(verdicts, a.model, a.k);
      var after := before + Block(a);
      && (v.Answer? ==> now.result == Some(v.items) && before + now.trace == after)
      && (v.GiveUp? ==>
            var rest := Ahead(verdicts, a.model + 1, 0);
            now.result == rest.result && before + now.trace == after + rest.trace)
      && (v.Retry? ==>
            var rest := Ahead(verdicts, a.model, a.k + 1);
            now.result == rest.result && before + now.trace == after + rest.trace)
  {
    var v := VerdictOf(verdicts, a);
    AttemptStep(verdicts, a);
    if v.GiveUp? {
      Regroup(before, Block(a), Ahead(verdicts, a.model + 1, 0).trace);
    } else if v.Retry? {
      Regroup(before, Block(a), Ahead(verdicts, a.model, a.k + 1).trace);
    }
  }

  /** An answer ends the run with the block of its attempt. */
  lemma AnswerEnds(verdicts: Verdicts, a: Attempt, before: seq<Event>, here: Run)
    requires VerdictOf(verdicts, a).Answer?
    requires here.result == Ahead(verdicts, a.model, a.k).result
    requires here.trace == before + Ahead(verdicts, a.model, a.k).trace
    ensures here.result == Some(VerdictOf(verdicts, a).items)
    ensures here.trace == before + Block(a)
  {
    AttemptStepAfter(verdicts, a, before);
  }

  /** A give-up error hands the run to the next model. */
  lemma GiveUpMovesOn(verdicts: Verdicts, a: Attempt, before: seq<Event>, here: Run)
    requires VerdictOf(verdicts, a).GiveUp?
    requires here.result == Ahead(verdicts, a.model, a.k).result
    requires here.trace == before + Ahead(verdicts, a.model, a.k).trace
    ensures here.result == Ahead(verdicts, a.model + 1, 0).result
    ensures here.trace == before + Block(a) + Ahead(verdicts, a.model + 1, 0).trace
  {
    AttemptStepAfter(verdicts, a, before);
  }

  /** Any other error hands the run to the next attempt of the same model. */
  lemma RetryMovesOn(verdicts: Verdicts, a: Attempt, before: seq<Event>, here: Run)
    requires VerdictOf(verdicts, a).Retry?
    requires here.result == Ahead(verdicts, a.model, a.k).result
    requires here.trace == before + Ahead(verdicts, a.model, a.k).trace
    ensures here.result == Ahead(verdicts, a.model, a.k + 1).result
    ensures here.trace == before + Block(a) + Ahead(verdicts, a.model, a.k + 1).trace
  {
    AttemptStepAfter(verdicts, a, before);
  }

  /** One attempt: the back-off sleep before any attempt but the first,
      the model call, and the parse of its reply. */
  method MakeAttempt(lines: seq<Line>, oracle: Oracle, parse: ArrayParser, a: Attempt)
    returns (outcome: Result<seq<Json>>, ghost block: seq<Event>)
    ensures Classify(outcome) == VerdictOf(VerdictsOf(lines, oracle, parse), a)
    ensures outcome.Ok? ==> VerdictOf(VerdictsOf(lines, oracle, parse), a) == Answer(outcome.value)
    ensures block == Block(a)
  {
    var modelName := ModelPriority[a.model];
    block := [];
    if a.k > 0 {
      var delay := BackoffSeconds[a.k - 1];
      block := block + [Sleep(delay)];
    }
    block := block + [Call(modelName, a.k)];
    outcome := AttemptResult(oracle(lines, modelName, a.k), parse);
  }

  /** Every call in the trace goes to the named model. */
  predicate CallsOnly(trace: seq<Event>, name: string)
  {
    forall e :: e in trace && e.Call? ==> e.modelName == name
  }

  /** An attempt's block calls the attempt's model and nothing else. */
  lemma BlockCallsOnly(before: seq<Event>, a: Attempt)
    requires CallsOnly(before, ModelPriority[a.model])
    ensures |before + Block(a)| > 0
    ensures CallsOnly(before + Block(a), ModelPriority[a.model])
  {
    assert Block(a)[|Block(a)| - 1] == Call(ModelPriority[a.model], a.k);
  }

  /** The attempts on one model (the inner loop of `categorize_chunk`): the
      answer when one of them succeeds, None when the model is given up. */
  method TryModel(lines: seq<Line>, oracle: Oracle, parse: ArrayParser, model: ModelIndex)
    returns (r: Option<seq<Json>>, ghost trace: seq<Event>)
    ensures var verdicts := VerdictsOf(lines, oracle, parse);
      var here := Ahead(verdicts, model, 0);
      var later := Ahead(verdicts, model + 1, 0);
      && (r.Some? ==> here.result == r && here.trace == trace)
      && (r.None? ==> here.result == later.result && here.trace == trace + later.trace)
    ensures |trace| > 0
    ensures CallsOnly(trace, ModelPriority[model])
  {
    ghost var verdicts := VerdictsOf(lines, oracle, parse);
    ghost var here := Ahead(verdicts, model, 0);
    trace := [];
    var attemptIdx := 0;
    while attemptIdx < |BackoffSeconds| + 1
      invariant attemptIdx <= |BackoffSeconds| + 1
      invariant here.result == Ahead(verdicts, model, attemptIdx).result
      invariant here.trace == trace + Ahead(verdicts, model, attemptIdx).trace
      invariant attemptIdx > 0 ==> |trace| > 0
      invariant CallsOnly(trace, ModelPriority[model])
    {
      var a := Attempt(model, attemptIdx);
      BlockCallsOnly(trace, a);
      var outcome, block := MakeAttempt(lines, oracle, parse, a);
      if outcome.Ok? {
        AnswerEnds(verdicts, a, trace, here);
        trace := trace + block;
        return Some(outcome.value), trace;
      }
      if GivesUp(outcome.msg) {
        GiveUpMovesOn(verdicts, a, trace, here);
        trace := trace + block;
        return None, trace;
      }
      RetryMovesOn(verdicts, a, trace, here);
      trace := trace + block;
      attemptIdx := attemptIdx + 1;
    }
    AheadExhausted(verdicts, model);
    r := None;
  }

  /** `categorize_chunk`: the models in priority order until one answers. */
  method CategorizeChunk(lines: seq<Line>, live: bool, oracle: Oracle, parse: ArrayParser)
    returns (r: Option<seq<Json>>, ghost trace: seq<Event>)
    ensures r == Categorize(lines, live, oracle, parse).result
    ensures trace == Categorize(lines, live, oracle, parse).trace
  {
    trace := [];
    if !live {
      return None, trace;
    }
    ghost var verdicts := VerdictsOf(lines, oracle, parse);
    ghost var goal := Categorize(lines, live, oracle, parse);
    var model := 0;
    while model < |ModelPriority|
      invariant model <= |ModelPriority|
      invariant goal.result == Ahead(verdicts, model, 0).result
      invariant goal.trace == trace + Ahead(verdicts, model, 0).trace
    {
      var found, tried := TryModel(lines, oracle, parse, model);
      if found.Some? {
        trace := trace + tried;
        return found, trace;
      }
      Regroup(trace, tried, Ahead(verdicts, model + 1, 0).trace);
      trace := trace + tried;
      model := model + 1;
    }
    assert goal.trace == trace + [];
    r := None;
  }

  /** Consecutive attempts follow the retry policy: each but the last failed,
      and the next one is the one the policy picks for its error. */
  predicate FollowsPolicy(verdicts: Verdicts, attempts: seq<Attempt>)
  {
    forall i :: 0 <= i < |attempts| - 1 ==>
      !VerdictOf(verdicts, attempts[i]).Answer? &&
      Next(attempts[i], VerdictOf(verdicts, attempts[i]).GiveUp?) == Some(attempts[i + 1])
  }

  /** A run from attempt a starts with a, follows the policy, and ends with
      the first answer (which is the result) or with a failure after which
      the policy has no attempt left (the result is None); what is observed
      is the sleeps and calls of its attempts. */
  lemma {:induction false} RunShape(verdicts: Verdicts, a: Attempt)
    ensures var run := RunFrom(verdicts, a);
      && |run.attempts| >= 1 && run.attempts[0] == a
      && FollowsPolicy(verdicts, run.attempts)
      && run.trace == TraceOf(run.attempts)
      && (var last := VerdictOf(verdicts, run.attempts[|run.attempts| - 1]);
          last.Answer? ==> run.result == Some(last.items))
      && (var final := run.attempts[|run.attempts| - 1];
          !VerdictOf(verdicts, final).Answer? ==>
            run.result == None && Next(final, VerdictOf(verdicts, final).GiveUp?) == None)
    decreases |ModelPriority| - a.model, |BackoffSeconds| - a.k
  {
    var run := RunFrom(verdicts, a);
    var v := VerdictOf(verdicts, a);
    if v.Answer? || Next(a, v.GiveUp?).None? {
      assert run.attempts == [a];
      assert TraceOf([a]) == Block(a) + TraceOf([]);
    } else {
      var n := Next(a, v.GiveUp?).value;
      RunShape(verdicts, n);
      var rest := RunFrom(verdicts, n);
      assert run == Run(rest.result, [a] + rest.attempts, Block(a) + rest.trace);
      assert run.attempts[1..] == rest.attempts;
      forall i | 0 <= i < |run.attempts| - 1
        ensures !VerdictOf(verdicts, run.attempts[i]).Answer?
        ensures Next(run.attempts[i], VerdictOf(verdicts, run.attempts[i]).GiveUp?) == Some(run.attempts[i + 1])
      {
        assert run.attempts[i + 1] == rest.attempts[i];
        if i > 0 {
          assert run.attempts[i] == rest.attempts[i - 1];
        }
      }
      assert run.attempts[|run.attempts| - 1] == rest.attempts[|rest.attempts| - 1];
    }
  }

  /** Seconds slept in a trace. */
  function Slept(trace: seq<Event>): nat
  {
    if |trace| == 0 then 0 else (if trace[0].Sleep? then trace[0].seconds else 0) + Slept(trace[1..])
  }

  /** Model calls in a trace. */
  function Calls(trace: seq<Event>): nat
  {
    if |trace| == 0 then 0 else (if trace[0].Call? then 1 else 0) + Calls(trace[1..])
  }

  lemma {:induction false} CountAppend(x: seq<Event>, y: seq<Event>)
    ensures Slept(x + y) == Slept(x) + Slept(y)
    ensures Calls(x + y) == Calls(x) + Calls(y)
  {
    if |x| == 0 {
      assert x + y == y;
    } else {
      CountAppend(x[1..], y);
      assert (x + y)[1..] == x[1..] + y;
    }
  }

  /** The sleeps and calls still possible from model number `model`, attempt
      k on: what happens when every attempt fails without a give-up error. */
  function MaxSleep(model: nat, k: nat): nat
    decreases |ModelPriority| - model, |BackoffSeconds| + 1 - k
  {
    if model >= |ModelPriority| then 0
    else if k > |BackoffSeconds| then MaxSleep(model + 1, 0)
    else (if k > 0 then BackoffSeconds[k - 1] else 0) + MaxSleep(model, k + 1)
  }

  function MaxCalls(model: nat, k: nat): nat
    decreases |ModelPriority| - model, |BackoffSeconds| + 1 - k
  {
    if model >= |ModelPriority| then 0
    else if k > |BackoffSeconds| then MaxCalls(model + 1, 0)
    else 1 + MaxCalls(model, k + 1)
  }

  /** One unfolding of the two maxima at an attempt. */
  lemma MaxStep(a: Attempt)
    ensures MaxCalls(a.model, a.k) == 1 + MaxCalls(a.model, a.k + 1)
    ensures MaxSleep(a.model, a.k) == (if a.k > 0 then BackoffSeconds[a.k - 1] else 0) + MaxSleep(a.model, a.k + 1)
    ensures a.k == |BackoffSeconds| ==> MaxCalls(a.model, a.k + 1) == MaxCalls(a.model + 1, 0)
    ensures a.k == |BackoffSeconds| ==> MaxSleep(a.model, a.k + 1) == MaxSleep(a.model + 1, 0)
  {
  }

  /** Moving on to the next model never leaves more to do than staying. */
  lemma {:induction false} MaxMonotone(model: ModelIndex, k: nat)
    requires k <= |BackoffSeconds| + 1
    ensures MaxSleep(model + 1, 0) <= MaxSleep(model, k)
    ensures MaxCalls(model + 1, 0) <= MaxCalls(model, k)
    decreases |BackoffSeconds| + 1 - k
  {
    if k <= |BackoffSeconds| {
      MaxMonotone(model, k + 1);
    }
  }

  lemma BlockCounts(a: Attempt)
    ensures Calls(Block(a)) == 1
    ensures Slept(Block(a)) == if a.k > 0 then BackoffSeconds[a.k - 1] else 0
  {
    var call := [Call(ModelPriority[a.model], a.k)];
    assert call[1..] == [];
    assert Calls(call) == 1 && Slept(call) == 0;
    if a.k > 0 {
      assert Block(a)[1..] == call;
    }
  }

  /** Each attempt makes one call. */
  lemma {:induction false} TraceCalls(attempts: seq<Attempt>)
    ensures Calls(TraceOf(attempts)) == |attempts|
  {
    if |attempts| > 0 {
      TraceCalls(attempts[1..]);
      BlockCounts(attempts[0]);
      CountAppend(Block(attempts[0]), TraceOf(attempts[1..]));
    }
  }

  /** A run from attempt a never makes more attempts than the run in which
      every error is worth a retry. */
  lemma {:induction false} RunLength(verdicts: Verdicts, a: Attempt)
    ensures |RunFrom(verdicts, a).attempts| <= MaxCalls(a.model, a.k)
    decreases |ModelPriority| - a.model, |BackoffSeconds| - a.k
  {
    MaxStep(a);
    var v := VerdictOf(verdicts, a);
    if !v.Answer? && Next(a, v.GiveUp?).Some? {
      var n := Next(a, v.GiveUp?).value;
      var rest := RunFrom(verdicts, n);
      assert RunFrom(verdicts, a).attempts == [a] + rest.attempts;
      RunLength(verdicts, n);
      if n.model == a.model {
        assert n.k == a.k + 1;
      } else {
        assert n.model == a.model + 1 && n.k == 0;
        MaxMonotone(a.model, a.k + 1);
      }
    } else {
      assert RunFrom(verdicts, a).attempts == [a];
    }
  }

  /** A run from attempt a never sleeps longer than the run in which every
      error is worth a retry. */
  lemma {:induction false} RunSleep(verdicts: Verdicts, a: Attempt)
    ensures Slept(RunFrom(verdicts, a).trace) <= MaxSleep(a.model, a.k)
    decreases |ModelPriority| - a.model, |BackoffSeconds| - a.k
  {
    BlockCounts(a);
    MaxStep(a);
    var v := VerdictOf(verdicts, a);
    if !v.Answer? && Next(a, v.GiveUp?).Some? {
      var n := Next(a, v.GiveUp?).value;
      var rest := RunFrom(verdicts, n);
      assert RunFrom(verdicts, a).trace == Block(a) + rest.trace;
      RunSleep(verdicts, n);
      CountAppend(Block(a), rest.trace);
      if n.model == a.model {
        assert n.k == a.k + 1;
      } else {
        assert n.model == a.model + 1 && n.k == 0;
        MaxMonotone(a.model, a.k + 1);
      }
    } else {
      assert RunFrom(verdicts, a).trace == Block(a);
    }
  }

  /** When every attempt fails with an error worth a retry, the client makes
      every attempt and sleeps every back-off, and returns None. */
  lemma {:induction false} RunAllRetry(verdicts: Verdicts, a: Attempt)
    requires forall b: Attempt :: VerdictOf(verdicts, b).Retry?
    ensures var run := RunFrom(verdicts, a);
      && run.result == None
      && Calls(run.trace) == MaxCalls(a.model, a.k)
      && Slept(run.trace) == MaxSleep(a.model, a.k)
    decreases |ModelPriority| - a.model, |BackoffSeconds| - a.k
  {
    BlockCounts(a);
    MaxStep(a);
    assert VerdictOf(verdicts, a).Retry?;
    match Next(a, false)
    case None =>
      assert a.model + 1 == |ModelPriority| && a.k == |BackoffSeconds|;
      assert MaxSleep(a.model + 1, 0) == 0 && MaxCalls(a.model + 1, 0) == 0;
    case Some(n) =>
      var rest := RunFrom(verdicts, n);
      assert RunFrom(verdicts, a) == Run(rest.result, [a] + rest.attempts, Block(a) + rest.trace);
      RunAllRetry(verdicts, n);
      CountAppend(Block(a), rest.trace);
      assert MaxCalls(n.model, n.k) == MaxCalls(a.model, a.k + 1)
          && MaxSleep(n.model, n.k) == MaxSleep(a.model, a.k + 1) by {
        if n.model != a.model {
          assert a.k == |BackoffSeconds|;
        }
      }
  }

  /** The whole policy allows 12 calls and 630 seconds of sleep per chunk. */
  lemma Budget()
    ensures MaxCalls(0, 0) == |ModelPriority| * (|BackoffSeconds| + 1) == 12
    ensures MaxSleep(0, 0) == |ModelPriority| * (30 + 60 + 120) == 630
  {
  }

  /** `categorize_chunk` returns None at once when offline; live, it starts
      with the first model's first attempt, follows the retry policy, returns
      the first answer (or None when the policy runs out of attempts), makes
      one call per attempt and at most 12 calls, and sleeps at most 630
      seconds. */
  lemma CategorizeSpec(lines: seq<Line>, live: bool, oracle: Oracle, parse: ArrayParser)
    ensures var run := Categorize(lines, live, oracle, parse);
      var verdicts := VerdictsOf(lines, oracle, parse);
      && (!live ==> run.result == None && run.trace == [])
      && (live ==>
            && |run.attempts| >= 1 && run.attempts[0] == Attempt(0, 0)
            && FollowsPolicy(verdicts, run.attempts)
            && (var last := run.attempts[|run.attempts| - 1];
                match VerdictOf(verdicts, last)
                case Answer(items) => run.result == Some(items)
                case _ => run.result == None && Next(last, VerdictOf(verdicts, last).GiveUp?) == None))
      && Calls(run.trace) == |run.attempts| <= 12
      && Slept(run.trace) <= 630
  {
    if live {
      var verdicts := VerdictsOf(lines, oracle, parse);
      RunShape(verdicts, Attempt(0, 0));
      RunLength(verdicts, Attempt(0, 0));
      RunSleep(verdicts, Attempt(0, 0));
      TraceCalls(RunFrom(verdicts, Attempt(0, 0)).attempts);
      Budget();
    }
  }

  /** When every attempt fails with an error worth a retry, the client makes
      all 12 calls and sleeps the full 630 seconds before it returns None. */
  lemma AllRetry(lines: seq<Line>, oracle: Oracle, parse: ArrayParser)
    requires forall b: Attempt :: VerdictOf(VerdictsOf(lines, oracle, parse), b).Retry?
    ensures var run := Categorize(lines, true, oracle, parse);
      run.result == None && Calls(run.trace) == 12 && Slept(run.trace) == 630
  {
    RunAllRetry(VerdictsOf(lines, oracle, parse), Attempt(0, 0));
    Budget();
  }

  /** When every attempt fails with a give-up error, the client calls each
      model once, in priority order, without sleeping, and returns None. */
  lemma AllGiveUp(lines: seq<Line>, oracle: Oracle, parse: ArrayParser)
    requires forall b: Attempt :: VerdictOf(VerdictsOf(lines, oracle, parse), b).GiveUp?
    ensures var run := Categorize(lines, true, oracle, parse);
      && run.result == None
      && run.trace == [Call(ModelPriority[0], 0), Call(ModelPriority[1], 0), Call(ModelPriority[2], 0)]
  {
    var verdicts := VerdictsOf(lines, oracle, parse);
    assert VerdictOf(verdicts, Attempt(0, 0)).GiveUp?;
    assert VerdictOf(verdicts, Attempt(1, 0)).GiveUp?;
    assert VerdictOf(verdicts, Attempt(2, 0)).GiveUp?;
    assert RunFrom(verdicts, Attempt(2, 0)).trace == [Call(ModelPriority[2], 0)];
    assert RunFrom(verdicts, Attempt(1, 0)).trace == [Call(ModelPriority[1], 0)] + [Call(ModelPriority[2], 0)];
  }

  /** An answer on the first attempt is returned after a single call. */
  lemma FirstAnswer(lines: seq<Line>, oracle: Oracle, parse: ArrayParser)
    requires VerdictOf(VerdictsOf(lines, oracle, parse), Attempt(0, 0)).Answer?
    ensures var run := Categorize(lines, true, oracle, parse);
      && run.result == Some(VerdictOf(VerdictsOf(lines, oracle, parse), Attempt(0, 0)).items)
      && run.trace == [Call(ModelPriority[0], 0)]
  {
  }

  // ---------------------------------------------------------------------
  // process: indexing the model's answer and merging it with the chunk

  /** What the answer says about one line number. */
  datatype AiEntry = AiEntry(tags: seq<string>, confidence: real)

  /** `max(0.0, min(conf, 1.0))`. */
  function Clamp(c: real): (r: real)
    ensures 0.0 <= r <= 1.0
    ensures 0.0 <= c <= 1.0 ==> r == c
    ensures c < 0.0 ==> r == 0.0
    ensures c > 1.0 ==> r == 1.0
  {
    var m := if 1.0 < c then 1.0 else c;
    if m > 0.0 then m else 0.0
  }

  /** One item of the answer: its line number and entry, or None when the
      `try` body raises (not a dict, a line number or confidence `int` or
      `float` cannot convert) or when its tags are not a list. */
  function EntryOf(item: Json, co: Coercions): Option<(int, AiEntry)>
  {
    if !item.JDict? then None
    else
      var ln := PyInt(GetOr(item.fields, "line_number", JNull), co);
      var tags := GetOr(item.fields, "tags", JNull);
      var conf := PyFloat(GetOr(item.fields, "confidence", JFloat(0.0)), co);
      if ln.None? || conf.None? || !tags.JList? then None
      else Some((ln.value, AiEntry(StrAll(tags.items, co), Clamp(conf.value))))
  }

  /** `[str(t) for t in tags]`. */
  function StrAll(tags: seq<Json>, co: Coercions): (r: seq<string>)
    ensures |r| == |tags|
    ensures forall i :: 0 <= i < |tags| ==> r[i] == PyStr(tags[i], co)
  {
    seq(|tags|, i requires 0 <= i < |tags| => PyStr(tags[i], co))
  }

  /** `ai_by_ln` after the items of the answer, in order: a later item for
      the same line number replaces an earlier one. */
  function Index(items: seq<Json>, co: Coercions): map<int, AiEntry>
  {
    if |items| == 0 then map[]
    else
      var n := |items| - 1;
      var m := Index(items[..n], co);
      match EntryOf(items[n], co)
      case Some(e) => m[e.0 := e.1]
      case None => m
  }

  method IndexAiResponse(response: seq<Json>, co: Coercions) returns (aiByLn: map<int, AiEntry>)
    ensures aiByLn == Index(response, co)
  {
    aiByLn := map[];
    for i := 0 to |response|
      invariant aiByLn == Index(response[..i], co)
    {
      assert response[..i + 1][..i] == response[..i];
      var item := response[i];
      if !item.JDict? {
        continue;
      }
      var ln := PyInt(GetOr(item.fields, "line_number", JNull), co);
      var tags := GetOr(item.fields, "tags", JNull);
      var conf := PyFloat(GetOr(item.fields, "confidence", JFloat(0.0)), co);
      if ln.None? || conf.None? || !tags.JList? {
        continue;
      }
      aiByLn := aiByLn[ln.value := AiEntry(StrAll(tags.items, co), Clamp(conf.value))];
    }
    assert response[..|response|] == response;
  }

  /** Some item of the answer gives an entry for line number ln. */
  predicate Gives(items: seq<Json>, co: Coercions, ln: int)
  {
    exists i :: 0 <= i < |items| && EntryOf(items[i], co).Some? && EntryOf(items[i], co).value.0 == ln
  }

  /** No item after index i gives an entry for line number ln. */
  predicate LastFor(items: seq<Json>, co: Coercions, ln: int, i: nat)
  {
    forall j :: i < j < |items| ==> EntryOf(items[j], co).None? || EntryOf(items[j], co).value.0 != ln
  }

  /** A line number is indexed exactly when some item gives an entry for it. */
  lemma {:induction false} IndexKeys(items: seq<Json>, co: Coercions)
    ensures forall ln :: ln in Index(items, co) <==> Gives(items, co, ln)
  {
    if |items| > 0 {
      var n := |items| - 1;
      var init := items[..n];
      IndexKeys(init, co);
      forall ln ensures ln in Index(items, co) <==> Gives(items, co, ln) {
        if Gives(init, co, ln) {
          var i :| 0 <= i < |init| && EntryOf(init[i], co).Some? && EntryOf(init[i], co).value.0 == ln;
          assert init[i] == items[i];
        }
        if Gives(items, co, ln) {
          var i :| 0 <= i < |items| && EntryOf(items[i], co).Some? && EntryOf(items[i], co).value.0 == ln;
          if i < n {
            assert init[i] == items[i];
          }
        }
      }
    }
  }

  /** The entry of an indexed line number is the one of the last item that
      gives an entry for it: later items replace earlier ones. */
  lemma {:induction false} IndexLast(items: seq<Json>, co: Coercions, ln: int)
    requires ln in Index(items, co)
    ensures exists i :: 0 <= i < |items| && EntryOf(items[i], co) == Some((ln, Index(items, co)[ln])) && LastFor(items, co, ln, i)
  {
    var n := |items| - 1;
    var init := items[..n];
    if EntryOf(items[n], co).Some? && EntryOf(items[n], co).value.0 == ln {
      assert EntryOf(items[n], co) == Some((ln, Index(items, co)[ln]));
      assert LastFor(items, co, ln, n);
    } else {
      IndexLast(init, co, ln);
      var i :| 0 <= i < |init| && EntryOf(init[i], co) == Some((ln, Index(init, co)[ln])) && LastFor(init, co, ln, i);
      assert init[i] == items[i];
      forall j | i < j < |items| ensures EntryOf(items[j], co).None? || EntryOf(items[j], co).value.0 != ln {
        if j < n {
          assert init[j] == items[j];
        }
      }
    }
  }

  /** Every indexed confidence lies in [0, 1]. */
  lemma {:induction false} IndexConfidence(items: seq<Json>, co: Coercions)
    ensures forall ln :: ln in Index(items, co) ==> 0.0 <= Index(items, co)[ln].confidence <= 1.0
  {
    if |items| > 0 {
      IndexConfidence(items[..|items| - 1], co);
    }
  }

  /** One output record: `{"line_number", "text", "tags", "category_confidence"}`. */
  datatype Record = Record(lineNumber: int, text: string, tags: seq<string>, confidence: real)

  function RecordKey(r: Record): int
  {
    r.lineNumber
  }

  /** The answer is used for a line when it indexes the line's number with a
      non-empty tag list. */
  predicate FromAi(line: Line, index: map<int, AiEntry>)
  {
    line.lineNumber in index && |index[line.lineNumber].tags| > 0
  }

  /** The record of one line: the answer's tags and confidence, or else the
      offline tags with confidence 0.5. */
  function Decide(line: Line, index: map<int, AiEntry>): Record
  {
    if FromAi(line, index) then
      Record(line.lineNumber, line.text, index[line.lineNumber].tags, index[line.lineNumber].confidence)
    else
      Record(line.lineNumber, line.text, OfflineTagsOf(line.text), 0.5)
  }

  /** The records of a chunk, in chunk order. */
  function MergeOf(chunk: seq<Line>, index: map<int, AiEntry>): (r: seq<Record>)
    ensures |r| == |chunk|
    ensures forall i :: 0 <= i < |chunk| ==> r[i] == Decide(chunk[i], index)
  {
    seq(|chunk|, i requires 0 <= i < |chunk| => Decide(chunk[i], index))
  }

  /** How many lines of a chunk take the answer's tags. */
  function AiCount(chunk: seq<Line>, index: map<int, AiEntry>): nat
  {
    if |chunk| == 0 then 0
    else AiCount(chunk[..|chunk| - 1], index) + (if FromAi(chunk[|chunk| - 1], index) then 1 else 0)
  }

  lemma {:induction false} AiCountBound(chunk: seq<Line>, index: map<int, AiEntry>)
    ensures AiCount(chunk, index) <= |chunk|
    ensures AiCount(chunk, index) == 0 <==> forall i :: 0 <= i < |chunk| ==> !FromAi(chunk[i], index)
  {
    if |chunk| > 0 {
      var n := |chunk| - 1;
      AiCountBound(chunk[..n], index);
      assert forall i :: 0 <= i < n ==> chunk[..n][i] == chunk[i];
    }
  }

  /** The merge loop of one chunk: a record per line, and the two counters. */
  method MergeChunk(chunk: seq<Line>, aiByLn: map<int, AiEntry>)
    returns (records: seq<Record>, aiProcessed: nat, offlineProcessed: nat)
    ensures records == MergeOf(chunk, aiByLn)
    ensures aiProcessed == AiCount(chunk, aiByLn)
    ensures aiProcessed + offlineProcessed == |chunk|
  {
    records := [];
    aiProcessed := 0;
    offlineProcessed := 0;
    for i := 0 to |chunk|
      invariant records == MergeOf(chunk[..i], aiByLn)
      invariant aiProcessed == AiCount(chunk[..i], aiByLn)
      invariant aiProcessed + offlineProcessed == i
    {
      assert chunk[..i + 1][..i] == chunk[..i];
      var line := chunk[i];
      var ln := line.lineNumber;
      var text := line.text;
      var tags, confidence;
      if ln in aiByLn && |aiByLn[ln].tags| > 0 {
        tags := aiByLn[ln].tags;
        confidence := aiByLn[ln].confidence;
        aiProcessed := aiProcessed + 1;
      } else {
        tags := OfflineTags(text);
        confidence := 0.5;
        offlineProcessed := offlineProcessed + 1;
      }
      records := records + [Record(ln, text, tags, confidence)];
    }
    assert chunk[..|chunk|] == chunk;
  }

  /** A record made for a line: same line number and text, at least one
      tag, a confidence in [0, 1]. */
  predicate RecordOf(r: Record, line: Line)
  {
    r.lineNumber == line.lineNumber && r.text == line.text && |r.tags| > 0 && 0.0 <= r.confidence <= 1.0
  }

  predicate ConfidencesInRange(index: map<int, AiEntry>)
  {
    forall ln :: ln in index ==> 0.0 <= index[ln].confidence <= 1.0
  }

  /** Every line gets a record with at least one tag and a confidence in
      [0, 1]; without the answer's tags it gets the offline tags at 0.5. */
  lemma DecideSpec(line: Line, index: map<int, AiEntry>)
    requires ConfidencesInRange(index)
    ensures RecordOf(Decide(line, index), line)
    ensures !FromAi(line, index) ==> Decide(line, index).tags == OfflineTagsOf(line.text) && Decide(line, index).confidence == 0.5
  {
    OfflineTagsSpec(line.text);
  }

  // ---------------------------------------------------------------------
  // process

  /** `ai_by_ln` for one chunk: empty when the client returns None. */
  function ChunkIndex(chunk: seq<Line>, live: bool, oracle: Oracle, parse: ArrayParser, co: Coercions): map<int, AiEntry>
  {
    match Categorize(chunk, live, oracle, parse).result
    case Some(response) => Index(response, co)
    case None => map[]
  }

  /** `ai_by_ln` of each chunk. */
  type Indexer = seq<Line> -> map<int, AiEntry>

  function ChunkIndexer(live: bool, oracle: Oracle, parse: ArrayParser, co: Coercions): Indexer
  {
    (chunk: seq<Line>) => ChunkIndex(chunk, live, oracle, parse, co)
  }

  /** The records of the chunks, in chunk order, before the final sort. */
  function Merged(chunks: seq<seq<Line>>, indexOf: Indexer): seq<Record>
  {
    if |chunks| == 0 then []
    else
      var n := |chunks| - 1;
      Merged(chunks[..n], indexOf) + MergeOf(chunks[n], indexOf(chunks[n]))
  }

  /** The final value of `ai_processed`. */
  function AiTotal(chunks: seq<seq<Line>>, indexOf: Indexer): nat
  {
    if |chunks| == 0 then 0
    else
      var n := |chunks| - 1;
      AiTotal(chunks[..n], indexOf) + AiCount(chunks[n], indexOf(chunks[n]))
  }

  function Normalized(raw: Json): seq<Line>
  {
    StableSort(Collected(Entries(raw)), LineKey)
  }

  /** The records `process` writes out. */
  function Processed(raw: Json, live: bool, oracle: Oracle, parse: ArrayParser, co: Coercions): seq<Record>
  {
    StableSort(Merged(Chunkify(Normalized(raw), ChunkSize), ChunkIndexer(live, oracle, parse, co)), RecordKey)
  }

  /** The body of the chunk loop of `process`: ask the client (when live),
      index its answer, merge. */
  method ProcessChunk(chunk: seq<Line>, live: bool, oracle: Oracle, parse: ArrayParser, co: Coercions)
    returns (records: seq<Record>, aiProcessed: nat, offlineProcessed: nat)
    ensures records == MergeOf(chunk, ChunkIndex(chunk, live, oracle, parse, co))
    ensures aiProcessed == AiCount(chunk, ChunkIndex(chunk, live, oracle, parse, co))
    ensures aiProcessed + offlineProcessed == |chunk|
  {
    var aiResponse: Option<seq<Json>> := None;
    if live {
      ghost var trace;
      aiResponse, trace := CategorizeChunk(chunk, live, oracle, parse);
    }
    var aiByLn: map<int, AiEntry> := map[];
    if aiResponse.Some? {
      aiByLn := IndexAiResponse(aiResponse.value, co);
    }
    records, aiProcessed, offlineProcessed := MergeChunk(chunk, aiByLn);
  }

  /** `process` from the parsed input file to the records and the two
      counters it logs. */
  method Process(raw: Json, live: bool, oracle: Oracle, parse: ArrayParser, co: Coercions)
    returns (results: seq<Record>, aiProcessed: nat, offlineProcessed: nat)
    ensures results == Processed(raw, live, oracle, parse, co)
    ensures aiProcessed == AiTotal(Chunkify(Normalized(raw), ChunkSize), ChunkIndexer(live, oracle, parse, co))
    ensures aiProcessed + offlineProcessed == |Normalized(raw)|
  {
    var items := NormalizeInputItems(raw);
    var chunks := Chunkify(items, ChunkSize);
    ghost var indexOf := ChunkIndexer(live, oracle, parse, co);
    results := [];
    aiProcessed := 0;
    offlineProcessed := 0;
    for k := 0 to |chunks|
      invariant results == Merged(chunks[..k], indexOf)
      invariant aiProcessed == AiTotal(chunks[..k], indexOf)
      invariant aiProcessed + offlineProcessed == |Flatten(chunks[..k])|
    {
      var chunk := chunks[k];
      assert chunks[..k + 1][..k] == chunks[..k];
      FlattenPrefix(chunks, k);
      var records, ai, offline := ProcessChunk(chunk, live, oracle, parse, co);
      assert indexOf(chunk) == ChunkIndex(chunk, live, oracle, parse, co);
      results := results + records;
      aiProcessed := aiProcessed + ai;
      offlineProcessed := offlineProcessed + offline;
    }
    assert chunks[..|chunks|] == chunks;
    ChunkifySpec(items, ChunkSize);
    results := StableSort(results, RecordKey);
  }

  /** The merged records match the concatenated chunks line by line, and
      at most every line is counted as tagged by the model. */
  lemma {:induction false} MergedPointwise(chunks: seq<seq<Line>>, indexOf: Indexer)
    requires forall c :: ConfidencesInRange(indexOf(c))
    ensures var out := Merged(chunks, indexOf);
      var lines := Flatten(chunks);
      && |out| == |lines|
      && (forall i :: 0 <= i < |out| ==> RecordOf(out[i], lines[i]))
      && AiTotal(chunks, indexOf) <= |lines|
  {
    if |chunks| > 0 {
      var n := |chunks| - 1;
      var init := chunks[..n];
      var chunk := chunks[n];
      var index := indexOf(chunk);
      MergedPointwise(init, indexOf);
      assert chunks == init + [chunk];
      FlattenAppend(init, chunk);
      AiCountBound(chunk, index);
      var before := Merged(init, indexOf);
      var out := Merged(chunks, indexOf);
      var lines := Flatten(chunks);
      forall i | 0 <= i < |out| ensures RecordOf(out[i], lines[i]) {
        if i < |before| {
          assert out[i] == before[i] && lines[i] == Flatten(init)[i];
        } else {
          var j := i - |before|;
          assert out[i] == MergeOf(chunk, index)[j] && lines[i] == chunk[j];
          DecideSpec(chunk[j], index);
        }
      }
    }
  }

  /** With no answer for any chunk, every line gets its offline record and
      none is counted as tagged by the model. */
  lemma {:induction false} MergedOffline(chunks: seq<seq<Line>>, indexOf: Indexer)
    requires forall c :: indexOf(c) == map[]
    ensures var out := Merged(chunks, indexOf);
      var lines := Flatten(chunks);
      && |out| == |lines|
      && (forall i :: 0 <= i < |out| ==> out[i] == Record(lines[i].lineNumber, lines[i].text, OfflineTagsOf(lines[i].text), 0.5))
      && AiTotal(chunks, indexOf) == 0
  {
    if |chunks| > 0 {
      var n := |chunks| - 1;
      var init := chunks[..n];
      var chunk := chunks[n];
      MergedOffline(init, indexOf);
      assert chunks == init + [chunk];
      FlattenAppend(init, chunk);
      AiCountBound(chunk, map[]);
      var before := Merged(init, indexOf);
      var out := Merged(chunks, indexOf);
      var lines := Flatten(chunks);
      forall i | 0 <= i < |out|
        ensures out[i] == Record(lines[i].lineNumber, lines[i].text, OfflineTagsOf(lines[i].text), 0.5)
      {
        if i < |before| {
          assert out[i] == before[i] && lines[i] == Flatten(init)[i];
        } else {
          assert out[i] == MergeOf(chunk, map[])[i - |before|] && lines[i] == chunk[i - |before|];
        }
      }
    }
  }

  /** Every indexed confidence of every chunk lies in [0, 1]; offline, no
      chunk has an index. */
  lemma ChunkIndexerSpec(live: bool, oracle: Oracle, parse: ArrayParser, co: Coercions)
    ensures forall c :: ConfidencesInRange(ChunkIndexer(live, oracle, parse, co)(c))
    ensures !live ==> forall c :: ChunkIndexer(live, oracle, parse, co)(c) == map[]
  {
    forall c ensures ConfidencesInRange(ChunkIndexer(live, oracle, parse, co)(c)) {
      var response := Categorize(c, live, oracle, parse).result;
      if response.Some? {
        IndexConfidence(response.value, co);
      }
    }
  }

  /** The final sort changes nothing: the lines come in line-number order
      and the merge keeps their order. */
  lemma ProcessedIsMerged(raw: Json, live: bool, oracle: Oracle, parse: ArrayParser, co: Coercions)
    ensures var chunks := Chunkify(Normalized(raw), ChunkSize);
      && Flatten(chunks) == Normalized(raw)
      && Processed(raw, live, oracle, parse, co) == Merged(chunks, ChunkIndexer(live, oracle, parse, co))
  {
    var items := Normalized(raw);
    var chunks := Chunkify(items, ChunkSize);
    var merged := Merged(chunks, ChunkIndexer(live, oracle, parse, co));
    ChunkifySpec(items, ChunkSize);
    ChunkIndexerSpec(live, oracle, parse, co);
    MergedPointwise(chunks, ChunkIndexer(live, oracle, parse, co));
    NormalizeSpec(raw);
    assert SortedBy(merged, RecordKey) by {
      forall i, j | 0 <= i < j < |merged| ensures RecordKey(merged[i]) <= RecordKey(merged[j]) {
        assert RecordOf(merged[i], items[i]) && RecordOf(merged[j], items[j]);
        assert LineKey(items[i]) <= LineKey(items[j]);
      }
    }
    StableSortSorted(merged, RecordKey);
  }

  /** `process` writes one record per normalised line, in line-number order:
      record i has the number and text of line i, at least one tag and a
      confidence in [0, 1]; `ai_processed` counts at most every line. */
  lemma ProcessSpec(raw: Json, live: bool, oracle: Oracle, parse: ArrayParser, co: Coercions)
    ensures var items := Normalized(raw);
      var out := Processed(raw, live, oracle, parse, co);
      && |out| == |items|
      && (forall i :: 0 <= i < |out| ==> RecordOf(out[i], items[i]))
      && SortedBy(out, RecordKey)
      && AiTotal(Chunkify(items, ChunkSize), ChunkIndexer(live, oracle, parse, co)) <= |items|
  {
    var items := Normalized(raw);
    ProcessedIsMerged(raw, live, oracle, parse, co);
    ChunkIndexerSpec(live, oracle, parse, co);
    MergedPointwise(Chunkify(items, ChunkSize), ChunkIndexer(live, oracle, parse, co));
    StableSortSpec(Merged(Chunkify(items, ChunkSize), ChunkIndexer(live, oracle, parse, co)), RecordKey);
  }

  /** With the client offline every line gets its offline tags at
      confidence 0.5, and `ai_processed` is 0. */
  lemma ProcessOffline(raw: Json, oracle: Oracle, parse: ArrayParser, co: Coercions)
    ensures var items := Normalized(raw);
      var out := Processed(raw, false, oracle, parse, co);
      && |out| == |items|
      && (forall i :: 0 <= i < |out| ==>
            out[i] == Record(items[i].lineNumber, items[i].text, OfflineTagsOf(items[i].text), 0.5))
      && AiTotal(Chunkify(items, ChunkSize), ChunkIndexer(false, oracle, parse, co)) == 0
  {
    ProcessedIsMerged(raw, false, oracle, parse, co);
    ChunkIndexerSpec(false, oracle, parse, co);
    MergedOffline(Chunkify(Normalized(raw), ChunkSize), ChunkIndexer(false, oracle, parse, co));
  }
}
