/** The stand-alone verifier of scraper/verify_categorization.py: each
    categorised item is checked against a table of evidence keywords, and a
    `verification` entry is written into the item itself. Items are JSON
    objects; Python's exceptions on malformed items are the error results. */
module VerifyCategorization {
  import opened Wrappers
  import opened Strings
  import opened Keywords
  import opened Json
  import AiCategorize

  const VerificationRules: Table := [
    ("finance", ["tax", "invoice", "payment", "financial", "budget", "revenue"]),
    ("legal", ["contract", "agreement", "policy", "regulation", "law"]),
    ("hr", ["employee", "salary", "recruitment", "leave"])
  ]

  const ConsistentNote := "All tags appear consistent with text sample."

  /** The note for a tag none of whose keywords occurs in the sample. */
  function Note(tag: string, keywords: seq<string>): string
  {
    "Tag '" + tag + "' is present, but no required keywords (" + Join(keywords, ", ") +
    ") were found in the text sample."
  }

  /** What `for tag in tags` iterates over: the items of a list, the
      one-character strings of a string; anything else but a dict is not
      iterable. */
  function TagValues(tags: Json): Result<seq<Json>>
  {
    match tags
    case JList(items) => Ok(items)
    case JString(s) => Ok(seq(|s|, i requires 0 <= i < |s| => JString([s[i]])))
    case JDict(_) => Err("dict tags: key order is not modelled")
    case _ => Err("'" + TypeName(tags) + "' object is not iterable")
  }

  /** `VERIFICATION_RULES[tag]`, or no keywords for a tag outside the table. */
  function RequiredKeywords(rules: Table, tag: string): seq<string>
  {
    match Lookup(rules, tag)
    case Some(keywords) => keywords
    case None => []
  }

  /** `tag in VERIFICATION_RULES` raises on an unhashable tag. */
  predicate Unhashable(tag: Json)
  {
    tag.JList? || tag.JDict?
  }

  /** The notes for the tags in order, or the error of the first unhashable
      tag. Tags that are not strings are hashable but never keys of the
      table. */
  function FailingNotes(tags: seq<Json>, rules: Table, lowered: string): Result<seq<string>>
  {
    if |tags| == 0 then Ok([])
    else
      var tag := tags[|tags| - 1];
      match FailingNotes(tags[..|tags| - 1], rules, lowered)
      case Err(m) => Err(m)
      case Ok(notes) =>
        if Unhashable(tag) then Err("unhashable type: '" + TypeName(tag) + "'")
        else Ok(notes + NoteOf(tag, rules, lowered))
  }

  /** The note a hashable tag adds: one for a string tag of the table none
      of whose keywords occurs, none otherwise. */
  function NoteOf(tag: Json, rules: Table, lowered: string): seq<string>
  {
    if tag.JString? && FailsCheck(tag.s, rules, lowered) then [Note(tag.s, RequiredKeywords(rules, tag.s))]
    else []
  }

  /** `item["verification"]` for the collected notes. */
  function VerificationValue(notes: seq<string>): Json
  {
    JDict(map[
      "status" := JString(if notes == [] then "passed" else "failed"),
      "notes" := if notes == [] then JString(ConsistentNote) else JList(seq(|notes|, i requires 0 <= i < |notes| => JString(notes[i])))])
  }

  /** The item after verify_item, or the message of the exception raised
      (the item is then left as it was). */
  function Verified(fields: map<string, Json>): Result<map<string, Json>>
  {
    var sample := GetOr(fields, "text_sample", JString(""));
    if !sample.JString? then Err("'" + TypeName(sample) + "' object has no attribute 'lower'")
    else
      match TagValues(GetOr(fields, "tags", JList([])))
      case Err(m) => Err(m)
      case Ok(tags) =>
        match FailingNotes(tags, VerificationRules, Lower(sample.s))
        case Err(m) => Err(m)
        case Ok(notes) => Ok(fields["verification" := VerificationValue(notes)])
  }

  /** A JSON object the caller holds: verify_item writes into it. */
  class Item {
    var fields: map<string, Json>

    constructor(fields: map<string, Json>)
      ensures this.fields == fields
    {
      this.fields := fields;
    }
  }

  /** Once a tag raises, so does every longer list of tags. */
  lemma {:induction false} ErrorSticks(tags: seq<Json>, i: nat, rules: Table, lowered: string)
    requires i <= |tags|
    requires FailingNotes(tags[..i], rules, lowered).Err?
    ensures FailingNotes(tags, rules, lowered) == FailingNotes(tags[..i], rules, lowered)
    decreases |tags| - i
  {
    if i < |tags| {
      assert tags[..i + 1][..i] == tags[..i];
      ErrorSticks(tags, i + 1, rules, lowered);
    } else {
      assert tags[..i] == tags;
    }
  }

  method VerifyItem(item: Item) returns (raised: Option<string>)
    modifies item
    ensures Verified(old(item.fields)).Ok? ==> raised == None && item.fields == Verified(old(item.fields)).value
    ensures Verified(old(item.fields)).Err? ==> raised == Some(Verified(old(item.fields)).msg) && item.fields == old(item.fields)
  {
    var tagsValue := GetOr(item.fields, "tags", JList([]));
    var sampleValue := GetOr(item.fields, "text_sample", JString(""));
    if !sampleValue.JString? {
      return Some("'" + TypeName(sampleValue) + "' object has no attribute 'lower'");
    }
    var textSample := Lower(sampleValue.s);
    var iterated := TagValues(tagsValue);
    if iterated.Err? {
      return Some(iterated.msg);
    }
    var tags := iterated.value;
    var verificationPassed := true;
    var notes: seq<string> := [];
    for i := 0 to |tags|
      invariant FailingNotes(tags[..i], VerificationRules, textSample) == Ok(notes)
      invariant verificationPassed <==> notes == []
    {
      var tag := tags[i];
      assert tags[..i + 1][..i] == tags[..i];
      assert tags[..i + 1][i] == tag;
      if Unhashable(tag) {
        ErrorSticks(tags, i + 1, VerificationRules, textSample);
        return Some("unhashable type: '" + TypeName(tag) + "'");
      }
      var added: seq<string> := [];
      if tag.JString? {
        match Lookup(VerificationRules, tag.s) {
          case Some(requiredKeywords) =>
            if !AnyIn(requiredKeywords, textSample) {
              verificationPassed := false;
              added := [Note(tag.s, requiredKeywords)];
            }
          case None =>
        }
      }
      assert added == NoteOf(tag, VerificationRules, textSample);
      assert FailingNotes(tags[..i + 1], VerificationRules, textSample) == Ok(notes + added);
      notes := notes + added;
    }
    assert tags[..|tags|] == tags;
    item.fields := item.fields["verification" := VerificationValue(notes)];
    raised := None;
  }

  /** The string tags, in order. */
  function StringTags(tags: seq<Json>): seq<string>
  {
    if |tags| == 0 then []
    else StringTags(tags[..|tags| - 1]) + (if tags[|tags| - 1].JString? then [tags[|tags| - 1].s] else [])
  }

  /** One note per tag, in order. */
  function NotesFor(failing: seq<string>, rules: Table): (r: seq<string>)
  {
    seq(|failing|, i requires 0 <= i < |failing| => Note(failing[i], RequiredKeywords(rules, failing[i])))
  }

  /** The notes exist exactly when no tag is unhashable. */
  lemma {:induction false} FailingNotesDefined(tags: seq<Json>, rules: Table, lowered: string)
    ensures FailingNotes(tags, rules, lowered).Ok? <==> forall i :: 0 <= i < |tags| ==> !Unhashable(tags[i])
  {
    if |tags| > 0 {
      var n := |tags| - 1;
      var init := tags[..n];
      FailingNotesDefined(init, rules, lowered);
      if FailingNotes(tags, rules, lowered).Ok? {
        forall i | 0 <= i < |tags| ensures !Unhashable(tags[i]) {
          if i < n {
            assert init[i] == tags[i];
          }
        }
      } else if FailingNotes(init, rules, lowered).Err? {
        var i :| 0 <= i < n && Unhashable(init[i]);
        assert tags[i] == init[i];
      }
    }
  }

  /** The failing tag a hashable tag contributes, if any. */
  function FailingOf(tag: Json, rules: Table, lowered: string): seq<string>
  {
    if tag.JString? && FailsCheck(tag.s, rules, lowered) then [tag.s] else []
  }

  lemma FailingStringsStep(tags: seq<Json>, rules: Table, lowered: string)
    requires |tags| > 0
    ensures Failing(StringTags(tags), rules, lowered) ==
      Failing(StringTags(tags[..|tags| - 1]), rules, lowered) + FailingOf(tags[|tags| - 1], rules, lowered)
  {
    var n := |tags| - 1;
    if tags[n].JString? {
      FailingSnoc(StringTags(tags[..n]), tags[n].s, rules, lowered);
    } else {
      assert StringTags(tags) == StringTags(tags[..n]);
    }
  }

  lemma NotesForAppend(a: seq<string>, b: seq<string>, rules: Table)
    ensures NotesFor(a + b, rules) == NotesFor(a, rules) + NotesFor(b, rules)
  {
  }

  /** Then they are, in tag order, one per string tag that the table has and
      whose keywords all miss the sample. */
  lemma {:induction false} FailingNotesSpec(tags: seq<Json>, rules: Table, lowered: string)
    requires FailingNotes(tags, rules, lowered).Ok?
    ensures FailingNotes(tags, rules, lowered).value == NotesFor(Failing(StringTags(tags), rules, lowered), rules)
  {
    if |tags| > 0 {
      var n := |tags| - 1;
      var init := tags[..n];
      assert FailingNotes(init, rules, lowered).Ok?;
      var prev := FailingNotes(init, rules, lowered).value;
      assert FailingNotes(tags, rules, lowered).value == prev + NoteOf(tags[n], rules, lowered);
      FailingNotesSpec(init, rules, lowered);
      var f := Failing(StringTags(init), rules, lowered);
      FailingStringsStep(tags, rules, lowered);
      NotesForAppend(f, FailingOf(tags[n], rules, lowered), rules);
      assert NotesFor(FailingOf(tags[n], rules, lowered), rules) == NoteOf(tags[n], rules, lowered);
    }
  }

  /** The `verification` value: "passed" with the fixed sentence when there
      is no note, otherwise "failed" with the notes as a list. */
  lemma VerificationValueSpec(notes: seq<string>)
    ensures var v := VerificationValue(notes);
      && v.JDict? && v.fields.Keys == {"status", "notes"}
      && (v.fields["status"] == JString("passed") <==> notes == [])
      && (v.fields["status"] == JString("passed") <==> v.fields["notes"] == JString(ConsistentNote))
      && (notes != [] ==>
            v.fields["status"] == JString("failed") && v.fields["notes"].JList? &&
            |v.fields["notes"].items| == |notes| &&
            forall i :: 0 <= i < |notes| ==> v.fields["notes"].items[i] == JString(notes[i]))
  {
  }

  /** verify_item adds or overwrites `verification` and nothing else, and
      raises only on a sample that is not a string, tags that cannot be
      iterated, or an unhashable tag. The verification holds the notes for
      the failing string tags in tag order (VerificationValueSpec says what
      that value is). */
  lemma VerifiedSpec(fields: map<string, Json>)
    ensures var sample := GetOr(fields, "text_sample", JString(""));
      var tags := TagValues(GetOr(fields, "tags", JList([])));
      Verified(fields).Ok? <==>
        sample.JString? && tags.Ok? && forall i :: 0 <= i < |tags.value| ==> !Unhashable(tags.value[i])
    ensures Verified(fields).Ok? ==>
      var out := Verified(fields).value;
      var tags := TagValues(GetOr(fields, "tags", JList([]))).value;
      var lowered := Lower(GetOr(fields, "text_sample", JString("")).s);
      && out.Keys == fields.Keys + {"verification"}
      && (forall k :: k in fields && k != "verification" ==> out[k] == fields[k])
      && out["verification"] == VerificationValue(NotesFor(Failing(StringTags(tags), VerificationRules, lowered), VerificationRules))
  {
    var sample := GetOr(fields, "text_sample", JString(""));
    var tags := TagValues(GetOr(fields, "tags", JList([])));
    if sample.JString? && tags.Ok? {
      FailingNotesDefined(tags.value, VerificationRules, Lower(sample.s));
      if FailingNotes(tags.value, VerificationRules, Lower(sample.s)).Ok? {
        FailingNotesSpec(tags.value, VerificationRules, Lower(sample.s));
      }
    }
  }

  /** A failing tag is a string tag that the table has and none of whose
      keywords occurs; status "passed" therefore means every such tag has
      evidence, and tags outside the table never fail. */
  lemma PassedMeansEvidence(tags: seq<Json>, lowered: string)
    ensures var failing := Failing(StringTags(tags), VerificationRules, lowered);
      (failing == [] <==> forall t :: t in StringTags(tags) ==> !FailsCheck(t, VerificationRules, lowered)) &&
      (forall t :: t in failing ==> t in Keys(VerificationRules) && JString(t) in tags)
  {
    var strs := StringTags(tags);
    FailingSpec(strs, VerificationRules, lowered);
    StringTagsFrom(tags);
  }

  lemma {:induction false} StringTagsFrom(tags: seq<Json>)
    ensures forall t :: t in StringTags(tags) ==> JString(t) in tags
  {
    if |tags| > 0 {
      var init := tags[..|tags| - 1];
      StringTagsFrom(init);
      assert forall x :: x in init ==> x in tags;
    }
  }

  /** An item without `tags` passes, whatever its sample says. */
  lemma MissingTagsPass(fields: map<string, Json>)
    requires "tags" !in fields && GetOr(fields, "text_sample", JString("")).JString?
    ensures Verified(fields).Ok?
    ensures Verified(fields).value["verification"].fields["status"] == JString("passed")
  {
    assert TagValues(JList([])) == Ok([]);
  }

  /** String tags the table does not have never fail: such an item passes
      whatever its sample. */
  lemma UnknownTagsPass(fields: map<string, Json>)
    requires GetOr(fields, "text_sample", JString("")).JString?
    requires "tags" in fields && fields["tags"].JList?
    requires forall i :: 0 <= i < |fields["tags"].items| ==>
      fields["tags"].items[i].JString? && fields["tags"].items[i].s !in Keys(VerificationRules)
    ensures Verified(fields).Ok?
    ensures Verified(fields).value["verification"].fields["status"] == JString("passed")
  {
    var tags := fields["tags"].items;
    var lowered := Lower(GetOr(fields, "text_sample", JString("")).s);
    VerifiedSpec(fields);
    PassedMeansEvidence(tags, lowered);
    StringTagsFrom(tags);
    forall t | t in StringTags(tags) ensures !FailsCheck(t, VerificationRules, lowered) {
      var i :| 0 <= i < |tags| && tags[i] == JString(t);
    }
  }

  /** Lookup is case-sensitive: a "Finance" tag is never checked. */
  lemma CapitalisedTagNotChecked(sample: string)
    ensures var fields := map["tags" := JList([JString("Finance")]), "text_sample" := JString(sample)];
      Verified(fields).Ok? && Verified(fields).value["verification"].fields["status"] == JString("passed")
  {
    var fields := map["tags" := JList([JString("Finance")]), "text_sample" := JString(sample)];
    assert Keys(VerificationRules) == ["finance", "legal", "hr"];
    UnknownTagsPass(fields);
  }

  /** A "finance" tag on a sample with none of its keywords fails, with one
      note, for finance and its keywords. */
  lemma FinanceWithoutEvidenceFails(sample: string)
    requires !AnyIn(VerificationRules[0].1, Lower(sample))
    ensures var fields := map["tags" := JList([JString("finance")]), "text_sample" := JString(sample)];
      Verified(fields).Ok? &&
      Verified(fields).value["verification"] ==
        JDict(map["status" := JString("failed"), "notes" := JList([JString(Note("finance", VerificationRules[0].1))])])
  {
    var tags := [JString("finance")];
    var kws := VerificationRules[0].1;
    var note := Note("finance", kws);
    assert Lookup(VerificationRules, "finance") == Some(kws);
    assert FailingNotes(tags[..0], VerificationRules, Lower(sample)) == Ok([]);
    assert RequiredKeywords(VerificationRules, "finance") == kws;
    assert FailsCheck("finance", VerificationRules, Lower(sample));
    assert [] + [note] == [note];
    assert FailingNotes(tags, VerificationRules, Lower(sample)) == Ok([note]);
    assert VerificationValue([note]).fields["notes"] == JList([JString(note)]);
  }

  const OfflineTagNames := ["Compliance", "Report", "Invoice", "Contract", "Policy", "General"]

  lemma OfflineTagsCapitalised(text: string)
    ensures forall t :: t in AiCategorize.OfflineTagsOf(text) ==> t in OfflineTagNames
  {
    var pairs := AiCategorize.OfflineKeywordTags;
    var hits := AiCategorize.OfflineHits(pairs, Lower(text));
    AiCategorize.DedupSpec(AiCategorize.WithSentinel(hits));
    AiCategorize.OfflineHitsSpec(pairs, Lower(text));
    forall t | t in hits ensures t in OfflineTagNames {
      var i :| 0 <= i < |pairs| && pairs[i].1 == t && Contains(Lower(text), pairs[i].0);
      assert pairs[i].1 == OfflineTagNames[i];
    }
  }

  /** Records the line categoriser tagged offline carry only capitalised
      tags ("Compliance", …, "General"), which the table never has: such a
      record always passes, whatever its sample. */
  lemma OfflineRecordsPass(fields: map<string, Json>, text: string)
    requires GetOr(fields, "text_sample", JString("")).JString?
    requires "tags" in fields && fields["tags"].JList?
    requires forall i :: 0 <= i < |fields["tags"].items| ==>
      fields["tags"].items[i].JString? && fields["tags"].items[i].s in AiCategorize.OfflineTagsOf(text)
    ensures Verified(fields).Ok?
    ensures Verified(fields).value["verification"].fields["status"] == JString("passed")
  {
    OfflineTagsCapitalised(text);
    assert Keys(VerificationRules) == ["finance", "legal", "hr"];
    UnknownTagsPass(fields);
  }
}
