/** The tag combination shared by the two chunk processors
    (scraper/process_documents.py and netlify/functions/analyze.py): the
    `tags` of the model's answer, read defensively, united with the rule
    tags as `sorted(list(set(rule_tags + ai_tags)))`. */
module TagUnion {
  import opened Wrappers
  import opened Sorting
  import opened Json

  /** `ai_result.get("tags", [])`, with anything but a list read as `[]`. */
  function AiTags(result: map<string, Json>): seq<Json>
  {
    var t := GetOr(result, "tags", JList([]));
    if t.JList? then t.items else []
  }

  predicate AllStrings(xs: seq<Json>)
  {
    forall i :: 0 <= i < |xs| ==> xs[i].JString?
  }

  function Texts(xs: seq<Json>): (r: seq<string>)
    requires AllStrings(xs)
    ensures |r| == |xs|
    ensures forall i :: 0 <= i < |xs| ==> xs[i] == JString(r[i])
  {
    if |xs| == 0 then [] else [xs[0].s] + Texts(xs[1..])
  }

  /** `sorted(list(set(rule + ai)))` for string tags. */
  function Combined(rule: seq<string>, ai: seq<Json>): seq<string>
    requires AllStrings(ai)
  {
    SortedDistinct(rule + Texts(ai), StrLess)
  }

  /** The combined tags are strictly ascending, hold every rule tag and every
      tag of the model and nothing else, and do not depend on the order of
      the rule tags (which `list(set)` leaves open). */
  lemma CombinedSpec(rule: seq<string>, ai: seq<Json>)
    requires AllStrings(ai)
    ensures StrictlySorted(Combined(rule, ai), StrLess)
    ensures forall t :: t in Combined(rule, ai) <==> t in rule || JString(t) in ai
    ensures forall other: seq<string> :: Elems(other) == Elems(rule) ==> Combined(other, ai) == Combined(rule, ai)
  {
    StrLessIsStrictOrder();
    SortedDistinctSpec(rule + Texts(ai), StrLess);
    var texts := Texts(ai);
    forall t ensures t in Combined(rule, ai) <==> t in rule || JString(t) in ai {
      assert t in Combined(rule, ai) <==> t in Elems(Combined(rule, ai));
      assert t in rule + texts <==> t in rule || t in texts;
      if t in texts {
        var i :| 0 <= i < |texts| && texts[i] == t;
        assert ai[i] == JString(t);
      }
      if JString(t) in ai {
        var i :| 0 <= i < |ai| && ai[i] == JString(t);
        assert texts[i] == t;
      }
    }
    forall other: seq<string> | Elems(other) == Elems(rule)
      ensures Combined(other, ai) == Combined(rule, ai)
    {
      SortedDistinctSpec(other + texts, StrLess);
      assert Elems(other + texts) == Elems(rule + texts) by {
        assert forall t :: t in other + texts <==> t in other || t in texts;
        assert forall t :: t in rule + texts <==> t in rule || t in texts;
        assert forall t :: t in other <==> t in Elems(other);
        assert forall t :: t in rule <==> t in Elems(rule);
      }
      SortedUnique(Combined(other, ai), Combined(rule, ai), StrLess);
    }
  }
}
