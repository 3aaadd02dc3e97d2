/** What the pipeline sees of the Gemini service: the outcome of one
    `generate_content` call, and the clean-up the two chunk processors
    apply to a reply's text before handing it to the JSON parser. The
    service itself is a parameter of every member that calls it. */
module Gemini {
  import opened Strings
  import opened Regex

  /** What one `generate_content` call gives: the text of the response
      (empty when it has none) or the message of the exception raised. */
  datatype Reply = Answered(text: string) | Raised(message: string)

  const Fence := "```"
  const JsonFence := "```json"

  /** `response.text.strip().replace("```json", "").replace("```", "")`. */
  function Unfenced(text: string): string
  {
    Replace(Replace(Strip(text), JsonFence, ""), Fence, "")
  }

  predicate NoBacktick(s: string)
  {
    '`' !in s
  }

  /** A reply without fences reaches the parser as its stripped text. */
  lemma UnfencedPlain(text: string)
    requires NoBacktick(Strip(text))
    ensures Unfenced(text) == Strip(text)
  {
    var s := Strip(text);
    assert !Contains(s, JsonFence) by {
      forall i | 0 <= i <= |s| - |JsonFence| ensures !(JsonFence <= s[i..]) {
        assert s[i] != '`';
      }
    }
    ReplaceAbsent(s, JsonFence, "");
    assert !Contains(s, Fence) by {
      forall i | 0 <= i <= |s| - |Fence| ensures !(Fence <= s[i..]) {
        assert s[i] != '`';
      }
    }
    ReplaceAbsent(s, Fence, "");
  }

  /** A reply wrapped in a ```json ... ``` block reaches the parser as the
      text inside the block. */
  lemma UnfencedBlock(body: string)
    requires NoBacktick(body)
    ensures Unfenced(JsonFence + body + Fence) == body
  {
    var s := JsonFence + body + Fence;
    assert Trimmed(s) by {
      assert s[0] == '`' && s[|s| - 1] == '`';
    }
    StripTrimmed(s);
    var inner := body + Fence;
    OpeningFenceRemoved(body);
    ClosingFenceRemoved(body);
    assert Replace(s, JsonFence, "") == inner;
  }

  lemma OpeningFenceRemoved(body: string)
    requires NoBacktick(body)
    ensures Replace(JsonFence + body + Fence, JsonFence, "") == body + Fence
  {
    var s := JsonFence + body + Fence;
    var p := Literal(JsonFence);
    var n := |JsonFence|;
    assert s[..n] == JsonFence;
    assert MatchAt(p, s, 0) == n by {
      assert JsonFence <= s[0..];
    }
    forall k | n <= k < |s| ensures MatchAt(p, s, k) == 0 {
      if k < n + |body| {
        assert s[k] == body[k - n];
        assert s[k..][0] != JsonFence[0];
      } else {
        assert |s[k..]| < |JsonFence|;
      }
    }
    SplitNoMatch(p, s, n, n);
    assert s[0..0] == "";
    assert s[n..] == body + Fence;
    assert Split(p, s) == [""] + [body + Fence];
    JoinCons("", [body + Fence], "");
  }

  lemma ClosingFenceRemoved(body: string)
    requires NoBacktick(body)
    ensures Replace(body + Fence, Fence, "") == body
  {
    var s := body + Fence;
    var p := Literal(Fence);
    var m := |body|;
    forall k | 0 <= k < m ensures MatchAt(p, s, k) == 0 {
      assert s[k] == body[k];
      assert s[k..][0] != Fence[0];
    }
    assert s[m..] == Fence;
    assert MatchAt(p, s, m) == |Fence| by {
      assert Fence <= s[m..];
    }
    SplitSkip(p, s, 0, 0, m);
    assert SplitFrom(p, s, |s|, |s|) == [""];
    assert SplitFrom(p, s, 0, m) == [s[0..m]] + [""];
    assert s[0..m] == body;
    JoinCons(body, [""], "");
  }
}
