/** Keyword tables (a Python dict from a category to its keyword list, kept in
    insertion order) and the two ways the pipeline uses them: tagging a text
    with every category that has a keyword in it, and checking that each tag
    has at least one of its evidence keywords in a text sample. */
module Keywords {
  import opened Wrappers
  import opened Strings

  type Table = seq<(string, seq<string>)>

  /** `any(keyword in lowered for keyword in keywords)`. */
  predicate AnyIn(keywords: seq<string>, lowered: string)
  {
    exists k :: 0 <= k < |keywords| && Contains(lowered, keywords[k])
  }

  function Keys(table: Table): (r: seq<string>)
    ensures |r| == |table|
    ensures forall i :: 0 <= i < |table| ==> r[i] == table[i].0
  {
    seq(|table|, i requires 0 <= i < |table| => table[i].0)
  }

  predicate NoDuplicates<T(==)>(s: seq<T>)
  {
    forall i, j :: 0 <= i < j < |s| ==> s[i] != s[j]
  }

  /** `table[key]` for a dict literal: the first entry with that key. */
  function Lookup(table: Table, key: string): (r: Option<seq<string>>)
    ensures r.None? <==> key !in Keys(table)
  {
    if |table| == 0 then None
    else if table[0].0 == key then Some(table[0].1)
    else Lookup(table[1..], key)
  }

  /** Categories, in table order, with some keyword in `lowered`. */
  function Matched(table: Table, lowered: string): seq<string>
  {
    if |table| == 0 then []
    else
      var last := table[|table| - 1];
      Matched(table[..|table| - 1], lowered) + (if AnyIn(last.1, lowered) then [last.0] else [])
  }

  /** The same categories as a set, as the set-building taggers produce. */
  function MatchedSet(table: Table, lowered: string): set<string>
  {
    set i | 0 <= i < |table| && AnyIn(table[i].1, lowered) :: table[i].0
  }

  lemma MatchedSetStep(table: Table, i: nat, lowered: string)
    requires i < |table|
    ensures MatchedSet(table[..i + 1], lowered) ==
      MatchedSet(table[..i], lowered) + (if AnyIn(table[i].1, lowered) then {table[i].0} else {})
  {
    var pre := table[..i];
    var ext := table[..i + 1];
    forall c | c in MatchedSet(ext, lowered)
      ensures c in MatchedSet(pre, lowered) || (AnyIn(table[i].1, lowered) && c == table[i].0)
    {
      var j :| 0 <= j < |ext| && AnyIn(ext[j].1, lowered) && ext[j].0 == c;
      if j < i {
        assert pre[j] == ext[j];
      }
    }
    forall c | c in MatchedSet(pre, lowered) ensures c in MatchedSet(ext, lowered) {
      var j :| 0 <= j < |pre| && AnyIn(pre[j].1, lowered) && pre[j].0 == c;
      assert ext[j] == pre[j];
    }
    if AnyIn(table[i].1, lowered) {
      assert ext[i] == table[i];
    }
  }

  /** The set-building taggers: `tags = set()`, one `tags.add(category)` per
      matching category, then `list(tags)`, whose order Python does not fix. */
  method SetTagging(table: Table, text: string) returns (tags: seq<string>)
    ensures forall c :: c in tags <==> c in MatchedSet(table, Lower(text))
    ensures NoDuplicates(tags)
  {
    var textLower := Lower(text);
    var found: set<string> := {};
    for i := 0 to |table|
      invariant found == MatchedSet(table[..i], textLower)
    {
      MatchedSetStep(table, i, textLower);
      if AnyIn(table[i].1, textLower) {
        found := found + {table[i].0};
      }
    }
    assert table[..|table|] == table;
    tags := ListOfSet(found);
  }

  predicate IsSubsequence<T(==)>(a: seq<T>, b: seq<T>)
    decreases |b|
  {
    |a| == 0 || (|b| > 0 && if a[0] == b[0] then IsSubsequence(a[1..], b[1..]) else IsSubsequence(a, b[1..]))
  }

  lemma {:induction false} SubsequenceAppend<T>(a: seq<T>, b: seq<T>, x: T)
    requires IsSubsequence(a, b)
    ensures IsSubsequence(a, b + [x]) && IsSubsequence(a + [x], b + [x])
    decreases |b|
  {
    if |b| == 0 {
      assert a == [];
      assert IsSubsequence([x][1..], [x][1..]);
      assert a + [x] == [x] && b + [x] == [x];
    } else {
      assert (b + [x])[1..] == b[1..] + [x];
      if |a| == 0 {
        assert IsSubsequence(a, b[1..]);
        SubsequenceAppend(a, b[1..], x);
        assert a + [x] == [x];
        if b[0] == x {
          assert IsSubsequence([x][1..], (b + [x])[1..]);
        }
      } else {
        assert (a + [x])[1..] == a[1..] + [x];
        if a[0] == b[0] {
          SubsequenceAppend(a[1..], b[1..], x);
        } else {
          SubsequenceAppend(a, b[1..], x);
        }
      }
    }
  }

  /** A category is returned exactly when one of its keywords occurs; the
      result lists categories in table order and, when the table's keys are
      distinct, holds none twice. */
  lemma {:induction false} MatchedSpec(table: Table, lowered: string)
    ensures forall c :: c in Matched(table, lowered) <==>
      exists i :: 0 <= i < |table| && table[i].0 == c && AnyIn(table[i].1, lowered)
    ensures IsSubsequence(Matched(table, lowered), Keys(table))
    ensures NoDuplicates(Keys(table)) ==> NoDuplicates(Matched(table, lowered))
    ensures forall c :: c in Matched(table, lowered) <==> c in MatchedSet(table, lowered)
  {
    if |table| > 0 {
      var init := table[..|table| - 1];
      var last := table[|table| - 1];
      MatchedSpec(init, lowered);
      assert Keys(table) == Keys(init) + [last.0];
      SubsequenceAppend(Matched(init, lowered), Keys(init), last.0);
      if AnyIn(last.1, lowered) {
        assert Matched(table, lowered) == Matched(init, lowered) + [last.0];
        if NoDuplicates(Keys(table)) {
          assert NoDuplicates(Keys(init)) by {
            forall i, j | 0 <= i < j < |Keys(init)| ensures Keys(init)[i] != Keys(init)[j] {
              assert Keys(init)[i] == Keys(table)[i] && Keys(init)[j] == Keys(table)[j];
            }
          }
          forall c | c in Matched(init, lowered) ensures c != last.0 {
            var i :| 0 <= i < |init| && init[i].0 == c && AnyIn(init[i].1, lowered);
            assert Keys(table)[i] == c && Keys(table)[|table| - 1] == last.0;
          }
          var m := Matched(init, lowered);
          forall i, j | 0 <= i < j < |m + [last.0]| ensures (m + [last.0])[i] != (m + [last.0])[j] {
            if j == |m| {
              assert (m + [last.0])[i] == m[i] && m[i] in m;
            } else {
              assert (m + [last.0])[i] == m[i] && (m + [last.0])[j] == m[j];
            }
          }
        }
      } else {
        assert Matched(table, lowered) == Matched(init, lowered);
        if NoDuplicates(Keys(table)) {
          assert NoDuplicates(Keys(init)) by {
            forall i, j | 0 <= i < j < |Keys(init)| ensures Keys(init)[i] != Keys(init)[j] {
              assert Keys(init)[i] == Keys(table)[i] && Keys(init)[j] == Keys(table)[j];
            }
          }
        }
      }
    }
  }

  predicate HasUpper(k: string)
  {
    exists j :: 0 <= j < |k| && IsUpper(k[j])
  }

  /** The keywords of a list that hold no upper-case letter. */
  function WithoutUpper(keywords: seq<string>): (r: seq<string>)
    ensures forall k :: k in r <==> k in keywords && !HasUpper(k)
  {
    if |keywords| == 0 then []
    else (if HasUpper(keywords[0]) then [] else [keywords[0]]) + WithoutUpper(keywords[1..])
  }

  function DropUpper(table: Table): (r: Table)
    ensures |r| == |table|
    ensures forall i :: 0 <= i < |table| ==> r[i] == (table[i].0, WithoutUpper(table[i].1))
  {
    seq(|table|, i requires 0 <= i < |table| => (table[i].0, WithoutUpper(table[i].1)))
  }

  /** Keywords holding an upper-case letter are tested against lower-cased
      text, so they never match: tagging with them is tagging without them. */
  lemma {:induction false} MatchedIgnoresUpper(table: Table, text: string)
    ensures Matched(table, Lower(text)) == Matched(DropUpper(table), Lower(text))
  {
    var low := Lower(text);
    if |table| > 0 {
      var n := |table| - 1;
      assert DropUpper(table)[..n] == DropUpper(table[..n]);
      MatchedIgnoresUpper(table[..n], text);
      var kws := table[n].1;
      if AnyIn(kws, low) {
        var k :| 0 <= k < |kws| && Contains(low, kws[k]);
        if HasUpper(kws[k]) {
          var j :| 0 <= j < |kws[k]| && IsUpper(kws[k][j]);
          UpperNeverInLower(text, kws[k], j);
        }
        assert kws[k] in WithoutUpper(kws);
      }
      if AnyIn(WithoutUpper(kws), low) {
        var k :| 0 <= k < |WithoutUpper(kws)| && Contains(low, WithoutUpper(kws)[k]);
        assert WithoutUpper(kws)[k] in kws;
      }
    }
  }

  /** Makes a list of a set, in an order the caller cannot rely on: Python's
      `list(s)` follows the set's hash order. */
  method ListOfSet(s: set<string>) returns (r: seq<string>)
    ensures |r| == |s|
    ensures forall x :: x in r <==> x in s
    ensures NoDuplicates(r)
  {
    r := [];
    var rest := s;
    while rest != {}
      invariant rest <= s
      invariant forall x :: x in r <==> x in s - rest
      invariant NoDuplicates(r)
      invariant |r| + |rest| == |s|
      decreases |rest|
    {
      var x :| x in rest;
      r := r + [x];
      rest := rest - {x};
    }
    assert s - rest == s;
  }

  /** The tags of `tags` that appear in `rules` without any of their
      keywords in `lowered`, in tag order (one entry per failing tag). */
  function Failing(tags: seq<string>, rules: Table, lowered: string): seq<string>
  {
    if |tags| == 0 then []
    else
      var t := tags[|tags| - 1];
      Failing(tags[..|tags| - 1], rules, lowered) +
        (match Lookup(rules, t)
         case Some(kws) => if AnyIn(kws, lowered) then [] else [t]
         case None => [])
  }

  predicate FailsCheck(t: string, rules: Table, lowered: string)
  {
    Lookup(rules, t).Some? && !AnyIn(Lookup(rules, t).value, lowered)
  }

  lemma FailingSnoc(tags: seq<string>, t: string, rules: Table, lowered: string)
    ensures Failing(tags + [t], rules, lowered) ==
      Failing(tags, rules, lowered) + (if FailsCheck(t, rules, lowered) then [t] else [])
  {
    assert (tags + [t])[..|tags|] == tags;
  }

  /** A tag fails exactly when the table has it and none of its keywords
      occurs; tags outside the table never fail. */
  lemma {:induction false} FailingSpec(tags: seq<string>, rules: Table, lowered: string)
    ensures forall t :: t in Failing(tags, rules, lowered) <==> t in tags && FailsCheck(t, rules, lowered)
    ensures |Failing(tags, rules, lowered)| <= |tags|
    ensures Failing(tags, rules, lowered) == [] <==> forall i :: 0 <= i < |tags| ==> !FailsCheck(tags[i], rules, lowered)
  {
    if |tags| > 0 {
      var init := tags[..|tags| - 1];
      FailingSpec(init, rules, lowered);
      assert tags == init + [tags[|tags| - 1]];
      if Failing(tags, rules, lowered) == [] {
        forall i | 0 <= i < |tags| ensures !FailsCheck(tags[i], rules, lowered) {
          if i < |init| {
            assert tags[i] == init[i];
          }
        }
      }
    }
  }
}
