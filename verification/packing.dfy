/** The accumulate-and-flush loop the chunker runs twice (over paragraphs
    joined by a blank line, then over sentences joined by a space): pieces
    are appended to a running buffer, and the stripped buffer is emitted
    first whenever it is non-empty and the buffer plus the next piece would
    exceed the size limit. The separator is not counted in that test. */
module Packing {
  import opened Strings

  /** The flush after the loop: the stripped buffer, unless it is blank. */
  function Flush(buffer: string): seq<string>
  {
    if Strip(buffer) != "" then [Strip(buffer)] else []
  }

  /** The chunks emitted for `pieces` when the loop starts with `buffer`. */
  function Pack(pieces: seq<string>, size: int, sep: string, buffer: string): seq<string>
    decreases |pieces|
  {
    if |pieces| == 0 then Flush(buffer)
    else
      var p := pieces[0];
      if |buffer| + |p| > size && buffer != "" then [Strip(buffer)] + Pack(pieces[1..], size, sep, p)
      else Pack(pieces[1..], size, sep, if buffer != "" then buffer + sep + p else p)
  }

  /** One step of the loop: the next piece either flushes the buffer or
      joins it. */
  lemma PackStep(p: string, rest: seq<string>, size: int, sep: string, buffer: string)
    ensures Pack([p] + rest, size, sep, buffer) ==
      if |buffer| + |p| > size && buffer != "" then [Strip(buffer)] + Pack(rest, size, sep, p)
      else Pack(rest, size, sep, if buffer != "" then buffer + sep + p else p)
  {
    assert ([p] + rest)[0] == p && ([p] + rest)[1..] == rest;
  }

  predicate AllTrimmed(xs: seq<string>)
  {
    forall i :: 0 <= i < |xs| ==> Trimmed(xs[i])
  }

  /** The pieces that end up together in one chunk, as lists: the grouping
      Pack makes when its buffer holds the pieces of `group`. */
  function Groups(pieces: seq<string>, size: int, sep: string, group: seq<string>): seq<seq<string>>
    decreases |pieces|
  {
    if |pieces| == 0 then (if |group| == 0 then [] else [group])
    else
      var p := pieces[0];
      if |group| > 0 && |Join(group, sep)| + |p| > size then [group] + Groups(pieces[1..], size, sep, [p])
      else Groups(pieces[1..], size, sep, group + [p])
  }

  function JoinEach(groups: seq<seq<string>>, sep: string): (r: seq<string>)
    ensures |r| == |groups|
    ensures forall i :: 0 <= i < |groups| ==> r[i] == Join(groups[i], sep)
  {
    seq(|groups|, i requires 0 <= i < |groups| => Join(groups[i], sep))
  }

  /** Each piece after the first was added while the buffer plus that piece
      stayed within the limit. */
  predicate Fits(group: seq<string>, size: int, sep: string)
  {
    forall j :: 0 < j < |group| ==> |Join(group[..j], sep)| + |group[j]| <= size
  }

  /** Every group but the last was emitted because the next piece did not fit. */
  predicate Maximal(groups: seq<seq<string>>, size: int, sep: string)
  {
    forall i :: 0 <= i < |groups| - 1 && |groups[i + 1]| > 0 ==>
      |Join(groups[i], sep)| + |groups[i + 1][0]| > size
  }

  lemma {:induction false} JoinTrimmed(group: seq<string>, sep: string)
    requires |group| > 0 && AllTrimmed(group)
    ensures Trimmed(Join(group, sep))
    decreases |group|
  {
    if |group| > 1 {
      JoinTrimmed(group[1..], sep);
      TrimmedGlue(group[0], sep, Join(group[1..], sep));
    }
  }

  /** With stripped pieces, the string buffer is exactly the join of the
      current group, and Pack emits the joins of the groups. */
  lemma {:induction false} PackIsJoinedGroups(pieces: seq<string>, size: int, sep: string, group: seq<string>)
    requires AllTrimmed(pieces) && AllTrimmed(group)
    ensures Pack(pieces, size, sep, Join(group, sep)) == JoinEach(Groups(pieces, size, sep, group), sep)
    decreases |pieces|
  {
    var buffer := Join(group, sep);
    if |group| > 0 {
      JoinTrimmed(group, sep);
      StripTrimmed(buffer);
    }
    if |pieces| > 0 {
      var p := pieces[0];
      var rest := pieces[1..];
      assert AllTrimmed(rest);
      assert buffer != "" <==> |group| > 0 by {
        if |group| > 0 {
          JoinTrimmed(group, sep);
        }
      }
      if |buffer| + |p| > size && buffer != "" {
        var gs := Groups(rest, size, sep, [p]);
        assert Pack(pieces, size, sep, buffer) == [Strip(buffer)] + Pack(rest, size, sep, p);
        assert Groups(pieces, size, sep, group) == [group] + gs;
        assert Join([p], sep) == p;
        PackIsJoinedGroups(rest, size, sep, [p]);
        assert JoinEach([group] + gs, sep) == [buffer] + JoinEach(gs, sep);
      } else {
        assert Groups(pieces, size, sep, group) == Groups(rest, size, sep, group + [p]);
        assert AllTrimmed(group + [p]);
        if |group| > 0 {
          JoinAppend(group, p, sep);
        } else {
          assert group + [p] == [p];
        }
        assert Pack(pieces, size, sep, buffer) == Pack(rest, size, sep, Join(group + [p], sep));
        PackIsJoinedGroups(rest, size, sep, group + [p]);
      }
    }
  }

  /** The flush step: a non-empty group emitted before groups that start
      with the piece that did not fit keeps the shape. */
  lemma GroupsFlushShape(group: seq<string>, p: string, tail: seq<seq<string>>, size: int, sep: string)
    requires |group| > 0 && Fits(group, size, sep) && |Join(group, sep)| + |p| > size
    requires |tail| > 0 && [p] <= tail[0]
    requires forall i :: 0 <= i < |tail| ==> |tail[i]| > 0 && Fits(tail[i], size, sep)
    requires Maximal(tail, size, sep)
    ensures var gs := [group] + tail;
      && Flatten(gs) == group + Flatten(tail)
      && (forall i :: 0 <= i < |gs| ==> |gs[i]| > 0 && Fits(gs[i], size, sep))
      && Maximal(gs, size, sep)
  {
    var gs := [group] + tail;
    assert gs[1..] == tail;
    forall i | 0 <= i < |gs| - 1 && |gs[i + 1]| > 0
      ensures |Join(gs[i], sep)| + |gs[i + 1][0]| > size
    {
      if i > 0 {
        assert gs[i] == tail[i - 1] && gs[i + 1] == tail[i];
      } else {
        assert gs[1][0] == p;
      }
    }
    forall i | 0 <= i < |gs| ensures |gs[i]| > 0 && Fits(gs[i], size, sep) {
      if i > 0 {
        assert gs[i] == tail[i - 1];
      }
    }
  }

  /** A piece that fits extends the group and keeps it fitting. */
  lemma FitsAppend(group: seq<string>, p: string, size: int, sep: string)
    requires Fits(group, size, sep)
    requires |group| > 0 ==> |Join(group, sep)| + |p| <= size
    ensures Fits(group + [p], size, sep)
  {
    forall j | 0 < j < |group + [p]|
      ensures |Join((group + [p])[..j], sep)| + |(group + [p])[j]| <= size
    {
      if j < |group| {
        assert (group + [p])[..j] == group[..j];
      } else {
        assert (group + [p])[..j] == group;
      }
    }
  }

  lemma {:induction false} GroupsShape(pieces: seq<string>, size: int, sep: string, group: seq<string>)
    requires Fits(group, size, sep)
    ensures Flatten(Groups(pieces, size, sep, group)) == group + pieces
    ensures forall i :: 0 <= i < |Groups(pieces, size, sep, group)| ==>
      |Groups(pieces, size, sep, group)[i]| > 0 && Fits(Groups(pieces, size, sep, group)[i], size, sep)
    ensures Maximal(Groups(pieces, size, sep, group), size, sep)
    ensures |group| > 0 ==> |Groups(pieces, size, sep, group)| > 0 && group <= Groups(pieces, size, sep, group)[0]
    decreases |pieces|
  {
    var gs := Groups(pieces, size, sep, group);
    if |pieces| == 0 {
      if |group| > 0 {
        assert Flatten([group]) == group + Flatten([group][1..]);
      }
    } else {
      var p := pieces[0];
      var rest := pieces[1..];
      assert pieces == [p] + rest;
      if |group| > 0 && |Join(group, sep)| + |p| > size {
        var tail := Groups(rest, size, sep, [p]);
        assert gs == [group] + tail;
        GroupsShape(rest, size, sep, [p]);
        GroupsFlushShape(group, p, tail, size, sep);
      } else {
        FitsAppend(group, p, size, sep);
        assert gs == Groups(rest, size, sep, group + [p]);
        GroupsShape(rest, size, sep, group + [p]);
        assert group + [p] + rest == group + pieces;
        if |group| > 0 {
          assert group <= group + [p];
        }
      }
    }
  }

  lemma {:induction false} JoinFlatten(groups: seq<seq<string>>, sep: string)
    requires forall i :: 0 <= i < |groups| ==> |groups[i]| > 0
    ensures Join(JoinEach(groups, sep), sep) == Join(Flatten(groups), sep)
    decreases |groups|
  {
    if |groups| > 1 {
      var rest := groups[1..];
      JoinFlatten(rest, sep);
      assert JoinEach(groups, sep) == [Join(groups[0], sep)] + JoinEach(rest, sep);
      JoinCons(Join(groups[0], sep), JoinEach(rest, sep), sep);
      FlattenNonEmpty(rest);
      JoinConcat(groups[0], Flatten(rest), sep);
    } else if |groups| == 1 {
      assert groups[1..] == [];
      assert Flatten(groups[1..]) == [];
      assert Flatten(groups) == groups[0] + Flatten(groups[1..]);
      assert Flatten(groups) == groups[0];
      assert JoinEach(groups, sep) == [Join(groups[0], sep)];
    }
  }

  lemma {:induction false} FlattenNonEmpty(groups: seq<seq<string>>)
    requires |groups| > 0 && |groups[0]| > 0
    ensures |Flatten(groups)| > 0
  {
  }

  /** A group of two or more pieces joins to at most size + |sep| characters. */
  lemma {:induction false} FitsBound(group: seq<string>, size: int, sep: string)
    requires |group| > 1 && Fits(group, size, sep)
    ensures |Join(group, sep)| <= size + |sep|
  {
    var n := |group|;
    assert group == group[..n - 1] + [group[n - 1]];
    JoinAppend(group[..n - 1], group[n - 1], sep);
  }

  /** What the loop promises, starting from an empty buffer over stripped
      pieces: the chunks are the joins of a partition of the pieces into
      consecutive non-empty groups, each grown only while it fit and each
      closed only when the next piece did not fit; so every piece appears
      once and in order, every chunk is stripped, and a chunk longer than
      size + |sep| is a single piece. */
  lemma PackSpec(pieces: seq<string>, size: int, sep: string)
    requires AllTrimmed(pieces)
    ensures exists groups :: (Pack(pieces, size, sep, "") == JoinEach(groups, sep) &&
      Flatten(groups) == pieces && Maximal(groups, size, sep) &&
      forall i :: 0 <= i < |groups| ==> |groups[i]| > 0 && Fits(groups[i], size, sep))
    ensures AllTrimmed(Pack(pieces, size, sep, ""))
    ensures Join(Pack(pieces, size, sep, ""), sep) == Join(pieces, sep)
    ensures forall c :: c in Pack(pieces, size, sep, "") ==> |c| <= size + |sep| || c in pieces
    ensures |Pack(pieces, size, sep, "")| == 0 <==> |pieces| == 0
  {
    var groups := Groups(pieces, size, sep, []);
    assert Join([], sep) == "";
    PackIsJoinedGroups(pieces, size, sep, []);
    GroupsShape(pieces, size, sep, []);
    assert Flatten(groups) == pieces;
    var out := Pack(pieces, size, sep, "");
    JoinFlatten(groups, sep);
    forall i | 0 <= i < |out| ensures Trimmed(out[i]) && (|out[i]| <= size + |sep| || out[i] in pieces) {
      var g := groups[i];
      assert AllTrimmed(g) by {
        forall j | 0 <= j < |g| ensures Trimmed(g[j]) {
          FlattenMember(groups, i, j);
        }
      }
      JoinTrimmed(g, sep);
      if |g| > 1 {
        FitsBound(g, size, sep);
      } else {
        FlattenMember(groups, i, 0);
      }
    }
    if |pieces| > 0 {
      assert |groups| > 0;
    }
  }

  lemma {:induction false} FlattenMember<T>(groups: seq<seq<T>>, i: nat, j: nat)
    requires i < |groups| && j < |groups[i]|
    ensures groups[i][j] in Flatten(groups)
    decreases i
  {
    if i > 0 {
      FlattenMember(groups[1..], i - 1, j);
    }
  }
}
