/** The regular expressions and `str.split` calls of the pipeline, written out
    over characters. `Split(p, s)` is Python's `re.split(p, s)` (or
    `s.split(sep)` for a `Literal`): the text is scanned left to right, each
    leftmost non-empty match cuts the text, and the pieces between matches
    (possibly empty) are returned in order. None of these patterns has a
    capturing group, so no group text is interleaved with the pieces. */
module Regex {
  import opened Wrappers
  import opened Strings

  const BeginPrefix := "===== BEGIN FILE:"
  const EndPrefix := "===== END FILE:"
  const Closing := "====="

  datatype Pattern =
    | FilePrefix          // ===== (?:BEGIN|END) FILE:
    | FileLine            // ===== (?:BEGIN|END) FILE:.*?=====
    | SentenceBreak       // (?<=[.!?])\s+
    | Literal(sep: string) // the separator of str.split(sep)

  predicate IsTerminal(c: char)
  {
    c == '.' || c == '!' || c == '?'
  }

  /** Length of a `===== BEGIN FILE:` or `===== END FILE:` starting at i, or 0. */
  function PrefixLen(s: string, i: nat): (n: nat)
    requires i <= |s|
    ensures i + n <= |s|
    ensures n > 0 ==> n == |BeginPrefix| || n == |EndPrefix|
  {
    if BeginPrefix <= s[i..] then |BeginPrefix|
    else if EndPrefix <= s[i..] then |EndPrefix|
    else 0
  }

  /** The lazy `.*?=====`: the end of the first `=====` at or after j that
      is reached without crossing a newline (`.` does not match `\n`). */
  function CloseFrom(s: string, j: nat): (e: Option<nat>)
    requires j <= |s|
    ensures e.Some? ==> j + |Closing| <= e.value <= |s|
    decreases |s| - j
  {
    if Closing <= s[j..] then Some(j + |Closing|)
    else if j < |s| && s[j] != '\n' then CloseFrom(s, j + 1)
    else None
  }

  /** Length of the match of p that starts at position i of s (0: no match). */
  function MatchAt(p: Pattern, s: string, i: nat): (n: nat)
    requires i <= |s|
    ensures i + n <= |s|
  {
    match p
    case FilePrefix => PrefixLen(s, i)
    case FileLine =>
      var k := PrefixLen(s, i);
      if k == 0 then 0
      else (match CloseFrom(s, i + k)
            case Some(e) => e - i
            case None => 0)
    case SentenceBreak =>
      if 0 < i < |s| && IsTerminal(s[i - 1]) && IsSpace(s[i]) then SkipSpaces(s, i) - i else 0
    case Literal(sep) =>
      if |sep| > 0 && sep <= s[i..] then |sep| else 0
  }

  /** Scanning state: the current piece started at `start`; position i is next. */
  function SplitFrom(p: Pattern, s: string, start: nat, i: nat): (r: seq<string>)
    requires start <= i <= |s|
    ensures |r| >= 1
    decreases |s| - i
  {
    if i == |s| then [s[start..]]
    else
      var n := MatchAt(p, s, i);
      if n > 0 then [s[start..i]] + SplitFrom(p, s, i + n, i + n)
      else SplitFrom(p, s, start, i + 1)
  }

  function Split(p: Pattern, s: string): (r: seq<string>)
    ensures |r| >= 1
  {
    SplitFrom(p, s, 0, 0)
  }

  predicate NoMatchFrom(p: Pattern, s: string, i: nat)
    requires i <= |s|
  {
    forall k :: i <= k < |s| ==> MatchAt(p, s, k) == 0
  }

  /** Where nothing matches, the rest of the text is one piece. */
  lemma {:induction false} SplitNoMatch(p: Pattern, s: string, start: nat, i: nat)
    requires start <= i <= |s|
    requires NoMatchFrom(p, s, i)
    ensures SplitFrom(p, s, start, i) == [s[start..]]
    decreases |s| - i
  {
    if i < |s| {
      SplitNoMatch(p, s, start, i + 1);
    }
  }

  /** Positions where nothing matches are passed over. */
  lemma {:induction false} SplitSkip(p: Pattern, s: string, start: nat, i: nat, j: nat)
    requires start <= i <= j <= |s|
    requires forall k :: i <= k < j ==> MatchAt(p, s, k) == 0
    ensures SplitFrom(p, s, start, i) == SplitFrom(p, s, start, j)
    decreases j - i
  {
    if i < j {
      SplitSkip(p, s, start, i + 1, j);
    }
  }

  /** A marker found past the first one puts its "FILE:" inside `name`. */
  lemma MarkerNamesFile(s: string, k: nat, marker: string, name: string, at: nat)
    requires s == BeginPrefix + name && |BeginPrefix| <= k <= |s|
    requires marker <= s[k..] && at + 5 == |marker| && marker[at..] == "FILE:"
    ensures Contains(name, "FILE:")
  {
    var i := k - |BeginPrefix| + at;
    forall j | 0 <= j < 5 ensures name[i + j] == "FILE:"[j] {
      assert s[k..][at + j] == marker[at + j];
    }
    assert "FILE:" <= name[i..];
  }

  /** The file-marker split removes only `===== BEGIN FILE:`: whatever
      follows it, the file name and the closing `=====` included, is the
      text of the next piece, provided it holds no further marker (no
      "FILE:"). */
  lemma MarkerSplitKeepsName(name: string)
    requires !Contains(name, "FILE:")
    ensures Split(FilePrefix, BeginPrefix + name) == ["", name]
  {
    var s := BeginPrefix + name;
    var b := |BeginPrefix|;
    assert s[0..] == s && BeginPrefix <= s;
    assert MatchAt(FilePrefix, s, 0) == b;
    forall k | b <= k < |s| ensures MatchAt(FilePrefix, s, k) == 0 {
      if BeginPrefix <= s[k..] {
        MarkerNamesFile(s, k, BeginPrefix, name, 12);
      } else if EndPrefix <= s[k..] {
        MarkerNamesFile(s, k, EndPrefix, name, 10);
      }
    }
    SplitNoMatch(FilePrefix, s, b, b);
    assert s[0..0] == "" && s[b..] == name;
  }

  /** A file marker line as the merge writes it: the prefix, a space, the
      file name, a space and the closing `=====`. */
  function MarkerLine(prefix: string, name: string): string
  {
    prefix + " " + name + " " + Closing
  }

  /** Either marker prefix is recognised at the start of its line. */
  lemma MarkerLinePrefix(prefix: string, name: string, rest: string)
    requires prefix == BeginPrefix || prefix == EndPrefix
    ensures PrefixLen(MarkerLine(prefix, name) + rest, 0) == |prefix|
  {
    var s := MarkerLine(prefix, name) + rest;
    assert s[0..] == s;
    assert s[..|prefix|] == prefix;
    if prefix == EndPrefix {
      assert s[6] == 'E' && BeginPrefix[6] == 'B';
    }
  }

  /** Positions holding neither `=====` nor a newline are passed over by
      the lazy scan. */
  lemma {:induction false} CloseSkip(s: string, j: nat, e: nat)
    requires j <= e <= |s|
    requires forall k :: j <= k < e ==> !(Closing <= s[k..]) && s[k] != '\n'
    ensures CloseFrom(s, j) == CloseFrom(s, e)
    decreases e - j
  {
    if j < e {
      CloseSkip(s, j + 1, e);
    }
  }

  /** A `=====` that starts inside the name of a marker line lies wholly
      inside the name, since a space follows the name. */
  lemma ClosingInName(prefix: string, name: string, rest: string, k: nat)
    requires |prefix| < k < |prefix| + 1 + |name|
    requires Closing <= (MarkerLine(prefix, name) + rest)[k..]
    ensures Contains(name, Closing)
  {
    var s := MarkerLine(prefix, name) + rest;
    var sp := |prefix| + 1 + |name|;
    var t := k - |prefix| - 1;
    assert forall i :: 0 <= i < 5 ==> s[k + i] == s[k..][i] == '=';
    assert s[sp] == ' ';
    assert k + 5 <= sp;
    assert name[t..t + 5] == Closing by {
      forall i | 0 <= i < 5 ensures name[t..t + 5][i] == Closing[i] {
        assert name[t + i] == s[k + i];
      }
    }
    assert Closing <= name[t..];
  }

  /** Inside a marker line, up to its closing `=====`, no position starts
      a `=====` and none holds a newline. */
  lemma MarkerLineOpen(prefix: string, name: string, rest: string, k: nat)
    requires !Contains(name, Closing) && '\n' !in name
    requires |prefix| <= k <= |prefix| + 1 + |name|
    ensures var s := MarkerLine(prefix, name) + rest;
      !(Closing <= s[k..]) && s[k] != '\n'
  {
    var s := MarkerLine(prefix, name) + rest;
    var sp := |prefix| + 1 + |name|;
    if k == |prefix| || k == sp {
      assert s[k] == ' ';
      assert s[k..][0] == ' ';
    } else {
      assert s[k] == name[k - |prefix| - 1];
      if Closing <= s[k..] {
        ClosingInName(prefix, name, rest, k);
      }
    }
  }

  /** The closing `=====` of a marker line follows the space after its name. */
  lemma MarkerLineEnd(prefix: string, name: string, rest: string)
    ensures var s := MarkerLine(prefix, name) + rest;
      CloseFrom(s, |prefix| + 2 + |name|) == Some(|MarkerLine(prefix, name)|)
  {
    var s := MarkerLine(prefix, name) + rest;
    var sp := |prefix| + 1 + |name|;
    assert s[sp + 1..][..5] == Closing;
  }

  lemma MarkerLineOpenAll(prefix: string, name: string, rest: string)
    requires !Contains(name, Closing) && '\n' !in name
    ensures var s := MarkerLine(prefix, name) + rest;
      forall k :: |prefix| <= k < |prefix| + 2 + |name| ==> !(Closing <= s[k..]) && s[k] != '\n'
  {
    var s := MarkerLine(prefix, name) + rest;
    forall k | |prefix| <= k < |prefix| + 2 + |name| ensures !(Closing <= s[k..]) && s[k] != '\n' {
      MarkerLineOpen(prefix, name, rest, k);
    }
  }

  /** The lazy scan passes over the name and the spaces around it. */
  lemma MarkerLineSkip(prefix: string, name: string, rest: string)
    requires !Contains(name, Closing) && '\n' !in name
    ensures var s := MarkerLine(prefix, name) + rest;
      CloseFrom(s, |prefix|) == CloseFrom(s, |prefix| + 2 + |name|)
  {
    MarkerLineOpenAll(prefix, name, rest);
    CloseSkip(MarkerLine(prefix, name) + rest, |prefix|, |prefix| + 2 + |name|);
  }

  /** The lazy `.*?=====` after a marker prefix stops at the end of its
      line's closing `=====`. */
  lemma MarkerLineClose(prefix: string, name: string, rest: string)
    requires !Contains(name, Closing) && '\n' !in name
    ensures CloseFrom(MarkerLine(prefix, name) + rest, |prefix|) == Some(|MarkerLine(prefix, name)|)
  {
    MarkerLineSkip(prefix, name, rest);
    MarkerLineEnd(prefix, name, rest);
  }

  /** The lazy scan does not look behind its start. */
  lemma {:induction false} CloseFromShift(a: string, b: string, j: nat)
    requires j <= |b|
    ensures CloseFrom(a + b, |a| + j) ==
      match CloseFrom(b, j) case Some(e) => Some(|a| + e) case None => None
    decreases |b| - j
  {
    var s := a + b;
    assert s[|a| + j..] == b[j..];
    if !(Closing <= b[j..]) && j < |b| && b[j] != '\n' {
      CloseFromShift(a, b, j + 1);
    }
  }

  /** A marker-line match depends only on the text from its start. */
  lemma FileLineShift(a: string, b: string, i: nat)
    requires i <= |b|
    ensures MatchAt(FileLine, a + b, |a| + i) == MatchAt(FileLine, b, i)
  {
    var s := a + b;
    assert s[|a| + i..] == b[i..];
    var k := PrefixLen(b, i);
    if k > 0 {
      CloseFromShift(a, b, i + k);
    }
  }

  /** A whole BEGIN or END line is one match of the marker-line pattern,
      for any name holding no `=====` and no newline. */
  lemma MarkerLineMatch(prefix: string, name: string, rest: string)
    requires prefix == BeginPrefix || prefix == EndPrefix
    requires !Contains(name, Closing) && '\n' !in name
    ensures MatchAt(FileLine, MarkerLine(prefix, name) + rest, 0) == |MarkerLine(prefix, name)|
  {
    MarkerLinePrefix(prefix, name, rest);
    MarkerLineClose(prefix, name, rest);
  }

  /** Where a marker line starts in t, the pattern matches it whole. */
  lemma MarkerLineAt(t: string, q: nat, prefix: string, name: string)
    requires q <= |t|
    requires prefix == BeginPrefix || prefix == EndPrefix
    requires !Contains(name, Closing) && '\n' !in name
    ensures MarkerLine(prefix, name) <= t[q..] ==> MatchAt(FileLine, t, q) == |MarkerLine(prefix, name)|
  {
    var m := MarkerLine(prefix, name);
    if m <= t[q..] {
      var rest := t[q + |m|..];
      assert t[q..] == m + rest;
      MarkerLineMatch(prefix, name, rest);
      assert t == t[..q] + t[q..];
      FileLineShift(t[..q], t[q..], 0);
    }
  }

  /** A `=====` window lying wholly inside a slice is seen alike in the
      slice and in the whole text. */
  lemma ClosingWindow(s: string, a: nat, b: nat, j: nat)
    requires a <= b <= |s| && j + |Closing| <= b - a
    ensures (Closing <= s[a..b][j..]) == (Closing <= s[a + j..])
  {
    var t := s[a..b];
    forall x | 0 <= x < |Closing| ensures t[j..][x] == s[a + j..][x] {
      assert t[j..][x] == t[j + x] == s[a + j + x];
    }
  }

  /** A closing `=====` that the lazy scan finds inside a slice is the one
      it finds in the whole text: every window it passes over lies inside
      the slice. */
  lemma {:induction false} CloseFromSlice(s: string, a: nat, b: nat, j: nat)
    requires a <= b <= |s| && j <= b - a
    ensures CloseFrom(s[a..b], j).Some? ==> CloseFrom(s, a + j) == Some(a + CloseFrom(s[a..b], j).value)
    decreases b - a - j
  {
    var t := s[a..b];
    if CloseFrom(t, j).Some? {
      if Closing <= t[j..] {
        assert s[a + j..][..|Closing|] == t[j..][..|Closing|];
      } else {
        var e := CloseFrom(t, j + 1).value;
        assert j + 1 + |Closing| <= e <= |t|;
        CloseFromSlice(s, a, b, j + 1);
        ClosingWindow(s, a, b, j);
        assert s[a + j] == t[j];
      }
    }
  }

  /** A marker prefix found inside a slice is found in the whole text. */
  lemma PrefixInSlice(s: string, a: nat, b: nat, q: nat)
    requires a <= b <= |s| && q <= b - a
    ensures PrefixLen(s[a..b], q) > 0 ==> PrefixLen(s, a + q) == PrefixLen(s[a..b], q)
  {
    var t := s[a..b];
    if PrefixLen(t, q) > 0 {
      assert t[q..] <= s[a + q..];
      if !(BeginPrefix <= t[q..]) {
        assert t[q..][6] == EndPrefix[6] == 'E' && BeginPrefix[6] == 'B';
        assert s[a + q..][6] == 'E';
      }
    }
  }

  /** A marker-line match inside a slice is a match of the same length at
      the same place in the whole text. */
  lemma FileLineInSlice(s: string, a: nat, b: nat, q: nat)
    requires a <= b <= |s| && q <= b - a
    ensures MatchAt(FileLine, s[a..b], q) > 0 ==> MatchAt(FileLine, s, a + q) == MatchAt(FileLine, s[a..b], q)
  {
    var k := PrefixLen(s[a..b], q);
    if k > 0 {
      PrefixInSlice(s, a, b, q);
      CloseFromSlice(s, a, b, q + k);
    }
  }

  /** Text in which the marker-line pattern matches nowhere. */
  predicate MarkerFree(t: string)
  {
    forall q :: 0 <= q < |t| ==> MatchAt(FileLine, t, q) == 0
  }

  /** A stretch of the text where no match starts is free of matches. */
  lemma PieceMarkerFree(s: string, start: nat, i: nat)
    requires start <= i <= |s|
    requires NoMatchIn(FileLine, s, start, i)
    ensures MarkerFree(s[start..i])
  {
    forall q | 0 <= q < i - start ensures MatchAt(FileLine, s[start..i], q) == 0 {
      FileLineInSlice(s, start, i, q);
    }
  }

  /** A piece cut from s at positions where no match of p starts. */
  predicate QuietPiece(p: Pattern, s: string, piece: string)
  {
    exists a, b :: 0 <= a <= b <= |s| && piece == s[a..b] && NoMatchIn(p, s, a, b)
  }

  predicate NoMatchIn(p: Pattern, s: string, a: nat, b: nat)
    requires b <= |s|
  {
    forall k :: a <= k < b ==> MatchAt(p, s, k) == 0
  }

  lemma NoMatchExtend(p: Pattern, s: string, a: nat, b: nat)
    requires b < |s| && NoMatchIn(p, s, a, b) && MatchAt(p, s, b) == 0
    ensures NoMatchIn(p, s, a, b + 1)
  {
  }

  lemma QuietSlice(p: Pattern, s: string, a: nat, b: nat)
    requires a <= b <= |s| && NoMatchIn(p, s, a, b)
    ensures QuietPiece(p, s, s[a..b])
  {
  }

  predicate AllQuiet(p: Pattern, s: string, pieces: seq<string>)
  {
    forall piece :: piece in pieces ==> QuietPiece(p, s, piece)
  }

  lemma QuietCons(p: Pattern, s: string, x: string, rest: seq<string>)
    requires QuietPiece(p, s, x) && AllQuiet(p, s, rest)
    ensures AllQuiet(p, s, [x] + rest)
  {
  }

  lemma SplitFromEnd(p: Pattern, s: string, start: nat)
    requires start <= |s|
    ensures SplitFrom(p, s, start, |s|) == [s[start..]]
  {
  }

  /** A match at i closes the current piece and starts the next after it. */
  lemma SplitFromCut(p: Pattern, s: string, start: nat, i: nat)
    requires start <= i < |s| && MatchAt(p, s, i) > 0
    ensures SplitFrom(p, s, start, i)
            == [s[start..i]] + SplitFrom(p, s, i + MatchAt(p, s, i), i + MatchAt(p, s, i))
  {
  }

  lemma QuietAtEnd(p: Pattern, s: string, start: nat)
    requires start <= |s| && NoMatchIn(p, s, start, |s|)
    ensures AllQuiet(p, s, SplitFrom(p, s, start, |s|))
  {
    QuietSlice(p, s, start, |s|);
    assert s[start..|s|] == s[start..];
    QuietCons(p, s, s[start..], []);
    SplitFromEnd(p, s, start);
    assert [s[start..]] + [] == [s[start..]];
  }

  lemma {:induction false} QuietAtCut(p: Pattern, s: string, start: nat, i: nat)
    requires start <= i < |s| && MatchAt(p, s, i) > 0
    requires NoMatchIn(p, s, start, i)
    ensures AllQuiet(p, s, SplitFrom(p, s, start, i))
    decreases |s| - i, 0
  {
    SplitFromQuiet(p, s, i + MatchAt(p, s, i), i + MatchAt(p, s, i));
    QuietSlice(p, s, start, i);
    QuietCons(p, s, s[start..i], SplitFrom(p, s, i + MatchAt(p, s, i), i + MatchAt(p, s, i)));
    SplitFromCut(p, s, start, i);
  }

  /** A position where nothing matches is passed over. */
  lemma SplitFromPass(p: Pattern, s: string, start: nat, i: nat)
    requires start <= i < |s| && MatchAt(p, s, i) == 0
    ensures SplitFrom(p, s, start, i) == SplitFrom(p, s, start, i + 1)
  {
  }

  /** Every piece of a split is cut from the text where no match starts. */
  lemma {:induction false} SplitFromQuiet(p: Pattern, s: string, start: nat, i: nat)
    requires start <= i <= |s|
    requires NoMatchIn(p, s, start, i)
    ensures AllQuiet(p, s, SplitFrom(p, s, start, i))
    decreases |s| - i, 1
  {
    if i == |s| {
      QuietAtEnd(p, s, start);
    } else if MatchAt(p, s, i) > 0 {
      QuietAtCut(p, s, start, i);
    } else {
      NoMatchExtend(p, s, start, i);
      SplitFromQuiet(p, s, start, i + 1);
      SplitFromPass(p, s, start, i);
    }
  }

  /** The marker-line split removes every BEGIN and END line whole, file
      name and closing `=====` included: no piece holds one, for any name
      without `=====` and without a newline. */
  lemma FileLineSplitDropsName(s: string, piece: string, prefix: string, name: string)
    requires piece in Split(FileLine, s)
    requires prefix == BeginPrefix || prefix == EndPrefix
    requires !Contains(name, Closing) && '\n' !in name
    ensures !Contains(piece, MarkerLine(prefix, name))
  {
    SplitFromQuiet(FileLine, s, 0, 0);
    assert piece in Split(FileLine, s);
    var a, b :| 0 <= a <= b <= |s| && piece == s[a..b] && NoMatchIn(FileLine, s, a, b);
    PieceMarkerFree(s, a, b);
    var m := MarkerLine(prefix, name);
    forall q | 0 <= q <= |piece| - |m| ensures !(m <= piece[q..]) {
      MarkerLineAt(piece, q, prefix, name);
    }
  }

  /** `sep.join(s.split(sep)) == s`. */
  lemma {:induction false} JoinSplitFrom(sep: string, s: string, start: nat, i: nat)
    requires |sep| > 0
    requires start <= i <= |s|
    ensures Join(SplitFrom(Literal(sep), s, start, i), sep) == s[start..]
    decreases |s| - i
  {
    if i < |s| {
      var n := MatchAt(Literal(sep), s, i);
      if n > 0 {
        var rest := SplitFrom(Literal(sep), s, i + n, i + n);
        assert SplitFrom(Literal(sep), s, start, i) == [s[start..i]] + rest;
        JoinSplitFrom(sep, s, i + n, i + n);
        JoinCons(s[start..i], rest, sep);
        assert s[i..i + n] == sep;
        assert s[start..] == s[start..i] + s[i..i + n] + s[i + n..];
      } else {
        assert SplitFrom(Literal(sep), s, start, i) == SplitFrom(Literal(sep), s, start, i + 1);
        JoinSplitFrom(sep, s, start, i + 1);
      }
    }
  }

  lemma JoinSplit(sep: string, s: string)
    requires |sep| > 0
    ensures Join(Split(Literal(sep), s), sep) == s
  {
    JoinSplitFrom(sep, s, 0, 0);
  }

  /** Python's `s.replace(target, with)`: every leftmost non-overlapping
      occurrence of `target` is replaced. */
  function Replace(s: string, target: string, with: string): string
    requires |target| > 0
  {
    Join(Split(Literal(target), s), with)
  }

  /** A text without `target` is left as it is. */
  lemma ReplaceAbsent(s: string, target: string, with: string)
    requires |target| > 0 && !Contains(s, target)
    ensures Replace(s, target, with) == s
  {
    forall k | 0 <= k < |s| ensures MatchAt(Literal(target), s, k) == 0 {
      assert target <= s[k..] ==> k <= |s| - |target| && Contains(s, target);
    }
    SplitNoMatch(Literal(target), s, 0, 0);
    assert s[0..] == s;
  }

  /** A stretch where `sep` starts nowhere does not contain `sep`. */
  lemma QuietLacksSep(sep: string, s: string, a: nat, b: nat)
    requires |sep| > 0 && a <= b <= |s|
    requires NoMatchIn(Literal(sep), s, a, b)
    ensures !Contains(s[a..b], sep)
  {
    var piece := s[a..b];
    forall j | 0 <= j <= |piece| - |sep|
      ensures !(sep <= piece[j..])
    {
      assert MatchAt(Literal(sep), s, a + j) == 0;
      assert piece[j..] <= s[a + j..];
    }
  }

  /** No piece of `s.split(sep)` contains `sep`. */
  lemma SplitPiecesLackSep(sep: string, s: string)
    requires |sep| > 0
    ensures forall piece :: piece in Split(Literal(sep), s) ==> !Contains(piece, sep)
  {
    SplitFromQuiet(Literal(sep), s, 0, 0);
    forall piece | piece in Split(Literal(sep), s) ensures !Contains(piece, sep) {
      var a, b :| 0 <= a <= b <= |s| && piece == s[a..b] && NoMatchIn(Literal(sep), s, a, b);
      QuietLacksSep(sep, s, a, b);
    }
  }

  /** A stretch of text holding no sentence break: `.`, `!` or `?` followed
      by whitespace. */
  predicate NoBreak(c: string)
  {
    forall k :: 0 < k < |c| ==> !(IsTerminal(c[k - 1]) && IsSpace(c[k]))
  }

  function Sentences(s: string): (r: seq<string>)
    ensures |r| >= 1
  {
    Split(SentenceBreak, s)
  }

  lemma {:induction false} SentencesFromTrimmed(s: string, start: nat, i: nat)
    requires Trimmed(s)
    requires start <= i <= |s| && start < |s|
    requires !IsSpace(s[start])
    requires forall k :: start < k < i ==> MatchAt(SentenceBreak, s, k) == 0
    ensures forall c :: c in SplitFrom(SentenceBreak, s, start, i) ==> Trimmed(c) && NoBreak(c)
    decreases |s| - i
  {
    var p := SentenceBreak;
    if i == |s| || MatchAt(p, s, i) > 0 {
      var piece := s[start..i];
      assert i > start by {
        if i < |s| {
          assert IsSpace(s[i]);
        }
      }
      assert Trimmed(piece) by {
        if i < |s| {
          assert IsTerminal(s[i - 1]);
        }
      }
      forall k | 0 < k < |piece|
        ensures !(IsTerminal(piece[k - 1]) && IsSpace(piece[k]))
      {
        assert MatchAt(p, s, start + k) == 0;
      }
      if i < |s| {
        var j := i + MatchAt(p, s, i);
        assert j == SkipSpaces(s, i);
        assert j < |s|;
        SentencesFromTrimmed(s, j, j);
      }
    } else {
      SentencesFromTrimmed(s, start, i + 1);
    }
  }

  /** Re-splitting a stripped text after `.`, `!` or `?` plus whitespace gives
      non-empty stripped sentences, none of which holds a further break. */
  lemma SentencesTrimmed(s: string)
    requires Trimmed(s)
    ensures forall c :: c in Sentences(s) ==> Trimmed(c) && NoBreak(c)
  {
    SentencesFromTrimmed(s, 0, 0);
  }
}
