/** The string operations the pipeline relies on, restricted to ASCII:
    `str.lower()` folds only 'A'..'Z', and `str.strip()` removes only the
    ASCII characters Python counts as whitespace (codes 9-13, 28-31, 32).
    Strings are sequences of characters. */
module Strings {

  /** Python's `str.isspace()` restricted to ASCII. */
  predicate IsSpace(c: char)
  {
    (9 <= c as int <= 13) || (28 <= c as int <= 32)
  }

  predicate IsUpper(c: char)
  {
    'A' <= c <= 'Z'
  }

  predicate IsDigit(c: char)
  {
    '0' <= c <= '9'
  }

  function LowerChar(c: char): (r: char)
    ensures !IsUpper(r)
    ensures !IsUpper(c) ==> r == c
  {
    if IsUpper(c) then (c as int + 32) as char else c
  }

  /** `s.lower()` on ASCII text. */
  function Lower(s: string): (r: string)
    ensures |r| == |s|
    ensures forall i :: 0 <= i < |s| ==> r[i] == LowerChar(s[i])
  {
    seq(|s|, i requires 0 <= i < |s| => LowerChar(s[i]))
  }

  /** `sub in s`: Python's substring test (the empty string occurs everywhere). */
  predicate Contains(s: string, sub: string)
  {
    exists i :: 0 <= i <= |s| - |sub| && sub <= s[i..]
  }

  predicate EndsWith(s: string, suffix: string)
  {
    |suffix| <= |s| && s[|s| - |suffix|..] == suffix
  }

  /** A non-empty string that neither starts nor ends with whitespace:
      exactly the strings that `strip()` leaves unchanged and non-empty. */
  predicate Trimmed(s: string)
  {
    |s| > 0 && !IsSpace(s[0]) && !IsSpace(s[|s| - 1])
  }

  predicate Blank(s: string)
  {
    forall i :: 0 <= i < |s| ==> IsSpace(s[i])
  }

  /** Index of the first non-whitespace character at or after i. */
  function SkipSpaces(s: string, i: nat): (k: nat)
    requires i <= |s|
    ensures i <= k <= |s|
    ensures forall j :: i <= j < k ==> IsSpace(s[j])
    ensures k < |s| ==> !IsSpace(s[k])
    decreases |s| - i
  {
    if i < |s| && IsSpace(s[i]) then SkipSpaces(s, i + 1) else i
  }

  /** End of the text before the whitespace that ends s[..j]. */
  function BackSpaces(s: string, j: nat): (k: nat)
    requires j <= |s|
    ensures k <= j
    ensures forall m :: k <= m < j ==> IsSpace(s[m])
    ensures k > 0 ==> !IsSpace(s[k - 1])
  {
    if j > 0 && IsSpace(s[j - 1]) then BackSpaces(s, j - 1) else j
  }

  /** `s.strip()`. */
  function Strip(s: string): (r: string)
    ensures r != "" ==> Trimmed(r)
    ensures |r| <= |s|
  {
    var a := SkipSpaces(s, 0);
    var b := BackSpaces(s, |s|);
    if a < b then s[a..b] else ""
  }

  /** `s.strip()` is empty exactly when s is all whitespace. */
  lemma StripBlank(s: string)
    ensures Strip(s) == "" <==> Blank(s)
  {
    var a := SkipSpaces(s, 0);
    var b := BackSpaces(s, |s|);
    if a < b {
      assert !IsSpace(s[a]);
    }
  }

  /** Strip gives a contiguous piece of its argument. */
  lemma StripIsSlice(s: string)
    ensures exists a, b :: 0 <= a <= b <= |s| && Strip(s) == s[a..b]
  {
    var a := SkipSpaces(s, 0);
    var b := BackSpaces(s, |s|);
    if a < b {
      assert Strip(s) == s[a..b];
    } else {
      assert Strip(s) == s[0..0];
    }
  }

  lemma StripTrimmed(s: string)
    requires Trimmed(s)
    ensures Strip(s) == s
  {
    assert SkipSpaces(s, 0) == 0;
    assert BackSpaces(s, |s|) == |s|;
  }

  lemma StripIdempotent(s: string)
    ensures Strip(Strip(s)) == Strip(s)
  {
    if Strip(s) != "" {
      StripTrimmed(Strip(s));
    }
  }

  /** Gluing two trimmed strings with any separator gives a trimmed string. */
  lemma TrimmedGlue(a: string, sep: string, b: string)
    requires Trimmed(a) && Trimmed(b)
    ensures Trimmed(a + sep + b)
  {
    var s := a + sep + b;
    assert s[0] == a[0];
    assert s[|s| - 1] == b[|b| - 1];
  }

  /** A keyword holding an upper-case letter never occurs in lower-cased text. */
  lemma UpperNeverInLower(text: string, keyword: string, k: nat)
    requires k < |keyword| && IsUpper(keyword[k])
    ensures !Contains(Lower(text), keyword)
  {
  }

  /** A string contained in a slice of s is contained in s. */
  lemma ContainsInSlice(s: string, a: nat, b: nat, sub: string)
    requires a <= b <= |s|
    requires Contains(s[a..b], sub)
    ensures Contains(s, sub)
  {
    var i :| 0 <= i <= |s[a..b]| - |sub| && sub <= s[a..b][i..];
    assert sub <= s[a + i..];
  }

  /** Python's `sep.join(xs)`. */
  function Join(xs: seq<string>, sep: string): string
  {
    if |xs| == 0 then ""
    else if |xs| == 1 then xs[0]
    else xs[0] + sep + Join(xs[1..], sep)
  }

  lemma JoinCons(x: string, xs: seq<string>, sep: string)
    requires |xs| > 0
    ensures Join([x] + xs, sep) == x + sep + Join(xs, sep)
  {
    assert ([x] + xs)[1..] == xs;
  }

  lemma JoinAppend(xs: seq<string>, y: string, sep: string)
    requires |xs| > 0
    ensures Join(xs + [y], sep) == Join(xs, sep) + sep + y
    decreases |xs|
  {
    if |xs| == 1 {
      assert xs + [y] == [xs[0], y];
      assert [xs[0], y][1..] == [y];
    } else {
      assert (xs + [y])[1..] == xs[1..] + [y];
      JoinAppend(xs[1..], y, sep);
    }
  }

  /** Joining two non-empty lists is joining their joins. */
  lemma {:induction false} JoinConcat(a: seq<string>, b: seq<string>, sep: string)
    requires |a| > 0 && |b| > 0
    ensures Join(a + b, sep) == Join(a, sep) + sep + Join(b, sep)
    decreases |a|
  {
    if |a| == 1 {
      JoinCons(a[0], b, sep);
      assert a + b == [a[0]] + b;
    } else {
      JoinConcat(a[1..], b, sep);
      assert (a + b)[1..] == a[1..] + b;
    }
  }

  /** `s[:n]` for n >= 0. */
  function Take(s: string, n: nat): (r: string)
    ensures |r| == if |s| <= n then |s| else n
    ensures r <= s
  {
    if |s| <= n then s else s[..n]
  }

  /** `s.find(c)` for a one-character needle: the first index of c, or -1. */
  function Find(s: string, c: char): (i: int)
    ensures -1 <= i < |s|
    ensures i == -1 <==> c !in s
    ensures i >= 0 ==> s[i] == c && c !in s[..i]
  {
    if |s| == 0 then -1
    else if s[0] == c then 0
    else
      var k := Find(s[1..], c);
      assert k >= 0 ==> s[..k + 1] == [s[0]] + s[1..][..k];
      if k == -1 then -1 else k + 1
  }

  /** `s.rfind(c)` for a one-character needle: the last index of c, or -1. */
  function RFind(s: string, c: char): (i: int)
    ensures -1 <= i < |s|
    ensures i == -1 <==> c !in s
    ensures i >= 0 ==> s[i] == c && c !in s[i + 1..]
  {
    if |s| == 0 then -1
    else if s[|s| - 1] == c then |s| - 1
    else
      var k := RFind(s[..|s| - 1], c);
      assert k >= 0 ==> s[k + 1..] == s[..|s| - 1][k + 1..] + [s[|s| - 1]];
      k
  }

  /** Find returns an index no later than any occurrence. */
  lemma FindFirst(s: string, c: char, i: nat)
    requires i < |s| && s[i] == c
    ensures 0 <= Find(s, c) <= i
  {
    assert c in s;
    var k := Find(s, c);
    forall m | 0 <= m < k ensures s[m] != c {
      assert s[..k][m] == s[m];
    }
  }

  /** RFind returns an index no earlier than any occurrence. */
  lemma RFindLast(s: string, c: char, j: nat)
    requires j < |s| && s[j] == c
    ensures j <= RFind(s, c) < |s|
  {
    assert c in s;
    var k := RFind(s, c);
    forall m | k < m < |s| ensures s[m] != c {
      assert s[k + 1..][m - k - 1] == s[m];
    }
  }

  /** Concatenation of a sequence of sequences. */
  function Flatten<T>(xss: seq<seq<T>>): seq<T>
  {
    if |xss| == 0 then [] else xss[0] + Flatten(xss[1..])
  }

  lemma FlattenAppend<T>(xss: seq<seq<T>>, xs: seq<T>)
    ensures Flatten(xss + [xs]) == Flatten(xss) + xs
    decreases |xss|
  {
    if |xss| == 0 {
      assert [xs][1..] == [];
    } else {
      assert (xss + [xs])[1..] == xss[1..] + [xs];
      FlattenAppend(xss[1..], xs);
    }
  }

  /** Flattening one more element of a prefix appends that element. */
  lemma FlattenPrefix<T>(xss: seq<seq<T>>, k: nat)
    requires k < |xss|
    ensures Flatten(xss[..k + 1]) == Flatten(xss[..k]) + xss[k]
  {
    assert xss[..k + 1] == xss[..k] + [xss[k]];
    FlattenAppend(xss[..k], xss[k]);
  }

  /** The concatenation of f(x) over the elements x of xs, in order. */
  function FlatMap<T, U>(f: T -> seq<U>, xs: seq<T>): seq<U>
  {
    if |xs| == 0 then [] else FlatMap(f, xs[..|xs| - 1]) + f(xs[|xs| - 1])
  }

  lemma {:induction false} FlatMapAppend<T, U>(f: T -> seq<U>, a: seq<T>, b: seq<T>)
    ensures FlatMap(f, a + b) == FlatMap(f, a) + FlatMap(f, b)
    decreases |b|
  {
    if |b| == 0 {
      assert a + b == a;
    } else {
      var n := |b| - 1;
      FlatMapAppend(f, a, b[..n]);
      assert (a + b)[..|a + b| - 1] == a + b[..n];
      assert (a + b)[|a + b| - 1] == b[n];
    }
  }

  lemma FlatMapSnoc<T, U>(f: T -> seq<U>, a: seq<T>, x: T)
    ensures FlatMap(f, a + [x]) == FlatMap(f, a) + f(x)
  {
    assert (a + [x])[..|a|] == a;
  }

  /** Mapping one more element of a prefix appends its image. */
  lemma FlatMapPrefix<T, U>(f: T -> seq<U>, xs: seq<T>, k: nat)
    requires k < |xs|
    ensures FlatMap(f, xs[..k + 1]) == FlatMap(f, xs[..k]) + f(xs[k])
  {
    assert xs[..k + 1] == xs[..k] + [xs[k]];
    FlatMapSnoc(f, xs[..k], xs[k]);
  }

  /** Everything in FlatMap(f, xs) comes from f of some element. */
  lemma {:induction false} FlatMapMember<T, U>(f: T -> seq<U>, xs: seq<T>, y: U)
    requires y in FlatMap(f, xs)
    ensures exists i :: 0 <= i < |xs| && y in f(xs[i])
  {
    var n := |xs| - 1;
    if y !in f(xs[n]) {
      FlatMapMember(f, xs[..n], y);
      var i :| 0 <= i < n && y in f(xs[..n][i]);
      assert xs[..n][i] == xs[i];
    }
  }

  /** Everything f gives for an element of xs is in FlatMap(f, xs). */
  lemma {:induction false} FlatMapHas<T, U>(f: T -> seq<U>, xs: seq<T>, i: nat, y: U)
    requires i < |xs| && y in f(xs[i])
    ensures y in FlatMap(f, xs)
  {
    var n := |xs| - 1;
    if i < n {
      assert xs[..n][i] == xs[i];
      FlatMapHas(f, xs[..n], i, y);
    }
  }

  /** Decimal rendering of a natural number, as `str(n)`. */
  function NatToString(n: nat): (r: string)
    ensures |r| > 0
    ensures forall i :: 0 <= i < |r| ==> IsDigit(r[i])
    decreases n
  {
    var d := [('0' as int + n % 10) as char];
    if n < 10 then d else NatToString(n / 10) + d
  }

  /** Decimal rendering of an integer, as `str(i)`. */
  function IntToString(i: int): string
  {
    if i >= 0 then NatToString(i) else "-" + NatToString(-i)
  }
}
