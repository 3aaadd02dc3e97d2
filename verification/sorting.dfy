/** The two sorts the pipeline uses: `sorted(set(xs))` (distinct values in
    ascending order) and Python's stable `list.sort(key=...)`. */
module Sorting {

  ghost predicate IsStrictOrder<T(!new)>(lt: (T, T) -> bool)
  {
    (forall a :: !lt(a, a)) &&
    (forall a, b, c :: lt(a, b) && lt(b, c) ==> lt(a, c)) &&
    (forall a, b :: a != b ==> lt(a, b) || lt(b, a))
  }

  /** The values of a sequence, as `set(s)`. */
  function Elems<T>(s: seq<T>): set<T>
  {
    set x | x in s
  }

  predicate StrictlySorted<T>(s: seq<T>, lt: (T, T) -> bool)
  {
    forall i, j :: 0 <= i < j < |s| ==> lt(s[i], s[j])
  }

  /** Inserts x into an ascending, duplicate-free sequence unless it is there. */
  function InsertDistinct<T(==)>(x: T, s: seq<T>, lt: (T, T) -> bool): seq<T>
  {
    if |s| == 0 then [x]
    else if x == s[0] then s
    else if lt(x, s[0]) then [x] + s
    else [s[0]] + InsertDistinct(x, s[1..], lt)
  }

  /** `sorted(set(xs))`. */
  function SortedDistinct<T(==)>(xs: seq<T>, lt: (T, T) -> bool): seq<T>
  {
    if |xs| == 0 then []
    else InsertDistinct(xs[|xs| - 1], SortedDistinct(xs[..|xs| - 1], lt), lt)
  }

  lemma {:induction false} InsertDistinctSpec<T(!new)>(x: T, s: seq<T>, lt: (T, T) -> bool)
    requires IsStrictOrder(lt)
    requires StrictlySorted(s, lt)
    ensures StrictlySorted(InsertDistinct(x, s, lt), lt)
    ensures Elems(InsertDistinct(x, s, lt)) == Elems(s) + {x}
  {
    if |s| > 0 && x != s[0] && !lt(x, s[0]) {
      var rest := InsertDistinct(x, s[1..], lt);
      InsertDistinctSpec(x, s[1..], lt);
      assert lt(s[0], x);
      assert Elems(s) == {s[0]} + Elems(s[1..]) by {
        assert s == [s[0]] + s[1..];
      }
      assert Elems([s[0]] + rest) == {s[0]} + Elems(rest);
      forall k | 0 <= k < |rest| ensures lt(s[0], rest[k]) {
        assert rest[k] in Elems(s[1..]) + {x};
        if rest[k] != x {
          var m :| 0 <= m < |s[1..]| && s[1..][m] == rest[k];
          assert s[1..][m] == s[m + 1];
        }
      }
    } else if |s| > 0 && x != s[0] {
      assert Elems([x] + s) == Elems(s) + {x};
    }
  }

  /** `sorted(set(xs))` is strictly ascending and holds exactly the values of xs. */
  lemma {:induction false} SortedDistinctSpec<T(!new)>(xs: seq<T>, lt: (T, T) -> bool)
    requires IsStrictOrder(lt)
    ensures StrictlySorted(SortedDistinct(xs, lt), lt)
    ensures Elems(SortedDistinct(xs, lt)) == Elems(xs)
  {
    if |xs| > 0 {
      var init := xs[..|xs| - 1];
      SortedDistinctSpec(init, lt);
      InsertDistinctSpec(xs[|xs| - 1], SortedDistinct(init, lt), lt);
      assert xs == init + [xs[|xs| - 1]];
    }
  }

  /** Two strictly ascending sequences with the same values are equal:
      `sorted(set(xs))` depends only on the set. */
  lemma {:induction false} SortedUnique<T(!new)>(s: seq<T>, t: seq<T>, lt: (T, T) -> bool)
    requires IsStrictOrder(lt)
    requires StrictlySorted(s, lt) && StrictlySorted(t, lt)
    requires Elems(s) == Elems(t)
    ensures s == t
    decreases |s|
  {
    ElemsEmpty(s);
    ElemsEmpty(t);
    if |s| > 0 {
      assert s[0] in Elems(t);
      assert |t| > 0;
      assert t[0] in Elems(s);
      LeastFirst(s, lt, t[0]);
      LeastFirst(t, lt, s[0]);
      assert s[0] == t[0];
      NotInTail(s, lt);
      NotInTail(t, lt);
      assert Elems(s) == {s[0]} + Elems(s[1..]) by {
        assert s == [s[0]] + s[1..];
      }
      assert Elems(t) == {t[0]} + Elems(t[1..]) by {
        assert t == [t[0]] + t[1..];
      }
      assert Elems(s[1..]) == Elems(t[1..]);
      SortedUnique(s[1..], t[1..], lt);
      assert s == [s[0]] + s[1..] && t == [t[0]] + t[1..];
    }
  }

  lemma ElemsEmpty<T>(s: seq<T>)
    ensures Elems(s) == {} ==> s == []
  {
    if s != [] {
      assert s[0] in Elems(s);
    }
  }

  lemma LeastFirst<T(!new)>(s: seq<T>, lt: (T, T) -> bool, x: T)
    requires IsStrictOrder(lt) && StrictlySorted(s, lt)
    requires x in Elems(s)
    ensures x == s[0] || lt(s[0], x)
  {
    var k :| 0 <= k < |s| && s[k] == x;
  }

  lemma NotInTail<T(!new)>(s: seq<T>, lt: (T, T) -> bool)
    requires IsStrictOrder(lt) && StrictlySorted(s, lt) && |s| > 0
    ensures s[0] !in Elems(s[1..])
  {
    forall k | 1 <= k < |s| ensures s[k] != s[0] {
      assert lt(s[0], s[k]);
    }
  }

  /** Python's `<` on strings: lexicographic by character code. */
  predicate StrLess(a: string, b: string)
    decreases |a|
  {
    |b| > 0 && (|a| == 0 || a[0] < b[0] || (a[0] == b[0] && StrLess(a[1..], b[1..])))
  }

  lemma {:induction false} StrLessIrreflexive(a: string)
    ensures !StrLess(a, a)
    decreases |a|
  {
    if |a| > 0 {
      StrLessIrreflexive(a[1..]);
    }
  }

  lemma {:induction false} StrLessTransitive(a: string, b: string, c: string)
    requires StrLess(a, b) && StrLess(b, c)
    ensures StrLess(a, c)
    decreases |a|
  {
    if |a| > 0 && a[0] == b[0] && b[0] == c[0] {
      StrLessTransitive(a[1..], b[1..], c[1..]);
    }
  }

  lemma {:induction false} StrLessTotal(a: string, b: string)
    requires a != b
    ensures StrLess(a, b) || StrLess(b, a)
    decreases |a|
  {
    if |a| > 0 && |b| > 0 && a[0] == b[0] {
      assert a == [a[0]] + a[1..] && b == [b[0]] + b[1..];
      StrLessTotal(a[1..], b[1..]);
    }
  }

  /** String comparison is a strict total order, so `sorted` on strings
      is well defined. */
  lemma StrLessIsStrictOrder()
    ensures IsStrictOrder(StrLess)
  {
    forall a ensures !StrLess(a, a) {
      StrLessIrreflexive(a);
    }
    forall a, b, c | StrLess(a, b) && StrLess(b, c) ensures StrLess(a, c) {
      StrLessTransitive(a, b, c);
    }
    forall a, b | a != b ensures StrLess(a, b) || StrLess(b, a) {
      StrLessTotal(a, b);
    }
  }

  predicate SortedBy<T>(s: seq<T>, key: T -> int)
  {
    forall i, j :: 0 <= i < j < |s| ==> key(s[i]) <= key(s[j])
  }

  /** Inserts x after every element whose key is not greater than its own. */
  function InsertByKey<T>(x: T, s: seq<T>, key: T -> int): seq<T>
  {
    if |s| == 0 then [x]
    else if key(x) < key(s[0]) then [x] + s
    else [s[0]] + InsertByKey(x, s[1..], key)
  }

  /** `xs.sort(key=key)`: Python's sort is stable. */
  function StableSort<T>(xs: seq<T>, key: T -> int): seq<T>
  {
    if |xs| == 0 then []
    else InsertByKey(xs[|xs| - 1], StableSort(xs[..|xs| - 1], key), key)
  }

  /** The elements of s with key k, in their order in s. */
  function WithKey<T>(s: seq<T>, key: T -> int, k: int): seq<T>
  {
    if |s| == 0 then []
    else (if key(s[0]) == k then [s[0]] else []) + WithKey(s[1..], key, k)
  }

  lemma {:induction false} WithKeyAppend<T>(s: seq<T>, x: T, key: T -> int, k: int)
    ensures WithKey(s + [x], key, k) == WithKey(s, key, k) + (if key(x) == k then [x] else [])
  {
    var tail := if key(x) == k then [x] else [];
    if |s| == 0 {
      assert [x][1..] == [];
      assert WithKey([x], key, k) == tail + WithKey([], key, k);
    } else {
      var head := if key(s[0]) == k then [s[0]] else [];
      assert (s + [x])[1..] == s[1..] + [x];
      WithKeyAppend(s[1..], x, key, k);
      assert WithKey(s + [x], key, k) == head + (WithKey(s[1..], key, k) + tail);
      assert WithKey(s, key, k) == head + WithKey(s[1..], key, k);
    }
  }

  lemma {:induction false} WithKeyAbove<T>(s: seq<T>, key: T -> int, k: int)
    requires forall i :: 0 <= i < |s| ==> key(s[i]) > k
    ensures WithKey(s, key, k) == []
  {
    if |s| > 0 {
      WithKeyAbove(s[1..], key, k);
    }
  }

  lemma {:induction false} InsertByKeyPermutes<T>(x: T, s: seq<T>, key: T -> int)
    ensures multiset(InsertByKey(x, s, key)) == multiset(s) + multiset{x}
  {
    if |s| > 0 && key(x) >= key(s[0]) {
      InsertByKeyPermutes(x, s[1..], key);
      assert s == [s[0]] + s[1..];
    }
  }

  lemma {:induction false} InsertByKeyOrders<T>(x: T, s: seq<T>, key: T -> int)
    requires SortedBy(s, key)
    ensures SortedBy(InsertByKey(x, s, key), key)
    ensures multiset(InsertByKey(x, s, key)) == multiset(s) + multiset{x}
  {
    InsertByKeyPermutes(x, s, key);
    if |s| > 0 && key(x) >= key(s[0]) {
      var rest := InsertByKey(x, s[1..], key);
      InsertByKeyOrders(x, s[1..], key);
      forall j | 0 <= j < |rest| ensures key(s[0]) <= key(rest[j]) {
        assert rest[j] in multiset(rest);
        if rest[j] != x {
          assert rest[j] in multiset(s[1..]);
          var m :| 0 <= m < |s[1..]| && s[1..][m] == rest[j];
          assert s[1..][m] == s[m + 1];
        }
      }
    }
  }

  lemma {:induction false} InsertByKeyStable<T>(x: T, s: seq<T>, key: T -> int, k: int)
    requires SortedBy(s, key)
    ensures WithKey(InsertByKey(x, s, key), key, k) == WithKey(s, key, k) + (if key(x) == k then [x] else [])
  {
    var tail := if key(x) == k then [x] else [];
    if |s| == 0 {
      assert [x][1..] == [];
      assert WithKey([x], key, k) == tail + WithKey([], key, k);
    } else if key(x) < key(s[0]) {
      assert ([x] + s)[1..] == s;
      assert WithKey([x] + s, key, k) == tail + WithKey(s, key, k);
      if key(x) == k {
        forall i | 0 <= i < |s| ensures key(s[i]) > k {
          if i > 0 {
            assert key(s[0]) <= key(s[i]);
          }
        }
        WithKeyAbove(s, key, k);
      }
    } else {
      var head := if key(s[0]) == k then [s[0]] else [];
      var rest := InsertByKey(x, s[1..], key);
      assert SortedBy(s[1..], key) by {
        forall i, j | 0 <= i < j < |s[1..]| ensures key(s[1..][i]) <= key(s[1..][j]) {
          assert s[1..][i] == s[i + 1] && s[1..][j] == s[j + 1];
        }
      }
      InsertByKeyStable(x, s[1..], key, k);
      assert ([s[0]] + rest)[1..] == rest;
      assert WithKey([s[0]] + rest, key, k) == head + WithKey(rest, key, k);
      assert WithKey(s, key, k) == head + WithKey(s[1..], key, k);
    }
  }

  /** The stable sort orders by key, keeps every element exactly as often,
      and keeps the elements that share a key in their original order. */
  lemma {:induction false} StableSortSpec<T>(xs: seq<T>, key: T -> int)
    ensures SortedBy(StableSort(xs, key), key)
    ensures multiset(StableSort(xs, key)) == multiset(xs)
    ensures forall k :: WithKey(StableSort(xs, key), key, k) == WithKey(xs, key, k)
  {
    if |xs| > 0 {
      var init := xs[..|xs| - 1];
      var x := xs[|xs| - 1];
      StableSortSpec(init, key);
      InsertByKeyOrders(x, StableSort(init, key), key);
      assert xs == init + [x];
      forall k ensures WithKey(StableSort(xs, key), key, k) == WithKey(xs, key, k) {
        InsertByKeyStable(x, StableSort(init, key), key, k);
        WithKeyAppend(init, x, key, k);
      }
    }
  }

  /** Sorting a sequence that is already ordered by key changes nothing. */
  lemma {:induction false} StableSortSorted<T>(xs: seq<T>, key: T -> int)
    requires SortedBy(xs, key)
    ensures StableSort(xs, key) == xs
  {
    if |xs| > 0 {
      var init := xs[..|xs| - 1];
      var x := xs[|xs| - 1];
      StableSortSorted(init, key);
      InsertAtEnd(x, init, key);
      assert xs == init + [x];
    }
  }

  lemma {:induction false} InsertAtEnd<T>(x: T, s: seq<T>, key: T -> int)
    requires forall i :: 0 <= i < |s| ==> key(s[i]) <= key(x)
    ensures InsertByKey(x, s, key) == s + [x]
  {
    if |s| > 0 {
      InsertAtEnd(x, s[1..], key);
      assert s == [s[0]] + s[1..];
    }
  }
}
