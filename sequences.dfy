/**
 * Sequence operations the player's lists are built from: the list
 * comprehension that keeps the elements passing a test, removal of one key
 * from an insertion-ordered dictionary, and Python's `list.sort(key=...)`,
 * which is a stable sort.
 */
module Sequences {
  import opened Strings

  predicate Distinct<T(==)>(s: seq<T>) {
    forall i, j :: 0 <= i < j < |s| ==> s[i] != s[j]
  }

  // ---------------------------------------------------------------------
  // `[x for x in s if p(x)]`
  // ---------------------------------------------------------------------

  function Filter<T>(s: seq<T>, p: T -> bool): (r: seq<T>)
    ensures |r| <= |s|
    ensures forall i :: 0 <= i < |r| ==> r[i] in s && p(r[i])
    ensures forall i :: 0 <= i < |s| && p(s[i]) ==> s[i] in r
  {
    if s == [] then []
    else Filter(s[..|s| - 1], p) + (if p(s[|s| - 1]) then [s[|s| - 1]] else [])
  }

  /** An element is kept exactly when it is in `s` and passes. */
  lemma FilterMembers<T>(s: seq<T>, p: T -> bool)
    ensures forall x :: x in Filter(s, p) <==> x in s && p(x)
  {
    forall x | x in s && p(x) ensures x in Filter(s, p) {
      var i :| 0 <= i < |s| && s[i] == x;
    }
  }

  /** Two tests that agree on every element of `s` keep the same elements. */
  lemma {:induction false} FilterAgree<T>(s: seq<T>, p: T -> bool, q: T -> bool)
    requires forall i :: 0 <= i < |s| ==> p(s[i]) == q(s[i])
    ensures Filter(s, p) == Filter(s, q)
  {
    if s != [] {
      FilterAgree(s[..|s| - 1], p, q);
    }
  }

  /** Filtering one more element appends it exactly when it passes: what a loop over `s` relies on. */
  /** Filtering a list without duplicates gives a list without duplicates. */
  lemma {:induction false} FilterDistinct<T>(s: seq<T>, p: T -> bool)
    requires Distinct(s)
    ensures Distinct(Filter(s, p))
  {
    if s != [] {
      var init, last := s[..|s| - 1], s[|s| - 1];
      FilterDistinct(init, p);
      assert last !in init by {
        assert forall i :: 0 <= i < |init| ==> init[i] == s[i];
      }
    }
  }

  lemma FilterStep<T>(s: seq<T>, p: T -> bool, i: nat)
    requires i < |s|
    ensures Filter(s[..i + 1], p) == Filter(s[..i], p) + (if p(s[i]) then [s[i]] else [])
  {
    assert s[..i + 1][..i] == s[..i];
  }

  // ---------------------------------------------------------------------
  // `d.pop(x, None)` on the keys of an insertion-ordered dictionary.
  // ---------------------------------------------------------------------

  function Without<T(==)>(s: seq<T>, x: T): (r: seq<T>)
    ensures forall i :: 0 <= i < |r| ==> r[i] in s && r[i] != x
    ensures forall i :: 0 <= i < |s| && s[i] != x ==> s[i] in r
  {
    if s == [] then []
    else Without(s[..|s| - 1], x) + (if s[|s| - 1] == x then [] else [s[|s| - 1]])
  }

  lemma {:induction false} WithoutAbsent<T>(s: seq<T>, x: T)
    requires x !in s
    ensures Without(s, x) == s
  {
    if s != [] {
      var init, last := s[..|s| - 1], s[|s| - 1];
      assert last != x by {
        assert s[|s| - 1] in s;
      }
      WithoutAbsent(init, x);
      assert Without(s, x) == Without(init, x) + [last];
      assert s == init + [last];
    }
  }

  lemma {:induction false} WithoutAppend<T>(s: seq<T>, t: seq<T>, x: T)
    ensures Without(s + t, x) == Without(s, x) + Without(t, x)
    decreases |t|
  {
    if t == [] {
      assert s + t == s;
    } else {
      assert (s + t)[..|s + t| - 1] == s + t[..|t| - 1];
      WithoutAppend(s, t[..|t| - 1], x);
    }
  }

  lemma WithoutMiddle<T>(before: seq<T>, x: T, after: seq<T>)
    requires x !in before && x !in after
    ensures Without(before + [x] + after, x) == before + after
  {
    assert before + [x] + after == before + ([x] + after);
    calc {
      Without(before + ([x] + after), x);
      { WithoutAppend(before, [x] + after, x); }
      Without(before, x) + Without([x] + after, x);
      { WithoutAppend([x], after, x); }
      Without(before, x) + (Without([x], x) + Without(after, x));
      { WithoutAbsent(before, x); WithoutAbsent(after, x); WithoutSelf(x); }
      before + ([] + after);
    }
    assert before + ([] + after) == before + after;
  }

  lemma WithoutSelf<T>(x: T)
    ensures Without([x], x) == []
  {
    assert [x][..0] == [];
  }

  lemma DistinctSplit<T>(s: seq<T>, i: nat)
    requires Distinct(s) && i < |s|
    ensures s[i] !in s[..i] && s[i] !in s[i + 1..]
  {
    forall k | 0 <= k < i ensures s[..i][k] != s[i] { assert s[..i][k] == s[k]; }
    var after := s[i + 1..];
    forall k | 0 <= k < |after| ensures after[k] != s[i] { assert after[k] == s[i + 1 + k]; }
  }

  /** Removing a present key drops exactly its position; every other key keeps its place. */
  lemma WithoutAt<T>(s: seq<T>, i: nat)
    requires Distinct(s) && i < |s|
    ensures Without(s, s[i]) == s[..i] + s[i + 1..]
  {
    DistinctSplit(s, i);
    SplitAt(s, i);
    WithoutMiddle(s[..i], s[i], s[i + 1..]);
  }

  lemma SplitAt<T>(s: seq<T>, i: nat)
    requires i < |s|
    ensures s == s[..i] + [s[i]] + s[i + 1..]
  {
  }

  // ---------------------------------------------------------------------
  // `s.sort(key=key)`: a stable sort, modelled as insertion sort.
  // ---------------------------------------------------------------------

  ghost predicate SortedBy<T>(s: seq<T>, key: T -> string) {
    forall i, j :: 0 <= i < j < |s| ==> LessEq(key(s[i]), key(s[j]))
  }

  /** The elements of `s` whose key is `k`, in their order in `s`. */
  ghost function WithKey<T>(s: seq<T>, key: T -> string, k: string): seq<T> {
    if s == [] then []
    else (if key(s[0]) == k then [s[0]] else []) + WithKey(s[1..], key, k)
  }

  /** Place `x` before the first element whose key is not smaller than its own. */
  function InsertBy<T(==)>(x: T, s: seq<T>, key: T -> string): (r: seq<T>)
    ensures multiset(r) == multiset(s) + multiset{x}
    ensures |r| == |s| + 1
  {
    if s == [] then [x]
    else if LessEq(key(x), key(s[0])) then [x] + s
    else
      assert s == [s[0]] + s[1..];
      [s[0]] + InsertBy(x, s[1..], key)
  }

  lemma {:induction false} InsertBySorted<T>(x: T, s: seq<T>, key: T -> string)
    requires SortedBy(s, key)
    ensures SortedBy(InsertBy(x, s, key), key)
  {
    if s == [] {
    } else if LessEq(key(x), key(s[0])) {
      forall j | 0 < j < |s| {
        LessEqTransitive(key(x), key(s[0]), key(s[j]));
      }
      LessEqReflexive(key(x));
    } else {
      var rest := InsertBy(x, s[1..], key);
      InsertBySorted(x, s[1..], key);
      LessEqTotal(key(x), key(s[0]));
      assert s == [s[0]] + s[1..];
      forall j | 0 <= j < |rest|
        ensures LessEq(key(s[0]), key(rest[j]))
      {
        assert rest[j] in multiset(rest);
        if rest[j] != x {
          assert rest[j] in s[1..];
        }
      }
      assert InsertBy(x, s, key) == [s[0]] + rest;
    }
  }

  /** Inserting a new element into a list without duplicates keeps it without duplicates. */
  lemma {:induction false} InsertByDistinct<T>(x: T, s: seq<T>, key: T -> string)
    requires Distinct(s) && x !in s
    ensures Distinct(InsertBy(x, s, key))
  {
    if s != [] && !LessEq(key(x), key(s[0])) {
      var rest := InsertBy(x, s[1..], key);
      InsertByDistinct(x, s[1..], key);
      assert s[0] !in rest by {
        assert s[0] !in multiset(s[1..]) + multiset{x};
      }
      assert InsertBy(x, s, key) == [s[0]] + rest;
    }
  }

  lemma WithKeyCons<T>(y: T, t: seq<T>, key: T -> string, k: string)
    ensures WithKey([y] + t, key, k) == (if key(y) == k then [y] else []) + WithKey(t, key, k)
  {
    assert ([y] + t)[1..] == t;
  }

  /** Inserting `x` puts it before every element with the same key: the order of equal keys is kept. */
  lemma {:induction false} InsertByWithKey<T>(x: T, s: seq<T>, key: T -> string, k: string)
    ensures WithKey(InsertBy(x, s, key), key, k) == (if key(x) == k then [x] else []) + WithKey(s, key, k)
  {
    if s == [] {
      WithKeyCons(x, [], key, k);
      assert [x] + [] == [x];
    } else if LessEq(key(x), key(s[0])) {
      WithKeyCons(x, s, key, k);
    } else {
      var rest := InsertBy(x, s[1..], key);
      var head := if key(s[0]) == k then [s[0]] else [];
      var mine := if key(x) == k then [x] else [];
      var tail := WithKey(s[1..], key, k);
      assert InsertBy(x, s, key) == [s[0]] + rest;
      assert WithKey(InsertBy(x, s, key), key, k) == head + (mine + tail) by {
        WithKeyCons(s[0], rest, key, k);
        InsertByWithKey(x, s[1..], key, k);
      }
      assert WithKey(s, key, k) == head + tail by {
        assert s == [s[0]] + s[1..];
        WithKeyCons(s[0], s[1..], key, k);
      }
      assert head == [] || mine == [] by { LessEqReflexive(key(x)); }
      if head == [] {
        assert head + (mine + tail) == mine + tail;
        assert head + tail == tail;
      } else {
        assert mine + (head + tail) == head + tail;
        assert mine + tail == tail;
      }
    }
  }

  /**
   * `s.sort(key=key)`: a permutation of `s`; `SortBySorted` and
   * `SortByStable` prove it sorted by key and stable.
   */
  function SortBy<T(==)>(s: seq<T>, key: T -> string): (r: seq<T>)
    ensures multiset(r) == multiset(s) && |r| == |s|
  {
    if s == [] then []
    else
      var rest := SortBy(s[1..], key);
      assert s == [s[0]] + s[1..];
      InsertBy(s[0], rest, key)
  }

  /** Sorting a list without duplicates gives a list without duplicates. */
  lemma {:induction false} SortByDistinct<T>(s: seq<T>, key: T -> string)
    requires Distinct(s)
    ensures Distinct(SortBy(s, key))
  {
    if s != [] {
      var rest := SortBy(s[1..], key);
      SortByDistinct(s[1..], key);
      assert s[0] !in rest by {
        assert s[0] !in multiset(s[1..]);
      }
      InsertByDistinct(s[0], rest, key);
    }
  }

  lemma {:induction false} SortBySorted<T>(s: seq<T>, key: T -> string)
    ensures SortedBy(SortBy(s, key), key)
  {
    if s != [] {
      SortBySorted(s[1..], key);
      InsertBySorted(s[0], SortBy(s[1..], key), key);
    }
  }

  /** Elements with equal keys keep their relative order. */
  lemma {:induction false} SortByStable<T>(s: seq<T>, key: T -> string, k: string)
    ensures WithKey(SortBy(s, key), key, k) == WithKey(s, key, k)
  {
    if s != [] {
      SortByStable(s[1..], key, k);
      InsertByWithKey(s[0], SortBy(s[1..], key), key, k);
    }
  }

  /** Sorting keeps exactly the elements it was given. */
  lemma SortByMembers<T>(s: seq<T>, key: T -> string)
    ensures forall x :: x in SortBy(s, key) <==> x in s
  {
    var r := SortBy(s, key);
    forall x ensures x in r <==> x in s {
      assert x in r <==> x in multiset(r);
      assert x in s <==> x in multiset(s);
    }
  }
}
