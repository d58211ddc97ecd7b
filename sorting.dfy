/** Sorting by a comparator, as Kotlin's `sortedWith` / `sortWith` do it, and
    `distinct()`. The comparator is given as the "comes no later than"
    relation `le`; Kotlin's comparators in the core are total preorders
    (keys compared one after another), which is what the lemmas require. */
module Sorting {

  ghost predicate TotalPreorder<T(!new)>(le: (T, T) -> bool)
  {
    && (forall a, b :: le(a, b) || le(b, a))
    && (forall a, b, c :: le(a, b) && le(b, c) ==> le(a, c))
  }

  ghost predicate Sorted<T>(s: seq<T>, le: (T, T) -> bool)
  {
    forall i, j :: 0 <= i < j < |s| ==> le(s[i], s[j])
  }

  /** Puts `x` in front of the first element it comes no later than, so that
      `x` stays ahead of the elements it ties with. */
  function Insert<T>(x: T, s: seq<T>, le: (T, T) -> bool): (r: seq<T>)
    ensures |r| == |s| + 1
    ensures multiset(r) == multiset(s) + multiset{x}
  {
    if s == [] then [x]
    else if le(x, s[0]) then [x] + s
    else
      assert s == [s[0]] + s[1..];
      [s[0]] + Insert(x, s[1..], le)
  }

  /** Insertion sort: a permutation of `s` ordered by `le`. */
  function SortBy<T>(s: seq<T>, le: (T, T) -> bool): (r: seq<T>)
    ensures |r| == |s|
    ensures multiset(r) == multiset(s)
  {
    if s == [] then []
    else
      assert s == [s[0]] + s[1..];
      Insert(s[0], SortBy(s[1..], le), le)
  }

  /** Every element of `s` comes no earlier than `lo`. */
  ghost predicate AllFrom<T>(lo: T, s: seq<T>, le: (T, T) -> bool)
  {
    forall k :: 0 <= k < |s| ==> le(lo, s[k])
  }

  /** What comes no earlier than `lo` stays so when `x`, itself no earlier,
      is inserted. */
  lemma {:induction false} InsertBoundedBelow<T>(lo: T, x: T, s: seq<T>, le: (T, T) -> bool)
    requires le(lo, x) && AllFrom(lo, s, le)
    ensures AllFrom(lo, Insert(x, s, le), le)
  {
    if s != [] && !le(x, s[0]) {
      var tail := s[1..];
      assert AllFrom(lo, tail, le) by {
        forall k | 0 <= k < |tail| ensures le(lo, tail[k]) { assert tail[k] == s[k + 1]; }
      }
      InsertBoundedBelow(lo, x, tail, le);
      var t := Insert(x, tail, le);
      var r := [s[0]] + t;
      assert Insert(x, s, le) == r;
      forall k | 0 <= k < |r| ensures le(lo, r[k]) {
        if k > 0 { assert r[k] == t[k - 1]; }
      }
    } else if s != [] {
      var r := [x] + s;
      assert Insert(x, s, le) == r;
      forall k | 0 <= k < |r| ensures le(lo, r[k]) {
        if k > 0 { assert r[k] == s[k - 1]; }
      }
    }
  }

  lemma {:induction false} InsertSorted<T(!new)>(x: T, s: seq<T>, le: (T, T) -> bool)
    requires TotalPreorder(le)
    requires Sorted(s, le)
    ensures Sorted(Insert(x, s, le), le)
  {
    if s != [] && !le(x, s[0]) {
      var tail := s[1..];
      assert Sorted(tail, le);
      InsertSorted(x, tail, le);
      var rest := Insert(x, tail, le);
      assert le(s[0], x);
      assert AllFrom(s[0], tail, le) by {
        forall k | 0 <= k < |tail| ensures le(s[0], tail[k]) { assert tail[k] == s[k + 1]; }
      }
      InsertBoundedBelow(s[0], x, tail, le);
      var r := [s[0]] + rest;
      assert Insert(x, s, le) == r;
      forall i, j | 0 <= i < j < |r| ensures le(r[i], r[j]) {
        if i == 0 {
          assert r[j] == rest[j - 1];
        } else {
          assert r[i] == rest[i - 1] && r[j] == rest[j - 1];
        }
      }
    } else if s != [] {
      var r := [x] + s;
      assert Insert(x, s, le) == r;
      forall i, j | 0 <= i < j < |r| ensures le(r[i], r[j]) {
        if i == 0 {
          assert r[j] == s[j - 1];
          if j > 1 { assert le(s[0], s[j - 1]); }
        } else {
          assert r[i] == s[i - 1] && r[j] == s[j - 1];
        }
      }
    }
  }

  /** `SortBy` orders its result by `le`. */
  lemma {:induction false} SortBySorted<T(!new)>(s: seq<T>, le: (T, T) -> bool)
    requires TotalPreorder(le)
    ensures Sorted(SortBy(s, le), le)
  {
    if s != [] {
      SortBySorted(s[1..], le);
      InsertSorted(s[0], SortBy(s[1..], le), le);
    }
  }

  /** The elements `le` ties with `a`: those equal to it under the comparator. */
  function Tie<T>(le: (T, T) -> bool, a: T): T -> bool
  {
    x => le(x, a) && le(a, x)
  }

  /** Inserting `x` puts it ahead of everything it ties with and leaves the
      order of the others alone. */
  lemma {:induction false} InsertTies<T(!new)>(x: T, s: seq<T>, le: (T, T) -> bool, a: T)
    requires TotalPreorder(le)
    ensures Filter(Insert(x, s, le), Tie(le, a))
         == (if Tie(le, a)(x) then [x] else []) + Filter(s, Tie(le, a))
  {
    var p := Tie(le, a);
    if s == [] {
    } else if le(x, s[0]) {
      assert ([x] + s)[1..] == s;
    } else {
      var rest := Insert(x, s[1..], le);
      assert Insert(x, s, le) == [s[0]] + rest;
      assert ([s[0]] + rest)[1..] == rest;
      InsertTies(x, s[1..], le, a);
      // `x` passes `s[0]` only when `s[0]` comes strictly before it, so
      // they cannot both tie with `a`.
      assert !(p(x) && p(s[0]));
    }
  }

  /** `SortBy` is stable, as Kotlin's `sortedWith` is: elements that tie
      under the comparator keep their order in the input. */
  lemma {:induction false} SortByStable<T(!new)>(s: seq<T>, le: (T, T) -> bool, a: T)
    requires TotalPreorder(le)
    ensures Filter(SortBy(s, le), Tie(le, a)) == Filter(s, Tie(le, a))
  {
    if s != [] {
      SortByStable(s[1..], le, a);
      InsertTies(s[0], SortBy(s[1..], le), le, a);
    }
  }

  /** The position of the first occurrence of `x` in `s`, or `|s|` when
      there is none. */
  ghost function FirstIndex<T>(s: seq<T>, x: T): (r: nat)
    ensures r <= |s|
    ensures r < |s| ==> s[r] == x
    ensures forall j :: 0 <= j < r ==> s[j] != x
  {
    if s == [] then 0 else if s[0] == x then 0 else FirstIndex(s[1..], x) + 1
  }

  /** Appending an element moves no first occurrence; an element met for
      the first time is first found at the end. */
  lemma FirstIndexSnoc<T>(s: seq<T>, last: T, x: T)
    ensures FirstIndex(s + [last], x)
         == if FirstIndex(s, x) < |s| then FirstIndex(s, x)
            else if x == last then |s| else |s| + 1
  {
    var t := s + [last];
    var b := FirstIndex(s, x);
    if b < |s| {
      assert t[b] == x;
    } else if x == last {
      assert t[|s|] == x;
    }
  }

  /** Every element of `r` occurs in `s`, and `r` lists them in the order
      of their first occurrences in `s`. */
  ghost predicate InFirstOrder<T>(s: seq<T>, r: seq<T>)
  {
    && (forall k :: 0 <= k < |r| ==> FirstIndex(s, r[k]) < |s|)
    && (forall i, j :: 0 <= i < j < |r| ==> FirstIndex(s, r[i]) < FirstIndex(s, r[j]))
  }

  /** The order of first occurrences survives appending `last` to `s`,
      whether the kept list `r0` stays as it is or grows by `last` (which
      then occurs nowhere in `s`). */
  lemma FirstOrderSnoc<T>(s: seq<T>, last: T, r0: seq<T>, r: seq<T>)
    requires InFirstOrder(s, r0)
    requires r == r0 || (r == r0 + [last] && FirstIndex(s, last) == |s|)
    ensures InFirstOrder(s + [last], r)
  {
    forall k | 0 <= k < |r| ensures FirstIndex(s + [last], r[k]) == if k < |r0| then FirstIndex(s, r0[k]) else |s| {
      FirstIndexSnoc(s, last, r[k]);
      if k < |r0| { assert r[k] == r0[k]; }
    }
  }

  predicate NoDuplicates<T(==)>(s: seq<T>)
  {
    forall i, j :: 0 <= i < j < |s| ==> s[i] != s[j]
  }

  /** Kotlin `distinct()`: the first occurrence of every element, in order. */
  function Distinct<T(==)>(s: seq<T>): (r: seq<T>)
    ensures |r| <= |s|
    ensures forall i :: 0 <= i < |s| ==> s[i] in r
    ensures forall i :: 0 <= i < |r| ==> r[i] in s
    ensures NoDuplicates(r)
  {
    if s == [] then []
    else
      var init := Distinct(s[..|s| - 1]);
      var last := s[|s| - 1];
      assert s == s[..|s| - 1] + [last];
      if last in init then init else init + [last]
  }

  /** One step of `Distinct`: appending `last` either keeps the result or
      appends `last` to it, and then `last` did not occur before. */
  lemma DistinctSnoc<T>(s: seq<T>, last: T)
    ensures var r0 := Distinct(s);
      var r := Distinct(s + [last]);
      r == r0 || (r == r0 + [last] && FirstIndex(s, last) == |s|)
  {
    var t := s + [last];
    assert t[..|t| - 1] == s;
    if last !in Distinct(s) {
      assert forall m :: 0 <= m < |s| ==> s[m] != last;
    }
  }

  /** `distinct()` keeps the source order: its elements come in the order
      of their first occurrences. */
  lemma {:induction false} DistinctFirstOrder<T>(s: seq<T>)
    ensures InFirstOrder(s, Distinct(s))
    decreases |s|
  {
    if s != [] {
      var init := s[..|s| - 1];
      var last := s[|s| - 1];
      DistinctFirstOrder(init);
      assert s == init + [last];
      DistinctSnoc(init, last);
      FirstOrderSnoc(init, last, Distinct(init), Distinct(s));
    }
  }

  /** Kotlin `take(n)`. */
  function Take<T>(s: seq<T>, n: nat): (r: seq<T>)
    ensures |r| <= n && |r| <= |s|
    ensures r == s[..|r|]
    ensures |s| <= n ==> r == s
  {
    if |s| <= n then s else s[..n]
  }

  /** Kotlin `filter(p)`: the elements satisfying `p`, in order. */
  function Filter<T>(s: seq<T>, p: T -> bool): (r: seq<T>)
    ensures |r| <= |s|
  {
    if s == [] then []
    else if p(s[0]) then [s[0]] + Filter(s[1..], p)
    else Filter(s[1..], p)
  }

  /** `filter` keeps exactly the elements satisfying `p`, each as often as
      it occurs. */
  lemma {:induction false} FilterMembers<T>(s: seq<T>, p: T -> bool)
    ensures forall x :: x in Filter(s, p) <==> x in s && p(x)
    ensures multiset(Filter(s, p)) <= multiset(s)
  {
    if s != [] {
      FilterMembers(s[1..], p);
      assert s == [s[0]] + s[1..];
    }
  }

  /** What `filter(p)` keeps and what `filterNot(p)` keeps add up to the
      whole list (Kotlin `partition`). */
  lemma {:induction false} FilterPartition<T>(s: seq<T>, p: T -> bool, q: T -> bool)
    requires forall i :: 0 <= i < |s| ==> q(s[i]) == !p(s[i])
    ensures |Filter(s, p)| + |Filter(s, q)| == |s|
  {
    if s != [] {
      FilterPartition(s[1..], p, q);
    }
  }

  /** Kotlin `map(f)`. */
  function MapSeq<T, K>(s: seq<T>, f: T -> K): (r: seq<K>)
    ensures |r| == |s|
    ensures forall i :: 0 <= i < |s| ==> r[i] == f(s[i])
  {
    seq(|s|, i requires 0 <= i < |s| => f(s[i]))
  }

  /** Kotlin `distinct()` under an equality that compares `key` only: the
      first element of every key, in order. */
  function DistinctBy<T, K(==)>(s: seq<T>, key: T -> K): (r: seq<T>)
    ensures |r| <= |s|
    ensures forall i :: 0 <= i < |r| ==> r[i] in s
    ensures forall i :: 0 <= i < |s| ==> key(s[i]) in MapSeq(r, key)
    ensures NoDuplicates(MapSeq(r, key))
  {
    if s == [] then []
    else
      var init := DistinctBy(s[..|s| - 1], key);
      var last := s[|s| - 1];
      assert s == s[..|s| - 1] + [last];
      assert forall i :: 0 <= i < |s| - 1 ==> s[i] == s[..|s| - 1][i];
      if key(last) in MapSeq(init, key) then init
      else
        assert MapSeq(init + [last], key) == MapSeq(init, key) + [key(last)];
        init + [last]
  }

  /** Every element of `r` is the first element of `s` with its key. */
  ghost predicate FirstOfKey<T, K>(s: seq<T>, r: seq<T>, key: T -> K)
  {
    forall k, j :: 0 <= k < |r| && 0 <= j < FirstIndex(s, r[k]) ==> key(s[j]) != key(r[k])
  }

  /** Being first of its key survives appending `last` to `s`, whether the
      kept list `r0` stays as it is or grows by `last` (whose key then
      occurs nowhere in `s`). */
  lemma FirstOfKeySnoc<T, K>(s: seq<T>, last: T, r0: seq<T>, r: seq<T>, key: T -> K)
    requires InFirstOrder(s, r0) && FirstOfKey(s, r0, key)
    requires r == r0 || (r == r0 + [last] && forall m :: 0 <= m < |s| ==> key(s[m]) != key(last))
    ensures FirstOfKey(s + [last], r, key)
  {
    var t := s + [last];
    forall k, j | 0 <= k < |r| && 0 <= j < FirstIndex(t, r[k]) ensures key(t[j]) != key(r[k]) {
      FirstIndexSnoc(s, last, r[k]);
      if k < |r0| {
        assert r[k] == r0[k];
        assert t[j] == s[j];
      } else {
        assert t[j] == s[j];
      }
    }
  }

  /** One step of `DistinctBy`: appending `last` either keeps the result
      or appends `last` to it, and then no earlier element shares its key. */
  lemma DistinctBySnoc<T, K>(s: seq<T>, last: T, key: T -> K)
    ensures var r0 := DistinctBy(s, key);
      var r := DistinctBy(s + [last], key);
      || r == r0
      || (&& r == r0 + [last]
          && FirstIndex(s, last) == |s|
          && forall m :: 0 <= m < |s| ==> key(s[m]) != key(last))
  {
    var t := s + [last];
    assert t[..|t| - 1] == s;
    var r0 := DistinctBy(s, key);
    if key(last) !in MapSeq(r0, key) {
      forall m | 0 <= m < |s| ensures key(s[m]) != key(last) {
        assert key(s[m]) in MapSeq(r0, key);
      }
    }
  }

  /** `distinct()` on a key keeps the first element of every key and the
      source order: each kept element is the first of its key, and the kept
      elements come in the order of their first occurrences. */
  lemma {:induction false} DistinctByFirst<T, K>(s: seq<T>, key: T -> K)
    ensures InFirstOrder(s, DistinctBy(s, key))
    ensures FirstOfKey(s, DistinctBy(s, key), key)
    decreases |s|
  {
    if s != [] {
      var init := s[..|s| - 1];
      var last := s[|s| - 1];
      DistinctByFirst(init, key);
      assert s == init + [last];
      DistinctBySnoc(init, last, key);
      FirstOrderSnoc(init, last, DistinctBy(init, key), DistinctBy(s, key));
      FirstOfKeySnoc(init, last, DistinctBy(init, key), DistinctBy(s, key), key);
    }
  }
}
