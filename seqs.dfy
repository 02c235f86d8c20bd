/** Sequence operations the scheduler relies on: `Array.prototype.filter`,
    `[...new Set(xs)]` (distinct values in first-occurrence order) and the
    stable `Array.prototype.sort`, each with the laws the views depend on. */
module Seqs {

  predicate NoDups<T(==,!new)>(s: seq<T>) {
    forall i, j :: 0 <= i < j < |s| ==> s[i] != s[j]
  }

  /** `xs.map(f)`. */
  function Map<T(==,!new), K(==,!new)>(s: seq<T>, f: T -> K): (r: seq<K>)
    ensures |r| == |s|
    ensures forall i :: 0 <= i < |s| ==> r[i] == f(s[i])
  {
    if s == [] then [] else Map(s[..|s| - 1], f) + [f(s[|s| - 1])]
  }

  /** `[...new Set(s)]`: a JS Set keeps its values in first-insertion order. */
  function Distinct<T(==,!new)>(s: seq<T>): (d: seq<T>)
    ensures NoDups(d)
    ensures forall x :: x in d <==> x in s
  {
    if s == [] then []
    else
      var p := Distinct(s[..|s| - 1]);
      var x := s[|s| - 1];
      if x in p then p else p + [x]
  }

  /** Position of the first occurrence of `x` in `s`. */
  function IndexOf<T(==,!new)>(s: seq<T>, x: T): (k: nat)
    requires x in s
    ensures k < |s| && s[k] == x
    ensures forall j :: 0 <= j < k ==> s[j] != x
  {
    if s[0] == x then 0 else 1 + IndexOf(s[1..], x)
  }

  lemma {:induction false} IndexOfAppend<T(!new)>(p: seq<T>, x: T, y: T)
    requires y in p
    ensures IndexOf(p + [x], y) == IndexOf(p, y)
  {
    if p[0] != y {
      assert (p + [x])[1..] == p[1..] + [x];
      IndexOfAppend(p[1..], x, y);
    }
  }

  /** `Distinct` lists the values in the order of their first occurrence. */
  lemma {:induction false} DistinctFirstOccurrence<T(!new)>(s: seq<T>, i: nat, j: nat)
    requires i < j < |Distinct(s)|
    ensures IndexOf(s, Distinct(s)[i]) < IndexOf(s, Distinct(s)[j])
  {
    var p := s[..|s| - 1];
    var x := s[|s| - 1];
    assert s == p + [x];
    var dp := Distinct(p);
    var a, b := Distinct(s)[i], Distinct(s)[j];
    if x in dp {
      DistinctFirstOccurrence(p, i, j);
      IndexOfAppend(p, x, a);
      IndexOfAppend(p, x, b);
    } else if j < |dp| {
      DistinctFirstOccurrence(p, i, j);
      IndexOfAppend(p, x, a);
      IndexOfAppend(p, x, b);
    } else {
      assert b == x && a == dp[i] && a in p;
      IndexOfAppend(p, x, a);
      assert x !in p;
      assert forall k :: 0 <= k < |p| ==> s[k] == p[k];
    }
  }

  /** `s.filter(w => key(w) === k)`. */
  function FilterKey<T(==,!new), K(==,!new)>(s: seq<T>, key: T -> K, k: K): (r: seq<T>)
    ensures |r| <= |s|
    ensures forall x :: x in r <==> x in s && key(x) == k
  {
    if s == [] then []
    else
      var p := FilterKey(s[..|s| - 1], key, k);
      if key(s[|s| - 1]) == k then p + [s[|s| - 1]] else p
  }

  /** `filter` keeps every copy of a kept value and no copy of the others. */
  lemma {:induction false} FilterKeyCount<T(!new), K(!new)>(s: seq<T>, key: T -> K, k: K, x: T)
    ensures multiset(FilterKey(s, key, k))[x] == if key(x) == k then multiset(s)[x] else 0
  {
    if s != [] {
      var p := s[..|s| - 1];
      assert s == p + [s[|s| - 1]];
      FilterKeyCount(p, key, k, x);
    }
  }

  lemma FilterKeyAppend<T(!new), K(!new)>(p: seq<T>, x: T, key: T -> K, k: K)
    ensures FilterKey(p + [x], key, k) == if key(x) == k then FilterKey(p, key, k) + [x] else FilterKey(p, key, k)
  {
    assert (p + [x])[..|p|] == p;
  }

  lemma MapAppend<T(!new), K(!new)>(p: seq<T>, x: T, f: T -> K)
    ensures Map(p + [x], f) == Map(p, f) + [f(x)]
  {
    assert (p + [x])[..|p|] == p;
  }

  lemma DistinctAppend<T(!new)>(p: seq<T>, x: T)
    ensures Distinct(p + [x]) == if x in p then Distinct(p) else Distinct(p) + [x]
  {
    assert (p + [x])[..|p|] == p;
  }

  lemma KeyInMap<T(!new), K(!new)>(s: seq<T>, key: T -> K, y: T)
    requires y in s
    ensures key(y) in Map(s, key)
  {
    var j :| 0 <= j < |s| && s[j] == y;
    assert Map(s, key)[j] == key(y);
  }

  /** A map that agrees with `before` off `k`, has `v` at `k` and no other
      new key is `before[k := v]`. */
  lemma MapUpdateExtensional<K(!new), V(!new)>(after: map<K, V>, before: map<K, V>, k: K, v: V)
    requires after.Keys == before.Keys + {k}
    requires k in after && after[k] == v
    requires forall e :: e in after && e != k ==> e in before && after[e] == before[e]
    ensures after == before[k := v]
  {
  }

  lemma AppendAssoc<T(!new)>(a: seq<T>, b: seq<T>, c: seq<T>)
    ensures (a + b) + c == a + (b + c)
  {
  }

  /** A sequence without duplicates has as many elements as its set. */
  lemma {:induction false} NoDupsCard<T(!new)>(s: seq<T>)
    requires NoDups(s)
    ensures |set x | x in s| == |s|
  {
    if s != [] {
      var p, y := s[..|s| - 1], s[|s| - 1];
      assert s == p + [y];
      assert NoDups(p);
      NoDupsCard(p);
      assert y !in p;
      assert (set x | x in s) == (set x | x in p) + {y};
    }
  }

  lemma MapOverwrite<K(!new), V(!new)>(m: map<K, V>, k: K, a: V, b: V)
    ensures m[k := a][k := b] == m[k := b]
  {
  }

  /** The elements of `s` grouped by `key`: each key present maps to the
      elements carrying it, in their order in `s`. */
  function GroupLists<T(==,!new), K(==,!new)>(s: seq<T>, key: T -> K): map<K, seq<T>> {
    map k | k in Map(s, key) :: FilterKey(s, key, k)
  }

  lemma GroupListsAppendKeys<T(!new), K(!new)>(p: seq<T>, x: T, key: T -> K)
    ensures GroupLists(p + [x], key).Keys == GroupLists(p, key).Keys + {key(x)}
  {
    MapAppend(p, x, key);
  }

  lemma GroupListsAppendAt<T(!new), K(!new)>(p: seq<T>, x: T, key: T -> K, k: K)
    requires k in GroupLists(p + [x], key)
    ensures var g := GroupLists(p, key);
      GroupLists(p + [x], key)[k] ==
        if k != key(x) then g[k] else if k in g then g[k] + [x] else [x]
  {
    MapAppend(p, x, key);
    FilterKeyAppend(p, x, key, k);
    if k !in Map(p, key) {
      forall y | y in p ensures key(y) != k { KeyInMap(p, key, y); }
      FilterKeyNone(p, key, k);
    }
  }

  /** Filing one more element: append it to its key's list, creating the
      list when the key is new. */
  lemma GroupListsAppend<T(!new), K(!new)>(p: seq<T>, x: T, key: T -> K)
    ensures var g := GroupLists(p, key);
      GroupLists(p + [x], key) ==
        if key(x) in g then g[key(x) := g[key(x)] + [x]] else g[key(x) := [x]]
  {
    var g := GroupLists(p, key);
    var h := GroupLists(p + [x], key);
    var v := if key(x) in g then g[key(x)] + [x] else [x];
    GroupListsAppendKeys(p, x, key);
    GroupListsAppendAt(p, x, key, key(x));
    forall e | e in h && e != key(x) ensures e in g && h[e] == g[e] {
      GroupListsAppendAt(p, x, key, e);
    }
    MapUpdateExtensional(h, g, key(x), v);
  }

  lemma {:induction false} FilterKeyNone<T(!new), K(!new)>(s: seq<T>, key: T -> K, k: K)
    requires forall y :: y in s ==> key(y) != k
    ensures FilterKey(s, key, k) == []
  {
    if s != [] {
      FilterKeyNone(s[..|s| - 1], key, k);
    }
  }

  lemma {:induction false} FilterKeyAll<T(!new), K(!new)>(s: seq<T>, key: T -> K, k: K)
    requires forall y :: y in s ==> key(y) == k
    ensures FilterKey(s, key, k) == s
  {
    if s != [] {
      FilterKeyAll(s[..|s| - 1], key, k);
      assert s == s[..|s| - 1] + [s[|s| - 1]];
    }
  }

  lemma {:induction false} FilterKeyConcat<T(!new), K(!new)>(a: seq<T>, b: seq<T>, key: T -> K, k: K)
    ensures FilterKey(a + b, key, k) == FilterKey(a, key, k) + FilterKey(b, key, k)
  {
    if b == [] {
      assert a + b == a;
    } else {
      var q, y := b[..|b| - 1], b[|b| - 1];
      assert b == q + [y];
      assert a + b == (a + q) + [y];
      FilterKeyConcat(a, q, key, k);
      FilterKeyAppend(a + q, y, key, k);
      FilterKeyAppend(q, y, key, k);
    }
  }

  /** Two filters in a row keep, in order, what both of them keep. */
  lemma {:induction false} FilterKeyTwice<T(!new)>(s: seq<T>, p: T -> bool, q: T -> bool, both: T -> bool)
    requires forall x :: both(x) == (p(x) && q(x))
    ensures FilterKey(FilterKey(s, p, true), q, true) == FilterKey(s, both, true)
  {
    if s != [] {
      var init, x := s[..|s| - 1], s[|s| - 1];
      FilterKeyTwice(init, p, q, both);
      if p(x) {
        FilterKeyAppend(FilterKey(init, p, true), x, q, true);
      }
    }
  }

  /** `f(s[0], 0) + f(s[1], 1) + ...`: one block per element, built in order. */
  function Blocks<T, U>(s: seq<T>, f: (T, nat) -> seq<U>): seq<U> {
    if s == [] then [] else Blocks(s[..|s| - 1], f) + f(s[|s| - 1], |s| - 1)
  }

  lemma {:induction false} BlocksLength<T, U>(s: seq<T>, f: (T, nat) -> seq<U>, n: nat)
    requires forall x, i :: |f(x, i)| == n
    ensures |Blocks(s, f)| == n * |s|
  {
    if s != [] {
      BlocksLength(s[..|s| - 1], f, n);
      assert n * |s| == n * (|s| - 1) + n;
    }
  }

  lemma BlocksSnoc<T, U>(p: seq<T>, x: T, f: (T, nat) -> seq<U>)
    ensures Blocks(p + [x], f) == Blocks(p, f) + f(x, |p|)
  {
    assert (p + [x])[..|p|] == p;
  }

  lemma MulMonotone(n: nat, a: nat, b: nat)
    requires a <= b
    ensures n * a <= n * b
  {
    assert n * b == n * a + n * (b - a);
  }

  /** When every block has `n` elements, the k-th run of `n` is `f(s[k], k)`. */
  lemma {:induction false} BlockOf<T, U>(s: seq<T>, f: (T, nat) -> seq<U>, n: nat, k: nat)
    requires forall x, i :: |f(x, i)| == n
    requires k < |s|
    ensures n * k + n <= |Blocks(s, f)| && Blocks(s, f)[n * k..n * k + n] == f(s[k], k)
  {
    var p := s[..|s| - 1];
    var before, last := Blocks(p, f), f(s[|s| - 1], |s| - 1);
    BlocksLength(p, f, n);
    assert n * k + n == n * (k + 1);
    if k < |p| {
      MulMonotone(n, k + 1, |p|);
      BlockOf(p, f, n, k);
      assert p[k] == s[k];
      assert (before + last)[n * k..n * k + n] == before[n * k..n * k + n];
    } else {
      assert (before + last)[n * k..n * k + n] == last;
    }
  }

  /** `a` is `b` with some elements left out and the others kept in order. */
  predicate SubseqOf<T(==,!new)>(a: seq<T>, b: seq<T>)
    decreases |b|
  {
    if a == [] then true
    else if b == [] then false
    else if a[|a| - 1] == b[|b| - 1] then SubseqOf(a[..|a| - 1], b[..|b| - 1])
    else SubseqOf(a, b[..|b| - 1])
  }

  lemma {:induction false} FilterKeySubseq<T(!new), K(!new)>(s: seq<T>, key: T -> K, k: K)
    ensures SubseqOf(FilterKey(s, key, k), s)
  {
    if s != [] {
      FilterKeySubseq(s[..|s| - 1], key, k);
      var r := FilterKey(s, key, k);
      if key(s[|s| - 1]) != k && r != [] {
        assert key(r[|r| - 1]) == k by { assert r[|r| - 1] in r; }
      }
    }
  }

  /** Sum, over the keys `ks`, of how many elements of `s` have each key. */
  function SumCounts<T(==,!new), K(==,!new)>(s: seq<T>, key: T -> K, ks: seq<K>): nat {
    if ks == [] then 0 else |FilterKey(s, key, ks[0])| + SumCounts(s, key, ks[1..])
  }

  lemma {:induction false} SumCountsSnoc<T(!new), K(!new)>(p: seq<T>, x: T, key: T -> K, ks: seq<K>)
    requires NoDups(ks)
    ensures SumCounts(p + [x], key, ks) == SumCounts(p, key, ks) + if key(x) in ks then 1 else 0
  {
    if ks != [] {
      FilterKeyAppend(p, x, key, ks[0]);
      SumCountsSnoc(p, x, key, ks[1..]);
      if key(x) == ks[0] {
        forall j | 0 <= j < |ks[1..]| ensures ks[1..][j] != key(x) {
          assert ks[1..][j] == ks[j + 1];
        }
      }
    }
  }

  lemma {:induction false} SumCountsAppendKey<T(!new), K(!new)>(s: seq<T>, key: T -> K, ks: seq<K>, k: K)
    ensures SumCounts(s, key, ks + [k]) == SumCounts(s, key, ks) + |FilterKey(s, key, k)|
  {
    if ks != [] {
      assert (ks + [k])[1..] == ks[1..] + [k];
      SumCountsAppendKey(s, key, ks[1..], k);
    }
  }

  /** Grouping `s` by `key`, over the distinct keys, loses and duplicates nothing. */
  lemma {:induction false} SumCountsDistinct<T(!new), K(!new)>(s: seq<T>, key: T -> K)
    ensures SumCounts(s, key, Distinct(Map(s, key))) == |s|
  {
    if s != [] {
      var p, x := s[..|s| - 1], s[|s| - 1];
      assert s == p + [x];
      MapAppend(p, x, key);
      DistinctAppend(Map(p, key), key(x));
      var dp := Distinct(Map(p, key));
      SumCountsDistinct(p, key);
      SumCountsSnoc(p, x, key, dp);
      if key(x) !in dp {
        SumCountsAppendKey(s, key, dp, key(x));
        forall y | y in p ensures key(y) != key(x) { KeyInMap(p, key, y); }
        FilterKeyNone(p, key, key(x));
        FilterKeyAppend(p, x, key, key(x));
      }
    }
  }

  // ---------------------------------------------------------------------
  // Stable sorting, as `Array.prototype.sort` does since ES2019.

  /** `le(a, b)`: the comparator does not put `b` strictly before `a`. */
  ghost predicate TotalPreorder<T(!new)>(le: (T, T) -> bool) {
    (forall a, b :: le(a, b) || le(b, a)) &&
    (forall a, b, c :: le(a, b) && le(b, c) ==> le(a, c))
  }

  predicate SortedBy<T(==,!new)>(s: seq<T>, le: (T, T) -> bool) {
    forall i, j :: 0 <= i < j < |s| ==> le(s[i], s[j])
  }

  /** Inserts `x` before the first element that is not strictly below it. */
  function Insert<T(==,!new)>(x: T, t: seq<T>, le: (T, T) -> bool): (r: seq<T>)
    ensures multiset(r) == multiset{x} + multiset(t)
  {
    if t == [] || le(x, t[0]) then [x] + t
    else
      assert t == [t[0]] + t[1..];
      [t[0]] + Insert(x, t[1..], le)
  }

  /** Stable insertion sort. */
  function SortBy<T(==,!new)>(s: seq<T>, le: (T, T) -> bool): (r: seq<T>)
    ensures multiset(r) == multiset(s)
  {
    if s == [] then []
    else
      assert s == [s[0]] + s[1..];
      Insert(s[0], SortBy(s[1..], le), le)
  }

  lemma {:induction false} InsertSorted<T(!new)>(x: T, t: seq<T>, le: (T, T) -> bool)
    requires TotalPreorder(le) && SortedBy(t, le)
    ensures SortedBy(Insert(x, t, le), le)
  {
    var r := Insert(x, t, le);
    if t == [] || le(x, t[0]) {
      forall i, j | 0 <= i < j < |r| ensures le(r[i], r[j]) {
        if i == 0 && t != [] { assert r[j] == t[j - 1]; assert le(t[0], t[j - 1]) || j == 1; }
      }
    } else {
      InsertSorted(x, t[1..], le);
      var rest := Insert(x, t[1..], le);
      forall j | 0 <= j < |rest| ensures le(t[0], rest[j]) {
        assert rest[j] in multiset(rest);
        if rest[j] != x {
          assert rest[j] in multiset(t[1..]);
          var k :| 0 <= k < |t[1..]| && t[1..][k] == rest[j];
          assert le(t[0], t[k + 1]);
        }
      }
    }
  }

  /** The result of `SortBy` is in comparator order. */
  lemma {:induction false} SortBySorted<T(!new)>(s: seq<T>, le: (T, T) -> bool)
    requires TotalPreorder(le)
    ensures SortedBy(SortBy(s, le), le)
  {
    if s != [] {
      SortBySorted(s[1..], le);
      InsertSorted(s[0], SortBy(s[1..], le), le);
    }
  }

  lemma {:induction false} InsertNoDups<T(!new)>(x: T, t: seq<T>, le: (T, T) -> bool)
    requires NoDups(t) && x !in t
    ensures NoDups(Insert(x, t, le))
  {
    if t != [] && !le(x, t[0]) {
      InsertNoDups(x, t[1..], le);
      var rest := Insert(x, t[1..], le);
      assert t[0] !in rest by {
        assert t[0] !in multiset(rest) by {
          assert t[0] != x;
          assert t[0] !in t[1..] by {
            forall j | 0 <= j < |t[1..]| ensures t[1..][j] != t[0] { assert t[1..][j] == t[j + 1]; }
          }
        }
      }
      var r := [t[0]] + rest;
      forall i, j | 0 <= i < j < |r| ensures r[i] != r[j] {
        if i == 0 { assert r[j] == rest[j - 1]; assert rest[j - 1] in rest; }
        else { assert r[i] == rest[i - 1] && r[j] == rest[j - 1]; }
      }
    } else {
      var r := [x] + t;
      forall i, j | 0 <= i < j < |r| ensures r[i] != r[j] {
        if i == 0 { assert r[j] == t[j - 1]; assert t[j - 1] in t; }
        else { assert r[i] == t[i - 1] && r[j] == t[j - 1]; }
      }
    }
  }

  /** Sorting a sequence without duplicates leaves none. */
  lemma {:induction false} SortByNoDups<T(!new)>(s: seq<T>, le: (T, T) -> bool)
    requires NoDups(s)
    ensures NoDups(SortBy(s, le))
  {
    if s != [] {
      assert NoDups(s[1..]) by {
        forall i, j | 0 <= i < j < |s[1..]| ensures s[1..][i] != s[1..][j] {
          assert s[1..][i] == s[i + 1] && s[1..][j] == s[j + 1];
        }
      }
      SortByNoDups(s[1..], le);
      assert s[0] !in SortBy(s[1..], le) by {
        assert s[0] !in multiset(s[1..]) by {
          forall j | 0 <= j < |s[1..]| ensures s[1..][j] != s[0] { assert s[1..][j] == s[j + 1]; }
        }
      }
      InsertNoDups(s[0], SortBy(s[1..], le), le);
    }
  }

  /** The elements of `s` that the comparator ranks equal to `x`, in order. */
  function EquivTo<T(==,!new)>(s: seq<T>, x: T, le: (T, T) -> bool): seq<T> {
    if s == [] then []
    else (if le(s[0], x) && le(x, s[0]) then [s[0]] else []) + EquivTo(s[1..], x, le)
  }

  lemma {:induction false} InsertStable<T(!new)>(y: T, t: seq<T>, x: T, le: (T, T) -> bool)
    requires TotalPreorder(le) && SortedBy(t, le)
    ensures EquivTo(Insert(y, t, le), x, le) == EquivTo([y] + t, x, le)
  {
    if t != [] && !le(y, t[0]) {
      assert t == [t[0]] + t[1..];
      InsertStable(y, t[1..], x, le);
      assert ([y] + t[1..])[1..] == t[1..];
      assert ([y] + t)[1..] == t;
      assert ([t[0]] + Insert(y, t[1..], le))[1..] == Insert(y, t[1..], le);
      if le(y, x) && le(x, y) {
        // t[0] is strictly below y, so it is not equivalent to x
        assert !(le(t[0], x) && le(x, t[0]));
      }
    }
  }

  /** `SortBy` is stable: elements that compare equal keep their relative order. */
  lemma {:induction false} SortByStable<T(!new)>(s: seq<T>, x: T, le: (T, T) -> bool)
    requires TotalPreorder(le)
    ensures EquivTo(SortBy(s, le), x, le) == EquivTo(s, x, le)
  {
    if s != [] {
      SortByStable(s[1..], x, le);
      SortBySorted(s[1..], le);
      InsertStable(s[0], SortBy(s[1..], le), x, le);
      assert ([s[0]] + SortBy(s[1..], le))[1..] == SortBy(s[1..], le);
    }
  }

  /** A subsequence of a sorted sequence is sorted. */
  lemma {:induction false} FilterKeySorted<T(!new), K(!new)>(s: seq<T>, key: T -> K, k: K, le: (T, T) -> bool)
    requires SortedBy(s, le)
    ensures SortedBy(FilterKey(s, key, k), le)
  {
    if s != [] {
      var p := s[..|s| - 1];
      FilterKeySorted(p, key, k, le);
      var r := FilterKey(s, key, k);
      if key(s[|s| - 1]) == k {
        forall i, j | 0 <= i < j < |r| ensures le(r[i], r[j]) {
          if j == |r| - 1 {
            assert r[i] in FilterKey(p, key, k);
            var m :| 0 <= m < |p| && p[m] == r[i];
          }
        }
      }
    }
  }
}
