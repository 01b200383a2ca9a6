/** The sort the scripts call (`Array.prototype.sort`, stable since ES2019) for a
    comparator that is a total preorder: a stable insertion sort. */
module Sorting {
  import opened Strings
  import opened Seqs

  /** A comparator `sort` can use consistently: any two elements compare, and `le` is
      transitive. */
  ghost predicate IsTotalPreorder<T(!new)>(le: (T, T) -> bool) {
    && (forall a, b :: le(a, b) || le(b, a))
    && (forall a, b, c :: le(a, b) && le(b, c) ==> le(a, c))
  }

  predicate SortedBy<T>(s: seq<T>, le: (T, T) -> bool) {
    forall i, j :: 0 <= i < j < |s| ==> le(s[i], s[j])
  }

  /** The default string order is one `sort` can use. */
  lemma LexLePreorder()
    ensures IsTotalPreorder(LexLe)
  {
    forall a, b ensures LexLe(a, b) || LexLe(b, a) { LexLeTotal(a, b); }
    forall a, b, c | LexLe(a, b) && LexLe(b, c) ensures LexLe(a, c) { LexLeTransitive(a, b, c); }
  }

  /** Puts `x` after every element that is not greater than it. */
  function InsertBy<T>(x: T, s: seq<T>, le: (T, T) -> bool): (r: seq<T>)
    ensures |r| == |s| + 1
    ensures multiset(r) == multiset(s) + multiset{x}
    decreases |s|
  {
    if s == [] then [x]
    else if !le(s[0], x) then [x] + s
    else
      assert s == [s[0]] + s[1..];
      [s[0]] + InsertBy(x, s[1..], le)
  }

  /** Sorts by inserting the elements one by one in their input order. */
  function SortBy<T>(s: seq<T>, le: (T, T) -> bool): (r: seq<T>)
    ensures |r| == |s|
    ensures multiset(r) == multiset(s)
    decreases |s|
  {
    if s == [] then []
    else
      assert s == s[..|s| - 1] + [s[|s| - 1]];
      InsertBy(s[|s| - 1], SortBy(s[..|s| - 1], le), le)
  }

  /** The last element is inserted into the sorted rest. */
  lemma SortStep<T>(s: seq<T>, le: (T, T) -> bool)
    requires s != []
    ensures SortBy(s, le) == InsertBy(s[|s| - 1], SortBy(s[..|s| - 1], le), le)
  {
  }

  lemma {:induction false} InsertSorted<T(!new)>(x: T, s: seq<T>, le: (T, T) -> bool)
    requires IsTotalPreorder(le)
    requires SortedBy(s, le)
    ensures SortedBy(InsertBy(x, s, le), le)
    decreases |s|
  {
    if s != [] && le(s[0], x) {
      var t := s[1..];
      assert SortedBy(t, le) by {
        forall i, j | 0 <= i < j < |t| ensures le(t[i], t[j]) { assert t[i] == s[i + 1] && t[j] == s[j + 1]; }
      }
      InsertSorted(x, t, le);
      var r := InsertBy(x, t, le);
      forall j | 0 <= j < |r| ensures le(s[0], r[j]) {
        assert r[j] in multiset(t) + multiset{x} by { assert r[j] in multiset(r); }
        if r[j] != x {
          assert r[j] in t;
          var k :| 0 <= k < |t| && t[k] == r[j];
          assert t[k] == s[k + 1];
        }
      }
      var full := [s[0]] + r;
      forall i, j | 0 <= i < j < |full| ensures le(full[i], full[j]) {
        if i > 0 { assert full[i] == r[i - 1] && full[j] == r[j - 1]; }
        else { assert full[j] == r[j - 1]; }
      }
    } else if s != [] {
      var full := [x] + s;
      forall i, j | 0 <= i < j < |full| ensures le(full[i], full[j]) {
        if i > 0 { assert full[i] == s[i - 1] && full[j] == s[j - 1]; }
        else {
          assert le(x, s[0]);
          assert full[j] == s[j - 1];
          if j > 1 { assert le(s[0], s[j - 1]); }
        }
      }
    }
  }

  /** The sort's result is in order. */
  lemma {:induction false} SortBySorted<T(!new)>(s: seq<T>, le: (T, T) -> bool)
    requires IsTotalPreorder(le)
    ensures SortedBy(SortBy(s, le), le)
    decreases |s|
  {
    if s != [] {
      SortBySorted(s[..|s| - 1], le);
      InsertSorted(s[|s| - 1], SortBy(s[..|s| - 1], le), le);
    }
  }

  /** The elements that `le` ranks equal to `x`. */
  function Equiv<T>(le: (T, T) -> bool, x: T): T -> bool {
    (y: T) => le(x, y) && le(y, x)
  }

  /** Insertion into a sorted sequence puts the new element after every element
      equal to it, so each class of equal elements only grows at its end. */
  lemma {:induction false} InsertStable<T(!new)>(z: T, s: seq<T>, le: (T, T) -> bool, x: T)
    requires IsTotalPreorder(le)
    requires SortedBy(s, le)
    ensures Filter(InsertBy(z, s, le), Equiv(le, x)) ==
            Filter(s, Equiv(le, x)) + (if Equiv(le, x)(z) then [z] else [])
    decreases |s|
  {
    var e := Equiv(le, x);
    var tail := if e(z) then [z] else [];
    if s == [] {
    } else if !le(s[0], z) {
      InsertFrontStable(z, s, le, x);
    } else {
      var t := s[1..];
      var head := if e(s[0]) then [s[0]] else [];
      assert SortedBy(t, le) by {
        forall i, j | 0 <= i < j < |t| ensures le(t[i], t[j]) { assert t[i] == s[i + 1] && t[j] == s[j + 1]; }
      }
      InsertStable(z, t, le, x);
      var u := InsertBy(z, t, le);
      var r := [s[0]] + u;
      assert InsertBy(z, s, le) == r;
      assert r[1..] == u;
      assert Filter(r, e) == head + Filter(u, e);
      assert Filter(s, e) == head + Filter(t, e);
      ConcatAssoc(head, Filter(t, e), tail);
    }
  }

  /** Helper: the case of `InsertStable` where `z` goes in front. */
  lemma InsertFrontStable<T(!new)>(z: T, s: seq<T>, le: (T, T) -> bool, x: T)
    requires IsTotalPreorder(le)
    requires SortedBy(s, le) && s != [] && !le(s[0], z)
    ensures Filter(InsertBy(z, s, le), Equiv(le, x)) ==
            Filter(s, Equiv(le, x)) + (if Equiv(le, x)(z) then [z] else [])
  {
    var e := Equiv(le, x);
    var r := [z] + s;
    assert InsertBy(z, s, le) == r;
    assert r[1..] == s;
    if e(z) {
      BelowAllNotEquiv(z, s, le, x);
      FilterNone(s, e);
      assert Filter(r, e) == [z];
    } else {
      assert Filter(r, e) == Filter(s, e);
    }
  }

  /** Helper: an element ranked below the head of a sorted sequence is ranked equal
      to none of its elements, nor is anything equal to it. */
  lemma BelowAllNotEquiv<T(!new)>(z: T, s: seq<T>, le: (T, T) -> bool, x: T)
    requires IsTotalPreorder(le)
    requires SortedBy(s, le) && s != [] && !le(s[0], z) && Equiv(le, x)(z)
    ensures forall k :: 0 <= k < |s| ==> !Equiv(le, x)(s[k])
  {
    forall k | 0 <= k < |s| ensures !Equiv(le, x)(s[k]) {
      if k > 0 { assert le(s[0], s[k]); }
      assert !le(s[k], z);
    }
  }

  /** The sort is stable: the elements `le` ranks equal to any `x` keep their input
      order (`localeCompare` can rank distinct strings equal). */
  lemma {:induction false} SortByStable<T(!new)>(s: seq<T>, le: (T, T) -> bool, x: T)
    requires IsTotalPreorder(le)
    ensures Filter(SortBy(s, le), Equiv(le, x)) == Filter(s, Equiv(le, x))
    decreases |s|
  {
    if s != [] {
      var p, z := s[..|s| - 1], s[|s| - 1];
      var e := Equiv(le, x);
      SortByStable(p, le, x);
      SortBySorted(p, le);
      SortStep(s, le);
      InsertStable(z, SortBy(p, le), le, x);
      SplitLast(s);
      FilterAppend(p, [z], e);
      assert [z][1..] == [];
      assert Filter([z], e) == if e(z) then [z] else [];
    }
  }

  /** Filtering a sorted sequence leaves it sorted. */
  lemma {:induction false} FilterSorted<T>(s: seq<T>, p: T -> bool, le: (T, T) -> bool)
    requires SortedBy(s, le)
    ensures SortedBy(Filter(s, p), le)
    decreases |s|
  {
    if s != [] {
      var t := s[1..];
      assert SortedBy(t, le) by {
        forall i, j | 0 <= i < j < |t| ensures le(t[i], t[j]) { assert t[i] == s[i + 1] && t[j] == s[j + 1]; }
      }
      FilterSorted(t, p, le);
      FilterAbove(s[0], t, p, le);
    }
  }

  /** A filter keeps a lower bound of every element. */
  lemma {:induction false} FilterAbove<T>(x: T, t: seq<T>, p: T -> bool, le: (T, T) -> bool)
    requires forall k :: 0 <= k < |t| ==> le(x, t[k])
    ensures forall j :: 0 <= j < |Filter(t, p)| ==> le(x, Filter(t, p)[j])
    decreases |t|
  {
    if t != [] {
      FilterAbove(x, t[1..], p, le);
      assert forall k :: 0 <= k < |t[1..]| ==> t[1..][k] == t[k + 1];
    }
  }

  /** Every element of an insertion is the inserted element or one of the old ones. */
  lemma InsertMembers<T>(x: T, s: seq<T>, le: (T, T) -> bool)
    ensures forall i :: 0 <= i < |InsertBy(x, s, le)| ==> InsertBy(x, s, le)[i] == x || InsertBy(x, s, le)[i] in s
  {
    var r := InsertBy(x, s, le);
    forall i | 0 <= i < |r| ensures r[i] == x || r[i] in s {
      assert r[i] in multiset(r);
    }
  }

  /** No two elements share a key. */
  predicate KeysDistinct<T, K(==)>(s: seq<T>, key: T -> K) {
    forall i, j :: 0 <= i < j < |s| ==> key(s[i]) != key(s[j])
  }

  lemma {:induction false} InsertKeysDistinct<T, K>(x: T, s: seq<T>, le: (T, T) -> bool, key: T -> K)
    requires KeysDistinct(s, key)
    requires forall i :: 0 <= i < |s| ==> key(s[i]) != key(x)
    ensures KeysDistinct(InsertBy(x, s, le), key)
    decreases |s|
  {
    if s != [] && le(s[0], x) {
      var t := s[1..];
      assert forall i :: 0 <= i < |t| ==> t[i] == s[i + 1];
      InsertKeysDistinct(x, t, le, key);
      var r := InsertBy(x, t, le);
      InsertMembers(x, t, le);
      var full := [s[0]] + r;
      forall i, j | 0 <= i < j < |full| ensures key(full[i]) != key(full[j]) {
        if i == 0 {
          assert full[j] == r[j - 1];
          if r[j - 1] != x {
            var m :| 0 <= m < |t| && t[m] == r[j - 1];
            assert key(s[0]) != key(s[m + 1]);
          }
        } else {
          assert full[i] == r[i - 1] && full[j] == r[j - 1];
        }
      }
    } else if s != [] {
      var full := [x] + s;
      forall i, j | 0 <= i < j < |full| ensures key(full[i]) != key(full[j]) {
        assert full[j] == s[j - 1];
        if i > 0 { assert full[i] == s[i - 1]; }
      }
    }
  }

  /** Sorting keeps the keys of the elements distinct. */
  lemma {:induction false} SortKeysDistinct<T, K>(s: seq<T>, le: (T, T) -> bool, key: T -> K)
    requires KeysDistinct(s, key)
    ensures KeysDistinct(SortBy(s, le), key)
    decreases |s|
  {
    if s != [] {
      var p, x := s[..|s| - 1], s[|s| - 1];
      SortKeysDistinct(p, le, key);
      var q := SortBy(p, le);
      forall i | 0 <= i < |q| ensures key(q[i]) != key(x) {
        assert q[i] in multiset(q);
        var m :| 0 <= m < |p| && p[m] == q[i];
        assert key(s[m]) != key(s[|s| - 1]);
      }
      InsertKeysDistinct(x, q, le, key);
    }
  }
}

/** Grouping a sequence by a key, keeping first-appearance order of the keys and input
    order within each group: the shape of a JavaScript object filled by `push` in a loop
    whose values are read back in insertion order. */
module Grouping {
  import opened Seqs

  /** The keys of `s`, each once, in the order in which they first appear. */
  function DistinctKeys<T, K(==)>(s: seq<T>, key: T -> K): seq<K>
    decreases |s|
  {
    if s == [] then []
    else
      var ks := DistinctKeys(s[..|s| - 1], key);
      if key(s[|s| - 1]) in ks then ks else ks + [key(s[|s| - 1])]
  }

  /** The distinct keys are pairwise different, and they are exactly the keys of `s`. */
  lemma {:induction false} DistinctKeysSpec<T, K>(s: seq<T>, key: T -> K)
    ensures var ks := DistinctKeys(s, key);
            && (forall i, j :: 0 <= i < j < |ks| ==> ks[i] != ks[j])
            && (forall i :: 0 <= i < |s| ==> key(s[i]) in ks)
            && (forall j :: 0 <= j < |ks| ==> exists i :: 0 <= i < |s| && key(s[i]) == ks[j])
    decreases |s|
  {
    if s != [] {
      var p, x := s[..|s| - 1], s[|s| - 1];
      var kp, ks := DistinctKeys(p, key), DistinctKeys(s, key);
      DistinctKeysSpec(p, key);
      assert ks == if key(x) in kp then kp else kp + [key(x)];
      forall i | 0 <= i < |s| ensures key(s[i]) in ks {
        if i < |p| {
          assert s[i] == p[i];
        }
      }
      forall j | 0 <= j < |ks| ensures exists i :: 0 <= i < |s| && key(s[i]) == ks[j] {
        if j < |kp| {
          var i :| 0 <= i < |p| && key(p[i]) == kp[j];
          assert s[i] == p[i];
        } else {
          assert key(s[|s| - 1]) == ks[j];
        }
      }
    }
  }

  /** The key of every element is among the distinct keys. */
  lemma KeyListed<T, K>(s: seq<T>, key: T -> K, i: int)
    requires 0 <= i < |s|
    ensures key(s[i]) in DistinctKeys(s, key)
  {
    DistinctKeysSpec(s, key);
  }

  /** The elements of `s` whose key is `k`, in input order. */
  function Bucket<T, K(==)>(s: seq<T>, key: T -> K, k: K): seq<T> {
    Filter(s, (x: T) => key(x) == k)
  }

  /** Total size of the buckets named by `ks`. */
  function SumSizes<T, K(==)>(s: seq<T>, key: T -> K, ks: seq<K>): nat
    decreases |ks|
  {
    if ks == [] then 0 else |Bucket(s, key, ks[0])| + SumSizes(s, key, ks[1..])
  }

  lemma BucketSnoc<T, K>(p: seq<T>, x: T, key: T -> K, k: K)
    ensures Bucket(p + [x], key, k) == Bucket(p, key, k) + (if key(x) == k then [x] else [])
  {
    FilterAppend(p, [x], (y: T) => key(y) == k);
  }

  /** A bucket is the order-preserving sublist of the elements with its key. */
  lemma BucketSpec<T, K>(s: seq<T>, key: T -> K, k: K)
    ensures IsSubsequence(Bucket(s, key, k), s)
    ensures forall x :: x in Bucket(s, key, k) <==> x in s && key(x) == k
  {
    FilterIsSubsequence(s, (x: T) => key(x) == k);
    FilterMembers(s, (x: T) => key(x) == k);
  }

  /** No element carries a key that none of the elements has. */
  lemma BucketEmpty<T, K>(s: seq<T>, key: T -> K, k: K)
    requires forall i :: 0 <= i < |s| ==> key(s[i]) != k
    ensures Bucket(s, key, k) == []
  {
    FilterNone(s, (x: T) => key(x) == k);
  }

  /** A key that no element has has an empty bucket. */
  lemma KeyUnseen<T, K>(s: seq<T>, key: T -> K, k: K)
    requires k !in DistinctKeys(s, key)
    ensures Bucket(s, key, k) == []
  {
    DistinctKeysSpec(s, key);
    BucketEmpty(s, key, k);
  }

  lemma {:induction false} SumSizesSnoc<T, K>(p: seq<T>, x: T, key: T -> K, ks: seq<K>)
    requires forall i, j :: 0 <= i < j < |ks| ==> ks[i] != ks[j]
    ensures SumSizes(p + [x], key, ks) == SumSizes(p, key, ks) + (if key(x) in ks then 1 else 0)
    decreases |ks|
  {
    if ks != [] {
      BucketSnoc(p, x, key, ks[0]);
      SumSizesSnoc(p, x, key, ks[1..]);
      assert key(x) in ks <==> key(x) == ks[0] || key(x) in ks[1..];
    }
  }

  lemma {:induction false} SumSizesAppend<T, K>(s: seq<T>, key: T -> K, ks: seq<K>, k: K)
    ensures SumSizes(s, key, ks + [k]) == SumSizes(s, key, ks) + |Bucket(s, key, k)|
    decreases |ks|
  {
    if ks != [] {
      assert (ks + [k])[1..] == ks[1..] + [k];
      SumSizesAppend(s, key, ks[1..], k);
    }
  }

  /** Grouping conserves elements: the buckets of the distinct keys hold |s| elements. */
  lemma {:induction false} GroupingConserves<T, K>(s: seq<T>, key: T -> K)
    ensures SumSizes(s, key, DistinctKeys(s, key)) == |s|
    decreases |s|
  {
    if s != [] {
      var p, x := s[..|s| - 1], s[|s| - 1];
      assert s == p + [x];
      var ks := DistinctKeys(p, key);
      DistinctKeysSpec(p, key);
      GroupingConserves(p, key);
      SumSizesSnoc(p, x, key, ks);
      if key(x) !in ks {
        SumSizesAppend(s, key, ks, key(x));
        BucketSnoc(p, x, key, key(x));
        BucketEmpty(p, key, key(x));
      }
    }
  }

  /** `s.map(key)`. */
  function Keys<T, K>(s: seq<T>, key: T -> K): (r: seq<K>)
    ensures |r| == |s|
    ensures forall i :: 0 <= i < |s| ==> r[i] == key(s[i])
  {
    seq(|s|, i requires 0 <= i < |s| => key(s[i]))
  }

  /** The first element of each key, in input order (`deduplicateByKey`, keeping the first). */
  function Dedup<T, K(==)>(s: seq<T>, key: T -> K): seq<T>
    decreases |s|
  {
    if s == [] then []
    else
      var p, x := s[..|s| - 1], s[|s| - 1];
      if key(x) in DistinctKeys(p, key) then Dedup(p, key) else Dedup(p, key) + [x]
  }

  /** The survivors carry exactly the distinct keys, once each, in first-appearance order. */
  lemma {:induction false} DedupKeys<T, K>(s: seq<T>, key: T -> K)
    ensures Keys(Dedup(s, key), key) == DistinctKeys(s, key)
    decreases |s|
  {
    if s != [] {
      var p, x := s[..|s| - 1], s[|s| - 1];
      DedupKeys(p, key);
      var d := Dedup(p, key);
      if key(x) !in DistinctKeys(p, key) {
        assert Keys(d + [x], key) == Keys(d, key) + [key(x)];
      }
    }
  }

  /** Each survivor is the first element of `s` with its key. */
  lemma {:induction false} DedupFirst<T, K>(s: seq<T>, key: T -> K)
    ensures forall j :: 0 <= j < |Dedup(s, key)| ==>
              var k := key(Dedup(s, key)[j]);
              Bucket(s, key, k) != [] && Dedup(s, key)[j] == Bucket(s, key, k)[0]
    decreases |s|
  {
    if s != [] {
      var p, x := s[..|s| - 1], s[|s| - 1];
      assert s == p + [x];
      DedupFirst(p, key);
      var d := Dedup(p, key);
      forall j | 0 <= j < |d|
        ensures Bucket(s, key, key(d[j])) != [] && d[j] == Bucket(s, key, key(d[j]))[0]
      {
        BucketSnoc(p, x, key, key(d[j]));
      }
      if key(x) !in DistinctKeys(p, key) {
        BucketSnoc(p, x, key, key(x));
        KeyUnseen(p, key, key(x));
        assert Dedup(s, key) == d + [x];
      }
    }
  }

  /** Deduplicating a longer list keeps the survivors of its prefix in front. */
  lemma {:induction false} DedupPrefix<T, K>(a: seq<T>, b: seq<T>, key: T -> K)
    ensures |Dedup(a, key)| <= |Dedup(a + b, key)|
    ensures Dedup(a + b, key)[..|Dedup(a, key)|] == Dedup(a, key)
    decreases |b|
  {
    if b == [] {
      assert a + b == a;
    } else {
      var b', y := b[..|b| - 1], b[|b| - 1];
      assert (a + b)[..|a + b| - 1] == a + b';
      assert (a + b)[|a + b| - 1] == y;
      DedupPrefix(a, b', key);
    }
  }

  /** Every bucket of a key of `s` is a non-empty, order-preserving sublist of `s`. */
  lemma BucketOfKey<T, K>(s: seq<T>, key: T -> K, k: K)
    requires k in DistinctKeys(s, key)
    ensures Bucket(s, key, k) != []
    ensures IsSubsequence(Bucket(s, key, k), s)
    ensures forall i :: 0 <= i < |Bucket(s, key, k)| ==> key(Bucket(s, key, k)[i]) == k
  {
    var ks := DistinctKeys(s, key);
    DistinctKeysSpec(s, key);
    var j :| 0 <= j < |ks| && ks[j] == k;
    var i :| 0 <= i < |s| && key(s[i]) == k;
    FilterMembers(s, (x: T) => key(x) == k);
    assert s[i] in Bucket(s, key, k);
    FilterIsSubsequence(s, (x: T) => key(x) == k);
  }
}
