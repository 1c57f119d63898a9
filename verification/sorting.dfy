/** A stable sort by a real-valued key, the behaviour of an in-place list sort
    with a key function: elements are ordered by key, and elements with equal
    keys keep their original relative order. */
module Sorting {

  /** Keys are non-decreasing along `s`. */
  ghost predicate SortedBy<T>(s: seq<T>, key: T -> real) {
    forall i, j :: 0 <= i < j < |s| ==> key(s[i]) <= key(s[j])
  }

  /** The elements of `s` whose key is `k`, in their order in `s`. */
  function Filter<T>(s: seq<T>, key: T -> real, k: real): seq<T> {
    if s == [] then []
    else Filter(s[..|s| - 1], key, k) + (if key(s[|s| - 1]) == k then [s[|s| - 1]] else [])
  }

  /** Places `x` after every element of `r` whose key is at most `x`'s key,
      scanning from the back. */
  function Insert<T>(r: seq<T>, x: T, key: T -> real): (o: seq<T>)
    ensures |o| == |r| + 1
  {
    if r == [] || key(r[|r| - 1]) <= key(x) then r + [x]
    else
      var rest := r[..|r| - 1];
      Insert(rest, x, key) + [r[|r| - 1]]
  }

  /** Insertion sort of `s`: the reference definition of a stable sort. */
  function SortBy<T>(s: seq<T>, key: T -> real): (o: seq<T>)
    ensures |o| == |s|
  {
    if s == [] then []
    else
      Insert(SortBy(s[..|s| - 1], key), s[|s| - 1], key)
  }

  lemma {:induction false} FilterAppend<T>(a: seq<T>, b: seq<T>, key: T -> real, k: real)
    ensures Filter(a + b, key, k) == Filter(a, key, k) + Filter(b, key, k)
    decreases |b|
  {
    if b == [] {
      assert a + b == a;
    } else {
      var b' := b[..|b| - 1];
      assert (a + b)[..|a + b| - 1] == a + b';
      FilterAppend(a, b', key, k);
    }
  }

  /** Every key in `Insert(r, x, key)` is bounded by a bound on `r` and on `x`. */
  lemma {:induction false} InsertBounded<T>(r: seq<T>, x: T, key: T -> real, b: real)
    requires forall i :: 0 <= i < |r| ==> key(r[i]) <= b
    requires key(x) <= b
    ensures forall i :: 0 <= i < |Insert(r, x, key)| ==> key(Insert(r, x, key)[i]) <= b
    decreases |r|
  {
    if r != [] && key(r[|r| - 1]) > key(x) {
      InsertBounded(r[..|r| - 1], x, key, b);
    }
  }

  lemma {:induction false} InsertSorted<T>(r: seq<T>, x: T, key: T -> real)
    requires SortedBy(r, key)
    ensures SortedBy(Insert(r, x, key), key)
    decreases |r|
  {
    if r == [] || key(r[|r| - 1]) <= key(x) {
    } else {
      var rest, last := r[..|r| - 1], r[|r| - 1];
      assert SortedBy(rest, key);
      InsertSorted(rest, x, key);
      var ins := Insert(rest, x, key);
      InsertBounded(rest, x, key, key(last));
      var o := ins + [last];
      assert Insert(r, x, key) == o;
      forall i, j | 0 <= i < j < |o| ensures key(o[i]) <= key(o[j]) {
        if j == |o| - 1 {
          assert o[i] == ins[i];
        } else {
          assert o[i] == ins[i] && o[j] == ins[j];
        }
      }
    }
  }

  /** Inserting adds exactly one occurrence of `x`. */
  lemma {:induction false} InsertPermutation<T>(r: seq<T>, x: T, key: T -> real)
    ensures multiset(Insert(r, x, key)) == multiset(r) + multiset{x}
    decreases |r|
  {
    if r != [] && key(r[|r| - 1]) > key(x) {
      var rest, last := r[..|r| - 1], r[|r| - 1];
      InsertPermutation(rest, x, key);
      assert r == rest + [last];
    }
  }

  /** Sorting is a permutation. */
  lemma {:induction false} SortByPermutation<T>(s: seq<T>, key: T -> real)
    ensures multiset(SortBy(s, key)) == multiset(s)
    decreases |s|
  {
    if s != [] {
      var init, last := s[..|s| - 1], s[|s| - 1];
      SortByPermutation(init, key);
      InsertPermutation(SortBy(init, key), last, key);
      assert s == init + [last];
    }
  }

  /** The subsequence of a one-element sequence. */
  lemma FilterSingle<T>(x: T, key: T -> real, k: real)
    ensures Filter([x], key, k) == if key(x) == k then [x] else []
  {
    assert [x][..0] == [];
  }

  /** Inserting `x` adds it to the end of its key's subsequence: stability of one step. */
  lemma {:induction false} InsertFilter<T>(r: seq<T>, x: T, key: T -> real, k: real)
    ensures Filter(Insert(r, x, key), key, k) == Filter(r, key, k) + Filter([x], key, k)
    decreases |r|
  {
    if r == [] || key(r[|r| - 1]) <= key(x) {
      assert Insert(r, x, key) == r + [x];
      FilterAppend(r, [x], key, k);
    } else {
      var rest, last := r[..|r| - 1], r[|r| - 1];
      var ins := Insert(rest, x, key);
      assert Insert(r, x, key) == ins + [last];
      InsertFilter(rest, x, key, k);
      FilterAppend(ins, [last], key, k);
      FilterSingle(last, key, k);
      FilterSingle(x, key, k);
      assert Filter(r, key, k) == Filter(rest, key, k) + Filter([last], key, k);
    }
  }

  lemma {:induction false} SortBySorted<T>(s: seq<T>, key: T -> real)
    ensures SortedBy(SortBy(s, key), key)
    decreases |s|
  {
    if s != [] {
      SortBySorted(s[..|s| - 1], key);
      InsertSorted(SortBy(s[..|s| - 1], key), s[|s| - 1], key);
    }
  }

  /** Sorting keeps, for every key, the subsequence of elements with that key. */
  lemma {:induction false} SortByStable<T>(s: seq<T>, key: T -> real, k: real)
    ensures Filter(SortBy(s, key), key, k) == Filter(s, key, k)
    decreases |s|
  {
    if s != [] {
      var init, last := s[..|s| - 1], s[|s| - 1];
      SortByStable(init, key, k);
      InsertFilter(SortBy(init, key), last, key, k);
      FilterAppend(init, [last], key, k);
      assert init + [last] == s;
    }
  }

  /** Sorting a sequence that is already sorted leaves it unchanged. */
  lemma {:induction false} SortBySortedIdentity<T>(s: seq<T>, key: T -> real)
    requires SortedBy(s, key)
    ensures SortBy(s, key) == s
    decreases |s|
  {
    if s != [] {
      var init, last := s[..|s| - 1], s[|s| - 1];
      assert SortedBy(init, key) by {
        forall i, j | 0 <= i < j < |init| ensures key(init[i]) <= key(init[j]) {
          assert init[i] == s[i] && init[j] == s[j];
        }
      }
      SortBySortedIdentity(init, key);
      assert SortBy(s, key) == Insert(init, last, key);
      assert init == [] || key(init[|init| - 1]) <= key(last) by {
        if init != [] {
          assert init[|init| - 1] == s[|s| - 2];
        }
      }
      assert s == init + [last];
    }
  }

  /** Every element lies in the subsequence of its own key. */
  lemma {:induction false} FilterHasKeyed<T>(s: seq<T>, key: T -> real, i: nat)
    requires i < |s|
    ensures s[i] in Filter(s, key, key(s[i]))
    decreases |s|
  {
    if i < |s| - 1 {
      FilterHasKeyed(s[..|s| - 1], key, i);
    }
  }

  /** The subsequence of key `k` holds elements of `s` with key `k` only. */
  lemma {:induction false} FilterMembers<T>(s: seq<T>, key: T -> real, k: real, x: T)
    requires x in Filter(s, key, k)
    ensures key(x) == k
    ensures exists i :: 0 <= i < |s| && s[i] == x
    decreases |s|
  {
    var init := s[..|s| - 1];
    if x in Filter(init, key, k) {
      FilterMembers(init, key, k, x);
      var i :| 0 <= i < |init| && init[i] == x;
      assert s[i] == x;
    } else {
      assert s[|s| - 1] == x;
    }
  }

  /** In a sorted sequence no key exceeds the last one. */
  lemma SortedLastIsMax<T>(s: seq<T>, key: T -> real, x: T)
    requires SortedBy(s, key) && s != []
    requires exists i :: 0 <= i < |s| && s[i] == x
    ensures key(x) <= key(s[|s| - 1])
  {
    var i :| 0 <= i < |s| && s[i] == x;
    if i < |s| - 1 {
      assert key(s[i]) <= key(s[|s| - 1]);
    }
  }

  lemma SortedInit<T>(s: seq<T>, key: T -> real)
    requires SortedBy(s, key) && s != []
    ensures SortedBy(s[..|s| - 1], key)
  {
    var init := s[..|s| - 1];
    forall i, j | 0 <= i < j < |init| ensures key(init[i]) <= key(init[j]) {
      assert init[i] == s[i] && init[j] == s[j];
    }
  }

  /** Sequences with the same subsequences and the same last element have
      the same subsequences without it. */
  lemma FilterDropLast<T>(a: seq<T>, b: seq<T>, x: T, key: T -> real)
    requires forall k :: Filter(a + [x], key, k) == Filter(b + [x], key, k)
    ensures forall k :: Filter(a, key, k) == Filter(b, key, k)
  {
    forall k ensures Filter(a, key, k) == Filter(b, key, k) {
      var fa, fb := Filter(a, key, k), Filter(b, key, k);
      var t := if key(x) == k then [x] else [];
      assert fa + t == fb + t by {
        assert (a + [x])[..|a|] == a && (b + [x])[..|b|] == b;
        assert Filter(a + [x], key, k) == fa + t;
        assert Filter(b + [x], key, k) == fb + t;
      }
      assert (fa + t)[..|fa|] == fa;
      assert (fb + t)[..|fb|] == fb;
    }
  }

  /** An element of one sequence has a key no larger than the last key of
      a sorted sequence with the same subsequences. */
  lemma KeyBoundedByLast<T>(a: seq<T>, b: seq<T>, key: T -> real, i: nat)
    requires i < |a| && b != [] && SortedBy(b, key)
    requires Filter(a, key, key(a[i])) == Filter(b, key, key(a[i]))
    ensures key(a[i]) <= key(b[|b| - 1])
  {
    FilterHasKeyed(a, key, i);
    FilterMembers(b, key, key(a[i]), a[i]);
    SortedLastIsMax(b, key, a[i]);
  }

  /** Two non-empty sorted sequences with the same subsequences end with
      the same element: the last of the largest key's subsequence. */
  lemma SortedSameLast<T>(a: seq<T>, b: seq<T>, key: T -> real)
    requires a != [] && b != []
    requires SortedBy(a, key) && SortedBy(b, key)
    requires forall k :: Filter(a, key, k) == Filter(b, key, k)
    ensures a[|a| - 1] == b[|b| - 1]
  {
    var x, y := a[|a| - 1], b[|b| - 1];
    KeyBoundedByLast(a, b, key, |a| - 1);
    KeyBoundedByLast(b, a, key, |b| - 1);
    var K := key(x);
    var fa, fb := Filter(a[..|a| - 1], key, K) + [x], Filter(b[..|b| - 1], key, K) + [y];
    assert Filter(a, key, K) == fa && Filter(b, key, K) == fb;
    assert fa[|fa| - 1] == x && fb[|fb| - 1] == y;
  }

  /** A stable sort has one possible outcome: two sorted sequences with the
      same subsequence for every key are equal. */
  lemma {:induction false} SortedStableUnique<T>(a: seq<T>, b: seq<T>, key: T -> real)
    requires SortedBy(a, key) && SortedBy(b, key)
    requires forall k :: Filter(a, key, k) == Filter(b, key, k)
    ensures a == b
    decreases |a|
  {
    if a == [] || b == [] {
      if a != [] {
        FilterHasKeyed(a, key, |a| - 1);
        assert false;
      } else if b != [] {
        FilterHasKeyed(b, key, |b| - 1);
        assert false;
      }
    } else {
      SortedSameLast(a, b, key);
      var a', b', x := a[..|a| - 1], b[..|b| - 1], a[|a| - 1];
      assert a == a' + [x] && b == b' + [x];
      FilterDropLast(a', b', x, key);
      SortedInit(a, key);
      SortedInit(b, key);
      SortedStableUnique(a', b', key);
    }
  }

  /** The reference sort is the only sorted rearrangement that keeps every
      key's subsequence. */
  lemma SortByCharacterized<T>(s: seq<T>, o: seq<T>, key: T -> real)
    requires SortedBy(o, key)
    requires forall k :: Filter(o, key, k) == Filter(s, key, k)
    ensures o == SortBy(s, key)
  {
    SortBySorted(s, key);
    forall k ensures Filter(o, key, k) == Filter(SortBy(s, key), key, k) {
      SortByStable(s, key, k);
    }
    SortedStableUnique(o, SortBy(s, key), key);
  }

  /** The two-way merge of two sequences, built from the back: the later
      of the two last elements goes last, `b`'s on equal keys, so that `a`'s
      elements precede `b`'s among equal keys. */
  function MergeBy<T>(a: seq<T>, b: seq<T>, key: T -> real): (o: seq<T>)
    ensures |o| == |a| + |b|
    decreases |a| + |b|
  {
    if a == [] then b
    else if b == [] then a
    else if key(a[|a| - 1]) > key(b[|b| - 1]) then MergeBy(a[..|a| - 1], b, key) + [a[|a| - 1]]
    else MergeBy(a, b[..|b| - 1], key) + [b[|b| - 1]]
  }

  /** Merging keeps every key at or below a common upper bound. */
  lemma {:induction false} MergeByBounded<T>(a: seq<T>, b: seq<T>, key: T -> real, c: real)
    requires forall i :: 0 <= i < |a| ==> key(a[i]) <= c
    requires forall i :: 0 <= i < |b| ==> key(b[i]) <= c
    ensures forall i :: 0 <= i < |a| + |b| ==> key(MergeBy(a, b, key)[i]) <= c
    decreases |a| + |b|
  {
    if a != [] && b != [] {
      if key(a[|a| - 1]) > key(b[|b| - 1]) {
        MergeByBounded(a[..|a| - 1], b, key, c);
      } else {
        MergeByBounded(a, b[..|b| - 1], key, c);
      }
    }
  }

  /** In a sorted sequence every key is at most the last one. */
  lemma SortedBelowLast<T>(s: seq<T>, key: T -> real)
    requires SortedBy(s, key) && s != []
    ensures forall i :: 0 <= i < |s| ==> key(s[i]) <= key(s[|s| - 1])
  {
    forall i | 0 <= i < |s| ensures key(s[i]) <= key(s[|s| - 1]) {
      if i < |s| - 1 {
        assert key(s[i]) <= key(s[|s| - 1]);
      }
    }
  }

  /** Appending an element no smaller than every key keeps a sequence sorted. */
  lemma SortedSnoc<T>(s: seq<T>, x: T, key: T -> real)
    requires SortedBy(s, key)
    requires forall i :: 0 <= i < |s| ==> key(s[i]) <= key(x)
    ensures SortedBy(s + [x], key)
  {
    var t := s + [x];
    forall i, j | 0 <= i < j < |t| ensures key(t[i]) <= key(t[j]) {
      assert t[i] == s[i];
      if j < |s| {
        assert t[j] == s[j];
      }
    }
  }

  /** The merge of two sorted sequences is sorted. */
  lemma {:induction false} MergeBySorted<T>(a: seq<T>, b: seq<T>, key: T -> real)
    requires SortedBy(a, key) && SortedBy(b, key)
    ensures SortedBy(MergeBy(a, b, key), key)
    decreases |a| + |b|
  {
    if a != [] && b != [] {
      SortedBelowLast(a, key);
      SortedBelowLast(b, key);
      if key(a[|a| - 1]) > key(b[|b| - 1]) {
        var a', x := a[..|a| - 1], a[|a| - 1];
        SortedInit(a, key);
        MergeBySorted(a', b, key);
        MergeByBounded(a', b, key, key(x));
        SortedSnoc(MergeBy(a', b, key), x, key);
      } else {
        var b', x := b[..|b| - 1], b[|b| - 1];
        SortedInit(b, key);
        MergeBySorted(a, b', key);
        MergeByBounded(a, b', key, key(x));
        SortedSnoc(MergeBy(a, b', key), x, key);
      }
    }
  }

  /** A key that no element carries has an empty subsequence. */
  lemma {:induction false} FilterAbsent<T>(s: seq<T>, key: T -> real, k: real)
    requires forall i :: 0 <= i < |s| ==> key(s[i]) != k
    ensures Filter(s, key, k) == []
    decreases |s|
  {
    if s != [] {
      FilterAbsent(s[..|s| - 1], key, k);
    }
  }

  /** Merging two sequences, the second sorted, keeps for every key the
      elements of `a` with that key followed by those of `b`. */
  lemma {:induction false} MergeByFilter<T>(a: seq<T>, b: seq<T>, key: T -> real, k: real)
    requires SortedBy(b, key)
    ensures Filter(MergeBy(a, b, key), key, k) == Filter(a, key, k) + Filter(b, key, k)
    decreases |a| + |b|
  {
    if a == [] {
      assert Filter(a, key, k) == [];
    } else if b == [] {
      assert Filter(b, key, k) == [];
    } else if key(a[|a| - 1]) > key(b[|b| - 1]) {
      var a', x := a[..|a| - 1], a[|a| - 1];
      MergeByFilter(a', b, key, k);
      assert (MergeBy(a', b, key) + [x])[..|a| + |b| - 1] == MergeBy(a', b, key);
      if key(x) == k {
        SortedBelowLast(b, key);
        FilterAbsent(b, key, k);
      }
    } else {
      var b', y := b[..|b| - 1], b[|b| - 1];
      SortedInit(b, key);
      MergeByFilter(a, b', key, k);
      assert (MergeBy(a, b', key) + [y])[..|a| + |b| - 1] == MergeBy(a, b', key);
    }
  }

  /** Sorting the concatenation of two sorted sequences is merging them. */
  lemma SortByIsMerge<T>(a: seq<T>, b: seq<T>, key: T -> real)
    requires SortedBy(a, key) && SortedBy(b, key)
    ensures SortBy(a + b, key) == MergeBy(a, b, key)
  {
    MergeBySorted(a, b, key);
    forall k ensures Filter(MergeBy(a, b, key), key, k) == Filter(a + b, key, k) {
      MergeByFilter(a, b, key, k);
      FilterAppend(a, b, key, k);
    }
    SortByCharacterized(a + b, MergeBy(a, b, key), key);
  }

  /** Where `Insert` places `x`: after the longest prefix of `r` that ends
      with a key at most `x`'s, when every later key is larger. */
  lemma {:induction false} InsertSplit<T>(r: seq<T>, j: nat, x: T, key: T -> real)
    requires j <= |r|
    requires j == 0 || key(r[j - 1]) <= key(x)
    requires forall k :: j <= k < |r| ==> key(r[k]) > key(x)
    ensures Insert(r, x, key) == r[..j] + [x] + r[j..]
    decreases |r|
  {
    if j == |r| {
      assert r[..j] == r && r[j..] == [];
    } else {
      var rest := r[..|r| - 1];
      InsertSplit(rest, j, x, key);
      assert rest[..j] == r[..j];
      assert rest[j..] + [r[|r| - 1]] == r[j..];
    }
  }

  /** A sequence laid out as `r[..j]`, then `x`, then `r[j..]`, then `rest`,
      splits at `|r| + 1` into the insertion and `rest`. */
  lemma InsertedLayout<T>(b: seq<T>, r: seq<T>, x: T, rest: seq<T>, j: nat)
    requires j <= |r| && |b| == |r| + 1 + |rest|
    requires forall k :: 0 <= k < j ==> b[k] == r[k]
    requires b[j] == x
    requires forall k :: j < k <= |r| ==> b[k] == r[k - 1]
    requires forall k :: |r| < k < |b| ==> b[k] == rest[k - |r| - 1]
    ensures b[..|r| + 1] == r[..j] + [x] + r[j..]
    ensures b[|r| + 1..] == rest
  {
    var result := r[..j] + [x] + r[j..];
    forall k | 0 <= k <= |r| ensures b[k] == result[k] {
      if k < j {
        assert result[k] == r[..j][k];
      } else if k > j {
        assert result[k] == r[j..][k - j - 1];
      }
    }
    assert b[..|r| + 1] == result;
    forall k | 0 <= k < |rest| ensures b[|r| + 1..][k] == rest[k] {
      assert b[|r| + 1..][k] == b[|r| + 1 + k];
    }
  }

  /** Shifts the larger elements of the sorted prefix `a[..i]` up by one and
      writes `a[i]` into the gap. */
  method InsertAt<T>(a: array<T>, i: nat, key: T -> real)
    requires i < a.Length
    modifies a
    ensures a[..i + 1] == Insert(old(a[..i]), old(a[i]), key)
    ensures a[i + 1..] == old(a[i + 1..])
  {
    ghost var r := a[..i];
    ghost var rest := a[i + 1..];
    var x := a[i];
    var j := i;
    while j > 0 && key(a[j - 1]) > key(x)
      invariant 0 <= j <= i
      invariant forall k :: 0 <= k < j ==> a[k] == r[k]
      invariant forall k :: j < k <= i ==> a[k] == r[k - 1]
      invariant forall k :: i < k < a.Length ==> a[k] == rest[k - i - 1]
      invariant forall k :: j <= k < i ==> key(r[k]) > key(x)
    {
      a[j] := a[j - 1];
      j := j - 1;
    }
    a[j] := x;
    InsertSplit(r, j, x, key);
    InsertedLayout(a[..], r, x, rest, j);
  }

  /** In-place insertion sort of `a` by `key`. */
  method InsertionSort<T>(a: array<T>, key: T -> real)
    modifies a
    ensures a[..] == SortBy(old(a[..]), key)
  {
    ghost var orig := a[..];
    var i := 0;
    while i < a.Length
      invariant 0 <= i <= a.Length
      invariant a[..i] == SortBy(orig[..i], key)
      invariant a[i..] == orig[i..]
    {
      assert a[i] == orig[i];
      InsertAt(a, i, key);
      assert orig[..i + 1][..i] == orig[..i];
      i := i + 1;
    }
    assert orig[..a.Length] == orig;
  }
}
