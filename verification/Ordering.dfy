/**
 The order in which the service lays out variants: keys are compared code point
 by code point, and lists are sorted by key with a stable sort.
 */
module Ordering {
  import opened Wrappers

  /** Lexicographic order on strings (not the prefix order that `<=` denotes). */
  predicate LexLe(a: string, b: string) {
    if a == [] then true
    else if b == [] then false
    else if a[0] == b[0] then LexLe(a[1..], b[1..])
    else a[0] < b[0]
  }

  lemma {:induction false} LexTotal(a: string, b: string)
    ensures LexLe(a, b) || LexLe(b, a)
  {
    if a != [] && b != [] && a[0] == b[0] {
      LexTotal(a[1..], b[1..]);
    }
  }

  lemma {:induction false} LexAntisymmetric(a: string, b: string)
    requires LexLe(a, b) && LexLe(b, a)
    ensures a == b
  {
    if a != [] && b != [] {
      LexAntisymmetric(a[1..], b[1..]);
    }
  }

  lemma {:induction false} LexTransitive(a: string, b: string, c: string)
    requires LexLe(a, b) && LexLe(b, c)
    ensures LexLe(a, c)
  {
    if a != [] && b != [] && c != [] && a[0] == b[0] == c[0] {
      LexTransitive(a[1..], b[1..], c[1..]);
    }
  }

  /** No two entries carry the same key. */
  ghost predicate DistinctKeys<T(!new)>(xs: seq<T>, key: T -> string) {
    forall i, j :: 0 <= i < j < |xs| ==> key(xs[i]) != key(xs[j])
  }

  ghost predicate SortedBy<T(!new)>(xs: seq<T>, key: T -> string) {
    forall i, j :: 0 <= i < j < |xs| ==> LexLe(key(xs[i]), key(xs[j]))
  }

  function InsertBy<T>(x: T, xs: seq<T>, key: T -> string): seq<T> {
    if xs == [] then [x]
    else if LexLe(key(x), key(xs[0])) then [x] + xs
    else [xs[0]] + InsertBy(x, xs[1..], key)
  }

  /** `sorted(xs, key=...)`: entries with equal keys keep their relative order. */
  function SortBy<T>(xs: seq<T>, key: T -> string): seq<T> {
    if xs == [] then [] else InsertBy(xs[0], SortBy(xs[1..], key), key)
  }

  lemma {:induction false} InsertKeeps<T>(x: T, xs: seq<T>, key: T -> string)
    ensures multiset(InsertBy(x, xs, key)) == multiset{x} + multiset(xs)
  {
    if xs != [] && !LexLe(key(x), key(xs[0])) {
      InsertKeeps(x, xs[1..], key);
      assert xs == [xs[0]] + xs[1..];
    }
  }

  lemma {:induction false} InsertSorted<T(!new)>(x: T, xs: seq<T>, key: T -> string)
    requires SortedBy(xs, key)
    ensures SortedBy(InsertBy(x, xs, key), key)
  {
    if xs == [] {
    } else if LexLe(key(x), key(xs[0])) {
      var r := [x] + xs;
      forall j | 1 <= j < |r| ensures LexLe(key(x), key(r[j])) {
        if j > 1 {
          LexTransitive(key(x), key(xs[0]), key(xs[j - 1]));
        }
      }
    } else {
      LexTotal(key(x), key(xs[0]));
      var tail := InsertBy(x, xs[1..], key);
      InsertSorted(x, xs[1..], key);
      InsertKeeps(x, xs[1..], key);
      forall j | 0 <= j < |tail| ensures LexLe(key(xs[0]), key(tail[j])) {
        assert tail[j] in multiset(tail);
        assert tail[j] == x || tail[j] in xs[1..];
      }
    }
  }

  /** Sorting yields a sorted permutation. */
  lemma {:induction false} SortIsSortedPermutation<T(!new)>(xs: seq<T>, key: T -> string)
    ensures SortedBy(SortBy(xs, key), key)
    ensures multiset(SortBy(xs, key)) == multiset(xs)
    ensures |SortBy(xs, key)| == |xs|
  {
    if xs != [] {
      SortIsSortedPermutation(xs[1..], key);
      InsertSorted(xs[0], SortBy(xs[1..], key), key);
      InsertKeeps(xs[0], SortBy(xs[1..], key), key);
      assert xs == [xs[0]] + xs[1..];
    }
    assert |multiset(SortBy(xs, key))| == |multiset(xs)|;
  }

  lemma SameMembers<T>(xs: seq<T>, ys: seq<T>)
    requires multiset(xs) == multiset(ys)
    ensures |xs| == |ys|
    ensures forall x :: x in xs <==> x in ys
  {
    assert |multiset(xs)| == |multiset(ys)|;
    forall x ensures x in xs <==> x in ys {
      assert x in xs <==> x in multiset(xs);
      assert x in ys <==> x in multiset(ys);
    }
  }

  lemma IndexOf<T>(x: T, xs: seq<T>) returns (i: nat)
    requires x in xs
    ensures i < |xs| && xs[i] == x
  {
    i :| i < |xs| && xs[i] == x;
  }

  /** An entry that occurs once is not found again in the rest of the list. */
  lemma OccursTwice<T>(xs: seq<T>, i: nat, j: nat)
    requires i < j < |xs| && xs[i] == xs[j]
    ensures multiset(xs)[xs[i]] >= 2
  {
    var rest := xs[..i] + xs[i + 1..];
    assert xs == xs[..i] + [xs[i]] + xs[i + 1..];
    assert rest[j - 1] == xs[j];
    assert rest[j - 1] in multiset(rest);
  }

  lemma {:induction false} DistinctOccurOnce<T(!new)>(xs: seq<T>, key: T -> string, x: T)
    requires DistinctKeys(xs, key)
    ensures multiset(xs)[x] <= 1
  {
    if xs != [] {
      assert xs == [xs[0]] + xs[1..];
      DistinctOccurOnce(xs[1..], key, x);
      assert xs[0] !in xs[1..];
      assert xs[0] !in multiset(xs[1..]);
    }
  }

  /** Distinctness of keys does not depend on the order of the list. */
  lemma DistinctKeysPermutation<T(!new)>(xs: seq<T>, ys: seq<T>, key: T -> string)
    requires multiset(xs) == multiset(ys) && DistinctKeys(xs, key)
    ensures DistinctKeys(ys, key)
  {
    SameMembers(xs, ys);
    forall i, j | 0 <= i < j < |ys| ensures key(ys[i]) != key(ys[j]) {
      if key(ys[i]) == key(ys[j]) {
        assert ys[i] in ys && ys[j] in ys;
        var a := IndexOf(ys[i], xs);
        var b := IndexOf(ys[j], xs);
        assert a == b;
        OccursTwice(ys, i, j);
        DistinctOccurOnce(xs, key, ys[i]);
      }
    }
  }

  lemma SortedHeadsAgree<T(!new)>(xs: seq<T>, ys: seq<T>, key: T -> string)
    requires multiset(xs) == multiset(ys) && xs != [] && ys != []
    requires SortedBy(xs, key) && SortedBy(ys, key) && DistinctKeys(xs, key)
    ensures xs[0] == ys[0]
  {
    SameMembers(xs, ys);
    assert xs[0] in xs && ys[0] in ys;
    var i := IndexOf(xs[0], ys);
    var j := IndexOf(ys[0], xs);
    if j > 0 && i > 0 {
      LexAntisymmetric(key(xs[0]), key(xs[j]));
    }
  }

  /** With distinct keys there is only one sorted arrangement of a list. */
  lemma {:induction false} SortedArrangementIsUnique<T(!new)>(xs: seq<T>, ys: seq<T>, key: T -> string)
    requires multiset(xs) == multiset(ys)
    requires SortedBy(xs, key) && SortedBy(ys, key) && DistinctKeys(xs, key)
    ensures xs == ys
  {
    SameMembers(xs, ys);
    if xs != [] {
      SortedHeadsAgree(xs, ys, key);
      assert xs == [xs[0]] + xs[1..] && ys == [ys[0]] + ys[1..];
      assert multiset(xs[1..]) == multiset(xs) - multiset{xs[0]};
      assert multiset(ys[1..]) == multiset(ys) - multiset{ys[0]};
      SortedArrangementIsUnique(xs[1..], ys[1..], key);
    }
  }

  /** The stored order of a list with distinct keys leaves no trace after sorting. */
  lemma SortForgetsOrder<T(!new)>(xs: seq<T>, ys: seq<T>, key: T -> string)
    requires multiset(xs) == multiset(ys) && DistinctKeys(xs, key)
    ensures SortBy(xs, key) == SortBy(ys, key)
  {
    SortIsSortedPermutation(xs, key);
    SortIsSortedPermutation(ys, key);
    DistinctKeysPermutation(xs, SortBy(xs, key), key);
    SortedArrangementIsUnique(SortBy(xs, key), SortBy(ys, key), key);
  }

  /** The subsequence of entries filed under one key. */
  function WithKey<T>(xs: seq<T>, key: T -> string, k: string): seq<T> {
    if xs == [] then []
    else (if key(xs[0]) == k then [xs[0]] else []) + WithKey(xs[1..], key, k)
  }

  lemma {:induction false} InsertStable<T>(x: T, xs: seq<T>, key: T -> string, k: string)
    ensures WithKey(InsertBy(x, xs, key), key, k) == WithKey([x] + xs, key, k)
  {
    assert ([x] + xs)[1..] == xs;
    if xs != [] && !LexLe(key(x), key(xs[0])) {
      InsertStable(x, xs[1..], key, k);
      assert ([x] + xs[1..])[1..] == xs[1..];
      assert ([xs[0]] + InsertBy(x, xs[1..], key))[1..] == InsertBy(x, xs[1..], key);
      LexTotal(key(x), key(x));
    }
  }

  /** Entries with equal keys keep their relative order. */
  lemma {:induction false} SortIsStable<T>(xs: seq<T>, key: T -> string, k: string)
    ensures WithKey(SortBy(xs, key), key, k) == WithKey(xs, key, k)
  {
    if xs != [] {
      SortIsStable(xs[1..], key, k);
      var tail := SortBy(xs[1..], key);
      InsertStable(xs[0], tail, key, k);
      assert ([xs[0]] + tail)[1..] == tail;
    }
  }

  lemma {:induction false} SortOfSorted<T(!new)>(xs: seq<T>, key: T -> string)
    requires SortedBy(xs, key)
    ensures SortBy(xs, key) == xs
  {
    if xs != [] {
      SortOfSorted(xs[1..], key);
      assert |xs| > 1 ==> LexLe(key(xs[0]), key(xs[1]));
    }
  }

  /** Sorting a sorted list again changes nothing. */
  lemma SortIdempotent<T(!new)>(xs: seq<T>, key: T -> string)
    ensures SortBy(SortBy(xs, key), key) == SortBy(xs, key)
  {
    SortIsSortedPermutation(xs, key);
    SortOfSorted(SortBy(xs, key), key);
  }

  lemma {:induction false} MapInsert<T(!new), U>(x: T, xs: seq<T>, f: T -> U, key: T -> string, key': U -> string)
    requires forall t :: key'(f(t)) == key(t)
    ensures MapSeq(f, InsertBy(x, xs, key)) == InsertBy(f(x), MapSeq(f, xs), key')
  {
    if xs == [] {
    } else if LexLe(key(x), key(xs[0])) {
      assert MapSeq(f, [x] + xs) == [f(x)] + MapSeq(f, xs);
    } else {
      MapInsert(x, xs[1..], f, key, key');
      assert MapSeq(f, xs)[1..] == MapSeq(f, xs[1..]);
      assert MapSeq(f, [xs[0]] + InsertBy(x, xs[1..], key))
          == [f(xs[0])] + MapSeq(f, InsertBy(x, xs[1..], key));
    }
  }

  /** Converting the entries commutes with sorting, when keys are kept. */
  lemma {:induction false} MapSort<T(!new), U>(xs: seq<T>, f: T -> U, key: T -> string, key': U -> string)
    requires forall t :: key'(f(t)) == key(t)
    ensures MapSeq(f, SortBy(xs, key)) == SortBy(MapSeq(f, xs), key')
  {
    if xs == [] {
    } else {
      MapSort(xs[1..], f, key, key');
      MapInsert(xs[0], SortBy(xs[1..], key), f, key, key');
      assert MapSeq(f, xs)[1..] == MapSeq(f, xs[1..]);
    }
  }
}
