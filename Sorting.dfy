/**
 * Sequence helpers: order-preserving filtering, concatenation of per-item
 * blocks, and lodash's `_.sortBy` on string keys, a stable sort specified
 * independently by `StableSortOf`.
 */
module Sorting {
  import opened Text

  /** The elements of `s` that satisfy `p`, in their order in `s`. */
  function Filter<T>(s: seq<T>, p: T -> bool): (r: seq<T>)
    ensures |r| <= |s|
  {
    if s == [] then [] else (if p(s[0]) then [s[0]] else []) + Filter(s[1..], p)
  }

  /** An element is kept exactly when it occurs in `s` and passes `p`. */
  lemma {:induction false} FilterMembers<T>(s: seq<T>, p: T -> bool, x: T)
    ensures x in Filter(s, p) <==> x in s && p(x)
  {
    if s != [] {
      FilterMembers(s[1..], p, x);
      assert s == [s[0]] + s[1..];
    }
  }

  lemma {:induction false} FilterAppend<T>(a: seq<T>, b: seq<T>, p: T -> bool)
    ensures Filter(a + b, p) == Filter(a, p) + Filter(b, p)
  {
    if a != [] {
      assert (a + b)[1..] == a[1..] + b;
      FilterAppend(a[1..], b, p);
    } else {
      assert a + b == b;
    }
  }

  lemma {:induction false} FilterCommute<T>(s: seq<T>, p: T -> bool, q: T -> bool)
    ensures Filter(Filter(s, p), q) == Filter(Filter(s, q), p)
  {
    if s != [] {
      FilterCommute(s[1..], p, q);
      var head := if p(s[0]) then [s[0]] else [];
      FilterAppend(head, Filter(s[1..], p), q);
      var head' := if q(s[0]) then [s[0]] else [];
      FilterAppend(head', Filter(s[1..], q), p);
    }
  }

  lemma {:induction false} FilterKeepsAll<T>(s: seq<T>, p: T -> bool)
    requires forall x :: x in s ==> p(x)
    ensures Filter(s, p) == s
  {
    if s != [] {
      FilterKeepsAll(s[1..], p);
    }
  }

  lemma {:induction false} FilterDropsAll<T>(s: seq<T>, p: T -> bool)
    requires forall x :: x in s ==> !p(x)
    ensures Filter(s, p) == []
  {
    if s != [] {
      FilterDropsAll(s[1..], p);
    }
  }

  /** The blocks of `items`, one after the other, in the order given. */
  function Concat<T>(items: seq<T>, block: T -> seq<string>): seq<string>
  {
    if items == [] then [] else block(items[0]) + Concat(items[1..], block)
  }

  /** The block of the `i`-th item stands between the blocks of the items before and after it. */
  lemma {:induction false} ConcatSplit<T>(items: seq<T>, block: T -> seq<string>, i: nat)
    requires i < |items|
    ensures Concat(items, block) == Concat(items[..i], block) + block(items[i]) + Concat(items[i + 1..], block)
  {
    if i == 0 {
      assert items[..0] == [];
    } else {
      ConcatSplit(items[1..], block, i - 1);
      assert items[1..][..i - 1] == items[1..i];
      assert items[1..][i - 1] == items[i];
      assert items[1..][i..] == items[i + 1..];
      assert items[..i][0] == items[0] && items[..i][1..] == items[1..i];
    }
  }

  /** Every element's key sorts no later than the keys of the elements after it. */
  predicate SortedBy<T>(s: seq<T>, key: T -> string)
  {
    forall i, j :: 0 <= i < j < |s| ==> StrLe(key(s[i]), key(s[j]))
  }

  /** The test "has key `k`". */
  function Keyed<T>(key: T -> string, k: string): T -> bool
  {
    x => key(x) == k
  }

  /**
   * `o` is `s` stably sorted by `key`: `o` is sorted, and for every key the
   * elements of `o` with that key are exactly those of `s`, in the same
   * order (so `o` is a permutation of `s` that keeps ties in input order).
   */
  ghost predicate StableSortOf<T>(o: seq<T>, s: seq<T>, key: T -> string)
  {
    SortedBy(o, key) && forall k :: Filter(o, Keyed(key, k)) == Filter(s, Keyed(key, k))
  }

  /** Places `x` before the first element of `s` whose key is not smaller. */
  function Insert<T>(x: T, s: seq<T>, key: T -> string): (r: seq<T>)
    ensures multiset(r) == multiset(s) + multiset{x}
  {
    if s == [] || StrLe(key(x), key(s[0])) then [x] + s
    else
      assert s == [s[0]] + s[1..];
      [s[0]] + Insert(x, s[1..], key)
  }

  /** `_.sortBy(s, key)`. */
  function SortBy<T>(s: seq<T>, key: T -> string): (r: seq<T>)
    ensures multiset(r) == multiset(s)
  {
    if s == [] then []
    else
      assert s == [s[0]] + s[1..];
      Insert(s[0], SortBy(s[1..], key), key)
  }

  lemma {:induction false} FilterSorted<T>(s: seq<T>, p: T -> bool, key: T -> string)
    requires SortedBy(s, key)
    ensures SortedBy(Filter(s, p), key)
  {
    if s != [] {
      FilterSorted(s[1..], p, key);
      var rest := Filter(s[1..], p);
      if p(s[0]) {
        var r := [s[0]] + rest;
        forall i, j | 0 <= i < j < |r| ensures StrLe(key(r[i]), key(r[j])) {
          if i == 0 {
            FilterMembers(s[1..], p, r[j]);
            assert r[j] in s[1..];
          }
        }
      }
    }
  }

  lemma {:induction false} InsertSorted<T>(x: T, s: seq<T>, key: T -> string)
    requires SortedBy(s, key)
    ensures SortedBy(Insert(x, s, key), key)
  {
    if s == [] || StrLe(key(x), key(s[0])) {
      var r := [x] + s;
      forall i, j | 0 <= i < j < |r| ensures StrLe(key(r[i]), key(r[j])) {
        if i == 0 && j > 1 {
          StrLeTrans(key(x), key(s[0]), key(s[j - 1]));
        }
      }
    } else {
      StrLeTotal(key(x), key(s[0]));
      InsertSorted(x, s[1..], key);
      var t := Insert(x, s[1..], key);
      var r := [s[0]] + t;
      forall i, j | 0 <= i < j < |r| ensures StrLe(key(r[i]), key(r[j])) {
        if i == 0 {
          assert t[j - 1] in multiset(t);
          if t[j - 1] != x {
            assert t[j - 1] in multiset(s[1..]);
            assert t[j - 1] in s[1..];
          }
        }
      }
    }
  }

  lemma {:induction false} SortBySorted<T>(s: seq<T>, key: T -> string)
    ensures SortedBy(SortBy(s, key), key)
  {
    if s != [] {
      SortBySorted(s[1..], key);
      InsertSorted(s[0], SortBy(s[1..], key), key);
    }
  }

  lemma {:induction false} InsertStable<T>(x: T, s: seq<T>, key: T -> string, k: string)
    ensures Filter(Insert(x, s, key), Keyed(key, k)) == Filter([x] + s, Keyed(key, k))
  {
    if !(s == [] || StrLe(key(x), key(s[0]))) {
      InsertStable(x, s[1..], key, k);
      StrLeRefl(key(x));
      assert key(x) != key(s[0]);
      var p := Keyed(key, k);
      var t := Insert(x, s[1..], key);
      assert ([s[0]] + t)[1..] == t;
      assert ([x] + s[1..])[1..] == s[1..];
      assert ([x] + s)[1..] == s;
      assert s == [s[0]] + s[1..];
      calc {
        Filter([s[0]] + t, p);
        (if p(s[0]) then [s[0]] else []) + Filter(t, p);
        (if p(s[0]) then [s[0]] else []) + Filter([x] + s[1..], p);
        (if p(s[0]) then [s[0]] else []) + ((if p(x) then [x] else []) + Filter(s[1..], p));
        (if p(x) then [x] else []) + ((if p(s[0]) then [s[0]] else []) + Filter(s[1..], p));
        (if p(x) then [x] else []) + Filter(s, p);
        Filter([x] + s, p);
      }
    }
  }

  lemma {:induction false} SortByStable<T>(s: seq<T>, key: T -> string, k: string)
    ensures Filter(SortBy(s, key), Keyed(key, k)) == Filter(s, Keyed(key, k))
  {
    if s != [] {
      var p := Keyed(key, k);
      SortByStable(s[1..], key, k);
      InsertStable(s[0], SortBy(s[1..], key), key, k);
      assert ([s[0]] + SortBy(s[1..], key))[1..] == SortBy(s[1..], key);
    }
  }

  /** `_.sortBy` is a stable sort. */
  lemma SortByIsStableSort<T>(s: seq<T>, key: T -> string)
    ensures StableSortOf(SortBy(s, key), s, key)
    ensures multiset(SortBy(s, key)) == multiset(s)
  {
    SortBySorted(s, key);
    forall k ensures Filter(SortBy(s, key), Keyed(key, k)) == Filter(s, Keyed(key, k)) {
      SortByStable(s, key, k);
    }
  }

  lemma FilterCons<T>(x: T, s: seq<T>, p: T -> bool)
    ensures Filter([x] + s, p) == (if p(x) then [x] else []) + Filter(s, p)
  {
    assert ([x] + s)[1..] == s;
  }

  /** An element of `a` occurs in every sequence with the same groups of equal keys. */
  lemma SameGroupsMember<T>(a: seq<T>, b: seq<T>, key: T -> string, x: T)
    requires forall k :: Filter(a, Keyed(key, k)) == Filter(b, Keyed(key, k))
    requires x in a
    ensures x in b
  {
    assert Keyed(key, key(x))(x);
    FilterMembers(a, Keyed(key, key(x)), x);
    assert Filter(a, Keyed(key, key(x))) == Filter(b, Keyed(key, key(x)));
    FilterMembers(b, Keyed(key, key(x)), x);
  }

  /** Sorted sequences with the same groups start with the same element. */
  lemma HeadsEqual<T>(a: seq<T>, b: seq<T>, key: T -> string)
    requires SortedBy(a, key) && SortedBy(b, key)
    requires forall k :: Filter(a, Keyed(key, k)) == Filter(b, Keyed(key, k))
    requires a != []
    ensures b != [] && a[0] == b[0]
  {
    SameGroupsMember(a, b, key, a[0]);
    SameGroupsMember(b, a, key, b[0]);
    StrLeRefl(key(a[0]));
    StrLeRefl(key(b[0]));
    assert StrLe(key(a[0]), key(b[0]));
    assert StrLe(key(b[0]), key(a[0]));
    StrLeAntisym(key(a[0]), key(b[0]));
    var k0 := key(a[0]);
    assert a == [a[0]] + a[1..] && b == [b[0]] + b[1..];
    FilterCons(a[0], a[1..], Keyed(key, k0));
    FilterCons(b[0], b[1..], Keyed(key, k0));
    assert Keyed(key, k0)(a[0]) && Keyed(key, k0)(b[0]);
    assert Filter(a, Keyed(key, k0))[0] == a[0];
    assert Filter(b, Keyed(key, k0))[0] == b[0];
    assert Filter(a, Keyed(key, k0)) == Filter(b, Keyed(key, k0));
  }

  /** Removing one equal first element keeps the groups of equal keys equal. */
  lemma TailGroups<T>(a: seq<T>, b: seq<T>, key: T -> string, k: string)
    requires a != [] && b != [] && a[0] == b[0]
    requires Filter(a, Keyed(key, k)) == Filter(b, Keyed(key, k))
    ensures Filter(a[1..], Keyed(key, k)) == Filter(b[1..], Keyed(key, k))
  {
    assert a == [a[0]] + a[1..] && b == [b[0]] + b[1..];
    FilterCons(a[0], a[1..], Keyed(key, k));
    FilterCons(b[0], b[1..], Keyed(key, k));
    var pre := if key(a[0]) == k then [a[0]] else [];
    assert Filter(a[1..], Keyed(key, k)) == (pre + Filter(a[1..], Keyed(key, k)))[|pre|..];
    assert Filter(b[1..], Keyed(key, k)) == (pre + Filter(b[1..], Keyed(key, k)))[|pre|..];
  }

  /**
   * Two sorted sequences with the same groups of equal keys are equal: a
   * stable sort has exactly one result.
   */
  lemma {:induction false} SortedSameGroupsEqual<T>(a: seq<T>, b: seq<T>, key: T -> string)
    requires SortedBy(a, key) && SortedBy(b, key)
    requires forall k :: Filter(a, Keyed(key, k)) == Filter(b, Keyed(key, k))
    ensures a == b
  {
    if a != [] {
      HeadsEqual(a, b, key);
      forall k ensures Filter(a[1..], Keyed(key, k)) == Filter(b[1..], Keyed(key, k)) {
        TailGroups(a, b, key, k);
      }
      assert SortedBy(a[1..], key) && SortedBy(b[1..], key);
      SortedSameGroupsEqual(a[1..], b[1..], key);
      assert a == [a[0]] + a[1..] && b == [b[0]] + b[1..];
    } else if b != [] {
      HeadsEqual(b, a, key);
    }
  }

  lemma StableSortUnique<T>(a: seq<T>, b: seq<T>, s: seq<T>, key: T -> string)
    requires StableSortOf(a, s, key) && StableSortOf(b, s, key)
    ensures a == b
  {
    SortedSameGroupsEqual(a, b, key);
  }

  /** Any stable sort of `s` by `key` is what `_.sortBy` returns. */
  lemma StableSortIsSortBy<T>(o: seq<T>, s: seq<T>, key: T -> string)
    requires StableSortOf(o, s, key)
    ensures o == SortBy(s, key)
  {
    SortByIsStableSort(s, key);
    StableSortUnique(o, SortBy(s, key), s, key);
  }

  /** Filtering commutes with stable sorting. */
  lemma FilterOfStableSort<T>(o: seq<T>, s: seq<T>, key: T -> string, p: T -> bool)
    requires StableSortOf(o, s, key)
    ensures StableSortOf(Filter(o, p), Filter(s, p), key)
  {
    FilterSorted(o, p, key);
    forall k ensures Filter(Filter(o, p), Keyed(key, k)) == Filter(Filter(s, p), Keyed(key, k)) {
      FilterCommute(o, p, Keyed(key, k));
      FilterCommute(s, p, Keyed(key, k));
    }
  }
}
