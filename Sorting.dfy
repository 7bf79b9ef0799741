/** The display order of both stages: Python's stable `list.sort(key=...,
    reverse=True)` on a tuple key whose first component is the status label
    (compared as a string, not by lifecycle rank), then the unit total, then
    the permit count. The sort is modelled as a stable insertion sort on
    values; its result is characterised by three properties: it is a
    permutation, it is non-increasing in the key, and elements with equal
    keys keep their input order. */
module Sorting {
  import opened Text

  /** The sort key; stage 2 sorts on two components and fixes `count` at 0. */
  datatype SortKey = SortKey(status: string, units: int, count: int)

  /** Python's tuple comparison a > b. */
  predicate KeyGt(a: SortKey, b: SortKey)
  {
    Lt(b.status, a.status)
    || (a.status == b.status && (b.units < a.units || (b.units == a.units && b.count < a.count)))
  }

  /** KeyGt is a strict total order. */
  lemma KeyGtStrictTotal(a: SortKey, b: SortKey, c: SortKey)
    ensures !KeyGt(a, a)
    ensures KeyGt(a, b) && KeyGt(b, c) ==> KeyGt(a, c)
    ensures a == b || KeyGt(a, b) || KeyGt(b, a)
  {
    LtIrreflexive(a.status);
    if KeyGt(a, b) && KeyGt(b, c) {
      if Lt(b.status, a.status) && Lt(c.status, b.status) {
        LtTransitive(c.status, b.status, a.status);
      }
    }
    LtTotal(a.status, b.status);
  }

  /** Non-increasing: no later element has a greater key than an earlier one. */
  predicate SortedDesc<T>(s: seq<T>, key: T -> SortKey)
  {
    forall i, j :: 0 <= i < j < |s| ==> !KeyGt(key(s[j]), key(s[i]))
  }

  /** The elements of s whose key is k, in their order in s. */
  function WithKey<T>(s: seq<T>, key: T -> SortKey, k: SortKey): (r: seq<T>)
    ensures |r| <= |s|
  {
    if s == [] then [] else (if key(s[0]) == k then [s[0]] else []) + WithKey(s[1..], key, k)
  }

  /** x placed after every element of r whose key is at least its own. */
  function InsertDesc<T>(r: seq<T>, x: T, key: T -> SortKey): (t: seq<T>)
    ensures multiset(t) == multiset(r) + multiset{x}
    ensures |t| == |r| + 1
  {
    if r == [] then [x]
    else if KeyGt(key(x), key(r[0])) then [x] + r
    else
      assert r == [r[0]] + r[1..];
      [r[0]] + InsertDesc(r[1..], x, key)
  }

  /** list.sort(key=key, reverse=True). */
  function SortDesc<T>(s: seq<T>, key: T -> SortKey): (r: seq<T>)
    ensures multiset(r) == multiset(s)
    ensures |r| == |s|
  {
    if s == [] then []
    else
      assert s == s[..|s| - 1] + [s[|s| - 1]];
      InsertDesc(SortDesc(s[..|s| - 1], key), s[|s| - 1], key)
  }

  /** In a sorted sequence whose head x outranks, x outranks every element. */
  lemma HeadOutranks<T>(r: seq<T>, x: T, key: T -> SortKey)
    requires r != [] && SortedDesc(r, key) && KeyGt(key(x), key(r[0]))
    ensures forall j :: 0 <= j < |r| ==> KeyGt(key(x), key(r[j]))
  {
    forall j | 0 <= j < |r| ensures KeyGt(key(x), key(r[j])) {
      KeyGtStrictTotal(key(x), key(r[0]), key(r[j]));
      KeyGtStrictTotal(key(r[0]), key(r[j]), key(x));
    }
  }

  lemma {:induction false} InsertSorted<T>(r: seq<T>, x: T, key: T -> SortKey)
    requires SortedDesc(r, key)
    ensures SortedDesc(InsertDesc(r, x, key), key)
  {
    if r == [] {
    } else if KeyGt(key(x), key(r[0])) {
      HeadOutranks(r, x, key);
      var t := [x] + r;
      forall i, j | 0 <= i < j < |t| ensures !KeyGt(key(t[j]), key(t[i])) {
        if i == 0 {
          KeyGtStrictTotal(key(x), key(t[j]), key(x));
        } else {
          assert t[i] == r[i - 1] && t[j] == r[j - 1];
        }
      }
    } else {
      var rest := InsertDesc(r[1..], x, key);
      InsertSorted(r[1..], x, key);
      var t := [r[0]] + rest;
      forall i, j | 0 <= i < j < |t| ensures !KeyGt(key(t[j]), key(t[i])) {
        if i == 0 {
          assert t[j] in multiset(rest);
          assert t[j] in multiset(r[1..]) || t[j] == x;
          if t[j] != x {
            assert t[j] in r[1..];
            var m :| 0 <= m < |r[1..]| && r[1..][m] == t[j];
            assert r[m + 1] == t[j];
          }
        } else {
          assert t[i] == rest[i - 1] && t[j] == rest[j - 1];
        }
      }
    }
  }

  /** The sort's result is non-increasing in the key. */
  lemma {:induction false} SortDescSorted<T>(s: seq<T>, key: T -> SortKey)
    ensures SortedDesc(SortDesc(s, key), key)
  {
    if s != [] {
      SortDescSorted(s[..|s| - 1], key);
      InsertSorted(SortDesc(s[..|s| - 1], key), s[|s| - 1], key);
    }
  }

  lemma {:induction false} WithKeyConcat<T>(a: seq<T>, b: seq<T>, key: T -> SortKey, k: SortKey)
    ensures WithKey(a + b, key, k) == WithKey(a, key, k) + WithKey(b, key, k)
  {
    if a == [] {
      assert a + b == b;
    } else {
      assert (a + b)[1..] == a[1..] + b;
      WithKeyConcat(a[1..], b, key, k);
    }
  }

  /** No element of s has key k. */
  lemma {:induction false} WithKeyNone<T>(s: seq<T>, key: T -> SortKey, k: SortKey)
    requires forall j :: 0 <= j < |s| ==> key(s[j]) != k
    ensures WithKey(s, key, k) == []
  {
    if s != [] {
      WithKeyNone(s[1..], key, k);
    }
  }

  /** Inserting x adds it after the elements that share its key. */
  lemma {:induction false} InsertStable<T>(r: seq<T>, x: T, key: T -> SortKey, k: SortKey)
    requires SortedDesc(r, key)
    ensures WithKey(InsertDesc(r, x, key), key, k) == WithKey(r, key, k) + WithKey([x], key, k)
  {
    if r == [] {
    } else if KeyGt(key(x), key(r[0])) {
      InsertStableFront(r, x, key, k);
    } else {
      var rest := InsertDesc(r[1..], x, key);
      assert SortedDesc(r[1..], key);
      InsertStable(r[1..], x, key, k);
      WithKeyConcat([r[0]], rest, key, k);
      WithKeyConcat([r[0]], r[1..], key, k);
      assert r == [r[0]] + r[1..];
      var h, a, b := WithKey([r[0]], key, k), WithKey(r[1..], key, k), WithKey([x], key, k);
      assert h + (a + b) == (h + a) + b;
    }
  }

  /** x outranks all of r: it goes first, and none of r shares its key. */
  lemma InsertStableFront<T>(r: seq<T>, x: T, key: T -> SortKey, k: SortKey)
    requires r != [] && SortedDesc(r, key) && KeyGt(key(x), key(r[0]))
    ensures WithKey([x] + r, key, k) == WithKey(r, key, k) + WithKey([x], key, k)
  {
    HeadOutranks(r, x, key);
    WithKeyConcat([x], r, key, k);
    if key(x) == k {
      KeyGtStrictTotal(key(x), key(x), key(x));
      WithKeyNone(r, key, k);
    } else {
      assert WithKey([x], key, k) == [];
    }
  }

  /** Stability: for every key, the elements carrying it appear in the
      sorted result in the order they had in the input. */
  lemma {:induction false} SortDescStable<T>(s: seq<T>, key: T -> SortKey, k: SortKey)
    ensures WithKey(SortDesc(s, key), key, k) == WithKey(s, key, k)
  {
    if s != [] {
      var init, x := s[..|s| - 1], s[|s| - 1];
      SortDescStable(init, key, k);
      SortDescSorted(init, key);
      InsertStable(SortDesc(init, key), x, key, k);
      assert s == init + [x];
      WithKeyConcat(init, [x], key, k);
    }
  }
}
