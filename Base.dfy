/** Generic helpers used throughout the pipeline model: an optional value,
    and sums over sequences together with the facts that a sum splits over
    concatenation, does not depend on the order of the elements, and is
    monotone in the summed function. */
module Base {

  datatype Option<+T> = None | Some(value: T)

  /** The sum of f over the elements of s, accumulated left to right. */
  function SumInt<T>(s: seq<T>, f: T -> int): int
  {
    if s == [] then 0 else SumInt(s[..|s| - 1], f) + f(s[|s| - 1])
  }

  /** The same over real-valued f. */
  function SumReal<T>(s: seq<T>, f: T -> real): real
  {
    if s == [] then 0.0 else SumReal(s[..|s| - 1], f) + f(s[|s| - 1])
  }

  lemma {:induction false} SumIntConcat<T>(a: seq<T>, b: seq<T>, f: T -> int)
    ensures SumInt(a + b, f) == SumInt(a, f) + SumInt(b, f)
  {
    if b != [] {
      assert (a + b)[..|a + b| - 1] == a + b[..|b| - 1];
      SumIntConcat(a, b[..|b| - 1], f);
    } else {
      assert a + b == a;
    }
  }

  lemma {:induction false} SumRealConcat<T>(a: seq<T>, b: seq<T>, f: T -> real)
    ensures SumReal(a + b, f) == SumReal(a, f) + SumReal(b, f)
  {
    if b != [] {
      assert (a + b)[..|a + b| - 1] == a + b[..|b| - 1];
      SumRealConcat(a, b[..|b| - 1], f);
    } else {
      assert a + b == a;
    }
  }

  /** Removing the element at position j removes f(s[j]) from the sum. */
  lemma SumIntRemove<T>(s: seq<T>, j: nat, f: T -> int)
    requires j < |s|
    ensures SumInt(s, f) == SumInt(s[..j] + s[j + 1..], f) + f(s[j])
  {
    var pre, post := s[..j], s[j + 1..];
    var one := [s[j]];
    assert s == pre + (one + post);
    SumIntConcat(pre, one + post, f);
    SumIntConcat(one, post, f);
    SumIntConcat(pre, post, f);
    assert one[..0] == [];
    assert SumInt(one, f) == SumInt([], f) + f(s[j]);
  }

  lemma SumRealRemove<T>(s: seq<T>, j: nat, f: T -> real)
    requires j < |s|
    ensures SumReal(s, f) == SumReal(s[..j] + s[j + 1..], f) + f(s[j])
  {
    var pre, post := s[..j], s[j + 1..];
    var one := [s[j]];
    assert s == pre + (one + post);
    SumRealConcat(pre, one + post, f);
    SumRealConcat(one, post, f);
    SumRealConcat(pre, post, f);
    assert one[..0] == [];
    assert SumReal(one, f) == SumReal([], f) + f(s[j]);
  }

  /** Some position of s holds x, and dropping it removes one x from the multiset. */
  lemma PositionOf<T>(s: seq<T>, x: T) returns (j: nat)
    requires x in multiset(s)
    ensures j < |s| && s[j] == x
    ensures multiset(s[..j] + s[j + 1..]) == multiset(s) - multiset{x}
  {
    assert x in s;
    j :| 0 <= j < |s| && s[j] == x;
    assert s == s[..j] + [s[j]] + s[j + 1..];
  }

  /** A sum is the same for any permutation of the summed sequence. */
  lemma {:induction false} SumIntPermutation<T>(a: seq<T>, b: seq<T>, f: T -> int)
    requires multiset(a) == multiset(b)
    ensures SumInt(a, f) == SumInt(b, f)
    decreases |a|
  {
    if a != [] {
      var x := a[|a| - 1];
      var a' := a[..|a| - 1];
      assert a == a' + [x];
      assert x in multiset(b);
      var j := PositionOf(b, x);
      var b' := b[..j] + b[j + 1..];
      assert multiset(a') == multiset(b');
      SumIntPermutation(a', b', f);
      SumIntRemove(b, j, f);
    } else {
      assert b == [] by {
        assert |multiset(b)| == 0;
      }
    }
  }

  lemma {:induction false} SumRealPermutation<T>(a: seq<T>, b: seq<T>, f: T -> real)
    requires multiset(a) == multiset(b)
    ensures SumReal(a, f) == SumReal(b, f)
    decreases |a|
  {
    if a != [] {
      var x := a[|a| - 1];
      var a' := a[..|a| - 1];
      assert a == a' + [x];
      assert x in multiset(b);
      var j := PositionOf(b, x);
      var b' := b[..j] + b[j + 1..];
      assert multiset(a') == multiset(b');
      SumRealPermutation(a', b', f);
      SumRealRemove(b, j, f);
    } else {
      assert b == [] by {
        assert |multiset(b)| == 0;
      }
    }
  }

  /** Pointwise f + g <= h carries over to the sums. */
  lemma {:induction false} SumIntBound<T>(s: seq<T>, f: T -> int, g: T -> int, h: T -> int)
    requires forall x :: f(x) + g(x) <= h(x)
    ensures SumInt(s, f) + SumInt(s, g) <= SumInt(s, h)
  {
    if s != [] {
      SumIntBound(s[..|s| - 1], f, g, h);
      assert f(s[|s| - 1]) + g(s[|s| - 1]) <= h(s[|s| - 1]);
    }
  }

  /** Each element contributing at least zero makes the sum at least zero. */
  lemma {:induction false} SumIntNonNegative<T>(s: seq<T>, f: T -> int)
    requires forall x :: 0 <= f(x)
    ensures 0 <= SumInt(s, f)
  {
    if s != [] {
      SumIntNonNegative(s[..|s| - 1], f);
      assert 0 <= f(s[|s| - 1]);
    }
  }

  /** Pointwise f <= g carries over to the sums. */
  lemma {:induction false} SumIntMonotone<T>(s: seq<T>, f: T -> int, g: T -> int)
    requires forall x :: f(x) <= g(x)
    ensures SumInt(s, f) <= SumInt(s, g)
  {
    if s != [] {
      SumIntMonotone(s[..|s| - 1], f, g);
      assert f(s[|s| - 1]) <= g(s[|s| - 1]);
    }
  }

  /** A sum of 0/1 indicators counts at most every element. */
  lemma {:induction false} SumIntCount<T>(s: seq<T>, f: T -> int)
    requires forall x :: 0 <= f(x) <= 1
    ensures 0 <= SumInt(s, f) <= |s|
  {
    if s != [] {
      SumIntCount(s[..|s| - 1], f);
      assert 0 <= f(s[|s| - 1]) <= 1;
    }
  }

  /** No element occurs twice. */
  predicate NoDuplicates<T(==)>(s: seq<T>)
  {
    forall i, j :: 0 <= i < j < |s| ==> s[i] != s[j]
  }

  /** A permutation of a sequence without duplicates has none either. */
  lemma DistinctPermutation<T>(s: seq<T>, t: seq<T>)
    requires NoDuplicates(s) && multiset(s) == multiset(t)
    ensures NoDuplicates(t)
  {
    forall i, j | 0 <= i < j < |t| ensures t[i] != t[j] {
      if t[i] == t[j] {
        assert t == t[..j] + [t[j]] + t[j + 1..];
        assert t[i] in t[..j];
        assert multiset(t)[t[i]] >= 2;
        MultiplicityOfDistinct(s, t[i]);
        assert false;
      }
    }
  }

  /** A permutation of a sequence whose elements have pairwise distinct
      keys has pairwise distinct keys too. */
  lemma DistinctKeysPermutation<T, K>(s: seq<T>, t: seq<T>, key: T -> K)
    requires forall i, j :: 0 <= i < j < |s| ==> key(s[i]) != key(s[j])
    requires multiset(s) == multiset(t)
    ensures forall i, j :: 0 <= i < j < |t| ==> key(t[i]) != key(t[j])
  {
    assert NoDuplicates(s);
    DistinctPermutation(s, t);
    forall i, j | 0 <= i < j < |t| ensures key(t[i]) != key(t[j]) {
      assert t[i] in multiset(t) && t[j] in multiset(t);
      var p :| 0 <= p < |s| && s[p] == t[i];
      var q :| 0 <= q < |s| && s[q] == t[j];
      if p > q {
        assert key(s[q]) != key(s[p]);
      }
    }
  }

  lemma {:induction false} MultiplicityOfDistinct<T>(s: seq<T>, x: T)
    requires NoDuplicates(s)
    ensures multiset(s)[x] <= 1
  {
    if s != [] {
      var init := s[..|s| - 1];
      assert s == init + [s[|s| - 1]];
      assert NoDuplicates(init);
      MultiplicityOfDistinct(init, x);
      if s[|s| - 1] == x {
        assert x !in init;
      }
    }
  }
}
