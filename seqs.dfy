/**
 * The two array operations the selection pipeline is built from: order-preserving
 * filtering (JavaScript's `Array.prototype.filter`) and a stable sort in
 * descending order of an integer key (`Array.prototype.sort`, which is stable,
 * with a comparator `(a, b) => key(b) - key(a)`).
 */
module Seqs {

  /** The elements of `s` that satisfy `f`, in their original order. */
  function Filter<T(!new)>(s: seq<T>, f: T -> bool): (r: seq<T>)
    ensures |r| <= |s|
  {
    if s == [] then [] else (if f(s[0]) then [s[0]] else []) + Filter(s[1..], f)
  }

  /** Each value occurs in the result as often as in `s` if it satisfies `f`, and never otherwise. */
  lemma {:induction false} FilterCount<T(!new)>(s: seq<T>, f: T -> bool)
    ensures forall x :: multiset(Filter(s, f))[x] == if f(x) then multiset(s)[x] else 0
  {
    if s != [] {
      FilterCount(s[1..], f);
      assert s == [s[0]] + s[1..];
      assert multiset(s) == multiset{s[0]} + multiset(s[1..]);
    }
  }

  /** A value is in the result exactly when it is in `s` and satisfies `f`. */
  lemma FilterMember<T(!new)>(s: seq<T>, f: T -> bool)
    ensures forall x :: x in Filter(s, f) <==> x in s && f(x)
  {
    FilterCount(s, f);
    forall x ensures x in Filter(s, f) <==> x in s && f(x) {
      assert x in Filter(s, f) <==> x in multiset(Filter(s, f));
      assert x in s <==> x in multiset(s);
    }
  }

  lemma {:induction false} FilterCons<T(!new)>(x: T, s: seq<T>, f: T -> bool)
    ensures Filter([x] + s, f) == (if f(x) then [x] else []) + Filter(s, f)
  {
    assert ([x] + s)[0] == x;
    assert ([x] + s)[1..] == s;
  }

  /** Filtering with a predicate that holds everywhere keeps everything. */
  lemma {:induction false} FilterKeepsAll<T(!new)>(s: seq<T>, f: T -> bool)
    requires forall x :: x in s ==> f(x)
    ensures Filter(s, f) == s
  {
    if s != [] {
      FilterKeepsAll(s[1..], f);
    }
  }

  /** Filtering only depends on the values the predicate takes on `s`. */
  lemma {:induction false} FilterEquiv<T(!new)>(s: seq<T>, f: T -> bool, g: T -> bool)
    requires forall x :: x in s ==> f(x) == g(x)
    ensures Filter(s, f) == Filter(s, g)
  {
    if s != [] {
      FilterEquiv(s[1..], f, g);
    }
  }

  /** Two filters in a row are one filter by the conjunction. */
  lemma {:induction false} FilterFilter<T(!new)>(s: seq<T>, f: T -> bool, g: T -> bool, h: T -> bool)
    requires forall x :: x in s ==> h(x) == (f(x) && g(x))
    ensures Filter(Filter(s, f), g) == Filter(s, h)
  {
    if s != [] {
      var t := s[1..];
      FilterFilter(t, f, g, h);
      if f(s[0]) {
        assert Filter(s, f) == [s[0]] + Filter(t, f);
        FilterCons(s[0], Filter(t, f), g);
      } else {
        assert Filter(s, f) == [] + Filter(t, f) == Filter(t, f);
      }
    }
  }

  /** A stronger predicate keeps a sub-multiset of what a weaker one keeps. */
  lemma FilterStronger<T(!new)>(s: seq<T>, f: T -> bool, g: T -> bool)
    requires forall x :: g(x) ==> f(x)
    ensures multiset(Filter(s, g)) <= multiset(Filter(s, f))
    ensures |Filter(s, g)| <= |Filter(s, f)|
  {
    var a, b := Filter(s, g), Filter(s, f);
    assert multiset(a) <= multiset(b) by {
      forall x ensures multiset(a)[x] <= multiset(b)[x] {
      }
    }
    assert |multiset(a)| <= |multiset(b)| by {
      var d := multiset(b) - multiset(a);
      assert multiset(b) == multiset(a) + d;
    }
  }

  /** The conjunction of two predicates. */
  function And<T(!new)>(f: T -> bool, g: T -> bool): T -> bool
  {
    x => f(x) && g(x)
  }

  // ----- ordering -----

  ghost predicate NonIncreasing<T(!new)>(s: seq<T>, key: T -> int)
  {
    forall i, j :: 0 <= i < j < |s| ==> key(s[i]) >= key(s[j])
  }

  /** The predicate "has key `k`", used to state stability. */
  function KeyIs<T(!new)>(key: T -> int, k: int): T -> bool
  {
    x => key(x) == k
  }

  /**
   * Inserts `x` into `ys` before the first element whose key is not larger
   * than `x`'s, so `x` precedes the elements of equal key.
   */
  function Insert<T(!new)>(x: T, ys: seq<T>, key: T -> int): (r: seq<T>)
    ensures multiset(r) == multiset(ys) + multiset{x}
    ensures |r| == |ys| + 1
  {
    if ys == [] then [x]
    else if key(x) >= key(ys[0]) then
      assert ys == [ys[0]] + ys[1..];
      [x] + ys
    else
      assert ys == [ys[0]] + ys[1..];
      [ys[0]] + Insert(x, ys[1..], key)
  }

  /** The first element of a non-increasing sequence has the largest key. */
  lemma HeadIsMax<T(!new)>(s: seq<T>, key: T -> int, y: T)
    requires NonIncreasing(s, key) && y in s
    ensures key(s[0]) >= key(y)
  {
    var i :| 0 <= i < |s| && s[i] == y;
    if i > 0 {
      assert key(s[0]) >= key(s[i]);
    }
  }

  lemma {:induction false} InsertSorted<T(!new)>(x: T, ys: seq<T>, key: T -> int)
    requires NonIncreasing(ys, key)
    ensures NonIncreasing(Insert(x, ys, key), key)
  {
    if ys != [] && key(x) < key(ys[0]) {
      var rest := Insert(x, ys[1..], key);
      InsertSorted(x, ys[1..], key);
      forall j | 0 <= j < |rest| ensures key(ys[0]) >= key(rest[j]) {
        assert rest[j] in multiset(rest);
        if rest[j] != x {
          assert rest[j] in ys;
          HeadIsMax(ys, key, rest[j]);
        }
      }
      var r := [ys[0]] + rest;
      forall i, j | 0 <= i < j < |r| ensures key(r[i]) >= key(r[j]) {
        if i > 0 {
          assert r[i] == rest[i - 1] && r[j] == rest[j - 1];
        } else {
          assert r[j] == rest[j - 1];
        }
      }
    }
  }

  /** Stable sort in descending key order (insertion sort). */
  function SortDesc<T(!new)>(s: seq<T>, key: T -> int): (r: seq<T>)
    ensures multiset(r) == multiset(s)
    ensures |r| == |s|
    ensures NonIncreasing(r, key)
  {
    if s == [] then []
    else
      assert s == [s[0]] + s[1..];
      var rest := SortDesc(s[1..], key);
      InsertSorted(s[0], rest, key);
      Insert(s[0], rest, key)
  }

  lemma {:induction false} InsertStable<T(!new)>(x: T, ys: seq<T>, key: T -> int, k: int)
    requires NonIncreasing(ys, key)
    ensures Filter(Insert(x, ys, key), KeyIs(key, k))
         == (if key(x) == k then [x] else []) + Filter(ys, KeyIs(key, k))
  {
    var f := KeyIs(key, k);
    if ys == [] {
    } else if key(x) >= key(ys[0]) {
      FilterCons(x, ys, f);
    } else {
      var rest := Insert(x, ys[1..], key);
      FilterCons(ys[0], rest, f);
      InsertStable(x, ys[1..], key, k);
      assert ys == [ys[0]] + ys[1..];
      FilterCons(ys[0], ys[1..], f);
    }
  }

  /** Elements with equal keys keep their relative order. */
  lemma {:induction false} SortDescStable<T(!new)>(s: seq<T>, key: T -> int, k: int)
    ensures Filter(SortDesc(s, key), KeyIs(key, k)) == Filter(s, KeyIs(key, k))
  {
    if s != [] {
      SortDescStable(s[1..], key, k);
      InsertStable(s[0], SortDesc(s[1..], key), key, k);
      assert s == [s[0]] + s[1..];
      FilterCons(s[0], s[1..], KeyIs(key, k));
    }
  }

  /**
   * A descending order that keeps every key class in input order is unique:
   * any such arrangement of `s` is `SortDesc(s, key)`.
   */
  lemma StableSortUnique<T(!new)>(s: seq<T>, r: seq<T>, key: T -> int)
    requires NonIncreasing(r, key)
    requires forall k :: Filter(r, KeyIs(key, k)) == Filter(s, KeyIs(key, k))
    ensures r == SortDesc(s, key)
  {
    var t := SortDesc(s, key);
    forall k ensures Filter(r, KeyIs(key, k)) == Filter(t, KeyIs(key, k)) {
      SortDescStable(s, key, k);
    }
    SameClassesSame(r, t, key);
  }

  lemma HeadClassNonEmpty<T(!new)>(s: seq<T>, key: T -> int)
    ensures s != [] ==> Filter(s, KeyIs(key, key(s[0]))) != []
  {
  }

  lemma {:induction false} SameClassesSame<T(!new)>(a: seq<T>, b: seq<T>, key: T -> int)
    requires NonIncreasing(a, key) && NonIncreasing(b, key)
    requires forall k :: Filter(a, KeyIs(key, k)) == Filter(b, KeyIs(key, k))
    ensures a == b
    decreases |a| + |b|
  {
    if a == [] && b == [] {
      return;
    }
    if a == [] {
      HeadClassNonEmpty(b, key);
      assert false;
    }
    if b == [] {
      HeadClassNonEmpty(a, key);
      assert false;
    }
    var ka, kb := key(a[0]), key(b[0]);
    // The head of each side carries the largest key, so both heads have the same key.
    FilterMember(a, KeyIs(key, kb));
    FilterMember(b, KeyIs(key, kb));
    FilterMember(a, KeyIs(key, ka));
    FilterMember(b, KeyIs(key, ka));
    assert b[0] in Filter(b, KeyIs(key, kb));
    HeadIsMax(a, key, b[0]);
    assert a[0] in Filter(a, KeyIs(key, ka));
    HeadIsMax(b, key, a[0]);
    assert ka == kb;
    assert a == [a[0]] + a[1..];
    assert b == [b[0]] + b[1..];
    FilterCons(a[0], a[1..], KeyIs(key, ka));
    FilterCons(b[0], b[1..], KeyIs(key, ka));
    // Both heads lead the class of key `ka`, so they are the same element.
    assert a[0] == Filter(a, KeyIs(key, ka))[0] == Filter(b, KeyIs(key, ka))[0] == b[0];
    forall k ensures Filter(a[1..], KeyIs(key, k)) == Filter(b[1..], KeyIs(key, k)) {
      FilterCons(a[0], a[1..], KeyIs(key, k));
      FilterCons(b[0], b[1..], KeyIs(key, k));
      assert Filter(a, KeyIs(key, k)) == Filter(b, KeyIs(key, k));
      if k == ka {
        assert [a[0]] + Filter(a[1..], KeyIs(key, k)) == [a[0]] + Filter(b[1..], KeyIs(key, k));
        assert Filter(a[1..], KeyIs(key, k)) == ([a[0]] + Filter(a[1..], KeyIs(key, k)))[1..];
        assert Filter(b[1..], KeyIs(key, k)) == ([a[0]] + Filter(b[1..], KeyIs(key, k)))[1..];
      } else {
        assert !KeyIs(key, k)(a[0]) && !KeyIs(key, k)(b[0]);
        assert Filter(a[1..], KeyIs(key, k)) == Filter(a, KeyIs(key, k));
        assert Filter(b[1..], KeyIs(key, k)) == Filter(b, KeyIs(key, k));
      }
    }
    assert NonIncreasing(a[1..], key) && NonIncreasing(b[1..], key);
    SameClassesSame(a[1..], b[1..], key);
  }
}
