/**
  Python's stable sort (`list.sort(key=...)`, `sorted(..., key=...)`) and
  `sorted(set(...))`, stated once for any element type and any ordering of keys.

  `SortBy` is an insertion sort that places each element before the first
  element whose key is not smaller: equal keys keep their input order, which
  is the stability Python guarantees.
*/
module Sorting {

  ghost predicate Total<K(!new)>(le: (K, K) -> bool)
  {
    forall a, b :: le(a, b) || le(b, a)
  }

  ghost predicate Transitive<K(!new)>(le: (K, K) -> bool)
  {
    forall a, b, c :: le(a, b) && le(b, c) ==> le(a, c)
  }

  ghost predicate Antisymmetric<K(!new)>(le: (K, K) -> bool)
  {
    forall a, b :: le(a, b) && le(b, a) ==> a == b
  }

  /** What a `key=` sort needs of the comparison on keys. */
  ghost predicate TotalPreorder<K(!new)>(le: (K, K) -> bool)
  {
    Total(le) && Transitive(le)
  }

  /** What `sorted(set(...))` needs: distinct values are never tied. */
  ghost predicate TotalOrder<K(!new)>(le: (K, K) -> bool)
  {
    TotalPreorder(le) && Antisymmetric(le)
  }

  /** `<=` on integers, as a comparison that can be handed to a sort. */
  predicate IntLe(a: int, b: int)
  {
    a <= b
  }

  lemma IntLeIsTotalOrder()
    ensures TotalOrder(IntLe)
  {
  }

  /** Every element's key is `le` the key of every later element. */
  ghost predicate SortedBy<T, K>(s: seq<T>, key: T -> K, le: (K, K) -> bool)
  {
    forall i, j :: 0 <= i < j < |s| ==> le(key(s[i]), key(s[j]))
  }

  /** `s` holds distinct values in ascending order. */
  ghost predicate StrictlyAscending<K>(s: seq<K>, le: (K, K) -> bool)
  {
    forall i, j :: 0 <= i < j < |s| ==> le(s[i], s[j]) && s[i] != s[j]
  }

  /** Puts `x` in front of the first element whose key it does not exceed. */
  function Insert<T(==), K>(x: T, s: seq<T>, key: T -> K, le: (K, K) -> bool): (r: seq<T>)
    ensures multiset(r) == multiset(s) + multiset{x}
  {
    if s == [] || le(key(x), key(s[0])) then [x] + s
    else
      assert s == [s[0]] + s[1..];
      [s[0]] + Insert(x, s[1..], key, le)
  }

  /** The stable sort of `s` by `key`. */
  function SortBy<T(==), K>(s: seq<T>, key: T -> K, le: (K, K) -> bool): (r: seq<T>)
    ensures multiset(r) == multiset(s)
  {
    if s == [] then []
    else
      assert s == [s[0]] + s[1..];
      Insert(s[0], SortBy(s[1..], key, le), key, le)
  }

  /** The elements of `s` whose key is `k`, in their order in `s`. */
  function Filter<T(==), K(==)>(s: seq<T>, key: T -> K, k: K): seq<T>
  {
    if s == [] then []
    else (if key(s[0]) == k then [s[0]] else []) + Filter(s[1..], key, k)
  }

  /** `Filter` keeps exactly the elements whose key is `k`. */
  lemma {:induction false} FilterMembers<T(!new), K(!new)>(s: seq<T>, key: T -> K, k: K)
    ensures forall x :: x in Filter(s, key, k) <==> x in s && key(x) == k
  {
    if s != [] {
      FilterMembers(s[1..], key, k);
      assert forall x :: x in s <==> x == s[0] || x in s[1..];
    }
  }

  /** `f` applied to each element of `s`. */
  function MapSeq<T, U>(s: seq<T>, f: T -> U): seq<U>
  {
    if s == [] then [] else [f(s[0])] + MapSeq(s[1..], f)
  }

  lemma {:induction false} InsertSorted<T(!new), K(!new)>(x: T, s: seq<T>, key: T -> K, le: (K, K) -> bool)
    requires TotalPreorder(le) && SortedBy(s, key, le)
    ensures SortedBy(Insert(x, s, key, le), key, le)
  {
    if s == [] || le(key(x), key(s[0])) {
    } else {
      var rest := Insert(x, s[1..], key, le);
      InsertSorted(x, s[1..], key, le);
      forall y | y in rest
        ensures le(key(s[0]), key(y))
      {
        assert y in multiset(rest);
        if y != x {
          var m :| 0 <= m < |s[1..]| && s[1..][m] == y;
          assert s[m + 1] == y;
        }
      }
      var r := [s[0]] + rest;
      forall i, j | 0 <= i < j < |r|
        ensures le(key(r[i]), key(r[j]))
      {
        if i == 0 {
          assert r[j] in rest;
        } else {
          assert r[i] == rest[i - 1] && r[j] == rest[j - 1];
        }
      }
    }
  }

  /** The sort's output is ordered by key. */
  lemma {:induction false} SortByIsSorted<T(!new), K(!new)>(s: seq<T>, key: T -> K, le: (K, K) -> bool)
    requires TotalPreorder(le)
    ensures SortedBy(SortBy(s, key, le), key, le)
  {
    if s != [] {
      SortByIsSorted(s[1..], key, le);
      InsertSorted(s[0], SortBy(s[1..], key, le), key, le);
    }
  }

  lemma FilterOfSingleton<T(!new), K(!new)>(x: T, key: T -> K, k: K)
    ensures Filter([x], key, k) == if key(x) == k then [x] else []
  {
    assert [x][1..] == [];
  }

  lemma {:induction false} FilterOfConcat<T(!new), K(!new)>(a: seq<T>, b: seq<T>, key: T -> K, k: K)
    ensures Filter(a + b, key, k) == Filter(a, key, k) + Filter(b, key, k)
  {
    if a == [] {
      assert a + b == b;
    } else {
      var head := if key(a[0]) == k then [a[0]] else [];
      assert (a + b)[0] == a[0] && (a + b)[1..] == a[1..] + b;
      calc {
        Filter(a + b, key, k);
        head + Filter(a[1..] + b, key, k);
        { FilterOfConcat(a[1..], b, key, k); }
        head + (Filter(a[1..], key, k) + Filter(b, key, k));
        (head + Filter(a[1..], key, k)) + Filter(b, key, k);
      }
    }
  }

  /**
    Concatenation is associative. Stated on its own so that the step in
    `InsertFilterPast` is proved outside that lemma's larger context.
  */
  lemma ConcatAssoc<T>(a: seq<T>, b: seq<T>, c: seq<T>)
    ensures a + (b + c) == (a + b) + c
  {
  }

  /** Two elements with different keys can trade places without changing any filter. */
  lemma FilterSwap<T(!new), K(!new)>(x: T, y: T, key: T -> K, k: K)
    requires key(x) != key(y)
    ensures Filter([y], key, k) + Filter([x], key, k) == Filter([x], key, k) + Filter([y], key, k)
  {
    FilterOfSingleton(x, key, k);
    FilterOfSingleton(y, key, k);
  }

  /** Inserting `x` puts it ahead of every element that shares its key. */
  lemma {:induction false} InsertFilter<T(!new), K(!new)>(x: T, s: seq<T>, key: T -> K, le: (K, K) -> bool, k: K)
    requires Total(le)
    ensures Filter(Insert(x, s, key, le), key, k) == Filter([x], key, k) + Filter(s, key, k)
  {
    if s == [] || le(key(x), key(s[0])) {
      FilterOfConcat([x], s, key, k);
    } else {
      InsertFilter(x, s[1..], key, le, k);
      InsertFilterPast(x, s, key, le, k);
    }
  }

  /** The step of `InsertFilter` where `x` moves past the head of `s`. */
  lemma InsertFilterPast<T(!new), K(!new)>(x: T, s: seq<T>, key: T -> K, le: (K, K) -> bool, k: K)
    requires Total(le)
    requires s != [] && !le(key(x), key(s[0]))
    requires Filter(Insert(x, s[1..], key, le), key, k) == Filter([x], key, k) + Filter(s[1..], key, k)
    ensures Filter(Insert(x, s, key, le), key, k) == Filter([x], key, k) + Filter(s, key, k)
  {
    var rest := Insert(x, s[1..], key, le);
    var fx, f0, f1 := Filter([x], key, k), Filter([s[0]], key, k), Filter(s[1..], key, k);
    assert le(key(x), key(x));
    FilterSwap(x, s[0], key, k);
    assert Insert(x, s, key, le) == [s[0]] + rest;
    calc {
      Filter(Insert(x, s, key, le), key, k);
      Filter([s[0]] + rest, key, k);
      { FilterOfConcat([s[0]], rest, key, k); }
      f0 + (fx + f1);
      { ConcatAssoc(f0, fx, f1); }
      (f0 + fx) + f1;
      (fx + f0) + f1;
      { ConcatAssoc(fx, f0, f1); }
      fx + (f0 + f1);
      { FilterOfConcat([s[0]], s[1..], key, k); assert [s[0]] + s[1..] == s; }
      fx + Filter(s, key, k);
    }
  }

  /** Stability: for every key, the elements with that key keep their input order. */
  lemma {:induction false} SortByIsStable<T(!new), K(!new)>(s: seq<T>, key: T -> K, le: (K, K) -> bool, k: K)
    requires Total(le)
    ensures Filter(SortBy(s, key, le), key, k) == Filter(s, key, k)
  {
    if s != [] {
      var t := SortBy(s[1..], key, le);
      calc {
        Filter(SortBy(s, key, le), key, k);
        Filter(Insert(s[0], t, key, le), key, k);
        { InsertFilter(s[0], t, key, le, k); }
        Filter([s[0]], key, k) + Filter(t, key, k);
        { SortByIsStable(s[1..], key, le, k); }
        Filter([s[0]], key, k) + Filter(s[1..], key, k);
        { FilterOfConcat([s[0]], s[1..], key, k); assert [s[0]] + s[1..] == s; }
        Filter(s, key, k);
      }
    }
  }

  /** Sorting an already sorted sequence changes nothing, so sorting twice is sorting once. */
  lemma {:induction false} SortBySortedIsIdentity<T(!new), K(!new)>(s: seq<T>, key: T -> K, le: (K, K) -> bool)
    requires SortedBy(s, key, le)
    ensures SortBy(s, key, le) == s
  {
    if s != [] {
      assert SortedBy(s[1..], key, le) by {
        forall i, j | 0 <= i < j < |s[1..]|
          ensures le(key(s[1..][i]), key(s[1..][j]))
        {
          assert s[1..][i] == s[i + 1] && s[1..][j] == s[j + 1];
        }
      }
      SortBySortedIsIdentity(s[1..], key, le);
      assert s == [s[0]] + s[1..];
    }
  }

  /** Sorting by key is idempotent. */
  lemma SortByIdempotent<T(!new), K(!new)>(s: seq<T>, key: T -> K, le: (K, K) -> bool)
    requires TotalPreorder(le)
    ensures SortBy(SortBy(s, key, le), key, le) == SortBy(s, key, le)
  {
    SortByIsSorted(s, key, le);
    SortBySortedIsIdentity(SortBy(s, key, le), key, le);
  }

  /** Keeping some elements of an ordered sequence leaves them ordered. */
  lemma {:induction false} FilterKeepsOrder<T(!new), K(!new), L(!new)>(s: seq<T>, key: T -> K, k: K, key2: T -> L, rel: (L, L) -> bool)
    requires SortedBy(s, key2, rel)
    ensures SortedBy(Filter(s, key, k), key2, rel)
  {
    if s != [] {
      assert SortedBy(s[1..], key2, rel) by {
        forall i, j | 0 <= i < j < |s[1..]|
          ensures rel(key2(s[1..][i]), key2(s[1..][j]))
        {
          assert s[1..][i] == s[i + 1] && s[1..][j] == s[j + 1];
        }
      }
      FilterKeepsOrder(s[1..], key, k, key2, rel);
      var tail := Filter(s[1..], key, k);
      if key(s[0]) == k {
        var r := [s[0]] + tail;
        forall i, j | 0 <= i < j < |r|
          ensures rel(key2(r[i]), key2(r[j]))
        {
          if i == 0 {
            FilterMembers(s[1..], key, k);
            assert r[j] in s[1..];
            var m :| 0 <= m < |s[1..]| && s[1..][m] == r[j];
            assert s[m + 1] == r[j];
          } else {
            assert r[i] == tail[i - 1] && r[j] == tail[j - 1];
          }
        }
      } else {
        assert Filter(s, key, k) == tail;
      }
    }
  }

  /** Where `s[i]` sits among the elements of `s` that share its key. */
  function FilterPosition<T(==,!new), K(==)>(s: seq<T>, key: T -> K, i: nat): nat
    requires i < |s|
  {
    |Filter(s[..i], key, key(s[i]))|
  }

  lemma FilterPositionIsIndex<T(!new), K(!new)>(s: seq<T>, key: T -> K, i: nat)
    requires i < |s|
    ensures FilterPosition(s, key, i) < |Filter(s, key, key(s[i]))|
    ensures Filter(s, key, key(s[i]))[FilterPosition(s, key, i)] == s[i]
  {
    var k := key(s[i]);
    assert s == s[..i] + ([s[i]] + s[i + 1..]);
    FilterOfConcat(s[..i], [s[i]] + s[i + 1..], key, k);
    FilterOfConcat([s[i]], s[i + 1..], key, k);
    FilterOfSingleton(s[i], key, k);
  }

  /** Two elements with equal keys appear in `Filter` in the order they have in `s`. */
  lemma FilterPositionIncreases<T(!new), K(!new)>(s: seq<T>, key: T -> K, i: nat, j: nat)
    requires i < j < |s| && key(s[i]) == key(s[j])
    ensures FilterPosition(s, key, i) < FilterPosition(s, key, j)
  {
    var k := key(s[i]);
    assert s[..j] == s[..i] + ([s[i]] + s[i + 1..j]);
    FilterOfConcat(s[..i], [s[i]] + s[i + 1..j], key, k);
    FilterOfConcat([s[i]], s[i + 1..j], key, k);
    FilterOfSingleton(s[i], key, k);
  }

  /**
    Stability stated by position: two elements with equal keys that the sort
    puts in the order i < j are, among the elements with that key, in the
    same order in the input's `Filter`, so any order the input keeps among
    them carries over.
  */
  lemma SortedTiesKeepInputOrder<T(!new), K(!new), L(!new)>(s: seq<T>, key: T -> K, le: (K, K) -> bool, key2: T -> L, rel: (L, L) -> bool, i: nat, j: nat)
    requires Total(le)
    requires SortedBy(s, key2, rel)
    requires i < j < |SortBy(s, key, le)|
    requires key(SortBy(s, key, le)[i]) == key(SortBy(s, key, le)[j])
    ensures rel(key2(SortBy(s, key, le)[i]), key2(SortBy(s, key, le)[j]))
  {
    var r := SortBy(s, key, le);
    var k := key(r[i]);
    SortByIsStable(s, key, le, k);
    FilterKeepsOrder(s, key, k, key2, rel);
    FilterPositionIsIndex(r, key, i);
    FilterPositionIsIndex(r, key, j);
    FilterPositionIncreases(r, key, i, j);
  }

  lemma {:induction false} MapSeqConcat<T, U>(a: seq<T>, b: seq<T>, f: T -> U)
    ensures MapSeq(a + b, f) == MapSeq(a, f) + MapSeq(b, f)
  {
    if a == [] {
      assert a + b == b;
    } else {
      assert (a + b)[0] == a[0] && (a + b)[1..] == a[1..] + b;
      MapSeqConcat(a[1..], b, f);
    }
  }

  /** Sorting keeps the multiset of any projection of the elements. */
  lemma {:induction false} InsertMapped<T(!new), K(!new), U(!new)>(x: T, s: seq<T>, key: T -> K, le: (K, K) -> bool, f: T -> U)
    ensures multiset(MapSeq(Insert(x, s, key, le), f)) == multiset(MapSeq(s, f)) + multiset{f(x)}
  {
    if s == [] || le(key(x), key(s[0])) {
      calc {
        multiset(MapSeq(Insert(x, s, key, le), f));
        multiset(MapSeq([x] + s, f));
        { MapSeqConcat([x], s, f); }
        multiset(MapSeq([x], f) + MapSeq(s, f));
        { assert MapSeq([x], f) == [f(x)]; }
        multiset(MapSeq(s, f)) + multiset{f(x)};
      }
    } else {
      var rest := Insert(x, s[1..], key, le);
      assert MapSeq([s[0]], f) == [f(s[0])];
      calc {
        multiset(MapSeq(Insert(x, s, key, le), f));
        multiset(MapSeq([s[0]] + rest, f));
        { MapSeqConcat([s[0]], rest, f); }
        multiset{f(s[0])} + multiset(MapSeq(rest, f));
        { InsertMapped(x, s[1..], key, le, f); }
        multiset{f(s[0])} + multiset(MapSeq(s[1..], f)) + multiset{f(x)};
        { MapSeqConcat([s[0]], s[1..], f); assert [s[0]] + s[1..] == s; }
        multiset(MapSeq(s, f)) + multiset{f(x)};
      }
    }
  }

  lemma {:induction false} SortByMapped<T(!new), K(!new), U(!new)>(s: seq<T>, key: T -> K, le: (K, K) -> bool, f: T -> U)
    ensures multiset(MapSeq(SortBy(s, key, le), f)) == multiset(MapSeq(s, f))
  {
    if s != [] {
      var t := SortBy(s[1..], key, le);
      assert [s[0]] + s[1..] == s;
      calc {
        multiset(MapSeq(SortBy(s, key, le), f));
        multiset(MapSeq(Insert(s[0], t, key, le), f));
        { InsertMapped(s[0], t, key, le, f); }
        multiset(MapSeq(t, f)) + multiset{f(s[0])};
        { SortByMapped(s[1..], key, le, f); }
        multiset(MapSeq(s[1..], f)) + multiset{f(s[0])};
        { MapSeqConcat([s[0]], s[1..], f); }
        multiset(MapSeq(s, f));
      }
    }
  }

  /** A finite non-empty set has a least element under a total preorder. */
  lemma {:induction false} LeastExists<K(!new)>(s: set<K>, le: (K, K) -> bool)
    requires TotalPreorder(le) && s != {}
    ensures exists m :: m in s && forall x :: x in s ==> le(m, x)
    decreases |s|
  {
    assert |s| > 0;
    var y :| y in s;
    var rest := s - {y};
    if rest == {} {
      assert s == {y};
      assert le(y, y);
    } else {
      LeastExists(rest, le);
      var m :| m in rest && forall x :: x in rest ==> le(m, x);
      if le(y, m) {
        assert forall x :: x in s ==> x == y || x in rest;
        assert le(y, y);
      } else {
        assert le(m, y);
        assert forall x :: x in s ==> x == y || x in rest;
      }
    }
  }

  /** `sorted(s)` for a set `s`: its elements in ascending order. */
  function SortedSet<K(==,!new)>(s: set<K>, le: (K, K) -> bool): (r: seq<K>)
    requires TotalOrder(le)
    ensures |r| == |s|
    ensures forall x :: x in r <==> x in s
    ensures StrictlyAscending(r, le)
    decreases |s|
  {
    if s == {} then []
    else
      LeastExists(s, le);
      var m :| m in s && forall x :: x in s ==> le(m, x);
      var rest := SortedSet(s - {m}, le);
      var r := [m] + rest;
      assert StrictlyAscending(r, le) by {
        forall i, j | 0 <= i < j < |r| ensures le(r[i], r[j]) && r[i] != r[j] {
          if i == 0 {
            assert r[j] == rest[j - 1] && rest[j - 1] in s - {m};
          } else {
            assert r[i] == rest[i - 1] && r[j] == rest[j - 1];
          }
        }
      }
      r
  }
}
