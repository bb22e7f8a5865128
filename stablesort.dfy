/** Python's `list.sort(key=...)`, which is stable, as a pure function: insertion
    of each element, in input order, after every element whose key does not come
    after its own.  `lt` is the strict order on keys; `reverse=True` is the
    reversed order, since Python keeps a reversed sort stable too.  A stable sort
    has exactly one possible result, so this definition is the library's. */
module StableSort {

  /** `lt` is irreflexive, transitive and relates any two distinct keys. */
  ghost predicate StrictTotal<K(!new)>(lt: (K, K) -> bool)
  {
    && (forall a :: !lt(a, a))
    && (forall a, b, c :: lt(a, b) && lt(b, c) ==> lt(a, c))
    && (forall a, b :: a != b ==> lt(a, b) || lt(b, a))
  }

  /** No element is followed by one whose key comes strictly before its own. */
  ghost predicate SortedBy<T, K>(s: seq<T>, key: T -> K, lt: (K, K) -> bool)
  {
    forall i, j :: 0 <= i < j < |s| ==> !lt(key(s[j]), key(s[i]))
  }

  /** The elements of `s` whose key is `k`, in their order in `s`. */
  function WithKey<T, K(==)>(s: seq<T>, key: T -> K, k: K): (r: seq<T>)
    ensures |r| <= |s|
    ensures forall i :: 0 <= i < |r| ==> key(r[i]) == k
  {
    if s == [] then []
    else (if key(s[0]) == k then [s[0]] else []) + WithKey(s[1..], key, k)
  }

  function Insert<T, K>(x: T, s: seq<T>, key: T -> K, lt: (K, K) -> bool): (r: seq<T>)
    ensures multiset(r) == multiset(s) + multiset{x}
  {
    if s == [] then [x]
    else if lt(key(x), key(s[0])) then [x] + s
    else
      assert s == [s[0]] + s[1..];
      [s[0]] + Insert(x, s[1..], key, lt)
  }

  function Sort<T, K>(s: seq<T>, key: T -> K, lt: (K, K) -> bool): (r: seq<T>)
    ensures multiset(r) == multiset(s)
  {
    if s == [] then []
    else
      assert s == s[..|s| - 1] + [s[|s| - 1]];
      Insert(s[|s| - 1], Sort(s[..|s| - 1], key, lt), key, lt)
  }

  lemma {:induction false} WithKeyConcat<T, K>(a: seq<T>, b: seq<T>, key: T -> K, k: K)
    ensures WithKey(a + b, key, k) == WithKey(a, key, k) + WithKey(b, key, k)
  {
    if a == [] {
      assert a + b == b;
    } else {
      assert (a + b)[1..] == a[1..] + b;
      WithKeyConcat(a[1..], b, key, k);
    }
  }

  lemma {:induction false} InsertSorted<T, K(!new)>(x: T, s: seq<T>, key: T -> K, lt: (K, K) -> bool)
    requires StrictTotal(lt)
    requires SortedBy(s, key, lt)
    ensures SortedBy(Insert(x, s, key, lt), key, lt)
  {
    if s != [] {
      if lt(key(x), key(s[0])) {
        var r := [x] + s;
        forall i, j | 0 <= i < j < |r| ensures !lt(key(r[j]), key(r[i])) {
          if i == 0 {
            assert r[j] == s[j - 1];
            if j - 1 > 0 {
              assert !lt(key(s[j - 1]), key(s[0]));
            }
          } else {
            assert r[i] == s[i - 1] && r[j] == s[j - 1];
          }
        }
      } else {
        var t := Insert(x, s[1..], key, lt);
        InsertSorted(x, s[1..], key, lt);
        var r := [s[0]] + t;
        forall i, j | 0 <= i < j < |r| ensures !lt(key(r[j]), key(r[i])) {
          if i == 0 {
            assert r[j] in multiset(t);
            assert r[j] == x || r[j] in multiset(s[1..]);
            if r[j] != x {
              var m :| 0 <= m < |s[1..]| && s[1..][m] == r[j];
              assert s[m + 1] == r[j];
            }
          } else {
            assert r[i] == t[i - 1] && r[j] == t[j - 1];
          }
        }
      }
    }
  }

  /** The result of the sort is ordered by key. */
  lemma {:induction false} SortSorted<T, K(!new)>(s: seq<T>, key: T -> K, lt: (K, K) -> bool)
    requires StrictTotal(lt)
    ensures SortedBy(Sort(s, key, lt), key, lt)
  {
    if s != [] {
      SortSorted(s[..|s| - 1], key, lt);
      InsertSorted(s[|s| - 1], Sort(s[..|s| - 1], key, lt), key, lt);
    }
  }

  lemma {:induction false} NoneWithSmallerKey<T, K(!new)>(s: seq<T>, key: T -> K, lt: (K, K) -> bool, k: K)
    requires StrictTotal(lt)
    requires SortedBy(s, key, lt)
    requires s != [] && lt(k, key(s[0]))
    ensures WithKey(s, key, k) == []
  {
    if |s| > 1 {
      assert !lt(key(s[1]), key(s[0]));
      assert lt(k, key(s[1])) by {
        if key(s[1]) != key(s[0]) { assert lt(key(s[0]), key(s[1])); }
      }
      NoneWithSmallerKey(s[1..], key, lt, k);
    } else {
      assert s[1..] == [];
    }
  }

  lemma {:induction false} InsertWithKey<T, K(!new)>(x: T, s: seq<T>, key: T -> K, lt: (K, K) -> bool, k: K)
    requires StrictTotal(lt)
    requires SortedBy(s, key, lt)
    ensures WithKey(Insert(x, s, key, lt), key, k)
         == WithKey(s, key, k) + (if key(x) == k then [x] else [])
  {
    if s == [] {
    } else if lt(key(x), key(s[0])) {
      assert ([x] + s)[1..] == s;
      if key(x) == k {
        NoneWithSmallerKey(s, key, lt, k);
      }
    } else {
      InsertWithKey(x, s[1..], key, lt, k);
      assert ([s[0]] + Insert(x, s[1..], key, lt))[1..] == Insert(x, s[1..], key, lt);
    }
  }

  /** Stability: for every key, the elements carrying it keep their input order. */
  lemma {:induction false} SortStable<T, K(!new)>(s: seq<T>, key: T -> K, lt: (K, K) -> bool, k: K)
    requires StrictTotal(lt)
    ensures WithKey(Sort(s, key, lt), key, k) == WithKey(s, key, k)
  {
    if s != [] {
      var init, last := s[..|s| - 1], s[|s| - 1];
      var sorted := Sort(init, key, lt);
      assert Sort(s, key, lt) == Insert(last, sorted, key, lt);
      SortStable(init, key, lt, k);
      SortSorted(init, key, lt);
      InsertWithKey(last, sorted, key, lt, k);
      WithKeySnoc(s, key, k);
    }
  }

  lemma WithKeySnoc<T, K>(s: seq<T>, key: T -> K, k: K)
    requires s != []
    ensures WithKey(s, key, k) == WithKey(s[..|s| - 1], key, k) + (if key(s[|s| - 1]) == k then [s[|s| - 1]] else [])
  {
    var init, last := s[..|s| - 1], s[|s| - 1];
    assert s == init + [last];
    WithKeyConcat(init, [last], key, k);
    WithKeySingle(last, key, k);
  }

  lemma WithKeySingle<T, K>(x: T, key: T -> K, k: K)
    ensures WithKey([x], key, k) == if key(x) == k then [x] else []
  {
    assert [x][1..] == [];
  }

  lemma {:induction false} FirstWithKey<T, K>(s: seq<T>, key: T -> K, k: K)
    requires WithKey(s, key, k) != []
    ensures exists i :: 0 <= i < |s| && s[i] == WithKey(s, key, k)[0]
                        && forall j :: 0 <= j < i ==> key(s[j]) != k
  {
    if key(s[0]) != k {
      FirstWithKey(s[1..], key, k);
      var i :| 0 <= i < |s[1..]| && s[1..][i] == WithKey(s[1..], key, k)[0]
               && forall j :: 0 <= j < i ==> key(s[1..][j]) != k;
      assert s[i + 1] == WithKey(s, key, k)[0];
      forall j | 0 <= j < i + 1 ensures key(s[j]) != k {
        if j > 0 { assert s[j] == s[1..][j - 1]; }
      }
    }
  }

  /** The first element of a non-empty sorted list: an element of the input
      whose key no element's key comes before, and the earliest input element
      with that key. */
  lemma SortHead<T, K(!new)>(s: seq<T>, key: T -> K, lt: (K, K) -> bool)
    requires StrictTotal(lt)
    requires s != []
    ensures |Sort(s, key, lt)| == |s|
    ensures var h := Sort(s, key, lt)[0];
      && (forall i :: 0 <= i < |s| ==> !lt(key(s[i]), key(h)))
      && exists i :: 0 <= i < |s| && s[i] == h && forall j :: 0 <= j < i ==> key(s[j]) != key(h)
  {
    var r := Sort(s, key, lt);
    assert |r| == |multiset(r)| == |multiset(s)| == |s|;
    var h := r[0];
    SortSorted(s, key, lt);
    forall i | 0 <= i < |s| ensures !lt(key(s[i]), key(h)) {
      assert s[i] in multiset(r);
      var m :| 0 <= m < |r| && r[m] == s[i];
      if m == 0 {
        assert !lt(key(h), key(h));
      }
    }
    SortStable(s, key, lt, key(h));
    assert WithKey(r, key, key(h))[0] == h;
    FirstWithKey(s, key, key(h));
  }
}
