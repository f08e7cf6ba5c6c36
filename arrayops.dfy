/** The two JavaScript array operations the palette code leans on:
    `Array.prototype.sort` with a comparator (a stable sort since ES2019)
    and `Array.prototype.slice(0, end)`. The sort is modelled as a stable
    insertion sort by a lexicographic key; every stable sort by the same key
    returns the same sequence, so this fixes the result the library gives. */
module ArrayOps {
  import opened Types

  /** A comparator of the form `x1 - y1 || x2 - y2 || x3 - y3` orders by
      this triple lexicographically. */
  datatype Key = Key(k1: real, k2: real, k3: real)

  predicate KeyLt(x: Key, y: Key) {
    x.k1 < y.k1 || (x.k1 == y.k1 && (x.k2 < y.k2 || (x.k2 == y.k2 && x.k3 < y.k3)))
  }

  predicate KeyLe(x: Key, y: Key) {
    !KeyLt(y, x)
  }

  ghost predicate SortedBy<T>(s: seq<T>, key: T -> Key) {
    forall i, j :: 0 <= i < j < |s| ==> KeyLe(key(s[i]), key(s[j]))
  }

  /** The elements of `s` whose key is `kv`, in their order in `s`. */
  function WithKey<T>(s: seq<T>, key: T -> Key, kv: Key): seq<T> {
    if s == [] then [] else (if key(s[0]) == kv then [s[0]] else []) + WithKey(s[1..], key, kv)
  }

  /** Put `x` in front of the first element of `t` whose key is not smaller. */
  function Insert<T>(x: T, t: seq<T>, key: T -> Key): (r: seq<T>)
    ensures |r| == |t| + 1
    ensures multiset(r) == multiset([x] + t)
  {
    if t == [] || !KeyLt(key(t[0]), key(x)) then [x] + t
    else
      assert t == [t[0]] + t[1..];
      [t[0]] + Insert(x, t[1..], key)
  }

  /** A comparator sort that compares the keys of two elements: a permutation of `s`. */
  function SortBy<T>(s: seq<T>, key: T -> Key): (r: seq<T>)
    ensures |r| == |s|
    ensures multiset(r) == multiset(s)
  {
    if s == [] then []
    else
      assert s == [s[0]] + s[1..];
      Insert(s[0], SortBy(s[1..], key), key)
  }

  lemma {:induction false} InsertSorted<T>(x: T, t: seq<T>, key: T -> Key)
    requires SortedBy(t, key)
    ensures SortedBy(Insert(x, t, key), key)
  {
    if t != [] && KeyLt(key(t[0]), key(x)) {
      var rest := Insert(x, t[1..], key);
      InsertSorted(x, t[1..], key);
      forall y | y in rest ensures KeyLe(key(t[0]), key(y)) {
        assert y in multiset(rest);
        assert y == x || y in t[1..];
      }
    }
  }

  lemma {:induction false} InsertWithKey<T>(x: T, t: seq<T>, key: T -> Key, kv: Key)
    ensures WithKey(Insert(x, t, key), key, kv) == WithKey([x] + t, key, kv)
  {
    if t != [] && KeyLt(key(t[0]), key(x)) {
      InsertWithKey(x, t[1..], key, kv);
      var r := Insert(x, t, key);
      assert r[1..] == Insert(x, t[1..], key);
      assert ([x] + t[1..])[1..] == t[1..];
      assert ([x] + t)[1..] == t;
      assert t[1..] == ([x] + t)[1..][1..];
    }
  }

  /** The sorted sequence is ordered by key, and elements with equal keys
      keep their original relative order: the sort is stable. */
  lemma {:induction false} SortByIsStableSort<T>(s: seq<T>, key: T -> Key)
    ensures SortedBy(SortBy(s, key), key)
    ensures forall kv :: WithKey(SortBy(s, key), key, kv) == WithKey(s, key, kv)
  {
    if s != [] {
      SortByIsStableSort(s[1..], key);
      var t := SortBy(s[1..], key);
      InsertSorted(s[0], t, key);
      forall kv ensures WithKey(SortBy(s, key), key, kv) == WithKey(s, key, kv) {
        InsertWithKey(s[0], t, key, kv);
        assert ([s[0]] + t)[1..] == t;
      }
    }
  }

  lemma SortByElements<T>(s: seq<T>, key: T -> Key)
    ensures forall x :: x in SortBy(s, key) <==> x in s
  {
    var r := SortBy(s, key);
    forall x ensures x in r <==> x in s {
      assert x in r <==> x in multiset(r);
      assert x in s <==> x in multiset(s);
    }
  }

  /** `s.slice(0, end)`: a negative `end` counts back from the end. */
  function SliceTo<T>(s: seq<T>, end: int): (r: seq<T>)
    ensures |r| <= |s| && r == s[..|r|]
    ensures 0 <= end ==> |r| == if end < |s| then end else |s|
    ensures end < 0 ==> |r| == if |s| + end > 0 then |s| + end else 0
  {
    var n := if end < 0 then (if |s| + end > 0 then |s| + end else 0)
             else if end < |s| then end else |s|;
    s[..n]
  }

  /** `s.map(f)`: one result per element, in order. */
  function Map<A, B>(f: A -> B, s: seq<A>): (r: seq<B>)
    ensures |r| == |s|
    ensures forall i :: 0 <= i < |s| ==> r[i] == f(s[i])
  {
    if s == [] then [] else Map(f, s[..|s| - 1]) + [f(s[|s| - 1])]
  }

  /** Every element of a sorted prefix comes from the unsorted list. */
  lemma SortedPrefixFrom<T>(s: seq<T>, key: T -> Key, end: int)
    ensures var r := SliceTo(SortBy(s, key), end);
      forall i :: 0 <= i < |r| ==> r[i] in s
  {
    var sorted := SortBy(s, key);
    var r := SliceTo(sorted, end);
    SortByElements(s, key);
    forall i | 0 <= i < |r| ensures r[i] in s {
      assert r[i] == sorted[i];
    }
  }

  /** Mapping a one-longer prefix appends the image of the new element. */
  lemma MapPrefixStep<A, B>(f: A -> B, s: seq<A>, i: nat)
    requires i < |s|
    ensures Map(f, s[..i + 1]) == Map(f, s[..i]) + [f(s[i])]
  {
    assert s[..i + 1][..i] == s[..i];
  }

  /** What one optional entry contributes to a list: nothing, or its value. */
  function Found<T>(o: Option<T>): seq<T> {
    match o {
      case Some(x) => [x]
      case None => []
    }
  }

  /** The values a list of optional entries holds, in order. */
  function Flatten<T>(os: seq<Option<T>>): seq<T> {
    if os == [] then [] else Flatten(os[..|os| - 1]) + Found(os[|os| - 1])
  }

  lemma FlattenSnoc<T>(os: seq<Option<T>>, o: Option<T>)
    ensures Flatten(os + [o]) == Flatten(os) + Found(o)
  {
    assert (os + [o])[..|os|] == os;
  }

  /** A value is in the list exactly when some entry holds it. */
  lemma {:induction false} FlattenHas<T>(os: seq<Option<T>>)
    ensures forall x :: x in Flatten(os) <==> exists j :: 0 <= j < |os| && os[j] == Some(x)
  {
    if os != [] {
      var init, o := os[..|os| - 1], os[|os| - 1];
      FlattenHas(init);
      forall x ensures x in Flatten(os) <==> exists j :: 0 <= j < |os| && os[j] == Some(x) {
        if x in Flatten(init) {
          var j :| 0 <= j < |init| && init[j] == Some(x);
          assert os[j] == Some(x);
        } else if o == Some(x) {
          assert os[|os| - 1] == Some(x);
        } else {
          assert x !in Found(o);
          forall j | 0 <= j < |os| ensures os[j] != Some(x) {
            if j < |init| { assert os[j] == init[j]; }
          }
        }
      }
    }
  }

  /** At most one value per entry. */
  lemma {:induction false} FlattenLength<T>(os: seq<Option<T>>)
    ensures |Flatten(os)| <= |os|
  {
    if os != [] {
      FlattenLength(os[..|os| - 1]);
    }
  }

  /** The values of a prefix of the entries are a prefix of the values. */
  lemma {:induction false} FlattenPrefix<T>(os: seq<Option<T>>, n: nat)
    requires n <= |os|
    ensures |Flatten(os[..n])| <= |Flatten(os)|
    ensures Flatten(os[..n]) == Flatten(os)[..|Flatten(os[..n])|]
    decreases |os|
  {
    if n < |os| {
      var init := os[..|os| - 1];
      assert init[..n] == os[..n];
      FlattenPrefix(init, n);
    } else {
      assert os[..n] == os;
    }
  }

  /** No two elements of `s` agree on `f`. */
  predicate DistinctBy<T, U(==)>(s: seq<T>, f: T -> U) {
    forall i, j :: 0 <= i < j < |s| ==> f(s[i]) != f(s[j])
  }

  lemma {:induction false} InsertDistinctBy<T, U>(x: T, t: seq<T>, key: T -> Key, f: T -> U)
    requires DistinctBy(t, f)
    requires forall y :: y in t ==> f(y) != f(x)
    ensures DistinctBy(Insert(x, t, key), f)
  {
    if t != [] && KeyLt(key(t[0]), key(x)) {
      var r := Insert(x, t[1..], key);
      InsertDistinctBy(x, t[1..], key, f);
      forall y | y in r ensures f(y) != f(t[0]) {
        assert y in multiset(r);
        assert y in multiset([x] + t[1..]);
        if y != x {
          var q :| 0 <= q < |t[1..]| && t[1..][q] == y;
          assert t[q + 1] == y;
        }
      }
      assert Insert(x, t, key) == [t[0]] + r;
    }
  }

  /** Sorting never makes two elements agree on `f`: a permutation keeps
      a list free of duplicates. */
  lemma {:induction false} SortByDistinctBy<T, U>(s: seq<T>, key: T -> Key, f: T -> U)
    requires DistinctBy(s, f)
    ensures DistinctBy(SortBy(s, key), f)
  {
    if s != [] {
      var t := SortBy(s[1..], key);
      assert DistinctBy(s[1..], f);
      SortByDistinctBy(s[1..], key, f);
      forall y | y in t ensures f(y) != f(s[0]) {
        assert y in multiset(t);
        var q :| 0 <= q < |s[1..]| && s[1..][q] == y;
        assert s[q + 1] == y;
      }
      InsertDistinctBy(s[0], t, key, f);
    }
  }
}
