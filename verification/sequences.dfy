/** Generic operations on sequences used by the queries and the client-side views:
    filtering, order-preserving subsequences, a stable insertion sort, sums and
    distinctness of a projected label. */
module Sequences {

  import opened Types

  /** `t` can be obtained from `s` by deleting elements, keeping the order of the rest. */
  predicate IsSubseq<T(==)>(t: seq<T>, s: seq<T>)
    decreases |s|
  {
    if t == [] then true
    else if s == [] then false
    else if t[0] == s[0] then IsSubseq(t[1..], s[1..])
    else IsSubseq(t, s[1..])
  }

  lemma {:induction false} SubseqSkip<T>(t: seq<T>, s: seq<T>)
    requires IsSubseq(t, s)
    ensures t != [] ==> IsSubseq(t[1..], s)
    ensures forall x :: x in t ==> x in s
    decreases |s|, 0
  {
    if t != [] && s != [] {
      assert [s[0]] + s[1..] == s;
      assert t == [t[0]] + t[1..];
      if t[0] == s[0] {
        SubseqWeaken(t[1..], s[1..], s[0]);
        SubseqSkip(t[1..], s[1..]);
      } else {
        SubseqSkip(t, s[1..]);
        SubseqWeaken(t[1..], s[1..], s[0]);
      }
    }
  }

  /** Putting any element in front of the longer sequence keeps the relation. */
  lemma {:induction false} SubseqWeaken<T>(t: seq<T>, s: seq<T>, x: T)
    requires IsSubseq(t, s)
    ensures IsSubseq(t, [x] + s)
    decreases |s|, 1
  {
    var xs := [x] + s;
    assert xs[1..] == s;
    if t != [] && t[0] == x {
      SubseqSkip(t, s);
    }
  }

  /** Position of the first element whose key is `k`: a lookup by key. */
  function FindBy<T(!new), K(==)>(s: seq<T>, key: T -> K, k: K): (r: Option<nat>)
    ensures r.Some? ==> r.value < |s| && key(s[r.value]) == k
    ensures r.None? <==> forall x :: x in s ==> key(x) != k
    decreases |s|
  {
    if s == [] then None
    else if key(s[0]) == k then Some(0)
    else
      assert forall x :: x in s <==> x == s[0] || x in s[1..];
      match FindBy(s[1..], key, k)
      case None => None
      case Some(j) => Some(j + 1)
  }

  /** The elements of `s` satisfying `p`, in their order in `s`. */
  function Filter<T(!new)>(s: seq<T>, p: T -> bool): (r: seq<T>)
    ensures |r| <= |s|
    ensures forall x :: x in r <==> x in s && p(x)
    ensures IsSubseq(r, s)
    ensures (forall x :: x in s ==> p(x)) ==> r == s
    ensures forall x :: multiset(r)[x] == if p(x) then multiset(s)[x] else 0
    decreases |s|
  {
    if s == [] then []
    else
      var rest := Filter(s[1..], p);
      assert forall x :: x in s <==> x == s[0] || x in s[1..];
      assert s == [s[0]] + s[1..];
      if p(s[0]) then [s[0]] + rest
      else
        SubseqWeaken(rest, s[1..], s[0]);
        assert [s[0]] + s[1..] == s;
        rest
  }

  /** The conjunction of two predicates. */
  function Both<T>(p: T -> bool, q: T -> bool): T -> bool {
    x => p(x) && q(x)
  }

  /** Filtering twice is filtering once by both predicates. */
  lemma {:induction false} FilterFilter<T(!new)>(s: seq<T>, p: T -> bool, q: T -> bool)
    ensures Filter(Filter(s, p), q) == Filter(s, Both(p, q))
    decreases |s|
  {
    if s != [] {
      FilterFilter(s[1..], p, q);
      var rest := Filter(s[1..], p);
      if p(s[0]) {
        assert ([s[0]] + rest)[1..] == rest;
      }
    }
  }

  /** Filters by predicates that agree on every element agree. */
  lemma {:induction false} FilterExtensional<T(!new)>(s: seq<T>, p: T -> bool, q: T -> bool)
    requires forall x :: x in s ==> p(x) == q(x)
    ensures Filter(s, p) == Filter(s, q)
    decreases |s|
  {
    if s != [] {
      FilterExtensional(s[1..], p, q);
    }
  }

  predicate SortedBy<T>(s: seq<T>, key: T -> int) {
    forall i, j :: 0 <= i < j < |s| ==> key(s[i]) <= key(s[j])
  }

  /** Inserts `x` before the first element whose key is not smaller than its own. */
  function Insert<T>(x: T, s: seq<T>, key: T -> int): (r: seq<T>)
    ensures multiset(r) == multiset(s) + multiset{x}
    ensures |r| == |s| + 1
    decreases |s|
  {
    if s == [] || key(x) <= key(s[0]) then [x] + s
    else
      assert s == [s[0]] + s[1..];
      [s[0]] + Insert(x, s[1..], key)
  }

  lemma {:induction false} InsertSorted<T>(x: T, s: seq<T>, key: T -> int)
    requires SortedBy(s, key)
    ensures SortedBy(Insert(x, s, key), key)
    decreases |s|
  {
    var r := Insert(x, s, key);
    if s != [] && key(x) > key(s[0]) {
      var rest := Insert(x, s[1..], key);
      InsertSorted(x, s[1..], key);
      assert r == [s[0]] + rest;
      forall j | 0 < j < |r| ensures key(r[0]) <= key(r[j]) {
        assert r[j] in multiset(rest);
        assert r[j] == x || r[j] in s[1..];
      }
    }
  }

  /** Insertion sort by ascending key; it keeps equal keys in their input order,
      like the stable `Array.prototype.sort` of the client. */
  function SortBy<T>(s: seq<T>, key: T -> int): (r: seq<T>)
    ensures SortedBy(r, key)
    ensures multiset(r) == multiset(s)
    ensures |r| == |s|
    decreases |s|
  {
    if s == [] then []
    else
      assert s == [s[0]] + s[1..];
      var sorted := SortBy(s[1..], key);
      InsertSorted(s[0], sorted, key);
      Insert(s[0], sorted, key)
  }

  /** Sorting neither adds nor drops an element. */
  lemma SortByMembers<T>(s: seq<T>, key: T -> int)
    ensures forall x :: x in SortBy(s, key) <==> x in s
  {
    var r := SortBy(s, key);
    forall x ensures x in r <==> x in s {
      assert x in r <==> x in multiset(r);
      assert x in s <==> x in multiset(s);
    }
  }

  function SumBy<T>(s: seq<T>, w: T -> int): int
    decreases |s|
  {
    if s == [] then 0 else w(s[0]) + SumBy(s[1..], w)
  }

  lemma {:induction false} SumByAppend<T>(s: seq<T>, x: T, w: T -> int)
    ensures SumBy(s + [x], w) == SumBy(s, w) + w(x)
    decreases |s|
  {
    if s != [] {
      assert (s + [x])[1..] == s[1..] + [x];
      SumByAppend(s[1..], x, w);
    }
  }

  lemma {:induction false} SumByUpdate<T>(s: seq<T>, j: nat, y: T, w: T -> int)
    requires j < |s|
    ensures SumBy(s[j := y], w) == SumBy(s, w) - w(s[j]) + w(y)
    decreases |s|
  {
    if j > 0 {
      assert s[j := y][1..] == s[1..][j - 1 := y];
      SumByUpdate(s[1..], j - 1, y, w);
    }
  }

  lemma {:induction false} SumByInsert<T>(x: T, s: seq<T>, key: T -> int, w: T -> int)
    ensures SumBy(Insert(x, s, key), w) == w(x) + SumBy(s, w)
    decreases |s|
  {
    if s != [] && key(x) > key(s[0]) {
      SumByInsert(x, s[1..], key, w);
    }
  }

  /** Sorting does not change a sum over the elements. */
  lemma {:induction false} SumBySort<T>(s: seq<T>, key: T -> int, w: T -> int)
    ensures SumBy(SortBy(s, key), w) == SumBy(s, w)
    decreases |s|
  {
    if s != [] {
      SumBySort(s[1..], key, w);
      SumByInsert(s[0], SortBy(s[1..], key), key, w);
    }
  }

  /** No two elements of `s` share a proj. */
  predicate DistinctBy<T, L(==)>(s: seq<T>, proj: T -> L) {
    forall i, j :: 0 <= i < j < |s| ==> proj(s[i]) != proj(s[j])
  }

  lemma {:induction false} DistinctByFilter<T(!new), L>(s: seq<T>, p: T -> bool, proj: T -> L)
    requires DistinctBy(s, proj)
    ensures DistinctBy(Filter(s, p), proj)
    decreases |s|
  {
    if s != [] {
      DistinctByFilter(s[1..], p, proj);
      var rest := Filter(s[1..], p);
      if p(s[0]) {
        var r := [s[0]] + rest;
        forall i, j | 0 <= i < j < |r| ensures proj(r[i]) != proj(r[j]) {
          if i == 0 {
            assert r[j] in s[1..];
          }
        }
      }
    }
  }

  lemma {:induction false} DistinctByInsert<T(!new), L>(x: T, s: seq<T>, key: T -> int, proj: T -> L)
    requires DistinctBy(s, proj)
    requires forall y :: y in s ==> proj(y) != proj(x)
    ensures DistinctBy(Insert(x, s, key), proj)
    decreases |s|
  {
    var r := Insert(x, s, key);
    if s == [] || key(x) <= key(s[0]) {
      forall i, j | 0 <= i < j < |r| ensures proj(r[i]) != proj(r[j]) {
        if i > 0 {
          assert r[i] == s[i - 1] && r[j] == s[j - 1];
        } else {
          assert r[j] in s;
        }
      }
    } else {
      DistinctByInsert(x, s[1..], key, proj);
      var rest := Insert(x, s[1..], key);
      assert r == [s[0]] + rest;
      forall i, j | 0 <= i < j < |r| ensures proj(r[i]) != proj(r[j]) {
        if i == 0 {
          assert r[j] in multiset(rest);
          assert r[j] == x || r[j] in s[1..];
        }
      }
    }
  }

  /** Sorting keeps labels distinct. */
  lemma {:induction false} DistinctBySort<T(!new), L>(s: seq<T>, key: T -> int, proj: T -> L)
    requires DistinctBy(s, proj)
    ensures DistinctBy(SortBy(s, key), proj)
    decreases |s|
  {
    if s != [] {
      DistinctBySort(s[1..], key, proj);
      var sorted := SortBy(s[1..], key);
      forall y | y in sorted ensures proj(y) != proj(s[0]) {
        assert y in multiset(s[1..]);
      }
      DistinctByInsert(s[0], sorted, key, proj);
    }
  }
}
