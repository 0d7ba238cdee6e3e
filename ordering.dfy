/** Orders used by the collections: the extended reals that distance keys live in (a record with no
    coordinates is at `float('inf')`), Python's stable `sorted(key=...)`, and `sorted(set(xs))`. */
module Ordering {
  import Seqs

  /** A float that is finite or `+inf`. */
  datatype Extended = Finite(x: real) | Infinity

  /** `a <= b` on extended reals. */
  predicate Le(a: Extended, b: Extended) {
    match (a, b)
    case (_, Infinity) => true
    case (Infinity, Finite(_)) => false
    case (Finite(x), Finite(y)) => x <= y
  }

  /** `a <= r` for a finite bound `r`: `+inf` never qualifies. */
  predicate AtMost(a: Extended, r: real) {
    a.Finite? && a.x <= r
  }

  predicate SortedBy<T>(s: seq<T>, key: T -> Extended) {
    forall i, j :: 0 <= i < j < |s| ==> Le(key(s[i]), key(s[j]))
  }

  lemma LeTotal(a: Extended, b: Extended)
    ensures Le(a, b) || Le(b, a)
  {
  }

  lemma LeTransitive(a: Extended, b: Extended, c: Extended)
    requires Le(a, b) && Le(b, c)
    ensures Le(a, c)
  {
  }

  /** The index of the first element of `s` whose key is not smaller than `x`'s (or `|s|`). */
  function InsertionPoint<T>(x: T, s: seq<T>, key: T -> Extended): (i: nat)
    ensures i <= |s|
    ensures forall j :: 0 <= j < i ==> !Le(key(x), key(s[j]))
    ensures i < |s| ==> Le(key(x), key(s[i]))
  {
    if s == [] || Le(key(x), key(s[0])) then 0 else 1 + InsertionPoint(x, s[1..], key)
  }

  /** Inserts `x` before the first element whose key is not smaller, so that among equal keys `x`
      comes first. */
  function Insert<T>(x: T, s: seq<T>, key: T -> Extended): (r: seq<T>)
    ensures multiset(r) == multiset(s) + multiset{x}
  {
    var i := InsertionPoint(x, s, key);
    assert s == s[..i] + s[i..];
    s[..i] + [x] + s[i..]
  }

  lemma InsertSorted<T>(x: T, s: seq<T>, key: T -> Extended)
    requires SortedBy(s, key)
    ensures SortedBy(Insert(x, s, key), key)
  {
    var i := InsertionPoint(x, s, key);
    var r := Insert(x, s, key);
    forall a, b | 0 <= a < b < |r| ensures Le(key(r[a]), key(r[b])) {
      if b == i {
        LeTotal(key(x), key(s[a]));
      } else if a == i {
        if b > i + 1 {
          LeTransitive(key(x), key(s[i]), key(s[b - 1]));
        }
      } else if a < i && b > i {
        assert r[a] == s[a] && r[b] == s[b - 1];
      } else if b < i {
        assert r[a] == s[a] && r[b] == s[b];
      } else {
        assert r[a] == s[a - 1] && r[b] == s[b - 1];
      }
    }
  }

  /** Python's `sorted(s, key=key)`: a stable sort (here, insertion sort from the back). */
  function SortBy<T>(s: seq<T>, key: T -> Extended): (r: seq<T>)
    ensures multiset(r) == multiset(s)
    ensures |r| == |s|
    ensures SortedBy(r, key)
  {
    if s == [] then []
    else
      assert s == [s[0]] + s[1..];
      var rest := SortBy(s[1..], key);
      InsertSorted(s[0], rest, key);
      Insert(s[0], rest, key)
  }

  /** The elements whose key is `k`. */
  function HasKey<T>(key: T -> Extended, k: Extended): T -> bool {
    x => key(x) == k
  }

  /** Moving `x` in front of `before` does not change what a filter keeps, provided the filter keeps
      nothing of `before` or does not keep `x`. */
  lemma FilterSwap<T>(before: seq<T>, x: T, after: seq<T>, p: T -> bool)
    requires Seqs.Filter(before, p) == [] || !p(x)
    ensures Seqs.Filter(before + [x] + after, p) == Seqs.Filter([x] + before + after, p)
  {
    Seqs.FilterAppend(before + [x], after, p);
    Seqs.FilterAppend(before, [x], p);
    Seqs.FilterAppend([x] + before, after, p);
    Seqs.FilterAppend([x], before, p);
    if !p(x) {
      assert Seqs.Filter([x], p) == [];
    }
  }

  lemma InsertStable<T>(x: T, s: seq<T>, key: T -> Extended, k: Extended)
    ensures Seqs.Filter(Insert(x, s, key), HasKey(key, k)) == Seqs.Filter([x] + s, HasKey(key, k))
  {
    var p := HasKey(key, k);
    var i := InsertionPoint(x, s, key);
    var before, after := s[..i], s[i..];
    if p(x) {
      // Every element before the insertion point has a key strictly below x's, so none has key k.
      forall j | 0 <= j < |before| ensures !p(before[j]) {
        assert !Le(key(x), key(s[j]));
      }
      Seqs.FilterNone(before, p);
    }
    FilterSwap(before, x, after, p);
    assert [x] + before + after == [x] + s;
  }

  /** Stability: for every key value, the elements with that key appear in the sorted output in the
      same order as in the input. */
  lemma {:induction false} SortStable<T>(s: seq<T>, key: T -> Extended, k: Extended)
    ensures Seqs.Filter(SortBy(s, key), HasKey(key, k)) == Seqs.Filter(s, HasKey(key, k))
  {
    if s != [] {
      SortStable(s[1..], key, k);
      InsertStable(s[0], SortBy(s[1..], key), key, k);
      var p := HasKey(key, k);
      assert ([s[0]] + SortBy(s[1..], key))[1..] == SortBy(s[1..], key);
      assert s == [s[0]] + s[1..];
    }
  }

  ghost predicate StrictTotalOrder<T(!new)>(lt: (T, T) -> bool) {
    && (forall a :: !lt(a, a))
    && (forall a, b, c :: lt(a, b) && lt(b, c) ==> lt(a, c))
    && (forall a, b :: a != b ==> lt(a, b) || lt(b, a))
  }

  predicate StrictlyAscending<T>(s: seq<T>, lt: (T, T) -> bool) {
    forall i, j :: 0 <= i < j < |s| ==> lt(s[i], s[j])
  }

  /** Adds `x` to a strictly ascending list unless it is already there. */
  function InsertDistinct<T(==,!new)>(x: T, s: seq<T>, lt: (T, T) -> bool): (r: seq<T>)
    requires StrictTotalOrder(lt)
    requires StrictlyAscending(s, lt)
    ensures StrictlyAscending(r, lt)
    ensures forall y :: y in r <==> y == x || y in s
  {
    if s == [] then [x]
    else if x == s[0] then s
    else if lt(x, s[0]) then [x] + s
    else
      var rest := InsertDistinct(x, s[1..], lt);
      assert forall y :: y in rest ==> lt(s[0], y) by {
        forall y | y in rest ensures lt(s[0], y) {
          if y != x {
            var m :| 1 <= m < |s| && s[m] == y;
          }
        }
      }
      [s[0]] + rest
  }

  /** Python's `sorted(set(xs))`: the distinct elements of `xs` in strictly ascending order. */
  function SortedDistinct<T(==,!new)>(xs: seq<T>, lt: (T, T) -> bool): (r: seq<T>)
    requires StrictTotalOrder(lt)
    ensures StrictlyAscending(r, lt)
    ensures forall y :: y in r <==> y in xs
  {
    if xs == [] then []
    else
      assert xs == [xs[0]] + xs[1..];
      InsertDistinct(xs[0], SortedDistinct(xs[1..], lt), lt)
  }

  /** A strictly ascending list is determined by its elements, so `sorted(set(xs))` does not depend
      on the iteration order of the set. */
  lemma {:induction false} AscendingUnique<T(!new)>(s: seq<T>, t: seq<T>, lt: (T, T) -> bool)
    requires StrictTotalOrder(lt)
    requires StrictlyAscending(s, lt) && StrictlyAscending(t, lt)
    requires forall y :: y in s <==> y in t
    ensures s == t
  {
    if s != [] {
      assert s[0] in t;
    }
    if t != [] {
      assert t[0] in s;
    }
    if s != [] {
      assert s[0] == t[0];
      forall y ensures y in s[1..] <==> y in t[1..] {
        if y in s[1..] {
          var i :| 1 <= i < |s| && s[i] == y;
          assert lt(s[0], y);
          assert y in t;
          var j :| 0 <= j < |t| && t[j] == y;
          assert j != 0;
        }
        if y in t[1..] {
          var i :| 1 <= i < |t| && t[i] == y;
          assert lt(t[0], y);
          assert y in s;
          var j :| 0 <= j < |s| && s[j] == y;
          assert j != 0;
        }
      }
      AscendingUnique(s[1..], t[1..], lt);
      assert s == [s[0]] + s[1..] && t == [t[0]] + t[1..];
    }
  }

  function IntLess(a: int, b: int): bool { a < b }

  lemma IntLessIsStrictTotal()
    ensures StrictTotalOrder(IntLess)
  {
  }
}
