/** Sequence helpers shared by the model: substring search and the order-preserving filters that
    Python list comprehensions `[x for x in s if p(x)]` compute. */
module Seqs {
  import opened Wrappers
  import opened Errors

  /** `needle` is a prefix of `hay`. */
  predicate IsPrefix<T(==)>(needle: seq<T>, hay: seq<T>) {
    |needle| <= |hay| && hay[..|needle|] == needle
  }

  /** Python's `needle in hay` for strings and bytes: some contiguous slice of `hay` equals `needle`. */
  predicate Contains<T(==)>(hay: seq<T>, needle: seq<T>)
    decreases |hay|
  {
    IsPrefix(needle, hay) || (|hay| > 0 && Contains(hay[1..], needle))
  }

  /** `needle` occurs in `hay` starting at position `i`. */
  predicate MatchAt<T(==)>(hay: seq<T>, needle: seq<T>, i: int) {
    0 <= i <= |hay| - |needle| && hay[i..i + |needle|] == needle
  }

  /** `Contains` agrees with the existence of a matching position. */
  lemma {:induction false} ContainsAt<T>(hay: seq<T>, needle: seq<T>)
    ensures Contains(hay, needle) <==> exists i :: MatchAt(hay, needle, i)
    decreases |hay|
  {
    if IsPrefix(needle, hay) {
      assert MatchAt(hay, needle, 0);
    } else if |hay| > 0 {
      ContainsAt(hay[1..], needle);
      if Contains(hay[1..], needle) {
        var i :| MatchAt(hay[1..], needle, i);
        assert hay[i + 1..i + 1 + |needle|] == hay[1..][i..i + |needle|];
        assert MatchAt(hay, needle, i + 1);
      }
      if exists i :: MatchAt(hay, needle, i) {
        var i :| MatchAt(hay, needle, i);
        assert i != 0;
        assert hay[1..][i - 1..i - 1 + |needle|] == hay[i..i + |needle|];
        assert MatchAt(hay[1..], needle, i - 1);
      }
    } else {
      assert forall i :: !MatchAt(hay, needle, i);
    }
  }

  /** The elements of `s` that satisfy `p`, in their original order. */
  function Filter<T>(s: seq<T>, p: T -> bool): (r: seq<T>)
    ensures |r| <= |s|
  {
    if s == [] then []
    else if p(s[0]) then [s[0]] + Filter(s[1..], p)
    else Filter(s[1..], p)
  }

  /** An element survives the filter exactly when it is in `s` and satisfies `p`. */
  lemma {:induction false} FilterMembers<T>(s: seq<T>, p: T -> bool)
    ensures forall x :: x in Filter(s, p) <==> x in s && p(x)
  {
    if s != [] {
      FilterMembers(s[1..], p);
      assert s == [s[0]] + s[1..];
    }
  }

  /** The first element a filter keeps is the first element of `s` that satisfies `p`. */
  lemma {:induction false} FilterFirst<T>(s: seq<T>, p: T -> bool)
    requires Filter(s, p) != []
    ensures exists i :: 0 <= i < |s| && s[i] == Filter(s, p)[0] && p(s[i]) && forall j :: 0 <= j < i ==> !p(s[j])
  {
    if !p(s[0]) {
      FilterFirst(s[1..], p);
      var i :| 0 <= i < |s[1..]| && s[1..][i] == Filter(s[1..], p)[0] && p(s[1..][i])
        && forall j :: 0 <= j < i ==> !p(s[1..][j]);
      assert s[i + 1] == Filter(s, p)[0];
      assert forall j :: 1 <= j < i + 1 ==> s[j] == s[1..][j - 1];
    } else {
      assert s[0] == Filter(s, p)[0];
    }
  }

  /** The filter keeps a sub-multiset of `s`: nothing is duplicated or invented. */
  lemma {:induction false} FilterMultiset<T>(s: seq<T>, p: T -> bool)
    ensures multiset(Filter(s, p)) <= multiset(s)
  {
    if s != [] {
      FilterMultiset(s[1..], p);
      assert s == [s[0]] + s[1..];
    }
  }

  lemma FilterCons<T>(a: T, t: seq<T>, p: T -> bool)
    ensures Filter([a] + t, p) == (if p(a) then [a] else []) + Filter(t, p)
  {
    assert ([a] + t)[1..] == t;
  }

  /** Filtering distributes over concatenation; the loops that append one element use this. */
  lemma {:induction false} FilterAppend<T>(s: seq<T>, t: seq<T>, p: T -> bool)
    ensures Filter(s + t, p) == Filter(s, p) + Filter(t, p)
  {
    if s != [] {
      assert (s + t)[1..] == s[1..] + t;
      FilterAppend(s[1..], t, p);
    } else {
      assert s + t == t;
    }
  }

  /** The last element is kept or dropped after the filtered prefix. */
  lemma FilterLast<T>(s: seq<T>, p: T -> bool)
    requires s != []
    ensures Filter(s, p) == Filter(s[..|s| - 1], p) + if p(s[|s| - 1]) then [s[|s| - 1]] else []
  {
    var init, last := s[..|s| - 1], s[|s| - 1];
    assert s == init + [last];
    FilterAppend(init, [last], p);
    assert [last][1..] == [];
    assert Filter([last], p) == if p(last) then [last] + Filter([], p) else Filter([], p);
  }

  /** Filtering twice is filtering once by the conjunction: chained criteria combine with AND. */
  lemma {:induction false} FilterFilter<T>(s: seq<T>, p: T -> bool, q: T -> bool)
    ensures Filter(Filter(s, p), q) == Filter(s, x => p(x) && q(x))
  {
    if s != [] {
      FilterFilter(s[1..], p, q);
    }
  }

  /** The conjunction of two element tests. */
  function And<T>(p: T -> bool, q: T -> bool): T -> bool {
    x => p(x) && q(x)
  }

  /** Filtering by `p` and then by `q` is filtering once by both, in the same order. */
  lemma {:induction false} FilterAnd<T>(s: seq<T>, p: T -> bool, q: T -> bool)
    ensures Filter(Filter(s, p), q) == Filter(s, And(p, q))
  {
    if s != [] {
      FilterAnd(s[1..], p, q);
      if p(s[0]) {
        assert ([s[0]] + Filter(s[1..], p))[1..] == Filter(s[1..], p);
      }
    }
  }

  /** A filter keeps nothing when no element passes. */
  lemma {:induction false} FilterNone<T>(s: seq<T>, p: T -> bool)
    requires forall i :: 0 <= i < |s| ==> !p(s[i])
    ensures Filter(s, p) == []
  {
    if s != [] {
      FilterNone(s[1..], p);
    }
  }

  /** A filter keeps everything exactly when every element passes. */
  lemma {:induction false} FilterAll<T>(s: seq<T>, p: T -> bool)
    requires forall x :: x in s ==> p(x)
    ensures Filter(s, p) == s
  {
    if s != [] {
      FilterAll(s[1..], p);
    }
  }

  /** The element-wise test of a comprehension whose condition may raise: `Ok(b)` or the exception. */
  type Test<!T> = T -> Result<bool, Error>

  /** The plain predicate a raising test stands for once it is known not to raise. */
  function Passes<T>(p: Test<T>): T -> bool {
    x => p(x) == Ok(true)
  }

  /** `[x for x in s if p(x)]` where evaluating `p(x)` may raise: elements are tested left to right
      and the first exception escapes. */
  function FilterTry<T(!new)>(s: seq<T>, p: Test<T>): (r: Result<seq<T>, Error>)
    ensures r.Ok? <==> forall x :: x in s ==> p(x).Ok?
    ensures r.Ok? ==> r.value == Filter(s, Passes(p))
    ensures r.Err? ==> exists x :: x in s && p(x) == Err(r.error)
  {
    if s == [] then Ok([])
    else
      match p(s[0])
      case Err(e) => Err(e)
      case Ok(b) =>
        var rest :- FilterTry(s[1..], p);
        Ok(if b then [s[0]] + rest else rest)
  }

  /** Testing one more element at the end: an earlier exception wins, then this element's. */
  lemma {:induction false} FilterTrySnoc<T(!new)>(s: seq<T>, x: T, p: Test<T>)
    ensures FilterTry(s + [x], p) ==
      match FilterTry(s, p)
      case Err(e) => Err(e)
      case Ok(r) => (match p(x) case Err(e) => Err(e) case Ok(b) => Ok(if b then r + [x] else r))
  {
    if s == [] {
      assert s + [x] == [x];
      assert [x][1..] == [];
      assert FilterTry([x][1..], p) == Ok([]);
      assert FilterTry(s, p) == Ok([]);
      assert [x] + [] == [] + [x] == [x];
    } else {
      assert (s + [x])[0] == s[0];
      assert (s + [x])[1..] == s[1..] + [x];
      FilterTrySnoc(s[1..], x, p);
      match p(s[0])
      case Err(e) =>
      case Ok(b) =>
        match FilterTry(s[1..], p)
        case Err(e) =>
        case Ok(rest) =>
          if b {
            assert [s[0]] + (rest + [x]) == [s[0]] + rest + [x];
          }
    }
  }

  /** One more element extends a filter over a prefix by what the test makes of it. */
  lemma FilterTryStep<T(!new)>(s: seq<T>, i: nat, p: Test<T>, kept: seq<T>)
    requires i < |s| && FilterTry(s[..i], p) == Ok(kept)
    ensures FilterTry(s[..i + 1], p) ==
      match p(s[i]) case Err(e) => Err(e) case Ok(b) => Ok(if b then kept + [s[i]] else kept)
  {
    FilterTrySnoc(s[..i], s[i], p);
    assert s[..i + 1] == s[..i] + [s[i]];
  }

  /** When no test raises, the comprehension keeps exactly the elements whose test is true. */
  lemma FilterTryMembers<T(!new)>(s: seq<T>, p: Test<T>)
    requires FilterTry(s, p).Ok?
    ensures forall x :: x in FilterTry(s, p).value <==> x in s && p(x) == Ok(true)
  {
    FilterMembers(s, Passes(p));
  }

  /** Two predicates that agree on the elements of `s` filter it alike. */
  lemma {:induction false} FilterCongruent<T>(s: seq<T>, p: T -> bool, q: T -> bool)
    requires forall i :: 0 <= i < |s| ==> p(s[i]) == q(s[i])
    ensures Filter(s, p) == Filter(s, q)
  {
    if s != [] {
      FilterCongruent(s[1..], p, q);
    }
  }

  /** `[f(x) for x in s]`. */
  function Map<T, U>(s: seq<T>, f: T -> U): (r: seq<U>)
    ensures |r| == |s|
    ensures forall i :: 0 <= i < |s| ==> r[i] == f(s[i])
  {
    if s == [] then [] else [f(s[0])] + Map(s[1..], f)
  }

  /** The concatenation of `f(x)` for each `x` of `s`, in order. */
  function FlatMap<T, U>(s: seq<T>, f: T -> seq<U>): (r: seq<U>)
    ensures s == [] ==> r == []
  {
    if s == [] then [] else FlatMap(s[..|s| - 1], f) + f(s[|s| - 1])
  }

  /** Flat-mapping distributes over concatenation. */
  lemma {:induction false} FlatMapAppend<T, U>(s: seq<T>, t: seq<T>, f: T -> seq<U>)
    ensures FlatMap(s + t, f) == FlatMap(s, f) + FlatMap(t, f)
    decreases |t|
  {
    if t == [] {
      assert s + t == s;
    } else {
      var init := t[..|t| - 1];
      FlatMapAppend(s, init, f);
      assert (s + t)[..|s + t| - 1] == s + init;
      assert (s + t)[|s + t| - 1] == t[|t| - 1];
    }
  }

  /** Mapping distributes over concatenation. */
  lemma MapAppend<T, U>(s: seq<T>, t: seq<T>, f: T -> U)
    ensures Map(s + t, f) == Map(s, f) + Map(t, f)
  {
    assert forall i :: 0 <= i < |s| ==> (s + t)[i] == s[i];
    assert forall i :: |s| <= i < |s| + |t| ==> (s + t)[i] == t[i - |s|];
  }

  /** `[f(x) for x in s]` where computing `f(x)` may raise. */
  function MapTry<T(!new), U>(s: seq<T>, f: T -> Result<U, Error>): (r: Result<seq<U>, Error>)
    ensures r.Ok? <==> forall x :: x in s ==> f(x).Ok?
    ensures r.Ok? ==> |r.value| == |s| && forall i :: 0 <= i < |s| ==> f(s[i]) == Ok(r.value[i])
    ensures r.Err? ==> exists x :: x in s && f(x) == Err(r.error)
  {
    if s == [] then Ok([])
    else
      var y :- f(s[0]);
      var rest :- MapTry(s[1..], f);
      assert forall i :: 1 <= i < |s| ==> s[i] == s[1..][i - 1];
      Ok([y] + rest)
  }

  /** `set(s)`. */
  function Distinct<T>(s: seq<T>): set<T> {
    set x | x in s
  }

  /** A list has at most as many distinct elements as entries, and a non-empty one has some. */
  lemma {:induction false} DistinctBounds<T>(s: seq<T>)
    ensures |Distinct(s)| <= |s|
    ensures s != [] ==> |Distinct(s)| >= 1
  {
    if s != [] {
      DistinctBounds(s[1..]);
      assert s == [s[0]] + s[1..];
      assert Distinct(s) == Distinct(s[1..]) + {s[0]};
      assert s[0] in Distinct(s);
    }
  }

  /** A list without repeated entries has as many distinct elements as entries. */
  lemma {:induction false} DistinctCount<T>(s: seq<T>)
    requires forall i, j :: 0 <= i < j < |s| ==> s[i] != s[j]
    ensures |Distinct(s)| == |s|
  {
    if s != [] {
      DistinctCount(s[1..]);
      assert s == [s[0]] + s[1..];
      assert Distinct(s) == Distinct(s[1..]) + {s[0]};
      assert s[0] !in Distinct(s[1..]);
    }
  }

  /** Python's `seq[index]` for an int index: negative indices count from the end. */
  function Index<T>(s: seq<T>, index: int): (r: Result<T, Error>)
    ensures r.Ok? <==> -|s| <= index < |s|
    ensures r.Ok? ==> r.value == s[if index < 0 then index + |s| else index]
  {
    if 0 <= index < |s| then Ok(s[index])
    else if -|s| <= index < 0 then Ok(s[index + |s|])
    else Err(IndexError)
  }

  /** How Python normalises one bound of a slice (`PySlice_AdjustIndices`): `None` gives the
      default, a negative bound counts from the end, and a bound outside the list is clamped to
      `0..len` for a positive step and to `-1..len-1` for a negative one. */
  function SliceBound(bound: Option<int>, len: nat, step: int, default: int): (b: int)
    requires step != 0
    ensures bound.None? ==> b == default
    ensures bound.Some? && 0 <= bound.value < len ==> b == bound.value
    ensures bound.Some? && bound.value < 0 <= bound.value + len ==> b == bound.value + len
    ensures bound.Some? && bound.value >= len ==> b == if step < 0 then len - 1 else len
    ensures bound.Some? && bound.value + len < 0 ==> b == if step < 0 then -1 else 0
    ensures bound.Some? && step > 0 ==> 0 <= b <= len
    ensures bound.Some? && step < 0 ==> -1 <= b < len
  {
    match bound
    case None => default
    case Some(i) =>
      if i < 0 then (if i + len < 0 then (if step < 0 then -1 else 0) else i + len)
      else if i >= len then (if step < 0 then len - 1 else len)
      else i
  }

  /** The step of a slice: `None` means 1. */
  function StepOf(step: Option<int>): int {
    if step.None? then 1 else step.value
  }

  /** The first index a slice visits: the normalised start, by default the first element for a
      positive step and the last for a negative one. */
  function SliceStart(start: Option<int>, len: nat, step: int): (a: int)
    requires step != 0
    ensures step > 0 ==> 0 <= a <= len
    ensures step < 0 ==> -1 <= a < len
  {
    SliceBound(start, len, step, if step < 0 then len - 1 else 0)
  }

  /** The index a slice stops before: the normalised stop, by default past the end in the
      direction of the step. */
  function SliceStop(stop: Option<int>, len: nat, step: int): (b: int)
    requires step != 0
    ensures step > 0 ==> 0 <= b <= len
    ensures step < 0 ==> -1 <= b < len
  {
    SliceBound(stop, len, step, if step < 0 then -1 else len)
  }

  /** The `j`-th index a slice from `start` by `step` visits. */
  function StepIndex(start: int, step: int, j: nat): int {
    start + j * step
  }

  /** Index `i` has not yet reached `stop`, going in the direction of `step`. */
  predicate BeforeStop(i: int, stop: int, step: int) {
    if step > 0 then i < stop else i > stop
  }

  /** The elements `s[i], s[i + step], ...` while the index is before `stop`. */
  function Walk<T>(s: seq<T>, i: int, stop: int, step: int): (r: seq<T>)
    requires step != 0
    requires step > 0 ==> 0 <= i && stop <= |s|
    requires step < 0 ==> i < |s| && -1 <= stop
    ensures forall j: nat :: j < |r| ==>
      BeforeStop(StepIndex(i, step, j), stop, step) && 0 <= StepIndex(i, step, j) < |s| &&
      r[j] == s[StepIndex(i, step, j)]
    ensures !BeforeStop(StepIndex(i, step, |r|), stop, step)
    decreases if step > 0 then stop - i else i - stop
  {
    if BeforeStop(i, stop, step) then
      var rest := Walk(s, i + step, stop, step);
      StepIndexNext(i, step, |rest|);
      assert forall j: nat :: 0 < j <= |rest| ==>
        0 <= StepIndex(i, step, j) < |s| && rest[j - 1] == s[StepIndex(i, step, j)]
      by {
        forall j: nat | 0 < j <= |rest|
          ensures 0 <= StepIndex(i, step, j) < |s| && rest[j - 1] == s[StepIndex(i, step, j)]
        {
          StepIndexNext(i, step, j - 1);
          assert 0 <= StepIndex(i + step, step, j - 1) < |s| && rest[j - 1] == s[StepIndex(i + step, step, j - 1)];
        }
      }
      [s[i]] + rest
    else
      []
  }

  /** Stepping once and then `j` times visits the same index as stepping `j + 1` times. */
  lemma StepIndexNext(i: int, step: int, j: nat)
    ensures StepIndex(i + step, step, j) == StepIndex(i, step, j + 1)
  {
    assert (j + 1) * step == j * step + step;
  }

  /** Python's `s[start:stop:step]`: a zero step raises ValueError; otherwise the elements at the
      indices from the normalised start, `step` apart, up to but excluding the normalised stop. */
  function Slice<T>(s: seq<T>, start: Option<int>, stop: Option<int>, step: Option<int>): (r: Result<seq<T>, Error>)
    ensures r.Err? <==> step == Some(0)
    ensures r.Err? ==> r.error == ValueError("slice step cannot be zero")
    ensures r.Ok? ==> var k, a, b := StepOf(step), SliceStart(start, |s|, StepOf(step)), SliceStop(stop, |s|, StepOf(step));
      (forall j: nat :: j < |r.value| ==>
        BeforeStop(StepIndex(a, k, j), b, k) && 0 <= StepIndex(a, k, j) < |s| &&
        r.value[j] == s[StepIndex(a, k, j)]) &&
      !BeforeStop(StepIndex(a, k, |r.value|), b, k)
  {
    if step == Some(0) then Err(ValueError("slice step cannot be zero"))
    else
      var k := StepOf(step);
      Ok(Walk(s, SliceStart(start, |s|, k), SliceStop(stop, |s|, k), k))
  }

  /** An independent reading of a slice with step 1: the run `s[a..b]` between the normalised
      bounds, empty when they cross. */
  function Run<T>(s: seq<T>, start: Option<int>, stop: Option<int>): seq<T> {
    var a, b := SliceStart(start, |s|, 1), SliceStop(stop, |s|, 1);
    if a <= b then s[a..b] else []
  }

  /** A walk by step 1 is the contiguous run it covers. */
  lemma {:induction false} WalkUnit<T>(s: seq<T>, i: int, stop: int)
    requires 0 <= i && stop <= |s|
    ensures Walk(s, i, stop, 1) == if i <= stop then s[i..stop] else []
    decreases stop - i
  {
    if i < stop {
      WalkUnit(s, i + 1, stop);
      assert s[i..stop] == [s[i]] + s[i + 1..stop];
    }
  }

  /** Without a step, or with step 1, a slice is the contiguous run between its bounds. */
  lemma SliceUnitStep<T>(s: seq<T>, start: Option<int>, stop: Option<int>, step: Option<int>)
    requires step == None || step == Some(1)
    ensures Slice(s, start, stop, step) == Ok(Run(s, start, stop))
  {
    var a, b := SliceStart(start, |s|, 1), SliceStop(stop, |s|, 1);
    assert Slice(s, start, stop, step) == Ok(Walk(s, a, b, 1));
    WalkUnit(s, a, b);
  }

  /** `s[:]` is the whole list. */
  lemma SliceWhole<T>(s: seq<T>)
    ensures Slice(s, None, None, None) == Ok(s)
  {
    SliceUnitStep(s, None, None, None);
    assert s[0..|s|] == s;
  }

  /** `s[::-1]` is `s` reversed. */
  lemma SliceReverses<T>(s: seq<T>)
    ensures Slice(s, None, None, Some(-1)).Ok?
    ensures var r := Slice(s, None, None, Some(-1)).value;
      |r| == |s| && forall j :: 0 <= j < |s| ==> r[j] == s[|s| - 1 - j]
  {
    var r := Slice(s, None, None, Some(-1)).value;
    assert StepIndex(|s| - 1, -1, |r|) == |s| - 1 - |r|;
    if |r| > 0 {
      assert 0 <= StepIndex(|s| - 1, -1, |r| - 1) == |s| - |r|;
    }
    forall j | 0 <= j < |s|
      ensures r[j] == s[|s| - 1 - j]
    {
      assert StepIndex(|s| - 1, -1, j) == |s| - 1 - j;
    }
  }
}
