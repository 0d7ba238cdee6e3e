/** A collection of eruptions (`EruptionSet` in volcanoes/core/eruption_set.py): indexing, the
    filter by volcano number, the sorted distinct volcano numbers and the summary counts. */
module EruptionSets {
  import opened Wrappers
  import opened Errors
  import opened Values
  import Seqs
  import Ordering
  import opened Eruptions

  /** An eruption as its constructor leaves it: the numeric fields coerced. */
  predicate Loaded(e: Eruption) {
    Shaped(e.data, NumericFields)
  }

  /** `[e.volcano_number for e in es if e.volcano_number is not None]`. */
  function KnownNumbers(es: seq<Eruption>): (r: seq<Value>)
    ensures |r| <= |es|
    ensures forall x :: x in r <==> !x.Null? && exists e :: e in es && e.VolcanoNumber() == x
  {
    if es == [] then []
    else
      assert forall e :: e in es <==> e == es[0] || e in es[1..];
      (if es[0].VolcanoNumber().Null? then [] else [es[0].VolcanoNumber()]) + KnownNumbers(es[1..])
  }

  /** The volcano numbers that are ints. */
  function KnownInts(es: seq<Eruption>): (r: seq<int>)
    ensures forall n :: n in r <==> exists e :: e in es && e.VolcanoNumber() == Int(n)
  {
    if es == [] then []
    else
      assert forall e :: e in es <==> e == es[0] || e in es[1..];
      (if es[0].VolcanoNumber().Int? then [es[0].VolcanoNumber().i] else []) + KnownInts(es[1..])
  }

  /** Some volcano number was left as `''`. */
  predicate HasBlank(es: seq<Eruption>) {
    exists e :: e in es && e.VolcanoNumber() == Str("")
  }

  function IntValue(n: int): Value { Int(n) }

  /** `e.volcano_number == volcano_number` with Python's numeric equality (`1.0 == 1`). */
  function HasNumber(n: int): Eruption -> bool {
    (e: Eruption) => NumberOf(e.VolcanoNumber()) == Some(n as real)
  }

  /** The dictionary `summary_stats` returns. */
  datatype EruptionStats = EruptionStats(totalEruptions: nat, uniqueVolcanoes: nat)

  datatype EruptionSet = EruptionSet(eruptions: seq<Eruption>) {
    /** Every member came out of the `Eruption` constructor. */
    predicate Valid() {
      forall e :: e in eruptions ==> Loaded(e)
    }

    /** `len(s)`. */
    function Len(): nat { |eruptions| }

    /** `s[index]` for an int index: negative indices count from the end, and an index outside the
        list raises IndexError. */
    function At(index: int): (r: Result<Eruption, Error>)
      ensures r.Ok? <==> -(Len() as int) <= index < Len()
      ensures r.Err? ==> r.error == IndexError
      ensures r.Ok? && index >= 0 ==> r.value == eruptions[index]
      ensures r.Ok? && index < 0 ==> r.value == eruptions[Len() as int + index]
    {
      Seqs.Index(eruptions, index)
    }

    /** `s[start:stop:step]`: a new set holding exactly the list slice `eruptions[start:stop:step]`;
        a zero step raises ValueError. */
    function Slice(start: Option<int>, stop: Option<int>, step: Option<int>): (r: Result<EruptionSet, Error>)
      ensures r.Err? <==> step == Some(0)
      ensures r.Err? ==> r.error == ValueError("slice step cannot be zero")
      ensures r.Ok? ==> r.value.eruptions == Seqs.Slice(eruptions, start, stop, step).value
      ensures step.None? ==> r == Ok(EruptionSet(Seqs.Run(eruptions, start, stop)))
      ensures start.None? && stop.None? && step.None? ==> r == Ok(this)
    {
      Seqs.SliceUnitStep(eruptions, start, stop, None);
      Seqs.SliceWhole(eruptions);
      match Seqs.Slice(eruptions, start, stop, step)
      case Ok(xs) => Ok(EruptionSet(xs))
      case Err(e) => Err(e)
    }

    /** `filter_by_volcano_number(n)`: the eruptions of volcano `n`; `FilterByVolcanoNumberInOrder`
        gives the order. */
    function FilterByVolcanoNumber(n: int): (r: EruptionSet)
      ensures r.Len() <= Len()
      ensures forall e :: e in r.eruptions <==> e in eruptions && NumberOf(e.VolcanoNumber()) == Some(n as real)
    {
      Seqs.FilterMembers(eruptions, HasNumber(n));
      EruptionSet(Seqs.Filter(eruptions, HasNumber(n)))
    }

    /** `get_volcano_numbers()`: `sorted(set(numbers))` of the known volcano numbers. A number left
        as `''` sorts alone, but cannot be compared with an int (TypeError). */
    function GetVolcanoNumbers(): (r: Result<seq<Value>, Error>)
      requires Valid()
    {
      var blank := HasBlank(eruptions);
      var ints := KnownInts(eruptions);
      if blank && ints != [] then Err(TypeError("VolcanoNumber"))
      else if blank then Ok([Str("")])
      else
        Ordering.IntLessIsStrictTotal();
        Ok(Seqs.Map(Ordering.SortedDistinct(ints, Ordering.IntLess), IntValue))
    }

    /** `summary_stats()`: the number of eruptions and of distinct known volcano numbers. */
    function SummaryStats(): (r: EruptionStats)
      ensures r.totalEruptions == Len()
      ensures r.uniqueVolcanoes <= Len()
      ensures r.uniqueVolcanoes == 0 <==> forall e :: e in eruptions ==> e.VolcanoNumber().Null?
    {
      var known := KnownNumbers(eruptions);
      Seqs.DistinctBounds(known);
      assert known != [] ==> known[0] in known;
      EruptionStats(|eruptions|, |Seqs.Distinct(known)|)
    }
  }

  /** `get_volcano_numbers` raises exactly when a `''` number meets an int. */
  lemma VolcanoNumbersRaise(s: EruptionSet)
    requires s.Valid()
    ensures s.GetVolcanoNumbers().Err? <==> HasBlank(s.eruptions) && exists e :: e in s.eruptions && e.VolcanoNumber().Int?
    ensures s.GetVolcanoNumbers().Err? ==> s.GetVolcanoNumbers().error == TypeError("VolcanoNumber")
  {
    var ints := KnownInts(s.eruptions);
    if e :| e in s.eruptions && e.VolcanoNumber().Int? {
      assert e.VolcanoNumber().i in ints;
    }
    if ints != [] {
      assert ints[0] in ints;
      var e :| e in s.eruptions && e.VolcanoNumber() == Int(ints[0]);
      assert e.VolcanoNumber().Int?;
    }
  }

  /** A volcano number of a constructed eruption is an int, `''` or `None`. */
  lemma LoadedNumber(e: Eruption)
    requires Loaded(e)
    ensures e.VolcanoNumber().Int? || e.VolcanoNumber() == Str("") || e.VolcanoNumber().Null?
  {
    if "VolcanoNumber" in e.data {
      assert NumericFields[0] == ("VolcanoNumber", IntField);
    }
  }

  /** When `get_volcano_numbers` does not raise it lists every known volcano number once and nothing
      else. */
  lemma VolcanoNumbersContent(s: EruptionSet)
    requires s.Valid() && s.GetVolcanoNumbers().Ok?
    ensures forall x :: x in s.GetVolcanoNumbers().value <==>
      !x.Null? && exists e :: e in s.eruptions && e.VolcanoNumber() == x
  {
    var r := s.GetVolcanoNumbers().value;
    if !HasBlank(s.eruptions) {
      var ints := KnownInts(s.eruptions);
      Ordering.IntLessIsStrictTotal();
      var sorted := Ordering.SortedDistinct(ints, Ordering.IntLess);
      forall x ensures x in r <==> !x.Null? && exists e :: e in s.eruptions && e.VolcanoNumber() == x {
        if x in r {
          var i :| 0 <= i < |r| && r[i] == x;
          assert sorted[i] in ints;
        }
        if !x.Null? && exists e :: e in s.eruptions && e.VolcanoNumber() == x {
          var e :| e in s.eruptions && e.VolcanoNumber() == x;
          LoadedNumber(e);
          assert x.i in sorted;
          var i :| 0 <= i < |sorted| && sorted[i] == x.i;
          assert r[i] == x;
        }
      }
    } else {
      VolcanoNumbersRaise(s);
      forall x: Value | !x.Null? && exists e :: e in s.eruptions && e.VolcanoNumber() == x ensures x in r {
        var e :| e in s.eruptions && e.VolcanoNumber() == x;
        LoadedNumber(e);
      }
    }
  }

  /** The listed volcano numbers are in strictly ascending order. */
  lemma VolcanoNumbersAscending(s: EruptionSet)
    requires s.Valid() && s.GetVolcanoNumbers().Ok?
    ensures var r := s.GetVolcanoNumbers().value;
      forall i, j :: 0 <= i < j < |r| ==> r[i].Int? && r[j].Int? && r[i].i < r[j].i
  {
    Ordering.IntLessIsStrictTotal();
  }

  /** `summary_stats` counts exactly the volcano numbers `get_volcano_numbers` lists. */
  lemma UniqueMatchesNumbers(s: EruptionSet)
    requires s.Valid() && s.GetVolcanoNumbers().Ok?
    ensures |s.GetVolcanoNumbers().value| == s.SummaryStats().uniqueVolcanoes
  {
    VolcanoNumbersContent(s);
    VolcanoNumbersAscending(s);
    var r := s.GetVolcanoNumbers().value;
    var known := KnownNumbers(s.eruptions);
    assert Seqs.Distinct(r) == Seqs.Distinct(known);
    Seqs.DistinctCount(r);
  }

  /** The filters for the listed volcano numbers are non-empty, disjoint, and cover every eruption
      with an int volcano number. */
  lemma FilterPartition(s: EruptionSet, n: int, m: int)
    ensures s.FilterByVolcanoNumber(n).Len() > 0 <==> exists e :: e in s.eruptions && NumberOf(e.VolcanoNumber()) == Some(n as real)
    ensures n != m ==> forall e :: e in s.FilterByVolcanoNumber(n).eruptions ==> e !in s.FilterByVolcanoNumber(m).eruptions
    ensures s.FilterByVolcanoNumber(n).FilterByVolcanoNumber(n) == s.FilterByVolcanoNumber(n)
  {
    var f := s.FilterByVolcanoNumber(n);
    if f.Len() > 0 {
      assert f.eruptions[0] in f.eruptions;
    }
    Seqs.FilterMembers(s.eruptions, HasNumber(n));
    Seqs.FilterAll(f.eruptions, HasNumber(n));
  }

  /** `filter_by_volcano_number(n)` keeps the eruptions of volcano `n` in their order and with
      their repetitions: filtering a concatenation concatenates the filtered parts, and a single
      eruption is kept exactly when its number equals `n`. */
  lemma FilterByVolcanoNumberInOrder(s: EruptionSet, t: EruptionSet, e: Eruption, n: int)
    ensures EruptionSet(s.eruptions + t.eruptions).FilterByVolcanoNumber(n).eruptions
      == s.FilterByVolcanoNumber(n).eruptions + t.FilterByVolcanoNumber(n).eruptions
    ensures EruptionSet([e]).FilterByVolcanoNumber(n).eruptions
      == if NumberOf(e.VolcanoNumber()) == Some(n as real) then [e] else []
  {
    Seqs.FilterAppend(s.eruptions, t.eruptions, HasNumber(n));
    assert [e][1..] == [];
  }

  /** Indexing and slicing agree with the backing list: `s[i]` and `s[i - len]` are the i-th
      eruption, `s[i:i+1]` holds just it, `s[:i]` and `s[i:]` split the eruptions there, and
      `s[::-1]` lists them backwards. */
  lemma IndexingAgrees(s: EruptionSet, i: int)
    requires 0 <= i < s.Len()
    ensures s.At(i) == Ok(s.eruptions[i]) && s.At(i - s.Len()) == Ok(s.eruptions[i])
    ensures s.Slice(Some(i), Some(i + 1), None) == Ok(EruptionSet([s.eruptions[i]]))
    ensures s.Slice(None, Some(i), None) == Ok(EruptionSet(s.eruptions[..i]))
    ensures s.Slice(Some(i), None, None) == Ok(EruptionSet(s.eruptions[i..]))
    ensures s.At(s.Len()) == Err(IndexError)
    ensures var r := s.Slice(None, None, Some(-1));
      r.Ok? && r.value.Len() == s.Len() && r.value.eruptions[i] == s.eruptions[s.Len() - 1 - i]
  {
    var n := s.Len();
    assert Seqs.SliceStart(Some(i), n, 1) == i && Seqs.SliceStart(None, n, 1) == 0;
    assert Seqs.SliceStop(Some(i + 1), n, 1) == i + 1 && Seqs.SliceStop(Some(i), n, 1) == i;
    assert Seqs.SliceStop(None, n, 1) == n;
    assert s.eruptions[i..i + 1] == [s.eruptions[i]];
    assert s.eruptions[0..i] == s.eruptions[..i] && s.eruptions[i..n] == s.eruptions[i..];
    Seqs.SliceReverses(s.eruptions);
  }
}
