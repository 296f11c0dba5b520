/** The robust average of Auto routing: a weighted median. */
module WeightedMedian {
  import opened Common

  datatype Sample = Sample(value: real, weight: real)

  // ----- ordering

  // Pairs compare by value, then by weight.
  predicate AtMost(a: Sample, b: Sample) {
    a.value < b.value || (a.value == b.value && a.weight <= b.weight)
  }

  function Insert(x: Sample, sorted: seq<Sample>): seq<Sample> {
    if sorted == [] then [x]
    else if AtMost(x, sorted[0]) then [x] + sorted
    else [sorted[0]] + Insert(x, sorted[1..])
  }

  function Sort(samples: seq<Sample>): seq<Sample> {
    if samples == [] then [] else Insert(samples[0], Sort(samples[1..]))
  }

  ghost predicate Sorted(samples: seq<Sample>) {
    forall j, k :: 0 <= j < k < |samples| ==> AtMost(samples[j], samples[k])
  }

  lemma {:induction false} InsertSorts(x: Sample, sorted: seq<Sample>)
    requires Sorted(sorted)
    ensures Sorted(Insert(x, sorted)) && multiset(Insert(x, sorted)) == multiset(sorted) + multiset{x}
  {
    if sorted != [] && !AtMost(x, sorted[0]) {
      var rest := sorted[1..];
      assert sorted == [sorted[0]] + rest;
      InsertSorts(x, rest);
      var inserted := Insert(x, rest);
      forall k | 0 <= k < |inserted|
        ensures AtMost(sorted[0], inserted[k])
      {
        assert inserted[k] in multiset(inserted);
        assert inserted[k] == x || inserted[k] in multiset(rest);
      }
    } else {
      assert multiset([x] + sorted) == multiset{x} + multiset(sorted);
    }
  }

  lemma {:induction false} SortSorts(samples: seq<Sample>)
    ensures Sorted(Sort(samples)) && multiset(Sort(samples)) == multiset(samples)
  {
    if samples != [] {
      SortSorts(samples[1..]);
      InsertSorts(samples[0], Sort(samples[1..]));
      assert samples == [samples[0]] + samples[1..];
    }
  }

  // ----- weights

  datatype Side = Below(limit: real) | Above(limit: real) | Within(low: real, high: real) | Anywhere

  predicate On(side: Side, value: real) {
    match side
    case Below(limit) => value < limit
    case Above(limit) => value > limit
    case Within(low, high) => low <= value <= high
    case Anywhere => true
  }

  /** The weight of the samples whose value lies on a side. */
  function Weight(samples: seq<Sample>, side: Side): real {
    if samples == [] then 0.0
    else (if On(side, samples[0].value) then samples[0].weight else 0.0) + Weight(samples[1..], side)
  }

  lemma {:induction false} WeightOfInsert(x: Sample, sorted: seq<Sample>, side: Side)
    ensures Weight(Insert(x, sorted), side) == Weight([x], side) + Weight(sorted, side)
  {
    assert [x][1..] == [];
    if sorted != [] {
      if AtMost(x, sorted[0]) {
        assert ([x] + sorted)[1..] == sorted;
      } else {
        WeightOfInsert(x, sorted[1..], side);
        assert ([sorted[0]] + Insert(x, sorted[1..]))[1..] == Insert(x, sorted[1..]);
      }
    }
  }

  lemma {:induction false} WeightOfSort(samples: seq<Sample>, side: Side)
    ensures Weight(Sort(samples), side) == Weight(samples, side)
  {
    if samples != [] {
      WeightOfSort(samples[1..], side);
      WeightOfInsert(samples[0], Sort(samples[1..]), side);
      assert [samples[0]][1..] == [];
    }
  }

  lemma {:induction false} WeightConcat(a: seq<Sample>, b: seq<Sample>, side: Side)
    ensures Weight(a + b, side) == Weight(a, side) + Weight(b, side)
  {
    if a == [] {
      assert a + b == b;
    } else {
      assert (a + b)[1..] == a[1..] + b;
      WeightConcat(a[1..], b, side);
    }
  }

  ghost predicate NonNegative(samples: seq<Sample>) {
    forall k :: 0 <= k < |samples| ==> samples[k].weight >= 0.0
  }

  lemma {:induction false} WeightBounds(samples: seq<Sample>, side: Side)
    requires NonNegative(samples)
    ensures 0.0 <= Weight(samples, side) <= Weight(samples, Anywhere)
  {
    if samples != [] {
      WeightBounds(samples[1..], side);
    }
  }

  lemma {:induction false} NoneOnSide(samples: seq<Sample>, side: Side)
    requires forall k :: 0 <= k < |samples| ==> !On(side, samples[k].value)
    ensures Weight(samples, side) == 0.0
  {
    if samples != [] {
      NoneOnSide(samples[1..], side);
    }
  }

  lemma {:induction false} SortKeepsNonNegative(samples: seq<Sample>)
    requires NonNegative(samples)
    ensures NonNegative(Sort(samples))
  {
    SortSorts(samples);
    forall k | 0 <= k < |Sort(samples)|
      ensures Sort(samples)[k].weight >= 0.0
    {
      assert Sort(samples)[k] in multiset(samples);
    }
  }

  /** Less than half of the weight lies below `v`, and at most half above it. */
  ghost predicate IsMedian(samples: seq<Sample>, v: real) {
    var half := Weight(samples, Anywhere) / 2.0;
    Weight(samples, Below(v)) < half && Weight(samples, Above(v)) <= half
  }

  // The first sorted sample at which the running weight reaches half is a median.
  lemma {:induction false} ReachingHalf(sorted: seq<Sample>, k: nat)
    requires Sorted(sorted) && NonNegative(sorted) && k < |sorted|
    requires Weight(sorted[..k], Anywhere) < Weight(sorted, Anywhere) / 2.0 <= Weight(sorted[..k + 1], Anywhere)
    ensures IsMedian(sorted, sorted[k].value)
  {
    var v := sorted[k].value;
    assert sorted == sorted[..k] + sorted[k..] && sorted == sorted[..k + 1] + sorted[k + 1..];
    WeightConcat(sorted[..k], sorted[k..], Below(v));
    NoneOnSide(sorted[k..], Below(v));
    WeightBounds(sorted[..k], Below(v));
    WeightConcat(sorted[..k + 1], sorted[k + 1..], Above(v));
    NoneOnSide(sorted[..k + 1], Above(v));
    WeightBounds(sorted[k + 1..], Above(v));
    WeightConcat(sorted[..k + 1], sorted[k + 1..], Anywhere);
  }

  lemma {:induction false} TwoSides(samples: seq<Sample>, a: Side, b: Side)
    requires NonNegative(samples)
    requires forall value :: On(a, value) || On(b, value)
    ensures Weight(samples, a) + Weight(samples, b) >= Weight(samples, Anywhere)
  {
    if samples != [] {
      TwoSides(samples[1..], a, b);
    }
  }

  /** Samples have one median, so the answer does not depend on their order. */
  lemma {:induction false} MedianIsUnique(samples: seq<Sample>, v: real, w: real)
    requires NonNegative(samples) && IsMedian(samples, v) && IsMedian(samples, w)
    ensures v == w
  {
    if v < w {
      TwoSides(samples, Above(v), Below(w));
    } else if w < v {
      TwoSides(samples, Above(w), Below(v));
    }
  }

  lemma {:induction false} RangeAbove(samples: seq<Sample>, v: real, low: real, high: real)
    requires NonNegative(samples) && v < low
    ensures Weight(samples, Within(low, high)) <= Weight(samples, Above(v))
  {
    if samples != [] {
      RangeAbove(samples[1..], v, low, high);
    }
  }

  lemma {:induction false} RangeBelow(samples: seq<Sample>, v: real, low: real, high: real)
    requires NonNegative(samples) && high < v
    ensures Weight(samples, Within(low, high)) <= Weight(samples, Below(v))
  {
    if samples != [] {
      RangeBelow(samples[1..], v, low, high);
    }
  }

  /** Outliers with less than half of the weight, however far off, cannot move the median out
      of the range of the others. */
  lemma {:induction false} OutliersCannotMoveIt(samples: seq<Sample>, v: real, low: real, high: real)
    requires NonNegative(samples) && IsMedian(samples, v)
    requires Weight(samples, Within(low, high)) > Weight(samples, Anywhere) / 2.0
    ensures low <= v <= high
  {
    if v < low {
      RangeAbove(samples, v, low, high);
    } else if v > high {
      RangeBelow(samples, v, low, high);
    }
  }

  lemma {:induction false} WeightOfNext(samples: seq<Sample>, k: nat)
    requires k < |samples|
    ensures Weight(samples[..k + 1], Anywhere) == Weight(samples[..k], Anywhere) + samples[k].weight
  {
    assert samples[..k + 1] == samples[..k] + [samples[k]] && [samples[k]][1..] == [];
    WeightConcat(samples[..k], [samples[k]], Anywhere);
  }

  // A median of the sorted samples is one of the samples as they came.
  lemma {:induction false} MedianOfSort(samples: seq<Sample>, v: real)
    requires IsMedian(Sort(samples), v)
    ensures IsMedian(samples, v)
  {
    WeightOfSort(samples, Anywhere);
    WeightOfSort(samples, Below(v));
    WeightOfSort(samples, Above(v));
  }

  method TotalWeight(samples: seq<Sample>) returns (total: real)
    ensures total == Weight(samples, Anywhere)
  {
    total := 0.0;
    for k := 0 to |samples|
      invariant total == Weight(samples[..k], Anywhere)
    {
      WeightOfNext(samples, k);
      total := total + samples[k].weight;
    }
    assert samples[..|samples|] == samples;
  }

  /** The index of the first sample at which the running weight reaches half of the total. */
  method ReachHalf(sorted: seq<Sample>, total: real) returns (at: Option<nat>)
    requires total == Weight(sorted, Anywhere)
    ensures at.Some? ==> at.value < |sorted|
    ensures NonNegative(sorted) && Sorted(sorted) && total != 0.0 ==>
      at.Some? && IsMedian(sorted, sorted[at.value].value)
  {
    var running := 0.0;
    if NonNegative(sorted) {
      WeightBounds(sorted, Anywhere);
    }
    for k := 0 to |sorted|
      invariant running == Weight(sorted[..k], Anywhere)
      invariant NonNegative(sorted) && total != 0.0 ==> running < total / 2.0
    {
      WeightOfNext(sorted, k);
      running := running + sorted[k].weight;
      if running >= total / 2.0 {
        if NonNegative(sorted) && Sorted(sorted) && total != 0.0 {
          ReachingHalf(sorted, k);
        }
        return Some(k);
      }
    }
    assert sorted[..|sorted|] == sorted;
    return None;
  }

  /** The average of a model's samples: a weighted median and the total weight, or nothing
      without weight. */
  method RobustAverage(samples: seq<Sample>) returns (value: Option<real>, total: real)
    ensures total == Weight(samples, Anywhere)
    ensures value.None? <==> total == 0.0
    ensures NonNegative(samples) && value.Some? ==>
      IsMedian(samples, value.value) && exists s :: s in samples && s.value == value.value
  {
    total := TotalWeight(samples);
    if total == 0.0 {
      return None, 0.0;
    }
    var sorted := Sort(samples);
    SortSorts(samples);
    WeightOfSort(samples, Anywhere);
    var at := ReachHalf(sorted, total);
    if NonNegative(samples) {
      SortKeepsNonNegative(samples);
    }
    if at.None? {
      return Some(samples[|samples| - 1].value), total;
    }
    assert sorted[at.value] in multiset(samples);
    if NonNegative(samples) {
      MedianOfSort(samples, sorted[at.value].value);
    }
    return Some(sorted[at.value].value), total;
  }
}
