/** Collecting numbers into normal form. */
module IntervalAccumulation {
  // The numbers come in any order and with repeats.

  import opened Options
  import opened SeqFacts
  import opened Sorting
  import opened Intervals

  /** The maximal runs of a strictly increasing list. */
  method MaximalIntervals(xs: seq<nat>) returns (intervals: seq<Interval>)
    requires Increasing(xs)
    ensures Normal(intervals) && forall x: nat :: In(intervals, x) <==> x in xs
  {
    intervals := [];
    if xs == [] {
      return;
    }
    var left: nat, right: nat := 0, 0;
    while true
      invariant left <= right < |xs| && Normal(intervals) && EndsBefore(intervals, xs[left])
      invariant forall i :: left <= i <= right ==> xs[i] == xs[left] + (i - left)
      invariant forall x: nat :: In(intervals, x) <==> x in xs[..left]
      decreases |xs| - right
    {
      if right + 1 == |xs| || xs[right + 1] - xs[right] != 1 {
        var run: Interval := (xs[left], xs[right] + 1);
        InSnoc(intervals, run);
        AppendNormal(intervals, run);
        RunMembers(xs, left, right);
        intervals := intervals + [run];
        assert forall x: nat :: In(intervals, x) <==> x in xs[..right + 1];
        if right + 1 == |xs| {
          assert xs[..right + 1] == xs;
          return;
        }
        left, right := right + 1, right + 1;
      } else {
        right := right + 1;
      }
    }
  }

  lemma RunMembers(xs: seq<nat>, left: nat, right: nat)
    requires left <= right < |xs| && forall i :: left <= i <= right ==> xs[i] == xs[left] + (i - left)
    ensures forall x: nat :: x in xs[..right + 1] <==> x in xs[..left] || Inside((xs[left], xs[right] + 1), x)
  {
    forall x: nat ensures x in xs[..right + 1] <==> x in xs[..left] || Inside((xs[left], xs[right] + 1), x) {
      if x in xs[..right + 1] {
        var i :| 0 <= i <= right && xs[i] == x;
        assert i < left ==> xs[..left][i] == x;
      }
      if Inside((xs[left], xs[right] + 1), x) {
        assert xs[..right + 1][left + (x - xs[left])] == x;
      }
    }
  }

  predicate PairAtMost(v: Interval, w: Interval) {
    v.0 < w.0 || (v.0 == w.0 && v.1 <= w.1)
  }

  class IntervalAccumulator {
    const capacity: nat
    var accum: seq<Interval>
    var buf: seq<nat>

    constructor (bufferCapacity: nat)
      requires bufferCapacity > 0
      ensures Valid() && capacity == bufferCapacity && forall x :: !Has(x)
    {
      capacity := bufferCapacity;
      accum, buf := [], [];
    }

    ghost predicate Valid()
      reads this
    {
      && 0 < capacity && |buf| <= capacity
      && forall i :: 0 <= i < |accum| ==> accum[i].0 < accum[i].1
    }

    /** `x` has been added. */
    ghost predicate Has(x: nat)
      reads this
    {
      x in buf || In(accum, x)
    }

    method Add(x: nat)
      requires Valid()
      modifies this
      ensures Valid() && forall y :: Has(y) <==> old(Has(y)) || y == x
    {
      if |buf| == capacity {
        DrainBuffer();
      }
      buf := buf + [x];
    }

    method DrainBuffer()
      requires Valid()
      modifies this
      ensures Valid() && buf == [] && forall y :: Has(y) <==> old(Has(y))
    {
      var sorted := SortUnique(buf);
      ElemsMembers(buf);
      ElemsMembers(sorted);
      var ints := MaximalIntervals(sorted);
      InConcat(accum, ints);
      accum := accum + ints;
      buf := [];
    }

    /** Hands over everything added, in normal form. */
    method Finish() returns (ret: seq<Interval>)
      requires Valid()
      modifies this
      ensures Normal(ret) && forall x :: In(ret, x) <==> old(Has(x))
    {
      DrainBuffer();
      var sorted := Sort(accum, PairAtMost);
      SortedStarts(accum);
      ret := Coalesce(sorted);
      accum := [];
    }
  }

  lemma SortedStarts(list: seq<Interval>)
    requires forall i :: 0 <= i < |list| ==> list[i].0 < list[i].1
    ensures Starts(Sort(list, PairAtMost)) && forall x :: In(Sort(list, PairAtMost), x) <==> In(list, x)
  {
    var sorted := Sort(list, PairAtMost);
    SortSorts(list, PairAtMost);
    SameMembers(list, sorted);
    hide Sort;
    RearrangedStarts(list, sorted);
  }

  lemma SameMembers(list: seq<Interval>, sorted: seq<Interval>)
    requires multiset(list) == multiset(sorted)
    ensures forall v :: v in sorted <==> v in list
  {
    SameContent(list, sorted);
    ElemsMembers(list);
    ElemsMembers(sorted);
  }

  lemma RearrangedStarts(list: seq<Interval>, sorted: seq<Interval>)
    requires (forall i :: 0 <= i < |list| ==> list[i].0 < list[i].1) && (forall v :: v in sorted <==> v in list) && SortedBy(sorted, PairAtMost)
    ensures Starts(sorted) && forall x :: In(sorted, x) <==> In(list, x)
  {
    hide In;
    forall i | 0 <= i < |sorted| ensures sorted[i].0 < sorted[i].1 {
      assert sorted[i] in list;
    }
    forall i, j | 0 <= i < j < |sorted| ensures sorted[i].0 <= sorted[j].0 {
      assert PairAtMost(sorted[i], sorted[j]);
    }
    SamePoints(sorted, list);
    SamePoints(list, sorted);
  }

  lemma SamePoints(a: seq<Interval>, b: seq<Interval>)
    requires forall v :: v in a ==> v in b
    ensures forall x :: In(a, x) ==> In(b, x)
  {
    forall x | In(a, x) ensures In(b, x) {
      var i :| 0 <= i < |a| && Inside(a[i], x);
      assert a[i] in b;
    }
  }

  /** A buffer without capacity is refused; otherwise the result depends only on the set of numbers. */
  method Accumulate(xs: seq<nat>, bufferCapacity: nat) returns (r: Option<seq<Interval>>)
    ensures r.None? <==> bufferCapacity == 0
    ensures r.Some? ==> Normal(r.value) && forall x: nat :: In(r.value, x) <==> x in xs
  {
    if bufferCapacity == 0 {
      return None;
    }
    var a := new IntervalAccumulator(bufferCapacity);
    var i := 0;
    while i < |xs|
      invariant i <= |xs| && a.Valid() && forall x: nat :: a.Has(x) <==> x in xs[..i]
    {
      a.Add(xs[i]);
      assert xs[..i + 1] == xs[..i] + [xs[i]];
      i := i + 1;
    }
    assert xs[..i] == xs;
    var ret := a.Finish();
    return Some(ret);
  }

  /** Order, repeats and buffer size do not matter. */
  lemma AccumulationIsCanonical(xs: seq<nat>, ys: seq<nat>, a: seq<Interval>, b: seq<Interval>)
    requires Normal(a) && Normal(b) && (forall x: nat :: In(a, x) <==> x in xs) && (forall x: nat :: In(b, x) <==> x in ys)
    ensures a == b <==> Elems(xs) == Elems(ys)
  {
    ElemsMembers(xs);
    ElemsMembers(ys);
    if Elems(xs) == Elems(ys) {
      NormalIsUnique(a, b);
    }
  }
}
