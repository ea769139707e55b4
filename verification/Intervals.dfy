/** Sets of numbers as sorted lists of half-open intervals. */
module Intervals {
  import opened SeqFacts
  import opened Sorting

  type Interval = (nat, nat)

  predicate Inside(v: Interval, x: nat) {
    v.0 <= x < v.1
  }

  /** The set a list stands for. */
  ghost predicate In(list: seq<Interval>, x: nat) {
    exists i :: 0 <= i < |list| && Inside(list[i], x)
  }

  /** Non-empty intervals in order, none overlapping the next. */
  ghost predicate Disjoint(list: seq<Interval>) {
    && (forall i :: 0 <= i < |list| ==> list[i].0 < list[i].1)
    && (forall i, j :: 0 <= i < j < |list| ==> list[i].1 <= list[j].0)
  }

  /** The normal form: there are gaps between the intervals. */
  ghost predicate Normal(list: seq<Interval>) {
    && (forall i :: 0 <= i < |list| ==> list[i].0 < list[i].1)
    && (forall i, j :: 0 <= i < j < |list| ==> list[i].1 < list[j].0)
  }

  lemma InConcat(a: seq<Interval>, b: seq<Interval>)
    ensures forall x :: In(a + b, x) <==> In(a, x) || In(b, x)
  {
    forall x ensures In(a + b, x) <==> In(a, x) || In(b, x) {
      if In(a, x) {
        var i :| 0 <= i < |a| && Inside(a[i], x);
        assert (a + b)[i] == a[i];
      }
      if In(b, x) {
        var i :| 0 <= i < |b| && Inside(b[i], x);
        assert (a + b)[|a| + i] == b[i];
      }
    }
  }

  lemma InOne(v: Interval)
    ensures forall x :: In([v], x) <==> Inside(v, x)
  {
    forall x | Inside(v, x) ensures In([v], x) {
      assert Inside([v][0], x);
    }
  }

  lemma InSnoc(a: seq<Interval>, v: Interval)
    ensures forall x :: In(a + [v], x) <==> In(a, x) || Inside(v, x)
  {
    InConcat(a, [v]);
    InOne(v);
  }

  lemma InHead(list: seq<Interval>)
    requires list != []
    ensures forall x :: In(list, x) <==> Inside(list[0], x) || In(list[1..], x)
  {
    assert list == [list[0]] + list[1..];
    InConcat([list[0]], list[1..]);
    InOne(list[0]);
  }

  lemma NormalIsDisjoint(list: seq<Interval>)
    requires Normal(list)
    ensures Disjoint(list)
  {
  }

  /** What is left after the head lies after it. */
  lemma TailAfter(list: seq<Interval>)
    requires Disjoint(list) && list != []
    ensures Disjoint(list[1..]) && forall x :: In(list[1..], x) ==> x >= list[0].1
    ensures Normal(list) ==> Normal(list[1..])
    ensures |list| > 1 ==> list[0].1 <= list[1].0
  {
    var tail := list[1..];
    assert forall i :: 0 <= i < |tail| ==> tail[i] == list[i + 1];
  }

  lemma {:induction false} NormalIsUnique(a: seq<Interval>, b: seq<Interval>)
    requires Normal(a) && Normal(b) && forall x :: In(a, x) <==> In(b, x)
    ensures a == b
    decreases |a|
  {
    NormalIsDisjoint(a);
    NormalIsDisjoint(b);
    if a == [] {
      if b != [] {
        assert Inside(b[0], b[0].0);
        assert In(b, b[0].0);
      }
    } else if b == [] {
      assert Inside(a[0], a[0].0);
      assert In(a, a[0].0);
    } else {
      SameFirst(a, b);
      InHead(a);
      InHead(b);
      TailAfter(a);
      TailAfter(b);
      NormalIsUnique(a[1..], b[1..]);
      assert a == [a[0]] + a[1..] && b == [b[0]] + b[1..];
    }
  }

  lemma SameFirst(a: seq<Interval>, b: seq<Interval>)
    requires Normal(a) && Normal(b) && a != [] && b != [] && forall x :: In(a, x) <==> In(b, x)
    ensures a[0] == b[0]
  {
    FirstAtMost(a, b);
    FirstAtMost(b, a);
    EndAtMost(a, b);
    EndAtMost(b, a);
  }

  lemma FirstAtMost(a: seq<Interval>, b: seq<Interval>)
    requires Normal(a) && Normal(b) && a != [] && b != [] && forall x :: In(a, x) <==> In(b, x)
    ensures a[0].0 <= b[0].0
  {
    assert Inside(b[0], b[0].0);
    assert In(b, b[0].0);
    var i :| 0 <= i < |a| && Inside(a[i], b[0].0);
  }

  lemma EndAtMost(a: seq<Interval>, b: seq<Interval>)
    requires Normal(a) && Normal(b) && a != [] && b != [] && a[0].0 == b[0].0 && forall x :: In(a, x) <==> In(b, x)
    ensures a[0].1 <= b[0].1
  {
    assert forall i :: 0 <= i < |b| ==> !Inside(b[i], b[0].1);
    assert !In(b, b[0].1);
    assert b[0].1 < a[0].1 ==> Inside(a[0], b[0].1);
  }

  // ---- Building lists at the back.

  /** `ret` ends before `x`. */
  ghost predicate EndsBy(ret: seq<Interval>, x: nat) {
    ret != [] ==> ret[|ret| - 1].1 <= x
  }

  ghost predicate EndsBefore(ret: seq<Interval>, x: nat) {
    ret != [] ==> ret[|ret| - 1].1 < x
  }

  lemma AppendDisjoint(ret: seq<Interval>, v: Interval)
    requires Disjoint(ret) && v.0 < v.1 && EndsBy(ret, v.0)
    ensures Disjoint(ret + [v])
  {
    assert forall i :: 0 <= i < |ret| ==> ret[i].1 <= v.0;
  }

  lemma AppendNormal(ret: seq<Interval>, v: Interval)
    requires Normal(ret) && v.0 < v.1 && EndsBefore(ret, v.0)
    ensures Normal(ret + [v])
  {
    assert forall i :: 0 <= i < |ret| ==> ret[i].1 < v.0;
  }

  /** Adds an interval that starts no earlier than the last one: merged into it if they touch. */
  function Absorb(ret: seq<Interval>, v: Interval): seq<Interval>
  {
    if ret != [] && v.0 <= ret[|ret| - 1].1 then
      var last := ret[|ret| - 1];
      ret[|ret| - 1 := (last.0, if last.1 < v.1 then v.1 else last.1)]
    else ret + [v]
  }

  lemma AbsorbAdds(ret: seq<Interval>, v: Interval)
    requires Normal(ret) && v.0 < v.1 && (ret != [] ==> ret[|ret| - 1].0 <= v.0)
    ensures Normal(Absorb(ret, v)) && Absorb(ret, v) != [] && Absorb(ret, v)[|Absorb(ret, v)| - 1].0 <= v.0
    ensures forall x :: In(Absorb(ret, v), x) <==> In(ret, x) || Inside(v, x)
  {
    if ret != [] && v.0 <= ret[|ret| - 1].1 {
      var front, last := ret[..|ret| - 1], ret[|ret| - 1];
      var grown := (last.0, if last.1 < v.1 then v.1 else last.1);
      assert ret == front + [last] && Absorb(ret, v) == front + [grown];
      InSnoc(front, last);
      InSnoc(front, grown);
    } else {
      AppendNormal(ret, v);
      InSnoc(ret, v);
    }
  }

  // ---- The list operations.

  /** Sorted by starting point, overlaps and repeats allowed. */
  ghost predicate Starts(list: seq<Interval>) {
    && (forall i :: 0 <= i < |list| ==> list[i].0 < list[i].1)
    && (forall i, j :: 0 <= i < j < |list| ==> list[i].0 <= list[j].0)
  }

  lemma StartsTail(list: seq<Interval>)
    requires Starts(list) && list != []
    ensures Starts(list[1..]) && list[0].0 < list[0].1 && forall i :: 0 <= i < |list[1..]| ==> list[0].0 <= list[1..][i].0
  {
  }

  /** The last interval of `ret`, if any, starts no later than the next one of `list`. */
  ghost predicate InOrder(ret: seq<Interval>, list: seq<Interval>) {
    ret != [] && list != [] ==> ret[|ret| - 1].0 <= list[0].0
  }

  /** Normalizes a sorted list. */
  method Coalesce(list: seq<Interval>) returns (ret: seq<Interval>)
    requires Starts(list)
    ensures Normal(ret) && forall x :: In(ret, x) <==> In(list, x)
  {
    ret := [];
    var rest := list;
    while rest != []
      invariant Normal(ret) && Starts(rest) && InOrder(ret, rest)
      invariant forall x :: In(list, x) <==> In(ret, x) || In(rest, x)
      decreases |rest|
    {
      StartsTail(rest);
      InHead(rest);
      AbsorbAdds(ret, rest[0]);
      ret, rest := Absorb(ret, rest[0]), rest[1..];
    }
  }

  method Union(left: seq<Interval>, right: seq<Interval>) returns (ret: seq<Interval>)
    requires Disjoint(left) && Disjoint(right)
    ensures forall x :: In(ret, x) <==> In(left, x) || In(right, x)
    ensures Disjoint(ret) && (Normal(left) && Normal(right) ==> Normal(ret))
    ensures left != [] && right != [] ==> Normal(ret)
  {
    if left == [] {
      return right;
    }
    if right == [] {
      return left;
    }
    ret := [];
    var l, r := left, right;
    while l != [] && r != []
      invariant Normal(ret) && Starts(l) && Starts(r) && InOrder(ret, l) && InOrder(ret, r)
      invariant forall x :: In(left, x) || In(right, x) <==> In(ret, x) || In(l, x) || In(r, x)
      invariant ret == [] ==> l == left && r == right
      decreases |l| + |r|
    {
      if l[0].0 < r[0].0 {
        ret, l := TakeNext(ret, l);
      } else {
        ret, r := TakeNext(ret, r);
      }
    }
    while l != []
      invariant Normal(ret) && Starts(l) && InOrder(ret, l) && (l != [] ==> r == [])
      invariant forall x :: In(left, x) || In(right, x) <==> In(ret, x) || In(l, x) || In(r, x)
      invariant InOrder(ret, r) && Starts(r)
      decreases |l|
    {
      ret, l := TakeNext(ret, l);
    }
    while r != []
      invariant Normal(ret) && Starts(r) && InOrder(ret, r)
      invariant forall x :: In(left, x) || In(right, x) <==> In(ret, x) || In(r, x)
      decreases |r|
    {
      ret, r := TakeNext(ret, r);
    }
    NormalIsDisjoint(ret);
  }

  method TakeNext(ret0: seq<Interval>, list: seq<Interval>) returns (ret: seq<Interval>, rest: seq<Interval>)
    requires Normal(ret0) && Starts(list) && list != [] && InOrder(ret0, list)
    ensures Normal(ret) && Starts(rest) && InOrder(ret, rest) && |rest| == |list| - 1
    ensures ret != [] && ret[|ret| - 1].0 <= list[0].0
    ensures forall x :: In(ret0, x) || In(list, x) <==> In(ret, x) || In(rest, x)
  {
    StartsTail(list);
    InHead(list);
    AbsorbAdds(ret0, list[0]);
    ret, rest := Absorb(ret0, list[0]), list[1..];
  }

  // ---- Intersection.

  method Intersection(left: seq<Interval>, right: seq<Interval>) returns (ret: seq<Interval>)
    requires Disjoint(left) && Disjoint(right)
    ensures forall x :: In(ret, x) <==> In(left, x) && In(right, x)
    ensures Disjoint(ret) && (Normal(left) && Normal(right) ==> Normal(ret))
  {
    ret := [];
    var l, r := left, right;
    while l != [] && r != []
      invariant Disjoint(l) && Disjoint(r) && Disjoint(ret)
      invariant Normal(left) && Normal(right) ==> Normal(l) && Normal(r) && Normal(ret)
      invariant Behind(ret, l, r)
      invariant forall x :: In(left, x) && In(right, x) <==> In(ret, x) || (In(l, x) && In(r, x))
      invariant Normal(left) && Normal(right) ==> StrictlyBehind(ret, l, r)
      decreases |l| + |r|
    {
      InHead(l);
      InHead(r);
      TailAfter(l);
      TailAfter(r);
      if l[0].1 <= r[0].0 {
        HeadMisses(l, r);
        l := l[1..];
      } else if r[0].1 <= l[0].0 {
        HeadMisses(r, l);
        r := r[1..];
      } else {
        var both: Interval := (if l[0].0 < r[0].0 then r[0].0 else l[0].0, if l[0].1 < r[0].1 then l[0].1 else r[0].1);
        HeadsMeet(l, r, both);
        InSnoc(ret, both);
        AppendDisjoint(ret, both);
        if Normal(left) && Normal(right) {
          AppendNormal(ret, both);
        }
        ret := ret + [both];
        if l[0].1 < r[0].1 {
          l := l[1..];
        } else if r[0].1 < l[0].1 {
          r := r[1..];
        } else {
          l, r := l[1..], r[1..];
        }
      }
    }
  }

  /** The result so far ends where at least one of the remaining lists begins. */
  ghost predicate Behind(ret: seq<Interval>, l: seq<Interval>, r: seq<Interval>) {
    ret != [] && l != [] && r != [] ==> ret[|ret| - 1].1 <= l[0].0 || ret[|ret| - 1].1 <= r[0].0
  }

  ghost predicate StrictlyBehind(ret: seq<Interval>, l: seq<Interval>, r: seq<Interval>) {
    ret != [] && l != [] && r != [] ==> ret[|ret| - 1].1 < l[0].0 || ret[|ret| - 1].1 < r[0].0
  }

  /** A head that ends before the other list begins meets nothing of it. */
  lemma HeadMisses(l: seq<Interval>, r: seq<Interval>)
    requires Disjoint(l) && Disjoint(r) && l != [] && r != [] && l[0].1 <= r[0].0
    ensures forall x :: In(l, x) && In(r, x) <==> In(l[1..], x) && In(r, x)
  {
    InHead(l);
    forall x | In(r, x) ensures x >= r[0].0 {
      var i :| 0 <= i < |r| && Inside(r[i], x);
    }
  }

  /** Overlapping heads contribute their overlap; the one that ends first is used up. */
  lemma HeadsMeet(l: seq<Interval>, r: seq<Interval>, both: Interval)
    requires Disjoint(l) && Disjoint(r) && l != [] && r != [] && r[0].0 < l[0].1 && l[0].0 < r[0].1
    requires both == (if l[0].0 < r[0].0 then r[0].0 else l[0].0, if l[0].1 < r[0].1 then l[0].1 else r[0].1)
    ensures l[0].1 <= r[0].1 ==> forall x :: In(l, x) && In(r, x) <==> Inside(both, x) || (In(l[1..], x) && In(r, x))
    ensures r[0].1 <= l[0].1 ==> forall x :: In(l, x) && In(r, x) <==> Inside(both, x) || (In(l, x) && In(r[1..], x))
    ensures l[0].1 == r[0].1 ==> forall x :: In(l, x) && In(r, x) <==> Inside(both, x) || (In(l[1..], x) && In(r[1..], x))
  {
    InHead(l);
    InHead(r);
    TailAfter(l);
    TailAfter(r);
  }

  // ---- Membership and overlap.

  /** Branch-free binary search. */
  method Contains(list: seq<Interval>, element: nat) returns (found: bool)
    requires Disjoint(list)
    ensures found <==> In(list, element)
  {
    if list == [] {
      return false;
    }
    var base: nat, n: nat := 0, |list|;
    while n > 1
      invariant 1 <= n && base + n <= |list|
      invariant base > 0 ==> list[base].0 <= element
      invariant base + n < |list| ==> element < list[base + n].0
    {
      var half := n / 2;
      base := if element < list[base + half].0 then base else base + half;
      n := n - half;
    }
    found := list[base].0 <= element < list[base].1;
    assert found ==> Inside(list[base], element);
  }

  datatype Overlapping = Overlap | Adjacent | Separate

  predicate Touch(v: Interval, w: Interval) {
    v.1 == w.0 || w.1 == v.0
  }

  /** Some interval of one list ends where one of the other begins. */
  ghost predicate Touching(l: seq<Interval>, r: seq<Interval>) {
    exists i, j :: 0 <= i < |l| && 0 <= j < |r| && Touch(l[i], r[j])
  }

  lemma TouchingHead(l: seq<Interval>, r: seq<Interval>)
    requires Disjoint(l) && Disjoint(r) && l != [] && r != [] && l[0].1 <= r[0].0
    ensures Touching(l, r) <==> Touch(l[0], r[0]) || Touching(l[1..], r)
  {
    var tail := l[1..];
    assert forall i :: 0 <= i < |tail| ==> tail[i] == l[i + 1];
    if Touching(l, r) {
      var i, j :| 0 <= i < |l| && 0 <= j < |r| && Touch(l[i], r[j]);
      assert i == 0 ==> j == 0;
      assert i > 0 ==> tail[i - 1] == l[i];
    }
    if Touching(tail, r) {
      var i, j :| 0 <= i < |tail| && 0 <= j < |r| && Touch(tail[i], r[j]);
      assert Touch(l[i + 1], r[j]);
    }
  }

  lemma TouchingSymmetric(l: seq<Interval>, r: seq<Interval>)
    ensures Touching(l, r) <==> Touching(r, l)
  {
    if i, j :| 0 <= i < |l| && 0 <= j < |r| && Touch(l[i], r[j]) {
      assert Touch(r[j], l[i]);
    }
    if i, j :| 0 <= i < |r| && 0 <= j < |l| && Touch(r[i], l[j]) {
      assert Touch(l[j], r[i]);
    }
  }

  method FindOverlap(left: seq<Interval>, right: seq<Interval>) returns (result: Overlapping)
    requires Disjoint(left) && Disjoint(right)
    ensures result == Overlap <==> exists x :: In(left, x) && In(right, x)
    ensures result == Adjacent <==> Touching(left, right) && !exists x :: In(left, x) && In(right, x)
  {
    var adjacent := false;
    var l, r := left, right;
    while l != [] && r != []
      invariant Disjoint(l) && Disjoint(r)
      invariant forall x :: In(left, x) && In(right, x) <==> In(l, x) && In(r, x)
      invariant Touching(left, right) <==> adjacent || Touching(l, r)
      decreases |l| + |r|
    {
      if (r[0].0 <= l[0].0 && l[0].0 < r[0].1) || (l[0].0 <= r[0].0 && r[0].0 < l[0].1) {
        InHead(l);
        InHead(r);
        var x := if l[0].0 < r[0].0 then r[0].0 else l[0].0;
        assert In(l, x) && In(r, x);
        return Overlap;
      }
      if l[0].1 == r[0].0 || r[0].1 == l[0].0 {
        adjacent := true;
      }
      TailAfter(l);
      TailAfter(r);
      if l[0].0 < r[0].0 {
        HeadMisses(l, r);
        TouchingHead(l, r);
        l := l[1..];
      } else {
        HeadMisses(r, l);
        TouchingSymmetric(l, r);
        TouchingHead(r, l);
        TouchingSymmetric(l, r[1..]);
        r := r[1..];
      }
    }
    result := if adjacent then Adjacent else Separate;
  }

  // ---- Difference.

  /** Still to be emitted: from `pos` on, in `l` and not in `r`. */
  ghost predicate Left(l: seq<Interval>, r: seq<Interval>, pos: nat, x: nat) {
    x >= pos && In(l, x) && !In(r, x)
  }

  /** `pos` may have moved back, but then nothing of the current left interval has been used. */
  ghost predicate PosOk(l: seq<Interval>, r: seq<Interval>, pos: nat) {
    l != [] ==> pos < l[0].1 && (pos <= l[0].0 || (r != [] ==> pos < r[0].1))
  }

  function Max(a: nat, b: nat): nat {
    if a < b then b else a
  }

  /** The result ends before the next interval to emit can start, or exactly where a right interval cuts. */
  ghost predicate Gap(ret: seq<Interval>, l: seq<Interval>, r: seq<Interval>, pos: nat) {
    ret != [] && l != [] ==> ret[|ret| - 1].1 < Max(pos, l[0].0) || (r != [] && ret[|ret| - 1].1 == pos && l[0].0 <= pos && r[0].0 <= pos < r[0].1)
  }

  ghost predicate Subtracting(left: seq<Interval>, right: seq<Interval>, l: seq<Interval>, r: seq<Interval>, pos: nat, ret: seq<Interval>) {
    && Disjoint(l) && Disjoint(r) && Disjoint(ret) && PosOk(l, r, pos)
    && (ret != [] && l != [] ==> ret[|ret| - 1].1 <= Max(pos, l[0].0))
    && (Normal(left) ==> Normal(l) && Normal(ret) && Gap(ret, l, r, pos))
    && (forall x :: In(left, x) && !In(right, x) <==> In(ret, x) || Left(l, r, pos, x))
  }

  lemma FromFirst(list: seq<Interval>)
    requires Disjoint(list)
    ensures forall x :: In(list, x) ==> list != [] && x >= list[0].0
  {
  }

  /** The left interval ends before the right one begins: emit what is left of it. */
  lemma EmitWhole(left: seq<Interval>, right: seq<Interval>, l: seq<Interval>, r: seq<Interval>, pos: nat, ret: seq<Interval>)
    requires Subtracting(left, right, l, r, pos, ret) && l != [] && r != [] && Max(pos, l[0].0) < Max(pos, r[0].0) && l[0].1 <= r[0].0
    ensures Subtracting(left, right, l[1..], r, l[0].1, ret + [(Max(pos, l[0].0), l[0].1)])
  {
    var v: Interval := (Max(pos, l[0].0), l[0].1);
    InHead(l);
    TailAfter(l);
    FromFirst(r);
    InSnoc(ret, v);
    AppendDisjoint(ret, v);
    if Normal(left) {
      AppendNormal(ret, v);
    }
  }

  /** The right interval begins inside the left one: emit up to there. */
  lemma EmitPart(left: seq<Interval>, right: seq<Interval>, l: seq<Interval>, r: seq<Interval>, pos: nat, ret: seq<Interval>)
    requires Subtracting(left, right, l, r, pos, ret) && l != [] && r != [] && Max(pos, l[0].0) < Max(pos, r[0].0) && r[0].0 < l[0].1
    ensures Subtracting(left, right, l, r, r[0].0, ret + [(Max(pos, l[0].0), r[0].0)])
  {
    var v: Interval := (Max(pos, l[0].0), r[0].0);
    InHead(l);
    TailAfter(l);
    FromFirst(r);
    InSnoc(ret, v);
    AppendDisjoint(ret, v);
    if Normal(left) {
      AppendNormal(ret, v);
    }
  }

  /** The right interval begins first: go to the beginning of the left one. */
  lemma SkipGap(left: seq<Interval>, right: seq<Interval>, l: seq<Interval>, r: seq<Interval>, pos: nat, ret: seq<Interval>)
    requires Subtracting(left, right, l, r, pos, ret) && l != [] && r != [] && Max(pos, r[0].0) < Max(pos, l[0].0)
    ensures Subtracting(left, right, l, if r[0].1 <= l[0].0 then r[1..] else r, l[0].0, ret)
  {
    InHead(r);
    TailAfter(r);
    FromFirst(l);
  }

  /** Both cover `pos` and the left one ends first: nothing of it is left. */
  lemma DropLeft(left: seq<Interval>, right: seq<Interval>, l: seq<Interval>, r: seq<Interval>, pos: nat, ret: seq<Interval>)
    requires Subtracting(left, right, l, r, pos, ret) && l != [] && r != [] && Max(pos, r[0].0) == Max(pos, l[0].0) && l[0].1 < r[0].1
    ensures Subtracting(left, right, l[1..], r, l[0].1, ret)
  {
    InHead(l);
    InHead(r);
    TailAfter(l);
    TailAfter(r);
    forall x ensures Left(l, r, pos, x) <==> Left(l[1..], r, l[0].1, x) {
    }
  }

  /** Both cover `pos` and the right one ends first, or it is behind the left one altogether: go to its end, perhaps backwards. */
  lemma DropRight(left: seq<Interval>, right: seq<Interval>, l: seq<Interval>, r: seq<Interval>, pos: nat, ret: seq<Interval>)
    requires Subtracting(left, right, l, r, pos, ret) && l != [] && r != [] && Max(pos, r[0].0) == Max(pos, l[0].0) && r[0].1 < l[0].1
    ensures Subtracting(left, right, l, r[1..], r[0].1, ret)
  {
    InHead(r);
    TailAfter(r);
    FromFirst(l);
    forall x ensures Left(l, r, pos, x) <==> Left(l, r[1..], r[0].1, x) {
    }
  }

  /** Both cover `pos` and end together. */
  lemma DropBoth(left: seq<Interval>, right: seq<Interval>, l: seq<Interval>, r: seq<Interval>, pos: nat, ret: seq<Interval>)
    requires Subtracting(left, right, l, r, pos, ret) && l != [] && r != [] && Max(pos, r[0].0) == Max(pos, l[0].0) && r[0].1 == l[0].1
    ensures Subtracting(left, right, l[1..], r[1..], l[0].1, ret)
  {
    InHead(l);
    InHead(r);
    TailAfter(l);
    TailAfter(r);
    forall x ensures Left(l, r, pos, x) <==> Left(l[1..], r[1..], l[0].1, x) {
    }
  }

  /** How close the loop is to using up an interval. */
  ghost function Unaligned(l: seq<Interval>, r: seq<Interval>, pos: nat): nat {
    if l == [] || r == [] || Max(pos, l[0].0) == Max(pos, r[0].0) then 0 else 1
  }

  method Difference(left: seq<Interval>, right: seq<Interval>) returns (ret: seq<Interval>)
    requires Disjoint(left) && Disjoint(right)
    ensures forall x :: In(ret, x) <==> In(left, x) && !In(right, x)
    ensures Disjoint(ret) && (Normal(left) ==> Normal(ret))
  {
    if left == [] {
      return [];
    }
    if right == [] {
      return left;
    }
    ret := [];
    var l, r := left, right;
    var pos: nat := if left[0].0 < right[0].0 then left[0].0 else right[0].0;
    FromFirst(left);
    assert Subtracting(left, right, l, r, pos, ret);
    hide Subtracting;
    while l != [] && r != []
      invariant Subtracting(left, right, l, r, pos, ret)
      decreases |l| + |r|, Unaligned(l, r, pos)
    {
      var elf, erf := Max(pos, l[0].0), Max(pos, r[0].0);
      if elf < erf {
        if l[0].1 <= r[0].0 {
          EmitWhole(left, right, l, r, pos, ret);
          ret := ret + [(elf, l[0].1)];
          pos := l[0].1;
          l := l[1..];
        } else {
          EmitPart(left, right, l, r, pos, ret);
          ret := ret + [(elf, r[0].0)];
          pos := r[0].0;
        }
      } else if erf < elf {
        SkipGap(left, right, l, r, pos, ret);
        pos := l[0].0;
        if r[0].1 <= pos {
          r := r[1..];
        }
      } else {
        if l[0].1 < r[0].1 {
          DropLeft(left, right, l, r, pos, ret);
          pos, l := l[0].1, l[1..];
        } else if r[0].1 < l[0].1 {
          DropRight(left, right, l, r, pos, ret);
          pos, r := r[0].1, r[1..];
        } else {
          DropBoth(left, right, l, r, pos, ret);
          pos, l, r := l[0].1, l[1..], r[1..];
        }
      }
    }
    if l != [] {
      CopyRest(left, right, l, r, pos, ret);
      if pos > l[0].0 {
        ret, l := ret + [(pos, l[0].1)], l[1..];
      }
      ret := ret + l;
    } else {
      NothingLeft(left, right, r, pos, ret);
    }
  }

  lemma NothingLeft(left: seq<Interval>, right: seq<Interval>, r: seq<Interval>, pos: nat, ret: seq<Interval>)
    requires Subtracting(left, right, [], r, pos, ret)
    ensures (forall x :: In(ret, x) <==> In(left, x) && !In(right, x)) && Disjoint(ret) && (Normal(left) ==> Normal(ret))
  {
    assert forall x :: !In([], x);
  }

  lemma CopyRest(left: seq<Interval>, right: seq<Interval>, l: seq<Interval>, r: seq<Interval>, pos: nat, ret: seq<Interval>)
    requires Subtracting(left, right, l, r, pos, ret) && l != [] && r == []
    ensures var all := if pos > l[0].0 then ret + [(pos, l[0].1)] + l[1..] else ret + l;
            (forall x :: In(all, x) <==> In(left, x) && !In(right, x)) && Disjoint(all) && (Normal(left) ==> Normal(all))
  {
    hide Subtracting, In, Disjoint, Normal;
    CopyPoints(left, right, l, r, pos, ret);
    CopyShape(left, right, l, r, pos, ret);
    assert pos <= l[0].0 ==> [(Max(pos, l[0].0), l[0].1)] + l[1..] == l;
    assert pos <= l[0].0 ==> ret + [(Max(pos, l[0].0), l[0].1)] + l[1..] == ret + l;
  }

  lemma CopyPoints(left: seq<Interval>, right: seq<Interval>, l: seq<Interval>, r: seq<Interval>, pos: nat, ret: seq<Interval>)
    requires Subtracting(left, right, l, r, pos, ret) && l != [] && r == []
    ensures forall x :: In(ret + [(Max(pos, l[0].0), l[0].1)] + l[1..], x) <==> In(left, x) && !In(right, x)
  {
    var first: Interval, tail := (Max(pos, l[0].0), l[0].1), l[1..];
    InHead(l);
    TailAfter(l);
    InSnoc(ret, first);
    InConcat(ret + [first], tail);
    assert forall x :: !In(r, x);
  }

  lemma CopyShape(left: seq<Interval>, right: seq<Interval>, l: seq<Interval>, r: seq<Interval>, pos: nat, ret: seq<Interval>)
    requires Subtracting(left, right, l, r, pos, ret) && l != [] && r == []
    ensures var all := ret + [(Max(pos, l[0].0), l[0].1)] + l[1..]; Disjoint(all) && (Normal(left) ==> Normal(all))
  {
    var first: Interval, tail := (Max(pos, l[0].0), l[0].1), l[1..];
    TailAfter(l);
    assert forall i :: 0 <= i < |tail| ==> tail[i] == l[i + 1] && l[0].1 <= tail[i].0;
    AppendDisjoint(ret, first);
    JoinDisjoint(ret + [first], tail);
    if Normal(left) {
      GapAtEnd(left, right, l, r, pos, ret);
      AppendNormal(ret, first);
      JoinNormal(ret + [first], tail);
    }
  }

  lemma GapAtEnd(left: seq<Interval>, right: seq<Interval>, l: seq<Interval>, r: seq<Interval>, pos: nat, ret: seq<Interval>)
    requires Subtracting(left, right, l, r, pos, ret) && l != [] && r == [] && Normal(left)
    ensures Normal(ret) && EndsBefore(ret, Max(pos, l[0].0)) && Normal(l[1..]) && forall i :: 0 <= i < |l[1..]| ==> l[0].1 < l[1..][i].0
  {
    TailAfter(l);
  }

  lemma JoinDisjoint(a: seq<Interval>, b: seq<Interval>)
    requires Disjoint(a) && Disjoint(b) && a != [] && forall i :: 0 <= i < |b| ==> a[|a| - 1].1 <= b[i].0
    ensures Disjoint(a + b)
  {
    assert forall i :: 0 <= i < |a| ==> a[i].1 <= a[|a| - 1].1;
  }

  lemma JoinNormal(a: seq<Interval>, b: seq<Interval>)
    requires Normal(a) && Normal(b) && a != [] && forall i :: 0 <= i < |b| ==> a[|a| - 1].1 < b[i].0
    ensures Normal(a + b)
  {
    assert forall i :: 0 <= i < |a| ==> a[i].1 <= a[|a| - 1].1;
  }
}
