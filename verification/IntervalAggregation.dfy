/** Grouping the points covered by several interval lists by the set of lists that cover them, with one sweep over the endpoints. */
module IntervalAggregation {
  import opened SeqFacts
  import opened Sorting
  import opened Intervals

  /** Interval lists by key. */
  type Input = seq<(nat, seq<Interval>)>

  datatype Event = Event(point: nat, start: bool, key: nat)

  ghost predicate ValidInput(input: Input) {
    && (forall i :: 0 <= i < |input| ==> Disjoint(input[i].1))
    && (forall i, j :: 0 <= i < j < |input| ==> input[i].0 != input[j].0)
  }

  ghost predicate NormalInput(input: Input) {
    forall i :: 0 <= i < |input| ==> Normal(input[i].1)
  }

  ghost predicate Covers(input: Input, k: nat, x: nat) {
    exists i :: 0 <= i < |input| && input[i].0 == k && In(input[i].1, x)
  }

  ghost predicate IsEvent(input: Input, e: Event) {
    exists i, j :: 0 <= i < |input| && 0 <= j < |input[i].1| && EventOf(input, e, i, j)
  }

  ghost predicate EventOf(input: Input, e: Event, i: nat, j: nat)
    requires i < |input| && j < |input[i].1|
  {
    input[i].0 == e.key && e.point == if e.start then input[i].1[j].0 else input[i].1[j].1
  }

  // ---- What endpoints say about coverage.

  lemma StartCovers(input: Input, p: nat, k: nat)
    requires ValidInput(input) && IsEvent(input, Event(p, true, k))
    ensures Covers(input, k, p)
  {
    var i, j :| 0 <= i < |input| && 0 <= j < |input[i].1| && EventOf(input, Event(p, true, k), i, j);
    assert Inside(input[i].1[j], p);
  }

  lemma EndUncovers(input: Input, p: nat, k: nat)
    requires ValidInput(input) && IsEvent(input, Event(p, false, k))
    ensures p > 0 && Covers(input, k, p - 1)
  {
    var i, j :| 0 <= i < |input| && 0 <= j < |input[i].1| && EventOf(input, Event(p, false, k), i, j);
    assert Inside(input[i].1[j], p - 1);
  }

  /** An interval up to just before `p` or beyond and one from `p` or before on, which are different, meet at `p`. */
  lemma MeetAt(list: seq<Interval>, m: nat, j: nat, p: nat)
    requires Disjoint(list) && m < |list| && j < |list| && m != j && p > 0
    requires Inside(list[m], p - 1) && Inside(list[j], p) && (list[m].1 == p || list[j].0 == p)
    ensures list[m].1 == p == list[j].0 && !Normal(list)
  {
    assert m < j;
  }

  /** Covered before and from a start: the earlier interval ends there. */
  lemma StartAfterCover(input: Input, p: nat, k: nat)
    requires ValidInput(input) && IsEvent(input, Event(p, true, k)) && p > 0 && Covers(input, k, p - 1)
    ensures IsEvent(input, Event(p, false, k)) && !NormalInput(input)
  {
    var i, j :| 0 <= i < |input| && 0 <= j < |input[i].1| && EventOf(input, Event(p, true, k), i, j);
    var i1 :| 0 <= i1 < |input| && input[i1].0 == k && In(input[i1].1, p - 1);
    assert i == i1;
    var m :| 0 <= m < |input[i].1| && Inside(input[i].1[m], p - 1);
    MeetAt(input[i].1, m, j, p);
    assert EventOf(input, Event(p, false, k), i, m);
  }

  /** Covered on both sides of an end: another interval starts there. */
  lemma EndBeforeCover(input: Input, p: nat, k: nat)
    requires ValidInput(input) && IsEvent(input, Event(p, false, k)) && Covers(input, k, p)
    ensures IsEvent(input, Event(p, true, k))
  {
    var i, j :| 0 <= i < |input| && 0 <= j < |input[i].1| && EventOf(input, Event(p, false, k), i, j);
    var i1 :| 0 <= i1 < |input| && input[i1].0 == k && In(input[i1].1, p);
    assert i == i1;
    var m :| 0 <= m < |input[i].1| && Inside(input[i].1[m], p);
    MeetAt(input[i].1, j, m, p);
    assert EventOf(input, Event(p, true, k), i, m);
  }

  lemma NewlyInside(list: seq<Interval>, m: nat, p: nat)
    requires m < |list| && Inside(list[m], p) && p > 0 && !In(list, p - 1)
    ensures list[m].0 == p
  {
    assert !Inside(list[m], p - 1);
  }

  lemma NewlyOutside(list: seq<Interval>, m: nat, p: nat)
    requires m < |list| && p > 0 && Inside(list[m], p - 1) && !In(list, p)
    ensures list[m].1 == p
  {
    assert !Inside(list[m], p);
  }

  /** Coverage changes only at endpoints. */
  lemma CoverChange(input: Input, p: nat, k: nat)
    requires ValidInput(input)
    ensures Covers(input, k, p) && (p == 0 || !Covers(input, k, p - 1)) ==> IsEvent(input, Event(p, true, k))
    ensures p > 0 && Covers(input, k, p - 1) && !Covers(input, k, p) ==> IsEvent(input, Event(p, false, k))
  {
    if Covers(input, k, p) && (p == 0 || !Covers(input, k, p - 1)) {
      var i :| 0 <= i < |input| && input[i].0 == k && In(input[i].1, p);
      var m :| 0 <= m < |input[i].1| && Inside(input[i].1[m], p);
      if p > 0 {
        NewlyInside(input[i].1, m, p);
      }
      assert EventOf(input, Event(p, true, k), i, m);
    }
    if p > 0 && Covers(input, k, p - 1) && !Covers(input, k, p) {
      var i :| 0 <= i < |input| && input[i].0 == k && In(input[i].1, p - 1);
      var m :| 0 <= m < |input[i].1| && Inside(input[i].1[m], p - 1);
      NewlyOutside(input[i].1, m, p);
      assert EventOf(input, Event(p, false, k), i, m);
    }
  }

  lemma {:induction false} CoverConstant(input: Input, k: nat, from: nat, x: nat)
    requires ValidInput(input) && from <= x && forall p, start :: from < p <= x ==> !IsEvent(input, Event(p, start, k))
    ensures Covers(input, k, x) <==> Covers(input, k, from)
  {
    if from < x {
      CoverConstant(input, k, from, x - 1);
      CoverChange(input, x, k);
      assert !IsEvent(input, Event(x, true, k)) && !IsEvent(input, Event(x, false, k));
    }
  }

  lemma {:induction false} UncoveredBefore(input: Input, k: nat, x: nat)
    requires ValidInput(input) && forall p, start :: 0 <= p <= x ==> !IsEvent(input, Event(p, start, k))
    ensures !Covers(input, k, x)
  {
    CoverChange(input, x, k);
    assert !IsEvent(input, Event(x, true, k));
    if x > 0 {
      UncoveredBefore(input, k, x - 1);
    }
  }

  // ---- The sweep.

  predicate NotBefore(e: Event, f: Event) {
    || f.point < e.point
    || (f.point == e.point && (e.start || !f.start) && (e.start == f.start ==> f.key <= e.key))
  }

  /** Exactly the endpoints from `from` on are waiting, the earliest last. */
  ghost predicate Waiting(input: Input, events: seq<Event>, from: nat) {
    && Distinct(events) && SortedBy(events, NotBefore)
    && (forall e :: e in events <==> IsEvent(input, e) && e.point >= from)
  }

  /** The active keys are those that cover the point before `from`. */
  ghost predicate ActiveBefore(input: Input, active: seq<nat>, from: nat) {
    Distinct(active) && forall k: nat :: k in active <==> from > 0 && Covers(input, k, from - 1)
  }

  /** While the endpoints at `p` are processed: those of `todo` are not done yet. */
  ghost predicate ActiveDuring(input: Input, active: seq<nat>, p: nat, todo: seq<Event>) {
    && Distinct(active)
    && forall k: nat :: k in active <==> Switched(input, p, todo, k)
  }

  /** Key `k` is active, given what has been done. */
  ghost predicate Switched(input: Input, p: nat, todo: seq<Event>, k: nat) {
    if IsEvent(input, Event(p, true, k)) && Event(p, true, k) !in todo then true
    else if IsEvent(input, Event(p, false, k)) && Event(p, false, k) !in todo then false
    else p > 0 && Covers(input, k, p - 1)
  }

  lemma SwitchedAll(input: Input, p: nat, todo: seq<Event>, k: nat)
    requires ValidInput(input) && forall start :: Event(p, start, k) !in todo
    ensures Switched(input, p, todo, k) <==> Covers(input, k, p)
  {
    CoverChange(input, p, k);
    if IsEvent(input, Event(p, true, k)) {
      StartCovers(input, p, k);
    } else if IsEvent(input, Event(p, false, k)) && Covers(input, k, p) {
      EndBeforeCover(input, p, k);
    }
  }

  lemma SwitchedNone(input: Input, p: nat, events: seq<Event>, k: nat)
    requires Waiting(input, events, p)
    ensures Switched(input, p, events, k) <==> p > 0 && Covers(input, k, p - 1)
  {
  }

  /** The earliest waiting endpoint comes off; the rest is still in order. */
  lemma PopEvent(input: Input, events: seq<Event>)
    requires events != [] && Distinct(events) && SortedBy(events, NotBefore)
    ensures var e, rest := events[|events| - 1], events[..|events| - 1];
            && e !in rest && Distinct(rest) && SortedBy(rest, NotBefore)
            && (forall f :: f in events <==> f in rest || f == e) && forall f :: f in rest ==> NotBefore(f, e)
  {
    var e, rest := events[|events| - 1], events[..|events| - 1];
    assert events == rest + [e];
    forall f | f in rest ensures NotBefore(f, e) {
      var i :| 0 <= i < |rest| && rest[i] == f;
      assert events[i] == f;
    }
  }

  /** What has been done at `p` comes before what is still to do there. */
  ghost predicate DoneFirst(input: Input, p: nat, todo: seq<Event>) {
    forall f, g {:trigger NotBefore(g, f)} :: IsEvent(input, f) && f.point == p && f !in todo && g in todo && g.point == p ==> NotBefore(g, f)
  }

  /** Processing one endpoint: a start adds its key, which was not active; an end removes its key, which was. */
  lemma SwitchOne(input: Input, p: nat, todo: seq<Event>, rest: seq<Event>, e: Event, k: nat)
    requires ValidInput(input) && e.point == p && IsEvent(input, e) && e in todo && e !in rest && (forall f :: f in todo <==> f in rest || f == e)
    requires (forall f :: f in rest ==> NotBefore(f, e)) && DoneFirst(input, p, todo)
    ensures Switched(input, p, rest, k) <==> if k == e.key then e.start else Switched(input, p, todo, k)
    ensures Switched(input, p, todo, e.key) <==> !e.start
  {
    hide IsEvent, Covers;
    if e.start {
      assert Event(p, false, e.key) !in todo by {
        assert Event(p, false, e.key) in rest ==> NotBefore(Event(p, false, e.key), e);
      }
      if p > 0 && Covers(input, e.key, p - 1) {
        StartAfterCover(input, p, e.key);
      }
    } else {
      EndUncovers(input, p, e.key);
      assert !NotBefore(e, Event(p, true, e.key));
    }
  }

  /** Removes one key by overwriting it with the last one. */
  function Removed(active: seq<nat>, at: nat): seq<nat>
    requires at < |active|
  {
    active[at := active[|active| - 1]][..|active| - 1]
  }

  lemma RemovedMembers(active: seq<nat>, at: nat)
    requires Distinct(active) && at < |active|
    ensures Distinct(Removed(active, at)) && forall k :: k in Removed(active, at) <==> k in active && k != active[at]
  {
    var now := Removed(active, at);
    forall k | k in active && k != active[at] ensures k in now {
      var i :| 0 <= i < |active| && active[i] == k;
      assert now[if i == |active| - 1 then at else i] == k;
    }
  }

  method FindKey(active: seq<nat>, key: nat) returns (at: nat)
    requires key in active
    ensures at < |active| && active[at] == key
  {
    at := 0;
    while active[at] != key
      invariant at < |active| && forall i :: 0 <= i < at ==> active[i] != key
      decreases |active| - at
    {
      var i :| 0 <= i < |active| && active[i] == key;
      at := at + 1;
    }
  }

  /** Processes all the endpoints at `p`. */
  method ProcessPoint(ghost input: Input, p: nat, events0: seq<Event>, active0: seq<nat>) returns (events: seq<Event>, active: seq<nat>)
    requires ValidInput(input) && Waiting(input, events0, p) && ActiveBefore(input, active0, p)
    ensures Waiting(input, events, p + 1) && ActiveBefore(input, active, p + 1) && |events| <= |events0|
    ensures events0 != [] && events0[|events0| - 1].point == p ==> |events| < |events0|
  {
    events, active := events0, active0;
    StartPoint(input, p, events, active);
    hide IsEvent, Covers, ValidInput, Switched;
    while events != [] && events[|events| - 1].point == p
      invariant Processing(input, p, events, active) && |events| <= |events0|
      invariant events0 != [] && events0[|events0| - 1].point == p && events != [] && events[|events| - 1].point != p ==> |events| < |events0|
      invariant |events| < |events0| || events == events0
      decreases |events|
    {
      var e := events[|events| - 1];
      PopEvent(input, events);
      var rest := events[..|events| - 1];
      ProcessOne(input, p, events, active);
      if e.start {
        active := active + [e.key];
      } else {
        var at := FindKey(active, e.key);
        active := Removed(active, at);
      }
      events := rest;
    }
    EndPoint(input, p, events, active);
  }

  ghost predicate Processing(input: Input, p: nat, events: seq<Event>, active: seq<nat>) {
    && ValidInput(input) && Distinct(events) && SortedBy(events, NotBefore)
    && (forall e :: e in events ==> IsEvent(input, e) && e.point >= p)
    && (forall e :: IsEvent(input, e) && e.point > p ==> e in events)
    && DoneFirst(input, p, events) && ActiveDuring(input, active, p, events)
  }

  lemma StartPoint(input: Input, p: nat, events: seq<Event>, active: seq<nat>)
    requires ValidInput(input) && Waiting(input, events, p) && ActiveBefore(input, active, p)
    ensures Processing(input, p, events, active)
  {
    hide IsEvent, Covers, ValidInput;
    forall k: nat ensures k in active <==> Switched(input, p, events, k) {
      SwitchedNone(input, p, events, k);
    }
  }

  lemma EndPoint(input: Input, p: nat, events: seq<Event>, active: seq<nat>)
    requires Processing(input, p, events, active) && (events != [] ==> events[|events| - 1].point != p)
    ensures Waiting(input, events, p + 1) && ActiveBefore(input, active, p + 1)
  {
    hide IsEvent, Covers, ValidInput;
    forall e | e in events ensures e.point > p {
      if events != [] {
        PopEvent(input, events);
        assert events[|events| - 1] in events;
        assert e == events[|events| - 1] || NotBefore(e, events[|events| - 1]);
      }
    }
    forall k: nat ensures k in active <==> Covers(input, k, p) {
      SwitchedAll(input, p, events, k);
    }
  }

  lemma ProcessOne(input: Input, p: nat, events: seq<Event>, active: seq<nat>)
    requires Processing(input, p, events, active) && events != [] && events[|events| - 1].point == p
    ensures var e, rest := events[|events| - 1], events[..|events| - 1];
            && (e.start ==> e.key !in active && Processing(input, p, rest, active + [e.key]))
            && (!e.start ==> e.key in active && forall at: nat :: at < |active| && active[at] == e.key ==> Processing(input, p, rest, Removed(active, at)))
  {
    hide IsEvent, Covers, ValidInput, Switched;
    var e, rest := events[|events| - 1], events[..|events| - 1];
    PopEvent(input, events);
    assert e in events;
    forall k: nat ensures Switched(input, p, rest, k) <==> if k == e.key then e.start else k in active {
      SwitchOne(input, p, events, rest, e, k);
    }
    SwitchOne(input, p, events, rest, e, e.key);
    assert DoneFirst(input, p, rest) by {
      forall f, g | IsEvent(input, f) && f.point == p && f !in rest && g in rest && g.point == p ensures NotBefore(g, f) {
        assert f == e || f !in events;
      }
    }
    if e.start {
      DistinctConcat(active, [e.key]);
    } else {
      forall at: nat | at < |active| && active[at] == e.key ensures Processing(input, p, rest, Removed(active, at)) {
        RemovedMembers(active, at);
      }
    }
  }

  // ---- The groups.

  /** Groups in the order they were first met. */
  type Groups = seq<(seq<nat>, seq<Interval>)>

  /** The keys of the group are exactly those that cover `x`. */
  ghost predicate KeyedBy(input: Input, keys: seq<nat>, x: nat) {
    forall k: nat :: k in keys <==> Covers(input, k, x)
  }

  ghost predicate GroupOk(input: Input, g: (seq<nat>, seq<Interval>), limit: nat) {
    && g.0 != [] && Increasing(g.0) && g.1 != [] && Disjoint(g.1) && EndsBy(g.1, limit)
    && forall x: nat :: In(g.1, x) <==> x < limit && KeyedBy(input, g.0, x)
  }

  ghost predicate Grouped(result: Groups, x: nat) {
    exists i :: 0 <= i < |result| && In(result[i].1, x)
  }

  /** Below `limit` every covered point is in the group keyed by what covers it, and in no other. */
  ghost predicate GroupsOk(input: Input, result: Groups, limit: nat) {
    && (forall i, j :: 0 <= i < j < |result| ==> result[i].0 != result[j].0)
    && (forall i :: 0 <= i < |result| ==> GroupOk(input, result[i], limit))
    && (forall x: nat, k: nat :: x < limit && Covers(input, k, x) ==> Grouped(result, x))
    && ByFirst(result, limit)
  }

  /** The groups are in the order of their first points. */
  ghost predicate InFirstOrder(result: Groups) {
    && (forall i :: 0 <= i < |result| ==> result[i].1 != [])
    && (forall i, j :: 0 <= i < j < |result| ==> result[i].1[0].0 < result[j].1[0].0)
  }

  ghost predicate ByFirst(result: Groups, limit: nat) {
    InFirstOrder(result) && forall i :: 0 <= i < |result| ==> result[i].1[0].0 < limit
  }

  /** Appends an interval to the group of the given keys, which is made if it is new. */
  function AddTo(result: Groups, keys: seq<nat>, v: Interval): Groups {
    if result == [] then [(keys, [v])]
    else if result[0].0 == keys then [(keys, result[0].1 + [v])] + result[1..]
    else [result[0]] + AddTo(result[1..], keys, v)
  }

  /** What was there stays, except that the group of `keys` has the new interval at its end. */
  ghost predicate Added(result: Groups, after: Groups, keys: seq<nat>, v: Interval) {
    && |result| <= |after| <= |result| + 1
    && (forall i :: 0 <= i < |result| ==> after[i] == if result[i].0 == keys then (keys, result[i].1 + [v]) else result[i])
    && (|after| > |result| ==> after[|result|] == (keys, [v]) && forall i :: 0 <= i < |result| ==> result[i].0 != keys)
    && exists i :: 0 <= i < |after| && after[i].0 == keys
  }

  lemma {:induction false} AddToAdds(result: Groups, keys: seq<nat>, v: Interval)
    requires forall i, j :: 0 <= i < j < |result| ==> result[i].0 != result[j].0
    ensures Added(result, AddTo(result, keys, v), keys, v)
  {
    var after := AddTo(result, keys, v);
    if result == [] {
      assert after[0].0 == keys;
    } else if result[0].0 == keys {
      assert after[0].0 == keys;
    } else {
      var rest := result[1..];
      AddToAdds(rest, keys, v);
      var tail := AddTo(rest, keys, v);
      assert forall i :: 1 <= i < |after| ==> after[i] == tail[i - 1];
      var i :| 0 <= i < |tail| && tail[i].0 == keys;
      assert after[i + 1].0 == keys;
    }
  }

  /** Between `cur` and the next endpoint `p` exactly the active keys cover. */
  lemma ActiveUntil(input: Input, events: seq<Event>, active: seq<nat>, from: nat, p: nat, x: nat)
    requires ValidInput(input) && Waiting(input, events, from) && ActiveBefore(input, active, from)
    requires (forall e :: e in events ==> e.point >= p) && (from > 0 ==> from - 1 <= x) && x < p
    ensures KeyedBy(input, active, x)
  {
    hide IsEvent, Covers, ValidInput;
    forall k: nat ensures k in active <==> Covers(input, k, x) {
      if from > 0 {
        forall q, start | from - 1 < q <= x ensures !IsEvent(input, Event(q, start, k)) {
          assert Event(q, start, k) !in events;
        }
        CoverConstant(input, k, from - 1, x);
      } else {
        forall q, start | 0 <= q <= x ensures !IsEvent(input, Event(q, start, k)) {
          assert Event(q, start, k) !in events;
        }
        UncoveredBefore(input, k, x);
      }
    }
  }

  /** Two ordered key lists for the same point are the same. */
  lemma SameKeys(input: Input, a: seq<nat>, b: seq<nat>, x: nat)
    requires Increasing(a) && Increasing(b) && KeyedBy(input, a, x) && KeyedBy(input, b, x)
    ensures a == b
  {
    hide Covers;
    ElemsMembers(a);
    ElemsMembers(b);
    KeyIsUnique(a, b, Elems(a));
  }

  lemma StretchGroup(input: Input, g: (seq<nat>, seq<Interval>), keys: seq<nat>, cur: nat, p: nat)
    requires GroupOk(input, g, cur) && cur < p && Increasing(keys) && forall x: nat :: cur <= x < p ==> KeyedBy(input, keys, x)
    ensures GroupOk(input, if g.0 == keys then (keys, g.1 + [(cur, p)]) else g, p)
  {
    hide KeyedBy;
    if g.0 == keys {
      InSnoc(g.1, (cur, p));
      AppendDisjoint(g.1, (cur, p));
    } else {
      forall x: nat | cur <= x < p ensures !KeyedBy(input, g.0, x) {
        if KeyedBy(input, g.0, x) {
          SameKeys(input, g.0, keys, x);
        }
      }
    }
  }

  /** A key list no group has yet is not that of any earlier point. */
  lemma NoEarlierPoint(input: Input, result: Groups, keys: seq<nat>, cur: nat, x: nat)
    requires GroupsOk(input, result, cur) && x < cur && keys != [] && Increasing(keys) && forall i :: 0 <= i < |result| ==> result[i].0 != keys
    ensures !KeyedBy(input, keys, x)
  {
    if KeyedBy(input, keys, x) {
      assert keys[0] in keys;
      assert Covers(input, keys[0], x);
      assert Grouped(result, x);
      var i :| 0 <= i < |result| && In(result[i].1, x);
      assert GroupOk(input, result[i], cur);
      SameKeys(input, result[i].0, keys, x);
      assert false;
    }
  }

  lemma StretchGrouped(input: Input, result: Groups, after: Groups, keys: seq<nat>, cur: nat, p: nat, x: nat, k: nat)
    requires GroupsOk(input, result, cur) && Added(result, after, keys, (cur, p)) && x < p && Covers(input, k, x)
    requires (forall y: nat :: cur <= y < p ==> KeyedBy(input, keys, y)) && forall i :: 0 <= i < |after| ==> GroupOk(input, after[i], p)
    ensures Grouped(after, x)
  {
    hide Covers;
    if x < cur {
      assert Grouped(result, x);
      var i :| 0 <= i < |result| && In(result[i].1, x);
      InSnoc(result[i].1, (cur, p));
      assert In(after[i].1, x);
    } else {
      var i :| 0 <= i < |after| && after[i].0 == keys;
      assert GroupOk(input, after[i], p);
      assert In(after[i].1, x);
    }
  }

  lemma NewGroup(input: Input, result: Groups, keys: seq<nat>, cur: nat, p: nat)
    requires GroupsOk(input, result, cur) && cur < p && keys != [] && Increasing(keys) && forall i :: 0 <= i < |result| ==> result[i].0 != keys
    requires forall x: nat :: cur <= x < p ==> KeyedBy(input, keys, x)
    ensures GroupOk(input, (keys, [(cur, p)]), p)
  {
    hide KeyedBy;
    InOne((cur, p));
    forall x: nat | x < cur ensures !KeyedBy(input, keys, x) {
      NoEarlierPoint(input, result, keys, cur, x);
    }
  }

  /** Adding the stretch from `cur` to `p` to the group of the active keys. */
  lemma AddedByFirst(result: Groups, after: Groups, keys: seq<nat>, cur: nat, p: nat)
    requires ByFirst(result, cur) && cur < p && Added(result, after, keys, (cur, p))
    ensures ByFirst(after, p)
  {
    forall i | 0 <= i < |result| ensures after[i].1 != [] && after[i].1[0] == result[i].1[0] {
    }
  }

  lemma AddStretch(input: Input, result: Groups, keys: seq<nat>, cur: nat, p: nat)
    requires GroupsOk(input, result, cur) && cur < p && keys != [] && Increasing(keys)
    requires forall x: nat :: cur <= x < p ==> KeyedBy(input, keys, x)
    ensures GroupsOk(input, AddTo(result, keys, (cur, p)), p)
  {
    hide Covers, KeyedBy, GroupOk, In;
    var v: Interval, after := (cur, p), AddTo(result, keys, (cur, p));
    AddToAdds(result, keys, v);
    AddedByFirst(result, after, keys, cur, p);
    hide ByFirst;
    forall i | 0 <= i < |after| ensures GroupOk(input, after[i], p) {
      if i < |result| {
        StretchGroup(input, result[i], keys, cur, p);
      } else {
        NewGroup(input, result, keys, cur, p);
      }
    }
    forall x: nat, k: nat | x < p && Covers(input, k, x) ensures Grouped(after, x) {
      StretchGrouped(input, result, after, keys, cur, p, x, k);
    }
  }

  /** A stretch that nothing covers belongs to no group. */
  lemma SkipStretch(input: Input, result: Groups, cur: nat, p: nat)
    requires GroupsOk(input, result, cur) && cur <= p && forall x: nat :: cur <= x < p ==> KeyedBy(input, [], x)
    ensures GroupsOk(input, result, p)
  {
    forall i | 0 <= i < |result| ensures GroupOk(input, result[i], p) {
      var g := result[i];
      assert GroupOk(input, g, cur) && g.0[0] in g.0;
      forall x: nat | cur <= x < p ensures !KeyedBy(input, g.0, x) {
        assert KeyedBy(input, [], x);
        assert !Covers(input, g.0[0], x);
      }
    }
    forall x: nat, k: nat | x < p && Covers(input, k, x) ensures Grouped(result, x) {
      assert x >= cur ==> KeyedBy(input, [], x);
    }
  }

  // ---- Normal form.

  ghost predicate Differ(a: seq<nat>, b: seq<nat>) {
    exists k: nat :: (k in a) != (k in b)
  }

  /** The group cannot be continued at `cur`: it does not end there or has other keys than the active ones. */
  ghost predicate GroupBroken(g: (seq<nat>, seq<Interval>), active: seq<nat>, cur: nat) {
    Normal(g.1) && (g.1 != [] && g.1[|g.1| - 1].1 == cur ==> Differ(g.0, active))
  }

  ghost predicate Broken(result: Groups, active: seq<nat>, cur: nat) {
    forall i :: 0 <= i < |result| ==> GroupBroken(result[i], active, cur)
  }

  /** With gaps in every list, an endpoint changes the set of active keys. */
  lemma SetChanges(input: Input, events: seq<Event>, p: nat, before: seq<nat>, active: seq<nat>)
    requires ValidInput(input) && NormalInput(input) && Waiting(input, events, p) && events != [] && events[|events| - 1].point == p
    requires ActiveBefore(input, before, p) && ActiveBefore(input, active, p + 1)
    ensures Differ(before, active)
  {
    hide IsEvent, Covers;
    var e := events[|events| - 1];
    assert e in events;
    if e.start {
      StartCovers(input, p, e.key);
      if e.key in before {
        StartAfterCover(input, p, e.key);
      }
    } else {
      EndUncovers(input, p, e.key);
      if e.key in active {
        EndBeforeCover(input, p, e.key);
        StartAfterCover(input, p, e.key);
      }
    }
    assert (e.key in before) != (e.key in active);
  }

  lemma BrokenGroup(input: Input, g: (seq<nat>, seq<Interval>), keys: seq<nat>, before: seq<nat>, active: seq<nat>, cur: nat, p: nat)
    requires GroupOk(input, g, cur) && GroupBroken(g, before, cur) && cur < p && !Differ(keys, before) && Differ(keys, active)
    ensures GroupBroken(if g.0 == keys then (keys, g.1 + [(cur, p)]) else g, active, p)
  {
    hide Differ, KeyedBy, In;
    if g.0 == keys {
      AppendNormal(g.1, (cur, p));
    }
  }

  lemma BrokenAdd(input: Input, result: Groups, keys: seq<nat>, before: seq<nat>, active: seq<nat>, cur: nat, p: nat)
    requires GroupsOk(input, result, cur) && Broken(result, before, cur) && cur < p && !Differ(keys, before) && Differ(before, active)
    ensures Broken(AddTo(result, keys, (cur, p)), active, p)
  {
    assert Differ(keys, active) by {
      var k: nat :| (k in before) != (k in active);
      assert (k in keys) != (k in active);
    }
    hide Differ, GroupOk, GroupBroken, ByFirst, Grouped, Covers;
    var after := AddTo(result, keys, (cur, p));
    AddToAdds(result, keys, (cur, p));
    forall i | 0 <= i < |after| ensures GroupBroken(after[i], active, p) {
      if i < |result| {
        BrokenGroup(input, result[i], keys, before, active, cur, p);
      } else {
        OneIsBroken(keys, active, cur, p);
      }
    }
  }

  lemma OneIsBroken(keys: seq<nat>, active: seq<nat>, cur: nat, p: nat)
    requires cur < p && Differ(keys, active)
    ensures GroupBroken((keys, [(cur, p)]), active, p)
  {
  }

  lemma BrokenSkip(input: Input, result: Groups, before: seq<nat>, active: seq<nat>, cur: nat, p: nat)
    requires GroupsOk(input, result, cur) && Broken(result, before, cur) && (cur < p || result == [])
    ensures Broken(result, active, p)
  {
    forall i | 0 <= i < |result| ensures result[i].1 != [] && result[i].1[|result[i].1| - 1].1 < p {
      assert GroupOk(input, result[i], cur);
    }
  }

  // ---- The whole aggregation.

  method CollectEvents(input: Input) returns (events: seq<Event>)
    requires ValidInput(input)
    ensures Waiting(input, events, 0)
  {
    var all: seq<Event> := [];
    var i := 0;
    while i < |input|
      invariant i <= |input| && Distinct(all)
      invariant forall e :: e in all <==> IsEvent(input[..i], e)
    {
      var mine := EventsOf(input[i].0, input[i].1);
      NewEvents(input, i, all, mine);
      all := all + mine;
      i := i + 1;
    }
    assert input[..i] == input;
    events := Sort(all, NotBefore);
    SortSorts(all, NotBefore);
    SameContent(all, events);
    ElemsMembers(all);
    ElemsMembers(events);
  }

  method EventsOf(key: nat, list: seq<Interval>) returns (mine: seq<Event>)
    requires Disjoint(list)
    ensures Distinct(mine)
    ensures forall e :: e in mine <==> IsEvent([(key, list)], e)
  {
    mine := [];
    var j := 0;
    while j < |list|
      invariant j <= |list| && Distinct(mine)
      invariant forall e :: e in mine <==> e.key == key && exists m :: 0 <= m < j && e.point == if e.start then list[m].0 else list[m].1
    {
      var begin, end := Event(list[j].0, true, key), Event(list[j].1, false, key);
      assert begin !in mine && end !in mine;
      DistinctConcat(mine, [begin, end]);
      mine := mine + [begin, end];
      j := j + 1;
    }
    forall e ensures e in mine <==> IsEvent([(key, list)], e) {
      if e in mine {
        var m :| 0 <= m < |list| && e.point == if e.start then list[m].0 else list[m].1;
        assert EventOf([(key, list)], e, 0, m);
      }
    }
  }

  lemma NewEvents(input: Input, i: nat, all: seq<Event>, mine: seq<Event>)
    requires ValidInput(input) && i < |input| && Distinct(all) && Distinct(mine)
    requires (forall e :: e in all <==> IsEvent(input[..i], e)) && (forall e :: e in mine <==> IsEvent([(input[i].0, input[i].1)], e))
    ensures Distinct(all + mine) && forall e :: e in all + mine <==> IsEvent(input[..i + 1], e)
  {
    var one := [(input[i].0, input[i].1)];
    forall e ensures IsEvent(input[..i + 1], e) <==> IsEvent(input[..i], e) || IsEvent(one, e) {
      OneMoreList(input[..i], input[i], e);
      assert input[..i + 1] == input[..i] + [input[i]] && one == [input[i]];
    }
    forall e | e in all ensures e !in mine {
      var a, j :| 0 <= a < i && 0 <= j < |input[..i][a].1| && EventOf(input[..i], e, a, j);
      assert input[a].0 != input[i].0;
    }
    hide IsEvent;
    DistinctConcat(all, mine);
  }

  lemma OneMoreList(lists: Input, last: (nat, seq<Interval>), e: Event)
    ensures IsEvent(lists + [last], e) <==> IsEvent(lists, e) || IsEvent([last], e)
  {
    var more := lists + [last];
    if IsEvent(more, e) {
      var a, j :| 0 <= a < |more| && 0 <= j < |more[a].1| && EventOf(more, e, a, j);
      if a < |lists| {
        assert EventOf(lists, e, a, j);
      } else {
        assert EventOf([last], e, 0, j);
      }
    }
    if IsEvent(lists, e) {
      var a, j :| 0 <= a < |lists| && 0 <= j < |lists[a].1| && EventOf(lists, e, a, j);
      assert more[a] == lists[a] && EventOf(more, e, a, j);
    }
    if IsEvent([last], e) {
      var a, j :| 0 <= a < 1 && 0 <= j < |[last][a].1| && EventOf([last], e, a, j);
      assert more[|lists|] == last && EventOf(more, e, |lists|, j);
    }
  }

  method SortKeys(active: seq<nat>) returns (keys: seq<nat>)
    requires Distinct(active)
    ensures Increasing(keys) && Distinct(keys) && |keys| == |active| && forall k: nat :: k in keys <==> k in active
  {
    var le := (x: nat, y: nat) => x <= y;
    SortSorts(active, le);
    keys := Sort(active, le);
    SameContent(active, keys);
    ElemsMembers(active);
    ElemsMembers(keys);
    forall i, j | 0 <= i < j < |keys| ensures keys[i] < keys[j] {
      assert le(keys[i], keys[j]);
    }
  }

  /** Everything the sweep knows between endpoints: `from` is the first point not yet processed, `cur` the last one that was. */
  ghost predicate Sweeping(input: Input, events: seq<Event>, active: seq<nat>, cur: nat, from: nat, result: Groups) {
    && ValidInput(input) && Waiting(input, events, from) && ActiveBefore(input, active, from)
    && (from == 0 ==> cur == 0 && result == []) && (from > 0 ==> cur == from - 1)
    && GroupsOk(input, result, cur) && (NormalInput(input) ==> Broken(result, active, cur))
  }

  /** Commits the stretch up to the next endpoint. */
  method Commit(ghost input: Input, ghost events: seq<Event>, active0: seq<nat>, cur: nat, ghost from: nat, result0: Groups, p: nat)
      returns (active: seq<nat>, result: Groups)
    requires Sweeping(input, events, active0, cur, from, result0) && events != [] && events[|events| - 1].point == p
    ensures ActiveBefore(input, active, p) && Waiting(input, events, p) && GroupsOk(input, result, p)
    ensures NormalInput(input) ==> forall next :: Differ(active, next) ==> Broken(result, next, p)
  {
    active, result := active0, result0;
    NextPoint(input, events, active, cur, from, result, p);
    assert Distinct(active);
    hide IsEvent, Covers, ValidInput, GroupsOk, Waiting, Broken, Differ;
    if active != [] {
      active := SortKeys(active);
      forall x: nat | cur <= x < p ensures KeyedBy(input, active, x) {
        assert KeyedBy(input, active0, x);
      }
      AddStretch(input, result, active, cur, p);
      result := AddTo(result, active, (cur, p));
      if NormalInput(input) {
        SameDiffer(active, active0);
        forall next | Differ(active, next) ensures Broken(result, next, p) {
          BrokenAdd(input, result0, active, active0, next, cur, p);
        }
      }
    } else {
      SkipStretch(input, result, cur, p);
      if NormalInput(input) {
        forall next | Differ(active, next) ensures Broken(result, next, p) {
          BrokenSkip(input, result, active0, next, cur, p);
        }
      }
    }
  }

  lemma SameDiffer(keys: seq<nat>, active: seq<nat>)
    requires forall k: nat :: k in keys <==> k in active
    ensures !Differ(keys, active) && forall next :: Differ(keys, next) ==> Differ(active, next)
  {
  }

  lemma NextPoint(input: Input, events: seq<Event>, active: seq<nat>, cur: nat, from: nat, result: Groups, p: nat)
    requires Sweeping(input, events, active, cur, from, result) && events != [] && events[|events| - 1].point == p
    ensures from <= p && (cur < p || result == []) && cur <= p && (active != [] ==> cur < p)
    ensures forall x: nat :: cur <= x < p ==> KeyedBy(input, active, x)
    ensures Waiting(input, events, p) && ActiveBefore(input, active, p)
  {
    hide IsEvent, Covers, ValidInput, GroupsOk, Broken, KeyedBy;
    PopEvent(input, events);
    assert events[|events| - 1] in events;
    forall e | e in events ensures e.point >= p {
      assert e == events[|events| - 1] || NotBefore(e, events[|events| - 1]);
    }
    assert active != [] ==> active[0] in active;
    forall x: nat | cur <= x < p ensures KeyedBy(input, active, x) {
      ActiveUntil(input, events, active, from, p, x);
    }
    ActiveAt(input, events, active, cur, from, result, p);
  }

  lemma ActiveAt(input: Input, events: seq<Event>, active: seq<nat>, cur: nat, from: nat, result: Groups, p: nat)
    requires Sweeping(input, events, active, cur, from, result) && from <= p && cur <= p
    requires forall x: nat :: cur <= x < p ==> KeyedBy(input, active, x)
    ensures ActiveBefore(input, active, p)
  {
    hide IsEvent, Covers, ValidInput, GroupsOk, Broken;
    if p > 0 && cur < p {
      assert KeyedBy(input, active, p - 1);
    }
  }

  /** Every covered point is in exactly the group of the keys that cover it; the groups have different keys, and come in the
      order of their first points. */
  ghost predicate Aggregated(input: Input, result: Groups) {
    && InFirstOrder(result)
    && (forall i, j :: 0 <= i < j < |result| ==> result[i].0 != result[j].0)
    && (forall i :: 0 <= i < |result| ==> result[i].0 != [] && Increasing(result[i].0) && Disjoint(result[i].1))
    && (forall i, x: nat :: 0 <= i < |result| ==> (In(result[i].1, x) <==> KeyedBy(input, result[i].0, x)))
    && (forall x: nat, k: nat :: Covers(input, k, x) ==> Grouped(result, x))
  }

  /** Without endpoints left nothing is covered any more. */
  lemma NothingAfter(input: Input, active: seq<nat>, from: nat, k: nat, x: nat)
    requires ValidInput(input) && Waiting(input, [], from) && x + 1 >= from
    ensures !Covers(input, k, x)
  {
    if Covers(input, k, x) {
      var e := EndLater(input, k, x);
      assert false;
    }
  }

  lemma EndLater(input: Input, k: nat, x: nat) returns (e: Event)
    requires ValidInput(input) && Covers(input, k, x)
    ensures IsEvent(input, e) && e.point > x
  {
    var i :| 0 <= i < |input| && input[i].0 == k && In(input[i].1, x);
    var m :| 0 <= m < |input[i].1| && Inside(input[i].1[m], x);
    e := Event(input[i].1[m].1, false, k);
    assert EventOf(input, e, i, m);
  }

  lemma SweepEnds(input: Input, active: seq<nat>, cur: nat, from: nat, result: Groups)
    requires Sweeping(input, [], active, cur, from, result)
    ensures Aggregated(input, result) && (NormalInput(input) ==> forall i :: 0 <= i < |result| ==> Normal(result[i].1))
  {
    forall x: nat, k: nat | x >= cur ensures !Covers(input, k, x) {
      NothingAfter(input, active, from, k, x);
    }
    hide Covers, Waiting, ActiveBefore;
    assert ByFirst(result, cur);
    forall i, x: nat | 0 <= i < |result| ensures In(result[i].1, x) <==> KeyedBy(input, result[i].0, x) {
      assert GroupOk(input, result[i], cur) && result[i].0[0] in result[i].0;
    }
    forall i | 0 <= i < |result| ensures result[i].0 != [] && Increasing(result[i].0) && Disjoint(result[i].1) {
      assert GroupOk(input, result[i], cur);
    }
    if NormalInput(input) {
      forall i | 0 <= i < |result| ensures Normal(result[i].1) {
        assert GroupBroken(result[i], active, cur);
      }
    }
  }

  lemma SweepStarts(input: Input, events: seq<Event>)
    requires ValidInput(input) && Waiting(input, events, 0)
    ensures Sweeping(input, events, [], 0, 0, [])
  {
    hide Covers, IsEvent, ValidInput;
  }

  method Aggregate(input: Input) returns (result: Groups)
    requires ValidInput(input)
    ensures Aggregated(input, result)
    ensures NormalInput(input) ==> forall i :: 0 <= i < |result| ==> Normal(result[i].1)
  {
    var events := CollectEvents(input);
    var active, cur := [], 0;
    ghost var from := 0;
    result := [];
    SweepStarts(input, events);
    hide *;
    while events != []
      invariant Sweeping(input, events, active, cur, from, result)
      decreases |events|
    {
      var p := events[|events| - 1].point;
      events, active, result := Advance(input, events, active, cur, from, result, p);
      cur, from := p, p + 1;
    }
    SweepEnds(input, active, cur, from, result);
  }

  /** Goes on to the next endpoint. */
  method Advance(ghost input: Input, events0: seq<Event>, active0: seq<nat>, cur: nat, ghost from: nat, result0: Groups, p: nat)
      returns (events: seq<Event>, active: seq<nat>, result: Groups)
    requires Sweeping(input, events0, active0, cur, from, result0) && events0 != [] && events0[|events0| - 1].point == p
    ensures Sweeping(input, events, active, p, p + 1, result) && |events| < |events0|
  {
    assert ValidInput(input);
    active, result := Commit(input, events0, active0, cur, from, result0, p);
    ghost var before := active;
    hide IsEvent, Covers, ValidInput, GroupsOk, Broken, Waiting, ActiveBefore;
    events, active := ProcessPoint(input, p, events0, active);
    if NormalInput(input) {
      SetChanges(input, events0, p, before, active);
    }
  }
}
