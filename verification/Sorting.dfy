/** Sorting as a value: the standard library's sort, specified by order and content. */
module Sorting {
  import opened SeqFacts

  ghost predicate TotalPreorder<T(!new)>(le: (T, T) -> bool) {
    && (forall x, y :: le(x, y) || le(y, x))
    && (forall x, y, z :: le(x, y) && le(y, z) ==> le(x, z))
  }

  ghost predicate SortedBy<T>(s: seq<T>, le: (T, T) -> bool) {
    forall i, j :: 0 <= i < j < |s| ==> le(s[i], s[j])
  }

  function Insert<T>(x: T, s: seq<T>, le: (T, T) -> bool): seq<T> {
    if s == [] || le(x, s[0]) then [x] + s else [s[0]] + Insert(x, s[1..], le)
  }

  function Sort<T>(s: seq<T>, le: (T, T) -> bool): seq<T> {
    if s == [] then [] else Insert(s[0], Sort(s[1..], le), le)
  }

  lemma {:induction false} InsertSorts<T(!new)>(x: T, s: seq<T>, le: (T, T) -> bool)
    requires TotalPreorder(le) && SortedBy(s, le)
    ensures SortedBy(Insert(x, s, le), le)
    ensures multiset(Insert(x, s, le)) == multiset(s) + multiset{x}
  {
    if s == [] || le(x, s[0]) {
      assert multiset([x] + s) == multiset(s) + multiset{x};
    } else {
      InsertSorts(x, s[1..], le);
      var r := Insert(x, s[1..], le);
      assert s == [s[0]] + s[1..];
      forall i | 0 <= i < |r| ensures le(s[0], r[i]) {
        assert r[i] in multiset(r);
        assert r[i] in s[1..] || r[i] == x;
      }
      assert multiset([s[0]] + r) == multiset{s[0]} + multiset(r);
    }
  }

  lemma {:induction false} SortSorts<T(!new)>(s: seq<T>, le: (T, T) -> bool)
    requires TotalPreorder(le)
    ensures SortedBy(Sort(s, le), le)
    ensures multiset(Sort(s, le)) == multiset(s)
  {
    if s == [] {
    } else {
      SortSorts(s[1..], le);
      InsertSorts(s[0], Sort(s[1..], le), le);
      assert s == [s[0]] + s[1..];
    }
  }

  /** A rearrangement has the same members, and as few repeats. */
  lemma {:induction false} SameContent<T>(s: seq<T>, r: seq<T>)
    requires multiset(s) == multiset(r)
    ensures |s| == |r| && Elems(s) == Elems(r)
    ensures Distinct(s) ==> Distinct(r)
  {
    assert |multiset(s)| == |multiset(r)|;
    forall x ensures x in s <==> x in r {
      assert x in multiset(s) <==> x in multiset(r);
    }
    assert |s| == |r|;
    if Distinct(s) {
      DistinctSize(s);
      if exists i, j :: 0 <= i < j < |r| && r[i] == r[j] {
        var i, j :| 0 <= i < j < |r| && r[i] == r[j];
        RepeatShrinks(r, i, j);
        assert false;
      }
    }
  }

  lemma {:induction false} RepeatShrinks<T>(r: seq<T>, i: int, j: int)
    requires 0 <= i < j < |r| && r[i] == r[j]
    ensures |Elems(r)| < |r|
  {
    var rest := r[..j] + r[j + 1..];
    assert Elems(r) == Elems(rest) by {
      forall x | x in r ensures x in rest {
        var k :| 0 <= k < |r| && r[k] == x;
        if k < j {
          assert rest[k] == x;
        } else if k > j {
          assert rest[k - 1] == x;
        } else {
          assert rest[i] == x;
        }
      }
    }
    ElemsSize(rest);
  }

  lemma {:induction false} ElemsSize<T>(s: seq<T>)
    ensures |Elems(s)| <= |s|
  {
    if s == [] {
    } else {
      ElemsSize(s[1..]);
      assert s == [s[0]] + s[1..];
      assert Elems(s) == {s[0]} + Elems(s[1..]);
    }
  }

  ghost predicate Increasing(k: seq<nat>) {
    forall i, j :: 0 <= i < j < |k| ==> k[i] < k[j]
  }

  lemma ElemsAppend(s: seq<nat>, x: nat)
    ensures Elems(s + [x]) == Elems(s) + {x}
  {
  }

  /** `k` lists the members of `S` in order. */
  ghost predicate IsKey(k: seq<nat>, S: set<nat>) {
    Increasing(k) && Elems(k) == S
  }

  lemma SomeElem(s: seq<nat>)
    ensures s == [] <==> Elems(s) == {}
  {
    if s != [] {
      assert s[0] in Elems(s);
    }
  }

  /** The last member is the greatest; without it the rest is a key of the rest. */
  lemma KeyLast(k: seq<nat>, S: set<nat>)
    requires IsKey(k, S) && k != []
    ensures k[|k| - 1] in S && (forall s :: s in S ==> s <= k[|k| - 1]) && IsKey(k[..|k| - 1], S - {k[|k| - 1]})
  {
    var x, rest := k[|k| - 1], k[..|k| - 1];
    assert k == rest + [x];
    ElemsAppend(rest, x);
    ElemsMembers(k);
    assert x in k && x !in rest;
  }

  lemma {:induction false} KeyIsUnique(k: seq<nat>, l: seq<nat>, S: set<nat>)
    requires IsKey(k, S) && IsKey(l, S)
    ensures k == l
    decreases |k|
  {
    SomeElem(k);
    SomeElem(l);
    if k != [] && l != [] {
      KeyLast(k, S);
      KeyLast(l, S);
      hide IsKey;
      KeyIsUnique(k[..|k| - 1], l[..|l| - 1], S - {k[|k| - 1]});
      assert k == k[..|k| - 1] + [k[|k| - 1]] && l == l[..|l| - 1] + [l[|l| - 1]];
    }
  }

  /** Sorts and drops repeats. */
  method SortUnique(next: seq<nat>) returns (key: seq<nat>)
    ensures Increasing(key) && Elems(key) == Elems(next)
  {
    var le := (x: nat, y: nat) => x <= y;
    SortSorts(next, le);
    var sorted := Sort(next, le);
    SameContent(next, sorted);
    key := [];
    var i := 0;
    while i < |sorted|
      invariant i <= |sorted| && Increasing(key) && Elems(key) == Elems(sorted[..i])
      invariant key != [] ==> i > 0 && key[|key| - 1] == sorted[i - 1]
      invariant key == [] ==> i == 0
    {
      assert sorted[..i + 1] == sorted[..i] + [sorted[i]];
      ElemsAppend(sorted[..i], sorted[i]);
      ElemsAppend(key, sorted[i]);
      if key == [] || key[|key| - 1] != sorted[i] {
        assert key != [] ==> le(sorted[i - 1], sorted[i]);
        key := key + [sorted[i]];
      } else {
        assert sorted[i] in Elems(key);
      }
      i := i + 1;
    }
    assert sorted[..i] == sorted;
  }
}
