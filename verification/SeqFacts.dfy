/** Facts about finite sequences and sets that several components share. */
module SeqFacts {

  ghost predicate Distinct<T>(s: seq<T>) {
    forall i, j :: 0 <= i < j < |s| ==> s[i] != s[j]
  }

  ghost function Elems<T>(s: seq<T>): set<T> {
    set x | x in s
  }

  lemma ElemsMembers<T>(s: seq<T>)
    ensures forall x :: x in Elems(s) <==> x in s
  {
  }

  lemma {:induction false} DistinctSize<T>(s: seq<T>)
    requires Distinct(s)
    ensures |Elems(s)| == |s|
  {
    if s == [] {
    } else {
      var rest := s[..|s| - 1];
      DistinctSize(rest);
      assert s == rest + [s[|s| - 1]];
      assert s[|s| - 1] !in rest;
      assert Elems(s) == Elems(rest) + {s[|s| - 1]};
    }
  }

  lemma DistinctConcat<T>(s: seq<T>, t: seq<T>)
    requires Distinct(s) && Distinct(t) && forall x :: x in s ==> x !in t
    ensures Distinct(s + t)
  {
    forall i, j | 0 <= i < j < |s + t| ensures (s + t)[i] != (s + t)[j] {
      if i < |s| <= j {
        assert s[i] in s && t[j - |s|] in t;
      }
    }
  }

  lemma {:induction false} SubsetSize<T>(small: set<T>, big: set<T>)
    requires small <= big
    ensures |small| <= |big|
    ensures |small| == |big| ==> small == big
  {
    assert big == small + (big - small);
    if |small| == |big| {
      assert |big - small| == 0;
    }
  }

  /** A set of naturals below `n` has at most `n` members. */
  lemma {:induction false} BoundedSetSize(s: set<nat>, n: nat)
    requires forall x :: x in s ==> x < n
    ensures |s| <= n
  {
    if n == 0 {
      assert s == {};
    } else {
      BoundedSetSize(s - {n - 1}, n - 1);
      if n - 1 in s {
        assert s == (s - {n - 1}) + {n - 1};
      } else {
        assert s == s - {n - 1};
      }
    }
  }

  /** `n` distinct naturals below `n` are all of them. */
  lemma {:induction false} DistinctCovers(s: seq<nat>, x: nat)
    requires Distinct(s) && x < |s| && forall i :: 0 <= i < |s| ==> s[i] < |s|
    ensures x in s
  {
    DistinctSize(s);
    if x !in s {
      var moved := set y | y in Elems(s) :: if y == |s| - 1 then x else y;
      Renaming(Elems(s), |s| - 1, x);
      BoundedSetSize(moved, |s| - 1);
    }
  }

  /** Renaming one member of a set to a non-member keeps its size. */
  lemma {:induction false} Renaming(s: set<nat>, from: nat, to: nat)
    requires to !in s
    ensures |set y | y in s :: if y == from then to else y| == |s|
  {
    var moved := set y | y in s :: if y == from then to else y;
    if from in s {
      assert moved == (s - {from}) + {to};
    } else {
      assert moved == s;
    }
  }

  lemma {:induction false} AllBelow(s: set<nat>, k: nat)
    requires forall x: nat :: x in s <==> x < k
    ensures |s| == k
  {
    if k == 0 {
      assert s == {};
    } else {
      AllBelow(s - {k - 1}, k - 1);
      assert s == (s - {k - 1}) + {k - 1};
    }
  }

  lemma {:induction false} InjectiveValues(num: map<nat, nat>)
    requires forall b, c :: b in num && c in num && num[b] == num[c] ==> b == c
    ensures |num.Values| == |num.Keys|
  {
    if num.Keys == {} {
      assert num.Values == {};
    } else {
      var b :| b in num.Keys;
      var rest := num - {b};
      InjectiveValues(rest);
      assert rest.Keys == num.Keys - {b};
      assert num.Values == rest.Values + {num[b]} by {
        forall v | v in num.Values ensures v in rest.Values + {num[b]} {
          var c :| c in num && num[c] == v;
          assert c != b ==> c in rest && rest[c] == v;
        }
      }
      assert num[b] !in rest.Values;
    }
  }

  /** An arrangement of [0, n). */
  ghost predicate IsPermutation(s: seq<nat>) {
    Distinct(s) && forall i :: 0 <= i < |s| ==> s[i] < |s|
  }

  // ---- Sequences read from the back.

  function Backward<T>(s: seq<T>): (r: seq<T>)
    ensures |r| == |s|
  {
    if s == [] then [] else [s[|s| - 1]] + Backward(s[..|s| - 1])
  }

  lemma {:induction false} BackwardMembers<T>(s: seq<T>)
    requires Distinct(s)
    ensures Distinct(Backward(s)) && forall x :: x in Backward(s) <==> x in s
  {
    if s != [] {
      var rest := s[..|s| - 1];
      assert s == rest + [s[|s| - 1]] && s[|s| - 1] !in rest;
      BackwardMembers(rest);
    }
  }

  lemma {:induction false} BackwardSnoc<T>(x: T, s: seq<T>)
    ensures Backward([x] + s) == Backward(s) + [x]
  {
    if s == [] {
      assert [x] + s == [x] && Backward([x]) == [x] + Backward([]);
    } else {
      var all := [x] + s;
      assert all[..|all| - 1] == [x] + s[..|s| - 1];
      BackwardSnoc(x, s[..|s| - 1]);
    }
  }
}
