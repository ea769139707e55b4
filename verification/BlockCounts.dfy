/** How many blocks the optimizer ends with. */
module BlockCounts {
  // The table that says where each number comes from is kept in a buffer with one place per transition.

  import opened Automata
  import opened SeqFacts
  import opened Sorting
  import opened HopcroftTheory

  /** `blk` is what refining by observation ends with. */
  ghost predicate IsResult(A: Automaton, blk: seq<nat>) {
    exists initial :: ByObservation(A, initial) && CoarsestStable(A, initial, blk)
  }

  /** No state goes, or the blocks fit into a buffer with one place per transition. */
  ghost predicate StaysInside(A: Automaton) {
    forall blk: seq<nat> :: IsResult(A, blk) ==> |Elems(blk)| == A.states || |Elems(blk)| <= |A.trans|
  }

  /** A refinement has at least as many blocks. */
  lemma {:induction false} RefinesCounts(fine: seq<nat>, coarse: seq<nat>)
    requires Refines(fine, coarse)
    ensures |Elems(coarse)| <= |Elems(fine)|
    decreases |fine|
  {
    if |fine| == 0 {
      assert Elems(coarse) == {};
    } else {
      var n := |fine| - 1;
      var f, c := fine[..n], coarse[..n];
      RefinesCounts(f, c);
      ElemsSnoc(fine);
      ElemsSnoc(coarse);
      hide Elems;
      if fine[n] in f {
        var i :| 0 <= i < n && f[i] == fine[n];
        assert fine[i] == fine[n] && c[i] == coarse[n];
      }
    }
  }

  lemma ElemsSnoc(s: seq<nat>)
    requires s != []
    ensures |Elems(s)| == |Elems(s[..|s| - 1])| + if s[|s| - 1] in s[..|s| - 1] then 0 else 1
  {
    var rest, last := s[..|s| - 1], s[|s| - 1];
    assert s == rest + [last];
    assert Elems(s) == Elems(rest) + {last};
    if last in rest {
      assert Elems(s) == Elems(rest);
    }
  }

  lemma ObservationsAgree(A: Automaton, i1: seq<nat>, i2: seq<nat>)
    requires ByObservation(A, i1) && ByObservation(A, i2)
    ensures Refines(i1, i2)
  {
    forall p, q | 0 <= p < |i1| && 0 <= q < |i1| && i1[p] == i1[q] ensures i2[p] == i2[q] {
      assert SameObservations(A, p, q);
    }
  }

  /** Whatever the blocks are called, there are as many. */
  lemma SameCount(A: Automaton, b1: seq<nat>, b2: seq<nat>)
    requires IsResult(A, b1) && IsResult(A, b2)
    ensures |Elems(b1)| == |Elems(b2)|
  {
    var i1 :| ByObservation(A, i1) && CoarsestStable(A, i1, b1);
    var i2 :| ByObservation(A, i2) && CoarsestStable(A, i2, b2);
    ObservationsAgree(A, i1, i2);
    ObservationsAgree(A, i2, i1);
    hide ByObservation, Stable;
    RefinesTransitive(b1, i1, i2);
    RefinesTransitive(b2, i2, i1);
    RefinesCounts(b1, b2);
    RefinesCounts(b2, b1);
  }

  // ---- What the numbers of states and transitions alone decide.

  /** State 0 can go to 1, which accepts, and to 2, which is dead; 3, 4, .. up to `m` lead down to 2. */
  function Ladder(m: nat): (trans: set<Edge>)
    ensures forall e :: e in trans <==>
              e == Edge(0, 0, 1) || e == Edge(0, 0, 2) || (3 <= e.source <= m && e == Edge(e.source, 0, e.source - 1))
  {
    if m < 3 then {Edge(0, 0, 1), Edge(0, 0, 2)} else Ladder(m - 1) + {Edge(m, 0, m - 1)}
  }

  lemma {:induction false} LadderSize(m: nat)
    requires m >= 2
    ensures |Ladder(m)| == m
  {
    if m == 2 {
      assert Ladder(2) == {Edge(0, 0, 1), Edge(0, 0, 2)};
    } else {
      LadderSize(m - 1);
      assert Edge(m, 0, m - 1) !in Ladder(m - 1);
    }
  }

  /** With `m` transitions, `m + 1` blocks, the states above `m` being dead like 2. */
  function Witness(n: nat, m: nat): Automaton {
    Automaton(n, 1, Ladder(m), {1})
  }

  ghost function WitnessBlocks(n: nat, m: nat): (blk: seq<nat>)
    ensures |blk| == n && forall s :: 0 <= s < n ==> blk[s] == if s <= m then s else 2
  {
    seq(n, s => if s <= m then s else 2)
  }

  ghost function WitnessObservations(n: nat, m: nat): (initial: seq<nat>)
    ensures |initial| == n && forall s :: 0 <= s < n ==> initial[s] == if s == 1 then 1 else if s == 0 || 3 <= s <= m then 0 else 2
  {
    seq(n, s => if s == 1 then 1 else if s == 0 || 3 <= s <= m then 0 else 2)
  }

  /** Where the states of the witness go. */
  lemma WitnessSteps(n: nat, m: nat, s: nat, a: nat, t: nat)
    ensures Witness(n, m).Has(s, a, t) <==> a == 0 && ((s == 0 && (t == 1 || t == 2)) || (3 <= s <= m && t == s - 1))
  {
  }

  lemma WitnessCanStep(n: nat, m: nat, s: nat, a: nat)
    ensures Witness(n, m).CanStep(s, a) <==> a == 0 && (s == 0 || 3 <= s <= m)
  {
    var A := Witness(n, m);
    forall t: nat ensures A.Has(s, a, t) <==> a == 0 && ((s == 0 && (t == 1 || t == 2)) || (3 <= s <= m && t == s - 1)) {
      WitnessSteps(n, m, s, a, t);
    }
    if a == 0 && s == 0 {
      assert A.Has(s, a, 1);
    } else if a == 0 && 3 <= s <= m {
      assert A.Has(s, a, s - 1);
    }
  }

  lemma WitnessObserved(n: nat, m: nat)
    requires m >= 2 && n >= m + 2
    ensures ByObservation(Witness(n, m), WitnessObservations(n, m))
  {
    var A, initial := Witness(n, m), WitnessObservations(n, m);
    forall p, q | 0 <= p < n && 0 <= q < n ensures initial[p] == initial[q] <==> SameObservations(A, p, q) {
      forall a: nat ensures A.CanStep(p, a) <==> a == 0 && (p == 0 || 3 <= p <= m) {
        WitnessCanStep(n, m, p, a);
      }
      forall a: nat ensures A.CanStep(q, a) <==> a == 0 && (q == 0 || 3 <= q <= m) {
        WitnessCanStep(n, m, q, a);
      }
      hide A.CanStep;
      var zero: nat := 0;
      assert SameObservations(A, p, q) ==> (A.CanStep(p, zero) <==> A.CanStep(q, zero));
    }
  }

  lemma WitnessStable(n: nat, m: nat)
    requires m >= 2 && n >= m + 2
    ensures Stable(Witness(n, m), WitnessBlocks(n, m))
  {
    var A, blk := Witness(n, m), WitnessBlocks(n, m);
    forall p, q, a: nat, t: nat | 0 <= p < n && 0 <= q < n && blk[p] == blk[q] && A.Has(p, a, t) && t < n ensures Reaches(A, blk, q, a, blk[t]) {
      WitnessSteps(n, m, p, a, t);
      assert p == q;
    }
  }

  /** Rungs of different heights are told apart. */
  lemma {:induction false} RungsApart(n: nat, m: nat, other: seq<nat>, p: nat, q: nat)
    requires m >= 2 && n >= m + 2 && Stable(Witness(n, m), other) && Refines(other, WitnessObservations(n, m))
    requires 3 <= p < q <= m
    ensures other[p] != other[q]
    decreases p
  {
    if other[p] == other[q] {
      var A := Witness(n, m);
      WitnessSteps(n, m, p, 0, p - 1);
      assert Reaches(A, other, q, 0, other[p - 1]);
      var u: nat :| u < |other| && A.Has(q, 0, u) && other[u] == other[p - 1];
      WitnessSteps(n, m, q, 0, u);
      if p > 3 {
        RungsApart(n, m, other, p - 1, q - 1);
      }
    }
  }

  lemma TopApart(n: nat, m: nat, other: seq<nat>, q: nat)
    requires m >= 2 && n >= m + 2 && Stable(Witness(n, m), other) && Refines(other, WitnessObservations(n, m))
    requires 3 <= q <= m
    ensures other[0] != other[q]
  {
    var A := Witness(n, m);
    WitnessSteps(n, m, 0, 0, 1);
    forall u: nat | u < |other| && A.Has(q, 0, u) ensures other[u] != other[1] {
      WitnessSteps(n, m, q, 0, u);
      assert WitnessObservations(n, m)[u] != WitnessObservations(n, m)[1];
    }
    assert !Reaches(A, other, q, 0, other[1]);
  }

  lemma WitnessCoarsest(n: nat, m: nat)
    requires m >= 2 && n >= m + 2
    ensures IsResult(Witness(n, m), WitnessBlocks(n, m))
  {
    var A, blk, initial := Witness(n, m), WitnessBlocks(n, m), WitnessObservations(n, m);
    WitnessObserved(n, m);
    WitnessStable(n, m);
    assert Refines(blk, initial);
    forall other | Stable(A, other) && Refines(other, initial) ensures Refines(other, blk) {
      forall p, q | 0 <= p < n && 0 <= q < n && other[p] == other[q] ensures blk[p] == blk[q] {
        assert initial[p] == initial[q];
        WitnessPair(n, m, other, p, q);
      }
    }
  }

  lemma WitnessPair(n: nat, m: nat, other: seq<nat>, p: nat, q: nat)
    requires m >= 2 && n >= m + 2 && Stable(Witness(n, m), other) && Refines(other, WitnessObservations(n, m))
    requires p < n && q < n && other[p] == other[q]
    ensures WitnessBlocks(n, m)[p] == WitnessBlocks(n, m)[q]
  {
    var initial := WitnessObservations(n, m);
    assert initial[p] == initial[q];
    hide Stable;
    if initial[p] == 0 && p != q {
      if p == 0 {
        TopApart(n, m, other, q);
      } else if q == 0 {
        TopApart(n, m, other, p);
      } else if p < q {
        RungsApart(n, m, other, p, q);
      } else {
        RungsApart(n, m, other, q, p);
      }
    }
  }

  lemma WitnessCount(n: nat, m: nat)
    requires m >= 2 && n >= m + 2
    ensures |Elems(WitnessBlocks(n, m))| == m + 1
  {
    var blk := WitnessBlocks(n, m);
    forall x: nat ensures x in Elems(blk) <==> x <= m {
      if x <= m {
        assert blk[x] == x;
      }
    }
    AllBelow(Elems(blk), m + 1);
  }

  /** An NFA with n states, m transitions and some acceptance. */
  ghost predicate Sized(A: Automaton, n: nat, m: nat) {
    A.Valid() && A.states == n && |A.trans| == m && !A.Deterministic() && A.accept != {}
  }

  /** The counts alone guarantee room exactly if there are at most m + 1 states. */
  lemma CountsDecide(n: nat, m: nat)
    requires m >= 2
    ensures (forall A :: Sized(A, n, m) ==> StaysInside(A)) <==> n <= m + 1
  {
    if n <= m + 1 {
      forall A | Sized(A, n, m) ensures StaysInside(A) {
        forall blk: seq<nat> | IsResult(A, blk) ensures |Elems(blk)| == A.states || |Elems(blk)| <= |A.trans| {
          assert |blk| == n;
          ElemsSize(blk);
        }
      }
    } else {
      TooManyStates(n, m);
    }
  }

  /** The witness: more blocks than transitions, and some state goes. */
  lemma TooManyStates(n: nat, m: nat)
    requires m >= 2 && n >= m + 2
    ensures Sized(Witness(n, m), n, m) && !StaysInside(Witness(n, m))
  {
    var A := Witness(n, m);
    LadderSize(m);
    WitnessCoarsest(n, m);
    WitnessCount(n, m);
    assert A.Has(0, 0, 1) && A.Has(0, 0, 2);
    assert 1 in A.accept;
  }
}
