/** Shrinking once is enough. */
module QuotientBlocks {
  // The automaton of the blocks has one block for each state, so that there is nothing left to shrink.

  import opened Automata
  import opened SeqFacts
  import opened HopcroftTheory
  import opened Survivors
  import opened Quotients
  import opened BlockCounts

  /** No two states share a block. */
  ghost predicate Apart(A: Automaton) {
    exists blk: seq<nat> :: IsResult(A, blk) && |Elems(blk)| == A.states
  }

  /** Whatever the blocks are called, there are so many. */
  ghost predicate HasBlocks(A: Automaton, k: nat) {
    (exists blk: seq<nat> :: IsResult(A, blk)) && forall blk: seq<nat> :: IsResult(A, blk) ==> |Elems(blk)| == k
  }

  lemma ResultCounts(A: Automaton, blk: seq<nat>)
    requires IsResult(A, blk)
    ensures HasBlocks(A, |Elems(blk)|) && (Apart(A) <==> |Elems(blk)| == A.states)
  {
    hide IsResult;
    forall other: seq<nat> | IsResult(A, other) ensures |Elems(other)| == |Elems(blk)| {
      SameCount(A, other, blk);
    }
  }

  /** A state's row in the small automaton, seen from any member of its block. */
  lemma StepsCarryOver(A: Automaton, blk: seq<nat>, k: nat, remap: seq<nat>, comesFrom: seq<nat>, s: nat, a: nat, y: nat)
    requires A.Valid() && Stable(A, blk) && Renumbers(blk, k, remap, comesFrom) && s < A.states
    ensures Quotient(A, k, remap, comesFrom).Has(remap[s], a, y) <==> Arrives(A, s, a, remap, y)
  {
    var r := comesFrom[remap[s]];
    assert remap[r] == remap[s] && blk[r] == blk[s];
    MembersArrive(A, blk, k, remap, comesFrom, r, s, a, y);
    MembersArrive(A, blk, k, remap, comesFrom, s, r, a, y);
  }

  lemma MembersArrive(A: Automaton, blk: seq<nat>, k: nat, remap: seq<nat>, comesFrom: seq<nat>, p: nat, q: nat, a: nat, y: nat)
    requires Stable(A, blk) && Renumbers(blk, k, remap, comesFrom) && p < A.states && q < A.states && blk[p] == blk[q]
    ensures Arrives(A, p, a, remap, y) ==> Arrives(A, q, a, remap, y)
  {
    if Arrives(A, p, a, remap, y) {
      var t: nat :| t < |remap| && A.Has(p, a, t) && remap[t] == y;
      assert Reaches(A, blk, q, a, blk[t]);
      var u: nat :| u < |blk| && A.Has(q, a, u) && blk[u] == blk[t];
      assert remap[u] == y;
    }
  }

  lemma ObservationsCarryOver(A: Automaton, blk: seq<nat>, k: nat, remap: seq<nat>, comesFrom: seq<nat>, x: nat, y: nat)
    requires A.Valid() && Stable(A, blk) && Renumbers(blk, k, remap, comesFrom) && x < k && y < k
    ensures SameObservations(Quotient(A, k, remap, comesFrom), x, y) <==> SameObservations(A, comesFrom[x], comesFrom[y])
  {
    CanStepCarriesOver(A, k, remap, comesFrom, x);
    CanStepCarriesOver(A, k, remap, comesFrom, y);
  }

  lemma CanStepCarriesOver(A: Automaton, k: nat, remap: seq<nat>, comesFrom: seq<nat>, x: nat)
    requires A.Valid() && |remap| == A.states && k <= |comesFrom| && x < k
    ensures forall a: nat :: Quotient(A, k, remap, comesFrom).CanStep(x, a) <==> A.CanStep(comesFrom[x], a)
  {
    var B := Quotient(A, k, remap, comesFrom);
    forall a: nat ensures B.CanStep(x, a) <==> A.CanStep(comesFrom[x], a) {
      if B.CanStep(x, a) {
        var y: nat :| B.Has(x, a, y);
        var t: nat :| t < |remap| && A.Has(comesFrom[x], a, t) && remap[t] == y;
      }
      if A.CanStep(comesFrom[x], a) {
        var t: nat :| A.Has(comesFrom[x], a, t);
        assert Edge(comesFrom[x], a, t) in A.trans;
        assert Arrives(A, comesFrom[x], a, remap, remap[t]);
        assert B.Has(x, a, remap[t]);
      }
    }
  }

  /** A partition of the numbers, as one of the states. */
  ghost function Lifted(remap: seq<nat>, small: seq<nat>): (lifted: seq<nat>)
    requires forall s :: 0 <= s < |remap| ==> remap[s] < |small|
    ensures |lifted| == |remap| && forall s :: 0 <= s < |remap| ==> lifted[s] == small[remap[s]]
  {
    seq(|remap|, s requires 0 <= s < |remap| => small[remap[s]])
  }

  lemma LiftedStable(A: Automaton, blk: seq<nat>, k: nat, remap: seq<nat>, comesFrom: seq<nat>, small: seq<nat>)
    requires A.Valid() && Stable(A, blk) && Renumbers(blk, k, remap, comesFrom) && Stable(Quotient(A, k, remap, comesFrom), small)
    ensures Stable(A, Lifted(remap, small))
  {
    var B, lifted := Quotient(A, k, remap, comesFrom), Lifted(remap, small);
    forall p, q, a: nat, t: nat | 0 <= p < |lifted| && 0 <= q < |lifted| && lifted[p] == lifted[q] && A.Has(p, a, t) && t < |lifted|
      ensures Reaches(A, lifted, q, a, lifted[t])
    {
      StepsCarryOver(A, blk, k, remap, comesFrom, p, a, remap[t]);
      assert Arrives(A, p, a, remap, remap[t]);
      assert Reaches(B, small, remap[q], a, small[remap[t]]);
      var y: nat :| y < |small| && B.Has(remap[q], a, y) && small[y] == small[remap[t]];
      StepsCarryOver(A, blk, k, remap, comesFrom, q, a, y);
      var u: nat :| u < |remap| && A.Has(q, a, u) && remap[u] == y;
      assert lifted[u] == lifted[t];
    }
  }

  ghost function Identity(k: nat): (id: seq<nat>)
    ensures |id| == k && forall x :: 0 <= x < k ==> id[x] == x
  {
    seq(k, x => x)
  }

  /** What the small automaton starts from. */
  ghost function Lowered(initial: seq<nat>, k: nat, comesFrom: seq<nat>): (lowered: seq<nat>)
    requires k <= |comesFrom| && forall x :: 0 <= x < k ==> comesFrom[x] < |initial|
    ensures |lowered| == k && forall x :: 0 <= x < k ==> lowered[x] == initial[comesFrom[x]]
  {
    seq(k, x requires 0 <= x < k => initial[comesFrom[x]])
  }

  lemma LoweredByObservation(A: Automaton, initial: seq<nat>, blk: seq<nat>, k: nat, remap: seq<nat>, comesFrom: seq<nat>)
    requires A.Valid() && ByObservation(A, initial) && Stable(A, blk) && Renumbers(blk, k, remap, comesFrom)
    ensures ByObservation(Quotient(A, k, remap, comesFrom), Lowered(initial, k, comesFrom))
  {
    var B, lowered := Quotient(A, k, remap, comesFrom), Lowered(initial, k, comesFrom);
    forall x, y | 0 <= x < k && 0 <= y < k ensures lowered[x] == lowered[y] <==> SameObservations(B, x, y) {
      ObservationsCarryOver(A, blk, k, remap, comesFrom, x, y);
    }
  }

  /** No stable refinement of the small automaton's observations has two states in one block. */
  lemma SmallBlocksAreSingle(A: Automaton, initial: seq<nat>, blk: seq<nat>, k: nat, remap: seq<nat>, comesFrom: seq<nat>, small: seq<nat>)
    requires A.Valid() && ByObservation(A, initial) && CoarsestStable(A, initial, blk) && Renumbers(blk, k, remap, comesFrom)
    requires Stable(Quotient(A, k, remap, comesFrom), small) && Refines(small, Lowered(initial, k, comesFrom))
    ensures Refines(small, Identity(k))
  {
    var lifted := Lifted(remap, small);
    LiftedStable(A, blk, k, remap, comesFrom, small);
    forall p, q | 0 <= p < |lifted| && 0 <= q < |lifted| && lifted[p] == lifted[q] ensures initial[p] == initial[q] {
      var r, s := comesFrom[remap[p]], comesFrom[remap[q]];
      assert remap[r] == remap[p] && remap[s] == remap[q];
      assert initial[r] == initial[s] && initial[r] == initial[p] && initial[s] == initial[q];
    }
    assert Refines(lifted, initial);
    forall x, y | 0 <= x < k && 0 <= y < k && small[x] == small[y] ensures x == y {
      assert remap[comesFrom[x]] == x && remap[comesFrom[y]] == y;
      assert lifted[comesFrom[x]] == lifted[comesFrom[y]];
    }
  }

  /** The automaton of the blocks has as many blocks as states. */
  lemma QuotientApart(A: Automaton, initial: seq<nat>, blk: seq<nat>, k: nat, remap: seq<nat>, comesFrom: seq<nat>)
    requires A.Valid() && ByObservation(A, initial) && CoarsestStable(A, initial, blk) && Renumbers(blk, k, remap, comesFrom)
    ensures HasBlocks(Quotient(A, k, remap, comesFrom), k)
  {
    var B, id, lowered := Quotient(A, k, remap, comesFrom), Identity(k), Lowered(initial, k, comesFrom);
    LoweredByObservation(A, initial, blk, k, remap, comesFrom);
    assert Stable(B, id) by {
      IdentityStable(B);
    }
    forall other | Stable(B, other) && Refines(other, lowered) ensures Refines(other, id) {
      SmallBlocksAreSingle(A, initial, blk, k, remap, comesFrom, other);
    }
    assert CoarsestStable(B, lowered, id);
    assert IsResult(B, id);
    ResultCounts(B, id);
    forall x: nat ensures x in Elems(id) <==> x < k {
      if x < k {
        assert id[x] == x;
      }
    }
    AllBelow(Elems(id), k);
  }

  lemma IdentityStable(B: Automaton)
    ensures Stable(B, Identity(B.states))
  {
    var id := Identity(B.states);
    forall p, q, a: nat, t: nat | 0 <= p < |id| && 0 <= q < |id| && id[p] == id[q] && B.Has(p, a, t) && t < |id| ensures Reaches(B, id, q, a, id[t]) {
      assert t < |id| && B.Has(q, a, t) && id[t] == id[t];
    }
  }
}
