/** What one pass of splitting blocks by a set of states does to a partition, as values. */
module PartitionRefinement {
  import opened Automata
  import opened RefinablePartitions

  /** Blocks are not cut by `X` except those listed. */
  ghost predicate CutOnlyIn(blk: seq<nat>, X: set<nat>, blocks: seq<nat>) {
    forall p, q :: 0 <= p < |blk| && 0 <= q < |blk| && blk[p] == blk[q] && p in X && q !in X ==> blk[p] in blocks
  }

  /** Every stable partition that refines `before` refines `after`. */
  ghost predicate KeepsStable(A: Automaton, before: seq<nat>, after: seq<nat>) {
    forall other :: Stable(A, other) && Refines(other, before) ==> Refines(other, after)
  }

  /** No stable partition that refines `base` joins a state of `X` with one outside it. */
  ghost predicate Respected(A: Automaton, base: seq<nat>, X: set<nat>) {
    forall other, p: nat, q: nat ::
      Stable(A, other) && Refines(other, base) && p < |base| && q < |base| && other[p] == other[q] && p in X ==> q in X
  }

  /** The states that step on `a` into block `c`. */
  ghost function Preimage(A: Automaton, blk: seq<nat>, c: nat, a: nat): set<nat> {
    set s | 0 <= s < |blk| && Reaches(A, blk, s, a, c)
  }

  /** State `s` has an a-successor among the targets. */
  ghost predicate PointsInto(A: Automaton, s: nat, a: nat, targets: seq<nat>) {
    exists t :: t in targets && A.Has(s, a, t)
  }

  /** A stable partition never separates states by whether they step into one block of a coarser partition. */
  lemma PreimageIsRespected(A: Automaton, base: seq<nat>, blk: seq<nat>, c: nat, a: nat)
    requires A.Valid() && KeepsStable(A, base, blk) && |base| == |blk|
    ensures Respected(A, base, Preimage(A, blk, c, a))
  {
    var X := Preimage(A, blk, c, a);
    forall other, p: nat, q: nat | Stable(A, other) && Refines(other, base) && p < |base| && q < |base| && other[p] == other[q] && p in X
      ensures q in X
    {
      assert Refines(other, blk);
      var t: nat :| t < |blk| && A.Has(p, a, t) && blk[t] == c;
      assert Reaches(A, other, q, a, other[t]);
      var u: nat :| u < |other| && A.Has(q, a, u) && other[u] == other[t];
      assert blk[u] == c;
    }
  }

  /** Splitting a block by a respected set breaks no stable partition. */
  lemma SplitKeepsStable(A: Automaton, base: seq<nat>, blk: seq<nat>, X: set<nat>, part: nat, marked: set<nat>, newPart: nat)
    requires KeepsStable(A, base, blk) && |blk| == |base| && Respected(A, base, X)
    requires forall s :: 0 <= s < |blk| && blk[s] == part ==> (s in marked <==> s in X)
    ensures KeepsStable(A, base, SplitOff(blk, part, marked, newPart))
  {
    var now := SplitOff(blk, part, marked, newPart);
    forall other | Stable(A, other) && Refines(other, base) ensures Refines(other, now) {
      assert Refines(other, blk);
      forall p: nat, q: nat | p < |other| && q < |other| && other[p] == other[q] ensures now[p] == now[q] {
        assert p in X <==> q in X;
      }
    }
  }

  lemma KeepsStableChains(A: Automaton, first: seq<nat>, second: seq<nat>, third: seq<nat>)
    requires KeepsStable(A, first, second) && KeepsStable(A, second, third)
    ensures KeepsStable(A, first, third)
  {
  }

  lemma UniformPassesDown(A: Automaton, initial: seq<nat>, blk: seq<nat>)
    requires Uniform(A, initial) && Refines(blk, initial)
    ensures Uniform(A, blk)
  {
  }

  lemma SplitRefines(initial: seq<nat>, blk: seq<nat>, part: nat, marked: set<nat>, newPart: nat)
    requires Refines(blk, initial) && forall s :: 0 <= s < |blk| ==> blk[s] < newPart
    ensures Refines(SplitOff(blk, part, marked, newPart), initial)
  {
    var now := SplitOff(blk, part, marked, newPart);
    assert forall p, q :: 0 <= p < |now| && 0 <= q < |now| && now[p] == now[q] ==> blk[p] == blk[q];
  }

  /**
   What holds between two blocks of a pass that splits by `X`: the blocks still to come are the only
   ones `X` cuts, their marks are intact, and no stable partition has been broken.
   */
  ghost predicate SplittingBy(A: Automaton, base: seq<nat>, before: seq<nat>, blk: seq<nat>, X: set<nat>,
                              marked: set<nat>, rest: seq<nat>, count: nat)
  {
    && |blk| == |before| == |base| && (forall s :: 0 <= s < |blk| ==> blk[s] < count)
    && CutOnlyIn(blk, X, rest)
    && (forall s :: s in marked ==> s < |blk| && blk[s] in rest)
    && (forall s :: 0 <= s < |blk| && blk[s] in rest ==> (s in marked <==> s in X))
    && Refines(blk, before) && KeepsStable(A, base, blk)
  }

  /** Before the first block. */
  lemma SplittingStarts(A: Automaton, base: seq<nat>, blk: seq<nat>, X: set<nat>, suspects: seq<nat>, count: nat)
    requires |blk| == |base| && KeepsStable(A, base, blk) && forall s :: 0 <= s < |blk| ==> blk[s] < count
    requires forall s :: s in X ==> s < |blk| && blk[s] in suspects
    ensures SplittingBy(A, base, blk, blk, X, X, suspects, count)
  {
  }

  /** After the last block. */
  lemma SplittingEnds(A: Automaton, base: seq<nat>, before: seq<nat>, blk: seq<nat>, X: set<nat>, marked: set<nat>, count: nat)
    requires SplittingBy(A, base, before, blk, X, marked, [], count)
    ensures CutOnlyIn(blk, X, []) && Refines(blk, before) && KeepsStable(A, base, blk) && marked == {}
  {
  }

  lemma SplittingStep(A: Automaton, base: seq<nat>, before: seq<nat>, blk: seq<nat>, X: set<nat>,
                      marked: set<nat>, part: nat, rest: seq<nat>, count: nat)
    requires Respected(A, base, X) && part < count && part !in rest && forall b :: b in rest ==> b < count
    requires SplittingBy(A, base, before, blk, X, marked, [part] + rest, count)
    ensures Members(blk, part) <= marked ==>
              SplittingBy(A, base, before, blk, X, marked - Members(blk, part), rest, count)
    ensures SplittingBy(A, base, before, SplitOff(blk, part, marked, count), X, marked - Members(blk, part), rest, count + 1)
  {
    assert forall s :: 0 <= s < |blk| && blk[s] == part ==> blk[s] in [part] + rest;
    SplitKeepsStable(A, base, blk, X, part, marked, count);
    SplitRefines(before, blk, part, marked, count);
  }
}
