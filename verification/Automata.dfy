/** Finite automata and the words they accept. */
module Automata {
  // State 0 is the initial state. A transition is a (source, symbol, target) triple; an automaton that has no
  // transition to follow crashes.

  datatype Edge = Edge(source: nat, symbol: nat, target: nat)

  datatype Automaton = Automaton(states: nat, symbols: nat, trans: set<Edge>, accept: set<nat>) {

    ghost predicate Valid() {
      && (forall e :: e in trans ==> e.source < states && e.symbol < symbols && e.target < states)
      && (forall s :: s in accept ==> s < states)
    }

    predicate Has(s: nat, a: nat, t: nat) {
      Edge(s, a, t) in trans
    }

    ghost predicate CanStep(s: nat, a: nat) {
      exists t: nat :: Has(s, a, t)
    }

    /** The executable form of `CanStep`. */
    predicate Steps(s: nat, a: nat)
      ensures Steps(s, a) <==> CanStep(s, a)
    {
      assert CanStep(s, a) ==> exists t: nat :: Edge(s, a, t) in trans by {
        if CanStep(s, a) {
          var t: nat :| Has(s, a, t);
        }
      }
      assert forall e :: e in trans && e.source == s && e.symbol == a ==> Has(s, a, e.target);
      exists e :: e in trans && e.source == s && e.symbol == a
    }

    ghost predicate Deterministic() {
      forall s: nat, a: nat, t: nat, u: nat :: Has(s, a, t) && Has(s, a, u) ==> t == u
    }
  }

  /** Does the automaton, started in state `s`, accept the word `w`? */
  ghost predicate Accepts(A: Automaton, s: nat, w: seq<nat>)
    decreases |w|
  {
    if w == [] then s in A.accept
    else exists t: nat :: A.Has(s, w[0], t) && Accepts(A, t, w[1..])
  }

  lemma EdgeBounds(A: Automaton, s: nat, a: nat, t: nat)
    requires A.Valid()
    ensures A.Has(s, a, t) ==> s < A.states && a < A.symbols && t < A.states
  {
  }

  lemma {:induction false} NeverAccepts(A: Automaton, s: nat, w: seq<nat>)
    requires A.accept == {}
    ensures !Accepts(A, s, w)
    decreases |w|
  {
    if w != [] && Accepts(A, s, w) {
      var t: nat :| A.Has(s, w[0], t) && Accepts(A, t, w[1..]);
      NeverAccepts(A, t, w[1..]);
    }
  }

  /** Each state's outgoing transitions as (symbol, destination) pairs. */
  type Rows = seq<seq<(nat, nat)>>

  ghost predicate RowsOf(A: Automaton, rows: Rows) {
    && A.Valid() && A.states > 0 && |rows| == A.states
    && forall s: nat, a: nat, t: nat :: s < |rows| ==> ((a, t) in rows[s] <==> A.Has(s, a, t))
  }

  ghost predicate SameLanguage(A: Automaton, p: nat, q: nat) {
    forall w :: Accepts(A, p, w) <==> Accepts(A, q, w)
  }

  /** Copies what `to` can do to `from`, as an empty step would allow. */
  function AddEpsilon(A: Automaton, from: nat, to: nat): Automaton {
    A.(trans := A.trans + (set e | e in A.trans && e.source == to :: Edge(from, e.symbol, e.target)),
       accept := if to in A.accept then A.accept + {from} else A.accept)
  }

  lemma EpsilonHas(A: Automaton, from: nat, to: nat)
    ensures forall s: nat, a: nat, t: nat :: AddEpsilon(A, from, to).Has(s, a, t) <==> A.Has(s, a, t) || (s == from && A.Has(to, a, t))
    ensures forall s :: s in AddEpsilon(A, from, to).accept <==> s in A.accept || (s == from && to in A.accept)
  {
    var B := AddEpsilon(A, from, to);
    forall s: nat, a: nat, t: nat ensures B.Has(s, a, t) <==> A.Has(s, a, t) || (s == from && A.Has(to, a, t)) {
      if A.Has(to, a, t) {
        var e := Edge(to, a, t);
        assert Edge(from, e.symbol, e.target) in B.trans;
      }
    }
  }

  // ---- Partitions of the states, given as one block number per state.

  ghost predicate Refines(fine: seq<nat>, coarse: seq<nat>) {
    && |fine| == |coarse|
    && forall p, q :: 0 <= p < |fine| && 0 <= q < |fine| && fine[p] == fine[q] ==> coarse[p] == coarse[q]
  }

  lemma RefinesTransitive(fine: seq<nat>, middle: seq<nat>, coarse: seq<nat>)
    requires Refines(fine, middle) && Refines(middle, coarse)
    ensures Refines(fine, coarse)
  {
  }

  /** Blocks agree on acceptance and on which symbols crash. */
  ghost predicate Uniform(A: Automaton, blk: seq<nat>) {
    && |blk| == A.states
    && forall p, q :: 0 <= p < |blk| && 0 <= q < |blk| && blk[p] == blk[q] ==> SameObservations(A, p, q)
  }

  ghost predicate SameObservations(A: Automaton, p: nat, q: nat) {
    && (p in A.accept <==> q in A.accept)
    && forall a :: A.CanStep(p, a) <==> A.CanStep(q, a)
  }

  /** If one member of a block can reach block C on a symbol, all its members can. */
  ghost predicate Stable(A: Automaton, blk: seq<nat>) {
    && |blk| == A.states
    && forall p, q, a: nat, t: nat :: 0 <= p < |blk| && 0 <= q < |blk| && blk[p] == blk[q] && A.Has(p, a, t) && t < |blk|
         ==> Reaches(A, blk, q, a, blk[t])
  }

  ghost predicate Reaches(A: Automaton, blk: seq<nat>, q: nat, a: nat, c: nat) {
    exists u: nat :: u < |blk| && A.Has(q, a, u) && blk[u] == c
  }

  /** `blk` is the coarsest stable partition that refines `initial`. */
  ghost predicate CoarsestStable(A: Automaton, initial: seq<nat>, blk: seq<nat>) {
    && Stable(A, blk) && Refines(blk, initial)
    && forall other :: Stable(A, other) && Refines(other, initial) ==> Refines(other, blk)
  }

  /** States that share a block of a stable, accept-uniform partition accept the same words. */
  lemma {:induction false} StableMeansSameLanguage(A: Automaton, blk: seq<nat>, p: nat, q: nat, w: seq<nat>)
    requires A.Valid() && Stable(A, blk) && Uniform(A, blk)
    requires p < A.states && q < A.states && blk[p] == blk[q]
    ensures Accepts(A, p, w) <==> Accepts(A, q, w)
    decreases |w|
  {
    assert SameObservations(A, p, q);
    if w != [] {
      StableOneWay(A, blk, p, q, w);
      StableOneWay(A, blk, q, p, w);
    }
  }

  lemma {:induction false} StableOneWay(A: Automaton, blk: seq<nat>, p: nat, q: nat, w: seq<nat>)
    requires A.Valid() && Stable(A, blk) && Uniform(A, blk)
    requires p < A.states && q < A.states && blk[p] == blk[q] && w != []
    ensures Accepts(A, p, w) ==> Accepts(A, q, w)
    decreases |w|, 0
  {
    if Accepts(A, p, w) {
      var t: nat :| A.Has(p, w[0], t) && Accepts(A, t, w[1..]);
      assert Edge(p, w[0], t) in A.trans;
      assert Reaches(A, blk, q, w[0], blk[t]);
      var u: nat :| u < |blk| && A.Has(q, w[0], u) && blk[u] == blk[t];
      StableMeansSameLanguage(A, blk, t, u, w[1..]);
    }
  }
}
