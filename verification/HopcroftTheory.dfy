/** Why Hopcroft's worklist is enough. */
module HopcroftTheory {
  // The facts here are about partitions as values; `Hopcroft.dfy` keeps them true of the arrays.

  import opened Automata
  import opened SeqFacts
  import opened RefinablePartitions
  import opened PartitionRefinement

  /**
   If two states share a block but step on `a` into different blocks, one of those blocks waits
   with `a`, or the two states are about to be separated because just one of them is in `X`.
   */
  ghost predicate Pending(A: Automaton, blk: seq<nat>, waiting: set<(nat, nat)>, X: set<nat>, symbol: nat) {
    && |blk| == A.states
    && forall p: nat, q: nat, a: nat, t: nat, u: nat :: Clash(A, blk, p, q, a, t, u)
         ==> (blk[t], a) in waiting || (blk[u], a) in waiting || (a == symbol && (p in X) != (q in X))
  }

  /** `p` and `q` share a block but step on `a` to `t` and `u`, which do not. */
  ghost predicate Clash(A: Automaton, blk: seq<nat>, p: nat, q: nat, a: nat, t: nat, u: nat) {
    && A.Has(p, a, t) && A.Has(q, a, u) && p < |blk| && q < |blk| && t < |blk| && u < |blk|
    && blk[p] == blk[q] && blk[t] != blk[u]
  }

  lemma PopLeavesPending(A: Automaton, blk: seq<nat>, waiting: set<(nat, nat)>, c: nat, a: nat)
    requires A.Valid() && A.Deterministic() && Pending(A, blk, waiting, {}, 0)
    ensures Pending(A, blk, waiting - {(c, a)}, Preimage(A, blk, c, a), a)
  {
    var X := Preimage(A, blk, c, a);
    forall p: nat, t: nat | A.Has(p, a, t) && p < |blk| && t < |blk|
      ensures p in X <==> blk[t] == c
    {
      if p in X {
        var u: nat :| u < |blk| && A.Has(p, a, u) && blk[u] == c;
        assert t == u;
      }
    }
  }

  /** The waiting set after block `part` was cut and `newPart` created. */
  ghost predicate Requeued(waiting: set<(nat, nat)>, after: set<(nat, nat)>, part: nat, newPart: nat, symbols: nat) {
    && waiting <= after
    && forall b :: 0 <= b < symbols ==>
         if (part, b) in waiting then (newPart, b) in after else (part, b) in after || (newPart, b) in after
  }

  lemma SplitKeepsPending(A: Automaton, blk: seq<nat>, waiting: set<(nat, nat)>, after: set<(nat, nat)>,
                          X: set<nat>, symbol: nat, part: nat, marked: set<nat>, newPart: nat)
    requires A.Valid() && Pending(A, blk, waiting, X, symbol)
    requires forall s :: 0 <= s < |blk| ==> blk[s] < newPart
    requires part < newPart && Requeued(waiting, after, part, newPart, A.symbols)
    ensures Pending(A, SplitOff(blk, part, marked, newPart), after, X, symbol)
  {
    var now := SplitOff(blk, part, marked, newPart);
    forall p: nat, q: nat, a: nat, t: nat, u: nat | Clash(A, now, p, q, a, t, u)
      ensures (now[t], a) in after || (now[u], a) in after || (a == symbol && (p in X) != (q in X))
    {
      assert Edge(p, a, t) in A.trans;
      assert blk[p] == blk[q];
      if blk[t] == blk[u] {
        assert blk[t] == part;
      } else {
        assert Clash(A, blk, p, q, a, t, u);
      }
    }
  }

  lemma UncutMeansIdle(A: Automaton, blk: seq<nat>, waiting: set<(nat, nat)>, X: set<nat>, symbol: nat)
    requires Pending(A, blk, waiting, X, symbol) && CutOnlyIn(blk, X, [])
    ensures Pending(A, blk, waiting, {}, 0)
  {
    forall p: nat, q: nat, a: nat, t: nat, u: nat | Clash(A, blk, p, q, a, t, u)
      ensures (blk[t], a) in waiting || (blk[u], a) in waiting
    {
      assert blk[p] == blk[q];
    }
  }

  lemma IdleMeansStable(A: Automaton, blk: seq<nat>)
    requires A.Valid() && Uniform(A, blk) && Pending(A, blk, {}, {}, 0)
    ensures Stable(A, blk)
  {
    forall p, q, a: nat, t: nat | 0 <= p < |blk| && 0 <= q < |blk| && blk[p] == blk[q] && A.Has(p, a, t) && t < |blk|
      ensures Reaches(A, blk, q, a, blk[t])
    {
      assert SameObservations(A, p, q);
      assert A.CanStep(p, a);
      var u: nat :| A.Has(q, a, u);
      assert Edge(q, a, u) in A.trans;
      assert !Clash(A, blk, p, q, a, t, u);
    }
  }

  /** All blocks but one waiting, with every symbol, is a sound start. */
  lemma AllButOnePending(A: Automaton, blk: seq<nat>, waiting: set<(nat, nat)>, one: nat)
    requires A.Valid() && |blk| == A.states
    requires forall s, a :: 0 <= s < |blk| && 0 <= a < A.symbols && blk[s] != one ==> (blk[s], a) in waiting
    ensures Pending(A, blk, waiting, {}, 0)
  {
    forall p: nat, q: nat, a: nat, t: nat, u: nat | Clash(A, blk, p, q, a, t, u)
      ensures (blk[t], a) in waiting || (blk[u], a) in waiting
    {
      assert Edge(p, a, t) in A.trans;
    }
  }

  /** As many non-empty blocks as states: nothing is left to split. */
  lemma {:induction false} SingletonsAreStable(A: Automaton, blk: seq<nat>)
    requires A.Valid() && |blk| == A.states
    requires forall p, q :: 0 <= p < q < |blk| ==> blk[p] != blk[q]
    ensures Stable(A, blk)
  {
    forall p, q, a: nat, t: nat | 0 <= p < |blk| && 0 <= q < |blk| && blk[p] == blk[q] && A.Has(p, a, t) && t < |blk|
      ensures Reaches(A, blk, q, a, blk[t])
    {
      assert p == q;
    }
  }

  // ---- Languages.

  /** Same-language states agree on which symbols crash. */
  ghost predicate CrashesAgree(A: Automaton) {
    forall p, q, a :: 0 <= p < A.states && 0 <= q < A.states && SameLanguage(A, p, q) && A.CanStep(p, a) ==> A.CanStep(q, a)
  }

  ghost predicate Live(A: Automaton, s: nat) {
    exists w :: Accepts(A, s, w)
  }

  /** If every state can reach acceptance then same-language states agree on crashes. */
  lemma LiveMeansCrashesAgree(A: Automaton)
    requires A.Valid() && forall s :: 0 <= s < A.states ==> Live(A, s)
    ensures CrashesAgree(A)
  {
    forall p, q, a | 0 <= p < A.states && 0 <= q < A.states && SameLanguage(A, p, q) && A.CanStep(p, a)
      ensures A.CanStep(q, a)
    {
      var t: nat :| A.Has(p, a, t);
      assert Edge(p, a, t) in A.trans;
      assert Live(A, t);
      var w :| Accepts(A, t, w);
      assert ([a] + w)[1..] == w;
      assert Accepts(A, p, [a] + w);
      assert Accepts(A, q, [a] + w);
    }
  }

  /** In a DFA, after equal first letters, same-language states reach same-language states. */
  lemma SameLanguageSteps(A: Automaton, p: nat, q: nat, a: nat, t: nat, u: nat)
    requires A.Valid() && A.Deterministic() && SameLanguage(A, p, q) && A.Has(p, a, t) && A.Has(q, a, u)
    ensures SameLanguage(A, t, u)
  {
    forall w ensures Accepts(A, t, w) <==> Accepts(A, u, w) {
      assert ([a] + w)[1..] == w;
      assert Accepts(A, p, [a] + w) <==> Accepts(A, q, [a] + w);
      assert Accepts(A, p, [a] + w) <==> Accepts(A, t, w);
      assert Accepts(A, q, [a] + w) <==> Accepts(A, u, w);
    }
  }

  /** The least state with the same language: a block number per state for language equality. */
  ghost function Representative(A: Automaton, s: nat): nat
    requires s < A.states
    ensures Representative(A, s) <= s && SameLanguage(A, Representative(A, s), s)
    ensures forall r :: 0 <= r < Representative(A, s) ==> !SameLanguage(A, r, s)
  {
    Least(A, s, 0)
  }

  ghost function Least(A: Automaton, s: nat, from: nat): (r: nat)
    requires from <= s && forall q :: 0 <= q < from ==> !SameLanguage(A, q, s)
    ensures r <= s && SameLanguage(A, r, s) && forall q :: 0 <= q < r ==> !SameLanguage(A, q, s)
    decreases s - from
  {
    if SameLanguage(A, from, s) then from else Least(A, s, from + 1)
  }

  ghost function ByLanguage(A: Automaton): seq<nat> {
    seq(A.states, s requires 0 <= s < A.states => Representative(A, s))
  }

  lemma ByLanguageJoins(A: Automaton, p: nat, q: nat)
    requires p < A.states && q < A.states
    ensures ByLanguage(A)[p] == ByLanguage(A)[q] <==> SameLanguage(A, p, q)
  {
    if SameLanguage(A, p, q) {
      var r, s := Representative(A, p), Representative(A, q);
      assert SameLanguage(A, r, q) && SameLanguage(A, s, p);
    } else {
      assert exists w :: Accepts(A, p, w) != Accepts(A, q, w);
      var w :| Accepts(A, p, w) != Accepts(A, q, w);
      assert Accepts(A, Representative(A, p), w) == Accepts(A, p, w);
      assert Accepts(A, Representative(A, q), w) == Accepts(A, q, w);
    }
  }

  /** Language equality is a stable partition exactly when same-language states agree on crashes. */
  lemma LanguageIsStable(A: Automaton)
    requires A.Valid() && A.Deterministic()
    ensures Stable(A, ByLanguage(A)) <==> CrashesAgree(A)
  {
    var lang := ByLanguage(A);
    if CrashesAgree(A) {
      forall p, q, a: nat, t: nat | 0 <= p < |lang| && 0 <= q < |lang| && lang[p] == lang[q] && A.Has(p, a, t) && t < |lang|
        ensures Reaches(A, lang, q, a, lang[t])
      {
        ByLanguageJoins(A, p, q);
        assert A.CanStep(p, a);
        var u: nat :| A.Has(q, a, u);
        assert Edge(q, a, u) in A.trans;
        SameLanguageSteps(A, p, q, a, t, u);
        ByLanguageJoins(A, t, u);
      }
    }
    if Stable(A, lang) {
      forall p, q, a | 0 <= p < A.states && 0 <= q < A.states && SameLanguage(A, p, q) && A.CanStep(p, a)
        ensures A.CanStep(q, a)
      {
        ByLanguageJoins(A, p, q);
        var t: nat :| A.Has(p, a, t);
        assert Edge(p, a, t) in A.trans;
        assert Reaches(A, lang, q, a, lang[t]);
      }
    }
  }

  /** The initial partition: states with the same acceptance and crash pattern, and only those, share a block. */
  ghost predicate ByObservation(A: Automaton, initial: seq<nat>) {
    && |initial| == A.states
    && forall p, q :: 0 <= p < |initial| && 0 <= q < |initial| ==> (initial[p] == initial[q] <==> SameObservations(A, p, q))
  }

  /**
   The result of minimization: two states share a block only if they accept the same words, and
   they do so for all such pairs if and only if same-language states agree on crashes.
   */
  lemma BlocksAreLanguages(A: Automaton, initial: seq<nat>, blk: seq<nat>)
    requires A.Valid() && A.Deterministic() && ByObservation(A, initial) && CoarsestStable(A, initial, blk)
    ensures forall p, q :: 0 <= p < A.states && 0 <= q < A.states && blk[p] == blk[q] ==> SameLanguage(A, p, q)
    ensures (forall p, q :: 0 <= p < A.states && 0 <= q < A.states && SameLanguage(A, p, q) ==> blk[p] == blk[q]) <==> CrashesAgree(A)
  {
    assert Uniform(A, blk);
    forall p, q | 0 <= p < A.states && 0 <= q < A.states && blk[p] == blk[q] ensures SameLanguage(A, p, q) {
      forall w ensures Accepts(A, p, w) <==> Accepts(A, q, w) {
        StableMeansSameLanguage(A, blk, p, q, w);
      }
    }
    if CrashesAgree(A) {
      LanguageIsStable(A);
      var lang := ByLanguage(A);
      LanguageRefinesObservation(A, initial);
      assert Refines(lang, blk);
      forall p, q | 0 <= p < A.states && 0 <= q < A.states && SameLanguage(A, p, q) ensures blk[p] == blk[q] {
        ByLanguageJoins(A, p, q);
      }
    }
    if forall p, q :: 0 <= p < A.states && 0 <= q < A.states && SameLanguage(A, p, q) ==> blk[p] == blk[q] {
      forall p, q, a | 0 <= p < A.states && 0 <= q < A.states && SameLanguage(A, p, q) && A.CanStep(p, a)
        ensures A.CanStep(q, a)
      {
        assert SameObservations(A, p, q);
      }
    }
  }

  lemma LanguageRefinesObservation(A: Automaton, initial: seq<nat>)
    requires A.Valid() && ByObservation(A, initial) && CrashesAgree(A)
    ensures Refines(ByLanguage(A), initial)
  {
    var lang := ByLanguage(A);
    forall p, q | 0 <= p < |lang| && 0 <= q < |lang| && lang[p] == lang[q] ensures initial[p] == initial[q] {
      ByLanguageJoins(A, p, q);
      assert Accepts(A, p, []) <==> Accepts(A, q, []);
      assert SameLanguage(A, q, p);
      assert SameObservations(A, p, q);
    }
  }

  /**
   A dead state makes the difference: states 1 and 2 accept nothing, but only one of them steps, so
   the crash pattern keeps them apart.
   */
  lemma DeadStateStaysApart()
    ensures var A := Automaton(3, 1, {Edge(1, 0, 1)}, {0});
            A.Valid() && A.Deterministic() && SameLanguage(A, 1, 2) && !SameObservations(A, 1, 2) && !CrashesAgree(A)
  {
    var A := Automaton(3, 1, {Edge(1, 0, 1)}, {0});
    forall w ensures !Accepts(A, 1, w) && !Accepts(A, 2, w) {
      StaysDead(A, 1, w);
      StaysDead(A, 2, w);
    }
    assert A.Has(1, 0, 1) && A.CanStep(1, 0);
    assert !A.CanStep(2, 0);
    assert SameLanguage(A, 1, 2);
  }

  lemma {:induction false} StaysDead(A: Automaton, s: nat, w: seq<nat>)
    requires A == Automaton(3, 1, {Edge(1, 0, 1)}, {0}) && s != 0
    ensures !Accepts(A, s, w)
    decreases |w|
  {
    if w != [] {
      forall t: nat | A.Has(s, w[0], t) ensures !Accepts(A, t, w[1..]) {
        StaysDead(A, t, w[1..]);
      }
    }
  }
}
