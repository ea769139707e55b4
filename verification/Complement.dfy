/** The complement of an automaton over its alphabet: determinized, given a step on every symbol, acceptance exchanged. */
module Complements {
  import opened Automata
  import opened Languages
  import opened Determinization

  /** `T` is `D` where the missing steps of the states below `limit` go to a new state, which has itself none to go elsewhere. */
  ghost predicate Totalized(D: Automaton, T: Automaton, limit: nat) {
    && T.symbols == D.symbols && T.accept == D.accept && D.states <= T.states <= D.states + 1
    && (T.states == D.states <==> forall s: nat, a: nat :: s < limit && s < D.states && a < D.symbols ==> D.CanStep(s, a))
    && forall s: nat, a: nat, t: nat :: T.Has(s, a, t) <==> D.Has(s, a, t) || (s < limit && s < T.states && a < D.symbols && t == D.states && !D.CanStep(s, a))
  }

  method Totalize(D: Automaton) returns (T: Automaton)
    requires D.Valid()
    ensures Totalized(D, T, T.states) && T.Valid()
  {
    T := D;
    var s := 0;
    while s < T.states
      invariant s <= T.states && Totalized(D, T, s) && (s > D.states ==> T.states == D.states + 1)
      decreases D.states + 1 - s
    {
      var missing := set a | 0 <= a < T.symbols && !T.Steps(s, a);
      MissingSteps(D, T, s);
      TotalizeOne(D, T, s, missing);
      if missing != {} {
        T := T.(states := D.states + 1, trans := T.trans + set a | a in missing :: Edge(s, a, D.states));
      }
      s := s + 1;
    }
    TotalizedValid(D, T);
  }

  /** A state not dealt with steps as it did. */
  lemma MissingSteps(D: Automaton, T: Automaton, s: nat)
    requires Totalized(D, T, s)
    ensures forall a: nat :: T.Steps(s, a) <==> D.CanStep(s, a)
  {
    forall a: nat ensures T.Steps(s, a) <==> D.CanStep(s, a) {
      forall t: nat ensures T.Has(s, a, t) <==> D.Has(s, a, t) {
      }
    }
  }

  lemma TotalizeOne(D: Automaton, T: Automaton, s: nat, missing: set<nat>)
    requires D.Valid() && Totalized(D, T, s) && s < T.states && forall a: nat :: a in missing <==> a < D.symbols && !D.CanStep(s, a)
    ensures Totalized(D, if missing != {} then T.(states := D.states + 1, trans := T.trans + set a | a in missing :: Edge(s, a, D.states)) else T, s + 1)
  {
    var U := if missing != {} then T.(states := D.states + 1, trans := T.trans + set a | a in missing :: Edge(s, a, D.states)) else T;
    forall p: nat, a: nat, t: nat ensures U.Has(p, a, t) <==> T.Has(p, a, t) || (p == s && a in missing && t == D.states) {
    }
    if missing != {} {
      var a: nat :| a in missing;
    }
    hide D.CanStep;
  }

  lemma TotalizedValid(D: Automaton, T: Automaton)
    requires D.Valid() && Totalized(D, T, T.states)
    ensures T.Valid()
  {
    forall e | e in T.trans ensures e.source < T.states && e.symbol < T.symbols && e.target < T.states {
      assert T.Has(e.source, e.symbol, e.target);
      assert D.Has(e.source, e.symbol, e.target) ==> Edge(e.source, e.symbol, e.target) in D.trans;
    }
  }

  lemma {:induction false} CrashedForGood(D: Automaton, T: Automaton, w: Word)
    requires D.Valid() && Totalized(D, T, T.states)
    ensures !Accepts(T, D.states, w)
    decreases |w|
  {
    if w != [] {
      forall t: nat | T.Has(D.states, w[0], t) ensures !Accepts(T, t, w[1..]) {
        EdgeBounds(D, D.states, w[0], t);
        CrashedForGood(D, T, w[1..]);
      }
    }
  }

  lemma {:induction false} TotalizedAccepts(D: Automaton, T: Automaton, s: nat, w: Word)
    requires D.Valid() && Totalized(D, T, T.states) && s < D.states
    ensures Accepts(T, s, w) <==> Accepts(D, s, w)
    decreases |w|
  {
    if w != [] {
      forall t: nat ensures T.Has(s, w[0], t) && Accepts(T, t, w[1..]) <==> D.Has(s, w[0], t) && Accepts(D, t, w[1..]) {
        if D.Has(s, w[0], t) {
          assert Edge(s, w[0], t) in D.trans;
          TotalizedAccepts(D, T, t, w[1..]);
          assert D.CanStep(s, w[0]);
        } else if T.Has(s, w[0], t) {
          CrashedForGood(D, T, w[1..]);
        }
      }
    }
  }

  /** Every state has exactly one step on every symbol. */
  ghost predicate Total(T: Automaton) {
    T.Valid() && T.Deterministic() && forall s: nat, a: nat :: s < T.states && a < T.symbols ==> T.CanStep(s, a)
  }

  lemma TotalizedIsTotal(D: Automaton, T: Automaton)
    requires D.Valid() && D.Deterministic() && Totalized(D, T, T.states) && T.Valid()
    ensures Total(T)
  {
    forall s: nat, a: nat | s < T.states && a < T.symbols ensures T.CanStep(s, a) {
      if D.CanStep(s, a) {
        var t: nat :| D.Has(s, a, t);
        assert T.Has(s, a, t);
      } else {
        assert T.Has(s, a, D.states);
      }
    }
    forall s: nat, a: nat, t: nat, u: nat | T.Has(s, a, t) && T.Has(s, a, u) ensures t == u {
      if D.Has(s, a, t) || D.Has(s, a, u) {
        assert D.CanStep(s, a);
      }
    }
  }

  ghost predicate Flipped(T: Automaton, C: Automaton) {
    C == T.(accept := C.accept) && forall s: nat :: s in C.accept <==> s < T.states && s !in T.accept
  }

  lemma {:induction false} FlippedAccepts(T: Automaton, C: Automaton, s: nat, w: Word)
    requires Total(T) && Flipped(T, C) && s < T.states && w in Over(T.symbols)
    ensures Accepts(C, s, w) <==> !Accepts(T, s, w)
    decreases |w|
  {
    if w != [] {
      assert T.CanStep(s, w[0]);
      var t: nat :| T.Has(s, w[0], t);
      assert Edge(s, w[0], t) in T.trans;
      assert C.Has(s, w[0], t);
      FlippedAccepts(T, C, t, w[1..]);
      forall u: nat ensures C.Has(s, w[0], u) <==> u == t {
        assert C.Has(s, w[0], u) <==> T.Has(s, w[0], u);
      }
    }
  }

  /** Determinizes, gives every state a step on every symbol, and exchanges acceptance. */
  method Comp(A: Automaton) returns (C: Automaton)
    requires Usable(A) && A.symbols > 0
    ensures Usable(C) && C.symbols == A.symbols && LangFrom(C, 0) == Over(A.symbols) - LangFrom(A, 0)
  {
    var D := DeterminizeInto(A);
    var T := Totalize(D);
    C := T;
    var s := 0;
    while s < C.states
      invariant s <= C.states && C == T.(accept := C.accept)
      invariant forall p: nat :: p in C.accept <==> p < T.states && if p < s then p !in T.accept else p in T.accept
    {
      C := C.(accept := if s in C.accept then C.accept - {s} else C.accept + {s});
      s := s + 1;
    }
    CompLanguage(A, D, T, C);
  }

  lemma CompLanguage(A: Automaton, D: Automaton, T: Automaton, C: Automaton)
    requires Usable(D) && D.symbols == A.symbols && D.Deterministic() && LangFrom(D, 0) == LangFrom(A, 0)
    requires Totalized(D, T, T.states) && T.Valid() && Flipped(T, C)
    ensures Usable(C) && C.symbols == A.symbols && LangFrom(C, 0) == Over(A.symbols) - LangFrom(A, 0)
  {
    TotalizedIsTotal(D, T);
    forall w: Word ensures w in LangFrom(C, 0) <==> w in Over(A.symbols) && w !in LangFrom(D, 0) {
      TotalizedAccepts(D, T, 0, w);
      if w in Over(A.symbols) {
        FlippedAccepts(T, C, 0, w);
      } else if Accepts(C, 0, w) {
        AcceptsOver(C, 0, w);
      }
    }
  }
}
