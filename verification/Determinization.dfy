/** Determinizing an automaton: the states and transitions that the subset construction emits are put together again. */
module Determinization {
  // By replaying what the subset construction emits.

  import opened Arithmetic
  import opened Automata
  import opened Languages
  import opened SubsetTheory
  import Subsets = SubsetConstruction

  // ---- The transitions of an automaton, state by state.

  method RowOf(A: Automaton, s: nat) returns (row: seq<(nat, nat)>)
    requires A.Valid()
    ensures forall a: nat, t: nat :: (a, t) in row <==> A.Has(s, a, t)
  {
    row := [];
    var a := 0;
    while a < A.symbols
      invariant a <= A.symbols
      invariant forall b: nat, t: nat :: (b, t) in row <==> b < a && A.Has(s, b, t)
    {
      var t := 0;
      while t < A.states
        invariant t <= A.states
        invariant forall b: nat, u: nat :: (b, u) in row <==> A.Has(s, b, u) && (b < a || (b == a && u < t))
      {
        if Edge(s, a, t) in A.trans {
          row := row + [(a, t)];
        }
        t := t + 1;
      }
      assert forall u: nat :: A.Has(s, a, u) ==> Edge(s, a, u) in A.trans && u < A.states;
      a := a + 1;
    }
    assert forall b: nat, u: nat :: A.Has(s, b, u) ==> Edge(s, b, u) in A.trans && b < A.symbols;
  }

  method AllRows(A: Automaton) returns (rows: Rows)
    requires Usable(A)
    ensures RowsOf(A, rows)
  {
    rows := [];
    while |rows| < A.states
      invariant |rows| <= A.states
      invariant forall s: nat, a: nat, t: nat :: s < |rows| ==> ((a, t) in rows[s] <==> A.Has(s, a, t))
      decreases A.states - |rows|
    {
      var row := RowOf(A, |rows|);
      rows := rows + [row];
    }
  }

  // ---- Replaying.

  function Replay(D: Automaton, e: Event): Automaton {
    match e
    case AddState(accepting) => D.(states := D.states + 1, accept := D.accept + if accepting then {D.states} else {})
    case AddTrans(from, on, to) => D.(trans := D.trans + {Edge(from, on, to)})
  }

  method DeterminizeInto(A: Automaton) returns (D: Automaton)
    requires Usable(A) && A.symbols > 0
    ensures Usable(D) && D.symbols == A.symbols && D.Deterministic() && LangFrom(D, 0) == LangFrom(A, 0)
    ensures forall i: nat :: i < D.states ==> Residual(D, i)
  {
    var rows := AllRows(A);
    FinalFits(A);
    var ok, log := Subsets.Determinize(A, rows, Pow2(A.states));
    ghost var p := Final(A);
    D := Automaton(0, A.symbols, {}, {});
    var i := 0;
    assert Replayed(A, log, 0, D);
    while i < |log|
      invariant i <= |log| && Replayed(A, log, i, D)
    {
      ReplayOne(A, log, i, D);
      D := Replay(D, log[i]);
      i := i + 1;
    }
    ReplayedIsBuilt(A, log, D);
    BuiltLanguage(A);
    forall i: nat | i < D.states ensures Residual(D, i) {
      BuiltResidual(A, i);
    }
  }

  lemma FinalFits(A: Automaton)
    requires Usable(A)
    ensures |Final(A).table| <= Pow2(A.states)
  {
    Terminates(A);
    IdleIsFinal(A, Pow2(A.states));
    SettledFits(A, Final(A));
  }

  ghost predicate Replayed(A: Automaton, log: seq<Event>, i: nat, D: Automaton) {
    && i <= |log| && D.symbols == A.symbols && D.states == |Flags(log[..i])|
    && (forall s: nat :: s in D.accept <==> s < |Flags(log[..i])| && Flags(log[..i])[s])
    && (forall s: nat, a: nat, t: nat :: D.Has(s, a, t) <==> AddTrans(s, a, t) in log[..i])
  }

  lemma ReplayOne(A: Automaton, log: seq<Event>, i: nat, D: Automaton)
    requires i < |log| && Replayed(A, log, i, D)
    ensures Replayed(A, log, i + 1, Replay(D, log[i]))
  {
    assert log[..i + 1] == log[..i] + [log[i]];
    FlagsGrow(log[..i], log[i]);
    var E := Replay(D, log[i]);
    forall s: nat, a: nat, t: nat ensures E.Has(s, a, t) <==> D.Has(s, a, t) || log[i] == AddTrans(s, a, t) {
    }
    hide Replay;
  }

  lemma ReplayedIsBuilt(A: Automaton, log: seq<Event>, D: Automaton)
    requires Usable(A) && Replayed(A, log, |log|, D) && log == Final(A).log
    ensures D == Built(A, Final(A)) && Usable(D)
  {
    var p := Final(A);
    Terminates(A);
    IdleIsFinal(A, Pow2(A.states));
    assert log[..|log|] == log;
    var E := Built(A, p);
    assert |Flags(log)| == |p.table|;
    assert D.accept == E.accept;
    forall e ensures e in D.trans <==> e in E.trans {
      assert e == Edge(e.source, e.symbol, e.target);
      assert D.Has(e.source, e.symbol, e.target) <==> E.Has(e.source, e.symbol, e.target);
    }
    assert D.trans == E.trans;
    forall e | e in D.trans ensures e.source < D.states && e.symbol < D.symbols && e.target < D.states {
      assert AddTrans(e.source, e.symbol, e.target) in p.log;
    }
  }

  lemma BuiltLanguage(A: Automaton)
    requires Usable(A)
    ensures var D := Built(A, Final(A)); D.Deterministic() && LangFrom(D, 0) == LangFrom(A, 0)
  {
    var D := Built(A, Final(A));
    forall w: Word ensures D.Deterministic() && (w in LangFrom(D, 0) <==> w in LangFrom(A, 0)) {
      DeterminizeKeepsLanguage(A, w);
    }
    var none: Word := [];
    DeterminizeKeepsLanguage(A, none);
  }

  // ---- Every state of the result is reached by some word.

  /** After `w` what remains to be accepted is what state `i` accepts. */
  ghost predicate ResidualBy(D: Automaton, w: Word, i: nat) {
    forall v: Word :: Accepts(D, 0, w + v) <==> Accepts(D, i, v)
  }

  ghost predicate Residual(D: Automaton, i: nat) {
    exists w: Word :: ResidualBy(D, w, i)
  }

  ghost predicate SomeAccepts(A: Automaton, S: set<nat>, w: Word) {
    exists s: nat :: s in S && Accepts(A, s, w)
  }

  lemma {:induction false} AfterAccepts(A: Automaton, S: set<nat>, w: Word, v: Word)
    ensures SomeAccepts(A, S, w + v) <==> SomeAccepts(A, After(A, S, w), v)
    decreases |w|
  {
    if w == [] {
      assert w + v == v;
    } else {
      var all := w + v;
      assert all[0] == w[0] && all[1..] == w[1..] + v;
      AfterAccepts(A, Post(A, S, w[0]), w[1..], v);
      hide After;
      if SomeAccepts(A, S, all) {
        var s: nat :| s in S && Accepts(A, s, all);
        var t: nat :| A.Has(s, all[0], t) && Accepts(A, t, all[1..]);
        PostMember(A, S, w[0], t);
      }
      if SomeAccepts(A, Post(A, S, w[0]), w[1..] + v) {
        var t: nat :| t in Post(A, S, w[0]) && Accepts(A, t, w[1..] + v);
        PostMember(A, S, w[0], t);
        var s: nat :| s in S && A.Has(s, w[0], t);
        assert Accepts(A, s, all);
      }
    }
  }

  lemma BuiltResidual(A: Automaton, i: nat)
    requires Usable(A) && i < Built(A, Final(A)).states
    ensures Residual(Built(A, Final(A)), i)
  {
    var p := Final(A);
    Terminates(A);
    IdleIsFinal(A, Pow2(A.states));
    StatesAreReachableSubsets(A, p.table[i]);
    var w: Word :| After(A, {0}, w) == p.table[i];
    var D := Built(A, p);
    forall v: Word ensures Accepts(D, 0, w + v) <==> Accepts(D, i, v) {
      DeterminizeKeepsLanguage(A, w + v);
      AfterAccepts(A, {0}, w, v);
      BuiltAccepts(A, p, i, v);
      hide *;
      OnlyZero(A, w + v);
      SomeIs(A, p.table[i], v);
    }
    assert ResidualBy(D, w, i);
  }

  lemma OnlyZero(A: Automaton, w: Word)
    ensures SomeAccepts(A, {0}, w) <==> Accepts(A, 0, w)
  {
  }

  lemma SomeIs(A: Automaton, S: set<nat>, v: Word)
    ensures SomeAccepts(A, S, v) <==> exists s: nat :: s in S && Accepts(A, s, v)
  {
  }
}
