/** How small a deterministic automaton can be. */
module MinimalSize {
  // States that words lead to and whose languages differ need as many states in every deterministic automaton of
  // the same language.

  import opened Automata
  import opened SeqFacts
  import opened Languages
  import opened Determinization
  import opened HopcroftTheory

  /** Another deterministic automaton of the same language. */
  ghost predicate Rival(C: Automaton, l: Lang) {
    Usable(C) && C.Deterministic() && LangFrom(C, 0) == l
  }

  /** The state a deterministic automaton is in after `u`, on the way to acceptance. */
  lemma {:induction false} StateAfter(C: Automaton, s: nat, u: Word, rest: Word) returns (c: nat)
    requires C.Valid() && C.Deterministic() && s < C.states && Accepts(C, s, u + rest)
    ensures c < C.states && forall v: Word :: Accepts(C, s, u + v) <==> Accepts(C, c, v)
    decreases |u|
  {
    if u == [] {
      c := s;
      forall v: Word ensures Accepts(C, s, u + v) <==> Accepts(C, c, v) {
        assert u + v == v;
      }
    } else {
      var w := u + rest;
      assert w[0] == u[0] && w[1..] == u[1..] + rest;
      var t: nat :| C.Has(s, w[0], t) && Accepts(C, t, w[1..]);
      EdgeBounds(C, s, w[0], t);
      c := StateAfter(C, t, u[1..], rest);
      forall v: Word ensures Accepts(C, s, u + v) <==> Accepts(C, c, v) {
        assert (u + v)[0] == u[0] && (u + v)[1..] == u[1..] + v;
        assert Accepts(C, s, u + v) <==> exists x: nat :: C.Has(s, u[0], x) && Accepts(C, x, u[1..] + v);
        assert forall x: nat :: C.Has(s, u[0], x) ==> x == t;
      }
    }
  }

  /** A state of `C` with the language of state `s` of `E`. */
  ghost predicate Mirrors(E: Automaton, C: Automaton, s: nat, c: nat) {
    c < C.states && forall v: Word :: Accepts(E, s, v) <==> Accepts(C, c, v)
  }

  lemma HasMirror(E: Automaton, C: Automaton, s: nat) returns (c: nat)
    requires Rival(C, LangFrom(E, 0)) && Live(E, s) && Residual(E, s)
    ensures Mirrors(E, C, s, c)
  {
    var u: Word :| ResidualBy(E, u, s);
    var rest: Word :| Accepts(E, s, rest);
    assert u + rest in LangFrom(E, 0);
    c := StateAfter(C, 0, u, rest);
    forall v: Word ensures Accepts(E, s, v) <==> Accepts(C, c, v) {
      assert u + v in LangFrom(E, 0) <==> u + v in LangFrom(C, 0);
    }
  }

  /** States of different languages. */
  ghost predicate AllDifferent(E: Automaton, reps: seq<nat>) {
    && (forall i :: 0 <= i < |reps| ==> Live(E, reps[i]) && Residual(E, reps[i]))
    && forall i, j :: 0 <= i < j < |reps| ==> !SameLanguage(E, reps[i], reps[j])
  }

  /** So many states every rival has. */
  lemma {:induction false} NeedsAsMany(E: Automaton, reps: seq<nat>, C: Automaton)
    requires AllDifferent(E, reps) && Rival(C, LangFrom(E, 0))
    ensures |reps| <= C.states
  {
    var images := MirrorAll(E, reps, C);
    forall i, j | 0 <= i < j < |images| ensures images[i] != images[j] {
      assert Mirrors(E, C, reps[i], images[i]) && Mirrors(E, C, reps[j], images[j]);
      assert !SameLanguage(E, reps[i], reps[j]);
    }
    DistinctSize(images);
    BoundedSetSize(Elems(images), C.states);
  }

  lemma {:induction false} MirrorAll(E: Automaton, reps: seq<nat>, C: Automaton) returns (images: seq<nat>)
    requires AllDifferent(E, reps) && Rival(C, LangFrom(E, 0))
    ensures |images| == |reps| && forall i :: 0 <= i < |reps| ==> Mirrors(E, C, reps[i], images[i])
  {
    images := [];
    if reps != [] {
      var n := |reps| - 1;
      var earlier := MirrorAll(E, reps[..n], C);
      assert Live(E, reps[n]) && Residual(E, reps[n]);
      var last := HasMirror(E, C, reps[n]);
      images := earlier + [last];
      forall i | 0 <= i < |reps| ensures Mirrors(E, C, reps[i], images[i]) {
        assert i < n ==> reps[..n][i] == reps[i];
      }
    }
  }
}
