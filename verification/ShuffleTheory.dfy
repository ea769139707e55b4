/** The accepting shuffle. */
module ShuffleTheory {
  // Two automata share a word, each symbol going to the active one, and they may change places only when both
  // are in accepting states.

  import opened Automata
  import opened SeqFacts

  /** A state of each automaton, and whose turn it is. */
  datatype Pair = Pair(ls: nat, rs: nat, left: bool) {
    function Turned(): Pair {
      this.(left := !left)
    }

    /** The active automaton goes to `next`. */
    function Moved(next: nat): Pair {
      if left then this.(ls := next) else this.(rs := next)
    }
  }

  ghost predicate BothAccept(L: Automaton, R: Automaton, p: Pair) {
    p.ls in L.accept && p.rs in R.accept
  }

  ghost predicate ActiveAccepts(L: Automaton, R: Automaton, p: Pair) {
    if p.left then p.ls in L.accept else p.rs in R.accept
  }

  ghost predicate InactiveAccepts(L: Automaton, R: Automaton, p: Pair) {
    if p.left then p.rs in R.accept else p.ls in L.accept
  }

  ghost predicate ActiveHas(L: Automaton, R: Automaton, p: Pair, a: nat, next: nat) {
    if p.left then L.Has(p.ls, a, next) else R.Has(p.rs, a, next)
  }

  /** The meaning: the active automaton reads the next symbol, or, if both accept, they change places first. */
  ghost predicate Shuffles(L: Automaton, R: Automaton, p: Pair, w: seq<nat>)
    decreases |w|
  {
    if w == [] then BothAccept(L, R, p)
    else
      || (exists next: nat :: ActiveHas(L, R, p, w[0], next) && Shuffles(L, R, p.Moved(next), w[1..]))
      || (BothAccept(L, R, p) && exists next: nat :: ActiveHas(L, R, p.Turned(), w[0], next) && Shuffles(L, R, p.Turned().Moved(next), w[1..]))
  }

  /** A word of the accepting shuffle: either automaton may begin. */
  ghost predicate InShuffle(L: Automaton, R: Automaton, w: seq<nat>) {
    Shuffles(L, R, Pair(0, 0, true), w) || Shuffles(L, R, Pair(0, 0, false), w)
  }

  // ---- The construction changes places after a symbol, if the automaton that read it accepts.

  ghost predicate Follows(L: Automaton, R: Automaton, p: Pair, a: nat, q: Pair) {
    exists next: nat :: ActiveHas(L, R, p, a, next) && (q == p.Moved(next) || (ActiveAccepts(L, R, p.Moved(next)) && q == p.Moved(next).Turned()))
  }

  ghost predicate Constructed(L: Automaton, R: Automaton, p: Pair, w: seq<nat>)
    decreases |w|
  {
    if w == [] then BothAccept(L, R, p) else exists q :: Follows(L, R, p, w[0], q) && Constructed(L, R, q, w[1..])
  }

  /** The automaton whose turn it is not stays where it accepts. */
  lemma FollowsKeepsInactive(L: Automaton, R: Automaton, p: Pair, a: nat, q: Pair)
    requires InactiveAccepts(L, R, p) && Follows(L, R, p, a, q)
    ensures InactiveAccepts(L, R, q)
  {
  }

  /** Changing places before or after comes to the same. */
  lemma {:induction false} ShufflesIsConstructed(L: Automaton, R: Automaton, p: Pair, w: seq<nat>)
    requires InactiveAccepts(L, R, p)
    ensures Shuffles(L, R, p, w) <==> Constructed(L, R, p, w) || (ActiveAccepts(L, R, p) && Constructed(L, R, p.Turned(), w))
    decreases |w|
  {
    if w != [] {
      ReadingIsFollowing(L, R, p, w);
      if ActiveAccepts(L, R, p) {
        ReadingIsFollowing(L, R, p.Turned(), w);
      }
    }
  }

  /** Reading a symbol, then anything the shuffle allows, is one step of the construction, then the rest. */
  lemma {:induction false} ReadingIsFollowing(L: Automaton, R: Automaton, p: Pair, w: seq<nat>)
    requires InactiveAccepts(L, R, p) && w != []
    ensures (exists next: nat :: ActiveHas(L, R, p, w[0], next) && Shuffles(L, R, p.Moved(next), w[1..])) <==> Constructed(L, R, p, w)
    decreases |w|, 0
  {
    if next: nat :| ActiveHas(L, R, p, w[0], next) && Shuffles(L, R, p.Moved(next), w[1..]) {
      var q := p.Moved(next);
      assert Follows(L, R, p, w[0], q);
      ShufflesIsConstructed(L, R, q, w[1..]);
      if !Constructed(L, R, q, w[1..]) {
        assert Follows(L, R, p, w[0], q.Turned());
      }
    }
    if Constructed(L, R, p, w) {
      var q :| Follows(L, R, p, w[0], q) && Constructed(L, R, q, w[1..]);
      var next: nat :| ActiveHas(L, R, p, w[0], next) && (q == p.Moved(next) || (ActiveAccepts(L, R, p.Moved(next)) && q == p.Moved(next).Turned()));
      ShufflesIsConstructed(L, R, p.Moved(next), w[1..]);
    }
  }

  /** A word of the construction, which has two beginnings. */
  ghost predicate InConstruction(L: Automaton, R: Automaton, w: seq<nat>) {
    Constructed(L, R, Pair(0, 0, true), w) || Constructed(L, R, Pair(0, 0, false), w)
  }

  /** The construction gives exactly the accepting shuffle. */
  ghost predicate Exact(L: Automaton, R: Automaton) {
    forall w :: InShuffle(L, R, w) <==> InConstruction(L, R, w)
  }

  /** With accepting initial states it does. */
  lemma ConstructionIsShuffle(L: Automaton, R: Automaton, w: seq<nat>)
    requires 0 in L.accept && 0 in R.accept
    ensures InShuffle(L, R, w) <==> InConstruction(L, R, w)
  {
    ShufflesIsConstructed(L, R, Pair(0, 0, true), w);
    ShufflesIsConstructed(L, R, Pair(0, 0, false), w);
  }

  // ---- Initial states that reject.

  /** Next to an automaton that rejects, the active one can neither finish nor change places. */
  lemma {:induction false} NothingShuffled(L: Automaton, R: Automaton, p: Pair, w: seq<nat>)
    requires !InactiveAccepts(L, R, p)
    ensures !Shuffles(L, R, p, w)
    decreases |w|
  {
    if w != [] && Shuffles(L, R, p, w) {
      var next: nat :| ActiveHas(L, R, p, w[0], next) && Shuffles(L, R, p.Moved(next), w[1..]);
      NothingShuffled(L, R, p.Moved(next), w[1..]);
    }
  }

  /** Beginning with the other automaton gives the same words and maybe more. */
  ghost predicate GainsNothing(L: Automaton, R: Automaton, p: Pair) {
    forall w :: Constructed(L, R, p, w) ==> Constructed(L, R, p.Turned(), w)
  }

  /** If just one initial state accepts, the construction is exact if and only if beginning there gains nothing. */
  lemma OneRejectsExactIff(L: Automaton, R: Automaton)
    requires (0 in L.accept) != (0 in R.accept)
    ensures Exact(L, R) <==> GainsNothing(L, R, Pair(0, 0, 0 in L.accept))
  {
    var gained := Pair(0, 0, 0 in L.accept);
    var other := gained.Turned();
    forall w ensures InShuffle(L, R, w) <==> Constructed(L, R, other, w) {
      NothingShuffled(L, R, gained, w);
      ShufflesIsConstructed(L, R, other, w);
    }
    forall w ensures InConstruction(L, R, w) <==> Constructed(L, R, gained, w) || Constructed(L, R, other, w) {
      assert gained.left != other.left;
    }
    assert Exact(L, R) <==> forall w :: Constructed(L, R, other, w) <==> InConstruction(L, R, w);
  }

  /** What the construction accepts takes both automata to acceptance. */
  lemma {:induction false} BothEndAccepting(L: Automaton, R: Automaton, p: Pair, w: seq<nat>) returns (u: seq<nat>, v: seq<nat>)
    requires Constructed(L, R, p, w)
    ensures Accepts(L, p.ls, u) && Accepts(R, p.rs, v)
    decreases |w|
  {
    if w == [] {
      u, v := [], [];
    } else {
      var q :| Follows(L, R, p, w[0], q) && Constructed(L, R, q, w[1..]);
      u, v := BothEndAccepting(L, R, q, w[1..]);
      if p.left {
        assert L.Has(p.ls, w[0], q.ls) && ([w[0]] + u)[1..] == u;
        u := [w[0]] + u;
      } else {
        assert R.Has(p.rs, w[0], q.rs) && ([w[0]] + v)[1..] == v;
        v := [w[0]] + v;
      }
    }
  }

  /** The right one alone, next to an accepting left one. */
  lemma {:induction false} RightAlone(L: Automaton, R: Automaton, ls: nat, rs: nat, v: seq<nat>)
    requires ls in L.accept && Accepts(R, rs, v)
    ensures Constructed(L, R, Pair(ls, rs, false), v)
    decreases |v|
  {
    if v != [] {
      var next: nat :| R.Has(rs, v[0], next) && Accepts(R, next, v[1..]);
      RightAlone(L, R, ls, next, v[1..]);
      assert ActiveHas(L, R, Pair(ls, rs, false), v[0], next) && Follows(L, R, Pair(ls, rs, false), v[0], Pair(ls, next, false));
    }
  }

  /** The left one to the end, then the right one. */
  lemma {:induction false} LeftThenRight(L: Automaton, R: Automaton, ls: nat, u: seq<nat>, v: seq<nat>)
    requires u != [] && Accepts(L, ls, u) && Accepts(R, 0, v)
    ensures Constructed(L, R, Pair(ls, 0, true), u + v)
    decreases |u|
  {
    var w, p := u + v, Pair(ls, 0, true);
    var next: nat :| L.Has(ls, u[0], next) && Accepts(L, next, u[1..]);
    assert w[0] == u[0] && w[1..] == u[1..] + v;
    assert ActiveHas(L, R, p, w[0], next);
    if u[1..] == [] {
      assert u[1..] + v == v;
      RightAlone(L, R, next, 0, v);
      assert Follows(L, R, p, w[0], Pair(next, 0, false));
    } else {
      LeftThenRight(L, R, next, u[1..], v);
      assert Follows(L, R, p, w[0], Pair(next, 0, true));
    }
  }

  ghost predicate Nonempty(A: Automaton) {
    exists w: seq<nat> :: Accepts(A, 0, w)
  }

  /** If both initial states reject, the shuffle is empty: the construction is exact if and only if one language is. */
  lemma BothRejectExactIff(L: Automaton, R: Automaton)
    requires 0 !in L.accept && 0 !in R.accept
    ensures Exact(L, R) <==> !Nonempty(L) || !Nonempty(R)
  {
    forall w ensures !InShuffle(L, R, w) {
      NothingShuffled(L, R, Pair(0, 0, true), w);
      NothingShuffled(L, R, Pair(0, 0, false), w);
    }
    if Nonempty(L) && Nonempty(R) {
      var u :| Accepts(L, 0, u);
      var v :| Accepts(R, 0, v);
      LeftThenRight(L, R, 0, u, v);
      assert InConstruction(L, R, u + v);
    }
    forall w | InConstruction(L, R, w) ensures Nonempty(L) && Nonempty(R) {
      var left := Constructed(L, R, Pair(0, 0, true), w);
      var u, v := BothEndAccepting(L, R, Pair(0, 0, left), w);
    }
  }

  // ---- What the initial states decide.

  /** Deterministic automata over one alphabet whose initial states accept as told. */
  ghost predicate Given(L: Automaton, R: Automaton, l: bool, r: bool) {
    && L.Valid() && R.Valid() && L.states > 0 && R.states > 0 && L.symbols == R.symbols && L.Deterministic() && R.Deterministic()
    && (0 in L.accept) == l && (0 in R.accept) == r
  }

  /** Accepts the words of a letter. */
  ghost function Loop(x: nat): Automaton {
    Automaton(1, 2, {Edge(0, x, 0)}, {0})
  }

  /** Accepts just one letter. */
  ghost function Once(x: nat): Automaton {
    Automaton(2, 2, {Edge(0, x, 1)}, {1})
  }

  lemma OnceAccepts(x: nat)
    ensures Accepts(Once(x), 0, [x]) && Nonempty(Once(x))
  {
    assert Once(x).Has(0, x, 1) && [x][1..] == [] && Accepts(Once(x), 1, []);
  }

  /** The left one reads its symbol and hands over although the right one does not accept. */
  lemma LeftHandsOver()
    ensures !Exact(Loop(0), Once(1))
  {
    var L, R, w := Loop(0), Once(1), [0, 1];
    var start, turned := Pair(0, 0, true), Pair(0, 0, false);
    OnceAccepts(1);
    RightAlone(L, R, 0, 0, [1]);
    assert w[1..] == [1] && ActiveHas(L, R, start, 0, 0) && Follows(L, R, start, 0, turned);
    assert Constructed(L, R, start, w);
    assert forall next: nat :: !ActiveHas(L, R, turned, 0, next);
    assert !Constructed(L, R, turned, w);
    OneRejectsExactIff(L, R);
  }

  /** The other way round. */
  lemma RightHandsOver()
    ensures !Exact(Once(1), Loop(0))
  {
    var L, R, w := Once(1), Loop(0), [0, 1];
    var start, turned, end := Pair(0, 0, false), Pair(0, 0, true), Pair(1, 0, true);
    assert w[1..] == [1] && [1][1..] == [] && ActiveHas(L, R, start, 0, 0) && Follows(L, R, start, 0, turned);
    assert ActiveHas(L, R, turned, 1, 1) && Follows(L, R, turned, 1, end) && Constructed(L, R, end, []);
    assert Constructed(L, R, turned, [1]);
    assert Constructed(L, R, start, w);
    assert forall next: nat :: !ActiveHas(L, R, turned, 0, next);
    assert !Constructed(L, R, turned, w);
    OneRejectsExactIff(L, R);
  }

  /** Knowing only whether the initial states accept, the construction is exact if and only if both do. */
  lemma ExactIffBothAccept(l: bool, r: bool)
    ensures (forall L, R :: Given(L, R, l, r) ==> Exact(L, R)) <==> l && r
  {
    if l && r {
      forall L, R | Given(L, R, l, r) ensures Exact(L, R) {
        forall w ensures InShuffle(L, R, w) <==> InConstruction(L, R, w) {
          ConstructionIsShuffle(L, R, w);
        }
      }
    } else if l {
      LeftHandsOver();
      assert Given(Loop(0), Once(1), l, r);
    } else if r {
      RightHandsOver();
      assert Given(Once(1), Loop(0), l, r);
    } else {
      OnceAccepts(0);
      OnceAccepts(1);
      BothRejectExactIff(Once(0), Once(1));
      assert !Exact(Once(0), Once(1));
      assert Given(Once(0), Once(1), l, r);
    }
  }
}
