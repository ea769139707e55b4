/** The two minimizers from end to end. */
module Minimization {
  // Initial partition, refinement, renumbering.

  import opened Automata
  import opened SeqFacts
  import opened Sorting
  import opened RefinablePartitions
  import opened InverseIndexes
  import opened PartitionRefinement
  import opened HopcroftTheory
  import opened NodeLists
  import opened SplitterLists
  import opened PaigeTarjanTheory
  import opened PaigeTarjan
  import opened Hopcroft
  import opened InitialPartitions
  import opened Survivors
  import opened BlockCounts
  import opened Arithmetic
  import opened Quotients
  import opened QuotientBlocks

  /** What becomes of an automaton. */
  datatype Outcome = MadeEmpty | MadeAll | Unchanged | Shrunk(size: nat, remap: seq<nat>, comesFrom: seq<nat>) | Overran

  /** The tables of a shrunk automaton have the right sizes. */
  ghost predicate Sensible(A: Automaton, o: Outcome) {
    A.Valid() && (o.Shrunk? ==> o.size < A.states == |o.remap| && o.size <= |o.comesFrom| && o.remap[0] == 0)
  }

  /** Every state accepts and has a step on every symbol. */
  ghost predicate Universal(A: Automaton) {
    forall s: nat :: s < A.states ==> s in A.accept && Steady(A, s)
  }

  ghost predicate Steady(A: Automaton, s: nat) {
    forall a: nat :: a < A.symbols ==> A.CanStep(s, a)
  }

  /** The executable form of `Steady`. */
  predicate NeverCrashes(A: Automaton, s: nat)
    ensures NeverCrashes(A, s) <==> Steady(A, s)
  {
    assert forall a: nat :: A.Steps(s, a) <==> A.CanStep(s, a);
    forall a: nat | a < A.symbols :: A.Steps(s, a)
  }

  /** A universal automaton accepts every word over its alphabet. */
  lemma {:induction false} UniversalAccepts(A: Automaton, s: nat, w: seq<nat>)
    requires A.Valid() && Universal(A) && s < A.states
    ensures Accepts(A, s, w) <==> forall i :: 0 <= i < |w| ==> w[i] < A.symbols
    decreases |w|
  {
    if w != [] {
      forall t: nat | A.Has(s, w[0], t) ensures w[0] < A.symbols && (Accepts(A, t, w[1..]) <==> forall i :: 0 <= i < |w[1..]| ==> w[1..][i] < A.symbols) {
        assert Edge(s, w[0], t) in A.trans;
        UniversalAccepts(A, t, w[1..]);
      }
      assert Steady(A, s);
      if forall i :: 0 <= i < |w| ==> w[i] < A.symbols {
        assert A.CanStep(s, w[0]);
        var t: nat :| A.Has(s, w[0], t);
        assert forall i :: 0 <= i < |w[1..]| ==> w[1..][i] == w[i + 1];
      }
      if Accepts(A, s, w) {
        var t: nat :| A.Has(s, w[0], t) && Accepts(A, t, w[1..]);
        forall i | 0 <= i < |w| ensures w[i] < A.symbols {
          assert i > 0 ==> w[i] == w[1..][i - 1];
        }
      }
    }
  }

  /** Every state of `A` keeps its language when `A` shrinks to its `size` blocks. */
  ghost predicate KeepsLanguages(A: Automaton, size: nat, remap: seq<nat>, comesFrom: seq<nat>) {
    && A.Valid() && |remap| == A.states && size <= |comesFrom|
    && forall s: nat, w :: s < A.states ==> (Accepts(Quotient(A, size, remap, comesFrom), remap[s], w) <==> Accepts(A, s, w))
  }

  lemma RenumberedKeepsLanguages(A: Automaton, initial: seq<nat>, blk: seq<nat>, size: nat, remap: seq<nat>, comesFrom: seq<nat>)
    requires A.Valid() && ByObservation(A, initial) && CoarsestStable(A, initial, blk) && Renumbers(blk, size, remap, comesFrom)
    ensures KeepsLanguages(A, size, remap, comesFrom)
  {
    assert Uniform(A, blk);
    forall s: nat, w | s < A.states ensures Accepts(Quotient(A, size, remap, comesFrom), remap[s], w) <==> Accepts(A, s, w) {
      QuotientKeepsLanguage(A, blk, size, remap, comesFrom, s, w);
    }
  }

  /** With one block per state nothing is to be done: the automaton is reduced unless same-language states crash differently. */
  lemma AlreadyReduced(A: Automaton, initial: seq<nat>, blk: seq<nat>)
    requires A.Valid() && A.Deterministic() && ByObservation(A, initial) && CoarsestStable(A, initial, blk)
    requires forall p, q :: 0 <= p < q < A.states ==> blk[p] != blk[q]
    ensures Reduced(A) <==> CrashesAgree(A)
  {
    BlocksAreLanguages(A, initial, blk);
  }

  // ---- Minimizing a DFA.

  /** The automaton after minimizing.  For a universal one the library writes down one that takes a single symbol. */
  ghost function Minimized(A: Automaton, o: Outcome): Automaton
    requires Sensible(A, o)
  {
    match o
    case MadeEmpty => Automaton(1, A.symbols, {}, {})
    case MadeAll => Automaton(2, A.symbols, set a | 0 <= a < A.symbols :: Edge(0, a, 1), {1})
    case Shrunk(size, remap, comesFrom) => Quotient(A, size, remap, comesFrom)
    case _ => A
  }

  ghost predicate KeepsLanguage(A: Automaton, B: Automaton) {
    forall w :: Accepts(B, 0, w) <==> Accepts(A, 0, w)
  }

  /** Counting the edges of a DFA tells whether it is total. */
  lemma FullIffTotal(A: Automaton, edgelist: seq<Edge>)
    requires A.Valid() && A.Deterministic() && Distinct(edgelist) && Elems(edgelist) == A.trans
    ensures |edgelist| == A.states * A.symbols <==> forall s: nat :: s < A.states ==> Steady(A, s)
  {
    var codes := Codes(A, edgelist);
    CodesFit(A, edgelist);
    var n: nat := A.states * A.symbols;
    DistinctSize(codes);
    if |edgelist| == n {
      forall s: nat, a: nat | s < A.states && a < A.symbols ensures A.CanStep(s, a) {
        DigitsBound(s, a, A.symbols, A.states);
        DistinctCovers(codes, Digits(s, a, A.symbols));
        CodeSteps(A, edgelist, s, a);
      }
    }
    if forall s: nat :: s < A.states ==> Steady(A, s) {
      forall x: nat ensures x in Elems(codes) <==> x < n {
        if x < n {
          EveryCode(A, edgelist, x);
        }
      }
      AllBelow(Elems(codes), n);
    }
  }

  /** Each edge as the number of its source and symbol. */
  ghost function Codes(A: Automaton, edgelist: seq<Edge>): (codes: seq<nat>)
    ensures |codes| == |edgelist| && forall i :: 0 <= i < |codes| ==> codes[i] == Digits(edgelist[i].source, edgelist[i].symbol, A.symbols)
  {
    seq(|edgelist|, i requires 0 <= i < |edgelist| => Digits(edgelist[i].source, edgelist[i].symbol, A.symbols))
  }

  lemma CodesFit(A: Automaton, edgelist: seq<Edge>)
    requires A.Valid() && A.Deterministic() && Distinct(edgelist) && Elems(edgelist) == A.trans
    ensures Distinct(Codes(A, edgelist)) && forall i :: 0 <= i < |edgelist| ==> Codes(A, edgelist)[i] < A.states * A.symbols
  {
    var codes := Codes(A, edgelist);
    hide Digits;
    forall i | 0 <= i < |edgelist| ensures edgelist[i].source < A.states && edgelist[i].symbol < A.symbols && codes[i] < A.states * A.symbols {
      assert edgelist[i] in Elems(edgelist);
      DigitsBound(edgelist[i].source, edgelist[i].symbol, A.symbols, A.states);
    }
    forall i, j | 0 <= i < j < |codes| ensures codes[i] != codes[j] {
      var e, f := edgelist[i], edgelist[j];
      assert e in Elems(edgelist) && f in Elems(edgelist) && e != f;
      DigitsOrder(e.source, e.symbol, f.source, f.symbol, A.symbols);
      assert e == Edge(e.source, e.symbol, e.target) && f == Edge(f.source, f.symbol, f.target);
      assert A.Has(e.source, e.symbol, e.target) && A.Has(f.source, f.symbol, f.target);
    }
  }

  lemma CodeSteps(A: Automaton, edgelist: seq<Edge>, s: nat, a: nat)
    requires A.Valid() && Elems(edgelist) == A.trans && a < A.symbols && Digits(s, a, A.symbols) in Codes(A, edgelist)
    ensures A.CanStep(s, a)
  {
    var codes := Codes(A, edgelist);
    var i :| 0 <= i < |codes| && codes[i] == Digits(s, a, A.symbols);
    var e := edgelist[i];
    assert e in Elems(edgelist) && e == Edge(e.source, e.symbol, e.target);
    hide Digits;
    DigitsOrder(s, a, e.source, e.symbol, A.symbols);
    assert A.Has(s, a, e.target);
  }

  lemma EveryCode(A: Automaton, edgelist: seq<Edge>, x: nat)
    requires A.Valid() && Elems(edgelist) == A.trans && x < A.states * A.symbols && forall s: nat :: s < A.states ==> Steady(A, s)
    ensures x in Codes(A, edgelist)
  {
    var s, a := SplitDigits(x, A.symbols, A.states);
    assert Steady(A, s) && A.CanStep(s, a);
    var t: nat :| A.Has(s, a, t);
    assert Edge(s, a, t) in Elems(edgelist);
    var i :| 0 <= i < |edgelist| && edgelist[i] == Edge(s, a, t);
    assert Codes(A, edgelist)[i] == x;
  }

  /** Shrinks a partial DFA, except that the two trivial languages are written down at once. */
  method Minimize(A: Automaton, edgelist: seq<Edge>) returns (o: Outcome)
    requires A.Valid() && A.Deterministic() && Distinct(edgelist) && Elems(edgelist) == A.trans
    requires A.states > 0 && A.symbols > 0
    ensures Sensible(A, o) && !o.Overran?
    ensures (o.MadeEmpty? <==> A.accept == {}) && (o.MadeAll? <==> Universal(A))
    ensures KeepsLanguage(A, Minimized(A, o)) <==> !Universal(A)
    ensures o.Shrunk? ==> KeepsLanguages(A, o.size, o.remap, o.comesFrom)
    ensures Minimized(A, o).Deterministic()
    ensures !Universal(A) && A.accept != {} ==> (Reduced(Minimized(A, o)) <==> CrashesAgree(A))
    ensures !Universal(A) && (forall s :: 0 <= s < A.states ==> Live(A, s)) ==> Reduced(Minimized(A, o))
    ensures o.Unchanged? || o.Shrunk? ==> HasBlocks(A, Minimized(A, o).states) && HasBlocks(Minimized(A, o), Minimized(A, o).states)
  {
    FullIffTotal(A, edgelist);
    if A.accept == {} {
      EmptyKept(A);
      return MadeEmpty;
    }
    if |edgelist| == A.states * A.symbols && forall s: nat | s < A.states :: s in A.accept {
      UniversalLost(A);
      return MadeAll;
    }
    assert !Universal(A);
    o := Shrink(A, edgelist);
    if forall s :: 0 <= s < A.states ==> Live(A, s) {
      LiveMeansCrashesAgree(A);
    }
  }

  lemma EmptyKept(A: Automaton)
    requires A.Valid() && A.states > 0 && A.accept == {}
    ensures var B := Minimized(A, MadeEmpty); KeepsLanguage(A, B) && B.Deterministic() && Reduced(B)
    ensures !Universal(A)
  {
    var B := Minimized(A, MadeEmpty);
    forall w ensures Accepts(B, 0, w) <==> Accepts(A, 0, w) {
      NeverAccepts(A, 0, w);
      NeverAccepts(B, 0, w);
    }
    var zero: nat := 0;
    assert zero < A.states && zero !in A.accept;
  }

  /** The one case where the language is not kept: the automaton accepts the empty word and the result does not. */
  lemma UniversalLost(A: Automaton)
    requires A.Valid() && A.states > 0 && Universal(A)
    ensures !KeepsLanguage(A, Minimized(A, MadeAll)) && Minimized(A, MadeAll).Deterministic() && A.accept != {}
  {
    var B := Minimized(A, MadeAll);
    var zero: nat, none: seq<nat> := 0, [];
    assert zero < A.states && zero in A.accept;
    assert Accepts(A, 0, none) && !Accepts(B, 0, none);
    assert forall s: nat, a: nat, t: nat :: B.Has(s, a, t) ==> s == 0 && t == 1;
  }

  /** What the minimizer of exploded automata leaves of a universal one: it has all words, the result the empty one. */
  lemma UniversalLostWhenExploded(A: Automaton, w: seq<nat>)
    requires A.Valid() && A.states > 0 && Universal(A)
    ensures Accepts(A, 0, w) <==> forall i :: 0 <= i < |w| ==> w[i] < A.symbols
    ensures Accepts(Automaton(A.states, A.symbols, {}, {0}), 0, w) <==> w == []
  {
    UniversalAccepts(A, 0, w);
    var B := Automaton(A.states, A.symbols, {}, {0});
    if w != [] {
      assert forall t: nat :: !B.Has(0, w[0], t);
    }
  }

  /** Refines and renumbers. */
  method Shrink(A: Automaton, edgelist: seq<Edge>) returns (o: Outcome)
    requires A.Valid() && A.Deterministic() && Distinct(edgelist) && Elems(edgelist) == A.trans
    requires A.states > 0 && A.symbols > 0
    ensures Sensible(A, o) && (o.Unchanged? || o.Shrunk?) && KeepsLanguage(A, Minimized(A, o))
    ensures o.Shrunk? ==> KeepsLanguages(A, o.size, o.remap, o.comesFrom)
    ensures Minimized(A, o).Deterministic() && (Reduced(Minimized(A, o)) <==> CrashesAgree(A))
    ensures HasBlocks(A, Minimized(A, o).states) && HasBlocks(Minimized(A, o), Minimized(A, o).states)
  {
    var rp, initial := RefineDFA(A, edgelist);
    ghost var blk := rp.Blocks();
    BlockCount(rp.n, rp.partitions[..], rp.stateToPartition[..], rp.bounds);
    BlocksNumbered(rp);
    var size := |rp.bounds|;
    hide *;
    if size == A.states {
      NothingToShrink(A, initial, blk);
      return Unchanged;
    }
    SymbolsFit(A);
    var over, remap, comesFrom := FinishWith(rp, A.states * A.symbols);
    o := Shrunk(size, remap, comesFrom);
    ShrunkRight(A, initial, blk, size, remap, comesFrom);
  }

  lemma SymbolsFit(A: Automaton)
    requires A.symbols > 0
    ensures A.states <= A.states * A.symbols
  {
  }

  lemma NothingToShrink(A: Automaton, initial: seq<nat>, blk: seq<nat>)
    requires A.Valid() && A.Deterministic() && ByObservation(A, initial) && CoarsestStable(A, initial, blk) && |Elems(blk)| == A.states
    requires forall p, q :: 0 <= p < q < A.states ==> blk[p] != blk[q]
    ensures Sensible(A, Unchanged) && Minimized(A, Unchanged) == A && KeepsLanguage(A, A) && (Reduced(A) <==> CrashesAgree(A)) && HasBlocks(A, A.states)
  {
    AlreadyReduced(A, initial, blk);
    assert IsResult(A, blk);
    ResultCounts(A, blk);
  }

  lemma ShrunkRight(A: Automaton, initial: seq<nat>, blk: seq<nat>, size: nat, remap: seq<nat>, comesFrom: seq<nat>)
    requires A.Valid() && A.Deterministic() && A.states > 0 && ByObservation(A, initial) && CoarsestStable(A, initial, blk) && |Elems(blk)| == size < A.states
    requires Renumbers(blk, size, remap, comesFrom)
    ensures var o := Shrunk(size, remap, comesFrom); Sensible(A, o) && KeepsLanguages(A, size, remap, comesFrom) && KeepsLanguage(A, Minimized(A, o))
    ensures var B := Quotient(A, size, remap, comesFrom);
            && B == Minimized(A, Shrunk(size, remap, comesFrom)) && B.states == size && B.Deterministic()
            && (Reduced(B) <==> CrashesAgree(A)) && HasBlocks(A, size) && HasBlocks(B, size)
  {
    assert IsResult(A, blk);
    assert Sensible(A, Shrunk(size, remap, comesFrom));
    ResultCounts(A, blk);
    RenumberedKeepsLanguages(A, initial, blk, size, remap, comesFrom);
    FromInitial(A, size, remap, comesFrom);
    QuotientIsReduced(A, initial, blk, size, remap, comesFrom);
    QuotientApart(A, initial, blk, size, remap, comesFrom);
    hide CoarsestStable, ByObservation, Reduced, CrashesAgree, KeepsLanguages, HasBlocks, IsResult;
  }

  lemma FromInitial(A: Automaton, size: nat, remap: seq<nat>, comesFrom: seq<nat>)
    requires KeepsLanguages(A, size, remap, comesFrom) && A.states > 0 && remap[0] == 0
    ensures KeepsLanguage(A, Quotient(A, size, remap, comesFrom))
  {
    forall w ensures Accepts(Quotient(A, size, remap, comesFrom), 0, w) <==> Accepts(A, 0, w) {
      assert Accepts(Quotient(A, size, remap, comesFrom), remap[0], w) <==> Accepts(A, 0, w);
    }
  }

  /** The initial partition of a DFA, refined to the coarsest stable one. */
  method RefineDFA(A: Automaton, edgelist: seq<Edge>) returns (rp: RefinablePartition, ghost initial: seq<nat>)
    requires A.Valid() && A.Deterministic() && Distinct(edgelist) && Elems(edgelist) == A.trans && A.states > 0
    ensures rp.ValidArrays() && rp.n == A.states && ByObservation(A, initial) && CoarsestStable(A, initial, rp.Blocks())
  {
    rp := Build(A);
    initial := rp.Blocks();
    var index := BuildInverse(A, edgelist);
    assert Uniform(A, initial);
    hide CoarsestStable, ByObservation, Uniform, Listed;
    var core := new HopcroftCore(A, A.symbols, index, rp);
    SomeBlock(rp);
    core.CoreLoop();
  }

  lemma SomeBlock(rp: RefinablePartition)
    requires rp.Valid() && rp.n > 0
    ensures 0 < |rp.bounds| <= rp.n
  {
    BlockCount(rp.n, rp.partitions[..], rp.stateToPartition[..], rp.bounds);
    assert rp.stateToPartition[..][0].0 < |rp.bounds|;
  }

  /** Renumbers into buffers of the sizes the optimizers already have. */
  method FinishWith(rp: RefinablePartition, size: nat) returns (over: bool, remap: seq<nat>, comesFrom: seq<nat>)
    requires rp.ValidArrays() && rp.n > 0
    ensures over <==> |rp.bounds| > size
    ensures !over ==> Renumbers(rp.Blocks(), |rp.bounds|, remap, comesFrom) && |comesFrom| == size
  {
    var to := new nat[rp.n](_ => 0);
    var from := new nat[size](_ => 0);
    over := Finish(rp, to, from);
    remap, comesFrom := to[..], from[..];
  }

  // ---- Shrinking an NFA.

  /** The initial partition of an NFA, refined to the coarsest stable one. */
  method RefineNFA(A: Automaton, edgelist: seq<Edge>, active: seq<nat>) returns (rp: RefinablePartition, ghost initial: seq<nat>)
    requires A.Valid() && Distinct(edgelist) && Elems(edgelist) == A.trans && A.states > 0
    requires Distinct(active) && forall a: nat :: a in active <==> Active(A, a)
    ensures rp.ValidArrays() && rp.n == A.states && ByObservation(A, initial) && CoarsestStable(A, initial, rp.Blocks())
  {
    rp := Build(A);
    initial := rp.Blocks();
    var index := BuildInverse(A, edgelist);
    assert Uniform(A, initial);
    forall a | a in active ensures a < A.symbols {
      var e :| e in A.trans && e.symbol == a;
    }
    assert forall e :: e in A.trans ==> Active(A, e.symbol);
    hide CoarsestStable, ByObservation, Uniform, Listed, ListsOk, SplittersOk, WaitingOk, RepOk;
    SomeBlock(rp);
    var optimizer := new NFAOptimizer(A, active, index, rp);
    optimizer.Run(edgelist);
  }

  ghost predicate Active(A: Automaton, a: nat) {
    exists e :: e in A.trans && e.symbol == a
  }

  /** The automaton after optimizing. */
  ghost function Optimized(A: Automaton, o: Outcome): Automaton
    requires Sensible(A, o)
  {
    match o
    case MadeEmpty => Automaton(1, A.symbols, {}, {})
    case MadeAll => AllStrings(A.symbols)
    case Shrunk(size, remap, comesFrom) => Quotient(A, size, remap, comesFrom)
    case _ => A
  }

  function AllStrings(symbols: nat): Automaton {
    Automaton(1, symbols, set a | 0 <= a < symbols :: Edge(0, a, 0), {0})
  }

  lemma AllStringsKept(A: Automaton)
    requires A.Valid() && A.states > 0 && Universal(A)
    ensures KeepsLanguage(A, AllStrings(A.symbols))
  {
    var B := AllStrings(A.symbols);
    forall a: nat | a < A.symbols ensures B.CanStep(0, a) {
      assert B.Has(0, a, 0);
    }
    assert Steady(B, 0) && Universal(B);
    forall w ensures Accepts(B, 0, w) <==> Accepts(A, 0, w) {
      UniversalAccepts(A, 0, w);
      UniversalAccepts(B, 0, w);
    }
  }

  /** The number of blocks, whatever they are called. */
  lemma BlocksNumbered(rp: RefinablePartition)
    requires rp.ValidArrays()
    ensures |Elems(rp.Blocks())| == |rp.bounds|
  {
    var blk := rp.Blocks();
    forall b: nat ensures b in Elems(blk) <==> b < |rp.bounds| {
      if b < |rp.bounds| {
        var s := rp.partitions[..][rp.bounds[b].0];
        assert blk[s] == b;
      }
    }
    AllBelow(Elems(blk), |rp.bounds|);
  }

  /** One result decides whether the buffer is large enough. */
  lemma ResultDecides(A: Automaton, blk: seq<nat>)
    requires IsResult(A, blk)
    ensures StaysInside(A) <==> |Elems(blk)| == A.states || |Elems(blk)| <= |A.trans|
  {
    hide IsResult;
    forall other: seq<nat> | IsResult(A, other) ensures |Elems(other)| == |Elems(blk)| {
      SameCount(A, other, blk);
    }
  }

  /** Without rejecting states their block is empty; it is kept if there is no symbol to cut by. */
  ghost predicate EmptyBlock(A: Automaton) {
    A.trans == {} && forall s: nat :: s < A.states ==> s in A.accept
  }

  /** The run stays inside its buffer. */
  ghost predicate FitsBuffer(A: Automaton) {
    if EmptyBlock(A) then A.states == 2 else StaysInside(A)
  }

  /**
   Shrinks an NFA to one state for each block, after which it cannot be shrunk further.  The table of sources reuses a
   buffer with one place per transition, and the run reaches beyond its end exactly if some state goes but not enough
   of them.
   */
  method Optimize(A: Automaton, edgelist: seq<Edge>, active: seq<nat>) returns (o: Outcome)
    requires A.Valid() && Distinct(edgelist) && Elems(edgelist) == A.trans && A.states > 0
    requires Distinct(active) && forall a: nat :: a in active <==> Active(A, a)
    ensures Sensible(A, o)
    ensures (o.MadeEmpty? <==> A.accept == {}) && (o.MadeAll? <==> Universal(A))
    ensures o.Overran? <==> A.accept != {} && !Universal(A) && !FitsBuffer(A)
    ensures !o.Overran? ==> KeepsLanguage(A, Optimized(A, o))
    ensures o.Shrunk? ==> KeepsLanguages(A, o.size, o.remap, o.comesFrom)
    ensures o.Unchanged? ==> HasBlocks(A, A.states) || EmptyBlock(A)
    ensures o.Shrunk? ==> HasBlocks(A, o.size) && HasBlocks(Optimized(A, o), o.size)
  {
    if A.accept == {} {
      EmptyKept(A);
      return MadeEmpty;
    }
    if (forall s: nat | s < A.states :: s in A.accept) && (forall s: nat | s < A.states :: NeverCrashes(A, s)) {
      forall s: nat | s < A.states ensures s in A.accept && Steady(A, s) {
        assert NeverCrashes(A, s);
      }
      AllStringsKept(A);
      return MadeAll;
    }
    assert !Universal(A);
    NoEdgeNoTransition(A, edgelist);
    if edgelist == [] && forall s: nat | s < A.states :: s in A.accept {
      SameAutomaton(A);
      return if A.states == 2 then Unchanged else Overran;
    }
    assert !EmptyBlock(A);
    var rp, initial := RefineNFA(A, edgelist, active);
    ghost var blk := rp.Blocks();
    assert IsResult(A, blk);
    ResultDecides(A, blk);
    ResultCounts(A, blk);
    BlocksNumbered(rp);
    DistinctSize(edgelist);
    hide HasBlocks, EmptyBlock, CoarsestStable, ByObservation, KeepsLanguages, Stable, Uniform, IsResult, StaysInside, Universal, KeepsLanguage, Elems;
    BlockCount(rp.n, rp.partitions[..], rp.stateToPartition[..], rp.bounds);
    hide RepOk;
    var size := |rp.bounds|;
    if size == A.states {
      SameAutomaton(A);
      return Unchanged;
    }
    var over, remap, comesFrom := FinishWith(rp, |edgelist|);
    if over {
      return Overran;
    }
    RenumberedKeepsLanguages(A, initial, blk, size, remap, comesFrom);
    QuotientApart(A, initial, blk, size, remap, comesFrom);
    FromInitial(A, size, remap, comesFrom);
    o := Shrunk(size, remap, comesFrom);
  }

  lemma NoEdgeNoTransition(A: Automaton, edgelist: seq<Edge>)
    requires Elems(edgelist) == A.trans
    ensures edgelist == [] <==> A.trans == {}
  {
    if edgelist != [] {
      assert edgelist[0] in Elems(edgelist);
    }
  }

  lemma SameAutomaton(A: Automaton)
    ensures KeepsLanguage(A, A)
  {
  }

  /** If every state but 0 is entered by some transition there are enough transitions. */
  lemma EnteredMeansEnough(A: Automaton, edgelist: seq<Edge>)
    requires A.Valid() && Elems(edgelist) == A.trans && forall s :: 0 < s < A.states ==> Entered(A, s)
    ensures A.states <= |edgelist| + 1
  {
    var targets := seq(|edgelist|, i requires 0 <= i < |edgelist| => edgelist[i].target);
    forall s: nat | 0 < s < A.states ensures s in targets {
      assert Entered(A, s);
      var e :| e in A.trans && e.target == s;
      assert e in Elems(edgelist);
      var i :| 0 <= i < |edgelist| && edgelist[i] == e;
      assert targets[i] == s;
    }
    ManyTargets(targets, A.states);
  }

  ghost predicate Entered(A: Automaton, s: nat) {
    exists e :: e in A.trans && e.target == s
  }

  lemma {:induction false} ManyTargets(targets: seq<nat>, n: nat)
    requires forall s: nat :: 0 < s < n ==> s in targets
    ensures n <= |targets| + 1
  {
    if n > 1 {
      assert n - 1 in targets;
      var i :| 0 <= i < |targets| && targets[i] == n - 1;
      var rest := targets[..i] + targets[i + 1..];
      forall s: nat | 0 < s < n - 1 ensures s in rest {
        assert s in targets;
        var j :| 0 <= j < |targets| && targets[j] == s;
        assert rest[if j < i then j else j - 1] == s;
      }
      ManyTargets(rest, n - 1);
    }
  }

  /** So an automaton whose states are all entered is safe. */
  lemma EnteredMeansInside(A: Automaton, edgelist: seq<Edge>)
    requires A.Valid() && Distinct(edgelist) && Elems(edgelist) == A.trans && forall s :: 0 < s < A.states ==> Entered(A, s)
    ensures StaysInside(A) && (A.trans != {} ==> FitsBuffer(A))
  {
    EnteredMeansEnough(A, edgelist);
    DistinctSize(edgelist);
    forall blk: seq<nat> | IsResult(A, blk) ensures |Elems(blk)| == A.states || |Elems(blk)| <= |A.trans| {
      ElemsSize(blk);
    }
  }
}
