/** Minimizing an automaton. */
module ExplodedMinimizer {
  // Determinize, remove dead states, refine, number the blocks.  The two trivial languages are recognised on the
  // way, one of them wrongly.

  import opened Automata
  import opened SeqFacts
  import opened Languages
  import opened Determinization
  import opened MinimalSize
  import opened RefinablePartitions
  import opened HopcroftTheory
  import opened Survivors
  import opened Quotients
  import opened Minimization

  // ---- Edges and accepting states as lists.

  method EdgesFrom(D: Automaton, s: nat) returns (edges: seq<Edge>)
    requires D.Valid()
    ensures Distinct(edges) && forall e :: e in edges <==> e in D.trans && e.source == s
  {
    edges := [];
    var a := 0;
    while a < D.symbols
      invariant a <= D.symbols && Distinct(edges)
      invariant forall e :: e in edges <==> e in D.trans && e.source == s && e.symbol < a
    {
      var t := 0;
      while t < D.states
        invariant t <= D.states && Distinct(edges)
        invariant forall e :: e in edges <==> e in D.trans && e.source == s && (e.symbol < a || (e.symbol == a && e.target < t))
      {
        if Edge(s, a, t) in D.trans {
          edges := edges + [Edge(s, a, t)];
        }
        t := t + 1;
      }
      a := a + 1;
    }
  }

  method EdgesOf(D: Automaton) returns (edges: seq<Edge>)
    requires D.Valid()
    ensures Distinct(edges) && Elems(edges) == D.trans
  {
    edges := [];
    var s := 0;
    while s < D.states
      invariant s <= D.states && Distinct(edges)
      invariant forall e :: e in edges <==> e in D.trans && e.source < s
    {
      var more := EdgesFrom(D, s);
      DistinctConcat(edges, more);
      edges := edges + more;
      s := s + 1;
    }
  }

  method AcceptsOf(D: Automaton) returns (accepts: seq<nat>)
    requires D.Valid()
    ensures Distinct(accepts) && forall s :: s in accepts <==> s in D.accept
  {
    accepts := [];
    var s := 0;
    while s < D.states
      invariant s <= D.states && Distinct(accepts)
      invariant forall t :: t in accepts <==> t in D.accept && t < s
    {
      if s in D.accept {
        accepts := accepts + [s];
      }
      s := s + 1;
    }
  }

  // ---- Dead states.

  ghost function Below(n: nat): (all: set<nat>)
    ensures forall x: nat :: x in all <==> x < n
  {
    if n == 0 then {} else Below(n - 1) + {n - 1}
  }

  lemma BelowSize(n: nat)
    ensures |Below(n)| == n
  {
    AllBelow(Below(n), n);
  }

  /** States are numbered from 0 on, each once. */
  ghost predicate Numbering(D: Automaton, numbers: map<nat, nat>) {
    && (forall s :: s in numbers ==> s < D.states && numbers[s] < |numbers|)
    && (forall s, t :: s in numbers && t in numbers && numbers[s] == numbers[t] ==> s == t)
  }

  /** All that is numbered is live, accepting states are, and predecessors of what has been dealt with are. */
  ghost predicate Searching(D: Automaton, numbers: map<nat, nat>, pending: set<nat>) {
    && Numbering(D, numbers) && (forall s :: s in numbers ==> Live(D, s))
    && D.accept <= numbers.Keys
    && (forall e :: e in D.trans && e.target in numbers && e.target !in pending ==> e.source in numbers)
  }

  lemma NumberOne(D: Automaton, numbers: map<nat, nat>, s: nat)
    requires Numbering(D, numbers) && s < D.states && s !in numbers
    ensures Numbering(D, numbers[s := |numbers|]) && |numbers[s := |numbers|]| == |numbers| + 1
  {
    NewKey(numbers, s, |numbers|);
  }

  lemma NewKey(m: map<nat, nat>, s: nat, x: nat)
    requires s !in m
    ensures m[s := x].Keys == m.Keys + {s} && |m[s := x]| == |m| + 1
  {
    var now := m[s := x];
    assert now.Keys == m.Keys + {s};
    assert |now| == |now.Keys| && |m| == |m.Keys|;
  }

  lemma NumbersFit(D: Automaton, numbers: map<nat, nat>)
    requires Numbering(D, numbers)
    ensures |numbers| <= D.states && (|numbers| == D.states ==> forall s: nat :: s < D.states ==> s in numbers)
  {
    BelowSize(D.states);
    assert numbers.Keys <= Below(D.states);
    SubsetSize(numbers.Keys, Below(D.states));
    assert |numbers| == |numbers.Keys|;
  }

  /** A predecessor of a live state is live. */
  lemma LiveBackward(D: Automaton, e: Edge)
    requires e in D.trans && Live(D, e.target)
    ensures Live(D, e.source)
  {
    var w :| Accepts(D, e.target, w);
    assert D.Has(e.source, e.symbol, e.target);
    assert ([e.symbol] + w)[1..] == w;
    assert Accepts(D, e.source, [e.symbol] + w);
  }

  /** One more live state is numbered, and its predecessors are left for later. */
  lemma SearchGrows(D: Automaton, numbers: map<nat, nat>, pending: set<nat>, s: nat)
    requires Searching(D, numbers, pending) && s < D.states && s !in numbers && Live(D, s)
    ensures Searching(D, numbers[s := |numbers|], pending + {s}) && |numbers[s := |numbers|]| == |numbers| + 1
  {
    NumberOne(D, numbers, s);
    hide Numbering, Live;
  }

  /** All predecessors of `n` have been numbered. */
  lemma SearchSettles(D: Automaton, numbers: map<nat, nat>, pending: set<nat>, n: nat)
    requires Searching(D, numbers, pending + {n}) && forall e :: e in D.trans && e.target == n ==> e.source in numbers
    ensures Searching(D, numbers, pending)
  {
    hide Numbering, Live;
  }

  /** The first `i` accepting states are numbered in order. */
  ghost predicate NumberedFirst(D: Automaton, accepts: seq<nat>, numbers: map<nat, nat>, i: nat) {
    && i <= |accepts| && Numbering(D, numbers) && |numbers| == i
    && (forall s :: s in numbers <==> s in accepts[..i])
    && (i > 0 ==> accepts[0] in numbers && numbers[accepts[0]] == 0)
  }

  lemma NumberedNext(D: Automaton, accepts: seq<nat>, numbers: map<nat, nat>, i: nat)
    requires NumberedFirst(D, accepts, numbers, i) && i < |accepts| && Distinct(accepts) && accepts[i] < D.states
    ensures NumberedFirst(D, accepts, numbers[accepts[i] := |numbers|], i + 1)
  {
    assert accepts[..i + 1] == accepts[..i] + [accepts[i]];
    NumberOne(D, numbers, accepts[i]);
    hide Numbering;
  }

  /** Numbers the accepting states. */
  method NumberAccepting(D: Automaton, accepts: seq<nat>) returns (numbers: map<nat, nat>)
    requires D.Valid() && Distinct(accepts) && forall s :: s in accepts <==> s in D.accept
    ensures Searching(D, numbers, numbers.Keys) && numbers.Keys == D.accept
    ensures accepts != [] ==> accepts[0] in numbers && numbers[accepts[0]] == 0
  {
    numbers := map[];
    var i := 0;
    while i < |accepts|
      invariant NumberedFirst(D, accepts, numbers, i)
    {
      assert accepts[i] in accepts;
      NumberedNext(D, accepts, numbers, i);
      numbers := numbers[accepts[i] := |numbers|];
      i := i + 1;
    }
    assert accepts[..i] == accepts;
    forall s | s in numbers ensures Live(D, s) {
      assert Accepts(D, s, []);
    }
  }

  /** Nothing, or numbers added to those there were. */
  ghost predicate Extends(numbers0: map<nat, nat>, nexts0: seq<nat>, numbers: map<nat, nat>, nexts: seq<nat>) {
    && numbers0.Keys <= numbers.Keys && (forall s :: s in numbers0 ==> numbers[s] == numbers0[s])
    && ((numbers == numbers0 && nexts == nexts0) || |numbers0| < |numbers|)
  }

  lemma ExtendsOne(numbers0: map<nat, nat>, nexts0: seq<nat>, numbers: map<nat, nat>, nexts: seq<nat>, s: nat)
    requires Extends(numbers0, nexts0, numbers, nexts) && s !in numbers
    ensures Extends(numbers0, nexts0, numbers[s := |numbers|], nexts + [s])
    ensures Elems(nexts) <= numbers.Keys ==> Elems(nexts + [s]) <= numbers[s := |numbers|].Keys
  {
    NewKey(numbers, s, |numbers|);
    forall t | t in Elems(nexts + [s]) ensures t in Elems(nexts) || t == s {
    }
    hide Elems;
    assert numbers[s := |numbers|] != numbers0;
  }

  /** The first `i` edges have been looked at for predecessors of `n`. */
  ghost predicate Looked(edges: seq<Edge>, n: nat, numbers: map<nat, nat>, i: nat) {
    i <= |edges| && forall j :: 0 <= j < i && edges[j].target == n ==> edges[j].source in numbers
  }

  lemma LookedAtAll(D: Automaton, edges: seq<Edge>, n: nat, numbers: map<nat, nat>, pending: set<nat>)
    requires Elems(edges) == D.trans && Looked(edges, n, numbers, |edges|) && Searching(D, numbers, pending + {n})
    ensures Searching(D, numbers, pending)
  {
    forall e | e in D.trans && e.target == n ensures e.source in numbers {
      assert e in Elems(edges);
      var j :| 0 <= j < |edges| && edges[j] == e;
    }
    SearchSettles(D, numbers, pending, n);
  }

  /** What the loop over the edges keeps while it looks for predecessors of `n`. */
  ghost predicate Looking(D: Automaton, edges: seq<Edge>, n: nat, numbers0: map<nat, nat>, nexts0: seq<nat>, numbers: map<nat, nat>, nexts: seq<nat>, i: nat) {
    && Looked(edges, n, numbers, i) && Searching(D, numbers, Elems(nexts) + {n}) && Elems(nexts) <= numbers.Keys && Live(D, n)
    && Extends(numbers0, nexts0, numbers, nexts)
  }

  lemma LookedAtOne(D: Automaton, edges: seq<Edge>, n: nat, numbers0: map<nat, nat>, nexts0: seq<nat>, numbers: map<nat, nat>, nexts: seq<nat>, i: nat)
    requires D.Valid() && Elems(edges) == D.trans && Looking(D, edges, n, numbers0, nexts0, numbers, nexts, i) && i < |edges|
    ensures var s := edges[i].source;
            if edges[i].target == n && s !in numbers then Looking(D, edges, n, numbers0, nexts0, numbers[s := |numbers|], nexts + [s], i + 1)
            else Looking(D, edges, n, numbers0, nexts0, numbers, nexts, i + 1)
  {
    var e := edges[i];
    assert e in Elems(edges);
    hide Searching, Numbering, Live, Extends;
    if e.target == n && e.source !in numbers {
      LiveBackward(D, e);
      SearchGrows(D, numbers, Elems(nexts) + {n}, e.source);
      ExtendsOne(numbers0, nexts0, numbers, nexts, e.source);
      assert Elems(nexts + [e.source]) + {n} == Elems(nexts) + {n} + {e.source};
    }
  }

  /** Numbers the predecessors of `n` that have no number yet, and notes them. */
  method NumberPredecessors(D: Automaton, edges: seq<Edge>, n: nat, numbers0: map<nat, nat>, nexts0: seq<nat>) returns (numbers: map<nat, nat>, nexts: seq<nat>)
    requires D.Valid() && Elems(edges) == D.trans && n in numbers0 && Searching(D, numbers0, Elems(nexts0) + {n}) && Elems(nexts0) <= numbers0.Keys
    ensures Searching(D, numbers, Elems(nexts)) && Elems(nexts) <= numbers.Keys && Extends(numbers0, nexts0, numbers, nexts)
  {
    numbers, nexts := numbers0, nexts0;
    var i := 0;
    assert Looking(D, edges, n, numbers0, nexts0, numbers, nexts, 0);
    while i < |edges|
      invariant i <= |edges| && Looking(D, edges, n, numbers0, nexts0, numbers, nexts, i)
    {
      hide *;
      var e := edges[i];
      LookedAtOne(D, edges, n, numbers0, nexts0, numbers, nexts, i);
      if e.target == n && e.source !in numbers {
        numbers, nexts := numbers[e.source := |numbers|], nexts + [e.source];
      }
      i := i + 1;
    }
    LookedAtAll(D, edges, n, numbers, Elems(nexts));
  }

  /** Numbers exactly the states that can reach acceptance. */
  method NumberLive(D: Automaton, edges: seq<Edge>, accepts: seq<nat>) returns (numbers: map<nat, nat>)
    requires D.Valid() && Elems(edges) == D.trans && Distinct(accepts) && forall s :: s in accepts <==> s in D.accept
    ensures Numbering(D, numbers) && forall s: nat :: s < D.states ==> (s in numbers <==> Live(D, s))
    ensures accepts != [] ==> accepts[0] in numbers && numbers[accepts[0]] == 0
  {
    numbers := NumberAccepting(D, accepts);
    var nexts := accepts;
    assert Elems(nexts) == numbers.Keys;
    NumbersFit(D, numbers);
    while nexts != [] && |numbers| < D.states
      invariant Searching(D, numbers, Elems(nexts)) && Elems(nexts) <= numbers.Keys && |numbers| <= D.states
      invariant accepts != [] ==> accepts[0] in numbers && numbers[accepts[0]] == 0
      decreases D.states - |numbers|, |nexts|
    {
      var n, rest := nexts[|nexts| - 1], nexts[..|nexts| - 1];
      assert nexts == rest + [n];
      assert Elems(nexts) == Elems(rest) + {n} && n in Elems(nexts);
      numbers, nexts := NumberPredecessors(D, edges, n, numbers, rest);
      NumbersFit(D, numbers);
    }
    NumbersFit(D, numbers);
    forall s: nat | s < D.states ensures s in numbers <==> Live(D, s) {
      if Live(D, s) && |numbers| < D.states {
        assert Elems(nexts) == {};
        var w :| Accepts(D, s, w);
        LiveIsNumbered(D, numbers, s, w);
      }
    }
  }

  lemma {:induction false} LiveIsNumbered(D: Automaton, numbers: map<nat, nat>, s: nat, w: Word)
    requires D.Valid() && Searching(D, numbers, {}) && Accepts(D, s, w)
    ensures s in numbers
    decreases |w|
  {
    if w != [] {
      var t: nat :| D.Has(s, w[0], t) && Accepts(D, t, w[1..]);
      LiveIsNumbered(D, numbers, t, w[1..]);
      assert Edge(s, w[0], t) in D.trans;
    }
  }

  /** An edge between numbered states leads from number `x` to number `y`. */
  ghost predicate Between(D: Automaton, numbers: map<nat, nat>, x: nat, a: nat, y: nat) {
    exists s: nat, t: nat :: D.Has(s, a, t) && Named(numbers, s, x) && Named(numbers, t, y)
  }

  ghost predicate Named(numbers: map<nat, nat>, s: nat, x: nat) {
    s in numbers && numbers[s] == x
  }

  /** `E` is what is left of `D`, under the new numbers. */
  ghost predicate Trimmed(D: Automaton, numbers: map<nat, nat>, E: Automaton) {
    && E.states == |numbers| && E.symbols == D.symbols
    && (forall x: nat, a: nat, y: nat :: E.Has(x, a, y) <==> Between(D, numbers, x, a, y))
    && (forall x: nat :: x in E.accept <==> exists s :: s in D.accept && Named(numbers, s, x))
  }

  method Trim(D: Automaton, numbers: map<nat, nat>) returns (E: Automaton)
    requires D.Valid() && Numbering(D, numbers)
    ensures Trimmed(D, numbers, E) && E.Valid()
  {
    E := Automaton(|numbers|, D.symbols,
                   set e | e in D.trans && e.source in numbers && e.target in numbers :: Edge(numbers[e.source], e.symbol, numbers[e.target]),
                   set s | s in D.accept && s in numbers :: numbers[s]);
    forall x: nat, a: nat, y: nat ensures E.Has(x, a, y) <==> Between(D, numbers, x, a, y) {
      if E.Has(x, a, y) {
        var e :| e in D.trans && e.source in numbers && e.target in numbers && Edge(x, a, y) == Edge(numbers[e.source], e.symbol, numbers[e.target]);
        assert D.Has(e.source, a, e.target) && Named(numbers, e.source, x) && Named(numbers, e.target, y);
      }
      if Between(D, numbers, x, a, y) {
        var s: nat, t: nat :| D.Has(s, a, t) && Named(numbers, s, x) && Named(numbers, t, y);
        assert Edge(s, a, t) in D.trans;
      }
    }
  }

  lemma {:induction false} TrimmedAccepts(D: Automaton, numbers: map<nat, nat>, E: Automaton, s: nat, w: Word)
    requires D.Valid() && Numbering(D, numbers) && Trimmed(D, numbers, E) && s in numbers
    requires forall t: nat :: t < D.states && Live(D, t) ==> t in numbers
    ensures Accepts(E, numbers[s], w) <==> Accepts(D, s, w)
    decreases |w|
  {
    if w == [] {
      if s in D.accept {
        assert Named(numbers, s, numbers[s]);
      }
    } else {
      if Accepts(E, numbers[s], w) {
        var y: nat :| E.Has(numbers[s], w[0], y) && Accepts(E, y, w[1..]);
        assert Between(D, numbers, numbers[s], w[0], y);
        var p: nat, t: nat :| D.Has(p, w[0], t) && Named(numbers, p, numbers[s]) && Named(numbers, t, y);
        assert p == s;
        TrimmedAccepts(D, numbers, E, t, w[1..]);
      }
      if Accepts(D, s, w) {
        var t: nat :| D.Has(s, w[0], t) && Accepts(D, t, w[1..]);
        assert Edge(s, w[0], t) in D.trans && Live(D, t);
        TrimmedAccepts(D, numbers, E, t, w[1..]);
        assert Named(numbers, s, numbers[s]) && Named(numbers, t, numbers[t]);
        assert Between(D, numbers, numbers[s], w[0], numbers[t]);
      }
    }
  }

  /** A deterministic automaton whose states are all live and all reached. */
  ghost predicate IsTrim(E: Automaton) {
    && Usable(E) && E.Deterministic() && (forall s: nat :: s < E.states ==> Live(E, s))
    && (forall s: nat :: s < E.states ==> Residual(E, s))
  }

  /** The number of each number's state. */
  ghost function Owner(D: Automaton, numbers: map<nat, nat>, x: nat): (s: nat)
    requires Numbering(D, numbers) && x < |numbers|
    ensures s in numbers && numbers[s] == x
  {
    NumberedOnto(D, numbers, x);
    var s: nat :| s in numbers && numbers[s] == x;
    s
  }

  lemma NumberedOnto(D: Automaton, numbers: map<nat, nat>, x: nat)
    requires Numbering(D, numbers) && x < |numbers|
    ensures exists s: nat :: s in numbers && numbers[s] == x
  {
    InjectiveValues(numbers);
    BelowSize(|numbers|);
    assert numbers.Values <= Below(|numbers|) && |numbers| == |numbers.Keys|;
    SubsetSize(numbers.Values, Below(|numbers|));
    assert x in numbers.Values;
  }

  lemma TrimmedIsTrim(D: Automaton, numbers: map<nat, nat>, E: Automaton)
    requires D.Valid() && D.Deterministic() && D.states > 0 && (forall s: nat :: s < D.states ==> Residual(D, s))
    requires Numbering(D, numbers) && (forall s: nat :: s < D.states ==> (s in numbers <==> Live(D, s))) && 0 in numbers && numbers[0] == 0
    requires Trimmed(D, numbers, E) && E.Valid()
    ensures IsTrim(E) && LangFrom(E, 0) == LangFrom(D, 0)
  {
    assert |numbers| > 0;
    forall x: nat | x < E.states ensures Live(E, x) && Residual(E, x) {
      TrimmedState(D, numbers, E, x);
    }
    TrimmedDeterministic(D, numbers, E);
    forall w: Word ensures w in LangFrom(E, 0) <==> w in LangFrom(D, 0) {
      TrimmedAccepts(D, numbers, E, 0, w);
    }
  }

  lemma TrimmedState(D: Automaton, numbers: map<nat, nat>, E: Automaton, x: nat)
    requires D.Valid() && D.states > 0 && (forall s: nat :: s < D.states ==> Residual(D, s))
    requires Numbering(D, numbers) && (forall s: nat :: s < D.states ==> (s in numbers <==> Live(D, s))) && 0 in numbers && numbers[0] == 0
    requires Trimmed(D, numbers, E) && x < |numbers|
    ensures Live(E, x) && Residual(E, x)
  {
    var s := Owner(D, numbers, x);
    assert Live(D, s) && Residual(D, s);
    var w :| Accepts(D, s, w);
    TrimmedAccepts(D, numbers, E, s, w);
    var u: Word :| ResidualBy(D, u, s);
    forall v: Word ensures Accepts(E, 0, u + v) <==> Accepts(E, x, v) {
      TrimmedAccepts(D, numbers, E, 0, u + v);
      TrimmedAccepts(D, numbers, E, s, v);
      assert Accepts(D, 0, u + v) <==> Accepts(D, s, v);
    }
    assert ResidualBy(E, u, x);
  }

  lemma TrimmedDeterministic(D: Automaton, numbers: map<nat, nat>, E: Automaton)
    requires D.Deterministic() && Numbering(D, numbers) && Trimmed(D, numbers, E)
    ensures E.Deterministic()
  {
    forall x: nat, a: nat, y: nat, z: nat | E.Has(x, a, y) && E.Has(x, a, z) ensures y == z {
      assert Between(D, numbers, x, a, y) && Between(D, numbers, x, a, z);
      var s: nat, t: nat :| D.Has(s, a, t) && Named(numbers, s, x) && Named(numbers, t, y);
      var p: nat, q: nat :| D.Has(p, a, q) && Named(numbers, p, x) && Named(numbers, q, z);
      assert s == p;
    }
  }

  /** Removes the states that cannot reach acceptance; state 0 stays state 0. */
  method RemoveDeadStates(D: Automaton) returns (E: Automaton)
    requires Usable(D) && D.Deterministic() && D.accept != {} && forall s: nat :: s < D.states ==> Residual(D, s)
    ensures IsTrim(E) && E.symbols == D.symbols && LangFrom(E, 0) == LangFrom(D, 0)
  {
    var edges := EdgesOf(D);
    var accepts := AcceptsOf(D);
    var numbers := NumberLive(D, edges, accepts);
    StartIsLive(D);
    ghost var some :| some in D.accept;
    assert some in accepts;
    if |numbers| == D.states {
      NumbersFit(D, numbers);
      return D;
    }
    var first := accepts[0];
    var swapped := numbers[0 := 0][first := numbers[0]];
    SwapKeepsNumbering(D, numbers, first);
    E := Trim(D, swapped);
    TrimmedIsTrim(D, swapped, E);
  }

  lemma SwapKeepsNumbering(D: Automaton, numbers: map<nat, nat>, first: nat)
    requires Numbering(D, numbers) && 0 in numbers && first in numbers && numbers[first] == 0
    ensures var now := numbers[0 := 0][first := numbers[0]];
            Numbering(D, now) && now.Keys == numbers.Keys && now[0] == 0
  {
    var now := numbers[0 := 0][first := numbers[0]];
    assert now.Keys == numbers.Keys;
    assert |now| == |now.Keys| == |numbers.Keys| == |numbers|;
    forall s: nat, t: nat | s in now && t in now && now[s] == now[t] ensures s == t {
      Swapped(numbers, first, s);
      Swapped(numbers, first, t);
    }
  }

  lemma Swapped(numbers: map<nat, nat>, first: nat, s: nat)
    requires 0 in numbers && first in numbers && numbers[first] == 0 && s in numbers
    ensures numbers[0 := 0][first := numbers[0]][s] == numbers[if s == 0 then first else if s == first then 0 else s]
  {
  }

  /** If some state accepts and every state is reached, the initial state is live. */
  lemma StartIsLive(D: Automaton)
    requires Usable(D) && D.accept != {} && forall s: nat :: s < D.states ==> Residual(D, s)
    ensures Live(D, 0)
  {
    var s :| s in D.accept;
    assert Residual(D, s);
    var w: Word :| ResidualBy(D, w, s);
    var none: Word := [];
    assert Accepts(D, s, none);
    assert Accepts(D, 0, w + none);
  }

  // ---- Universal automata.

  /** A trimmed automaton is universal exactly if it accepts all words. */
  lemma UniversalIffAll(E: Automaton)
    requires IsTrim(E)
    ensures Universal(E) <==> LangFrom(E, 0) == Over(E.symbols)
  {
    if Universal(E) {
      forall w: Word ensures w in LangFrom(E, 0) <==> w in Over(E.symbols) {
        UniversalAccepts(E, 0, w);
      }
    }
    if LangFrom(E, 0) == Over(E.symbols) {
      forall s: nat | s < E.states ensures s in E.accept && Steady(E, s) {
        AllAccepted(E, s);
      }
    }
  }

  lemma AllAccepted(E: Automaton, s: nat)
    requires IsTrim(E) && LangFrom(E, 0) == Over(E.symbols) && s < E.states
    ensures s in E.accept && Steady(E, s)
  {
    assert Live(E, s) && Residual(E, s);
    var v: Word :| Accepts(E, s, v);
    var w: Word :| ResidualBy(E, w, s);
    assert w + v in LangFrom(E, 0);
    forall i | 0 <= i < |w| ensures w[i] < E.symbols {
      assert (w + v)[i] == w[i];
    }
    var none: Word := [];
    assert w + none == w && w in LangFrom(E, 0);
    assert Accepts(E, s, none);
    forall a: nat | a < E.symbols ensures E.CanStep(s, a) {
      var one: Word := [a];
      assert w + one in Over(E.symbols);
      assert w + one in LangFrom(E, 0);
      assert Accepts(E, s, one);
      var t: nat :| E.Has(s, one[0], t) && Accepts(E, t, one[1..]);
    }
  }

  // ---- Accepting states everywhere.

  ghost predicate PrefixClosed(l: Lang) {
    forall u: Word, v: Word :: u + v in l ==> u in l
  }

  ghost predicate AllAccept(E: Automaton) {
    forall s: nat :: s < E.states ==> s in E.accept
  }

  /** All states of a trimmed automaton accept exactly if prefixes of accepted words are accepted. */
  lemma AllAcceptIffPrefixClosed(E: Automaton)
    requires IsTrim(E)
    ensures AllAccept(E) <==> PrefixClosed(LangFrom(E, 0))
  {
    if AllAccept(E) {
      forall u: Word, v: Word | u + v in LangFrom(E, 0) ensures u in LangFrom(E, 0) {
        PrefixAccepted(E, 0, u, v);
      }
    }
    if PrefixClosed(LangFrom(E, 0)) {
      forall s: nat | s < E.states ensures s in E.accept {
        assert Live(E, s) && Residual(E, s);
        var v: Word :| Accepts(E, s, v);
        var w: Word :| ResidualBy(E, w, s);
        assert w + v in LangFrom(E, 0);
        var none: Word := [];
        assert w + none == w && w in LangFrom(E, 0);
        assert Accepts(E, s, none);
      }
    }
  }

  lemma {:induction false} PrefixAccepted(E: Automaton, s: nat, u: Word, v: Word)
    requires E.Valid() && AllAccept(E) && s < E.states && Accepts(E, s, u + v)
    ensures Accepts(E, s, u)
    decreases |u|
  {
    if u != [] {
      assert (u + v)[0] == u[0] && (u + v)[1..] == u[1..] + v;
      var t: nat :| E.Has(s, u[0], t) && Accepts(E, t, u[1..] + v);
      assert Edge(s, u[0], t) in E.trans;
      PrefixAccepted(E, t, u[1..], v);
    }
  }

  // ---- Numbering the blocks and putting the automaton together again.

  function NumberOf(initialPart: nat, b: nat): nat {
    if b == initialPart then 0 else if b < initialPart then b + 1 else b
  }

  /** Gives the block of state 0 number 0 and the others the next numbers in turn; `spare` blocks before them are empty. */
  method NumberBlocks(rp: RefinablePartition, spare: nat) returns (renumbering: seq<nat>)
    requires rp.ValidArrays() && rp.n > 0
    ensures Renumbered(rp.Blocks(), spare, renumbering)
  {
    hide RepOk;
    BlocksBelow(rp);
    var initialPart := spare + rp.stateToPartition[0].0;
    var numbers := new nat[rp.n](_ => 0);
    var newNumber, i := 1, 0;
    while i < spare + |rp.bounds|
      invariant i <= spare + |rp.bounds| && newNumber == if i <= initialPart then i + 1 else i
      invariant forall s: nat :: s < rp.n && spare + rp.Blocks()[s] < i ==> numbers[s] == NumberOf(initialPart, spare + rp.Blocks()[s])
    {
      var q := 0;
      if i != initialPart {
        q, newNumber := newNumber, newNumber + 1;
      }
      if spare <= i {
        AssignSpare(rp, i - spare, q, numbers);
      }
      i := i + 1;
    }
    renumbering := numbers[..];
  }

  ghost predicate Renumbered(blk: seq<nat>, spare: nat, r: seq<nat>) {
    |r| == |blk| > 0 && forall s: nat :: s < |r| ==> r[s] == NumberOf(spare + blk[0], spare + blk[s])
  }

  ghost predicate Mapped(E: Automaton, r: seq<nat>, x: nat, a: nat, y: nat) {
    exists s: nat, t: nat :: s < |r| && t < |r| && E.Has(s, a, t) && r[s] == x && r[t] == y
  }

  /** Every edge and every accepting state under its new number. */
  ghost predicate Imploded(E: Automaton, r: seq<nat>, B: Automaton) {
    && |r| == E.states && B.symbols == E.symbols && B.Valid()
    && (forall x: nat, a: nat, y: nat :: B.Has(x, a, y) <==> Mapped(E, r, x, a, y))
    && (forall x: nat :: x in B.accept <==> exists s :: s in E.accept && s < |r| && r[s] == x)
  }

  method Implode(E: Automaton, r: seq<nat>, k: nat) returns (B: Automaton)
    requires E.Valid() && |r| == E.states && forall s :: 0 <= s < |r| ==> r[s] < k
    ensures Imploded(E, r, B) && B.states == k
  {
    B := Automaton(k, E.symbols, set e | e in E.trans :: Edge(r[e.source], e.symbol, r[e.target]), set s | s in E.accept :: r[s]);
    forall x: nat, a: nat, y: nat ensures B.Has(x, a, y) <==> Mapped(E, r, x, a, y) {
      if B.Has(x, a, y) {
        var e :| e in E.trans && Edge(x, a, y) == Edge(r[e.source], e.symbol, r[e.target]);
        assert E.Has(e.source, a, e.target);
      }
      if Mapped(E, r, x, a, y) {
        var s: nat, t: nat :| s < |r| && t < |r| && E.Has(s, a, t) && r[s] == x && r[t] == y;
        assert Edge(s, a, t) in E.trans;
      }
    }
  }

  /** Numbers tell blocks apart. */
  ghost predicate Separates(blk: seq<nat>, r: seq<nat>) {
    |r| == |blk| && forall s: nat, t: nat :: s < |r| && t < |r| ==> (r[s] == r[t] <==> blk[s] == blk[t])
  }

  lemma {:induction false} ImplodedAccepts(E: Automaton, blk: seq<nat>, r: seq<nat>, B: Automaton, s: nat, w: Word)
    requires E.Valid() && Stable(E, blk) && Uniform(E, blk) && Separates(blk, r) && Imploded(E, r, B) && s < E.states
    ensures Accepts(B, r[s], w) <==> Accepts(E, s, w)
    decreases |w|
  {
    if w == [] {
      if r[s] in B.accept {
        var t :| t in E.accept && t < |r| && r[t] == r[s];
        assert SameObservations(E, s, t);
      }
    } else {
      if Accepts(B, r[s], w) {
        var y: nat :| B.Has(r[s], w[0], y) && Accepts(B, y, w[1..]);
        assert Mapped(E, r, r[s], w[0], y);
        var p: nat, t: nat :| p < |r| && t < |r| && E.Has(p, w[0], t) && r[p] == r[s] && r[t] == y;
        assert Reaches(E, blk, s, w[0], blk[t]);
        var u: nat :| u < |blk| && E.Has(s, w[0], u) && blk[u] == blk[t];
        assert r[u] == r[t];
        ImplodedAccepts(E, blk, r, B, u, w[1..]);
      }
      if Accepts(E, s, w) {
        var t: nat :| E.Has(s, w[0], t) && Accepts(E, t, w[1..]);
        assert Edge(s, w[0], t) in E.trans;
        ImplodedAccepts(E, blk, r, B, t, w[1..]);
        assert Mapped(E, r, r[s], w[0], r[t]);
      }
    }
  }

  /** Number `x` is used. */
  ghost predicate Used(r: seq<nat>, x: nat) {
    exists s: nat :: s < |r| && r[s] == x
  }

  /** Every state has a language of its own, which is not empty. */
  ghost predicate Minimal(B: Automaton) {
    Reduced(B) && forall s: nat :: s < B.states ==> Live(B, s)
  }

  lemma ImplodedKeeps(E: Automaton, initial: seq<nat>, blk: seq<nat>, r: seq<nat>, B: Automaton)
    requires IsTrim(E) && ByObservation(E, initial) && CoarsestStable(E, initial, blk) && Separates(blk, r) && Imploded(E, r, B) && r[0] == 0
    ensures LangFrom(B, 0) == LangFrom(E, 0) && B.Deterministic() && Uniform(E, blk)
  {
    assert Uniform(E, blk);
    forall w: Word ensures w in LangFrom(B, 0) <==> w in LangFrom(E, 0) {
      ImplodedAccepts(E, blk, r, B, 0, w);
    }
    ImplodedDeterministic(E, blk, r, B);
  }

  /** The result is minimal exactly if every number is used. */
  lemma ImplodedMinimal(E: Automaton, initial: seq<nat>, blk: seq<nat>, r: seq<nat>, B: Automaton)
    requires IsTrim(E) && ByObservation(E, initial) && CoarsestStable(E, initial, blk) && Uniform(E, blk) && Separates(blk, r) && Imploded(E, r, B)
    ensures Minimal(B) <==> forall x: nat :: x < B.states ==> Used(r, x)
  {
    forall s: nat, w: Word | s < E.states ensures Accepts(B, r[s], w) <==> Accepts(E, s, w) {
      ImplodedAccepts(E, blk, r, B, s, w);
    }
    if forall x: nat :: x < B.states ==> Used(r, x) {
      LiveMeansCrashesAgree(E);
      BlocksAreLanguages(E, initial, blk);
      forall x: nat, y: nat | x < B.states && y < B.states && SameLanguage(B, x, y) ensures x == y {
        assert Used(r, x) && Used(r, y);
        var s: nat :| s < |r| && r[s] == x;
        var t: nat :| t < |r| && r[t] == y;
        assert SameLanguage(E, s, t);
      }
      forall x: nat | x < B.states ensures Live(B, x) {
        assert Used(r, x);
        var s: nat :| s < |r| && r[s] == x;
        assert Live(E, s);
        var w: Word :| Accepts(E, s, w);
        assert Accepts(B, r[s], w);
      }
    }
    forall x: nat | x < B.states && Live(B, x) ensures Used(r, x) {
      var w: Word :| Accepts(B, x, w);
      if w != [] {
        var y: nat :| B.Has(x, w[0], y) && Accepts(B, y, w[1..]);
        assert Mapped(E, r, x, w[0], y);
      }
    }
  }

  lemma ImplodedDeterministic(E: Automaton, blk: seq<nat>, r: seq<nat>, B: Automaton)
    requires E.Valid() && E.Deterministic() && Stable(E, blk) && Separates(blk, r) && Imploded(E, r, B)
    ensures B.Deterministic()
  {
    forall x: nat, a: nat, y: nat, z: nat | B.Has(x, a, y) && B.Has(x, a, z) ensures y == z {
      assert Mapped(E, r, x, a, y) && Mapped(E, r, x, a, z);
      var s: nat, t: nat :| s < |r| && t < |r| && E.Has(s, a, t) && r[s] == x && r[t] == y;
      var p: nat, q: nat :| p < |r| && q < |r| && E.Has(p, a, q) && r[p] == x && r[q] == z;
      assert Reaches(E, blk, p, a, blk[t]);
    }
  }

  /** The numbers tell the blocks apart and start with the block of state 0; all are used exactly if no block is empty. */
  lemma NumbersSeparate(rp: RefinablePartition, spare: nat, r: seq<nat>)
    requires rp.ValidArrays() && rp.n > 0 && spare <= 1 && Renumbered(rp.Blocks(), spare, r)
    ensures |rp.Blocks()| == rp.n && Separates(rp.Blocks(), r) && r[0] == 0 && forall s :: 0 <= s < |r| ==> r[s] < spare + |rp.bounds|
    ensures spare == 0 <==> forall x: nat :: x < spare + |rp.bounds| ==> Used(r, x)
  {
    BlocksBelow(rp);
    var blk, k := rp.Blocks(), |rp.bounds|;
    assert blk[0] < k;
    if spare == 0 {
      forall x: nat | x < k ensures Used(r, x) {
        var b: nat := if x == 0 then blk[0] else if x <= blk[0] then x - 1 else x;
        var s: nat := rp.partitions[..][rp.bounds[b].0];
        assert blk[s] == b;
        assert r[s] == x;
      }
    } else {
      var one: nat := 1;
      assert one < spare + k && !Used(r, one);
    }
  }

  // ---- From end to end.

  /** What minimizing makes of a language over `n` symbols: all words are confused with the empty one. */
  ghost function MinimizedTo(l: Lang, n: nat): Lang {
    if l == Over(n) then Epsilon() else l
  }

  /** Every deterministic automaton of the language has a state for each block. */
  lemma BlocksNeeded(E: Automaton, initial: seq<nat>, rp: RefinablePartition, C: Automaton)
    requires IsTrim(E) && rp.ValidArrays() && rp.n == E.states && ByObservation(E, initial) && CoarsestStable(E, initial, rp.Blocks()) && Rival(C, LangFrom(E, 0))
    ensures |rp.bounds| <= C.states
  {
    var blk := rp.Blocks();
    LiveMeansCrashesAgree(E);
    BlocksAreLanguages(E, initial, blk);
    assert forall s: nat, t: nat :: s < E.states && t < E.states && SameLanguage(E, s, t) ==> blk[s] == blk[t];
    var parts, bounds := rp.partitions[..], rp.bounds;
    BlocksBelow(rp);
    forall b: nat | b < |bounds| ensures bounds[b].0 < |parts| && parts[bounds[b].0] < E.states && blk[parts[bounds[b].0]] == b {
    }
    hide RepOk;
    var reps: seq<nat> := seq(|bounds|, b requires 0 <= b < |bounds| => parts[bounds[b].0]);
    forall i: nat, j: nat | i < j < |reps| ensures !SameLanguage(E, reps[i], reps[j]) {
      assert blk[reps[i]] == i && blk[reps[j]] == j;
    }
    NeedsAsMany(E, reps, C);
  }

  /** One state has no block of its own. */
  lemma SharedBlock(E: Automaton, initial: seq<nat>, rp: RefinablePartition)
    requires IsTrim(E) && rp.ValidArrays() && rp.n == E.states && ByObservation(E, initial) && CoarsestStable(E, initial, rp.Blocks()) && |rp.bounds| + 1 == rp.n
    ensures !Minimal(E)
  {
    var blk := rp.Blocks();
    LiveMeansCrashesAgree(E);
    BlocksAreLanguages(E, initial, blk);
    if Minimal(E) {
      assert forall s: nat, t: nat :: s < E.states && t < E.states && blk[s] == blk[t] ==> SameLanguage(E, s, t);
      assert Distinct(blk);
      DistinctSize(blk);
      BlocksBelow(rp);
      BoundedSetSize(Elems(blk), |rp.bounds|);
    }
  }

  /**
   * Where all states accept, the block of rejecting states is empty and is kept.  It counts when the number of blocks is
   * compared with the number of states.  `stopped` says that this ended the refinement of an automaton that was reduced.
   */
  method RefineAndImplode(E: Automaton, edges: seq<Edge>, stopped: bool) returns (B: Automaton)
    requires IsTrim(E) && Distinct(edges) && Elems(edges) == E.trans
    ensures Usable(B) && B.symbols == E.symbols && LangFrom(B, 0) == LangFrom(E, 0) && B.Deterministic()
    ensures !AllAccept(E) ==> Minimal(B)
    ensures AllAccept(E) && !stopped ==> !Minimal(B)
    ensures forall C :: Rival(C, LangFrom(E, 0)) ==> B.states <= C.states + if AllAccept(E) then 1 else 0
  {
    var rp, initial := RefineDFA(E, edges);
    ghost var blk := rp.Blocks();
    BlockCount(rp.n, rp.partitions[..], rp.stateToPartition[..], rp.bounds);
    forall C | Rival(C, LangFrom(E, 0)) ensures |rp.bounds| <= C.states {
      BlocksNeeded(E, initial, rp, C);
    }
    hide Rival;
    var spare := if forall s: nat | s < E.states :: s in E.accept then 1 else 0;
    hide RepOk, CoarsestStable, ByObservation, LangFrom;
    if spare + |rp.bounds| == E.states {
      if spare == 0 {
        AlreadyReduced(E, initial, blk);
        LiveMeansCrashesAgree(E);
      } else {
        SharedBlock(E, initial, rp);
      }
      return E;
    }
    if spare == 1 && |rp.bounds| == E.states && stopped {
      return E;
    }
    hide Reduced;
    var r := NumberBlocks(rp, spare);
    NumbersSeparate(rp, spare, r);
    B := Implode(E, r, spare + |rp.bounds|);
    ImplodedKeeps(E, initial, blk, r, B);
    ImplodedMinimal(E, initial, blk, r, B);
  }

  /**
   * The minimized automaton is deterministic and has the same language unless that is all words.  Trivial languages and
   * a stop apart, it is minimal exactly if some accepted word has a rejected prefix.  No deterministic automaton of the
   * language has fewer states, except that otherwise one might do without one.
   */
  method MinimizeAutomaton(A: Automaton, stopped: bool) returns (B: Automaton)
    requires Usable(A) && A.symbols > 0
    ensures Usable(B) && B.symbols == A.symbols && B.Deterministic()
    ensures LangFrom(B, 0) == MinimizedTo(LangFrom(A, 0), A.symbols)
    ensures !PrefixClosed(LangFrom(A, 0)) ==> Minimal(B)
    ensures LangFrom(A, 0) != Over(A.symbols) ==> forall C :: Rival(C, LangFrom(A, 0)) ==> B.states <= C.states + if PrefixClosed(LangFrom(A, 0)) then 1 else 0
    ensures PrefixClosed(LangFrom(A, 0)) && LangFrom(A, 0) !in {iset{}, Epsilon(), Over(A.symbols)} && !stopped ==> !Minimal(B)
  {
    var D := DeterminizeInto(A);
    if D.accept == {} {
      B := Automaton(1, A.symbols, {}, {});
      NothingAccepted(D, B);
      return;
    }
    var E := RemoveDeadStates(D);
    var edges := EdgesOf(E);
    if |edges| == 0 {
      B := Automaton(1, A.symbols, {}, {0});
      OnlyEmptyWord(E, B);
      return;
    }
    UniversalIffAll(E);
    FullIffTotal(E, edges);
    AllAcceptIffPrefixClosed(E);
    if |edges| == E.states * E.symbols && forall s: nat | s < E.states :: s in E.accept {
      B := Automaton(E.states, E.symbols, {}, {0});
      NoEdges(B);
      return;
    }
    assert !Universal(E);
    B := RefineAndImplode(E, edges, stopped);
  }

  lemma NothingAccepted(D: Automaton, B: Automaton)
    requires D.accept == {} && B.accept == {} && B.states == 1 && B.trans == {} && D.symbols > 0
    ensures LangFrom(D, 0) == LangFrom(B, 0) && LangFrom(D, 0) != Over(D.symbols) && PrefixClosed(LangFrom(D, 0)) && B.Deterministic() && !Minimal(B)
  {
    forall w: Word ensures w !in LangFrom(D, 0) && w !in LangFrom(B, 0) {
      NeverAccepts(D, 0, w);
      NeverAccepts(B, 0, w);
    }
    var none: Word := [];
    assert none in Over(D.symbols);
    var zero: nat := 0;
    assert zero < B.states && !Live(B, zero);
  }

  lemma NoEdges(B: Automaton)
    requires B.trans == {}
    ensures LangFrom(B, 0) == (if 0 in B.accept then Epsilon() else iset{}) && B.Deterministic()
  {
    forall w: Word ensures w in LangFrom(B, 0) <==> w == [] && 0 in B.accept {
      if w != [] {
        forall t: nat ensures !B.Has(0, w[0], t) {
        }
      }
    }
  }

  lemma OnlyEmptyWord(E: Automaton, B: Automaton)
    requires IsTrim(E) && E.trans == {} && E.symbols > 0 && B == Automaton(1, E.symbols, {}, {0})
    ensures LangFrom(E, 0) == LangFrom(B, 0) == Epsilon() && LangFrom(E, 0) != Over(E.symbols) && PrefixClosed(Epsilon()) && B.Deterministic()
  {
    NoEdges(E);
    NoEdges(B);
    assert Live(E, 0);
    var w: Word :| Accepts(E, 0, w);
    assert w in LangFrom(E, 0);
    var one: Word := [0];
    assert one in Over(E.symbols) && one !in Epsilon();
  }

  /** At most one letter: the simplest language whose minimized automaton has a state too many. */
  lemma OptionalLetterIsPrefixClosed(x: nat, n: nat)
    requires x < n
    ensures var l: Lang := iset{[], [x]}; PrefixClosed(l) && l !in {iset{}, Epsilon(), Over(n)}
  {
    var l: Lang, none: Word, one: Word, two: Word := iset{[], [x]}, [], [x], [x, x];
    forall u: Word, v: Word | u + v in l ensures u in l {
      if u != [] {
        assert |u| == 1 && u[0] == (u + v)[0];
        assert u == [x];
      }
    }
    assert one in l && one !in Epsilon() && two in Over(n) && two !in l;
  }
}
