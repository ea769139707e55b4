/** The subset construction as a value. */
module SubsetTheory {
  // What is emitted, in which order, and what it means. The two implementations in `SubsetConstruction.dfy` are
  // proved to follow it step by step.

  import opened Arithmetic
  import opened Automata
  import opened SeqFacts

  datatype Event = AddState(accepting: bool) | AddTrans(from: nat, on: nat, to: nat)

  /** The subsets found, by number; the numbers waiting to be expanded, last one next; what was emitted. */
  datatype Progress = Progress(table: seq<set<nat>>, work: seq<nat>, log: seq<Event>)

  /** Where the states of `S` go on `a`. */
  ghost function Post(A: Automaton, S: set<nat>, a: nat): set<nat> {
    set e | e in A.trans && e.source in S && e.symbol == a :: e.target
  }

  lemma PostMember(A: Automaton, S: set<nat>, a: nat, t: nat)
    ensures t in Post(A, S, a) <==> exists s: nat :: s in S && A.Has(s, a, t)
  {
    if t in Post(A, S, a) {
      var e :| e in A.trans && e.source in S && e.symbol == a && e.target == t;
      assert A.Has(e.source, a, t);
    }
    if s: nat :| s in S && A.Has(s, a, t) {
      assert Edge(s, a, t) in A.trans;
    }
  }

  ghost function IndexOf(table: seq<set<nat>>, T: set<nat>): (i: nat)
    ensures T in table ==> i < |table| && table[i] == T
  {
    if T in table then var i :| 0 <= i < |table| && table[i] == T; i else 0
  }

  ghost predicate Accepting(A: Automaton, T: set<nat>) {
    T * A.accept != {}
  }

  ghost function Initial(A: Automaton): Progress {
    Progress([{0}], [0], [AddState(0 in A.accept)])
  }

  /** Expands subset number `cur` on symbol `a`. */
  ghost function OnSymbol(A: Automaton, p: Progress, cur: nat, a: nat): Progress
    requires cur < |p.table|
  {
    var T := Post(A, p.table[cur], a);
    if T == {} then p
    else if T in p.table then p.(log := p.log + [AddTrans(cur, a, IndexOf(p.table, T))])
    else Progress(p.table + [T], p.work + [|p.table|], p.log + [AddState(Accepting(A, T)), AddTrans(cur, a, |p.table|)])
  }

  /** Expands subset number `cur` on the first `k` symbols. */
  ghost function OnSymbols(A: Automaton, p: Progress, cur: nat, k: nat): (q: Progress)
    requires cur < |p.table|
    ensures p.table <= q.table
  {
    if k == 0 then p else OnSymbol(A, OnSymbols(A, p, cur, k - 1), cur, k - 1)
  }

  /** Takes the last waiting subset and expands it; nothing happens when none is waiting. */
  ghost function Expand(A: Automaton, p: Progress): Progress {
    if p.work == [] || p.work[|p.work| - 1] >= |p.table| then p
    else OnSymbols(A, p.(work := p.work[..|p.work| - 1]), p.work[|p.work| - 1], A.symbols)
  }

  ghost function Iterate(A: Automaton, n: nat): Progress {
    if n == 0 then Initial(A) else Expand(A, Iterate(A, n - 1))
  }

  // ---- What every step keeps.

  /** The subset reached by a word from the initial one. */
  ghost function After(A: Automaton, S: set<nat>, w: seq<nat>): set<nat>
    decreases |w|
  {
    if w == [] then S else After(A, Post(A, S, w[0]), w[1..])
  }

  ghost predicate ReachedSet(A: Automaton, T: set<nat>) {
    exists w :: After(A, {0}, w) == T
  }

  lemma {:induction false} AfterExtends(A: Automaton, S: set<nat>, w: seq<nat>, a: nat)
    ensures After(A, S, w + [a]) == Post(A, After(A, S, w), a)
    decreases |w|
  {
    if w == [] {
      assert w + [a] == [a] && [a][1..] == [];
    } else {
      assert (w + [a])[1..] == w[1..] + [a];
      AfterExtends(A, Post(A, S, w[0]), w[1..], a);
    }
  }

  ghost predicate SubsetOk(A: Automaton, T: set<nat>) {
    T != {} && (forall s :: s in T ==> s < A.states) && ReachedSet(A, T)
  }

  ghost predicate TableOk(A: Automaton, table: seq<set<nat>>) {
    && table != [] && table[0] == {0} && Distinct(table)
    && (forall i :: 0 <= i < |table| ==> SubsetOk(A, table[i]))
  }

  /** The accepting flags of the states added, in order. */
  ghost function Flags(log: seq<Event>): seq<bool> {
    if log == [] then []
    else Flags(log[..|log| - 1]) + if log[|log| - 1].AddState? then [log[|log| - 1].accepting] else []
  }

  lemma FlagsGrow(log: seq<Event>, e: Event)
    ensures Flags(log + [e]) == Flags(log) + if e.AddState? then [e.accepting] else []
  {
    assert (log + [e])[..|log|] == log;
  }

  ghost predicate FlagsOk(A: Automaton, p: Progress) {
    Flags(p.log) == seq(|p.table|, i requires 0 <= i < |p.table| => Accepting(A, p.table[i]))
  }

  /** The transitions of subset `i` on `a` have been emitted: it is not waiting, or it is being expanded and `a` was done. */
  ghost predicate Emitted(A: Automaton, p: Progress, i: nat, a: nat, cur: nat, k: nat) {
    i < |p.table| && a < A.symbols && i !in p.work && (i == cur ==> a < k)
  }

  ghost predicate TransOk(A: Automaton, p: Progress, cur: nat, k: nat) {
    forall i: nat, a: nat, j: nat :: AddTrans(i, a, j) in p.log <==> Emitted(A, p, i, a, cur, k) && j < |p.table| && Post(A, p.table[i], a) == p.table[j]
  }

  ghost predicate WorkOk(p: Progress) {
    Distinct(p.work) && forall i :: i in p.work ==> i < |p.table|
  }

  /** Everything found and emitted is right, and whatever a finished subset leads to has been found. */
  ghost predicate Ok(A: Automaton, p: Progress, cur: nat, k: nat) {
    && A.Valid() && A.states > 0
    && TableOk(A, p.table) && WorkOk(p) && FlagsOk(A, p) && TransOk(A, p, cur, k)
    && (forall i: nat, a: nat :: Emitted(A, p, i, a, cur, k) ==> Covered(A, p, i, a))
  }

  ghost predicate Covered(A: Automaton, p: Progress, i: nat, a: nat)
    requires i < |p.table|
  {
    Post(A, p.table[i], a) == {} || Post(A, p.table[i], a) in p.table
  }

  lemma InitialOk(A: Automaton, cur: nat)
    requires A.Valid() && A.states > 0
    ensures Ok(A, Initial(A), cur, 0)
  {
    var p := Initial(A);
    assert After(A, {0}, []) == {0};
    FlagsGrow([], AddState(0 in A.accept));
    assert [] + [AddState(0 in A.accept)] == p.log;
    assert Accepting(A, {0}) <==> 0 in A.accept by {
      assert 0 in A.accept ==> 0 in {0} * A.accept;
    }
  }

  lemma PostOk(A: Automaton, S: set<nat>, a: nat)
    requires A.Valid() && SubsetOk(A, S) && Post(A, S, a) != {}
    ensures SubsetOk(A, Post(A, S, a))
  {
    var w :| After(A, {0}, w) == S;
    AfterExtends(A, {0}, w, a);
  }

  /** A subset found before: one more transition. */
  lemma KnownTarget(A: Automaton, p: Progress, cur: nat, k: nat, j: nat)
    requires Ok(A, p, cur, k) && cur < |p.table| && cur !in p.work && k < A.symbols && j < |p.table| && Post(A, p.table[cur], k) == p.table[j]
    ensures Ok(A, p.(log := p.log + [AddTrans(cur, k, j)]), cur, k + 1)
  {
    var q := p.(log := p.log + [AddTrans(cur, k, j)]);
    FlagsGrow(p.log, AddTrans(cur, k, j));
    forall i: nat, a: nat, t: nat
      ensures AddTrans(i, a, t) in q.log <==> Emitted(A, q, i, a, cur, k + 1) && t < |q.table| && Post(A, q.table[i], a) == q.table[t]
    {
      assert AddTrans(i, a, t) in q.log <==> AddTrans(i, a, t) in p.log || AddTrans(i, a, t) == AddTrans(cur, k, j);
      assert Emitted(A, q, i, a, cur, k + 1) <==> Emitted(A, p, i, a, cur, k) || (i == cur && a == k);
    }
    forall i: nat, a: nat | Emitted(A, q, i, a, cur, k + 1) ensures Covered(A, q, i, a) {
      assert Emitted(A, p, i, a, cur, k) || (i == cur && a == k);
    }
    assert FlagsOk(A, q);
  }

  lemma NoTarget(A: Automaton, p: Progress, cur: nat, k: nat)
    requires Ok(A, p, cur, k) && cur < |p.table| && cur !in p.work && k < A.symbols && Post(A, p.table[cur], k) == {}
    ensures Ok(A, p, cur, k + 1)
  {
    assert forall t :: 0 <= t < |p.table| ==> SubsetOk(A, p.table[t]);
  }

  /** A new subset: one more state, waiting, and a transition to it. */
  lemma NewTarget(A: Automaton, p: Progress, cur: nat, k: nat, T: set<nat>)
    requires Ok(A, p, cur, k) && cur < |p.table| && cur !in p.work && k < A.symbols && Post(A, p.table[cur], k) == T && T != {} && T !in p.table
    ensures Ok(A, Progress(p.table + [T], p.work + [|p.table|], p.log + [AddState(Accepting(A, T)), AddTrans(cur, k, |p.table|)]), cur, k + 1)
  {
    var n := |p.table|;
    var q := Progress(p.table + [T], p.work + [n], p.log + [AddState(Accepting(A, T)), AddTrans(cur, k, n)]);
    PostOk(A, p.table[cur], k);
    NewFlags(A, p, T, cur, k);
    forall i: nat, a: nat ensures Emitted(A, q, i, a, cur, k + 1) <==> Emitted(A, p, i, a, cur, k) || (i == cur && a == k) {
    }
    forall i: nat, a: nat, t: nat
      ensures AddTrans(i, a, t) in q.log <==> Emitted(A, q, i, a, cur, k + 1) && t < |q.table| && Post(A, q.table[i], a) == q.table[t]
    {
      NewTrans(A, p, cur, k, T, i, a, t);
    }
    forall i: nat, a: nat | Emitted(A, q, i, a, cur, k + 1) ensures Covered(A, q, i, a) {
      if Emitted(A, p, i, a, cur, k) {
        assert Covered(A, p, i, a);
      } else {
        assert q.table[n] == T;
      }
    }
    assert TableOk(A, q.table);
    DistinctConcat(p.work, [n]);
  }

  lemma NewFlags(A: Automaton, p: Progress, T: set<nat>, cur: nat, k: nat)
    requires FlagsOk(A, p)
    ensures FlagsOk(A, Progress(p.table + [T], p.work + [|p.table|], p.log + [AddState(Accepting(A, T)), AddTrans(cur, k, |p.table|)]))
  {
    var one := p.log + [AddState(Accepting(A, T))];
    FlagsGrow(p.log, AddState(Accepting(A, T)));
    FlagsGrow(one, AddTrans(cur, k, |p.table|));
    assert p.log + [AddState(Accepting(A, T)), AddTrans(cur, k, |p.table|)] == one + [AddTrans(cur, k, |p.table|)];
  }

  lemma NewTrans(A: Automaton, p: Progress, cur: nat, k: nat, T: set<nat>, i: nat, a: nat, t: nat)
    requires TransOk(A, p, cur, k) && cur < |p.table| && cur !in p.work && k < A.symbols && Post(A, p.table[cur], k) == T && T != {} && T !in p.table
    requires Emitted(A, p, i, a, cur, k) ==> Covered(A, p, i, a)
    ensures var q := Progress(p.table + [T], p.work + [|p.table|], p.log + [AddState(Accepting(A, T)), AddTrans(cur, k, |p.table|)]);
            AddTrans(i, a, t) in q.log <==> Emitted(A, q, i, a, cur, k + 1) && t < |q.table| && Post(A, q.table[i], a) == q.table[t]
  {
    var q := Progress(p.table + [T], p.work + [|p.table|], p.log + [AddState(Accepting(A, T)), AddTrans(cur, k, |p.table|)]);
    assert AddTrans(i, a, t) in q.log <==> AddTrans(i, a, t) in p.log || AddTrans(i, a, t) == AddTrans(cur, k, |p.table|);
    assert q.table[|p.table|] == T;
  }

  lemma SymbolKeepsOk(A: Automaton, p: Progress, cur: nat, k: nat)
    requires Ok(A, p, cur, k) && cur < |p.table| && cur !in p.work && k < A.symbols
    ensures var q := OnSymbol(A, p, cur, k);
            Ok(A, q, cur, k + 1) && cur < |q.table| && cur !in q.work && p.table <= q.table && |q.table| - |q.work| == |p.table| - |p.work|
  {
    var T := Post(A, p.table[cur], k);
    if T == {} {
      NoTarget(A, p, cur, k);
    } else if T in p.table {
      KnownTarget(A, p, cur, k, IndexOf(p.table, T));
    } else {
      NewTarget(A, p, cur, k, T);
    }
  }

  lemma {:induction false} SymbolsKeepOk(A: Automaton, p: Progress, cur: nat, k: nat)
    requires Ok(A, p, cur, 0) && cur < |p.table| && cur !in p.work && k <= A.symbols
    ensures var q := OnSymbols(A, p, cur, k);
            Ok(A, q, cur, k) && cur < |q.table| && cur !in q.work && p.table <= q.table && |q.table| - |q.work| == |p.table| - |p.work|
  {
    hide Ok;
    if k > 0 {
      SymbolsKeepOk(A, p, cur, k - 1);
      SymbolKeepsOk(A, OnSymbols(A, p, cur, k - 1), cur, k - 1);
    }
  }

  /** Between expansions no subset is half done. */
  ghost predicate Settled(A: Automaton, p: Progress) {
    Ok(A, p, |p.table|, 0)
  }

  lemma Pop(A: Automaton, p: Progress)
    requires Settled(A, p) && p.work != []
    ensures var cur := p.work[|p.work| - 1]; var q := p.(work := p.work[..|p.work| - 1]);
            cur < |p.table| && cur !in q.work && Ok(A, q, cur, 0)
  {
    var cur, q := p.work[|p.work| - 1], p.(work := p.work[..|p.work| - 1]);
    assert p.work == q.work + [cur] && cur in p.work;
    forall i: nat, a: nat ensures Emitted(A, q, i, a, cur, 0) <==> Emitted(A, p, i, a, |p.table|, 0) {
      assert i in p.work <==> i in q.work || i == cur;
    }
    forall i: nat, a: nat | Emitted(A, q, i, a, cur, 0) ensures Covered(A, q, i, a) {
      assert Emitted(A, p, i, a, |p.table|, 0);
      assert Covered(A, p, i, a);
    }
    assert forall i :: i in q.work ==> i in p.work;
    assert FlagsOk(A, q);
  }

  lemma Settle(A: Automaton, p: Progress, cur: nat)
    requires Ok(A, p, cur, A.symbols)
    ensures Settled(A, p)
  {
    forall i: nat, a: nat ensures Emitted(A, p, i, a, cur, A.symbols) <==> Emitted(A, p, i, a, |p.table|, 0) {
    }
    forall i: nat, a: nat | Emitted(A, p, i, a, |p.table|, 0) ensures Covered(A, p, i, a) {
      assert Emitted(A, p, i, a, cur, A.symbols);
    }
  }

  lemma ExpandKeepsSettled(A: Automaton, p: Progress)
    requires Settled(A, p) && p.work != []
    ensures var q := Expand(A, p);
            Settled(A, q) && p.table <= q.table && |q.table| - |q.work| == |p.table| - |p.work| + 1
  {
    hide Ok;
    Pop(A, p);
    var cur, q := p.work[|p.work| - 1], p.(work := p.work[..|p.work| - 1]);
    SymbolsKeepOk(A, q, cur, A.symbols);
    Settle(A, OnSymbols(A, q, cur, A.symbols), cur);
  }

  // ---- Termination.

  /** Different subsets of n states: at most 2^n. */
  lemma {:induction false} SubsetsFit(table: seq<set<nat>>, n: nat)
    requires Distinct(table) && forall i :: 0 <= i < |table| ==> forall s :: s in table[i] ==> s < n
    ensures |table| <= Pow2(n)
  {
    DistinctSize(table);
    SetsFit(Elems(table), n);
  }

  lemma {:induction false} SetsFit(sets: set<set<nat>>, n: nat)
    requires forall T :: T in sets ==> forall s :: s in T ==> s < n
    ensures |sets| <= Pow2(n)
    decreases n
  {
    if n == 0 {
      forall T | T in sets ensures T == {} {
        assert forall s :: s in T ==> s < 0;
      }
      assert sets <= {{}};
      SubsetSize(sets, {{}});
    } else {
      var low := set T | T in sets && n - 1 !in T;
      var rest := sets - low;
      SetsFit(low, n - 1);
      SetsFit(Dropped(rest, n - 1), n - 1);
      DropElement(rest, n - 1);
      assert sets == low + rest;
    }
  }

  ghost function Dropped(sets: set<set<nat>>, x: nat): set<set<nat>> {
    set T | T in sets :: T - {x}
  }

  lemma {:induction false} DropElement(sets: set<set<nat>>, x: nat)
    requires forall T :: T in sets ==> x in T
    ensures |Dropped(sets, x)| == |sets|
    decreases |sets|
  {
    var dropped := Dropped(sets, x);
    if sets == {} {
      assert dropped == {};
    } else {
      var T :| T in sets;
      var others := sets - {T};
      DropElement(others, x);
      var fewer := Dropped(others, x);
      assert dropped == fewer + {T - {x}} by {
        assert sets == others + {T};
      }
      if T - {x} in fewer {
        var U :| U in others && U - {x} == T - {x};
        DropInjective(T, U, x);
        assert false;
      }
    }
  }

  lemma DropInjective(T: set<nat>, U: set<nat>, x: nat)
    requires x in T && x in U && T - {x} == U - {x}
    ensures T == U
  {
    assert T == (T - {x}) + {x} && U == (U - {x}) + {x};
  }

  lemma SettledFits(A: Automaton, p: Progress)
    requires Settled(A, p)
    ensures |p.table| <= Pow2(A.states)
  {
    forall i | 0 <= i < |p.table| ensures forall s :: s in p.table[i] ==> s < A.states {
      assert SubsetOk(A, p.table[i]);
    }
    SubsetsFit(p.table, A.states);
  }

  lemma {:induction false} IterateSettled(A: Automaton, n: nat)
    requires A.Valid() && A.states > 0
    ensures Settled(A, Iterate(A, n)) && (Iterate(A, n).work == [] || |Iterate(A, n).table| - |Iterate(A, n).work| == n)
  {
    hide Ok;
    if n == 0 {
      InitialOk(A, |Initial(A).table|);
    } else {
      IterateSettled(A, n - 1);
      if Iterate(A, n - 1).work != [] {
        Pop(A, Iterate(A, n - 1));
        ExpandKeepsSettled(A, Iterate(A, n - 1));
      }
    }
  }

  /** After at most 2^states expansions nothing waits. */
  lemma Terminates(A: Automaton)
    requires A.Valid() && A.states > 0
    ensures Iterate(A, Pow2(A.states)).work == []
  {
    IterateSettled(A, Pow2(A.states));
    SettledFits(A, Iterate(A, Pow2(A.states)));
  }

  ghost function Final(A: Automaton): Progress {
    Iterate(A, Pow2(A.states))
  }

  lemma {:induction false} StaysIdle(A: Automaton, n: nat, m: nat)
    requires n <= m && Iterate(A, n).work == []
    ensures Iterate(A, m) == Iterate(A, n)
    decreases m - n
  {
    if n < m {
      StaysIdle(A, n, m - 1);
    }
  }

  /** However many expansions it took, what is there when nothing waits is the final progress. */
  lemma IdleIsFinal(A: Automaton, n: nat)
    requires A.Valid() && A.states > 0 && Iterate(A, n).work == []
    ensures Iterate(A, n) == Final(A) && Settled(A, Final(A))
  {
    Terminates(A);
    IterateSettled(A, n);
    if n <= Pow2(A.states) {
      StaysIdle(A, n, Pow2(A.states));
    } else {
      StaysIdle(A, Pow2(A.states), n);
    }
  }

  // ---- The language.

  /** The automaton the emitted events build. */
  ghost function Built(A: Automaton, p: Progress): (D: Automaton)
    ensures D.states == |p.table| && D.symbols == A.symbols
    ensures forall i: nat, a: nat, j: nat :: D.Has(i, a, j) <==> AddTrans(i, a, j) in p.log
    ensures forall i :: i in D.accept <==> 0 <= i < |Flags(p.log)| && Flags(p.log)[i]
  {
    var D := Automaton(|p.table|, A.symbols, set e | e in p.log && e.AddTrans? :: Edge(e.from, e.on, e.to),
                       set i | 0 <= i < |Flags(p.log)| && Flags(p.log)[i]);
    assert forall i: nat, a: nat, j: nat :: D.Has(i, a, j) <==> AddTrans(i, a, j) in p.log by {
      forall i: nat, a: nat, j: nat ensures D.Has(i, a, j) <==> AddTrans(i, a, j) in p.log {
        if AddTrans(i, a, j) in p.log {
          var e := AddTrans(i, a, j);
          assert Edge(e.from, e.on, e.to) in D.trans;
        }
      }
    }
    D
  }

  lemma {:induction false} BuiltAccepts(A: Automaton, p: Progress, i: nat, w: seq<nat>)
    requires Settled(A, p) && p.work == [] && i < |p.table|
    ensures Accepts(Built(A, p), i, w) <==> exists s: nat :: s in p.table[i] && Accepts(A, s, w)
    decreases |w|
  {
    hide Ok;
    if w == [] {
      BuiltAcceptsNow(A, p, i);
    } else {
      if Accepts(Built(A, p), i, w) {
        BuiltSound(A, p, i, w);
      }
      if s: nat :| s in p.table[i] && Accepts(A, s, w) {
        BuiltComplete(A, p, i, w, s);
      }
    }
  }

  lemma BuiltAcceptsNow(A: Automaton, p: Progress, i: nat)
    requires Settled(A, p) && i < |p.table|
    ensures i in Built(A, p).accept <==> exists s: nat :: s in p.table[i] && s in A.accept
  {
    assert i in Built(A, p).accept <==> Accepting(A, p.table[i]);
    if Accepting(A, p.table[i]) {
      var s :| s in p.table[i] * A.accept;
    }
    if s: nat :| s in p.table[i] && s in A.accept {
      assert s in p.table[i] * A.accept;
    }
  }

  lemma {:induction false} BuiltSound(A: Automaton, p: Progress, i: nat, w: seq<nat>)
    requires Settled(A, p) && p.work == [] && i < |p.table| && w != [] && Accepts(Built(A, p), i, w)
    ensures exists s: nat :: s in p.table[i] && Accepts(A, s, w)
    decreases |w|, 0
  {
    var D := Built(A, p);
    var j: nat :| D.Has(i, w[0], j) && Accepts(D, j, w[1..]);
    assert AddTrans(i, w[0], j) in p.log;
    BuiltAccepts(A, p, j, w[1..]);
    var t: nat :| t in p.table[j] && Accepts(A, t, w[1..]);
    PostMember(A, p.table[i], w[0], t);
    var s: nat :| s in p.table[i] && A.Has(s, w[0], t);
    assert Accepts(A, s, w);
  }

  lemma {:induction false} BuiltComplete(A: Automaton, p: Progress, i: nat, w: seq<nat>, s: nat)
    requires Settled(A, p) && p.work == [] && i < |p.table| && w != [] && s in p.table[i] && Accepts(A, s, w)
    ensures Accepts(Built(A, p), i, w)
    decreases |w|, 0
  {
    var t: nat :| A.Has(s, w[0], t) && Accepts(A, t, w[1..]);
    assert Edge(s, w[0], t) in A.trans;
    PostMember(A, p.table[i], w[0], t);
    assert Emitted(A, p, i, w[0], |p.table|, 0);
    assert Covered(A, p, i, w[0]);
    var j := IndexOf(p.table, Post(A, p.table[i], w[0]));
    assert AddTrans(i, w[0], j) in p.log;
    BuiltAccepts(A, p, j, w[1..]);
    assert Built(A, p).Has(i, w[0], j);
  }

  /** The result is deterministic and accepts the language of the NFA. */
  lemma DeterminizeKeepsLanguage(A: Automaton, w: seq<nat>)
    requires A.Valid() && A.states > 0
    ensures Built(A, Final(A)).Deterministic()
    ensures Accepts(Built(A, Final(A)), 0, w) <==> Accepts(A, 0, w)
  {
    Terminates(A);
    IdleIsFinal(A, Pow2(A.states));
    var p := Final(A);
    BuiltAccepts(A, p, 0, w);
    assert p.table[0] == {0};
    forall i: nat, a: nat, j: nat, k: nat | Built(A, p).Has(i, a, j) && Built(A, p).Has(i, a, k) ensures j == k {
      assert AddTrans(i, a, j) in p.log && AddTrans(i, a, k) in p.log;
    }
  }

  lemma {:induction false} AfterEmpty(A: Automaton, w: seq<nat>)
    ensures After(A, {}, w) == {}
    decreases |w|
  {
    if w != [] {
      assert Post(A, {}, w[0]) == {};
      AfterEmpty(A, w[1..]);
    }
  }

  lemma {:induction false} AfterFound(A: Automaton, p: Progress, i: nat, w: seq<nat>)
    requires Settled(A, p) && p.work == [] && i < |p.table| && After(A, p.table[i], w) != {}
    ensures After(A, p.table[i], w) in p.table
    decreases |w|
  {
    if w != [] {
      var T := Post(A, p.table[i], w[0]);
      if T == {} {
        AfterEmpty(A, w[1..]);
      }
      var e :| e in A.trans && e.source in p.table[i] && e.symbol == w[0];
      assert Emitted(A, p, i, w[0], |p.table|, 0);
      assert Covered(A, p, i, w[0]);
      AfterFound(A, p, IndexOf(p.table, T), w[1..]);
    }
  }

  /** Its states are exactly the reachable non-empty subsets, each once. */
  lemma StatesAreReachableSubsets(A: Automaton, T: set<nat>)
    requires A.Valid() && A.states > 0
    ensures Distinct(Final(A).table)
    ensures T in Final(A).table <==> T != {} && ReachedSet(A, T)
  {
    Terminates(A);
    IdleIsFinal(A, Pow2(A.states));
    var p := Final(A);
    if T in p.table {
      var i :| 0 <= i < |p.table| && p.table[i] == T;
      assert SubsetOk(A, p.table[i]);
    }
    if T != {} && ReachedSet(A, T) {
      var w :| After(A, {0}, w) == T;
      AfterFound(A, p, 0, w);
    }
  }

  // ---- The order of what is emitted.

  /** A transition joins states that have been added before it, and no transition comes twice. */
  ghost predicate WellOrdered(log: seq<Event>) {
    && (forall m :: 0 <= m < |log| && log[m].AddTrans? ==> Added(log, m, log[m].from) && Added(log, m, log[m].to))
    && (forall m, n :: 0 <= m < n < |log| && log[m].AddTrans? ==> log[m] != log[n])
  }

  /** State `i` is added by the first `m` events. */
  ghost predicate Added(log: seq<Event>, m: nat, i: nat)
    requires m <= |log|
  {
    i < |Flags(log[..m])|
  }

  lemma OneMoreEvent(log: seq<Event>, e: Event)
    requires WellOrdered(log) && (e.AddTrans? ==> e !in log && e.from < |Flags(log)| && e.to < |Flags(log)|)
    ensures WellOrdered(log + [e])
  {
    var all := log + [e];
    assert all[..|log|] == log;
    forall m | 0 <= m < |all| && all[m].AddTrans? ensures Added(all, m, all[m].from) && Added(all, m, all[m].to) {
      assert all[..m] == log[..m];
      assert m < |log| ==> all[m] == log[m];
      if m == |log| {
        assert log[..m] == log;
      } else {
        assert Added(log, m, log[m].from) && Added(log, m, log[m].to);
      }
    }
    forall m, n | 0 <= m < n < |all| && all[m].AddTrans? ensures all[m] != all[n] {
      assert all[m] == log[m];
    }
  }

  /** Waiting subsets are in the order of their numbers, so that the newest is next. */
  ghost predicate NewestLast(p: Progress) {
    forall i, j :: 0 <= i < j < |p.work| ==> p.work[i] < p.work[j]
  }

  /** The transition on symbol `k` has not been emitted yet, and every subset found has been. */
  lemma NotYetEmitted(A: Automaton, p: Progress, cur: nat, k: nat)
    requires Ok(A, p, cur, k) && cur < |p.table|
    ensures |Flags(p.log)| == |p.table| && (forall j: nat :: AddTrans(cur, k, j) !in p.log) && forall i :: i in p.work ==> i < |p.table|
  {
    hide TableOk, Covered;
    forall j: nat ensures AddTrans(cur, k, j) !in p.log {
      assert !Emitted(A, p, cur, k, cur, k);
    }
  }

  lemma SymbolKeepsOrder(A: Automaton, p: Progress, cur: nat, k: nat)
    requires Ok(A, p, cur, k) && cur < |p.table| && WellOrdered(p.log) && NewestLast(p)
    ensures WellOrdered(OnSymbol(A, p, cur, k).log) && NewestLast(OnSymbol(A, p, cur, k))
  {
    var T := Post(A, p.table[cur], k);
    NotYetEmitted(A, p, cur, k);
    hide Ok, WellOrdered, Post, Flags, NewestLast;
    if T == {} {
    } else if T in p.table {
      OneMoreEvent(p.log, AddTrans(cur, k, IndexOf(p.table, T)));
      SameWork(p, OnSymbol(A, p, cur, k));
    } else {
      var e, f := AddState(Accepting(A, T)), AddTrans(cur, k, |p.table|);
      OneMoreEvent(p.log, e);
      FlagsGrow(p.log, e);
      OneMoreEvent(p.log + [e], f);
      assert p.log + [e] + [f] == p.log + [e, f];
      NewWork(p, OnSymbol(A, p, cur, k));
    }
  }

  lemma SameWork(p: Progress, q: Progress)
    requires NewestLast(p) && q.work == p.work
    ensures NewestLast(q)
  {
  }

  lemma NewWork(p: Progress, q: Progress)
    requires NewestLast(p) && (forall i :: i in p.work ==> i < |p.table|) && q.work == p.work + [|p.table|]
    ensures NewestLast(q)
  {
    forall i | 0 <= i < |p.work| ensures p.work[i] < |p.table| {
      assert p.work[i] in p.work;
    }
  }

  lemma {:induction false} SymbolsKeepOrder(A: Automaton, p: Progress, cur: nat, k: nat)
    requires Ok(A, p, cur, 0) && cur < |p.table| && cur !in p.work && k <= A.symbols && WellOrdered(p.log) && NewestLast(p)
    ensures WellOrdered(OnSymbols(A, p, cur, k).log) && NewestLast(OnSymbols(A, p, cur, k))
  {
    hide Ok, WellOrdered, NewestLast, OnSymbol;
    if k > 0 {
      SymbolsKeepOrder(A, p, cur, k - 1);
      SymbolsKeepOk(A, p, cur, k - 1);
      SymbolKeepsOrder(A, OnSymbols(A, p, cur, k - 1), cur, k - 1);
    }
  }

  lemma {:induction false} IterateKeepsOrder(A: Automaton, n: nat)
    requires A.Valid() && A.states > 0
    ensures WellOrdered(Iterate(A, n).log) && NewestLast(Iterate(A, n))
  {
    hide Ok, OnSymbols, Settled;
    if n > 0 {
      var p := Iterate(A, n - 1);
      IterateKeepsOrder(A, n - 1);
      IterateSettled(A, n - 1);
      if p.work != [] {
        Pop(A, p);
        var q := p.(work := p.work[..|p.work| - 1]);
        LessWork(p, q);
        hide Ok, OnSymbols, Settled, WellOrdered, NewestLast;
        SymbolsKeepOrder(A, q, p.work[|p.work| - 1], A.symbols);
      }
    }
  }

  lemma LessWork(p: Progress, q: Progress)
    requires NewestLast(p) && p.work != [] && q.work == p.work[..|p.work| - 1]
    ensures NewestLast(q)
  {
  }

  /** States are emitted before their transitions, each transition once, and the newest subset is expanded first. */
  lemma EmittedInOrder(A: Automaton, n: nat)
    requires A.Valid() && A.states > 0
    ensures WellOrdered(Final(A).log)
    ensures var work := Iterate(A, n).work; forall i :: 0 <= i < |work| - 1 ==> work[i] < work[|work| - 1]
  {
    IterateKeepsOrder(A, n);
    IterateKeepsOrder(A, Pow2(A.states));
  }
}
