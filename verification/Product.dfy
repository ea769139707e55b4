/** The intersection of two automata: the reachable pairs of states, built with a work list. */
module Products {
  import opened Automata
  import opened SeqFacts
  import opened Arithmetic

  /** Each state's transitions, grouped by destination: the symbols that lead there and the destination. */
  type MaskRow = seq<(set<nat>, nat)>
  type MaskRows = seq<MaskRow>
  type StatePair = (nat, nat)

  ghost predicate InMasks(row: MaskRow, a: nat, t: nat) {
    exists i :: 0 <= i < |row| && a in row[i].0 && row[i].1 == t
  }

  ghost predicate MaskRowsOf(A: Automaton, rows: MaskRows) {
    && A.Valid() && A.states > 0 && |rows| == A.states
    && forall s: nat, a: nat, t: nat :: s < |rows| ==> (A.Has(s, a, t) <==> InMasks(rows[s], a, t))
  }

  /** Both automata go from `p` to `q` on `a`. */
  ghost predicate Both(L: Automaton, R: Automaton, p: StatePair, a: nat, q: StatePair) {
    L.Has(p.0, a, q.0) && R.Has(p.1, a, q.1)
  }

  ghost predicate InRange(L: Automaton, R: Automaton, p: StatePair) {
    p.0 < L.states && p.1 < R.states
  }

  /**
   What has been built: state n stands for `names[n]`, `work` are the states without their transitions so far, and
   state `cur` has those in `dealt` if it is not waiting.
   */
  datatype Build = Build(names: seq<StatePair>, work: seq<nat>, trans: set<Edge>, accept: set<nat>, cur: nat, dealt: set<(nat, StatePair)>)

  /** State `n` has got its steps on `a` to `q`. */
  ghost predicate Goes(L: Automaton, R: Automaton, b: Build, n: nat, a: nat, q: StatePair) {
    n < |b.names| && n !in b.work && if n == b.cur then (a, q) in b.dealt else Both(L, R, b.names[n], a, q)
  }

  ghost predicate NamesOk(L: Automaton, R: Automaton, b: Build) {
    && b.names != [] && b.names[0] == (0, 0) && Distinct(b.names) && (forall i :: 0 <= i < |b.names| ==> InRange(L, R, b.names[i]))
    && Distinct(b.work) && (forall n :: n in b.work ==> n < |b.names|)
  }

  ghost predicate TransOk(L: Automaton, R: Automaton, b: Build) {
    forall n: nat, a: nat, m: nat :: Edge(n, a, m) in b.trans <==> m < |b.names| && Goes(L, R, b, n, a, b.names[m])
  }

  ghost predicate CoveredOk(L: Automaton, R: Automaton, b: Build) {
    forall n: nat, a: nat, q: StatePair :: Goes(L, R, b, n, a, q) ==> q in b.names
  }

  ghost predicate AcceptOk(L: Automaton, R: Automaton, b: Build) {
    forall n: nat :: n in b.accept <==> n < |b.names| && n !in b.work && b.names[n].0 in L.accept && b.names[n].1 in R.accept
  }

  ghost predicate Ok(L: Automaton, R: Automaton, b: Build) {
    NamesOk(L, R, b) && TransOk(L, R, b) && CoveredOk(L, R, b) && AcceptOk(L, R, b)
  }

  /** The current state is finished. */
  ghost predicate Settled(L: Automaton, R: Automaton, b: Build) {
    b.cur < |b.names| && b.cur !in b.work ==> forall a: nat, q: StatePair :: (a, q) in b.dealt <==> Both(L, R, b.names[b.cur], a, q)
  }

  // ---- The steps of the construction.

  lemma AddName(L: Automaton, R: Automaton, b: Build, q: StatePair)
    requires Ok(L, R, b) && InRange(L, R, q) && q !in b.names
    ensures Ok(L, R, b.(names := b.names + [q], work := b.work + [|b.names|]))
  {
    var newest := |b.names|;
    var after := b.(names := b.names + [q], work := b.work + [newest]);
    DistinctConcat(b.work, [newest]);
    assert newest in after.work;
    forall n: nat, a: nat, p: StatePair ensures Goes(L, R, after, n, a, p) <==> Goes(L, R, b, n, a, p) {
      if n < newest {
        assert n in after.work <==> n in b.work;
        assert after.names[n] == b.names[n];
      }
    }
    hide Goes;
    forall n: nat, a: nat, m: nat ensures Edge(n, a, m) in after.trans <==> m < |after.names| && Goes(L, R, after, n, a, after.names[m]) {
      if m == newest {
        assert Goes(L, R, b, n, a, q) ==> q in b.names;
      }
    }
    assert AcceptOk(L, R, after) by {
      forall n: nat | n < newest ensures (n in after.work <==> n in b.work) && after.names[n] == b.names[n] {
      }
    }
  }

  /** The current state gets its steps to `q` on the symbols of `common`. */
  lemma AddSteps(L: Automaton, R: Automaton, b: Build, m: nat, common: set<nat>)
    requires Ok(L, R, b) && b.cur < |b.names| && b.cur !in b.work && m < |b.names|
    ensures Ok(L, R, b.(trans := b.trans + (set a | a in common :: Edge(b.cur, a, m)), dealt := b.dealt + (set a | a in common :: (a, b.names[m]))))
  {
    var q := b.names[m];
    var after := b.(trans := b.trans + (set a | a in common :: Edge(b.cur, a, m)), dealt := b.dealt + (set a | a in common :: (a, q)));
    forall n: nat, a: nat, p: StatePair ensures Goes(L, R, after, n, a, p) <==> Goes(L, R, b, n, a, p) || (n == b.cur && a in common && p == q) {
    }
    hide Goes;
    forall n: nat, a: nat, k: nat ensures Edge(n, a, k) in after.trans <==> k < |after.names| && Goes(L, R, after, n, a, after.names[k]) {
      assert Edge(n, a, k) in b.trans <==> k < |b.names| && Goes(L, R, b, n, a, b.names[k]);
      assert k < |b.names| && b.names[k] == q ==> k == m;
    }
    assert CoveredOk(L, R, after) && AcceptOk(L, R, after);
  }

  /** Takes the last waiting state and sets its acceptance. */
  lemma TakeState(L: Automaton, R: Automaton, b: Build, accept: set<nat>)
    requires Ok(L, R, b) && Settled(L, R, b) && b.work != []
    requires var n := b.work[|b.work| - 1];
             n < |b.names| && forall m :: m in accept <==> m in b.accept || (m == n && b.names[n].0 in L.accept && b.names[n].1 in R.accept)
    ensures var n := b.work[|b.work| - 1];
            n !in b.work[..|b.work| - 1] && Ok(L, R, b.(work := b.work[..|b.work| - 1], accept := accept, cur := n, dealt := {}))
  {
    var n := b.work[|b.work| - 1];
    var after := b.(work := b.work[..|b.work| - 1], accept := accept, cur := n, dealt := {});
    assert b.work == after.work + [n] && n !in after.work;
    assert forall m :: m in b.work <==> m in after.work || m == n;
    forall m: nat, a: nat, q: StatePair ensures Goes(L, R, after, m, a, q) <==> Goes(L, R, b, m, a, q) {
    }
    hide Goes, Both;
  }

  // ---- There are finitely many pairs.

  lemma NamesFit(L: Automaton, R: Automaton, b: Build)
    requires Ok(L, R, b)
    ensures |b.names| <= L.states * R.states
  {
    hide Digits;
    var codes: seq<nat> := seq(|b.names|, i requires 0 <= i < |b.names| => Digits(b.names[i].0, b.names[i].1, R.states));
    forall i, j | 0 <= i < j < |codes| ensures codes[i] != codes[j] {
      var p, q := b.names[i], b.names[j];
      DigitsOrder(p.0, p.1, q.0, q.1, R.states);
    }
    forall i | 0 <= i < |codes| ensures codes[i] < L.states * R.states {
      DigitsBound(b.names[i].0, b.names[i].1, R.states, L.states);
    }
    DistinctSize(codes);
    BoundedSetSize(Elems(codes), L.states * R.states);
  }

  // ---- The algorithm.

  /** The map of states, the work list and the automaton so far. */
  datatype Tables = Tables(newstates: map<StatePair, nat>, worklist: seq<(StatePair, nat)>, states: nat, trans: set<Edge>, accept: set<nat>)

  ghost predicate Holds(b: Build, t: Tables) {
    && t.states == |b.names| && t.trans == b.trans && t.accept == b.accept
    && (forall i :: 0 <= i < |b.names| ==> b.names[i] in t.newstates && t.newstates[b.names[i]] == i)
    && (forall p :: p in t.newstates ==> p in b.names)
    && |t.worklist| == |b.work|
    && (forall i :: 0 <= i < |b.work| ==> b.work[i] < |b.names| && t.worklist[i] == (b.names[b.work[i]], b.work[i]))
  }

  /** What finding or adding a state keeps. */
  ghost predicate Extends(b: Build, c: Build) {
    b.names <= c.names && c.cur == b.cur && |c.names| - |c.work| == |b.names| - |b.work| && (b.cur !in b.work && b.cur < |b.names| ==> c.cur !in c.work)
  }

  method ComputeIfAbsent(L: Automaton, R: Automaton, t0: Tables, q: StatePair, ghost b0: Build) returns (t: Tables, n: nat, ghost b: Build)
    requires Ok(L, R, b0) && Holds(b0, t0) && InRange(L, R, q)
    ensures Ok(L, R, b) && Holds(b, t) && Extends(b0, b) && b.dealt == b0.dealt && n < |b.names| && b.names[n] == q
  {
    if q in t0.newstates {
      ghost var i :| 0 <= i < |b0.names| && b0.names[i] == q;
      return t0, t0.newstates[q], b0;
    }
    AddName(L, R, b0, q);
    n := t0.states;
    b := b0.(names := b0.names + [q], work := b0.work + [n]);
    t := Tables(t0.newstates[q := n], t0.worklist + [(q, n)], n + 1, t0.trans, t0.accept);
  }

  /** The steps made by the entries before (i, j) of two rows. */
  ghost predicate Partly(lrow: MaskRow, rrow: MaskRow, i: nat, j: nat, a: nat, q: StatePair) {
    exists k: nat, m: nat :: (k < i || (k == i && m < j)) && Meet(lrow, rrow, k, m, a, q)
  }

  ghost predicate Meet(lrow: MaskRow, rrow: MaskRow, k: nat, m: nat, a: nat, q: StatePair) {
    k < |lrow| && m < |rrow| && a in lrow[k].0 && a in rrow[m].0 && q == (lrow[k].1, rrow[m].1)
  }

  ghost predicate DealtPartly(lrow: MaskRow, rrow: MaskRow, i: nat, j: nat, dealt: set<(nat, StatePair)>) {
    forall a: nat, q: StatePair :: (a, q) in dealt <==> Partly(lrow, rrow, i, j, a, q)
  }

  lemma NextEntry(lrow: MaskRow, rrow: MaskRow, i: nat, j: nat, dealt: set<(nat, StatePair)>)
    requires DealtPartly(lrow, rrow, i, j, dealt) && i < |lrow| && j < |rrow|
    ensures DealtPartly(lrow, rrow, i, j + 1, dealt + (set a | a in lrow[i].0 * rrow[j].0 :: (a, (lrow[i].1, rrow[j].1))))
  {
    var after := dealt + (set a | a in lrow[i].0 * rrow[j].0 :: (a, (lrow[i].1, rrow[j].1)));
    var next := j + 1;
    forall a: nat, q: StatePair ensures (a, q) in after <==> Partly(lrow, rrow, i, next, a, q) {
      assert (a, q) in after <==> (a, q) in dealt || Meet(lrow, rrow, i, j, a, q);
      hide Meet;
      if Partly(lrow, rrow, i, next, a, q) {
        var k: nat, m: nat :| (k < i || (k == i && m < next)) && Meet(lrow, rrow, k, m, a, q);
        assert (k == i && m == j) || Partly(lrow, rrow, i, j, a, q);
      }
    }
  }

  lemma NextRow(lrow: MaskRow, rrow: MaskRow, i: nat, dealt: set<(nat, StatePair)>)
    requires DealtPartly(lrow, rrow, i, |rrow|, dealt)
    ensures DealtPartly(lrow, rrow, i + 1, 0, dealt)
  {
    var next: nat := i + 1;
    var none: nat := 0;
    forall a: nat, q: StatePair ensures Partly(lrow, rrow, next, none, a, q) <==> Partly(lrow, rrow, i, |rrow|, a, q) {
    }
  }

  lemma AllEntries(L: Automaton, R: Automaton, lrows: MaskRows, rrows: MaskRows, p: StatePair, dealt: set<(nat, StatePair)>)
    requires MaskRowsOf(L, lrows) && MaskRowsOf(R, rrows) && InRange(L, R, p) && DealtPartly(lrows[p.0], rrows[p.1], |lrows[p.0]|, 0, dealt)
    ensures forall a: nat, q: StatePair :: (a, q) in dealt <==> Both(L, R, p, a, q)
  {
    var lrow, rrow := lrows[p.0], rrows[p.1];
    forall a: nat, q: StatePair ensures Partly(lrow, rrow, |lrow|, 0, a, q) <==> Both(L, R, p, a, q) {
      if Both(L, R, p, a, q) {
        assert InMasks(lrow, a, q.0) && InMasks(rrow, a, q.1);
        var k: nat :| k < |lrow| && a in lrow[k].0 && lrow[k].1 == q.0;
        var m: nat :| m < |rrow| && a in rrow[m].0 && rrow[m].1 == q.1;
        assert Meet(lrow, rrow, k, m, a, q);
      }
    }
  }

  /** The state where two entries with a common symbol lead. */
  lemma TargetInRange(L: Automaton, R: Automaton, lrows: MaskRows, rrows: MaskRows, p: StatePair, i: nat, j: nat)
    requires MaskRowsOf(L, lrows) && MaskRowsOf(R, rrows) && InRange(L, R, p) && i < |lrows[p.0]| && j < |rrows[p.1]|
    requires lrows[p.0][i].0 * rrows[p.1][j].0 != {}
    ensures InRange(L, R, (lrows[p.0][i].1, rrows[p.1][j].1))
  {
    var lt, rt := lrows[p.0][i], rrows[p.1][j];
    var a :| a in lt.0 * rt.0;
    assert InMasks(lrows[p.0], a, lt.1) && InMasks(rrows[p.1], a, rt.1);
    assert L.Has(p.0, a, lt.1) && R.Has(p.1, a, rt.1);
    assert Edge(p.0, a, lt.1) in L.trans && Edge(p.1, a, rt.1) in R.trans;
  }

  /** One pair of transitions: if some symbol is on both, the state they lead to and the transitions to it. */
  method DoEntry(L: Automaton, R: Automaton, lt: (set<nat>, nat), rt: (set<nat>, nat), ns: nat, t0: Tables, ghost b0: Build) returns (t: Tables, ghost b: Build)
    requires Ok(L, R, b0) && Holds(b0, t0) && ns == b0.cur < |b0.names| && ns !in b0.work
    requires lt.0 * rt.0 != {} ==> InRange(L, R, (lt.1, rt.1))
    ensures Ok(L, R, b) && Holds(b, t) && Extends(b0, b) && b.dealt == b0.dealt + (set a | a in lt.0 * rt.0 :: (a, (lt.1, rt.1)))
  {
    var common := lt.0 * rt.0;
    if common == {} {
      return t0, b0;
    }
    var m;
    t, m, b := ComputeIfAbsent(L, R, t0, (lt.1, rt.1), b0);
    AddSteps(L, R, b, m, common);
    hide Ok;
    var trans := t.trans + set a | a in common :: Edge(ns, a, m);
    b, t := b.(trans := trans, dealt := b.dealt + set a | a in common :: (a, b.names[m])), t.(trans := trans);
  }

  /** One transition of the left row against all of the right row. */
  method DoRow(L: Automaton, R: Automaton, lrows: MaskRows, rrows: MaskRows, p: StatePair, ns: nat, i: nat, t0: Tables, ghost b0: Build) returns (t: Tables, ghost b: Build)
    requires MaskRowsOf(L, lrows) && MaskRowsOf(R, rrows) && InRange(L, R, p) && i < |lrows[p.0]|
    requires Ok(L, R, b0) && Holds(b0, t0) && ns == b0.cur < |b0.names| && ns !in b0.work && DealtPartly(lrows[p.0], rrows[p.1], i, 0, b0.dealt)
    ensures Ok(L, R, b) && Holds(b, t) && Extends(b0, b) && DealtPartly(lrows[p.0], rrows[p.1], i + 1, 0, b.dealt)
  {
    t, b := t0, b0;
    var lrow, rrow := lrows[p.0], rrows[p.1];
    hide Ok, Holds, DealtPartly;
    var j := 0;
    while j < |rrow|
      invariant j <= |rrow| && Ok(L, R, b) && Holds(b, t) && Extends(b0, b) && DealtPartly(lrow, rrow, i, j, b.dealt)
    {
      if lrow[i].0 * rrow[j].0 != {} {
        TargetInRange(L, R, lrows, rrows, p, i, j);
      }
      NextEntry(lrow, rrow, i, j, b.dealt);
      t, b := DoEntry(L, R, lrow[i], rrow[j], ns, t, b);
      j := j + 1;
    }
    NextRow(lrow, rrow, i, b.dealt);
  }

  lemma TopOfWork(L: Automaton, R: Automaton, b: Build, t: Tables)
    requires Ok(L, R, b) && Holds(b, t) && t.worklist != []
    ensures b.work != []
    ensures var (p, ns) := t.worklist[|t.worklist| - 1]; ns == b.work[|b.work| - 1] && ns < |b.names| && b.names[ns] == p && t.accept == b.accept && InRange(L, R, p)
  {
  }

  lemma TakenHolds(b: Build, t: Tables, accept: set<nat>)
    requires Holds(b, t) && t.worklist != [] && b.work != []
    ensures Holds(b.(work := b.work[..|b.work| - 1], accept := accept, cur := b.work[|b.work| - 1], dealt := {}), t.(worklist := t.worklist[..|t.worklist| - 1], accept := accept))
  {
  }

  lemma NothingYet(lrow: MaskRow, rrow: MaskRow)
    ensures DealtPartly(lrow, rrow, 0, 0, {})
  {
  }

  /** Builds all transitions of the state on top of the work list. */
  method DoState(L: Automaton, R: Automaton, lrows: MaskRows, rrows: MaskRows, t0: Tables, ghost b0: Build) returns (t: Tables, ghost b: Build)
    requires MaskRowsOf(L, lrows) && MaskRowsOf(R, rrows) && Ok(L, R, b0) && Settled(L, R, b0) && Holds(b0, t0) && t0.worklist != []
    ensures Ok(L, R, b) && Settled(L, R, b) && Holds(b, t) && |b.names| - |b.work| == |b0.names| - |b0.work| + 1 && |b0.names| <= |b.names|
  {
    var (p, ns) := t0.worklist[|t0.worklist| - 1];
    TopOfWork(L, R, b0, t0);
    var accept := t0.accept + if p.0 in L.accept && p.1 in R.accept then {ns} else {};
    TakeState(L, R, b0, accept);
    TakenHolds(b0, t0, accept);
    t := t0.(worklist := t0.worklist[..|t0.worklist| - 1], accept := accept);
    b := b0.(work := b0.work[..|b0.work| - 1], accept := accept, cur := ns, dealt := {});
    hide Ok, Holds, DealtPartly;
    NothingYet(lrows[p.0], rrows[p.1]);
    var i := 0;
    while i < |lrows[p.0]|
      invariant i <= |lrows[p.0]| && Ok(L, R, b) && Holds(b, t) && ns == b.cur < |b.names| && ns !in b.work && b.names[ns] == p
      invariant DealtPartly(lrows[p.0], rrows[p.1], i, 0, b.dealt)
      invariant |b.names| - |b.work| == |b0.names| - |b0.work| + 1 && |b0.names| <= |b.names|
    {
      t, b := DoRow(L, R, lrows, rrows, p, ns, i, t, b);
      i := i + 1;
    }
    AllEntries(L, R, lrows, rrows, p, b.dealt);
  }

  ghost function Begin(): Build {
    Build([(0, 0)], [0], {}, {}, 0, {})
  }

  /** The reachable part of the product accepts the words that both automata accept. */
  method Conj(L: Automaton, R: Automaton, lrows: MaskRows, rrows: MaskRows) returns (C: Automaton)
    requires MaskRowsOf(L, lrows) && MaskRowsOf(R, rrows) && L.symbols == R.symbols
    ensures C.Valid() && 0 < C.states <= L.states * R.states && C.symbols == L.symbols
    ensures forall w :: Accepts(C, 0, w) <==> Accepts(L, 0, w) && Accepts(R, 0, w)
  {
    var t: Tables := Tables(map[(0, 0) := 0], [((0, 0), 0)], 1, {}, {});
    ghost var b := Begin();
    assert Ok(L, R, b) && Holds(b, t) && Settled(L, R, b);
    hide *;
    while t.worklist != []
      invariant Ok(L, R, b) && Settled(L, R, b) && Holds(b, t)
      decreases L.states * R.states - |b.names| + |t.worklist|
    {
      NamesFit(L, R, b);
      SameWork(b, t);
      t, b := DoState(L, R, lrows, rrows, t, b);
      NamesFit(L, R, b);
      SameWork(b, t);
    }
    SameWork(b, t);
    NamesFit(L, R, b);
    C := Automaton(t.states, L.symbols, t.trans, t.accept);
    Finished(L, R, b, C);
    forall w ensures Accepts(C, 0, w) <==> Accepts(L, 0, w) && Accepts(R, 0, w) {
      ProductAccepts(L, R, b.names, C, 0, w);
    }
  }

  lemma SameWork(b: Build, t: Tables)
    requires Holds(b, t)
    ensures |b.work| == |t.worklist| && t.states == |b.names| && t.trans == b.trans && t.accept == b.accept
  {
  }

  /** The states are pairs, closed under common steps. */
  ghost predicate IsProduct(L: Automaton, R: Automaton, names: seq<StatePair>, C: Automaton) {
    && names != [] && names[0] == (0, 0)
    && (forall n: nat, a: nat, m: nat :: C.Has(n, a, m) <==> n < |names| && m < |names| && Both(L, R, names[n], a, names[m]))
    && (forall n: nat, a: nat, q: StatePair :: StepsFrom(L, R, names, n, a, q) ==> q in names)
    && (forall n: nat :: n in C.accept <==> n < |names| && names[n].0 in L.accept && names[n].1 in R.accept)
  }

  ghost predicate StepsFrom(L: Automaton, R: Automaton, names: seq<StatePair>, n: nat, a: nat, q: StatePair) {
    n < |names| && Both(L, R, names[n], a, q)
  }

  lemma Finished(L: Automaton, R: Automaton, b: Build, C: Automaton)
    requires L.Valid() && Ok(L, R, b) && Settled(L, R, b) && b.work == [] && C == Automaton(|b.names|, L.symbols, b.trans, b.accept)
    ensures IsProduct(L, R, b.names, C) && C.Valid() && C.states > 0
  {
    forall n: nat, a: nat, q: StatePair ensures Goes(L, R, b, n, a, q) <==> StepsFrom(L, R, b.names, n, a, q) {
    }
    hide Goes;
    forall n: nat, a: nat, m: nat ensures C.Has(n, a, m) <==> n < |b.names| && m < |b.names| && Both(L, R, b.names[n], a, b.names[m]) {
      assert Edge(n, a, m) in b.trans <==> m < |b.names| && Goes(L, R, b, n, a, b.names[m]);
    }
    forall e | e in C.trans ensures e.source < C.states && e.symbol < C.symbols && e.target < C.states {
      assert C.Has(e.source, e.symbol, e.target);
      assert Edge(b.names[e.source].0, e.symbol, b.names[e.target].0) in L.trans;
    }
  }

  lemma {:induction false} ProductAccepts(L: Automaton, R: Automaton, names: seq<StatePair>, C: Automaton, n: nat, w: seq<nat>)
    requires IsProduct(L, R, names, C) && n < |names|
    ensures Accepts(C, n, w) <==> Accepts(L, names[n].0, w) && Accepts(R, names[n].1, w)
    decreases |w|
  {
    if w != [] {
      if Accepts(C, n, w) {
        var m: nat :| C.Has(n, w[0], m) && Accepts(C, m, w[1..]);
        ProductAccepts(L, R, names, C, m, w[1..]);
      }
      if Accepts(L, names[n].0, w) && Accepts(R, names[n].1, w) {
        var t: nat :| L.Has(names[n].0, w[0], t) && Accepts(L, t, w[1..]);
        var u: nat :| R.Has(names[n].1, w[0], u) && Accepts(R, u, w[1..]);
        assert StepsFrom(L, R, names, n, w[0], (t, u));
        var m: nat :| m < |names| && names[m] == (t, u);
        ProductAccepts(L, R, names, C, m, w[1..]);
        assert C.Has(n, w[0], m);
      }
    }
  }
}
