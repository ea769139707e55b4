/** Building the automaton of the accepting shuffle with a work list. */
module ShuffleConstruction {
  import opened Automata
  import opened SeqFacts
  import opened Arithmetic
  import opened ShuffleTheory

  /**
   What has been built: state n + 1 stands for `names[n]`, `work` are the states whose transitions are still
   missing, and `cur`, if it is a state, has those of the first `done` entries of its row.
   */
  datatype Build = Build(names: seq<Pair>, work: seq<nat>, trans: set<Edge>, accept: set<nat>, cur: nat, done: nat)

  /** The pair is one of states, and if both automata start out accepting, the inactive one accepts. */
  ghost predicate Sound(L: Automaton, R: Automaton, p: Pair) {
    p.ls < L.states && p.rs < R.states && (0 in L.accept && 0 in R.accept ==> InactiveAccepts(L, R, p))
  }

  function RowAt(lrows: Rows, rrows: Rows, p: Pair): seq<(nat, nat)> {
    if p.left then (if p.ls < |lrows| then lrows[p.ls] else []) else (if p.rs < |rrows| then rrows[p.rs] else [])
  }

  /** `q` follows `p` on `a` by one of the entries. */
  ghost predicate ByEntry(L: Automaton, R: Automaton, p: Pair, row: seq<(nat, nat)>, a: nat, q: Pair) {
    exists i :: 0 <= i < |row| && row[i].0 == a && Leads(L, R, p, row[i].1, q)
  }

  ghost predicate Leads(L: Automaton, R: Automaton, p: Pair, next: nat, q: Pair) {
    q == p.Moved(next) || (ActiveAccepts(L, R, p.Moved(next)) && q == p.Moved(next).Turned())
  }

  lemma RowIsFollows(L: Automaton, R: Automaton, lrows: Rows, rrows: Rows, p: Pair, a: nat, q: Pair)
    requires RowsOf(L, lrows) && RowsOf(R, rrows) && Sound(L, R, p)
    ensures ByEntry(L, R, p, RowAt(lrows, rrows, p), a, q) <==> Follows(L, R, p, a, q)
  {
    var row := RowAt(lrows, rrows, p);
    forall next: nat ensures (a, next) in row <==> ActiveHas(L, R, p, a, next) {
    }
    if ByEntry(L, R, p, row, a, q) {
      var i :| 0 <= i < |row| && row[i].0 == a && Leads(L, R, p, row[i].1, q);
      assert row[i] == (a, row[i].1) && row[i] in row;
    }
    if Follows(L, R, p, a, q) {
      var next: nat :| ActiveHas(L, R, p, a, next) && (q == p.Moved(next) || (ActiveAccepts(L, R, p.Moved(next)) && q == p.Moved(next).Turned()));
      assert (a, next) in row;
      var i :| 0 <= i < |row| && row[i] == (a, next);
      assert Leads(L, R, p, row[i].1, q);
    }
  }

  /** The entries of state `n` that have been dealt with. */
  ghost function RowDone(lrows: Rows, rrows: Rows, b: Build, n: nat): seq<(nat, nat)>
    requires 1 <= n <= |b.names|
  {
    var row := RowAt(lrows, rrows, b.names[n - 1]);
    if n in b.work then [] else if n == b.cur && b.done <= |row| then row[..b.done] else row
  }

  ghost predicate NamesOk(L: Automaton, R: Automaton, b: Build) {
    && |b.names| >= 2 && b.names[0] == Pair(0, 0, true) && b.names[1] == Pair(0, 0, false) && Distinct(b.names)
    && (forall i :: 0 <= i < |b.names| ==> Sound(L, R, b.names[i]))
    && Distinct(b.work) && (forall n :: n in b.work ==> 1 <= n <= |b.names|)
  }

  /** An entry of state `n` that has been dealt with leads to `q` on `a`. */
  ghost predicate Dealt(L: Automaton, R: Automaton, lrows: Rows, rrows: Rows, b: Build, n: nat, a: nat, q: Pair) {
    1 <= n <= |b.names| && ByEntry(L, R, b.names[n - 1], RowDone(lrows, rrows, b, n), a, q)
  }

  /** The transitions are those of the entries dealt with. */
  ghost predicate TransOk(L: Automaton, R: Automaton, lrows: Rows, rrows: Rows, b: Build) {
    forall n: nat, a: nat, m: nat :: Edge(n, a, m) in b.trans <==> 1 <= m <= |b.names| && Dealt(L, R, lrows, rrows, b, n, a, b.names[m - 1])
  }

  /** Wherever they lead has a state. */
  ghost predicate CoveredOk(L: Automaton, R: Automaton, lrows: Rows, rrows: Rows, b: Build) {
    forall n: nat, a: nat, q: Pair :: Dealt(L, R, lrows, rrows, b, n, a, q) ==> q in b.names
  }

  ghost predicate AcceptOk(L: Automaton, R: Automaton, b: Build) {
    forall n: nat :: n in b.accept <==> 1 <= n <= |b.names| && n !in b.work && BothAccept(L, R, b.names[n - 1])
  }

  ghost predicate Ok(L: Automaton, R: Automaton, lrows: Rows, rrows: Rows, b: Build) {
    && RowsOf(L, lrows) && RowsOf(R, rrows) && NamesOk(L, R, b)
    && TransOk(L, R, lrows, rrows, b) && CoveredOk(L, R, lrows, rrows, b) && AcceptOk(L, R, b)
  }

  ghost function Begin(): Build {
    Build([Pair(0, 0, true), Pair(0, 0, false)], [1, 2], {}, {}, 0, 0)
  }

  lemma BeginOk(L: Automaton, R: Automaton, lrows: Rows, rrows: Rows)
    requires RowsOf(L, lrows) && RowsOf(R, rrows)
    ensures Ok(L, R, lrows, rrows, Begin())
  {
    var b := Begin();
    forall n: nat | 1 <= n <= 2 ensures RowDone(lrows, rrows, b, n) == [] {
      assert n in b.work;
    }
  }

  /** A new state that waits changes nothing for the others. */
  lemma AddName(L: Automaton, R: Automaton, lrows: Rows, rrows: Rows, b: Build, q: Pair)
    requires Ok(L, R, lrows, rrows, b) && Sound(L, R, q) && q !in b.names
    ensures Ok(L, R, lrows, rrows, b.(names := b.names + [q], work := b.work + [|b.names| + 1]))
  {
    var after := b.(names := b.names + [q], work := b.work + [|b.names| + 1]);
    var newest := |after.names|;
    assert after.names[newest - 1] == q && newest in after.work;
    DistinctConcat(b.work, [newest]);
    forall n: nat | 1 <= n <= |b.names| ensures RowDone(lrows, rrows, after, n) == RowDone(lrows, rrows, b, n) && after.names[n - 1] == b.names[n - 1] {
      assert n in after.work <==> n in b.work;
    }
    assert RowDone(lrows, rrows, after, newest) == [];
    forall n: nat, a: nat, p: Pair ensures Dealt(L, R, lrows, rrows, after, n, a, p) <==> Dealt(L, R, lrows, rrows, b, n, a, p) {
    }
    forall n: nat, a: nat, m: nat ensures Edge(n, a, m) in after.trans <==> 1 <= m <= |after.names| && Dealt(L, R, lrows, rrows, after, n, a, after.names[m - 1]) {
      if m == newest {
        assert Dealt(L, R, lrows, rrows, b, n, a, q) ==> q in b.names;
      }
    }
    assert CoveredOk(L, R, lrows, rrows, after);
  }

  /** Deals with one more entry of the current state, whose targets have states. */
  lemma DealEntry(L: Automaton, R: Automaton, lrows: Rows, rrows: Rows, b: Build, trans: set<Edge>)
    requires Ok(L, R, lrows, rrows, b) && 1 <= b.cur <= |b.names| && b.cur !in b.work
    requires b.done < |RowAt(lrows, rrows, b.names[b.cur - 1])|
    requires var (a, next) := RowAt(lrows, rrows, b.names[b.cur - 1])[b.done];
             && (forall q :: Leads(L, R, b.names[b.cur - 1], next, q) ==> q in b.names)
             && (forall e :: e in trans <==> e in b.trans || (e.source == b.cur && e.symbol == a && 1 <= e.target <= |b.names| && Leads(L, R, b.names[b.cur - 1], next, b.names[e.target - 1])))
    ensures Ok(L, R, lrows, rrows, b.(trans := trans, done := b.done + 1))
  {
    var after, p := b.(trans := trans, done := b.done + 1), b.names[b.cur - 1];
    var (a0, next) := RowAt(lrows, rrows, p)[b.done];
    forall n: nat, a: nat, q: Pair ensures Dealt(L, R, lrows, rrows, after, n, a, q) <==> Dealt(L, R, lrows, rrows, b, n, a, q) || (n == b.cur && a == a0 && Leads(L, R, p, next, q)) {
      DealtMore(L, R, lrows, rrows, b, after, n, a, q);
    }
    hide Sound, BothAccept, RowsOf, Dealt, RowAt, Leads;
    forall n: nat, a: nat, m: nat ensures Edge(n, a, m) in trans <==> 1 <= m <= |b.names| && Dealt(L, R, lrows, rrows, after, n, a, b.names[m - 1]) {
      assert Edge(n, a, m) in b.trans <==> 1 <= m <= |b.names| && Dealt(L, R, lrows, rrows, b, n, a, b.names[m - 1]);
    }
    assert CoveredOk(L, R, lrows, rrows, after) && AcceptOk(L, R, after);
  }

  lemma DealtMore(L: Automaton, R: Automaton, lrows: Rows, rrows: Rows, b: Build, after: Build, n: nat, a: nat, q: Pair)
    requires 1 <= b.cur <= |b.names| && b.cur !in b.work && b.done < |RowAt(lrows, rrows, b.names[b.cur - 1])|
    requires after == b.(trans := after.trans, done := b.done + 1)
    ensures var (a0, next) := RowAt(lrows, rrows, b.names[b.cur - 1])[b.done];
            Dealt(L, R, lrows, rrows, after, n, a, q) <==> Dealt(L, R, lrows, rrows, b, n, a, q) || (n == b.cur && a == a0 && Leads(L, R, b.names[b.cur - 1], next, q))
  {
    if n == b.cur {
      var p := b.names[n - 1];
      OneMoreEntry(L, R, p, RowAt(lrows, rrows, p), b.done, a, q);
    }
    hide ByEntry, Leads;
  }

  lemma OneMoreEntry(L: Automaton, R: Automaton, p: Pair, row: seq<(nat, nat)>, done: nat, a: nat, q: Pair)
    requires done < |row|
    ensures ByEntry(L, R, p, row[..done + 1], a, q) <==> ByEntry(L, R, p, row[..done], a, q) || (a == row[done].0 && Leads(L, R, p, row[done].1, q))
  {
    var more := row[..done + 1];
    if ByEntry(L, R, p, more, a, q) {
      var i :| 0 <= i < |more| && more[i].0 == a && Leads(L, R, p, more[i].1, q);
      assert i < done ==> row[..done][i] == more[i];
    }
    if ByEntry(L, R, p, row[..done], a, q) {
      var i :| 0 <= i < done && row[..done][i].0 == a && Leads(L, R, p, row[..done][i].1, q);
      assert more[i] == row[i];
    }
    assert more[done] == row[done];
  }

  /** Takes the last waiting state and sets its acceptance. */
  lemma TakeState(L: Automaton, R: Automaton, lrows: Rows, rrows: Rows, b: Build, accept: set<nat>)
    requires Ok(L, R, lrows, rrows, b) && b.work != [] && Settled(lrows, rrows, b)
    requires var n := b.work[|b.work| - 1];
             1 <= n <= |b.names| && forall m :: m in accept <==> m in b.accept || (m == n && BothAccept(L, R, b.names[n - 1]))
    ensures var n := b.work[|b.work| - 1];
            var after := b.(work := b.work[..|b.work| - 1], accept := accept, cur := n, done := 0);
            n !in after.work && Ok(L, R, lrows, rrows, after)
  {
    var n := b.work[|b.work| - 1];
    var after := b.(work := b.work[..|b.work| - 1], accept := accept, cur := n, done := 0);
    assert b.work == after.work + [n] && n !in after.work;
    assert forall m :: m in b.work <==> m in after.work || m == n;
    hide Sound, ByEntry, RowsOf, BothAccept;
    assert NamesOk(L, R, after) by {
      hide RowAt, Dealt, AcceptOk, Settled;
    }
    forall m: nat | 1 <= m <= |b.names| ensures RowDone(lrows, rrows, after, m) == RowDone(lrows, rrows, b, m) {
    }
    forall m: nat, a: nat, q: Pair ensures Dealt(L, R, lrows, rrows, after, m, a, q) <==> Dealt(L, R, lrows, rrows, b, m, a, q) {
    }
    hide Dealt, RowAt, Settled;
    assert TransOk(L, R, lrows, rrows, after) && CoveredOk(L, R, lrows, rrows, after);
  }

  /** No state is half done. */
  ghost predicate Settled(lrows: Rows, rrows: Rows, b: Build) {
    1 <= b.cur <= |b.names| ==> b.cur in b.work || b.done >= |RowAt(lrows, rrows, b.names[b.cur - 1])|
  }

  // ---- There are finitely many pairs.

  function PairCode(p: Pair, n: nat): nat {
    Digits(Digits(p.ls, p.rs, n), if p.left then 1 else 0, 2)
  }

  lemma NamesFit(L: Automaton, R: Automaton, names: seq<Pair>)
    requires Distinct(names) && forall i :: 0 <= i < |names| ==> Sound(L, R, names[i])
    ensures |names| <= L.states * R.states * 2
  {
    hide Digits;
    var codes: seq<nat> := seq(|names|, i requires 0 <= i < |names| => PairCode(names[i], R.states));
    forall i, j | 0 <= i < j < |codes| ensures codes[i] != codes[j] {
      var p, q := names[i], names[j];
      DigitsOrder(Digits(p.ls, p.rs, R.states), if p.left then 1 else 0, Digits(q.ls, q.rs, R.states), if q.left then 1 else 0, 2);
      DigitsOrder(p.ls, p.rs, q.ls, q.rs, R.states);
    }
    forall i | 0 <= i < |codes| ensures codes[i] < L.states * R.states * 2 {
      var p := names[i];
      DigitsBound(p.ls, p.rs, R.states, L.states);
      DigitsBound(Digits(p.ls, p.rs, R.states), if p.left then 1 else 0, 2, L.states * R.states);
    }
    DistinctSize(codes);
    BoundedSetSize(Elems(codes), L.states * R.states * 2);
  }

  // ---- The algorithm.

  /** The map of states, the work list and the automaton so far. */
  datatype Tables = Tables(newstates: map<Pair, nat>, worklist: seq<(Pair, nat)>, states: nat, trans: set<Edge>, accept: set<nat>)

  ghost predicate Holds(b: Build, t: Tables) {
    && t.states == |b.names| + 1 && t.trans == b.trans && t.accept == b.accept
    && (forall i :: 0 <= i < |b.names| ==> b.names[i] in t.newstates && t.newstates[b.names[i]] == i + 1)
    && (forall p :: p in t.newstates ==> p in b.names)
    && |t.worklist| == |b.work|
    && (forall i :: 0 <= i < |b.work| ==> 1 <= b.work[i] <= |b.names| && t.worklist[i] == (b.names[b.work[i] - 1], b.work[i]))
  }

  /** What adding states keeps. */
  ghost predicate Extends(b: Build, c: Build) {
    b.names <= c.names && c.cur == b.cur && c.done == b.done && c.trans == b.trans && |c.names| - |c.work| == |b.names| - |b.work|
    && (b.cur !in b.work && b.cur <= |b.names| ==> c.cur !in c.work)
  }

  method GetOrAddState(L: Automaton, R: Automaton, ghost lrows: Rows, ghost rrows: Rows, t0: Tables, q: Pair, ghost b0: Build) returns (t: Tables, n: nat, ghost b: Build)
    requires Ok(L, R, lrows, rrows, b0) && Holds(b0, t0) && Sound(L, R, q)
    ensures Ok(L, R, lrows, rrows, b) && Holds(b, t) && Extends(b0, b) && 1 <= n <= |b.names| && b.names[n - 1] == q && t.trans == b.trans
  {
    if q in t0.newstates {
      ghost var i :| 0 <= i < |b0.names| && b0.names[i] == q;
      return t0, t0.newstates[q], b0;
    }
    AddName(L, R, lrows, rrows, b0, q);
    n := t0.states;
    b := b0.(names := b0.names + [q], work := b0.work + [n]);
    t := Tables(t0.newstates[q := n], t0.worklist + [(q, n)], n + 1, t0.trans, t0.accept);
  }

  lemma TargetSound(L: Automaton, R: Automaton, lrows: Rows, rrows: Rows, p: Pair, i: nat)
    requires RowsOf(L, lrows) && RowsOf(R, rrows) && Sound(L, R, p) && i < |RowAt(lrows, rrows, p)|
    ensures var moved := p.Moved(RowAt(lrows, rrows, p)[i].1);
            Sound(L, R, moved) && (ActiveAccepts(L, R, moved) ==> Sound(L, R, moved.Turned()))
  {
    var (a, next) := RowAt(lrows, rrows, p)[i];
    assert (a, next) in RowAt(lrows, rrows, p);
    assert ActiveHas(L, R, p, a, next);
    if p.left {
      assert Edge(p.ls, a, next) in L.trans;
    } else {
      assert Edge(p.rs, a, next) in R.trans;
    }
    if InactiveAccepts(L, R, p) {
      var moved := p.Moved(next);
      assert Follows(L, R, p, a, moved) && (ActiveAccepts(L, R, moved) ==> Follows(L, R, p, a, moved.Turned()));
      FollowsKeepsInactive(L, R, p, a, moved);
      if ActiveAccepts(L, R, moved) {
        FollowsKeepsInactive(L, R, p, a, moved.Turned());
      }
    }
  }

  /** Finds or adds the state after an entry and, if the automaton that moved accepts, the one with turns changed. */
  method AddTargets(L: Automaton, R: Automaton, ghost lrows: Rows, ghost rrows: Rows, t0: Tables, moved: Pair, ghost b0: Build)
      returns (t: Tables, n: nat, m: nat, accepts: bool, ghost b: Build)
    requires Ok(L, R, lrows, rrows, b0) && Holds(b0, t0) && Sound(L, R, moved) && (ActiveAccepts(L, R, moved) ==> Sound(L, R, moved.Turned()))
    ensures Ok(L, R, lrows, rrows, b) && Holds(b, t) && Extends(b0, b) && t.trans == b0.trans
    ensures 1 <= n <= |b.names| && b.names[n - 1] == moved && accepts == ActiveAccepts(L, R, moved)
    ensures accepts ==> 1 <= m <= |b.names| && b.names[m - 1] == moved.Turned()
  {
    hide Ok, Sound, Holds;
    m := 0;
    t, n, b := GetOrAddState(L, R, lrows, rrows, t0, moved, b0);
    accepts := if moved.left then moved.ls in L.accept else moved.rs in R.accept;
    if accepts {
      t, m, b := GetOrAddState(L, R, lrows, rrows, t, moved.Turned(), b);
    }
  }

  /** Adds the transitions of one entry of the row of state `ns`. */
  method DoEntry(L: Automaton, R: Automaton, lrows: Rows, rrows: Rows, t0: Tables, p: Pair, ns: nat, j: nat, ghost b0: Build) returns (t: Tables, ghost b: Build)
    requires Ok(L, R, lrows, rrows, b0) && Holds(b0, t0) && 1 <= ns <= |b0.names| && ns !in b0.work && b0.names[ns - 1] == p && b0.cur == ns && b0.done == j < |RowAt(lrows, rrows, p)|
    ensures Ok(L, R, lrows, rrows, b) && Holds(b, t) && b.cur == ns && b.done == j + 1 && ns !in b.work && b0.names <= b.names
    ensures |b.names| - |b.work| == |b0.names| - |b0.work|
  {
    var (symbol, next) := RowAt(lrows, rrows, p)[j];
    TargetSound(L, R, lrows, rrows, p, j);
    hide Ok, Sound, Holds, Leads, ActiveAccepts;
    var n, m, accepts;
    t, n, m, accepts, b := AddTargets(L, R, lrows, rrows, t0, p.Moved(next), b0);
    var trans := t.trans + {Edge(ns, symbol, n)} + if accepts then {Edge(ns, symbol, m)} else {};
    FinishEntry(L, R, lrows, rrows, b, t, p, trans, n, m, accepts, j);
    b, t := b.(trans := trans, done := j + 1), t.(trans := trans);
  }

  lemma FinishEntry(L: Automaton, R: Automaton, lrows: Rows, rrows: Rows, b: Build, t: Tables, p: Pair, trans: set<Edge>, n: nat, m: nat, accepts: bool, j: nat)
    requires Ok(L, R, lrows, rrows, b) && Holds(b, t) && 1 <= b.cur <= |b.names| && b.cur !in b.work && b.names[b.cur - 1] == p && b.done == j < |RowAt(lrows, rrows, p)|
    requires var (symbol, next) := RowAt(lrows, rrows, p)[j];
             && 1 <= n <= |b.names| && b.names[n - 1] == p.Moved(next) && accepts == ActiveAccepts(L, R, p.Moved(next))
             && (accepts ==> 1 <= m <= |b.names| && b.names[m - 1] == p.Moved(next).Turned())
             && trans == b.trans + {Edge(b.cur, symbol, n)} + if accepts then {Edge(b.cur, symbol, m)} else {}
    ensures Ok(L, R, lrows, rrows, b.(trans := trans, done := j + 1)) && Holds(b.(trans := trans, done := j + 1), t.(trans := trans))
  {
    hide Ok, Holds, Leads, ActiveAccepts;
    var (symbol, next) := RowAt(lrows, rrows, p)[j];
    NamesDistinct(L, R, lrows, rrows, b);
    EntryTrans(L, R, b, p, symbol, next, trans, n, m, accepts);
    DealEntry(L, R, lrows, rrows, b, trans);
    RenameTrans(b, t, trans, j + 1);
  }

  lemma NamesDistinct(L: Automaton, R: Automaton, lrows: Rows, rrows: Rows, b: Build)
    requires Ok(L, R, lrows, rrows, b)
    ensures Distinct(b.names)
  {
  }

  lemma RenameTrans(b: Build, t: Tables, trans: set<Edge>, done: nat)
    requires Holds(b, t)
    ensures Holds(b.(trans := trans, done := done), t.(trans := trans))
  {
  }

  lemma EntryTrans(L: Automaton, R: Automaton, b: Build, p: Pair, symbol: nat, next: nat, trans: set<Edge>, n: nat, m: nat, accepts: bool)
    requires Distinct(b.names) && 1 <= n <= |b.names| && b.names[n - 1] == p.Moved(next) && accepts == ActiveAccepts(L, R, p.Moved(next))
    requires accepts ==> 1 <= m <= |b.names| && b.names[m - 1] == p.Moved(next).Turned()
    requires trans == b.trans + {Edge(b.cur, symbol, n)} + if accepts then {Edge(b.cur, symbol, m)} else {}
    ensures forall q :: Leads(L, R, p, next, q) ==> q in b.names
    ensures forall e :: e in trans <==> e in b.trans || (e.source == b.cur && e.symbol == symbol && 1 <= e.target <= |b.names| && Leads(L, R, p, next, b.names[e.target - 1]))
  {
  }

  /** Builds all transitions of the state on top of the work list. */
  method DoState(L: Automaton, R: Automaton, lrows: Rows, rrows: Rows, t0: Tables, ghost b0: Build) returns (t: Tables, ghost b: Build)
    requires Ok(L, R, lrows, rrows, b0) && Settled(lrows, rrows, b0) && Holds(b0, t0) && t0.worklist != []
    ensures Ok(L, R, lrows, rrows, b) && Settled(lrows, rrows, b) && Holds(b, t)
    ensures |b.names| - |b.work| == |b0.names| - |b0.work| + 1 && |b0.names| <= |b.names|
  {
    var (p, ns) := t0.worklist[|t0.worklist| - 1];
    TopOfWork(b0, t0);
    var accept := t0.accept + if p.ls in L.accept && p.rs in R.accept then {ns} else {};
    TakeState(L, R, lrows, rrows, b0, accept);
    TakenHolds(b0, t0, accept);
    t := t0.(worklist := t0.worklist[..|t0.worklist| - 1], accept := accept);
    b := b0.(work := b0.work[..|b0.work| - 1], accept := accept, cur := ns, done := 0);
    var row := RowAt(lrows, rrows, p);
    hide Ok, Holds, Settled;
    var j := 0;
    while j < |row|
      invariant j <= |row| && Ok(L, R, lrows, rrows, b) && Holds(b, t)
      invariant 1 <= ns <= |b.names| && ns !in b.work && b.names[ns - 1] == p && b.cur == ns && b.done == j
      invariant |b.names| - |b.work| == |b0.names| - |b0.work| + 1 && |b0.names| <= |b.names|
    {
      t, b := DoEntry(L, R, lrows, rrows, t, p, ns, j, b);
      j := j + 1;
    }
    RowFinished(lrows, rrows, b, p);
  }

  lemma RowFinished(lrows: Rows, rrows: Rows, b: Build, p: Pair)
    requires 1 <= b.cur <= |b.names| && b.names[b.cur - 1] == p && b.done >= |RowAt(lrows, rrows, p)|
    ensures Settled(lrows, rrows, b)
  {
  }

  lemma TopOfWork(b: Build, t: Tables)
    requires Holds(b, t) && t.worklist != []
    ensures b.work != []
    ensures var (p, ns) := t.worklist[|t.worklist| - 1]; ns == b.work[|b.work| - 1] && 1 <= ns <= |b.names| && b.names[ns - 1] == p && t.accept == b.accept
  {
  }

  lemma TakenHolds(b: Build, t: Tables, accept: set<nat>)
    requires Holds(b, t) && t.worklist != [] && b.work != []
    ensures Holds(b.(work := b.work[..|b.work| - 1], accept := accept, cur := b.work[|b.work| - 1], done := 0), t.(worklist := t.worklist[..|t.worklist| - 1], accept := accept))
  {
  }

  lemma BuildFits(L: Automaton, R: Automaton, lrows: Rows, rrows: Rows, b: Build, t: Tables)
    requires Ok(L, R, lrows, rrows, b) && Holds(b, t)
    ensures |b.names| <= L.states * R.states * 2 && |b.work| == |t.worklist|
  {
    NamesFit(L, R, b.names);
  }

  /**
   The automaton of the accepting shuffle.  `names` are the pairs its states after the first stand for: whichever
   has been constructed, the inactive automaton accepts in it.
   */
  method ShuffleAccept(L: Automaton, R: Automaton, lrows: Rows, rrows: Rows) returns (B: Automaton, ghost names: seq<Pair>)
    requires RowsOf(L, lrows) && RowsOf(R, rrows) && L.symbols == R.symbols
    ensures forall w :: Accepts(B, 0, w) <==> InConstruction(L, R, w)
    ensures B.states == |names| + 1 && Distinct(names)
    ensures forall n: nat, a: nat, m: nat :: n >= 1 ==> (B.Has(n, a, m) <==> n <= |names| && 1 <= m <= |names| && Follows(L, R, names[n - 1], a, names[m - 1]))
    ensures 0 in L.accept && 0 in R.accept ==> forall i :: 0 <= i < |names| ==> InactiveAccepts(L, R, names[i])
    ensures 0 in L.accept && 0 in R.accept ==> forall w :: Accepts(B, 0, w) <==> InShuffle(L, R, w)
  {
    var t: Tables := Tables(map[Pair(0, 0, true) := 1, Pair(0, 0, false) := 2], [(Pair(0, 0, true), 1), (Pair(0, 0, false), 2)], 3, {}, {});
    ghost var b := Begin();
    BeginOk(L, R, lrows, rrows);
    assert Holds(b, t) && Settled(lrows, rrows, b);
    hide *;
    while t.worklist != []
      invariant Ok(L, R, lrows, rrows, b) && Settled(lrows, rrows, b) && Holds(b, t)
      decreases L.states * R.states * 2 - |b.names| + |t.worklist|
    {
      BuildFits(L, R, lrows, rrows, b, t);
      t, b := DoState(L, R, lrows, rrows, t, b);
      BuildFits(L, R, lrows, rrows, b, t);
    }
    B := Automaton(t.states, L.symbols, t.trans, t.accept);
    ghost var plain := B;
    B := AddEpsilon(B, 0, 1);
    B := AddEpsilon(B, 0, 2);
    HeldParts(b, t);
    names := b.names;
    NamesStandFor(L, R, lrows, rrows, b, plain, B);
    forall w ensures Accepts(B, 0, w) <==> Constructed(L, R, Pair(0, 0, true), w) || Constructed(L, R, Pair(0, 0, false), w) {
      WholeAccepts(L, R, lrows, rrows, b, plain, B, w);
    }
    if 0 in L.accept && 0 in R.accept {
      forall w ensures Accepts(B, 0, w) <==> InShuffle(L, R, w) {
        ConstructionIsShuffle(L, R, w);
      }
    }
  }

  lemma HeldParts(b: Build, t: Tables)
    requires Holds(b, t)
    ensures t.trans == b.trans && t.accept == b.accept && (t.worklist == [] ==> b.work == []) && t.states == |b.names| + 1
  {
  }

  lemma NamesStandFor(L: Automaton, R: Automaton, lrows: Rows, rrows: Rows, b: Build, plain: Automaton, B: Automaton)
    requires Ok(L, R, lrows, rrows, b) && Settled(lrows, rrows, b) && b.work == []
    requires plain.trans == b.trans && plain.accept == b.accept && B == AddEpsilon(AddEpsilon(plain, 0, 1), 0, 2)
    ensures Distinct(b.names) && B.states == plain.states
    ensures forall n: nat, a: nat, m: nat :: n >= 1 ==> (B.Has(n, a, m) <==> n <= |b.names| && 1 <= m <= |b.names| && Follows(L, R, b.names[n - 1], a, b.names[m - 1]))
    ensures 0 in L.accept && 0 in R.accept ==> forall i :: 0 <= i < |b.names| ==> InactiveAccepts(L, R, b.names[i])
  {
    NothingWaits(L, R, lrows, rrows, b);
    EpsilonsChoose(L, R, b, plain, B);
    hide AddEpsilon, Follows;
    forall i | 0 <= i < |b.names| ensures 0 in L.accept && 0 in R.accept ==> InactiveAccepts(L, R, b.names[i]) {
      assert Sound(L, R, b.names[i]);
    }
  }

  /** Everything is built: transitions are those of the construction, and so is acceptance. */
  ghost predicate Complete(L: Automaton, R: Automaton, b: Build) {
    && |b.names| >= 2 && b.names[0] == Pair(0, 0, true) && b.names[1] == Pair(0, 0, false)
    && (forall n: nat, a: nat, m: nat :: Edge(n, a, m) in b.trans <==> 1 <= n <= |b.names| && 1 <= m <= |b.names| && Follows(L, R, b.names[n - 1], a, b.names[m - 1]))
    && (forall n: nat, a: nat, q: Pair :: FollowsState(L, R, b, n, a, q) ==> q in b.names)
    && (forall n: nat :: n in b.accept <==> 1 <= n <= |b.names| && BothAccept(L, R, b.names[n - 1]))
  }

  ghost predicate FollowsState(L: Automaton, R: Automaton, b: Build, n: nat, a: nat, q: Pair) {
    1 <= n <= |b.names| && Follows(L, R, b.names[n - 1], a, q)
  }

  lemma NothingWaits(L: Automaton, R: Automaton, lrows: Rows, rrows: Rows, b: Build)
    requires Ok(L, R, lrows, rrows, b) && Settled(lrows, rrows, b) && b.work == []
    ensures Complete(L, R, b)
  {
    forall n: nat, a: nat, q: Pair | 1 <= n <= |b.names| ensures Dealt(L, R, lrows, rrows, b, n, a, q) <==> Follows(L, R, b.names[n - 1], a, q) {
      var row := RowAt(lrows, rrows, b.names[n - 1]);
      assert row[..|row|] == row;
      assert RowDone(lrows, rrows, b, n) == row;
      RowIsFollows(L, R, lrows, rrows, b.names[n - 1], a, q);
    }
    forall n: nat, a: nat, q: Pair | FollowsState(L, R, b, n, a, q) ensures q in b.names {
      assert Dealt(L, R, lrows, rrows, b, n, a, q);
    }
    hide RowsOf, Follows, ByEntry, RowDone;
  }

  /** `B` is what was built, with a new initial state that can do what states 1 and 2 can. */
  ghost predicate WithChoice(b: Build, B: Automaton) {
    && (forall n: nat, a: nat, m: nat :: n >= 1 ==> (B.Has(n, a, m) <==> Edge(n, a, m) in b.trans))
    && (forall a: nat, m: nat :: B.Has(0, a, m) <==> Edge(1, a, m) in b.trans || Edge(2, a, m) in b.trans)
    && (forall n: nat :: n >= 1 ==> (n in B.accept <==> n in b.accept))
    && (0 in B.accept <==> 1 in b.accept || 2 in b.accept)
  }

  lemma EpsilonsChoose(L: Automaton, R: Automaton, b: Build, plain: Automaton, B: Automaton)
    requires Complete(L, R, b) && plain.trans == b.trans && plain.accept == b.accept && B == AddEpsilon(AddEpsilon(plain, 0, 1), 0, 2)
    ensures WithChoice(b, B)
  {
    var once := AddEpsilon(plain, 0, 1);
    EpsilonHas(plain, 0, 1);
    EpsilonHas(once, 0, 2);
    hide Follows, AddEpsilon;
    forall n: nat, a: nat, m: nat ensures plain.Has(n, a, m) <==> Edge(n, a, m) in b.trans {
    }
  }

  lemma FirstStep(L: Automaton, R: Automaton, p: Pair, w: seq<nat>) returns (q: Pair)
    requires w != [] && Constructed(L, R, p, w)
    ensures Follows(L, R, p, w[0], q) && Constructed(L, R, q, w[1..])
  {
    q :| Follows(L, R, p, w[0], q) && Constructed(L, R, q, w[1..]);
  }

  lemma {:induction false} StateAccepts(L: Automaton, R: Automaton, b: Build, B: Automaton, n: nat, w: seq<nat>)
    requires Complete(L, R, b) && WithChoice(b, B) && 1 <= n <= |b.names|
    ensures Accepts(B, n, w) <==> Constructed(L, R, b.names[n - 1], w)
    decreases |w|
  {
    if w != [] {
      if Accepts(B, n, w) {
        var m: nat :| B.Has(n, w[0], m) && Accepts(B, m, w[1..]);
        assert Edge(n, w[0], m) in b.trans;
        StateAccepts(L, R, b, B, m, w[1..]);
      }
      if Constructed(L, R, b.names[n - 1], w) {
        var q := FirstStep(L, R, b.names[n - 1], w);
        assert FollowsState(L, R, b, n, w[0], q);
        assert q in b.names;
        var i :| 0 <= i < |b.names| && b.names[i] == q;
        var m: nat := i + 1;
        assert Edge(n, w[0], m) in b.trans;
        assert B.Has(n, w[0], m);
        StateAccepts(L, R, b, B, m, w[1..]);
      }
    }
  }

  lemma WholeAccepts(L: Automaton, R: Automaton, lrows: Rows, rrows: Rows, b: Build, plain: Automaton, B: Automaton, w: seq<nat>)
    requires Ok(L, R, lrows, rrows, b) && Settled(lrows, rrows, b) && b.work == []
    requires plain.trans == b.trans && plain.accept == b.accept && B == AddEpsilon(AddEpsilon(plain, 0, 1), 0, 2)
    ensures Accepts(B, 0, w) <==> Constructed(L, R, Pair(0, 0, true), w) || Constructed(L, R, Pair(0, 0, false), w)
  {
    NothingWaits(L, R, lrows, rrows, b);
    EpsilonsChoose(L, R, b, plain, B);
    StateAccepts(L, R, b, B, 1, w);
    StateAccepts(L, R, b, B, 2, w);
    hide Ok, Follows, AddEpsilon;
    ChoiceAccepts(L, R, b, B, w);
  }

  lemma ChoiceAccepts(L: Automaton, R: Automaton, b: Build, B: Automaton, w: seq<nat>)
    requires WithChoice(b, B)
    ensures Accepts(B, 0, w) <==> Accepts(B, 1, w) || Accepts(B, 2, w)
  {
    if w != [] {
      forall m: nat ensures B.Has(0, w[0], m) <==> B.Has(1, w[0], m) || B.Has(2, w[0], m) {
      }
    }
  }
}
