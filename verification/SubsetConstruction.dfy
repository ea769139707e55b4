/** The two implementations of the subset construction: one on bit sets, one on sorted vectors. */
module SubsetConstruction {
  import opened Arithmetic
  import opened Automata
  import opened SeqFacts
  import opened Sorting
  import opened SubsetTheory

  ghost function Dests(row: seq<(nat, nat)>, a: nat): set<nat> {
    set p | p in row && p.0 == a :: p.1
  }

  lemma DestsGrow(row: seq<(nat, nat)>, j: nat, a: nat)
    requires j < |row|
    ensures Dests(row[..j + 1], a) == Dests(row[..j], a) + if row[j].0 == a then {row[j].1} else {}
  {
    assert row[..j + 1] == row[..j] + [row[j]];
  }

  ghost function Below(S: set<nat>, f: nat): set<nat> {
    set s | s in S && s < f
  }

  lemma PostGrows(A: Automaton, rows: Rows, S: set<nat>, f: nat, a: nat)
    requires RowsOf(A, rows) && f < |rows|
    ensures Post(A, Below(S, f + 1), a) == Post(A, Below(S, f), a) + if f in S then Dests(rows[f], a) else {}
  {
    assert Below(S, f + 1) == Below(S, f) + if f in S then {f} else {};
    forall t: nat ensures t in Post(A, Below(S, f + 1), a) <==> t in Post(A, Below(S, f), a) || (f in S && t in Dests(rows[f], a)) {
      PostMember(A, Below(S, f + 1), a, t);
      PostMember(A, Below(S, f), a, t);
      assert t in Dests(rows[f], a) <==> (a, t) in rows[f];
      assert (a, t) in rows[f] <==> A.Has(f, a, t);
    }
  }

  lemma PostAll(A: Automaton, S: set<nat>)
    requires A.Valid() && forall s :: s in S ==> s < A.states
    ensures Below(S, A.states) == S && forall a :: Post(A, Below(S, 0), a) == {}
  {
  }

  // ---- Bit sets.

  method AddRow(row: seq<(nat, nat)>, nexts: array<set<nat>>)
    requires forall p :: p in row ==> p.0 < nexts.Length
    modifies nexts
    ensures forall a :: 0 <= a < nexts.Length ==> nexts[a] == old(nexts[a]) + Dests(row, a)
  {
    var j := 0;
    while j < |row|
      invariant j <= |row|
      invariant forall a :: 0 <= a < nexts.Length ==> nexts[a] == old(nexts[a]) + Dests(row[..j], a)
    {
      forall a | 0 <= a < nexts.Length ensures Dests(row[..j + 1], a) == Dests(row[..j], a) + if row[j].0 == a then {row[j].1} else {} {
        DestsGrow(row, j, a);
      }
      assert row[j] in row;
      var (symbol, dest) := row[j];
      nexts[symbol] := nexts[symbol] + {dest};
      j := j + 1;
    }
    assert row[..j] == row;
  }

  /** Gathers, for every symbol at once, where the states of `S` go. */
  method GatherSets(A: Automaton, rows: Rows, S: set<nat>, nexts: array<set<nat>>)
    requires RowsOf(A, rows) && nexts.Length == A.symbols && forall a :: 0 <= a < nexts.Length ==> nexts[a] == {}
    requires forall s :: s in S ==> s < A.states
    modifies nexts
    ensures forall a: nat :: a < nexts.Length ==> nexts[a] == Post(A, S, a)
  {
    PostAll(A, S);
    var f := 0;
    while f < A.states
      invariant f <= A.states
      invariant forall a: nat :: a < nexts.Length ==> nexts[a] == Post(A, Below(S, f), a)
    {
      forall a: nat | a < A.symbols ensures Post(A, Below(S, f + 1), a) == Post(A, Below(S, f), a) + if f in S then Dests(rows[f], a) else {} {
        PostGrows(A, rows, S, f, a);
      }
      if f in S {
        forall p | p in rows[f] ensures p.0 < nexts.Length {
          assert A.Has(f, p.0, p.1);
          assert Edge(f, p.0, p.1) in A.trans;
        }
        AddRow(rows[f], nexts);
      }
      f := f + 1;
    }
  }

  /** Subsets by key, those waiting, how many there are, and what was emitted. */
  datatype Tables<K> = Tables(newstate: map<K, nat>, worklist: seq<(K, nat)>, newStates: nat, log: seq<Event>)

  /** The tables hold what the progress says. */
  ghost predicate FollowsSets(p: Progress, t: Tables<set<nat>>) {
    && |t.worklist| == |p.work|
    && (forall i :: 0 <= i < |p.work| ==> p.work[i] < |p.table| && t.worklist[i] == (p.table[p.work[i]], p.work[i]))
    && (forall i :: 0 <= i < |p.table| ==> p.table[i] in t.newstate && t.newstate[p.table[i]] == i)
    && (forall T :: T in t.newstate ==> T in p.table)
    && t.newStates == |p.table| && t.log == p.log
  }

  method AnyAccepting(A: Automaton, T: set<nat>) returns (accepting: bool)
    requires forall s :: s in T ==> s < A.states
    ensures accepting <==> Accepting(A, T)
  {
    accepting := false;
    var q := 0;
    while !accepting && q < A.states
      invariant q <= A.states && (accepting ==> Accepting(A, T))
      invariant !accepting ==> forall s :: s in T && s < q ==> s !in A.accept
    {
      if q in T && q in A.accept {
        assert q in T * A.accept;
        accepting := true;
      }
      q := q + 1;
    }
    if !accepting {
      assert T * A.accept == {};
    }
  }

  /** Emits the transition on one symbol, with a new state if it leads to a new subset. */
  method EmitSets(A: Automaton, current: nat, s: nat, next: set<nat>, t0: Tables<set<nat>>, ghost p: Progress) returns (t: Tables<set<nat>>)
    requires Ok(A, p, current, s) && current < |p.table| && current !in p.work && s < A.symbols && next == Post(A, p.table[current], s) && next != {}
    requires FollowsSets(p, t0)
    ensures FollowsSets(OnSymbol(A, p, current, s), t)
  {
    PostOk(A, p.table[current], s);
    t := t0;
    if next in t.newstate {
      var i := IndexOf(p.table, next);
      assert p.table[i] == next && t.newstate[next] == i;
    } else {
      var accepting := AnyAccepting(A, next);
      t := Tables(t.newstate[next := t.newStates], t.worklist + [(next, t.newStates)], t.newStates + 1, t.log + [AddState(accepting)]);
    }
    t := t.(log := t.log + [AddTrans(current, s, t.newstate[next])]);
  }

  /** Works until nothing waits. */
  method RunSets(A: Automaton, rows: Rows, nexts: array<set<nat>>, t0: Tables<set<nat>>) returns (log: seq<Event>)
    requires RowsOf(A, rows) && Settled(A, Iterate(A, 0)) && FollowsSets(Iterate(A, 0), t0)
    requires nexts.Length == A.symbols && forall a :: 0 <= a < nexts.Length ==> nexts[a] == {}
    modifies nexts
    ensures log == Final(A).log
  {
    hide *;
    var t := t0;
    ghost var n := 0;
    while t.worklist != []
      invariant Settled(A, Iterate(A, n)) && FollowsSets(Iterate(A, n), t)
      invariant forall a :: 0 <= a < nexts.Length ==> nexts[a] == {}
      decreases Pow2(A.states) - |Iterate(A, n).table| + |t.worklist|
    {
      t := ExpandSets(A, rows, nexts, t, n);
      n := n + 1;
    }
    SetsIdle(A, n, t);
    log := t.log;
  }

  lemma InitialSets(A: Automaton)
    ensures FollowsSets(Iterate(A, 0), Tables(map[{0} := 0], [({0}, 0)], 1, [AddState(0 in A.accept)]))
  {
  }

  /** For automata with at most 64 states. */
  method DeterminizeSets(A: Automaton, rows: Rows) returns (log: seq<Event>)
    requires RowsOf(A, rows) && A.states <= 64
    ensures log == Final(A).log
  {
    IterateSettled(A, 0);
    InitialSets(A);
    hide Ok, FollowsSets, Iterate;
    var nexts := new set<nat>[A.symbols](_ => {});
    log := RunSets(A, rows, nexts, Tables(map[{0} := 0], [({0}, 0)], 1, [AddState(0 in A.accept)]));
  }

  lemma SetsIdle(A: Automaton, n: nat, t: Tables<set<nat>>)
    requires Settled(A, Iterate(A, n)) && FollowsSets(Iterate(A, n), t) && t.worklist == []
    ensures t.log == Final(A).log
  {
    IdleIsFinal(A, n);
  }

  lemma PoppedSets(A: Automaton, p: Progress, t: Tables<set<nat>>)
    requires Settled(A, p) && FollowsSets(p, t) && t.worklist != []
    ensures p.work != [] && FollowsSets(p.(work := p.work[..|p.work| - 1]), t.(worklist := t.worklist[..|t.worklist| - 1]))
    ensures var (S, current) := t.worklist[|t.worklist| - 1];
            current == p.work[|p.work| - 1] && current < |p.table| && S == p.table[current] && forall s :: s in S ==> s < A.states
  {
    assert SubsetOk(A, p.table[p.work[|p.work| - 1]]);
  }

  /** One more expansion is progress. */
  lemma OneMoreExpansion(A: Automaton, n: nat)
    requires Settled(A, Iterate(A, n)) && Iterate(A, n).work != []
    ensures var p, q := Iterate(A, n), Iterate(A, n + 1);
            && q == Expand(A, p) && Settled(A, q) && |p.table| <= |q.table| <= Pow2(A.states)
            && |p.table| - |p.work| < |q.table| - |q.work|
  {
    ExpandKeepsSettled(A, Iterate(A, n));
    SettledFits(A, Iterate(A, n + 1));
  }

  /** Expands the subset on top of the work list. */
  method ExpandSets(A: Automaton, rows: Rows, nexts: array<set<nat>>, t0: Tables<set<nat>>, ghost n: nat) returns (t: Tables<set<nat>>)
    requires RowsOf(A, rows) && nexts.Length == A.symbols && forall a :: 0 <= a < nexts.Length ==> nexts[a] == {}
    requires Settled(A, Iterate(A, n)) && t0.worklist != [] && FollowsSets(Iterate(A, n), t0)
    modifies nexts
    ensures Settled(A, Iterate(A, n + 1)) && FollowsSets(Iterate(A, n + 1), t)
    ensures forall a :: 0 <= a < nexts.Length ==> nexts[a] == {}
    ensures |Iterate(A, n).table| <= Pow2(A.states) && |Iterate(A, n + 1).table| <= Pow2(A.states)
    ensures |t.worklist| - |Iterate(A, n + 1).table| < |t0.worklist| - |Iterate(A, n).table|
  {
    ghost var p := Iterate(A, n);
    PoppedSets(A, p, t0);
    SameLength(p, t0);
    OneMoreExpansion(A, n);
    Pop(A, p);
    hide Ok, FollowsSets;
    var (currentSet, current) := t0.worklist[|t0.worklist| - 1];
    ghost var q := p.(work := p.work[..|p.work| - 1]);
    GatherSets(A, rows, currentSet, nexts);
    t := ExpandGathered(A, nexts, currentSet, current, t0.(worklist := t0.worklist[..|t0.worklist| - 1]), q);
    SameLength(Iterate(A, n + 1), t);
  }

  lemma SameLength(p: Progress, t: Tables<set<nat>>)
    requires FollowsSets(p, t)
    ensures |p.work| == |t.worklist|
  {
  }

  method ExpandGathered(A: Automaton, nexts: array<set<nat>>, currentSet: set<nat>, current: nat, t0: Tables<set<nat>>, ghost q: Progress) returns (t: Tables<set<nat>>)
    requires Ok(A, q, current, 0) && current < |q.table| && current !in q.work && q.table[current] == currentSet && FollowsSets(q, t0)
    requires nexts.Length == A.symbols && forall a: nat :: a < nexts.Length ==> nexts[a] == Post(A, currentSet, a)
    modifies nexts
    ensures FollowsSets(OnSymbols(A, q, current, A.symbols), t)
    ensures forall a :: 0 <= a < nexts.Length ==> nexts[a] == {}
  {
    hide Ok, FollowsSets;
    t := t0;
    var s := 0;
    while s < A.symbols
      invariant s <= A.symbols && FollowsSets(OnSymbols(A, q, current, s), t)
      invariant forall a: nat :: a < nexts.Length ==> nexts[a] == if a < s then {} else Post(A, currentSet, a)
    {
      SymbolsKeepOk(A, q, current, s);
      ghost var now := OnSymbols(A, q, current, s);
      if nexts[s] != {} {
        t := EmitSets(A, current, s, nexts[s], t, now);
        nexts[s] := {};
      }
      s := s + 1;
    }
  }

  // ---- Sorted vectors.

  method AddRowVectors(row: seq<(nat, nat)>, nexts: array<seq<nat>>)
    requires forall p :: p in row ==> p.0 < nexts.Length
    modifies nexts
    ensures forall a :: 0 <= a < nexts.Length ==> Elems(nexts[a]) == Elems(old(nexts[a])) + Dests(row, a)
  {
    var j := 0;
    while j < |row|
      invariant j <= |row|
      invariant forall a :: 0 <= a < nexts.Length ==> Elems(nexts[a]) == Elems(old(nexts[a])) + Dests(row[..j], a)
    {
      forall a | 0 <= a < nexts.Length ensures Dests(row[..j + 1], a) == Dests(row[..j], a) + if row[j].0 == a then {row[j].1} else {} {
        DestsGrow(row, j, a);
      }
      assert row[j] in row;
      var (symbol, dest) := row[j];
      assert Elems(nexts[symbol] + [dest]) == Elems(nexts[symbol]) + {dest};
      nexts[symbol] := nexts[symbol] + [dest];
      j := j + 1;
    }
    assert row[..j] == row;
  }

  lemma PostOfPrefix(A: Automaton, rows: Rows, key: seq<nat>, i: nat, a: nat)
    requires RowsOf(A, rows) && i < |key| && key[i] < |rows|
    ensures Post(A, Elems(key[..i + 1]), a) == Post(A, Elems(key[..i]), a) + Dests(rows[key[i]], a)
  {
    assert key[..i + 1] == key[..i] + [key[i]];
    forall t: nat ensures t in Post(A, Elems(key[..i + 1]), a) <==> t in Post(A, Elems(key[..i]), a) || t in Dests(rows[key[i]], a) {
      PostMember(A, Elems(key[..i + 1]), a, t);
      PostMember(A, Elems(key[..i]), a, t);
      assert t in Dests(rows[key[i]], a) <==> (a, t) in rows[key[i]];
      assert (a, t) in rows[key[i]] <==> A.Has(key[i], a, t);
    }
  }

  method GatherVectors(A: Automaton, rows: Rows, key: seq<nat>, nexts: array<seq<nat>>)
    requires RowsOf(A, rows) && nexts.Length == A.symbols && forall a :: 0 <= a < nexts.Length ==> nexts[a] == []
    requires forall s :: s in key ==> s < A.states
    modifies nexts
    ensures forall a: nat :: a < nexts.Length ==> Elems(nexts[a]) == Post(A, Elems(key), a)
  {
    assert Elems(key[..0]) == {};
    assert forall a :: Post(A, {}, a) == {};
    var i := 0;
    while i < |key|
      invariant i <= |key|
      invariant forall a: nat :: a < nexts.Length ==> Elems(nexts[a]) == Post(A, Elems(key[..i]), a)
    {
      var f := key[i];
      assert f in key;
      forall a: nat | a < A.symbols ensures Post(A, Elems(key[..i + 1]), a) == Post(A, Elems(key[..i]), a) + Dests(rows[f], a) {
        PostOfPrefix(A, rows, key, i, a);
      }
      forall p | p in rows[f] ensures p.0 < nexts.Length {
        assert A.Has(f, p.0, p.1);
        assert Edge(f, p.0, p.1) in A.trans;
      }
      AddRowVectors(rows[f], nexts);
      i := i + 1;
    }
    assert key[..i] == key;
  }

  /** The tables hold what the progress says, with `keys` the vectors of the subsets. */
  ghost predicate FollowsVectors(p: Progress, t: Tables<seq<nat>>, keys: seq<seq<nat>>) {
    && |keys| == |p.table| && (forall i :: 0 <= i < |keys| ==> IsKey(keys[i], p.table[i]))
    && |t.worklist| == |p.work|
    && (forall i :: 0 <= i < |p.work| ==> p.work[i] < |keys| && t.worklist[i] == (keys[p.work[i]], p.work[i]))
    && (forall i :: 0 <= i < |keys| ==> keys[i] in t.newstate && t.newstate[keys[i]] == i)
    && (forall k :: k in t.newstate ==> t.newstate[k] < |keys| && keys[t.newstate[k]] == k)
    && t.newStates == |p.table| && t.log == p.log
  }

  method AnyAcceptingVector(A: Automaton, key: seq<nat>) returns (accepting: bool)
    ensures accepting <==> Accepting(A, Elems(key))
  {
    var i := 0;
    while i < |key|
      invariant i <= |key| && forall j :: 0 <= j < i ==> key[j] !in A.accept
    {
      if key[i] in A.accept {
        assert key[i] in Elems(key) * A.accept;
        return true;
      }
      i := i + 1;
    }
    assert Elems(key) * A.accept == {};
    return false;
  }

  /** Emits the transition on one symbol; fails when there are too many states. */
  method EmitVectors(A: Automaton, maxStates: nat, current: nat, s: nat, next: seq<nat>, t0: Tables<seq<nat>>, ghost p: Progress, ghost keys0: seq<seq<nat>>)
      returns (ok: bool, t: Tables<seq<nat>>, ghost keys: seq<seq<nat>>)
    requires Ok(A, p, current, s) && current < |p.table| && current !in p.work && s < A.symbols && Elems(next) == Post(A, p.table[current], s) && next != []
    requires FollowsVectors(p, t0, keys0) && |p.table| <= Limit(maxStates)
    ensures ok ==> FollowsVectors(OnSymbol(A, p, current, s), t, keys)
    ensures ok <==> |OnSymbol(A, p, current, s).table| <= Limit(maxStates)
  {
    var key := SortUnique(next);
    keys := keys0;
    ghost var T := Elems(next);
    assert next[0] in T;
    KeyKnown(p, t0, keys, key, T);
    t := t0;
    if key !in t.newstate {
      var accepting := AnyAcceptingVector(A, key);
      ghost var q := OnSymbol(A, p, current, s);
      t := Tables(t.newstate[key := t.newStates], t.worklist + [(key, t.newStates)], t.newStates + 1, t.log + [AddState(accepting)]);
      keys := keys + [key];
      assert |q.table| == t.newStates;
      if t.newStates > maxStates {
        return false, t, keys;
      }
    }
    t := t.(log := t.log + [AddTrans(current, s, t.newstate[key])]);
    return true, t, keys;
  }

  lemma KeyKnown(p: Progress, t: Tables<seq<nat>>, keys: seq<seq<nat>>, key: seq<nat>, T: set<nat>)
    requires FollowsVectors(p, t, keys) && IsKey(key, T)
    ensures key in t.newstate <==> T in p.table
    ensures key in t.newstate && Distinct(p.table) ==> t.newstate[key] == IndexOf(p.table, T)
  {
    if T in p.table {
      var i := IndexOf(p.table, T);
      KeyIsUnique(key, keys[i], T);
    }
    if key in t.newstate {
      assert p.table[t.newstate[key]] == T;
    }
  }

  lemma PoppedVectors(A: Automaton, p: Progress, t: Tables<seq<nat>>, keys: seq<seq<nat>>)
    requires Settled(A, p) && FollowsVectors(p, t, keys) && t.worklist != []
    ensures p.work != [] && FollowsVectors(p.(work := p.work[..|p.work| - 1]), t.(worklist := t.worklist[..|t.worklist| - 1]), keys)
    ensures var (key, current) := t.worklist[|t.worklist| - 1];
            && current == p.work[|p.work| - 1] && current < |p.table| && Elems(key) == p.table[current]
            && forall s :: s in key ==> s < A.states
  {
    var (key, current) := t.worklist[|t.worklist| - 1];
    assert SubsetOk(A, p.table[p.work[|p.work| - 1]]);
    ElemsMembers(key);
  }

  /** The number of subsets grows, so once there are too many there always are. */
  lemma {:induction false} TooManyStays(A: Automaton, n: nat, m: nat)
    requires A.Valid() && A.states > 0 && n <= m
    ensures |Iterate(A, n).table| <= |Iterate(A, m).table|
    decreases m - n
  {
    hide Ok;
    if n < m {
      TooManyStays(A, n, m - 1);
      IterateSettled(A, m - 1);
      if Iterate(A, m - 1).work != [] {
        ExpandKeepsSettled(A, Iterate(A, m - 1));
      }
    }
  }

  lemma {:induction false} SymbolsGrow(A: Automaton, p: Progress, cur: nat, k: nat, m: nat)
    requires cur < |p.table| && k <= m
    ensures |OnSymbols(A, p, cur, k).table| <= |OnSymbols(A, p, cur, m).table|
  {
    if k < m {
      SymbolsGrow(A, p, cur, k, m - 1);
    }
  }

  lemma {:induction false} FinalIsLargest(A: Automaton, n: nat)
    requires A.Valid() && A.states > 0
    ensures |Iterate(A, n).table| <= |Final(A).table|
  {
    Terminates(A);
    if n <= Pow2(A.states) {
      TooManyStays(A, n, Pow2(A.states));
    } else {
      StaysIdle(A, Pow2(A.states), n);
    }
  }

  /** The initial state is never refused. */
  function Limit(maxStates: nat): nat {
    if maxStates == 0 then 1 else maxStates
  }

  method ExpandVectorsGathered(A: Automaton, maxStates: nat, nexts: array<seq<nat>>, ghost currentSet: set<nat>, current: nat, t0: Tables<seq<nat>>, ghost q: Progress, ghost keys0: seq<seq<nat>>)
      returns (ok: bool, t: Tables<seq<nat>>, ghost keys: seq<seq<nat>>)
    requires Ok(A, q, current, 0) && current < |q.table| && current !in q.work && q.table[current] == currentSet && FollowsVectors(q, t0, keys0)
    requires |q.table| <= Limit(maxStates)
    requires nexts.Length == A.symbols && forall a: nat :: a < nexts.Length ==> Elems(nexts[a]) == Post(A, currentSet, a)
    modifies nexts
    ensures ok ==> FollowsVectors(OnSymbols(A, q, current, A.symbols), t, keys) && forall a :: 0 <= a < nexts.Length ==> nexts[a] == []
    ensures ok <==> |OnSymbols(A, q, current, A.symbols).table| <= Limit(maxStates)
  {
    t, keys := t0, keys0;
    var s := 0;
    hide *;
    OnNoSymbols(A, q, current);
    while s < A.symbols
      invariant s <= A.symbols && FollowsVectors(OnSymbols(A, q, current, s), t, keys) && |OnSymbols(A, q, current, s).table| <= Limit(maxStates)
      invariant forall a: nat :: a < s ==> nexts[a] == []
      invariant forall a: nat :: s <= a < nexts.Length ==> Elems(nexts[a]) == Post(A, currentSet, a)
    {
      SymbolsKeepOk(A, q, current, s);
      OnNextSymbol(A, q, current, s);
      SomeElem(nexts[s]);
      if nexts[s] != [] {
        ok, t, keys := EmitVectors(A, maxStates, current, s, nexts[s], t, OnSymbols(A, q, current, s), keys);
        if !ok {
          SymbolsGrow(A, q, current, s + 1, A.symbols);
          return;
        }
        nexts[s] := [];
      }
      s := s + 1;
    }
    ok := true;
  }

  lemma OnNoSymbols(A: Automaton, q: Progress, current: nat)
    requires current < |q.table|
    ensures OnSymbols(A, q, current, 0) == q
  {
  }

  lemma OnNextSymbol(A: Automaton, q: Progress, current: nat, s: nat)
    requires current < |q.table|
    ensures OnSymbols(A, q, current, s).table[current] == q.table[current]
    ensures OnSymbols(A, q, current, s + 1) == OnSymbol(A, OnSymbols(A, q, current, s), current, s)
    ensures Post(A, q.table[current], s) == {} ==> OnSymbols(A, q, current, s + 1) == OnSymbols(A, q, current, s)
  {
  }

  /** Expands the subset on top of the work list. */
  method ExpandVectors(A: Automaton, rows: Rows, maxStates: nat, nexts: array<seq<nat>>, t0: Tables<seq<nat>>, ghost n: nat, ghost keys0: seq<seq<nat>>)
      returns (ok: bool, t: Tables<seq<nat>>, ghost keys: seq<seq<nat>>)
    requires RowsOf(A, rows) && nexts.Length == A.symbols && forall a :: 0 <= a < nexts.Length ==> nexts[a] == []
    requires Settled(A, Iterate(A, n)) && t0.worklist != [] && FollowsVectors(Iterate(A, n), t0, keys0) && |Iterate(A, n).table| <= Limit(maxStates)
    modifies nexts
    ensures ok <==> |Iterate(A, n + 1).table| <= Limit(maxStates)
    ensures ok ==> FollowsVectors(Iterate(A, n + 1), t, keys) && forall a :: 0 <= a < nexts.Length ==> nexts[a] == []
    ensures Settled(A, Iterate(A, n + 1)) && |Iterate(A, n).table| <= |Iterate(A, n + 1).table| <= Pow2(A.states)
    ensures ok ==> |t.worklist| - |Iterate(A, n + 1).table| < |t0.worklist| - |Iterate(A, n).table|
  {
    ghost var p := Iterate(A, n);
    PoppedVectors(A, p, t0, keys0);
    SameVectorLength(p, t0, keys0);
    OneMoreExpansion(A, n);
    Pop(A, p);
    hide Ok, FollowsVectors;
    var (currentKey, current) := t0.worklist[|t0.worklist| - 1];
    ghost var q := p.(work := p.work[..|p.work| - 1]);
    GatherVectors(A, rows, currentKey, nexts);
    ok, t, keys := ExpandVectorsGathered(A, maxStates, nexts, Elems(currentKey), current, t0.(worklist := t0.worklist[..|t0.worklist| - 1]), q, keys0);
    if ok {
      SameVectorLength(Iterate(A, n + 1), t, keys);
    }
  }

  lemma SameVectorLength(p: Progress, t: Tables<seq<nat>>, keys: seq<seq<nat>>)
    requires FollowsVectors(p, t, keys)
    ensures |p.work| == |t.worklist|
  {
  }

  /** Works until nothing waits or there are too many states. */
  method RunVectors(A: Automaton, rows: Rows, maxStates: nat, nexts: array<seq<nat>>, t0: Tables<seq<nat>>, ghost keys0: seq<seq<nat>>)
      returns (ok: bool, log: seq<Event>)
    requires RowsOf(A, rows) && A.Valid() && A.states > 0 && |Iterate(A, 0).table| <= Limit(maxStates)
    requires Settled(A, Iterate(A, 0)) && FollowsVectors(Iterate(A, 0), t0, keys0)
    requires nexts.Length == A.symbols && forall a :: 0 <= a < nexts.Length ==> nexts[a] == []
    modifies nexts
    ensures ok <==> |Final(A).table| <= Limit(maxStates)
    ensures ok ==> log == Final(A).log
  {
    hide *;
    var t := t0;
    ghost var n, keys := 0, keys0;
    while t.worklist != []
      invariant Settled(A, Iterate(A, n)) && FollowsVectors(Iterate(A, n), t, keys) && |Iterate(A, n).table| <= Limit(maxStates)
      invariant forall a :: 0 <= a < nexts.Length ==> nexts[a] == []
      decreases Pow2(A.states) - |Iterate(A, n).table| + |t.worklist|
    {
      ok, t, keys := ExpandVectors(A, rows, maxStates, nexts, t, n, keys);
      n := n + 1;
      if !ok {
        FinalIsLargest(A, n);
        log := [];
        return;
      }
    }
    VectorsIdle(A, n, t, keys);
    ok, log := true, t.log;
  }

  /** For larger automata; gives up when there would be more than `maxStates` states, but one is always allowed. */
  method DeterminizeVectors(A: Automaton, rows: Rows, maxStates: nat) returns (ok: bool, log: seq<Event>)
    requires RowsOf(A, rows) && A.symbols > 0
    ensures ok <==> |Final(A).table| == 1 || |Final(A).table| <= maxStates
    ensures ok ==> log == Final(A).log
  {
    FinalIsLargest(A, 0);
    IterateSettled(A, 0);
    InitialVectors(A);
    hide Ok, FollowsVectors, Iterate;
    var nexts := new seq<nat>[A.symbols](_ => []);
    ok, log := RunVectors(A, rows, maxStates, nexts, Tables(map[[0] := 0], [([0], 0)], 1, [AddState(0 in A.accept)]), [[0]]);
  }

  lemma InitialVectors(A: Automaton)
    ensures FollowsVectors(Iterate(A, 0), Tables(map[[0] := 0], [([0], 0)], 1, [AddState(0 in A.accept)]), [[0]])
    ensures |Iterate(A, 0).table| == 1
  {
    assert IsKey([0], {0});
  }

  lemma VectorsIdle(A: Automaton, n: nat, t: Tables<seq<nat>>, keys: seq<seq<nat>>)
    requires Settled(A, Iterate(A, n)) && FollowsVectors(Iterate(A, n), t, keys) && t.worklist == []
    ensures t.log == Final(A).log && Iterate(A, n) == Final(A)
  {
    IdleIsFinal(A, n);
  }

  /** Small automata take the bit sets and ignore the limit; both ways emit the same events. */
  method Determinize(A: Automaton, rows: Rows, maxStates: nat) returns (ok: bool, log: seq<Event>)
    requires RowsOf(A, rows) && A.symbols > 0
    ensures ok <==> A.states <= 64 || |Final(A).table| == 1 || |Final(A).table| <= maxStates
    ensures ok ==> log == Final(A).log
  {
    if A.states <= 64 {
      log := DeterminizeSets(A, rows);
      return true, log;
    }
    ok, log := DeterminizeVectors(A, rows, maxStates);
  }
}
