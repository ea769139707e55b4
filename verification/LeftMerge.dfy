/** Merging states the same words lead to. */
module LeftMerge {
  // The rows of a block are pooled in the row of its survivor, in place.

  import opened Automata
  import opened SeqFacts
  import opened RefinablePartitions
  import opened Survivors
  import opened HopcroftTheory
  import opened Quotients
  import opened BlockCounts
  import opened Minimization
  import opened QuotientBlocks
  import opened LeftMergeTheory

  // ---- In place.

  /** Adds the entries of one transition list to another, folding entries with the same target. */
  method PoolRow(target: seq<Transition>, source: seq<Transition>) returns (row: seq<Transition>)
    ensures forall a, t :: Leads(row, a, t) <==> Leads(target, a, t) || Leads(source, a, t)
    ensures forall n: nat :: RowIn(target, n) && RowIn(source, n) ==> RowIn(row, n)
  {
    row := target;
    var i := 0;
    while i < |source|
      invariant i <= |source| && forall a, t :: Leads(row, a, t) <==> Leads(target, a, t) || Leads(source[..i], a, t)
      invariant forall n: nat :: RowIn(target, n) && RowIn(source, n) ==> RowIn(row, n)
    {
      LeadsSnoc(source, i);
      row := PoolEntry(row, source[i]);
      i := i + 1;
    }
    assert source[..i] == source;
  }

  lemma LeadsSnoc(row: seq<Transition>, i: nat)
    requires i < |row|
    ensures forall a, t :: Leads(row[..i + 1], a, t) <==> Leads(row[..i], a, t) || (a in row[i].symbols && t == row[i].next)
  {
    forall a, t ensures Leads(row[..i + 1], a, t) <==> Leads(row[..i], a, t) || (a in row[i].symbols && t == row[i].next) {
      if Leads(row[..i + 1], a, t) {
        var j :| 0 <= j < i + 1 && a in row[..i + 1][j].symbols && row[..i + 1][j].next == t;
        assert j < i ==> row[..i][j] == row[j];
      }
      if Leads(row[..i], a, t) {
        var j :| 0 <= j < i && a in row[..i][j].symbols && row[..i][j].next == t;
        assert row[..i + 1][j] == row[j];
      }
      assert row[..i + 1][i] == row[i];
    }
  }

  method PoolEntry(row0: seq<Transition>, entry: Transition) returns (row: seq<Transition>)
    ensures forall a, t :: Leads(row, a, t) <==> Leads(row0, a, t) || (a in entry.symbols && t == entry.next)
    ensures forall n: nat :: RowIn(row0, n) && entry.next < n ==> RowIn(row, n)
  {
    var j := 0;
    while j < |row0| && row0[j].next != entry.next
      invariant j <= |row0|
    {
      j := j + 1;
    }
    if j < |row0| {
      row := row0[j := Transition(row0[j].symbols + entry.symbols, entry.next)];
      FoldedEntry(row0, j, entry, row);
    } else {
      row := row0 + [entry];
      PushedEntry(row0, entry, row);
    }
  }

  lemma FoldedEntry(row0: seq<Transition>, j: nat, entry: Transition, row: seq<Transition>)
    requires j < |row0| && row0[j].next == entry.next && row == row0[j := Transition(row0[j].symbols + entry.symbols, entry.next)]
    ensures forall a, t :: Leads(row, a, t) <==> Leads(row0, a, t) || (a in entry.symbols && t == entry.next)
  {
    forall a, t ensures Leads(row, a, t) <==> Leads(row0, a, t) || (a in entry.symbols && t == entry.next) {
      if Leads(row, a, t) {
        var i :| 0 <= i < |row| && a in row[i].symbols && row[i].next == t;
        assert i != j ==> row0[i] == row[i];
      }
      if Leads(row0, a, t) {
        var i :| 0 <= i < |row0| && a in row0[i].symbols && row0[i].next == t;
        assert a in row[i].symbols && row[i].next == t;
      }
      if a in entry.symbols && t == entry.next {
        assert a in row[j].symbols;
      }
    }
  }

  lemma PushedEntry(row0: seq<Transition>, entry: Transition, row: seq<Transition>)
    requires row == row0 + [entry]
    ensures forall a, t :: Leads(row, a, t) <==> Leads(row0, a, t) || (a in entry.symbols && t == entry.next)
  {
    assert row[..|row0|] == row0 && row[..|row0| + 1] == row;
    LeadsSnoc(row, |row0|);
  }

  /** Every number comes from a state that has it. */
  ghost predicate Sources(k: nat, comesFrom: seq<nat>, remap: seq<nat>) {
    && k <= |comesFrom| && k <= |remap| && (forall s :: 0 <= s < |remap| ==> remap[s] < k)
    && (forall x :: 0 <= x < k ==> comesFrom[x] < |remap| && remap[comesFrom[x]] == x && (comesFrom[x] == x || comesFrom[x] >= k))
  }

  ghost predicate InRow(rows: seq<seq<Transition>>, remap: seq<nat>, x: nat, a: nat, t: nat, q: nat) {
    q < |rows| && q < |remap| && remap[q] == x && Leads(rows[q], a, t)
  }

  /** The survivor of `s` or a state below `p` of the same number has the edge. */
  ghost predicate PooledUpTo(rows: seq<seq<Transition>>, remap: seq<nat>, p: nat, s: nat, a: nat, t: nat)
    requires s < |remap|
  {
    exists q: nat :: (q == s || q < p) && InRow(rows, remap, remap[s], a, t, q)
  }

  ghost predicate PoolsRow(rows: seq<seq<Transition>>, now: seq<Transition>, remap: seq<nat>, p: nat, s: nat)
    requires s < |remap|
  {
    forall a: nat, t: nat :: Leads(now, a, t) <==> PooledUpTo(rows, remap, p, s, a, t)
  }

  /** After the first `p` states: survivors have pooled rows, the others have been emptied. */
  ghost predicate Pooling(rows: seq<seq<Transition>>, now: seq<seq<Transition>>, comesFrom: seq<nat>, remap: seq<nat>, p: nat, k: nat) {
    && |now| == |rows| == |remap| && Sources(k, comesFrom, remap)
    && (forall s: nat :: s < |remap| && comesFrom[remap[s]] == s ==> PoolsRow(rows, now[s], remap, p, s))
    && (forall s: nat :: s < |remap| && comesFrom[remap[s]] != s ==> now[s] == if s < p then [] else rows[s])
  }

  lemma PoolStart(rows: seq<seq<Transition>>, comesFrom: seq<nat>, remap: seq<nat>, k: nat)
    requires |rows| == |remap| && Sources(k, comesFrom, remap)
    ensures Pooling(rows, rows, comesFrom, remap, 0, k)
  {
    forall s: nat | s < |remap| ensures PoolsRow(rows, rows[s], remap, 0, s) {
      forall a: nat, t: nat ensures Leads(rows[s], a, t) <==> PooledUpTo(rows, remap, 0, s, a, t) {
        assert Leads(rows[s], a, t) ==> InRow(rows, remap, remap[s], a, t, s);
      }
    }
  }

  /** One more state: a survivor has its own row already, another one adds its row to its survivor. */
  lemma PoolStep(rows: seq<seq<Transition>>, now: seq<seq<Transition>>, after: seq<seq<Transition>>, comesFrom: seq<nat>, remap: seq<nat>, p: nat, k: nat, row: seq<Transition>)
    requires Pooling(rows, now, comesFrom, remap, p, k) && p < |remap|
    requires var target := comesFrom[remap[p]];
             if target == p then after == now
             else after == now[target := row][p := []] && forall a, t :: Leads(row, a, t) <==> Leads(now[target], a, t) || Leads(now[p], a, t)
    ensures Pooling(rows, after, comesFrom, remap, p + 1, k)
  {
    var target, next := comesFrom[remap[p]], p + 1;
    forall s: nat | s < |remap| && comesFrom[remap[s]] == s ensures PoolsRow(rows, after[s], remap, next, s) {
      assert PoolsRow(rows, now[s], remap, p, s);
      forall a: nat, t: nat ensures Leads(after[s], a, t) <==> PooledUpTo(rows, remap, next, s, a, t) {
        OneMoreRow(rows, remap, p, s, a, t);
        assert remap[s] == remap[p] <==> s == target;
        if s == target && p != target {
          assert now[p] == rows[p];
        }
      }
    }
  }

  lemma OneMoreRow(rows: seq<seq<Transition>>, remap: seq<nat>, p: nat, s: nat, a: nat, t: nat)
    requires |rows| == |remap| && p < |remap| && s < |remap|
    ensures PooledUpTo(rows, remap, p + 1, s, a, t) <==> PooledUpTo(rows, remap, p, s, a, t) || (remap[p] == remap[s] && Leads(rows[p], a, t))
  {
    if PooledUpTo(rows, remap, p + 1, s, a, t) {
      var q: nat :| (q == s || q < p + 1) && InRow(rows, remap, remap[s], a, t, q);
      assert q == p || PooledUpTo(rows, remap, p, s, a, t);
    }
    if remap[p] == remap[s] && Leads(rows[p], a, t) {
      assert InRow(rows, remap, remap[s], a, t, p);
    }
  }

  /** Pools the rows of each block in the row of its survivor, then shrinks. */
  method MergeRenumber(transitions: array<seq<Transition>>, accept: array<bool>, k: nat, comesFrom: seq<nat>, remap: seq<nat>, ghost A: Automaton)
    requires A.Valid() && Holds(A, transitions[..], accept[..], A.states) && transitions.Length == accept.Length == |remap| == A.states
    requires Sources(k, comesFrom, remap) && InRange(transitions[..], |remap|)
    modifies transitions, accept
    ensures Holds(Merged(A, k, remap, comesFrom), transitions[..], accept[..], k)
  {
    ghost var rows := transitions[..];
    PoolStart(rows, comesFrom, remap, k);
    hide Pooling, Sources, Holds, InRange;
    SourcesAre(k, comesFrom, remap);
    var p := 0;
    while p < |remap|
      invariant p <= |remap| && Pooling(rows, transitions[..], comesFrom, remap, p, k) && InRange(transitions[..], |remap|)
      invariant accept[..] == old(accept[..])
    {
      ghost var before := transitions[..];
      var target := comesFrom[remap[p]];
      var row: seq<Transition> := [];
      if target != p {
        row := PoolRow(transitions[target], transitions[p]);
        RowInRange(before, target, p, row, |remap|);
        transitions[target] := row;
        transitions[p] := [];
        assert transitions[..] == before[target := row][p := []];
      }
      PoolStep(rows, before, transitions[..], comesFrom, remap, p, k, row);
      p := p + 1;
    }
    ghost var pooled, accepts := transitions[..], accept[..];
    ReadyToShrink(pooled, k, comesFrom, remap);
    CompressRenumber(transitions, accept, k, comesFrom, remap);
    PooledHoldsMerged(A, k, remap, comesFrom, rows, accepts, pooled, transitions[..], accept[..]);
  }

  /** All targets are states. */
  ghost predicate InRange(rows: seq<seq<Transition>>, n: nat) {
    forall s :: 0 <= s < |rows| ==> RowIn(rows[s], n)
  }

  ghost predicate RowIn(row: seq<Transition>, n: nat) {
    forall i :: 0 <= i < |row| ==> row[i].next < n
  }

  lemma SourcesAre(k: nat, comesFrom: seq<nat>, remap: seq<nat>)
    requires Sources(k, comesFrom, remap)
    ensures k <= |comesFrom| && (forall s :: 0 <= s < |remap| ==> remap[s] < k) && (forall x :: 0 <= x < k ==> comesFrom[x] < |remap|)
  {
  }

  lemma ReadyToShrink(rows: seq<seq<Transition>>, k: nat, comesFrom: seq<nat>, remap: seq<nat>)
    requires InRange(rows, |remap|) && Sources(k, comesFrom, remap) && |rows| == |remap|
    ensures forall s :: 0 <= s < |remap| ==> forall i :: 0 <= i < |rows[s]| ==> rows[s][i].next < |remap|
    ensures forall x :: 0 <= x < k ==> comesFrom[x] < |remap| && (comesFrom[x] == x || comesFrom[x] >= k)
    ensures k <= |comesFrom| && k <= |remap| && forall x, y :: 0 <= x < y < k ==> comesFrom[x] != comesFrom[y]
  {
    forall s | 0 <= s < |remap| ensures forall i :: 0 <= i < |rows[s]| ==> rows[s][i].next < |remap| {
      assert RowIn(rows[s], |remap|);
    }
    forall x, y | 0 <= x < y < k ensures comesFrom[x] != comesFrom[y] {
      assert remap[comesFrom[x]] == x && remap[comesFrom[y]] == y;
    }
  }

  lemma RowInRange(rows: seq<seq<Transition>>, target: nat, p: nat, row: seq<Transition>, n: nat)
    requires InRange(rows, n) && target < |rows| && p < |rows| && forall m: nat :: RowIn(rows[target], m) && RowIn(rows[p], m) ==> RowIn(row, m)
    ensures InRange(rows[target := row][p := []], n)
  {
    assert RowIn(rows[target], n) && RowIn(rows[p], n);
  }

  lemma PooledHoldsMerged(A: Automaton, k: nat, remap: seq<nat>, comesFrom: seq<nat>, rows: seq<seq<Transition>>, accepts: seq<bool>,
                          pooled: seq<seq<Transition>>, after: seq<seq<Transition>>, acceptAfter: seq<bool>)
    requires A.Valid() && Holds(A, rows, accepts, A.states) && |rows| == |accepts| == |remap| == A.states
    requires Pooling(rows, pooled, comesFrom, remap, |remap|, k) && k <= |after| && k <= |acceptAfter|
    requires forall s :: 0 <= s < k ==> comesFrom[s] < |pooled| && Follows(after[s], pooled[comesFrom[s]], remap) && acceptAfter[s] == accepts[comesFrom[s]]
    ensures Holds(Merged(A, k, remap, comesFrom), after, acceptAfter, k)
  {
    var B := Merged(A, k, remap, comesFrom);
    forall s: nat, a: nat, t: nat | s < k ensures B.Has(s, a, t) <==> Leads(after[s], a, t) {
      var c := comesFrom[s];
      assert Leads(after[s], a, t) <==> LeadsVia(pooled[c], remap, a, t);
      assert PoolsRow(rows, pooled[c], remap, |remap|, c);
      if LeadsVia(pooled[c], remap, a, t) {
        var i :| 0 <= i < |pooled[c]| && a in pooled[c][i].symbols && pooled[c][i].next < |remap| && remap[pooled[c][i].next] == t;
        var u := pooled[c][i].next;
        assert Leads(pooled[c], a, u);
        var q: nat :| (q == c || q < |remap|) && InRow(rows, remap, remap[c], a, u, q);
        assert A.Has(q, a, u);
      }
      if Pooled(A, remap, s, a, t) {
        PooledLeads(A, k, remap, comesFrom, rows, accepts, pooled, s, a, t);
      }
    }
  }

  lemma PooledLeads(A: Automaton, k: nat, remap: seq<nat>, comesFrom: seq<nat>, rows: seq<seq<Transition>>, accepts: seq<bool>, pooled: seq<seq<Transition>>, s: nat, a: nat, t: nat)
    requires A.Valid() && Holds(A, rows, accepts, A.states) && |rows| == |remap| == A.states
    requires Pooling(rows, pooled, comesFrom, remap, |remap|, k) && s < k && Pooled(A, remap, s, a, t)
    ensures comesFrom[s] < |pooled| && LeadsVia(pooled[comesFrom[s]], remap, a, t)
  {
    var c := comesFrom[s];
    var q: nat, u: nat :| q < |remap| && u < |remap| && A.Has(q, a, u) && remap[q] == s && remap[u] == t;
    assert Leads(rows[q], a, u);
    assert InRow(rows, remap, remap[c], a, u, q);
    assert PoolsRow(rows, pooled[c], remap, |remap|, c);
    assert PooledUpTo(rows, remap, |remap|, c, a, u);
    assert Leads(pooled[c], a, u);
    var i :| 0 <= i < |pooled[c]| && a in pooled[c][i].symbols && pooled[c][i].next == u;
    assert remap[pooled[c][i].next] == t;
  }

  // ---- From end to end.

  /** The edges of the reversed automaton. */
  function Turned(edgelist: seq<Edge>): (turned: seq<Edge>)
    ensures |turned| == |edgelist| && forall i :: 0 <= i < |turned| ==> turned[i] == Edge(edgelist[i].target, edgelist[i].symbol, edgelist[i].source)
  {
    seq(|edgelist|, i requires 0 <= i < |edgelist| => Edge(edgelist[i].target, edgelist[i].symbol, edgelist[i].source))
  }

  lemma TurnedEdges(A: Automaton, edgelist: seq<Edge>)
    requires A.Valid() && A.states > 0 && Distinct(edgelist) && Elems(edgelist) == A.trans
    ensures Reverse(A).Valid() && Distinct(Turned(edgelist)) && Elems(Turned(edgelist)) == Reverse(A).trans
    ensures forall a: nat :: Active(Reverse(A), a) <==> Active(A, a)
  {
    var R, turned := Reverse(A), Turned(edgelist);
    forall i, j | 0 <= i < j < |turned| ensures turned[i] != turned[j] {
      assert edgelist[i] != edgelist[j];
    }
    forall e ensures e in Elems(turned) <==> e in R.trans {
      var f := Edge(e.target, e.symbol, e.source);
      ReverseHas(A, f.source, f.symbol, f.target);
      assert e == Edge(f.target, f.symbol, f.source);
      assert f in A.trans <==> f in Elems(edgelist);
      if f in edgelist {
        var i :| 0 <= i < |edgelist| && edgelist[i] == f;
        assert turned[i] == e;
      }
      if e in turned {
        var i :| 0 <= i < |turned| && turned[i] == e;
        assert edgelist[i] == f;
      }
    }
    forall a: nat ensures Active(R, a) <==> Active(A, a) {
      if Active(A, a) {
        var e :| e in A.trans && e.symbol == a;
        assert Edge(e.target, e.symbol, e.source) in R.trans;
      }
    }
  }

  /** What the tables hold afterwards. */
  ghost function LeftOptimized(A: Automaton, o: Outcome): Automaton
    requires Sensible(A, o)
  {
    match o
    case Shrunk(size, remap, comesFrom) => Merged(A, size, remap, comesFrom)
    case _ => A
  }

  /** No two states share a block of the reversed automaton. */
  ghost predicate StatesApart(A: Automaton) {
    exists blk: seq<nat> :: IsResult(Reverse(A), blk) && |Elems(blk)| == A.states
  }

  lemma AllApart(A: Automaton, blk: seq<nat>)
    requires A.Valid() && A.states > 0 && IsResult(Reverse(A), blk) && |Elems(blk)| == A.states
    ensures StatesApart(A)
    ensures KeepsLanguage(A, LeftOptimized(A, Unchanged))
    ensures forall w :: Accepts(LeftOptimized(A, Unchanged), 0, w) ==> Accepts(A, 0, w)
  {
  }

  /**
   Optimizes from the left, in place.  Words are never gained.  None is lost if the automaton is safe to merge, and
   `MergingKeepsIffSafe` says that otherwise some outcome this contract admits loses one.
   */
  method OptimizeLeft(A: Automaton, edgelist: seq<Edge>, active: seq<nat>, transitions: array<seq<Transition>>, accept: array<bool>) returns (o: Outcome)
    requires A.Valid() && Distinct(edgelist) && Elems(edgelist) == A.trans && A.states > 0
    requires Distinct(active) && forall a: nat :: a in active <==> Active(A, a)
    requires transitions.Length == accept.Length == A.states && Holds(A, transitions[..], accept[..], A.states) && InRange(transitions[..], A.states)
    modifies transitions, accept
    ensures Sensible(A, o) && (o.Unchanged? || o.Shrunk? || o.Overran?)
    ensures o.Overran? <==> !FitsBuffer(Reverse(A))
    ensures !o.Overran? ==> Holds(LeftOptimized(A, o), transitions[..], accept[..], LeftOptimized(A, o).states)
    ensures forall w :: Accepts(LeftOptimized(A, o), 0, w) ==> Accepts(A, 0, w)
    ensures o.Unchanged? ==> StatesApart(A)
    ensures o.Shrunk? ==> HasBlocks(Reverse(A), o.size) && HasBlocks(Reverse(LeftOptimized(A, o)), o.size)
    ensures o.Shrunk? ==> Admissible(A, o.size, o.remap, o.comesFrom)
    ensures o.Shrunk? ==> (KeepsLanguage(A, LeftOptimized(A, o)) <==> NothingLost(A, o.remap, o.comesFrom))
    ensures !o.Overran? && SafeToMerge(A) ==> KeepsLanguage(A, LeftOptimized(A, o))
  {
    TurnedEdges(A, edgelist);
    ReverseCounts(A, edgelist);
    LoneState(A, edgelist);
    if edgelist == [] && A.states == 1 {
      return Overran;
    }
    var rp, initial := RefineNFA(Reverse(A), Turned(edgelist), active);
    ghost var blk := rp.Blocks();
    assert IsResult(Reverse(A), blk);
    assert Stable(Reverse(A), blk) && Uniform(Reverse(A), blk);
    ResultDecides(Reverse(A), blk);
    BlocksNumbered(rp);
    BlockCount(rp.n, rp.partitions[..], rp.stateToPartition[..], rp.bounds);
    hide *;
    var size := |rp.bounds|;
    if size == A.states {
      AllApart(A, blk);
      return Unchanged;
    }
    var over, remap, comesFrom := FinishWith(rp, |edgelist|);
    if over {
      return Overran;
    }
    o := Shrunk(size, remap, comesFrom);
    Finished(A, blk, size, remap, comesFrom);
    MergeRenumber(transitions, accept, size, comesFrom, remap, A);
  }

  /** Turned round, only state 0 accepts. */
  lemma LoneState(A: Automaton, edgelist: seq<Edge>)
    requires A.Valid() && A.states > 0 && Distinct(edgelist) && Elems(edgelist) == A.trans && |Reverse(A).trans| == |edgelist|
    ensures EmptyBlock(Reverse(A)) <==> edgelist == [] && A.states == 1
  {
    if A.states > 1 {
      var one: nat := 1;
      assert one < Reverse(A).states && one !in Reverse(A).accept;
    }
  }

  lemma ReverseCounts(A: Automaton, edgelist: seq<Edge>)
    requires A.Valid() && A.states > 0 && Distinct(edgelist) && Elems(edgelist) == A.trans
    ensures Reverse(A).states == A.states && |Reverse(A).trans| == |edgelist|
  {
    TurnedEdges(A, edgelist);
    DistinctSize(Turned(edgelist));
  }

  lemma Finished(A: Automaton, blk: seq<nat>, k: nat, remap: seq<nat>, comesFrom: seq<nat>)
    requires A.Valid() && A.states > 0 && IsResult(Reverse(A), blk) && k == |Elems(blk)| && Stable(Reverse(A), blk) && Uniform(Reverse(A), blk) && Renumbers(blk, k, remap, comesFrom) && k < A.states
    ensures Sources(k, comesFrom, remap) && Sensible(A, Shrunk(k, remap, comesFrom)) && |remap| == A.states
    ensures var B := LeftOptimized(A, Shrunk(k, remap, comesFrom));
            && B == Merged(A, k, remap, comesFrom) && B.states == k
            && (forall w :: Accepts(B, 0, w) ==> Accepts(A, 0, w))
            && (KeepsLanguage(A, B) <==> NothingLost(A, remap, comesFrom))
            && Admissible(A, k, remap, comesFrom) && (SafeToMerge(A) ==> KeepsLanguage(A, B))
            && HasBlocks(Reverse(A), k) && HasBlocks(Reverse(B), k)
  {
    MergedApart(A, blk, k, remap, comesFrom);
    assert Admissible(A, k, remap, comesFrom);
    if SafeToMerge(A) {
      SafeOutcome(A, k, remap, comesFrom);
    }
    MergedKeepsLanguageIff(A, blk, k, remap, comesFrom);
    var B := Merged(A, k, remap, comesFrom);
    forall w ensures Accepts(B, 0, w) ==> Accepts(A, 0, w) {
      MergedAccepts(A, blk, k, remap, comesFrom, w);
    }
  }

  // ---- Merging once is enough.

  /** Turned round, the merged automaton is the automaton of the blocks. */
  lemma MergedTurned(A: Automaton, blk: seq<nat>, k: nat, remap: seq<nat>, comesFrom: seq<nat>)
    requires A.Valid() && A.states > 0 && Stable(Reverse(A), blk) && Uniform(Reverse(A), blk) && Renumbers(blk, k, remap, comesFrom)
    ensures Reverse(A).Valid() && Reverse(Merged(A, k, remap, comesFrom)) == Quotient(Reverse(A), k, remap, comesFrom)
  {
    var R, B := Reverse(A), Merged(A, k, remap, comesFrom);
    var T, Q := Reverse(B), Quotient(R, k, remap, comesFrom);
    forall y: nat, a: nat, x: nat ensures T.Has(y, a, x) <==> Q.Has(y, a, x) {
      ReverseHas(B, x, a, y);
      MergedStep(A, blk, k, remap, comesFrom, y, a, x);
    }
    forall e ensures e in T.trans <==> e in Q.trans {
      assert T.Has(e.source, e.symbol, e.target) <==> Q.Has(e.source, e.symbol, e.target);
      assert e == Edge(e.source, e.symbol, e.target);
    }
    forall x: nat ensures x in T.accept <==> x in Q.accept {
      if x < k && comesFrom[x] in R.accept {
        assert comesFrom[x] == 0 && remap[0] == x;
      }
      if x == 0 {
        assert remap[comesFrom[0]] == remap[0];
        InitialAlone(A, blk, comesFrom[0]);
      }
    }
    assert T.accept == Q.accept;
  }

  lemma MergedStep(A: Automaton, blk: seq<nat>, k: nat, remap: seq<nat>, comesFrom: seq<nat>, y: nat, a: nat, x: nat)
    requires A.Valid() && A.states > 0 && Stable(Reverse(A), blk) && Renumbers(blk, k, remap, comesFrom) && Reverse(A).Valid()
    ensures Pooled(A, remap, x, a, y) <==> y < k && Arrives(Reverse(A), comesFrom[y], a, remap, x)
  {
    var R := Reverse(A);
    if Pooled(A, remap, x, a, y) {
      var s: nat, t: nat :| s < |remap| && t < |remap| && A.Has(s, a, t) && remap[s] == x && remap[t] == y;
      ReverseHas(A, s, a, t);
      assert Arrives(R, t, a, remap, x);
      assert remap[comesFrom[y]] == y && blk[comesFrom[y]] == blk[t];
      MembersArrive(R, blk, k, remap, comesFrom, t, comesFrom[y], a, x);
    }
    if y < k && Arrives(R, comesFrom[y], a, remap, x) {
      var s: nat :| s < |remap| && R.Has(comesFrom[y], a, s) && remap[s] == x;
      ReverseHas(A, s, a, comesFrom[y]);
      assert remap[comesFrom[y]] == y;
    }
  }

  /** The merged automaton has no two states that the same words lead to by the same steps. */
  lemma MergedApart(A: Automaton, blk: seq<nat>, k: nat, remap: seq<nat>, comesFrom: seq<nat>)
    requires A.Valid() && A.states > 0 && IsResult(Reverse(A), blk) && k == |Elems(blk)| && Stable(Reverse(A), blk) && Uniform(Reverse(A), blk) && Renumbers(blk, k, remap, comesFrom)
    ensures HasBlocks(Reverse(A), k) && HasBlocks(Reverse(Merged(A, k, remap, comesFrom)), k)
  {
    MergedTurned(A, blk, k, remap, comesFrom);
    ResultCounts(Reverse(A), blk);
    var initial :| ByObservation(Reverse(A), initial) && CoarsestStable(Reverse(A), initial, blk);
    QuotientApart(Reverse(A), initial, blk, k, remap, comesFrom);
  }

  // ---- A run that loses a word.

  /** Symbol 0 leads from 0 to 1, which rejects, and to 2, which accepts; afterwards nothing is accepted. */
  method OptimizeForked(transitions: array<seq<Transition>>, accept: array<bool>) returns (o: Outcome)
    requires transitions.Length == accept.Length == 3 && transitions[..] == [[Transition({0}, 1), Transition({0}, 2)], [], []] && accept[..] == [false, false, true]
    modifies transitions, accept
    ensures o.Shrunk? && Sensible(Forked(), o) && Holds(LeftOptimized(Forked(), o), transitions[..], accept[..], 2)
    ensures Accepts(Forked(), 0, [0]) && !Accepts(LeftOptimized(Forked(), o), 0, [0])
  {
    var A := Forked();
    var edgelist: seq<Edge> := [Edge(0, 0, 1), Edge(0, 0, 2)];
    var active: seq<nat> := [0];
    ForkedTables(transitions[..], accept[..], edgelist, active);
    ForkedShrinks();
    hide *;
    o := OptimizeLeft(A, edgelist, active, transitions, accept);
    MergingCanLoseWords(o.size, o.remap, o.comesFrom);
  }

  lemma ForkedTables(rows: seq<seq<Transition>>, accepts: seq<bool>, edgelist: seq<Edge>, active: seq<nat>)
    requires rows == [[Transition({0}, 1), Transition({0}, 2)], [], []] && accepts == [false, false, true]
    requires edgelist == [Edge(0, 0, 1), Edge(0, 0, 2)] && active == [0]
    ensures var A := Forked();
            && A.Valid() && A.states == 3 && Distinct(edgelist) && Elems(edgelist) == A.trans
            && Distinct(active) && (forall a: nat :: a in active <==> Active(A, a))
            && Holds(A, rows, accepts, 3) && InRange(rows, 3)
  {
    var A := Forked();
    assert Edge(0, 0, 1) in A.trans && Elems(edgelist) == A.trans;
    forall s: nat, a: nat, t: nat | s < 3 ensures A.Has(s, a, t) <==> Leads(rows[s], a, t) {
      assert Leads(rows[0], 0, 1) by {
        assert 0 in rows[0][0].symbols;
      }
      assert Leads(rows[0], 0, 2) by {
        assert 0 in rows[0][1].symbols;
      }
    }
  }

  /** Its reverse has two blocks and two transitions. */
  lemma ForkedShrinks()
    ensures !StatesApart(Forked()) && FitsBuffer(Reverse(Forked()))
  {
    ForkedArrivals();
    forall blk: seq<nat> | IsResult(Reverse(Forked()), blk) ensures |Elems(blk)| == 2 {
      ForkedBlocks(blk);
    }
    assert Reverse(Forked()).trans == {Edge(1, 0, 0), Edge(2, 0, 0)};
    assert Edge(1, 0, 0) != Edge(2, 0, 0);
  }
}
