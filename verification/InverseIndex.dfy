/** The index of predecessors both minimizers build: for each (target, symbol) the run of sources in `inv`. */
module InverseIndexes {
  import opened Automata
  import opened SeqFacts
  import opened Sorting

  /** Target-major order on edges. */
  predicate Backwards(l: Edge, r: Edge) {
    || l.target < r.target
    || (l.target == r.target && l.symbol < r.symbol)
    || (l.target == r.target && l.symbol == r.symbol && l.source <= r.source)
  }

  datatype InverseIndex = InverseIndex(inv: seq<nat>, start: seq<seq<nat>>) {

    predicate HasRun(target: nat, symbol: nat) {
      && target < |start| && symbol + 1 < |start[target]|
      && start[target][symbol] <= start[target][symbol + 1] <= |inv|
    }

    /** The states with a transition to `target` on `symbol`. */
    function Step(target: nat, symbol: nat): seq<nat>
      requires HasRun(target, symbol)
    {
      inv[start[target][symbol]..start[target][symbol + 1]]
    }

    /** Every run lists exactly the predecessors, each once. */
    ghost predicate Inverts(A: Automaton) {
      forall t, a :: 0 <= t < A.states && 0 <= a < A.symbols ==>
        HasRun(t, a) && Distinct(Step(t, a)) && forall s :: s in Step(t, a) <==> A.Has(s, a, t)
    }
  }

  /** Every edge of the list before `i` precedes (t, a) in target-major order, and none after does. */
  ghost predicate Cut(edges: seq<Edge>, i: nat, t: nat, a: nat) {
    && i <= |edges|
    && (forall j :: 0 <= j < i ==> edges[j].target < t || (edges[j].target == t && edges[j].symbol < a))
    && (forall j :: i <= j < |edges| ==> edges[j].target > t || (edges[j].target == t && edges[j].symbol >= a))
  }

  /** Row `t` of the start table brackets the edges on symbol `a`. */
  ghost predicate Brackets(edges: seq<Edge>, row: seq<nat>, t: nat, a: nat) {
    && a + 1 < |row| && row[a] <= row[a + 1] <= |edges|
    && Cut(edges, row[a], t, a) && Cut(edges, row[a + 1], t, a + 1)
  }

  /** `inv[from..to]` holds the sources of exactly the edges to `t` on `a`. */
  lemma RunIsPredecessors(A: Automaton, edges: seq<Edge>, inv: seq<nat>, from: nat, to: nat, t: nat, a: nat)
    requires Distinct(edges) && Elems(edges) == A.trans
    requires |inv| <= |edges| && forall j :: 0 <= j < |inv| ==> inv[j] == edges[j].source
    requires from <= to <= |inv| && Cut(edges, from, t, a) && Cut(edges, to, t, a + 1)
    ensures Distinct(inv[from..to])
    ensures forall s :: s in inv[from..to] <==> A.Has(s, a, t)
  {
    var run := inv[from..to];
    assert forall j :: from <= j < to ==> edges[j] == Edge(inv[j], a, t);
    assert forall i :: 0 <= i < |run| ==> run[i] == inv[from + i];
    forall s ensures s in run <==> A.Has(s, a, t) {
      if s in run {
        var i :| 0 <= i < |run| && run[i] == s;
        assert edges[from + i] in Elems(edges);
      }
      if A.Has(s, a, t) {
        assert Edge(s, a, t) in Elems(edges);
        var j :| 0 <= j < |edges| && edges[j] == Edge(s, a, t);
        assert from <= j < to;
        assert run[j - from] == s;
      }
    }
  }

  method BuildInverse(A: Automaton, edgelist: seq<Edge>) returns (index: InverseIndex)
    requires A.Valid() && Distinct(edgelist) && Elems(edgelist) == A.trans
    ensures index.Inverts(A)
  {
    var edges := Sort(edgelist, Backwards);
    SortedEdges(A, edgelist);
    hide Sort, Brackets;
    var inv, start := [], [];
    var t := 0;
    while t < A.states
      invariant t <= A.states && |start| == t
      invariant |inv| <= |edges| && forall j :: 0 <= j < |inv| ==> inv[j] == edges[j].source
      invariant Cut(edges, |inv|, t, 0)
      invariant forall u, a :: 0 <= u < t && 0 <= a < A.symbols ==> Brackets(edges, start[u], u, a)
    {
      var row;
      inv, row := BuildRow(A, edges, inv, t);
      start := start + [row];
      t := t + 1;
    }
    assert |edges| > 0 ==> edges[|edges| - 1].target < A.states;
    index := InverseIndex(inv, start);
    RowsInvert(A, edges, index);
  }

  lemma SortedEdges(A: Automaton, edgelist: seq<Edge>)
    requires A.Valid() && Distinct(edgelist) && Elems(edgelist) == A.trans
    ensures var edges := Sort(edgelist, Backwards);
            && SortedBy(edges, Backwards) && Distinct(edges) && Elems(edges) == A.trans
            && forall j :: 0 <= j < |edges| ==> edges[j].symbol < A.symbols && edges[j].target < A.states
  {
    SortSorts(edgelist, Backwards);
    var edges := Sort(edgelist, Backwards);
    SameContent(edgelist, edges);
    forall j | 0 <= j < |edges| ensures edges[j].symbol < A.symbols && edges[j].target < A.states {
      assert edges[j] in Elems(edges);
    }
  }

  lemma RowsInvert(A: Automaton, edges: seq<Edge>, index: InverseIndex)
    requires Distinct(edges) && Elems(edges) == A.trans
    requires |index.inv| == |edges| && forall j :: 0 <= j < |index.inv| ==> index.inv[j] == edges[j].source
    requires |index.start| == A.states
    requires forall u, a :: 0 <= u < A.states && 0 <= a < A.symbols ==> Brackets(edges, index.start[u], u, a)
    ensures index.Inverts(A)
  {
    forall u, a | 0 <= u < A.states && 0 <= a < A.symbols
      ensures index.HasRun(u, a) && Distinct(index.Step(u, a)) && forall s :: s in index.Step(u, a) <==> A.Has(s, a, u)
    {
      assert Brackets(edges, index.start[u], u, a);
      RunIsPredecessors(A, edges, index.inv, index.start[u][a], index.start[u][a + 1], u, a);
    }
  }

  method BuildRow(A: Automaton, edges: seq<Edge>, inv0: seq<nat>, t: nat) returns (inv: seq<nat>, row: seq<nat>)
    requires SortedBy(edges, Backwards) && forall j :: 0 <= j < |edges| ==> edges[j].symbol < A.symbols
    requires |inv0| <= |edges| && forall j :: 0 <= j < |inv0| ==> inv0[j] == edges[j].source
    requires Cut(edges, |inv0|, t, 0)
    ensures |inv0| <= |inv| <= |edges| && forall j :: 0 <= j < |inv| ==> inv[j] == edges[j].source
    ensures Cut(edges, |inv|, t + 1, 0)
    ensures forall a :: 0 <= a < A.symbols ==> Brackets(edges, row, t, a)
  {
    inv, row := inv0, [];
    var a := 0;
    while a < A.symbols
      invariant a <= A.symbols && |row| == a
      invariant |inv0| <= |inv| <= |edges| && forall j :: 0 <= j < |inv| ==> inv[j] == edges[j].source
      invariant Cut(edges, |inv|, t, a)
      invariant forall b :: 0 <= b < a ==> Brackets(edges, row + [|inv|], t, b)
    {
      ghost var before := row + [|inv|];
      row := row + [|inv|];
      while |inv| < |edges| && edges[|inv|].target == t && edges[|inv|].symbol == a
        invariant row[a] <= |inv| <= |edges| && forall j :: 0 <= j < |inv| ==> inv[j] == edges[j].source
        invariant forall j :: row[a] <= j < |inv| ==> edges[j].target == t && edges[j].symbol == a
      {
        inv := inv + [edges[|inv|].source];
      }
      forall b | 0 <= b < a + 1 ensures Brackets(edges, row + [|inv|], t, b) {
        if b < a {
          assert Brackets(edges, before, t, b);
        }
      }
      a := a + 1;
    }
    row := row + [|inv|];
  }
}
