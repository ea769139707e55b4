/** Counting the strong components that have an accepting state. */
module ComponentCounts {
  import opened Options
  import opened SeqFacts
  import opened EdgeEnumeration
  import opened StrongComponents

  /** Where a row leads, symbol by symbol. */
  function Targets(row: seq<Option<nat>>): seq<nat> {
    if row == [] then []
    else Targets(row[..|row| - 1]) + if row[|row| - 1].Some? then [row[|row| - 1].value] else []
  }

  /** The destinations of each state. */
  function Destinations(D: Dfa): (G: Graph)
    ensures |G| == |D.step| && forall v :: 0 <= v < |G| ==> G[v] == Targets(D.step[v])
  {
    seq(|D.step|, v requires 0 <= v < |D.step| => Targets(D.step[v]))
  }

  lemma {:induction false} TargetsAre(row: seq<Option<nat>>, t: nat)
    ensures t in Targets(row) <==> Some(t) in row
  {
    if row != [] {
      TargetsAre(row[..|row| - 1], t);
      assert row == row[..|row| - 1] + [row[|row| - 1]];
    }
  }

  /** Steps of the graph are transitions on some symbol. */
  lemma StepsAreTransitions(D: Dfa, s: nat, t: nat)
    requires D.Valid()
    ensures IsGraph(Destinations(D)) && (Steps(Destinations(D), s, t) <==> exists a: nat :: D.Goes(s, a, t))
  {
    var G := Destinations(D);
    forall v, i | 0 <= v < |G| && 0 <= i < |G[v]| ensures G[v][i] < |G| {
      TargetsAre(D.step[v], G[v][i]);
      var a :| 0 <= a < |D.step[v]| && D.step[v][a] == Some(G[v][i]);
      assert D.Goes(v, a, G[v][i]);
    }
    if s < |G| {
      TargetsAre(D.step[s], t);
      if t in G[s] {
        var a :| 0 <= a < |D.step[s]| && D.step[s][a] == Some(t);
        assert D.Goes(s, a, t);
      }
    }
  }

  /** The states that reach `x` and are reached from it. */
  ghost function ClassOf(G: Graph, x: nat): set<nat> {
    set y | 0 <= y < |G| && Mutual(G, x, y)
  }

  lemma SameClass(G: Graph, x: nat, y: nat)
    requires x < |G| && y < |G|
    ensures ClassOf(G, x) == ClassOf(G, y) <==> Mutual(G, x, y)
  {
    ReachSelf(G, y);
    assert y in ClassOf(G, y);
    if Mutual(G, x, y) {
      forall z | 0 <= z < |G| ensures z in ClassOf(G, x) <==> z in ClassOf(G, y) {
        if Mutual(G, x, z) {
          MutualTransitive(G, y, x, z);
        }
        if Mutual(G, y, z) {
          MutualTransitive(G, x, y, z);
        }
      }
    }
  }

  /** The components of accepting states among the first `k` listed. */
  ghost function ClassesOf(D: Dfa, G: Graph, comps: seq<nat>, k: nat): set<set<nat>>
    requires k <= |comps|
  {
    set i | 0 <= i < k && comps[i] < |D.accept| && D.accept[comps[i]] :: ClassOf(G, comps[i])
  }

  /** The components that have an accepting state. */
  ghost function AcceptClasses(D: Dfa): set<set<nat>> {
    set s | 0 <= s < |D.accept| && D.accept[s] :: ClassOf(Destinations(D), s)
  }

  /** One more component: it is new if it has an accepting state. */
  lemma OneMoreComponent(D: Dfa, G: Graph, comps: seq<nat>, marks: seq<nat>, c: nat)
    requires IsComponents(G, comps, marks) && c + 1 < |marks| && marks[c] <= marks[c + 1] <= |comps|
    ensures var before, after := ClassesOf(D, G, comps, marks[c]), ClassesOf(D, G, comps, marks[c + 1]);
            if exists i :: marks[c] <= i < marks[c + 1] && comps[i] < |D.accept| && D.accept[comps[i]] then |after| == |before| + 1 else after == before
  {
    var lo, hi := marks[c], marks[c + 1];
    var before, after := ClassesOf(D, G, comps, lo), ClassesOf(D, G, comps, hi);
    forall i: nat, j: nat | i < hi && lo <= j < hi ensures comps[i] < |G| && comps[j] < |G| && (ClassOf(G, comps[i]) == ClassOf(G, comps[j]) <==> i >= lo) {
      InOneRun(G, comps, marks, c, i, j);
    }
    if i: nat :| lo <= i < hi && comps[i] < |D.accept| && D.accept[comps[i]] {
      var own := ClassOf(G, comps[i]);
      assert after == before + {own};
      assert own !in before;
    }
  }

  /** Places before the end of a run lie in it exactly if their states are in its component. */
  lemma InOneRun(G: Graph, comps: seq<nat>, marks: seq<nat>, c: nat, i: nat, j: nat)
    requires IsComponents(G, comps, marks) && c + 1 < |marks| && i < marks[c + 1] && marks[c] <= j < marks[c + 1] <= |comps|
    ensures comps[i] < |G| && comps[j] < |G| && (ClassOf(G, comps[i]) == ClassOf(G, comps[j]) <==> i >= marks[c])
  {
    assert comps[i] in comps && comps[j] in comps;
    var lo, hi := if i <= j then i else j, if i <= j then j else i;
    assert Together(marks, lo, hi) <==> Mutual(G, comps[lo], comps[hi]);
    if i >= marks[c] {
      forall k | 0 <= k < |marks| ensures !(lo < marks[k] <= hi) {
        assert k <= c ==> marks[k] <= marks[c];
        assert k > c ==> marks[k] >= marks[c + 1];
      }
    } else {
      assert lo < marks[c] <= hi;
    }
    SameClass(G, comps[lo], comps[hi]);
  }

  lemma AllClasses(D: Dfa, comps: seq<nat>, marks: seq<nat>)
    requires D.Valid() && IsComponents(Destinations(D), comps, marks)
    ensures ClassesOf(D, Destinations(D), comps, |comps|) == AcceptClasses(D)
  {
    var G := Destinations(D);
    forall s | 0 <= s < |D.accept| && D.accept[s] ensures ClassOf(G, s) in ClassesOf(D, G, comps, |comps|) {
      assert s in comps;
      var i :| 0 <= i < |comps| && comps[i] == s;
    }
    forall i | 0 <= i < |comps| && comps[i] < |D.accept| && D.accept[comps[i]] ensures ClassOf(G, comps[i]) in AcceptClasses(D) {
    }
  }

  /** Finds the components and looks for an accepting state in each. */
  method CountAcceptComponents(D: Dfa, start: nat) returns (count: nat)
    requires D.Valid() && start <= StrongComponents.MAX
    ensures start + |D.step| <= StrongComponents.MAX ==> count == |AcceptClasses(D)|
  {
    var G := Destinations(D);
    StepsAreTransitions(D, 0, 0);
    var tarjan := new Tarjan(G, start);
    tarjan.Compute();
    count := CountListed(D, tarjan.components, tarjan.indices);
  }

  /** One component after the other, up to its first accepting state. */
  method CountListed(D: Dfa, comps: seq<nat>, marks: seq<nat>) returns (count: nat)
    requires D.Valid()
    ensures IsComponents(Destinations(D), comps, marks) ==> count == |AcceptClasses(D)|
  {
    count := 0;
    var c := 0;
    ghost var right := IsComponents(Destinations(D), comps, marks);
    while c + 1 < |marks|
      invariant right ==> c < |marks| && marks[c] <= |comps| && count == |ClassesOf(D, Destinations(D), comps, marks[c])|
    {
      var found := false;
      var i := marks[c];
      while i < marks[c + 1] && !found
        invariant right ==> marks[c] <= i <= marks[c + 1] <= |comps|
        invariant right ==> (found <==> exists k :: marks[c] <= k < i && comps[k] < |D.accept| && D.accept[comps[k]])
      {
        found := i < |comps| && comps[i] < |D.accept| && D.accept[comps[i]];
        i := i + 1;
      }
      if found {
        count := count + 1;
      }
      if right {
        OneMoreComponent(D, Destinations(D), comps, marks, c);
      }
      c := c + 1;
    }
    if right {
      AllClasses(D, comps, marks);
    }
  }
}
