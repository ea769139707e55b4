/** The NFA optimizer: Paige and Tarjan's relational coarsest partition algorithm over array partitions and splitter lists. */
module PaigeTarjan {
  import opened Arithmetic
  import opened Automata
  import opened SeqFacts
  import opened RefinablePartitions
  import opened InverseIndexes
  import opened PartitionRefinement
  import opened NodeLists
  import opened SplitterLists
  import opened PaigeTarjanTheory

  /** The splitter of each state's block. */
  ghost function Assign(blk: seq<nat>, p2s: seq<nat>): seq<nat> {
    seq(|blk|, s requires 0 <= s < |blk| => if blk[s] < |p2s| then p2s[blk[s]] else 0)
  }

  /** A new block in its parent's splitter leaves every state's splitter as it was. */
  lemma AssignAfterSplit(blk: seq<nat>, p2s: seq<nat>, part: nat, marked: set<nat>)
    requires part < |p2s| && forall s :: 0 <= s < |blk| ==> blk[s] < |p2s|
    ensures Assign(SplitOff(blk, part, marked, |p2s|), p2s + [p2s[part]]) == Assign(blk, p2s)
  {
  }

  /** A block no larger than another of the same splitter is at most half the splitter. */
  lemma SmallerOfTwo(blk: seq<nat>, p2s: seq<nat>, b: nat, c: nat)
    requires b < |p2s| && c < |p2s| && b != c && p2s[b] == p2s[c]
    requires |Members(blk, b)| <= |Members(blk, c)|
    ensures 2 * |Members(blk, b)| <= |Members(Assign(blk, p2s), p2s[b])|
  {
    var both := Members(blk, b) + Members(blk, c);
    assert Members(blk, b) !! Members(blk, c);
    assert both <= Members(Assign(blk, p2s), p2s[b]);
    SubsetSize(both, Members(Assign(blk, p2s), p2s[b]));
  }

  /** Moving the smaller block `b` of a splitter to the unused head `r` cuts the splitter, and at most in half. */
  lemma SelectHalves(blk: seq<nat>, p2s: seq<nat>, b: nat, c: nat, r: nat, times: seq<nat>)
    requires b < |p2s| && c < |p2s| && b != c && p2s[b] == p2s[c] && r !in p2s && forall s :: 0 <= s < |blk| ==> blk[s] < |p2s|
    requires |Members(blk, b)| <= |Members(blk, c)| && Halved(Assign(blk, p2s), times)
    ensures var now := Assign(blk, p2s[b := r]);
            Cuts(Assign(blk, p2s), now, p2s[b], r) && Halved(now, Bump(times, Members(now, r)))
  {
    var now := Assign(blk, p2s[b := r]);
    assert p2s[b] in p2s;
    assert Members(now, r) == Members(blk, b);
    SmallerOfTwo(blk, p2s, b, c);
    HalvingStep(Assign(blk, p2s), now, p2s[b], r, times);
  }

  lemma TargetSources(A: Automaton, targets: seq<nat>, i: nat, a: nat, sources: seq<nat>)
    requires A.Valid() && Distinct(targets) && i < |targets| && forall s :: s in sources <==> A.Has(s, a, targets[i])
    ensures targets[i] !in Elems(targets[..i]) && Elems(targets[..i + 1]) == Elems(targets[..i]) + {targets[i]}
    ensures forall s :: s in sources ==> s < A.states
    ensures forall s :: PointsInto(A, s, a, targets[..i + 1]) <==> PointsInto(A, s, a, targets[..i]) || s in sources
  {
    assert targets[..i + 1] == targets[..i] + [targets[i]];
    forall s | s in sources ensures s < A.states {
      assert Edge(s, a, targets[i]) in A.trans;
    }
    assert targets[i] in targets[..i + 1];
    forall s ensures PointsInto(A, s, a, targets[..i + 1]) <==> PointsInto(A, s, a, targets[..i]) || s in sources {
      assert forall t :: t in targets[..i] ==> t in targets[..i + 1];
    }
  }

  lemma NothingCounted(A: Automaton, counts: Counts, r: nat, a: nat, targets: seq<nat>)
    ensures Added(counts, counts, r, a, A, Elems(targets[..0])) && forall s :: !PointsInto(A, s, a, targets[..0])
  {
    forall s: nat ensures Hits(A, s, a, Elems(targets[..0])) == {} {
    }
  }

  lemma NothingSubtracted(A: Automaton, counts: Counts, now: seq<nat>, h: nat, a: nat)
    ensures LeftOver(A, now, h, a, {}, {}) && Subtracted(A, counts, counts, now, h, a, {})
  {
  }

  lemma PointsIntoIsPreimage(A: Automaton, spl: seq<nat>, h: nat, a: nat, targets: seq<nat>, seen: set<nat>)
    requires A.Valid() && |spl| == A.states && Elems(targets) == Members(spl, h)
    requires forall s :: s in seen <==> PointsInto(A, s, a, targets)
    ensures seen == Preimage(A, spl, h, a)
  {
    forall s: nat ensures s in seen <==> s in Preimage(A, spl, h, a) {
      if s in seen {
        var t :| t in targets && A.Has(s, a, t);
        assert t in Elems(targets) && Edge(s, a, t) in A.trans;
      }
      if s in Preimage(A, spl, h, a) {
        var t: nat :| t < |spl| && A.Has(s, a, t) && spl[t] == h;
        assert t in Elems(targets);
      }
    }
  }

  /** Of the states seen, those without successors in splitter `h` are marked. */
  ghost predicate LeftOver(A: Automaton, spl: seq<nat>, h: nat, a: nat, seen: set<nat>, marked: set<nat>) {
    forall s :: s in marked <==> s in seen && |Hits(A, s, a, Members(spl, h))| == 0
  }

  lemma LeftOverIsOnlyInto(A: Automaton, spl: seq<nat>, r: nat, h: nat, a: nat, marked: set<nat>)
    requires LeftOver(A, spl, h, a, Preimage(A, spl, r, a), marked)
    ensures marked == OnlyInto(A, spl, r, h, a)
  {
    forall s: nat ensures s in marked <==> s in OnlyInto(A, spl, r, h, a) {
      ReachesIffHits(A, spl, s, a, h);
    }
  }

  /** One list, headed by node 0, holds the blocks 0 .. count-1 in order. */
  ghost predicate OneList(chains: map<nat, seq<nat>>, part: seq<nat>, chain: seq<nat>, count: nat) {
    && chains == map[0 := chain] && |chain| == count > 0 && chain[0] == 0
    && forall j :: 0 <= j < count ==> chain[j] < |part| && part[chain[j]] == j
  }

  lemma OneListOk(chains: map<nat, seq<nat>>, part: seq<nat>, chain: seq<nat>, count: nat)
    requires OneList(chains, part, chain, count)
    ensures SplittersOk(chains, part, seq(count, _ => 0))
  {
    forall b | 0 <= b < count ensures Holds(chain, part, b) {
      assert chain[b] in chain;
    }
  }

  lemma HeadLink(next: seq<Link>, chains: map<nat, seq<nat>>, part: seq<nat>, chain: seq<nat>, count: nat, free: seq<nat>, highwater: nat)
    requires OneList(chains, part, chain, count) && ListsOk(next, chains, free, highwater, {})
    ensures 0 < |next| && (next[0] != End <==> count > 1) && WaitingOk(if next[0] != End then [0] else [], chains)
  {
    assert chains[0] == chain;
    assert Follows(next, chain, 0);
  }

  lemma LongerList(part: seq<nat>, chain: seq<nat>, count: nat, node: nat)
    requires OneList(map[0 := chain], part, chain, count) && node < |part| && node !in chain
    ensures OneList(map[0 := Inserted(chain, count - 1, node)], part[node := count], chain + [node], count + 1)
  {
    assert Inserted(chain, count - 1, node) == chain + [node];
  }

  /** The targets of the listed edges from `s` on `a`. */
  ghost function Among(edges: seq<Edge>, s: nat, a: nat): set<nat> {
    set e | e in edges && e.source == s && e.symbol == a :: e.target
  }

  ghost function AllStates(A: Automaton): set<nat> {
    Members(seq(A.states, _ => 0), 0)
  }

  /** Every count of splitter 0 is the number of successors; no other splitter has counts. */
  ghost predicate CountsAll(A: Automaton, counts: Counts) {
    forall h: nat, a: nat, s: nat :: Stored(counts, h, a, s) == if h == 0 then |Hits(A, s, a, AllStates(A))| else 0
  }

  lemma AmongGrows(edges: seq<Edge>, j: nat)
    requires Distinct(edges) && j < |edges|
    ensures forall s: nat, a: nat :: |Among(edges[..j + 1], s, a)| == |Among(edges[..j], s, a)| + if s == edges[j].source && a == edges[j].symbol then 1 else 0
  {
    var e := edges[j];
    assert edges[..j + 1] == edges[..j] + [e] && e !in edges[..j];
    forall s: nat, a: nat ensures |Among(edges[..j + 1], s, a)| == |Among(edges[..j], s, a)| + if s == e.source && a == e.symbol then 1 else 0 {
      AmongOneMore(edges[..j], e, s, a);
    }
  }

  lemma AmongOneMore(edges: seq<Edge>, e: Edge, s: nat, a: nat)
    requires e !in edges
    ensures |Among(edges + [e], s, a)| == |Among(edges, s, a)| + if s == e.source && a == e.symbol then 1 else 0
  {
    assert forall x :: x in edges + [e] <==> x in edges || x == e;
    if s == e.source && a == e.symbol {
      assert Among(edges + [e], s, a) == Among(edges, s, a) + {e.target};
      assert e.target !in Among(edges, s, a);
    } else {
      assert Among(edges + [e], s, a) == Among(edges, s, a);
    }
  }

  lemma AmongAll(A: Automaton, edges: seq<Edge>, counts: Counts)
    requires A.Valid() && Elems(edges) == A.trans
    requires forall h: nat, a: nat, s: nat :: Stored(counts, h, a, s) == if h == 0 then |Among(edges[..|edges|], s, a)| else 0
    ensures CountsAll(A, counts)
  {
    assert edges[..|edges|] == edges;
    forall a: nat, s: nat ensures Among(edges, s, a) == Hits(A, s, a, AllStates(A)) {
      forall t: nat ensures t in Among(edges, s, a) <==> t in Hits(A, s, a, AllStates(A)) {
        assert Edge(s, a, t) in Elems(edges) <==> A.Has(s, a, t);
      }
    }
  }

  /** With one splitter for all blocks everything is settled, and no state has been chosen. */
  lemma OneSplitterSettled(A: Automaton, blk: seq<nat>, p2s: seq<nat>, counts: Counts)
    requires A.Valid() && Uniform(A, blk) && CountsAll(A, counts)
    requires forall b :: 0 <= b < |p2s| ==> p2s[b] == 0
    ensures Settled(A, blk, Assign(blk, p2s), Assign(blk, p2s), counts, {})
    ensures Halved(Assign(blk, p2s), seq(A.states, _ => 0))
  {
    var spl := Assign(blk, p2s);
    forall s | 0 <= s < |spl| ensures spl[s] == 0 && |Members(spl, 0)| <= |spl| {
      BoundedSetSize(Members(spl, 0), |spl|);
    }
    assert Members(spl, 0) == AllStates(A);
    forall a: nat | a < A.symbols ensures SettledFor(A, blk, spl, spl, counts, {}, a) {
      OneSplitterIsCrashPattern(A, blk, spl, a);
      forall h: nat, s: nat ensures Stored(counts, h, a, s) == |Hits(A, s, a, Members(spl, h))| {
        if h != 0 {
          assert Members(spl, h) == {};
          assert Hits(A, s, a, {}) == {};
        }
      }
    }
  }

  class NFAOptimizer {
    ghost const A: Automaton
    const active: seq<nat>
    const index: InverseIndex
    const rp: RefinablePartition
    const splitters: NodeList
    var waiting: seq<nat>
    var p2s: seq<nat>
    var counts: Counts
    var moveMarks: set<nat>
    /** How often each state has been in a selected refiner. */
    ghost var times: seq<nat>

    constructor (ghost automaton: Automaton, symbols: seq<nat>, inverse: InverseIndex, partition: RefinablePartition)
      requires automaton.Valid() && automaton.states == partition.n && inverse.Inverts(automaton) && partition.Valid()
      requires Distinct(symbols) && forall a :: a in symbols ==> a < automaton.symbols
      requires forall e :: e in automaton.trans ==> e.symbol in symbols
      ensures Fixed() && A == automaton && active == symbols && rp == partition && waiting == [] && p2s == [] && counts == map[]
      ensures fresh(splitters) && fresh(splitters.part) && fresh(splitters.next)
      ensures splitters.Valid() && splitters.chains == map[] && splitters.free == [] && splitters.highwater == 0
      ensures times == seq(automaton.states, _ => 0)
    {
      A := automaton;
      active := symbols;
      index := inverse;
      rp := partition;
      splitters := new NodeList(partition.n);
      waiting, p2s, counts, moveMarks := [], [], map[], {};
      times := seq(automaton.states, _ => 0);
    }

    ghost predicate Fixed() {
      && A.Valid() && A.states == rp.n == splitters.capacity && index.Inverts(A)
      && rp.partitions != splitters.part && rp.move != splitters.part
      && Distinct(active) && (forall a :: a in active ==> a < A.symbols)
      && (forall e :: e in A.trans ==> e.symbol in active)
    }

    ghost predicate ListsValid()
      reads this`waiting, this`p2s, splitters, splitters.part, splitters.next
    {
      && splitters.Valid() && splitters.part.Length == splitters.capacity
      && SplittersOk(splitters.chains, splitters.part[..], p2s)
      && WaitingOk(waiting, splitters.chains)
    }

    ghost predicate Valid()
      reads this`waiting, this`p2s, splitters, splitters.part, splitters.next, rp, rp.partitions, rp.stateToPartition, rp.move
    {
      Fixed() && rp.Valid() && ListsValid() && |p2s| == |rp.bounds|
    }

    ghost function Blocks(): seq<nat>
      reads rp.stateToPartition
    {
      rp.Blocks()
    }

    ghost function Splitters(): seq<nat>
      reads this`p2s, rp.stateToPartition
    {
      Assign(Blocks(), p2s)
    }

    /** From the initial partition and the list of edges to the coarsest stable partition. */
    method Run(edgelist: seq<Edge>)
      requires Fixed() && rp.Valid() && rp.marked == {} && 0 < |rp.bounds| && Uniform(A, Blocks())
      requires Distinct(edgelist) && Elems(edgelist) == A.trans && counts == map[] && waiting == [] && |rp.bounds| <= rp.n
      requires splitters.Valid() && splitters.chains == map[] && splitters.free == [] && splitters.highwater == 0
      requires times == seq(A.states, _ => 0)
      modifies this, splitters, splitters.part, splitters.next, rp, rp.partitions, rp.stateToPartition, rp.move
      ensures Valid() && CoarsestStable(A, old(Blocks()), Blocks())
    {
      hide Listed, ListsOk, SplittersOk, WaitingOk, RepOk, Uniform;
      InitializeCounts(edgelist);
      InitializeSplitters();
      OneSplitterSettled(A, Blocks(), p2s, counts);
      CoreLoop();
    }

    /** Puts every block on one list, which waits if it has more than one. */
    method InitializeSplitters()
      requires Fixed() && waiting == [] && 0 < |rp.bounds| <= splitters.capacity
      requires splitters.Valid() && splitters.chains == map[] && splitters.free == [] && splitters.highwater == 0
      modifies this`waiting, this`p2s, splitters, splitters.part, splitters.next
      ensures ListsValid() && p2s == seq(|rp.bounds|, _ => 0)
    {
      var head := splitters.Create(0);
      var list := head;
      var i := 1;
      ghost var chain := [head];
      assert OneList(splitters.chains, splitters.part[..], chain, 1);
      hide ListsOk, SplittersOk, OneList;
      while i < |rp.bounds|
        invariant 1 <= i <= |rp.bounds| == |chain| + |rp.bounds| - i && waiting == []
        invariant splitters.Valid() && splitters.free == [] && splitters.part.Length == splitters.capacity
        invariant OneList(splitters.chains, splitters.part[..], chain, i) && list == chain[i - 1]
      {
        list := AppendToList(list, i, chain);
        chain := chain + [list];
        i := i + 1;
      }
      p2s := seq(|rp.bounds|, _ => head);
      OneListOk(splitters.chains, splitters.part[..], chain, i);
      HeadLink(splitters.next[..], splitters.chains, splitters.part[..], chain, i, splitters.free, splitters.highwater);
      if splitters.next[head] != End {
        waiting := waiting + [head];
      }
    }

    method AppendToList(list: nat, i: nat, ghost chain: seq<nat>) returns (node: nat)
      requires splitters.Valid() && splitters.free == [] && splitters.part.Length == splitters.capacity && 0 < i < splitters.capacity
      requires OneList(splitters.chains, splitters.part[..], chain, i) && list == chain[i - 1]
      modifies splitters, splitters.part, splitters.next
      ensures splitters.Valid() && splitters.free == [] && splitters.part.Length == splitters.capacity
      ensures OneList(splitters.chains, splitters.part[..], chain + [node], i + 1)
    {
      OneListOk(splitters.chains, splitters.part[..], chain, i);
      hide ListsOk, SplittersOk;
      RoomForBlock(splitters.next[..], splitters.chains, splitters.highwater, splitters.part[..], seq(i, _ => 0));
      ghost var data, lists := splitters.part[..], splitters.chains;
      node := splitters.InsertAfter(list, i, 0, i - 1);
      assert node !in chain by {
        assert !InSomeList(lists, node);
        assert 0 in lists && lists[0] == chain;
      }
      LongerList(data, chain, i, node);
    }

    /** Counts the transitions on each symbol out of each state, all into the first splitter. */
    method InitializeCounts(edgelist: seq<Edge>)
      requires Distinct(edgelist) && Elems(edgelist) == A.trans && counts == map[] && A.Valid()
      modifies this`counts
      ensures NoZeros(counts) && CountsAll(A, counts)
    {
      var j := 0;
      while j < |edgelist|
        invariant j <= |edgelist| && NoZeros(counts)
        invariant forall h: nat, a: nat, s: nat :: Stored(counts, h, a, s) == if h == 0 then |Among(edgelist[..j], s, a)| else 0
      {
        var e := edgelist[j];
        AmongGrows(edgelist, j);
        ghost var before := counts;
        counts := counts[(0, e.symbol, e.source) := Stored(counts, 0, e.symbol, e.source) + 1];
        assert forall h: nat, a: nat, s: nat :: Stored(counts, h, a, s) == Stored(before, h, a, s) + if h == 0 && a == e.symbol && s == e.source then 1 else 0;
        j := j + 1;
      }
      AmongAll(A, edgelist, counts);
    }

    /** Puts the new block on the list of the block it came from. */
    method Attach(part: nat, newPart: nat)
      requires Fixed() && ListsValid() && part < |p2s| == newPart < splitters.capacity
      modifies this`waiting, this`p2s, splitters, splitters.part, splitters.next
      ensures ListsValid() && p2s == old(p2s) + [old(p2s)[part]]
      ensures splitters.chains.Keys == old(splitters.chains.Keys)
    {
      var head := p2s[part];
      ghost var chains := splitters.chains;
      assert head in chains && chains[head][0] == head;
      assert Follows(splitters.next[..], chains[head], 0);
      var splitSingleton := splitters.next[head] == End;
      if splitters.free == [] {
        RoomForBlock(splitters.next[..], chains, splitters.highwater, splitters.part[..], p2s);
      }
      ghost var data := splitters.part[..];
      ghost var node := splitters.InsertAfter(head, newPart, head, 0);
      JoinList(chains, data, p2s, head, node);
      QueueIfNewlyCompound(waiting, chains, head, node);
      p2s := p2s + [head];
      if splitSingleton {
        waiting := waiting + [head];
      }
    }

    /** Splits a suspected block by its marks, unless all of it is marked. */
    method RefinePart(part: nat)
      requires Valid() && part < |rp.bounds| && rp.moveSize[part] > 0
      modifies this`waiting, this`p2s, splitters, splitters.part, splitters.next, rp`bounds, rp`moveSize, rp`marked, rp.partitions, rp.stateToPartition
      ensures Valid() && rp.marked == old(rp.marked) - Members(old(Blocks()), part)
      ensures forall b :: 0 <= b < |old(rp.bounds)| && b != part ==> b < |rp.moveSize| && rp.moveSize[b] == old(rp.moveSize)[b]
      ensures Splitters() == old(Splitters()) && splitters.chains.Keys == old(splitters.chains.Keys)
      ensures if Members(old(Blocks()), part) <= old(rp.marked)
              then Blocks() == old(Blocks()) && |rp.bounds| == |old(rp.bounds)|
              else && Blocks() == SplitOff(old(Blocks()), part, old(rp.marked), |old(rp.bounds)|)
                   && |rp.bounds| == |old(rp.bounds)| + 1
    {
      rp.FullyMarked(part);
      hide Listed, SplittersOk, WaitingOk, ListsOk;
      if rp.moveSize[part] < rp.Size(part) {
        CutPart(part);
      }
      rp.Clear(part);
      assert rp.marked == old(rp.marked) - Members(old(Blocks()), part);
    }

    /** Moves the marked states of a block to a new block on the same list. */
    method CutPart(part: nat)
      requires Valid() && part < |rp.bounds| && 0 < rp.moveSize[part] < rp.Size(part)
      modifies this`waiting, this`p2s, splitters, splitters.part, splitters.next, rp`bounds, rp`moveSize, rp`marked, rp.partitions, rp.stateToPartition
      ensures Fixed() && ListsValid() && rp.ValidExcept(part) && |p2s| == |rp.bounds| == |old(rp.bounds)| + 1
      ensures Blocks() == SplitOff(old(Blocks()), part, old(rp.marked), |old(rp.bounds)|)
      ensures rp.moveSize == old(rp.moveSize) + [0] && rp.marked == old(rp.marked) - Members(old(Blocks()), part)
      ensures Splitters() == old(Splitters()) && splitters.chains.Keys == old(splitters.chains.Keys)
    {
      hide Listed, SplittersOk, WaitingOk, ListsOk;
      AssignAfterSplit(Blocks(), p2s, part, rp.marked);
      var newPart := rp.Split(part);
      BlockCount(rp.n, rp.partitions[..], rp.stateToPartition[..], rp.bounds);
      Attach(part, newPart);
    }

    /** Splits every suspected block by its marks. */
    method Refine(ghost base: seq<nat>)
      requires Valid() && rp.SuspectsOk() && |base| == rp.n
      requires Respected(A, base, rp.marked) && KeepsStable(A, base, Blocks())
      modifies this`waiting, this`p2s, splitters, splitters.part, splitters.next, rp`bounds, rp`moveSize, rp`marked, rp.partitions, rp.stateToPartition
      ensures Valid() && rp.marked == {} && CutOnlyIn(Blocks(), old(rp.marked), [])
      ensures Refines(Blocks(), old(Blocks())) && KeepsStable(A, base, Blocks())
      ensures Splitters() == old(Splitters()) && splitters.chains.Keys == old(splitters.chains.Keys)
    {
      ghost var X, before := rp.marked, Blocks();
      rp.SuspectsCoverMarks();
      SplittingStarts(A, base, before, X, rp.suspects, |rp.bounds|);
      var todo: seq<nat> := rp.suspects;
      hide RepOk, Listed, SplittersOk, WaitingOk, ListsOk, SplittingBy, KeepsStable, Refines, CutOnlyIn, Respected;
      while todo != []
        invariant Valid() && Distinct(todo)
        invariant SplittingBy(A, base, before, Blocks(), X, rp.marked, todo, |rp.bounds|)
        invariant forall b :: b in todo ==> b < |rp.bounds| && rp.moveSize[b] > 0
        invariant Splitters() == old(Splitters()) && splitters.chains.Keys == old(splitters.chains.Keys)
        decreases |todo|
      {
        var part: nat, rest: seq<nat> := todo[0], todo[1..];
        assert todo == [part] + rest && part in todo && forall b :: b in rest ==> b in todo;
        RefineSuspect(part, base, before, X, rest);
        todo := rest;
      }
      SplittingEnds(A, base, before, Blocks(), X, rp.marked, |rp.bounds|);
    }

    method RefineSuspect(part: nat, ghost base: seq<nat>, ghost before: seq<nat>, ghost X: set<nat>, ghost rest: seq<nat>)
      requires Valid() && part < |rp.bounds| && rp.moveSize[part] > 0 && Respected(A, base, X) && part !in rest
      requires forall b :: b in rest ==> b < |rp.bounds| && rp.moveSize[b] > 0
      requires SplittingBy(A, base, before, Blocks(), X, rp.marked, [part] + rest, |rp.bounds|)
      modifies this`waiting, this`p2s, splitters, splitters.part, splitters.next, rp`bounds, rp`moveSize, rp`marked, rp.partitions, rp.stateToPartition
      ensures Valid() && SplittingBy(A, base, before, Blocks(), X, rp.marked, rest, |rp.bounds|)
      ensures forall b :: b in rest ==> b < |rp.bounds| && rp.moveSize[b] > 0
      ensures Splitters() == old(Splitters()) && splitters.chains.Keys == old(splitters.chains.Keys)
    {
      hide RepOk, Listed, SplittersOk, WaitingOk, ListsOk, SplittingBy, Respected, Members, SplitOff;
      SplittingStep(A, base, before, Blocks(), X, rp.marked, part, rest, |rp.bounds|);
      RefinePart(part);
    }

    /**
     Takes a block, the smaller of the first two, off the next compound splitter.  The refiner is that
     block alone; the remainder keeps the rest of the list.
     */
    method Select() returns (refiner: nat, remainder: nat)
      requires Valid() && waiting != [] && Halved(Splitters(), times)
      modifies this`waiting, this`p2s, this`times, splitters, splitters.part, splitters.next
      ensures Valid() && Cuts(old(Splitters()), Splitters(), remainder, refiner)
      ensures refiner !in old(splitters.chains) && splitters.chains.Keys == old(splitters.chains.Keys) + {refiner}
      ensures remainder in splitters.chains
      ensures times == Bump(old(times), Members(Splitters(), refiner)) && Halved(Splitters(), times)
    {
      hide *;
      FirstWaiting();
      remainder := waiting[0];
      var node := OrderFirstTwo(remainder);
      ghost var b, c, blk, heads := splitters.part[node], splitters.part[remainder], Blocks(), p2s;
      TakeApart();
      refiner := DetachSecond(remainder, node);
      PutTogether();
      SelectHalves(blk, heads, b, c, refiner, times);
      times := Bump(times, Members(Splitters(), refiner));
    }

    lemma TakeApart()
      requires Valid()
      ensures Fixed() && ListsValid() && rp.Valid() && |p2s| == |rp.bounds| && Blocks() == rp.Blocks()
      ensures rp.partitions != splitters.part && rp.move != splitters.part
    {
    }

    lemma PutTogether()
      requires Fixed() && ListsValid() && rp.Valid() && |p2s| == |rp.bounds|
      ensures Valid() && Blocks() == rp.Blocks() && Splitters() == Assign(Blocks(), p2s)
    {
    }

    lemma FirstWaiting()
      requires Valid() && waiting != []
      ensures waiting[0] in splitters.chains && |splitters.chains[waiting[0]]| > 1
      ensures |Blocks()| == |Splitters()| == A.states && forall s :: 0 <= s < |Blocks()| ==> Blocks()[s] < |p2s|
      ensures Splitters() == Assign(Blocks(), p2s)
    {
      assert waiting[0] in waiting;
    }

    /** Gives the block of the second node of the first waiting list a list of its own. */
    method DetachSecond(head: nat, node: nat) returns (refiner: nat)
      requires Fixed() && ListsValid() && waiting != [] && head == waiting[0] && head in splitters.chains && |splitters.chains[head]| > 1
      requires node == splitters.chains[head][1] < splitters.part.Length
      modifies this`waiting, this`p2s, splitters, splitters.part, splitters.next
      ensures ListsValid() && head in splitters.chains
      ensures refiner !in old(splitters.chains) && splitters.chains.Keys == old(splitters.chains.Keys) + {refiner}
      ensures refiner !in old(p2s)
      ensures old(splitters.part[node]) < |old(p2s)| && p2s == old(p2s)[old(splitters.part[node]) := refiner]
    {
      ghost var chains, data := splitters.chains, splitters.part[..];
      assert On(chains, head, node);
      var refinerPart := splitters.part[node];
      splitters.EraseAfter(head, head, 0);
      refiner := splitters.Create(refinerPart);
      SplitOffSecond(chains, data, p2s, head, refiner);
      QueueAfterSplitOff(waiting, chains, refiner);
      p2s := p2s[refinerPart := refiner];
      assert splitters.chains[head][0] == head && Follows(splitters.next[..], splitters.chains[head], 0);
      if splitters.next[head] == End {
        waiting := waiting[1..];
      }
    }

    /** Exchanges the first two blocks of a compound list if the first is the smaller; returns the second node. */
    method OrderFirstTwo(head: nat) returns (node: nat)
      requires Valid() && head in splitters.chains && |splitters.chains[head]| > 1
      modifies splitters.part
      ensures Valid() && node == splitters.chains[head][1] && node < splitters.part.Length && head < splitters.part.Length
      ensures Blocks() == old(Blocks())
      ensures On(splitters.chains, head, head) && On(splitters.chains, head, node)
      ensures var b, c := splitters.part[node], splitters.part[head];
              b < |p2s| && c < |p2s| && b != c && p2s[b] == p2s[c] == head && |Members(Blocks(), b)| <= |Members(Blocks(), c)|
    {
      FirstTwo(head);
      hide SplittersOk, ListsOk, WaitingOk, RepOk, Listed, Members, On;
      node := splitters.next[head].offset;
      ghost var data := splitters.part[..];
      if rp.Size(splitters.part[head]) < rp.Size(splitters.part[node]) {
        SwapFirstTwo(splitters.chains, data, p2s, head);
        splitters.part[head], splitters.part[node] := splitters.part[node], splitters.part[head];
        assert splitters.part[..] == data[head := data[node]][node := data[head]];
      }
    }

    /** The first two nodes of a list hold different blocks, whose bounds give their sizes. */
    lemma FirstTwo(head: nat)
      requires Valid() && head in splitters.chains && |splitters.chains[head]| > 1
      ensures head < splitters.next.Length == splitters.part.Length && splitters.chains[head][0] == head && splitters.next[head].To?
      ensures var node := splitters.next[head].offset;
              && node == splitters.chains[head][1] && node < splitters.part.Length && head != node
              && On(splitters.chains, head, head) && On(splitters.chains, head, node)
              && var b, c := splitters.part[node], splitters.part[head];
                 && b < |p2s| && c < |p2s| && b != c && p2s[b] == p2s[c] == head && SizeIs(b) && SizeIs(c)
    {
      var chain, data := splitters.chains[head], splitters.part[..];
      assert chain[0] == head && Follows(splitters.next[..], chain, 0);
      assert On(splitters.chains, head, head) && On(splitters.chains, head, chain[1]);
      assert data[head] != data[chain[1]];
      BlockSize(rp.n, rp.partitions[..], rp.stateToPartition[..], rp.bounds, data[head]);
      BlockSize(rp.n, rp.partitions[..], rp.stateToPartition[..], rp.bounds, data[chain[1]]);
    }

    ghost predicate SizeIs(b: nat)
      reads rp, rp.stateToPartition
    {
      b < |rp.bounds| && rp.bounds[b].0 <= rp.bounds[b].1 && |Members(Blocks(), b)| == rp.Size(b)
    }

    /** The states of every block on a splitter's list. */
    method SplitterStates(head: nat) returns (targets: seq<nat>)
      requires Valid() && head in splitters.chains
      ensures Distinct(targets) && Elems(targets) == Members(Splitters(), head)
    {
      ghost var chain, data, blk := splitters.chains[head], splitters.part[..], Blocks();
      targets := [];
      ghost var done: set<nat> := {};
      ghost var j := 0;
      var offset := To(head);
      while offset != End
        invariant j <= |chain| && offset == LinkAt(chain, j)
        invariant forall x :: x in done <==> exists i :: 0 <= i < j && data[chain[i]] == x
        invariant Distinct(targets) && forall t: nat :: t in targets <==> t < |blk| && blk[t] in done
        decreases |chain| - j
      {
        assert Follows(splitters.next[..], chain, j) && On(splitters.chains, head, chain[j]);
        var part := splitters.part[offset.offset];
        assert part !in done by {
          assert forall i :: 0 <= i < j ==> On(splitters.chains, head, chain[i]) && chain[i] != chain[j];
        }
        RunIsBlock(rp.n, rp.partitions[..], rp.stateToPartition[..], rp.bounds, part);
        var run := rp.partitions[rp.bounds[part].0..rp.bounds[part].1];
        assert run == rp.partitions[..][rp.bounds[part].0..rp.bounds[part].1];
        assert forall t :: t in run <==> t in Elems(run);
        DistinctConcat(targets, run);
        targets := targets + run;
        done := done + {part};
        offset := splitters.next[offset.offset];
        j := j + 1;
      }
      ListHoldsSplitter(chain, data, done, head);
    }

    lemma ListHoldsSplitter(chain: seq<nat>, data: seq<nat>, done: set<nat>, head: nat)
      requires Valid() && head in splitters.chains && chain == splitters.chains[head] && data == splitters.part[..]
      requires forall i :: 0 <= i < |chain| ==> chain[i] < |data|
      requires forall x :: x in done <==> exists i :: 0 <= i < |chain| && data[chain[i]] == x
      ensures forall t :: 0 <= t < |Blocks()| ==> (Blocks()[t] in done <==> Splitters()[t] == head)
    {
      forall t | 0 <= t < |Blocks()| ensures Blocks()[t] in done <==> Splitters()[t] == head {
        var b := Blocks()[t];
        if b in done {
          var i :| 0 <= i < |chain| && data[chain[i]] == b;
          assert On(splitters.chains, head, chain[i]);
        }
        if p2s[b] == head {
          assert Holds(chain, data, b);
          var x :| x in chain && x < |data| && data[x] == b;
          var i :| 0 <= i < |chain| && chain[i] == x;
          assert data[chain[i]] == b;
        }
      }
    }

    /** Counts, for every state, its successors in the refiner, and marks the states that have any. */
    method Collect(refiner: nat, symbol: nat)
      requires Valid() && refiner in splitters.chains && symbol < A.symbols && rp.marked == {}
      modifies this`counts, this`moveMarks, rp`moveSize, rp`suspects, rp`marked, rp.move
      ensures Valid() && rp.SuspectsOk() && rp.marked == Preimage(A, Splitters(), refiner, symbol)
      ensures Added(old(counts), counts, refiner, symbol, A, Members(Splitters(), refiner))
      ensures old(NoZeros(counts)) ==> NoZeros(counts)
    {
      ghost var now := Splitters();
      var targets := SplitterStates(refiner);
      moveMarks := {};
      rp.ClearSuspects();
      var i := 0;
      assert |now| == A.states && A.Valid();
      NothingCounted(A, counts, refiner, symbol, targets);
      PutTogether();
      assert CountedUpTo(counts, refiner, symbol, targets, 0);
      while i < |targets|
        invariant i <= |targets| && CountedUpTo(old(counts), refiner, symbol, targets, i) && Splitters() == now
        invariant old(NoZeros(counts)) ==> NoZeros(counts)
      {
        CountTarget(refiner, symbol, targets, i, old(counts));
        i := i + 1;
      }
      assert targets[..i] == targets;
      PointsIntoIsPreimage(A, now, refiner, symbol, targets, rp.marked);
    }

    /** The counts and marks once the first `i` targets have been handled. */
    ghost predicate CountedUpTo(start: Counts, refiner: nat, symbol: nat, targets: seq<nat>, i: nat)
      reads this, splitters, splitters.part, splitters.next, rp, rp.partitions, rp.stateToPartition, rp.move
    {
      && i <= |targets| && Valid() && rp.SuspectsOk() && moveMarks == rp.marked
      && Added(start, counts, refiner, symbol, A, Elems(targets[..i]))
      && forall s :: s in moveMarks <==> PointsInto(A, s, symbol, targets[..i])
    }

    method CountTarget(refiner: nat, symbol: nat, targets: seq<nat>, i: nat, ghost start: Counts)
      requires Valid() && symbol < A.symbols && Distinct(targets) && Elems(targets) == Members(Splitters(), refiner) && i < |targets|
      requires CountedUpTo(start, refiner, symbol, targets, i)
      modifies this`counts, this`moveMarks, rp`moveSize, rp`suspects, rp`marked, rp.move
      ensures CountedUpTo(start, refiner, symbol, targets, i + 1) && Valid() && Splitters() == old(Splitters())
      ensures old(NoZeros(counts)) ==> NoZeros(counts)
    {
      ghost var middle := counts;
      SourcesReach(refiner, symbol, targets, i);
      var sources := index.Step(targets[i], symbol);
      TargetSources(A, targets, i, symbol, sources);
      hide RepOk, Listed, SplittersOk, WaitingOk, ListsOk, Added, PointsInto, Distinct;
      CountSources(refiner, symbol, sources);
      AddTarget(A, start, middle, counts, refiner, symbol, Elems(targets[..i]), targets[i], sources);
    }

    method CountSource(refiner: nat, symbol: nat, source: nat)
      requires rp.Valid() && rp.SuspectsOk() && moveMarks == rp.marked && source < rp.n
      modifies this`counts, this`moveMarks, rp`moveSize, rp`suspects, rp`marked, rp.move
      ensures rp.Valid() && rp.SuspectsOk() && moveMarks == rp.marked == old(rp.marked) + {source}
      ensures counts == old(counts)[(refiner, symbol, source) := Stored(old(counts), refiner, symbol, source) + 1]
    {
      counts := counts[(refiner, symbol, source) := Stored(counts, refiner, symbol, source) + 1];
      hide RepOk, Listed, Stored;
      if source !in moveMarks {
        moveMarks := moveMarks + {source};
        rp.Mark(source);
      } else {
        assert rp.marked == rp.marked + {source};
      }
    }

    method CountSources(refiner: nat, symbol: nat, sources: seq<nat>)
      requires rp.Valid() && rp.SuspectsOk() && moveMarks == rp.marked
      requires Distinct(sources) && forall s :: s in sources ==> s < rp.n
      modifies this`counts, this`moveMarks, rp`moveSize, rp`suspects, rp`marked, rp.move
      ensures rp.Valid() && rp.SuspectsOk() && moveMarks == rp.marked == old(rp.marked) + Elems(sources)
      ensures Bumped(old(counts), counts, refiner, symbol, sources)
      ensures old(NoZeros(counts)) ==> NoZeros(counts)
    {
      var j := 0;
      while j < |sources|
        invariant j <= |sources| && rp.Valid() && rp.SuspectsOk() && moveMarks == rp.marked == old(rp.marked) + Elems(sources[..j])
        invariant Bumped(old(counts), counts, refiner, symbol, sources[..j])
        invariant old(NoZeros(counts)) ==> NoZeros(counts)
      {
        var source := sources[j];
        assert source in sources && source !in sources[..j];
        BumpOne(old(counts), counts, refiner, symbol, sources[..j], source);
        CountSource(refiner, symbol, source);
        assert sources[..j + 1] == sources[..j] + [source];
        j := j + 1;
      }
      assert sources[..j] == sources;
    }

    /**
     Takes the refiner's counts off the remainder's, and marks the states that have successors in the
     refiner but none left in the remainder.
     */
    method CollectRemainder(refiner: nat, remainder: nat, symbol: nat, ghost was: seq<nat>)
      requires Valid() && refiner in splitters.chains && remainder in splitters.chains && symbol < A.symbols && rp.marked == {}
      requires ReadyToSubtract(A, was, Splitters(), counts, remainder, refiner, symbol)
      modifies this`counts, this`moveMarks, rp`moveSize, rp`suspects, rp`marked, rp.move
      ensures Valid() && rp.SuspectsOk() && rp.marked == OnlyInto(A, Splitters(), refiner, remainder, symbol)
      ensures Subtracted(A, old(counts), counts, Splitters(), remainder, symbol, Preimage(A, Splitters(), refiner, symbol))
      ensures old(NoZeros(counts)) ==> NoZeros(counts)
    {
      ghost var now := Splitters();
      var targets := SplitterStates(refiner);
      moveMarks := {};
      rp.ClearSuspects();
      var i := 0;
      assert |now| == A.states && A.Valid();
      NothingCounted(A, counts, refiner, symbol, targets);
      NothingSubtracted(A, counts, now, remainder, symbol);
      PutTogether();
      hide *;
      while i < |targets|
        invariant i <= |targets| && Valid() && rp.SuspectsOk()
        invariant Subtracted(A, old(counts), counts, now, remainder, symbol, moveMarks)
        invariant LeftOver(A, now, remainder, symbol, moveMarks, rp.marked)
        invariant forall s :: s in moveMarks <==> PointsInto(A, s, symbol, targets[..i])
        invariant old(NoZeros(counts)) ==> NoZeros(counts)
      {
        SourcesReach(refiner, symbol, targets, i);
        TakeApart();
        var sources := index.Step(targets[i], symbol);
        TargetSources(A, targets, i, symbol, sources);
        SubtractSources(refiner, remainder, symbol, sources, was, now, old(counts));
        ElemsMembers(sources);
        PutTogether();
        i := i + 1;
      }
      assert targets[..i] == targets;
      PointsIntoIsPreimage(A, now, refiner, symbol, targets, moveMarks);
      LeftOverIsOnlyInto(A, now, refiner, remainder, symbol, rp.marked);
    }

    /** The listed predecessors of a state of the refiner reach the refiner. */
    lemma SourcesReach(refiner: nat, symbol: nat, targets: seq<nat>, i: nat)
      requires Valid() && symbol < A.symbols && Elems(targets) == Members(Splitters(), refiner) && i < |targets|
      ensures index.HasRun(targets[i], symbol) && Distinct(index.Step(targets[i], symbol))
      ensures forall s :: s in index.Step(targets[i], symbol) <==> A.Has(s, symbol, targets[i])
      ensures forall s :: s in index.Step(targets[i], symbol) ==> s < rp.n && Reaches(A, Splitters(), s, symbol, refiner)
    {
      assert targets[i] in Elems(targets);
      forall s: nat | A.Has(s, symbol, targets[i]) ensures s < rp.n {
        assert Edge(s, symbol, targets[i]) in A.trans;
      }
    }

    method SubtractSources(refiner: nat, remainder: nat, symbol: nat, sources: seq<nat>, ghost was: seq<nat>, ghost now: seq<nat>, ghost start: Counts)
      requires rp.Valid() && rp.SuspectsOk()
      requires ReadyToSubtract(A, was, now, start, remainder, refiner, symbol)
      requires Subtracted(A, start, counts, now, remainder, symbol, moveMarks)
      requires LeftOver(A, now, remainder, symbol, moveMarks, rp.marked)
      requires forall s :: s in sources ==> s < rp.n && Reaches(A, now, s, symbol, refiner)
      modifies this`counts, this`moveMarks, rp`moveSize, rp`suspects, rp`marked, rp.move
      ensures rp.Valid() && rp.SuspectsOk() && moveMarks == old(moveMarks) + Elems(sources)
      ensures Subtracted(A, start, counts, now, remainder, symbol, moveMarks)
      ensures LeftOver(A, now, remainder, symbol, moveMarks, rp.marked)
      ensures old(NoZeros(counts)) ==> NoZeros(counts)
    {
      var j := 0;
      while j < |sources|
        invariant j <= |sources| && rp.Valid() && rp.SuspectsOk() && moveMarks == old(moveMarks) + Elems(sources[..j])
        invariant Subtracted(A, start, counts, now, remainder, symbol, moveMarks)
        invariant LeftOver(A, now, remainder, symbol, moveMarks, rp.marked)
        invariant old(NoZeros(counts)) ==> NoZeros(counts)
      {
        assert sources[j] in sources;
        SubtractSource(refiner, remainder, symbol, sources[j], was, now, start);
        assert sources[..j + 1] == sources[..j] + [sources[j]];
        j := j + 1;
      }
      assert sources[..j] == sources;
    }

    method SubtractSource(refiner: nat, remainder: nat, symbol: nat, source: nat, ghost was: seq<nat>, ghost now: seq<nat>, ghost start: Counts)
      requires rp.Valid() && rp.SuspectsOk() && source < rp.n && Reaches(A, now, source, symbol, refiner)
      requires ReadyToSubtract(A, was, now, start, remainder, refiner, symbol)
      requires Subtracted(A, start, counts, now, remainder, symbol, moveMarks)
      requires LeftOver(A, now, remainder, symbol, moveMarks, rp.marked)
      modifies this`counts, this`moveMarks, rp`moveSize, rp`suspects, rp`marked, rp.move
      ensures rp.Valid() && rp.SuspectsOk() && moveMarks == old(moveMarks) + {source}
      ensures Subtracted(A, start, counts, now, remainder, symbol, moveMarks)
      ensures LeftOver(A, now, remainder, symbol, moveMarks, rp.marked)
      ensures old(NoZeros(counts)) ==> NoZeros(counts)
    {
      if source in moveMarks {
        assert moveMarks == moveMarks + {source};
        return;
      }
      SubtractOne(A, was, now, start, counts, remainder, refiner, symbol, moveMarks, source);
      hide RepOk, Listed, Subtracted, ReadyToSubtract, Reaches;
      ghost var before := counts;
      moveMarks := moveMarks + {source};
      var left := counts[(remainder, symbol, source)] - Stored(counts, refiner, symbol, source);
      if left > 0 {
        counts := counts[(remainder, symbol, source) := left];
      } else {
        counts := counts - {(remainder, symbol, source)};
        rp.Mark(source);
      }
      SubtractedOne(A, start, before, now, remainder, symbol, old(moveMarks), source, counts);
    }

    /** Refines by the refiner and then by the remainder, on one symbol. */
    method ProcessSymbol(refiner: nat, remainder: nat, symbol: nat, ghost base: seq<nat>, ghost was: seq<nat>)
      requires Valid() && refiner in splitters.chains && remainder in splitters.chains && symbol < A.symbols && rp.marked == {}
      requires |base| == rp.n && KeepsStable(A, base, Blocks()) && NoZeros(counts)
      requires Cuts(was, Splitters(), remainder, refiner) && |was| == A.states
      requires StableFor(A, Blocks(), was, symbol) && Exact(A, was, counts, symbol)
      modifies this`waiting, this`p2s, this`counts, this`moveMarks, splitters, splitters.part, splitters.next, rp, rp.partitions, rp.stateToPartition, rp.move
      ensures Valid() && rp.marked == {} && NoZeros(counts)
      ensures Refines(Blocks(), old(Blocks())) && KeepsStable(A, base, Blocks())
      ensures Splitters() == old(Splitters()) && splitters.chains.Keys == old(splitters.chains.Keys)
      ensures StableFor(A, Blocks(), Splitters(), symbol) && Exact(A, Splitters(), counts, symbol)
      ensures forall b: nat, spl :: b != symbol && Exact(A, spl, old(counts), b) ==> Exact(A, spl, counts, b)
    {
      ghost var now, before := Splitters(), Blocks();
      assert Refines(before, now) && |now| == |base| == A.states && A.Valid();
      KeepsStableCoarser(A, base, before, now);
      hide *;
      Collect(refiner, symbol);
      ghost var middle := counts;
      AddedIsReady(A, was, now, old(counts), middle, remainder, refiner, symbol);
      PreimageIsRespected(A, base, now, refiner, symbol);
      Refine(base);
      ghost var half := Blocks();
      CollectRemainder(refiner, remainder, symbol, was);
      OnlyIntoIsRespected(A, base, now, refiner, remainder, symbol);
      Refine(base);
      CutPassesDown(Blocks(), half, Preimage(A, now, refiner, symbol));
      RefinesTransitive(Blocks(), half, before);
      ThreeWaySplit(A, before, Blocks(), was, now, remainder, refiner, symbol);
      CountsStayExact(A, was, now, old(counts), middle, counts, remainder, refiner, symbol);
      forall b: nat, spl | b != symbol && Exact(A, spl, old(counts), b) ensures Exact(A, spl, counts, b) {
        CountsElsewhere(A, spl, old(counts), middle, counts, now, remainder, refiner, symbol, b);
      }
    }

    /** Refines by the refiner and the remainder on every active symbol. */
    method ProcessSplitter(refiner: nat, remainder: nat, ghost base: seq<nat>, ghost was: seq<nat>)
      requires Valid() && refiner in splitters.chains && remainder in splitters.chains && rp.marked == {}
      requires |base| == rp.n && KeepsStable(A, base, Blocks()) && NoZeros(counts)
      requires Cuts(was, Splitters(), remainder, refiner) && |was| == A.states
      requires Settled(A, Blocks(), was, Splitters(), counts, {})
      modifies this`waiting, this`p2s, this`counts, this`moveMarks, splitters, splitters.part, splitters.next, rp, rp.partitions, rp.stateToPartition, rp.move
      ensures Valid() && rp.marked == {} && NoZeros(counts)
      ensures Refines(Blocks(), old(Blocks())) && KeepsStable(A, base, Blocks())
      ensures Splitters() == old(Splitters()) && splitters.chains.Keys == old(splitters.chains.Keys)
      ensures Settled(A, Blocks(), Splitters(), Splitters(), counts, {}) && times == old(times)
    {
      ghost var now := Splitters();
      assert |now| == |was| == |Blocks()| == A.states && Refines(Blocks(), Blocks()) && Fixed();
      assert Elems(active[..0]) == {} && active[..|active|] == active;
      var i := 0;
      hide *;
      while i < |active|
        invariant i <= |active| && Valid() && rp.marked == {} && NoZeros(counts)
        invariant Refines(Blocks(), old(Blocks())) && KeepsStable(A, base, Blocks())
        invariant Splitters() == now && splitters.chains.Keys == old(splitters.chains.Keys)
        invariant Settled(A, Blocks(), was, now, counts, Elems(active[..i]))
      {
        ghost var blk, before, done := Blocks(), counts, Elems(active[..i]);
        var a := active[i];
        NextActive(i);
        SettledAt(A, blk, was, now, counts, done, a);
        ProcessSymbol(refiner, remainder, a, base, was);
        SettleOne(A, blk, Blocks(), was, now, before, counts, done, a);
        RefinesTransitive(Blocks(), blk, old(Blocks()));
        i := i + 1;
      }
      AllActive();
      SettleRest(A, Blocks(), was, now, counts, Elems(active));
    }

    lemma NextActive(i: nat)
      requires Fixed() && i < |active|
      ensures active[i] < A.symbols && active[i] !in Elems(active[..i])
      ensures Elems(active[..i + 1]) == Elems(active[..i]) + {active[i]}
    {
      assert active[i] in active;
      assert active[..i + 1] == active[..i] + [active[i]];
    }

    lemma AllActive()
      requires Valid()
      ensures active[..|active|] == active && forall e :: e in A.trans ==> e.symbol in Elems(active)
      ensures |Blocks()| == A.states
    {
    }

    /**
     Refines until every splitter is one block.  The result is the coarsest stable partition; the
     counts stay exact throughout; and no state has been in a refiner more than log2(n) times.
     */
    method CoreLoop()
      requires Valid() && rp.marked == {} && NoZeros(counts) && Uniform(A, Blocks())
      requires Settled(A, Blocks(), Splitters(), Splitters(), counts, {}) && Halved(Splitters(), times)
      modifies this, splitters, splitters.part, splitters.next, rp, rp.partitions, rp.stateToPartition, rp.move
      ensures Valid() && rp.marked == {} && CoarsestStable(A, old(Blocks()), Blocks())
      ensures forall a: nat :: a < A.symbols ==> Exact(A, Splitters(), counts, a)
      ensures |times| == A.states && forall s :: 0 <= s < A.states ==> Pow2(times[s]) <= A.states
    {
      ghost var base := Blocks();
      Start();
      hide *;
      while waiting != []
        invariant Progress(base)
        decreases rp.n - |splitters.chains.Keys|
      {
        RefineOnce(base);
      }
      Conclude(base);
    }

    /** What every turn of the loop keeps, for a run that began with the partition `base`. */
    ghost predicate Progress(base: seq<nat>)
      reads this, splitters, splitters.part, splitters.next, rp, rp.partitions, rp.stateToPartition, rp.move
    {
      && Valid() && rp.marked == {} && NoZeros(counts)
      && Refines(Blocks(), base) && KeepsStable(A, base, Blocks())
      && Settled(A, Blocks(), Splitters(), Splitters(), counts, {}) && Halved(Splitters(), times)
    }

    /** One turn of the loop, which makes one more splitter. */
    method RefineOnce(ghost base: seq<nat>)
      requires Progress(base) && waiting != []
      modifies this, splitters, splitters.part, splitters.next, rp, rp.partitions, rp.stateToPartition, rp.move
      ensures Progress(base) && |old(splitters.chains.Keys)| < |splitters.chains.Keys| <= rp.n
    {
      ghost var was, blk := Splitters(), Blocks();
      assert |was| == |blk| == |base| == A.states;
      hide RepOk, Listed, SplittersOk, WaitingOk, ListsOk, Settled, Halved, Cuts, Refines, KeepsStable;
      var refiner, remainder := Select();
      HeadsFit();
      SettleCut(A, blk, was, Splitters(), counts);
      ProcessSplitter(refiner, remainder, base, was);
      RefinesTransitive(Blocks(), blk, base);
    }

    lemma Start()
      requires Valid()
      requires rp.marked == {} && NoZeros(counts)
      requires Settled(A, Blocks(), Splitters(), Splitters(), counts, {}) && Halved(Splitters(), times)
      ensures Progress(Blocks())
    {
    }

    lemma Conclude(base: seq<nat>)
      requires Progress(base) && waiting == []
      ensures Valid() && rp.marked == {} && CoarsestStable(A, base, Blocks())
      ensures forall a: nat :: a < A.symbols ==> Exact(A, Splitters(), counts, a)
      ensures |times| == A.states && forall s :: 0 <= s < A.states ==> Pow2(times[s]) <= A.states
    {
      ListsAreSingle();
      AllActive();
      assert |Splitters()| == A.states && A.Valid();
      hide RepOk, Listed, SplittersOk, WaitingOk, ListsOk, StableFor, Exact;
      forall a: nat | a < A.symbols ensures StableFor(A, Blocks(), Splitters(), a) && Exact(A, Splitters(), counts, a) {
        SettledAt(A, Blocks(), Splitters(), Splitters(), counts, {}, a);
      }
      SingleSplittersMeanStable(A, Blocks(), Splitters());
      forall s: nat | s < A.states ensures Pow2(times[s]) <= A.states {
        ChosenAtMostLog(Splitters(), times, s);
      }
    }

    lemma HeadsFit()
      requires Valid()
      ensures |splitters.chains.Keys| <= rp.n
    {
      forall h | h in splitters.chains ensures h < rp.n {
        assert h in splitters.chains[h];
        assert InSomeList(splitters.chains, h);
      }
      BoundedSetSize(splitters.chains.Keys, rp.n);
    }

    /** With nothing waiting, blocks of one splitter are one block. */
    lemma ListsAreSingle()
      requires Valid() && waiting == []
      ensures Refines(Splitters(), Blocks())
    {
      var chains, data := splitters.chains, splitters.part[..];
      forall b, c | 0 <= b < |p2s| && 0 <= c < |p2s| && p2s[b] == p2s[c] ensures b == c {
        var chain := chains[p2s[b]];
        assert p2s[b] !in waiting;
        assert |chain| == 1;
        assert Holds(chain, data, b) && Holds(chain, data, c);
      }
    }
  }
}
