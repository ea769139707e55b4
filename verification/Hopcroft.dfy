/** Hopcroft's algorithm on a partial DFA: the worklist loop over the array partition. */
module Hopcroft {
  import opened Automata
  import opened SeqFacts
  import opened RefinablePartitions
  import opened InverseIndexes
  import opened PartitionRefinement
  import opened HopcroftTheory

  class HopcroftCore {
    ghost const A: Automaton
    const alphabet: nat
    const index: InverseIndex
    const rp: RefinablePartition
    var L: seq<(nat, nat)>
    var inL: set<(nat, nat)>

    constructor (ghost automaton: Automaton, symbols: nat, inverse: InverseIndex, partition: RefinablePartition)
      requires automaton.Valid() && automaton.Deterministic() && automaton.states == partition.n && automaton.symbols == symbols
      requires inverse.Inverts(automaton) && partition.Valid()
      ensures Valid() && A == automaton && alphabet == symbols && rp == partition && L == []
    {
      A := automaton;
      alphabet := symbols;
      index := inverse;
      rp := partition;
      L := [];
      inL := {};
    }

    ghost predicate ValidWaiting()
      reads this, rp
    {
      && Distinct(L) && Elems(L) == inL
      && forall x :: x in inL ==> x.0 < |rp.bounds| && x.1 < alphabet
    }

    ghost predicate Fixed() {
      && A.Valid() && A.Deterministic() && A.states == rp.n && A.symbols == alphabet && index.Inverts(A)
    }

    ghost predicate Valid()
      reads this, rp.Repr()
    {
      && Fixed() && ValidWaiting() && rp.Valid()
    }

    ghost function Blocks(): seq<nat>
      reads rp, rp.stateToPartition
    {
      rp.Blocks()
    }

    predicate Contains(part: nat, symbol: nat)
      reads this
    {
      (part, symbol) in inL
    }

    method Add(part: nat, symbol: nat)
      requires ValidWaiting() && part < |rp.bounds| && symbol < alphabet && !Contains(part, symbol)
      modifies this
      ensures ValidWaiting() && L == old(L) + [(part, symbol)] && inL == old(inL) + {(part, symbol)}
    {
      L := L + [(part, symbol)];
      inL := inL + {(part, symbol)};
    }

    method AddBetter(partA: nat, partB: nat, symbol: nat)
      requires ValidWaiting() && partA < |rp.bounds| && partB < |rp.bounds| && symbol < alphabet
      requires rp.bounds[partA].0 <= rp.bounds[partA].1 && rp.bounds[partB].0 <= rp.bounds[partB].1
      requires !Contains(partA, symbol) && !Contains(partB, symbol)
      modifies this
      ensures ValidWaiting()
      ensures inL == old(inL) + {(if rp.Size(partA) <= rp.Size(partB) then partA else partB, symbol)}
    {
      var part := if rp.Size(partA) <= rp.Size(partB) then partA else partB;
      Add(part, symbol);
    }

    method Remove() returns (pair: (nat, nat))
      requires ValidWaiting() && L != []
      modifies this
      ensures ValidWaiting() && pair in old(inL) && inL == old(inL) - {pair} && L == old(L)[1..]
    {
      pair := L[0];
      L := L[1..];
      inL := inL - {pair};
      assert old(L) == [pair] + L;
    }

    /** Marks the predecessors, on `symbol`, of block `part`. */
    method Collect(part: nat, symbol: nat)
      requires Valid() && part < |rp.bounds| && symbol < alphabet && rp.marked == {}
      modifies rp`moveSize, rp`suspects, rp`marked, rp.move
      ensures Valid() && rp.SuspectsOk()
      ensures rp.marked == Preimage(A, Blocks(), part, symbol)
    {
      rp.ClearSuspects();
      ghost var lo := rp.bounds[part].0;
      assert rp.bounds[part].1 <= rp.n;
      var i := rp.bounds[part].0;
      hide RepOk, Listed, PointsInto;
      NothingInto(A, symbol, rp.partitions[..], lo);
      while i < rp.bounds[part].1
        invariant lo <= i <= rp.bounds[part].1
        invariant Valid() && rp.SuspectsOk()
        invariant forall s :: s in rp.marked <==> PointsInto(A, s, symbol, rp.partitions[lo..i])
      {
        CollectTarget(lo, i, symbol);
        i := i + 1;
      }
      CollectedAll(A, rp.n, rp.partitions[..], rp.stateToPartition[..], rp.bounds, part, symbol, rp.marked);
    }

    /** Marks the predecessors of the state at place `i`. */
    method CollectTarget(ghost lo: nat, i: nat, symbol: nat)
      requires Valid() && rp.SuspectsOk() && lo <= i < rp.n && symbol < alphabet
      requires forall s :: s in rp.marked <==> PointsInto(A, s, symbol, rp.partitions[lo..i])
      modifies rp`moveSize, rp`suspects, rp`marked, rp.move
      ensures Valid() && rp.SuspectsOk()
      ensures forall s :: s in rp.marked <==> PointsInto(A, s, symbol, rp.partitions[lo..i + 1])
    {
      var target := rp.partitions[i];
      var sources := index.Step(target, symbol);
      ghost var seen := rp.partitions[lo..i];
      TargetIsNew(rp.n, rp.partitions[..], rp.stateToPartition[..], lo, i);
      SourcesAreNew(A, seen, target, symbol, sources);
      assert rp.partitions[lo..i + 1] == seen + [target];
      rp.MarkAll(sources);
    }

    /** Puts the two halves of a split block back to work, for every symbol. */
    method Requeue(part: nat, newPart: nat)
      requires ValidWaiting() && part < newPart < |rp.bounds|
      requires forall b :: 0 <= b < |rp.bounds| ==> rp.bounds[b].0 <= rp.bounds[b].1
      requires forall x :: x in inL ==> x.0 < newPart
      modifies this
      ensures ValidWaiting() && Requeued(old(inL), inL, part, newPart, alphabet)
    {
      var symbol := 0;
      while symbol < alphabet
        invariant symbol <= alphabet && ValidWaiting() && Requeued(old(inL), inL, part, newPart, symbol)
        invariant forall x :: x in inL && x.1 >= symbol ==> x in old(inL)
      {
        if Contains(part, symbol) {
          Add(newPart, symbol);
        } else {
          AddBetter(part, newPart, symbol);
        }
        symbol := symbol + 1;
      }
    }

    /** Splits a suspected block by its marks, unless all of it is marked. */
    method RefinePart(part: nat)
      requires Valid() && part < |rp.bounds| && rp.moveSize[part] > 0
      modifies this, rp`bounds, rp`moveSize, rp`marked, rp.partitions, rp.stateToPartition
      ensures Valid() && rp.marked == old(rp.marked) - Members(old(Blocks()), part)
      ensures forall b :: 0 <= b < |old(rp.bounds)| && b != part ==> b < |rp.moveSize| && rp.moveSize[b] == old(rp.moveSize)[b]
      ensures if Members(old(Blocks()), part) <= old(rp.marked)
              then Blocks() == old(Blocks()) && L == old(L) && inL == old(inL) && |rp.bounds| == |old(rp.bounds)|
              else && Blocks() == SplitOff(old(Blocks()), part, old(rp.marked), |old(rp.bounds)|)
                   && |rp.bounds| == |old(rp.bounds)| + 1
                   && Requeued(old(inL), inL, part, |old(rp.bounds)|, alphabet)
    {
      rp.FullyMarked(part);
      if rp.moveSize[part] < rp.Size(part) {
        var newPart := rp.Split(part);
        Requeue(part, newPart);
      }
      rp.Clear(part);
      assert rp.marked == old(rp.marked) - Members(old(Blocks()), part);
    }

    /** Splits every suspected block by its marks. */
    method Refine(ghost before: seq<nat>, ghost c: nat, ghost symbol: nat)
      requires Valid() && rp.SuspectsOk() && before == Blocks()
      requires rp.marked == Preimage(A, before, c, symbol)
      requires Pending(A, before, inL, rp.marked, symbol)
      modifies this, rp`bounds, rp`moveSize, rp`marked, rp.partitions, rp.stateToPartition
      ensures Valid() && rp.marked == {} && Pending(A, Blocks(), inL, {}, 0)
      ensures Refines(Blocks(), before) && KeepsStable(A, before, Blocks())
      ensures |old(rp.bounds)| < |rp.bounds| || (|old(rp.bounds)| == |rp.bounds| && L == old(L))
    {
      ghost var X := rp.marked;
      PreimageIsRespected(A, before, before, c, symbol);
      rp.SuspectsCoverMarks();
      SplittingStarts(A, before, before, X, rp.suspects, |rp.bounds|);
      var todo: seq<nat> := rp.suspects;
      while todo != []
        invariant Valid() && Distinct(todo)
        invariant SplittingBy(A, before, before, Blocks(), X, rp.marked, todo, |rp.bounds|)
        invariant Pending(A, Blocks(), inL, X, symbol)
        invariant forall b :: b in todo ==> b < |rp.moveSize| && rp.moveSize[b] > 0
        invariant |old(rp.bounds)| < |rp.bounds| || (|old(rp.bounds)| == |rp.bounds| && L == old(L))
        decreases |todo|
      {
        ghost var blk, waiting, marked, count := Blocks(), inL, rp.marked, |rp.bounds|;
        var part: nat, rest: seq<nat> := todo[0], todo[1..];
        assert todo == [part] + rest && part in todo && forall b :: b in rest ==> b in todo;
        RefinePart(part);
        SplittingStep(A, before, before, blk, X, marked, part, rest, count);
        if |rp.bounds| > count {
          SplitKeepsPending(A, blk, waiting, inL, X, symbol, part, marked, count);
        }
        todo := rest;
      }
      SplittingEnds(A, before, before, Blocks(), X, rp.marked, |rp.bounds|);
      UncutMeansIdle(A, Blocks(), inL, X, symbol);
    }

    /** Queues every block but the largest, with every symbol. */
    method InitializeWaitingSet()
      requires Valid() && L == [] && |rp.bounds| > 0
      modifies this
      ensures Valid() && Pending(A, Blocks(), inL, {}, 0)
    {
      var maxPartition, maxSize := 0, rp.Size(0);
      var p := 1;
      while p < |rp.bounds|
        invariant 1 <= p <= |rp.bounds| && maxPartition < p && maxSize == rp.Size(maxPartition)
        invariant forall b :: 0 <= b < p ==> rp.Size(b) <= maxSize
      {
        if rp.Size(p) > maxSize {
          maxPartition, maxSize := p, rp.Size(p);
        }
        p := p + 1;
      }
      var symbol := 0;
      while symbol < alphabet
        invariant symbol <= alphabet && ValidWaiting()
        invariant forall x: (nat, nat) :: x in inL <==> x.0 < |rp.bounds| && x.0 != maxPartition && x.1 < symbol
      {
        p := 0;
        while p < |rp.bounds|
          invariant p <= |rp.bounds| && ValidWaiting()
          invariant forall x: (nat, nat) :: x in inL <==>
            x.0 < |rp.bounds| && x.0 != maxPartition && (x.1 < symbol || (x.1 == symbol && x.0 < p))
        {
          if p != maxPartition {
            Add(p, symbol);
          }
          p := p + 1;
        }
        symbol := symbol + 1;
      }
      AllButOnePending(A, Blocks(), inL, maxPartition);
    }

    /** Runs the worklist dry, or until every block is a single state. */
    method CoreLoop()
      requires Valid() && L == [] && rp.marked == {} && |rp.bounds| > 0
      requires Uniform(A, Blocks())
      modifies this, rp.Repr()
      ensures Valid() && rp.marked == {} && CoarsestStable(A, old(Blocks()), Blocks())
    {
      ghost var initial := Blocks();
      InitializeWaitingSet();
      while L != []
        invariant Valid() && rp.marked == {} && Pending(A, Blocks(), inL, {}, 0)
        invariant Refines(Blocks(), initial) && KeepsStable(A, initial, Blocks())
        decreases rp.n - |rp.bounds|, |L|
      {
        BlocksFit();
        ghost var before, waiting := Blocks(), inL;
        var pair := Remove();
        PopLeavesPending(A, before, waiting, pair.0, pair.1);
        Collect(pair.0, pair.1);
        Refine(before, pair.0, pair.1);
        KeepsStableChains(A, initial, before, Blocks());
        BlocksFit();
        if |rp.bounds| == rp.n {
          BlocksFit();
          SingletonsAreStable(A, Blocks());
          return;
        }
      }
      assert inL == {};
      UniformPassesDown(A, initial, Blocks());
      IdleMeansStable(A, Blocks());
    }

    /** There are at most as many blocks as states, and if there are as many, each block is one state. */
    lemma BlocksFit()
      requires rp.ValidArrays()
      ensures |rp.bounds| <= rp.n
      ensures |rp.bounds| == rp.n ==> forall p, q :: 0 <= p < q < rp.n ==> Blocks()[p] != Blocks()[q]
    {
      BlockCount(rp.n, rp.partitions[..], rp.stateToPartition[..], rp.bounds);
    }
  }

  lemma TargetIsNew(n: nat, parts: seq<nat>, s2p: seq<(nat, nat)>, lo: nat, i: nat)
    requires |parts| == |s2p| == n && Inverse(n, parts, s2p) && lo <= i < n
    ensures parts[i] !in parts[lo..i]
  {
    assert forall j :: lo <= j < i ==> s2p[parts[j]].1 == j;
  }

  /** In a DFA no source steps to two targets, so no source is marked twice. */
  lemma SourcesAreNew(A: Automaton, seen: seq<nat>, target: nat, a: nat, sources: seq<nat>)
    requires A.Valid() && A.Deterministic() && target !in seen
    requires forall s :: s in sources <==> A.Has(s, a, target)
    ensures forall s :: s in sources ==> s < A.states && !PointsInto(A, s, a, seen)
    ensures forall s :: PointsInto(A, s, a, seen + [target]) <==> PointsInto(A, s, a, seen) || s in sources
  {
    forall s | s in sources ensures s < A.states && !PointsInto(A, s, a, seen) {
      assert Edge(s, a, target) in A.trans;
      forall t | t in seen ensures !A.Has(s, a, t) {
        assert t != target;
      }
    }
    forall s ensures PointsInto(A, s, a, seen + [target]) <==> PointsInto(A, s, a, seen) || s in sources {
      assert target in seen + [target];
      assert forall t :: t in seen ==> t in seen + [target];
    }
  }

  lemma NothingInto(A: Automaton, a: nat, parts: seq<nat>, lo: nat)
    requires lo <= |parts|
    ensures forall s :: !PointsInto(A, s, a, parts[lo..lo])
  {
  }

  lemma CollectedAll(A: Automaton, n: nat, parts: seq<nat>, s2p: seq<(nat, nat)>, bounds: seq<(nat, nat)>, part: nat, a: nat, marked: set<nat>)
    requires A.Valid() && RepOk(n, parts, s2p, bounds) && A.states == n && part < |bounds|
    requires forall s :: s in marked <==> PointsInto(A, s, a, parts[bounds[part].0..bounds[part].1])
    ensures marked == Preimage(A, Numbers(s2p), part, a)
  {
    var blk := Numbers(s2p);
    var run := parts[bounds[part].0..bounds[part].1];
    assert forall t :: t in run <==> 0 <= t < n && blk[t] == part by {
      forall t | 0 <= t < n && blk[t] == part ensures t in run {
        assert run[s2p[t].1 - bounds[part].0] == t;
      }
    }
    forall s: nat ensures s in marked <==> s in Preimage(A, blk, part, a) {
      if s in marked {
        var t :| t in run && A.Has(s, a, t);
        assert Edge(s, a, t) in A.trans;
      }
    }
  }
}
