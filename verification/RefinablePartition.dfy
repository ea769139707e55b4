// The array representation of a partition of the states [0, n) that both minimizers keep: `partitions` lists
// the states block by block, `bounds` says where each block starts and ends in it, and `stateToPartition`
// gives each state's block and position. States waiting to be split off are recorded, block by block, in
// `move`, `moveSize` and `suspects`.
module RefinablePartitions {
  import opened SeqFacts

  /** The three arrays describe one partition of [0, n) into non-empty blocks. */
  ghost predicate RepOk(n: nat, parts: seq<nat>, s2p: seq<(nat, nat)>, bounds: seq<(nat, nat)>) {
    && |parts| == n && |s2p| == n
    && (forall b :: 0 <= b < |bounds| ==> bounds[b].0 < bounds[b].1 <= n)
    && Inverse(n, parts, s2p)
    && (forall s :: 0 <= s < n ==>
          s2p[s].0 < |bounds| && bounds[s2p[s].0].0 <= s2p[s].1 < bounds[s2p[s].0].1)
    && (forall b, i :: 0 <= b < |bounds| && bounds[b].0 <= i < bounds[b].1 ==> s2p[parts[i]].0 == b)
  }

  /** `parts` is a permutation of [0, n) and the second components of `s2p` invert it. */
  ghost predicate Inverse(n: nat, parts: seq<nat>, s2p: seq<(nat, nat)>)
    requires |parts| == n && |s2p| == n
  {
    && (forall i :: 0 <= i < n ==> parts[i] < n && s2p[parts[i]].1 == i)
    && (forall s :: 0 <= s < n ==> s2p[s].1 < n && parts[s2p[s].1] == s)
  }

  /** The block number of every state: the partition as a value. */
  ghost function Numbers(s2p: seq<(nat, nat)>): seq<nat> {
    seq(|s2p|, s requires 0 <= s < |s2p| => s2p[s].0)
  }

  ghost function Members(blk: seq<nat>, b: nat): set<nat> {
    set s | 0 <= s < |blk| && blk[s] == b
  }

  /** The value a split computes: the marked states of block `b` get number `fresh`. */
  ghost function SplitOff(blk: seq<nat>, b: nat, marked: set<nat>, newPart: nat): seq<nat> {
    seq(|blk|, s requires 0 <= s < |blk| => if blk[s] == b && s in marked then newPart else blk[s])
  }

  /** The run of places a block occupies lists its members, each once. */
  lemma {:induction false} RunIsBlock(n: nat, parts: seq<nat>, s2p: seq<(nat, nat)>, bounds: seq<(nat, nat)>, b: nat)
    requires RepOk(n, parts, s2p, bounds) && b < |bounds|
    ensures Distinct(parts[bounds[b].0..bounds[b].1])
    ensures Elems(parts[bounds[b].0..bounds[b].1]) == Members(Numbers(s2p), b)
  {
    var run := parts[bounds[b].0..bounds[b].1];
    forall i, j | 0 <= i < j < |run| ensures run[i] != run[j] {
      assert s2p[run[i]].1 == bounds[b].0 + i && s2p[run[j]].1 == bounds[b].0 + j;
    }
    forall s | s in Members(Numbers(s2p), b) ensures s in run {
      assert run[s2p[s].1 - bounds[b].0] == s;
    }
  }

  /** A block's bounds give its size. */
  lemma {:induction false} BlockSize(n: nat, parts: seq<nat>, s2p: seq<(nat, nat)>, bounds: seq<(nat, nat)>, b: nat)
    requires RepOk(n, parts, s2p, bounds) && b < |bounds|
    ensures |Members(Numbers(s2p), b)| == bounds[b].1 - bounds[b].0
  {
    RunIsBlock(n, parts, s2p, bounds, b);
    DistinctSize(parts[bounds[b].0..bounds[b].1]);
  }

  /** There are at most as many blocks as states; if there are as many, each block is one state. */
  lemma {:induction false} BlockCount(n: nat, parts: seq<nat>, s2p: seq<(nat, nat)>, bounds: seq<(nat, nat)>)
    requires RepOk(n, parts, s2p, bounds)
    ensures |bounds| <= n
    ensures |bounds| == n ==> forall p, q :: 0 <= p < q < n ==> s2p[p].0 != s2p[q].0
  {
    var firsts := seq(|bounds|, b requires 0 <= b < |bounds| => parts[bounds[b].0]);
    assert forall b :: 0 <= b < |bounds| ==> s2p[firsts[b]].0 == b;
    assert Distinct(firsts);
    DistinctSize(firsts);
    BoundedSetSize(Elems(firsts), n);
    if |bounds| == n {
      forall p: nat, q: nat | p < q < n ensures s2p[p].0 != s2p[q].0 {
        DistinctCovers(firsts, p);
        DistinctCovers(firsts, q);
      }
    }
  }

  /** `move[lo..lo+size]` lists the marked members of block `b`, each once. */
  ghost predicate Listed(move: seq<nat>, blk: seq<nat>, bound: (nat, nat), size: nat, b: nat, marked: set<nat>) {
    && bound.0 + size <= bound.1 <= |move|
    && Distinct(move[bound.0..bound.0 + size])
    && Elems(move[bound.0..bound.0 + size]) == Members(blk, b) * marked
  }

  /** The blocks are non-empty and every place below `n` is in exactly one. */
  ghost predicate Tiles(n: nat, bounds: seq<(nat, nat)>) {
    && (forall b :: 0 <= b < |bounds| ==> bounds[b].0 < bounds[b].1 <= n)
    && (forall i: nat :: i < n ==> Covered(bounds, i))
    && (forall b: nat, c: nat, i: nat :: InBlock(bounds, b, i) && InBlock(bounds, c, i) ==> b == c)
  }

  ghost predicate InBlock(bounds: seq<(nat, nat)>, b: nat, i: nat) {
    b < |bounds| && bounds[b].0 <= i < bounds[b].1
  }

  ghost predicate Covered(bounds: seq<(nat, nat)>, i: nat) {
    exists b :: InBlock(bounds, b, i)
  }

  lemma IndexedIsRepOk(parts: seq<nat>, s2p: seq<(nat, nat)>, bounds: seq<(nat, nat)>)
    requires IsPermutation(parts) && Tiles(|parts|, bounds) && |s2p| == |parts|
    requires forall b: nat, i: nat :: InBlock(bounds, b, i) ==> s2p[parts[i]] == (b, i)
    ensures RepOk(|parts|, parts, s2p, bounds)
  {
    forall s | 0 <= s < |parts|
      ensures s2p[s].1 < |parts| && parts[s2p[s].1] == s
      ensures s2p[s].0 < |bounds| && bounds[s2p[s].0].0 <= s2p[s].1 < bounds[s2p[s].0].1
    {
      DistinctCovers(parts, s);
      var i: nat :| i < |parts| && parts[i] == s;
      assert Covered(bounds, i);
      var b :| InBlock(bounds, b, i);
    }
    forall i: nat | i < |parts| ensures parts[i] < |parts| && s2p[parts[i]].1 == i {
      assert Covered(bounds, i);
      var b :| InBlock(bounds, b, i);
    }
    forall b, i | 0 <= b < |bounds| && bounds[b].0 <= i < bounds[b].1 ensures s2p[parts[i]].0 == b {
      assert InBlock(bounds, b, i);
    }
  }

  class RefinablePartition {
    const n: nat
    const partitions: array<nat>
    const stateToPartition: array<(nat, nat)>
    const move: array<nat>
    var bounds: seq<(nat, nat)>
    var moveSize: seq<nat>
    var suspects: seq<nat>
    ghost var marked: set<nat>

    /** Starts from the given arrangement of the states and the blocks it is cut into. */
    constructor (initial: seq<nat>, blocks: seq<(nat, nat)>)
      requires IsPermutation(initial) && Tiles(|initial|, blocks)
      ensures Valid() && n == |initial| && marked == {} && bounds == blocks
      ensures fresh(partitions) && fresh(stateToPartition) && fresh(move)
      ensures forall b: nat, i: nat :: InBlock(blocks, b, i) ==> Blocks()[initial[i]] == b
    {
      n := |initial|;
      partitions := new nat[|initial|](i requires 0 <= i < |initial| => initial[i]);
      stateToPartition := new (nat, nat)[|initial|](_ => (0, 0));
      move := new nat[|initial|](_ => 0);
      bounds := blocks;
      moveSize := seq(|blocks|, _ => 0);
      suspects := [];
      marked := {};
      new;
      assert partitions[..] == initial;
      InitializeStateToPartition();
      assert forall b :: 0 <= b < |bounds| ==> Members(Blocks(), b) * marked == {};
      assert forall b :: 0 <= b < |bounds| ==> move[..][bounds[b].0..bounds[b].0 + 0] == [];
    }

    method InitializeStateToPartition()
      requires partitions.Length == stateToPartition.Length == n
      requires IsPermutation(partitions[..]) && Tiles(n, bounds)
      modifies stateToPartition
      ensures RepOk(n, partitions[..], stateToPartition[..], bounds)
      ensures forall b: nat, i: nat :: InBlock(bounds, b, i) ==> stateToPartition[partitions[i]] == (b, i)
    {
      var p := 0;
      while p < |bounds|
        invariant p <= |bounds|
        invariant forall b: nat, i: nat :: InBlock(bounds, b, i) && b < p ==> stateToPartition[partitions[i]] == (b, i)
      {
        var i := bounds[p].0;
        while i < bounds[p].1
          invariant bounds[p].0 <= i <= bounds[p].1
          invariant forall b: nat, j: nat :: InBlock(bounds, b, j) && (b < p || (b == p && j < i)) ==> stateToPartition[partitions[j]] == (b, j)
        {
          assert InBlock(bounds, p, i);
          assert forall j :: 0 <= j < n && j != i ==> partitions[..][j] != partitions[..][i];
          stateToPartition[partitions[i]] := (p, i);
          i := i + 1;
        }
        p := p + 1;
      }
      IndexedIsRepOk(partitions[..], stateToPartition[..], bounds);
    }

    ghost predicate ValidArrays()
      reads this`bounds, this`moveSize, partitions, stateToPartition
    {
      && move.Length == n && partitions != move
      && |moveSize| == |bounds|
      && RepOk(n, partitions[..], stateToPartition[..], bounds)
    }

    ghost predicate MarksOk(b: nat)
      requires b < |bounds| && b < |moveSize|
      reads this`bounds, this`moveSize, this`marked, stateToPartition, move
    {
      Listed(move[..], Blocks(), bounds[b], moveSize[b], b, marked)
    }

    /** The representation is consistent and every block's marks are listed. */
    ghost predicate Valid()
      reads this`bounds, this`moveSize, this`marked, partitions, stateToPartition, move
    {
      && ValidArrays()
      && (forall s :: s in marked ==> s < n)
      && (forall b :: 0 <= b < |bounds| ==> MarksOk(b))
    }

    ghost function Blocks(): seq<nat>
      reads stateToPartition
    {
      Numbers(stateToPartition[..])
    }

    ghost function Repr(): set<object> {
      {this, partitions, stateToPartition, move}
    }

    function Size(b: nat): nat
      requires b < |bounds| && bounds[b].0 <= bounds[b].1
      reads this`bounds
    {
      bounds[b].1 - bounds[b].0
    }

    /** `suspects` lists the blocks that have marks, each once. */
    ghost predicate SuspectsOk()
      reads this`suspects, this`moveSize
    {
      SuspectList(suspects, moveSize)
    }

    /** Forgets the suspects of the last pass, which left no marks. */
    method ClearSuspects()
      requires Valid() && marked == {}
      modifies this`suspects
      ensures Valid() && SuspectsOk()
    {
      suspects := [];
      forall b | 0 <= b < |bounds| ensures moveSize[b] == 0 {
        UnmarkedMeansEmpty(b);
      }
    }

    /** Every marked state's block is a suspect. */
    lemma SuspectsCoverMarks()
      requires Valid() && SuspectsOk()
      ensures |Blocks()| == n && |moveSize| == |bounds| && forall s :: s in marked ==> s < n && Blocks()[s] in suspects
      ensures Distinct(suspects) && forall b :: b in suspects ==> b < |moveSize| && moveSize[b] > 0
      ensures forall s :: 0 <= s < n ==> Blocks()[s] < |bounds|
    {
      forall s | s in marked ensures Blocks()[s] in suspects {
        FullyMarked(Blocks()[s]);
        assert s in Members(Blocks(), Blocks()[s]) * marked;
      }
    }

    /** Records that `source` is to be split off its block. */
    method Mark(source: nat)
      requires Valid() && source < n && source !in marked
      modifies this`moveSize, this`suspects, this`marked, move
      ensures Valid() && marked == old(marked) + {source}
      ensures old(SuspectsOk()) ==> SuspectsOk()
      ensures suspects == if old(moveSize)[Blocks()[source]] == 0 then old(suspects) + [Blocks()[source]] else old(suspects)
      ensures moveSize == old(moveSize)[Blocks()[source] := old(moveSize)[Blocks()[source]] + 1]
    {
      hide *;
      var b := BlockOf(source);
      RoomToMark(b, source);
      assert moveSize[b] < bounds[b].1 - bounds[b].0;
      MarksAre();
      MarkKeepsAll(n, partitions[..], stateToPartition[..], bounds, move[..], moveSize, marked, b, source);
      if SuspectsOk() {
        SuspectsGrow(b);
      }
      Note(b, source);
      MarksFrom();
      SuspectsFrom();
    }

    /** The block of a state. */
    method BlockOf(source: nat) returns (b: nat)
      requires Valid() && source < n
      ensures ValidArrays() && RepOk(n, partitions[..], stateToPartition[..], bounds) && forall s :: s in marked ==> s < n
      ensures Blocks() == Numbers(stateToPartition[..]) && |Blocks()| == |stateToPartition[..]| == n
      ensures b == Blocks()[source] == stateToPartition[..][source].0 && b < |bounds| == |moveSize| && bounds[b].0 <= bounds[b].1 <= n == move.Length && partitions != move
    {
      b := stateToPartition[source].0;
    }

    /** Writes the state behind the listed members of its block. */
    method Note(b: nat, source: nat)
      requires b < |bounds| == |moveSize| && bounds[b].0 + moveSize[b] < move.Length
      modifies this`moveSize, this`suspects, this`marked, move
      ensures move[..] == old(move[..])[bounds[b].0 + old(moveSize)[b] := source]
      ensures moveSize == old(moveSize)[b := old(moveSize)[b] + 1] && marked == old(marked) + {source}
      ensures suspects == if old(moveSize)[b] == 0 then old(suspects) + [b] else old(suspects)
    {
      if moveSize[b] == 0 {
        suspects := suspects + [b];
      }
      move[bounds[b].0 + moveSize[b]] := source;
      moveSize := moveSize[b := moveSize[b] + 1];
      marked := marked + {source};
    }

    lemma SuspectsGrow(b: nat)
      requires SuspectsOk() && b < |moveSize|
      ensures SuspectList(if moveSize[b] == 0 then suspects + [b] else suspects, moveSize[b := moveSize[b] + 1])
    {
      OneMoreSuspect(suspects, moveSize, b);
    }

    lemma SuspectsFrom()
      ensures SuspectList(suspects, moveSize) ==> SuspectsOk()
    {
    }

    lemma MarksAre()
      requires Valid()
      ensures AllListed(move[..], Blocks(), bounds, moveSize, marked)
    {
      hide Listed, RepOk;
      forall c | 0 <= c < |bounds| ensures Listed(move[..], Blocks(), bounds[c], moveSize[c], c, marked) {
        assert MarksOk(c);
      }
    }

    lemma MarksFrom()
      requires RepOk(n, partitions[..], stateToPartition[..], bounds) && |moveSize| == |bounds| && move.Length == n && partitions != move
      requires AllListed(move[..], Numbers(stateToPartition[..]), bounds, moveSize, marked) && forall s :: s in marked ==> s < n
      ensures Valid()
    {
      hide Listed, RepOk;
    }

    method MarkAll(sources: seq<nat>)
      requires Valid() && SuspectsOk() && Distinct(sources)
      requires forall s :: s in sources ==> s < n && s !in marked
      modifies this`moveSize, this`suspects, this`marked, move
      ensures Valid() && SuspectsOk() && marked == old(marked) + Elems(sources)
    {
      var j := 0;
      while j < |sources|
        invariant j <= |sources|
        invariant Valid() && SuspectsOk() && marked == old(marked) + Elems(sources[..j])
      {
        assert sources[j] in sources && sources[j] !in sources[..j];
        Mark(sources[j]);
        assert sources[..j + 1] == sources[..j] + [sources[j]];
        j := j + 1;
      }
      assert sources[..j] == sources;
    }

    /**
     Moves the marked states of block `part` into a new block.  The block's marks
     are used up, but its `moveSize` entry stays until `Clear`.
     */
    method Split(part: nat) returns (newPart: nat)
      requires Valid() && part < |bounds| && 0 < moveSize[part] < Size(part)
      modifies this`bounds, this`moveSize, this`marked, partitions, stateToPartition
      ensures ValidExcept(part)
      ensures newPart == |old(bounds)| && |bounds| == newPart + 1
      ensures Blocks() == SplitOff(old(Blocks()), part, old(marked), newPart)
      ensures moveSize == old(moveSize) + [0]
      ensures marked == old(marked) - Members(old(Blocks()), part)
    {
      newPart := |bounds|;
      SwapMarkedToFront(part, newPart);
      var oldStart := bounds[part].0;
      bounds := bounds[part := (bounds[part].0 + moveSize[part], bounds[part].1)];
      bounds := bounds + [(oldStart, bounds[part].0)];
      moveSize := moveSize + [0];
      marked := marked - Members(old(Blocks()), part);
      assert old(MarksOk(part));
      assert bounds == CutFront(old(bounds), part, moveSize[part]);
      FrontBecomesBlock(n, old(partitions[..]), old(stateToPartition[..]), old(bounds),
                        partitions[..], stateToPartition[..], part, moveSize[part], old(marked), move[..]);
      forall c | 0 <= c < |bounds| && c != part ensures MarksOk(c) {
        if c < newPart {
          assert old(MarksOk(c));
        }
        OthersStayListed(move[..], old(Blocks()), old(bounds), old(moveSize), part, old(marked), c);
      }
    }

    /** Everything holds except that block `part` may have a stale `moveSize`. */
    ghost predicate ValidExcept(part: nat)
      reads this`bounds, this`moveSize, this`marked, partitions, stateToPartition, move
    {
      && ValidArrays()
      && (forall s :: s in marked ==> s < n)
      && (forall b :: 0 <= b < |bounds| && b != part ==> MarksOk(b))
    }

    method Clear(part: nat)
      requires ValidExcept(part) && part < |bounds|
      modifies this`moveSize, this`marked
      ensures Valid() && moveSize == old(moveSize)[part := 0]
      ensures marked == old(marked) - Members(Blocks(), part)
    {
      moveSize := moveSize[part := 0];
      marked := marked - Members(Blocks(), part);
      forall c | 0 <= c < |bounds| ensures MarksOk(c) {
        if c != part {
          assert old(MarksOk(c));
          assert Members(Blocks(), c) * marked == Members(Blocks(), c) * old(marked);
        } else {
          assert Members(Blocks(), c) * marked == {};
        }
      }
    }

    /** Without marks no block has anything to move. */
    lemma UnmarkedMeansEmpty(b: nat)
      requires Valid() && b < |bounds| && Members(Blocks(), b) * marked == {}
      ensures moveSize[b] == 0
    {
      assert MarksOk(b);
      var run := move[..][bounds[b].0..bounds[b].0 + moveSize[b]];
      DistinctSize(run);
    }

    /** A block is wholly marked exactly when its move list is as long as it is. */
    lemma FullyMarked(b: nat)
      requires Valid() && b < |bounds|
      ensures moveSize[b] <= Size(b)
      ensures moveSize[b] == Size(b) <==> Members(Blocks(), b) <= marked
      ensures moveSize[b] == 0 <==> Members(Blocks(), b) * marked == {}
    {
      assert MarksOk(b);
      var run := move[..][bounds[b].0..bounds[b].0 + moveSize[b]];
      DistinctSize(run);
      BlockSize(n, partitions[..], stateToPartition[..], bounds, b);
      SubsetSize(Elems(run), Members(Blocks(), b));
      if Members(Blocks(), b) <= marked {
        assert Members(Blocks(), b) * marked == Members(Blocks(), b);
      }
    }

    /** Exchanges the state at `victimIdx` with the one `move` wants there, which joins block `newPart`. */
    method SwapInto(victimIdx: nat, newPart: nat)
      requires partitions.Length == stateToPartition.Length == move.Length == n && partitions != move
      requires victimIdx < n && move[victimIdx] < n && Inverse(n, partitions[..], stateToPartition[..])
      modifies partitions, stateToPartition
      ensures partitions[..] == SwapParts(old(partitions[..]), old(stateToPartition[..]), move[..], victimIdx)
      ensures stateToPartition[..] == SwapPositions(old(partitions[..]), old(stateToPartition[..]), move[..], victimIdx, newPart)
    {
      var beneficiary := move[victimIdx];
      var beneficiaryIdx := stateToPartition[beneficiary].1;
      var victim := partitions[victimIdx];
      assert stateToPartition[..][victim].1 == victimIdx && partitions[..][beneficiaryIdx] == beneficiary;
      partitions[victimIdx], partitions[beneficiaryIdx] := partitions[beneficiaryIdx], partitions[victimIdx];
      var victimPlace := stateToPartition[victim].1;
      stateToPartition[victim] := (stateToPartition[victim].0, beneficiaryIdx);
      stateToPartition[beneficiary] := (newPart, victimPlace);
    }

    /** The swapping loop of a split. */
    method SwapMarkedToFront(part: nat, newPart: nat)
      requires Valid() && part < |bounds| == newPart
      modifies partitions, stateToPartition
      ensures SwappedTo(n, old(partitions[..]), old(stateToPartition[..]),
                        partitions[..], stateToPartition[..], bounds[part], move[..], moveSize[part], newPart)
    {
      assert MarksOk(part);
      assert SwappedTo(n, partitions[..], stateToPartition[..], partitions[..], stateToPartition[..], bounds[part], move[..], 0, newPart);
      hide RepOk, Listed, Elems, Distinct, Members;
      var i := 0;
      while i < moveSize[part]
        invariant i <= moveSize[part]
        invariant SwappedTo(n, old(partitions[..]), old(stateToPartition[..]),
                            partitions[..], stateToPartition[..], bounds[part], move[..], i, newPart)
      {
        SwapStep(n, old(partitions[..]), old(stateToPartition[..]), bounds, partitions[..], stateToPartition[..],
                 part, move[..], moveSize[part], marked, i);
        SwapInto(bounds[part].0 + i, newPart);
        i := i + 1;
      }
    }

    lemma RoomToMark(b: nat, source: nat)
      requires Valid() && source < n && source !in marked && Blocks()[source] == b
      ensures b < |bounds| && b < |moveSize| && moveSize[b] < bounds[b].1 - bounds[b].0
    {
      assert MarksOk(b) && b < |bounds|;
      hide RepOk, Listed;
      RoomLeft(n, partitions[..], stateToPartition[..], bounds, move[..], moveSize[b], marked, b, source);
    }
  }

  /** Not all members are listed while one is unmarked. */
  lemma RoomLeft(n: nat, parts: seq<nat>, s2p: seq<(nat, nat)>, bounds: seq<(nat, nat)>, move: seq<nat>, size: nat, marked: set<nat>, b: nat, source: nat)
    requires RepOk(n, parts, s2p, bounds) && b < |bounds| && source < n && source !in marked && Numbers(s2p)[source] == b
    requires Listed(move, Numbers(s2p), bounds[b], size, b, marked)
    ensures size < bounds[b].1 - bounds[b].0
  {
    var run := move[bounds[b].0..bounds[b].0 + size];
    BlockSize(n, parts, s2p, bounds, b);
    hide RepOk;
    DistinctSize(run);
    SubsetSize(Elems(run) + {source}, Members(Numbers(s2p), b));
  }

  ghost predicate AllListed(move: seq<nat>, blk: seq<nat>, bounds: seq<(nat, nat)>, moveSize: seq<nat>, marked: set<nat>) {
    |moveSize| == |bounds| && forall c :: 0 <= c < |bounds| ==> Listed(move, blk, bounds[c], moveSize[c], c, marked)
  }

  lemma MarkKeepsAll(n: nat, parts: seq<nat>, s2p: seq<(nat, nat)>, bounds: seq<(nat, nat)>, move: seq<nat>, moveSize: seq<nat>,
                     marked: set<nat>, b: nat, source: nat)
    requires RepOk(n, parts, s2p, bounds) && AllListed(move, Numbers(s2p), bounds, moveSize, marked)
    requires b < |bounds| && source < n && |move| == n && s2p[source].0 == b && source !in marked && bounds[b].0 + moveSize[b] < bounds[b].1
    ensures bounds[b].0 + moveSize[b] < |move|
    ensures AllListed(move[bounds[b].0 + moveSize[b] := source], Numbers(s2p), bounds, moveSize[b := moveSize[b] + 1], marked + {source})
  {
    assert bounds[b].1 <= n;
    hide RepOk, Listed, Numbers;
    forall c | 0 <= c < |bounds|
      ensures Listed(move[bounds[b].0 + moveSize[b] := source], Numbers(s2p), bounds[c], moveSize[b := moveSize[b] + 1][c], c, marked + {source})
    {
      MarkKeepsListed(n, parts, s2p, bounds, move, moveSize, marked, b, source, c);
    }
  }

  /** The suspects are the blocks with marked members, each once. */
  ghost predicate SuspectList(suspects: seq<nat>, moveSize: seq<nat>) {
    && Distinct(suspects)
    && (forall b :: b in suspects ==> b < |moveSize|)
    && (forall b :: 0 <= b < |moveSize| ==> (b in suspects <==> moveSize[b] > 0))
  }

  lemma OneMoreSuspect(suspects: seq<nat>, moveSize: seq<nat>, b: nat)
    requires SuspectList(suspects, moveSize) && b < |moveSize|
    ensures SuspectList(if moveSize[b] == 0 then suspects + [b] else suspects, moveSize[b := moveSize[b] + 1])
  {
  }

  lemma MarkKeepsListed(n: nat, parts: seq<nat>, s2p: seq<(nat, nat)>, bounds: seq<(nat, nat)>, move: seq<nat>, moveSize: seq<nat>,
                        marked: set<nat>, b: nat, source: nat, c: nat)
    requires RepOk(n, parts, s2p, bounds) && b < |bounds| == |moveSize| && c < |bounds| && source < n && |move| == n
    requires s2p[source].0 == b && source !in marked && bounds[b].0 + moveSize[b] < bounds[b].1
    requires Listed(move, Numbers(s2p), bounds[b], moveSize[b], b, marked)
    requires Listed(move, Numbers(s2p), bounds[c], moveSize[c], c, marked)
    ensures Listed(move[bounds[b].0 + moveSize[b] := source], Numbers(s2p), bounds[c],
                   moveSize[b := moveSize[b] + 1][c], c, marked + {source})
  {
    var blk := Numbers(s2p);
    var lo, at := bounds[b].0, bounds[b].0 + moveSize[b];
    var after := move[at := source];
    if c != b {
      OtherBlockApart(n, parts, s2p, bounds, b, c, at);
      assert after[bounds[c].0..bounds[c].0 + moveSize[c]] == move[bounds[c].0..bounds[c].0 + moveSize[c]];
      assert Members(blk, c) * (marked + {source}) == Members(blk, c) * marked;
    } else {
      assert after[lo..at + 1] == move[lo..at] + [source];
      assert source !in Elems(move[lo..at]);
      assert Members(blk, b) * (marked + {source}) == Members(blk, b) * marked + {source};
    }
  }

  /** The state of a split after its first `done` swaps. */
  ghost predicate SwappedTo(n: nat, parts0: seq<nat>, s2p0: seq<(nat, nat)>, parts: seq<nat>, s2p: seq<(nat, nat)>,
                            bound: (nat, nat), move: seq<nat>, done: nat, newPart: nat)
  {
    && |parts| == |s2p| == n && Inverse(n, parts, s2p)
    && MovedTo(n, parts0, s2p0, parts, s2p, bound, move, done, newPart)
  }

  ghost predicate MovedTo(n: nat, parts0: seq<nat>, s2p0: seq<(nat, nat)>, parts: seq<nat>, s2p: seq<(nat, nat)>,
                          bound: (nat, nat), move: seq<nat>, done: nat, newPart: nat)
  {
    && |parts0| == |s2p0| == |parts| == |s2p| == |move| == n
    && bound.0 + done <= bound.1 <= n
    && (forall i :: 0 <= i < n && !(bound.0 <= i < bound.1) ==> parts[i] == parts0[i])
    && (forall j :: bound.0 <= j < bound.0 + done ==> parts[j] == move[j])
    && (forall s :: 0 <= s < n ==> s2p[s].0 == if s in move[bound.0..bound.0 + done] then newPart else s2p0[s].0)
    && (forall s :: 0 <= s < n ==> (bound.0 <= s2p[s].1 < bound.1 <==> bound.0 <= s2p0[s].1 < bound.1))
  }

  ghost function SwapParts(parts: seq<nat>, s2p: seq<(nat, nat)>, move: seq<nat>, at: nat): seq<nat>
    requires |parts| == |s2p| == |move| && at < |parts| && move[at] < |parts| && Inverse(|parts|, parts, s2p)
  {
    parts[at := move[at]][s2p[move[at]].1 := parts[at]]
  }

  ghost function SwapPositions(parts: seq<nat>, s2p: seq<(nat, nat)>, move: seq<nat>, at: nat, newPart: nat): seq<(nat, nat)>
    requires |parts| == |s2p| == |move| && at < |parts| && move[at] < |parts| && Inverse(|parts|, parts, s2p)
  {
    s2p[parts[at] := (s2p[parts[at]].0, s2p[move[at]].1)][move[at] := (newPart, at)]
  }

  lemma SwapKeepsInverse(parts: seq<nat>, s2p: seq<(nat, nat)>, move: seq<nat>, at: nat, newPart: nat)
    requires |parts| == |s2p| == |move| && at < |parts| && move[at] < |parts| && Inverse(|parts|, parts, s2p)
    ensures Inverse(|parts|, SwapParts(parts, s2p, move, at), SwapPositions(parts, s2p, move, at, newPart))
  {
    assert s2p[parts[at]].1 == at && parts[s2p[move[at]].1] == move[at];
  }

  /** The state to be swapped in is still somewhere at or after the place it goes to. */
  /** A listed state is a member of the block and is listed once. */
  lemma ListedOnce(move: seq<nat>, blk: seq<nat>, bound: (nat, nat), size: nat, b: nat, marked: set<nat>, done: nat)
    requires Listed(move, blk, bound, size, b, marked) && done < size
    ensures bound.0 + done < |move| && move[bound.0 + done] in Members(blk, b)
    ensures forall j :: bound.0 <= j < bound.0 + done ==> move[j] != move[bound.0 + done]
  {
    var front := move[bound.0..bound.0 + size];
    assert front[done] == move[bound.0 + done] && front[done] in Elems(front);
    forall j | bound.0 <= j < bound.0 + done ensures move[j] != move[bound.0 + done] {
      assert front[j - bound.0] == move[j];
    }
  }

  lemma NextIsBehind(n: nat, parts0: seq<nat>, s2p0: seq<(nat, nat)>, bounds0: seq<(nat, nat)>, parts: seq<nat>, s2p: seq<(nat, nat)>,
                     part: nat, move: seq<nat>, size: nat, marked: set<nat>, done: nat)
    requires RepOk(n, parts0, s2p0, bounds0) && part < |bounds0|
    requires Listed(move, Numbers(s2p0), bounds0[part], size, part, marked)
    requires done < size
    requires SwappedTo(n, parts0, s2p0, parts, s2p, bounds0[part], move, done, |bounds0|)
    ensures move[bounds0[part].0 + done] < n
    ensures bounds0[part].0 + done <= s2p[move[bounds0[part].0 + done]].1 < bounds0[part].1
  {
    var lo, hi := bounds0[part].0, bounds0[part].1;
    var x := move[lo + done];
    ListedOnce(move, Numbers(s2p0), bounds0[part], size, part, marked, done);
    hide Listed;
    assert x < n && s2p0[x].0 == part;
    assert lo <= s2p0[x].1 < hi;
    hide RepOk;
    var j := s2p[x].1;
    assert parts[j] == x && lo <= j < hi;
    forall i | lo <= i < lo + done ensures parts[i] != x {
      assert parts[i] == move[i];
    }
  }

  lemma SwapStep(n: nat, parts0: seq<nat>, s2p0: seq<(nat, nat)>, bounds0: seq<(nat, nat)>, parts: seq<nat>, s2p: seq<(nat, nat)>,
                 part: nat, move: seq<nat>, size: nat, marked: set<nat>, done: nat)
    requires RepOk(n, parts0, s2p0, bounds0) && part < |bounds0|
    requires Listed(move, Numbers(s2p0), bounds0[part], size, part, marked)
    requires done < size
    requires SwappedTo(n, parts0, s2p0, parts, s2p, bounds0[part], move, done, |bounds0|)
    ensures move[bounds0[part].0 + done] < n
    ensures SwappedTo(n, parts0, s2p0, SwapParts(parts, s2p, move, bounds0[part].0 + done),
                      SwapPositions(parts, s2p, move, bounds0[part].0 + done, |bounds0|),
                      bounds0[part], move, done + 1, |bounds0|)
  {
    assert |move| == n && bounds0[part].1 <= n;
    hide RepOk, Listed, MovedTo;
    NextIsBehind(n, parts0, s2p0, bounds0, parts, s2p, part, move, size, marked, done);
    var at := bounds0[part].0 + done;
    SwapKeepsInverse(parts, s2p, move, at, |bounds0|);
    MoveStep(n, parts0, s2p0, parts, s2p, bounds0[part], move, done, |bounds0|, move[at], parts[at], s2p[move[at]].1);
  }

  /** Exchanging `x`, found at place `from`, with `v`, found at the next place to fill. */
  lemma MoveStep(n: nat, parts0: seq<nat>, s2p0: seq<(nat, nat)>, parts: seq<nat>, s2p: seq<(nat, nat)>, bound: (nat, nat),
                 move: seq<nat>, done: nat, newPart: nat, x: nat, v: nat, from: nat)
    requires MovedTo(n, parts0, s2p0, parts, s2p, bound, move, done, newPart)
    requires bound.0 + done < bound.1 && x == move[bound.0 + done] < n && v == parts[bound.0 + done] < n
    requires s2p[x].1 == from && s2p[v].1 == bound.0 + done && bound.0 + done <= from < bound.1 && (x == v <==> from == bound.0 + done)
    ensures MovedTo(n, parts0, s2p0, parts[bound.0 + done := x][from := v],
                    s2p[v := (s2p[v].0, from)][x := (newPart, bound.0 + done)], bound, move, done + 1, newPart)
  {
    var at := bound.0 + done;
    var nowParts, now := parts[at := x][from := v], s2p[v := (s2p[v].0, from)][x := (newPart, at)];
    assert move[bound.0..at + 1] == move[bound.0..at] + [x];
    forall s | 0 <= s < n ensures now[s].0 == if s in move[bound.0..at + 1] then newPart else s2p0[s].0 {
      assert s in move[bound.0..at + 1] <==> s in move[bound.0..at] || s == x;
    }
    forall s | 0 <= s < n ensures bound.0 <= now[s].1 < bound.1 <==> bound.0 <= s2p0[s].1 < bound.1 {
      assert bound.0 <= s2p[s].1 < bound.1 <==> bound.0 <= s2p0[s].1 < bound.1;
    }
    forall j | bound.0 <= j < at + 1 ensures nowParts[j] == move[j] {
    }
  }

  lemma OthersStayListed(move: seq<nat>, blk: seq<nat>, bounds: seq<(nat, nat)>, moveSize: seq<nat>, part: nat, marked: set<nat>, c: nat)
    requires part < |bounds| == |moveSize| && c <= |bounds| && c != part
    requires forall s :: 0 <= s < |blk| ==> blk[s] < |bounds|
    requires bounds[part].0 + moveSize[part] <= bounds[part].1 <= |move|
    requires c < |bounds| ==> Listed(move, blk, bounds[c], moveSize[c], c, marked)
    ensures Listed(move, SplitOff(blk, part, marked, |bounds|), CutFront(bounds, part, moveSize[part])[c],
                   (moveSize + [0])[c], c, marked - Members(blk, part))
  {
    var after := SplitOff(blk, part, marked, |bounds|);
    if c < |bounds| {
      assert Members(after, c) * (marked - Members(blk, part)) == Members(blk, c) * marked;
    } else {
      assert Members(after, c) * (marked - Members(blk, part)) == {};
    }
  }

  /** After all the swaps the marked states are exactly those in front. */
  lemma FrontIsMarked(n: nat, parts0: seq<nat>, s2p0: seq<(nat, nat)>, bounds0: seq<(nat, nat)>,
                      parts: seq<nat>, s2p: seq<(nat, nat)>, part: nat, size: nat, marked: set<nat>, move: seq<nat>, s: nat)
    requires RepOk(n, parts0, s2p0, bounds0) && part < |bounds0|
    requires Listed(move, Numbers(s2p0), bounds0[part], size, part, marked)
    requires SwappedTo(n, parts0, s2p0, parts, s2p, bounds0[part], move, size, |bounds0|)
    requires s < n
    ensures s in move[bounds0[part].0..bounds0[part].0 + size] <==> s2p0[s].0 == part && s in marked
    ensures s2p0[s].0 == part && s in marked <==> bounds0[part].0 <= s2p[s].1 < bounds0[part].0 + size
    ensures s2p0[s].0 == part <==> bounds0[part].0 <= s2p[s].1 < bounds0[part].1
    ensures s2p0[s].0 != part ==> s2p[s].1 == s2p0[s].1
  {
    FrontPlaces(n, parts0, s2p0, parts, s2p, bounds0[part], move, size, |bounds0|, s);
    BlockPlaces(n, parts0, s2p0, bounds0, parts, s2p, part, size, move, s);
    hide RepOk, SwappedTo;
    assert s in Elems(move[bounds0[part].0..bounds0[part].0 + size]) <==> s in Members(Numbers(s2p0), part) * marked;
  }

  lemma FrontPlaces(n: nat, parts0: seq<nat>, s2p0: seq<(nat, nat)>, parts: seq<nat>, s2p: seq<(nat, nat)>,
                    bound: (nat, nat), move: seq<nat>, size: nat, newPart: nat, s: nat)
    requires SwappedTo(n, parts0, s2p0, parts, s2p, bound, move, size, newPart) && s < n
    ensures s in move[bound.0..bound.0 + size] <==> bound.0 <= s2p[s].1 < bound.0 + size
  {
    var front := move[bound.0..bound.0 + size];
    if s in front {
      var j :| 0 <= j < size && front[j] == s;
      assert parts[bound.0 + j] == s;
    }
    if bound.0 <= s2p[s].1 < bound.0 + size {
      assert front[s2p[s].1 - bound.0] == s;
    }
  }

  lemma BlockPlaces(n: nat, parts0: seq<nat>, s2p0: seq<(nat, nat)>, bounds0: seq<(nat, nat)>,
                    parts: seq<nat>, s2p: seq<(nat, nat)>, part: nat, size: nat, move: seq<nat>, s: nat)
    requires RepOk(n, parts0, s2p0, bounds0) && part < |bounds0| && s < n
    requires SwappedTo(n, parts0, s2p0, parts, s2p, bounds0[part], move, size, |bounds0|)
    ensures s2p0[s].0 == part <==> bounds0[part].0 <= s2p[s].1 < bounds0[part].1
    ensures s2p0[s].0 != part ==> s2p[s].1 == s2p0[s].1
  {
    var i := s2p0[s].1;
    assert parts0[i] == s;
    if s2p0[s].0 != part {
      assert !(bounds0[part].0 <= i < bounds0[part].1);
      assert parts[i] == s;
    }
  }

  lemma FrontBecomesBlock(n: nat, parts0: seq<nat>, s2p0: seq<(nat, nat)>, bounds0: seq<(nat, nat)>,
                          parts: seq<nat>, s2p: seq<(nat, nat)>, part: nat, size: nat, marked: set<nat>, move: seq<nat>)
    requires RepOk(n, parts0, s2p0, bounds0) && part < |bounds0|
    requires Listed(move, Numbers(s2p0), bounds0[part], size, part, marked)
    requires 0 < size && bounds0[part].0 + size < bounds0[part].1
    requires SwappedTo(n, parts0, s2p0, parts, s2p, bounds0[part], move, size, |bounds0|)
    ensures RepOk(n, parts, s2p, CutFront(bounds0, part, size))
    ensures Numbers(s2p) == SplitOff(Numbers(s2p0), part, marked, |bounds0|)
  {
    var bounds := CutFront(bounds0, part, size);
    forall s | 0 <= s < n
      ensures s2p[s].0 == SplitOff(Numbers(s2p0), part, marked, |bounds0|)[s]
      ensures s2p[s].0 < |bounds| && bounds[s2p[s].0].0 <= s2p[s].1 < bounds[s2p[s].0].1
    {
      FrontIsMarked(n, parts0, s2p0, bounds0, parts, s2p, part, size, marked, move, s);
    }
    forall b, i | 0 <= b < |bounds| && bounds[b].0 <= i < bounds[b].1
      ensures s2p[parts[i]].0 == b
    {
      PlaceInBlock(n, parts0, s2p0, bounds0, parts, s2p, part, size, marked, move, b, i);
    }
    hide Listed, MovedTo, SplitOff;
  }

  lemma PlaceInBlock(n: nat, parts0: seq<nat>, s2p0: seq<(nat, nat)>, bounds0: seq<(nat, nat)>,
                     parts: seq<nat>, s2p: seq<(nat, nat)>, part: nat, size: nat, marked: set<nat>, move: seq<nat>, b: nat, i: nat)
    requires RepOk(n, parts0, s2p0, bounds0) && part < |bounds0|
    requires Listed(move, Numbers(s2p0), bounds0[part], size, part, marked)
    requires 0 < size && bounds0[part].0 + size < bounds0[part].1
    requires SwappedTo(n, parts0, s2p0, parts, s2p, bounds0[part], move, size, |bounds0|)
    requires var bounds := CutFront(bounds0, part, size); b < |bounds| && bounds[b].0 <= i < bounds[b].1
    ensures i < |parts| && parts[i] < |s2p| && s2p[parts[i]].0 == b
  {
    FrontIsMarked(n, parts0, s2p0, bounds0, parts, s2p, part, size, marked, move, parts[i]);
    hide Listed;
    if b != part && b < |bounds0| {
      OtherBlockApart(n, parts0, s2p0, bounds0, b, part, i);
      assert parts[i] == parts0[i];
    }
  }

  /** The bounds after the first `size` places of block `part` become a new block. */
  function CutFront(bounds: seq<(nat, nat)>, part: nat, size: nat): seq<(nat, nat)>
    requires part < |bounds|
  {
    bounds[part := (bounds[part].0 + size, bounds[part].1)] + [(bounds[part].0, bounds[part].0 + size)]
  }

  lemma OtherBlockApart(n: nat, parts: seq<nat>, s2p: seq<(nat, nat)>, bounds: seq<(nat, nat)>, b: nat, c: nat, at: nat)
    requires RepOk(n, parts, s2p, bounds) && b < |bounds| && c < |bounds| && b != c
    requires bounds[b].0 <= at < bounds[b].1
    ensures at < bounds[c].0 || bounds[c].1 <= at
  {
    assert s2p[parts[at]].0 == b;
  }
}
