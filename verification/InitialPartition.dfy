/** The partition both minimizers start from: by acceptance, then cut on each symbol by who crashes. */
module InitialPartitions {
  import opened Automata
  import opened SeqFacts
  import opened RefinablePartitions
  import opened HopcroftTheory

  /** What the first `k` symbols and acceptance tell about a state. */
  ghost function Signature(A: Automaton, k: nat, s: nat): (bool, seq<bool>) {
    (s in A.accept, seq(k, a requires 0 <= a < k => A.CanStep(s, a)))
  }

  lemma SignatureGrows(A: Automaton, k: nat, s: nat)
    ensures Signature(A, k + 1, s) == Longer(Signature(A, k, s), A.CanStep(s, k))
  {
    assert Signature(A, k + 1, s).1 == Signature(A, k, s).1 + [A.CanStep(s, k)];
  }

  function Longer(sig: (bool, seq<bool>), steps: bool): (bool, seq<bool>) {
    (sig.0, sig.1 + [steps])
  }

  lemma LongerInjective(x: (bool, seq<bool>), y: (bool, seq<bool>), b: bool, c: bool)
    ensures Longer(x, b) == Longer(y, c) ==> x == y && b == c
  {
    if Longer(x, b) == Longer(y, c) {
      assert x.1 == (x.1 + [b])[..|x.1|] && (x.1 + [b])[|x.1|] == b;
      assert y.1 == (y.1 + [c])[..|y.1|] && (y.1 + [c])[|y.1|] == c;
    }
  }

  lemma FullSignature(A: Automaton, p: nat, q: nat)
    requires A.Valid()
    ensures Signature(A, A.symbols, p) == Signature(A, A.symbols, q) <==> SameObservations(A, p, q)
  {
    var s, t := Signature(A, A.symbols, p), Signature(A, A.symbols, q);
    if s == t {
      forall a: nat ensures A.CanStep(p, a) <==> A.CanStep(q, a) {
        if a < A.symbols {
          assert s.1[a] == t.1[a];
        } else {
          assert forall u: nat, v: nat :: A.Has(u, a, v) ==> Edge(u, a, v) in A.trans;
        }
      }
    }
    if SameObservations(A, p, q) {
      assert s.1 == t.1;
    }
  }

  /** The blocks follow one another from 0 to `end`, none empty. */
  ghost predicate Chain(bounds: seq<(nat, nat)>, end: nat) {
    && (forall b :: 0 <= b < |bounds| ==> bounds[b].0 < bounds[b].1 && bounds[b].0 == StartOf(bounds, b))
    && StartOf(bounds, |bounds|) == end
  }

  ghost function StartOf(bounds: seq<(nat, nat)>, b: int): nat {
    if 0 < b <= |bounds| then bounds[b - 1].1 else 0
  }

  lemma ChainExtends(bounds: seq<(nat, nat)>, end: nat, next: nat)
    requires Chain(bounds, end) && end < next
    ensures Chain(bounds + [(end, next)], next)
  {
    var more := bounds + [(end, next)];
    forall b | 0 <= b < |more| ensures more[b].0 < more[b].1 && more[b].0 == StartOf(more, b) {
      if b < |bounds| {
        assert StartOf(more, b) == StartOf(bounds, b);
      }
    }
  }

  lemma {:induction false} ChainOrder(bounds: seq<(nat, nat)>, end: nat, b: nat, c: nat)
    requires Chain(bounds, end) && b < c <= |bounds|
    ensures bounds[b].1 <= StartOf(bounds, c)
    decreases c - b
  {
    if b + 1 < c {
      ChainOrder(bounds, end, b, c - 1);
      assert bounds[c - 1].0 == StartOf(bounds, c - 1);
    }
  }

  lemma {:induction false} ChainCovers(bounds: seq<(nat, nat)>, end: nat, c: nat, i: nat)
    requires Chain(bounds, end) && c <= |bounds| && i < StartOf(bounds, c)
    ensures Covered(bounds, i)
  {
    if c > 0 {
      if bounds[c - 1].0 <= i {
        assert InBlock(bounds, c - 1, i);
      } else {
        assert bounds[c - 1].0 == StartOf(bounds, c - 1);
        ChainCovers(bounds, end, c - 1, i);
      }
    }
  }

  lemma ChainTiles(bounds: seq<(nat, nat)>, end: nat)
    requires Chain(bounds, end)
    ensures Tiles(end, bounds)
  {
    forall b | 0 <= b < |bounds| ensures bounds[b].0 < bounds[b].1 <= end {
      ChainOrder(bounds, end, b, |bounds|);
    }
    forall i: nat | i < end ensures Covered(bounds, i) {
      ChainCovers(bounds, end, |bounds|, i);
    }
    forall b: nat, c: nat, i: nat | InBlock(bounds, b, i) && InBlock(bounds, c, i) ensures b == c {
      if b < c {
        ChainOrder(bounds, end, b, c);
      } else if c < b {
        ChainOrder(bounds, end, c, b);
      }
    }
  }

  /** Each block holds exactly the states with its signature, as far as the blocks reach. */
  ghost predicate Sorted(A: Automaton, k: nat, parts: seq<nat>, bounds: seq<(nat, nat)>, sigs: seq<(bool, seq<bool>)>, end: nat) {
    && Chain(bounds, end) && end <= |parts| && |sigs| == |bounds| && Distinct(sigs)
    && forall b: nat, i: nat :: InBlock(bounds, b, i) && i < |parts| ==> Signature(A, k, parts[i]) == sigs[b]
  }

  /** Writes the rejecting states from the front and the accepting ones from the back. */
  method FillByAcceptance(A: Automaton, parts: array<nat>) returns (nonfinal: nat)
    requires parts.Length == A.states
    modifies parts
    ensures IsPermutation(parts[..]) && nonfinal <= A.states
    ensures forall i :: 0 <= i < A.states ==> (parts[i] in A.accept <==> i >= nonfinal)
  {
    nonfinal := 0;
    var final := A.states;
    var s := 0;
    while s < A.states
      invariant nonfinal <= final <= A.states && nonfinal + (A.states - final) == s
      invariant forall i :: 0 <= i < A.states && (i < nonfinal || final <= i) ==> parts[i] < s && (parts[i] in A.accept <==> i >= final)
      invariant forall i, j :: 0 <= i < j < A.states && (i < nonfinal || final <= i) && (j < nonfinal || final <= j) ==> parts[i] != parts[j]
    {
      if s in A.accept {
        final := final - 1;
        parts[final] := s;
      } else {
        parts[nonfinal] := s;
        nonfinal := nonfinal + 1;
      }
      s := s + 1;
    }
  }

  /** Moves the states that crash on `a` to the front of the run [lo, hi). */
  method PartitionRun(A: Automaton, a: nat, parts: array<nat>, lo: nat, hi: nat) returns (m: nat)
    requires lo <= hi <= parts.Length && IsPermutation(parts[..])
    modifies parts
    ensures lo <= m <= hi && IsPermutation(parts[..])
    ensures forall i :: lo <= i < hi ==> (A.CanStep(parts[i], a) <==> i >= m)
    ensures forall i :: 0 <= i < parts.Length && !(lo <= i < hi) ==> parts[i] == old(parts[i])
    ensures forall i :: lo <= i < hi ==> parts[i] in old(parts[lo..hi])
  {
    m := lo;
    var i := lo;
    while i < hi
      invariant lo <= m <= i <= hi && IsPermutation(parts[..])
      invariant forall j :: lo <= j < i ==> (A.CanStep(parts[j], a) <==> j >= m)
      invariant forall j :: 0 <= j < parts.Length && !(lo <= j < hi) ==> parts[j] == old(parts[j])
      invariant forall j :: lo <= j < hi ==> parts[j] in old(parts[lo..hi])
    {
      if !A.Steps(parts[i], a) {
        ghost var before := parts[..];
        parts[m], parts[i] := parts[i], parts[m];
        assert parts[..] == before[m := before[i]][i := before[m]];
        SwapPermutes(before, m, i);
        m := m + 1;
      }
      i := i + 1;
    }
  }

  lemma SwapPermutes(s: seq<nat>, i: nat, j: nat)
    requires IsPermutation(s) && i < |s| && j < |s|
    ensures IsPermutation(s[i := s[j]][j := s[i]])
  {
  }

  /** Cuts every block by who crashes on symbol `k`. */
  method CutByCrash(A: Automaton, k: nat, parts: array<nat>, bounds: seq<(nat, nat)>, ghost sigs: seq<(bool, seq<bool>)>)
    returns (cut: seq<(nat, nat)>, ghost cutSigs: seq<(bool, seq<bool>)>)
    requires IsPermutation(parts[..]) && Sorted(A, k, parts[..], bounds, sigs, parts.Length)
    modifies parts
    ensures IsPermutation(parts[..]) && Sorted(A, k + 1, parts[..], cut, cutSigs, parts.Length)
  {
    cut, cutSigs := [], [];
    ChainTiles(bounds, parts.Length);
    var p := 0;
    assert Sorted(A, k + 1, parts[..], cut, cutSigs, StartOf(bounds, p)) && FromFirst(sigs, p, cutSigs) && Untouched(A, k, parts[..], bounds, sigs, p);
    assert Chain(bounds, parts.Length) && |sigs| == |bounds| && Distinct(sigs);
    hide *;
    while p < |bounds|
      invariant p <= |bounds| && IsPermutation(parts[..])
      invariant Sorted(A, k + 1, parts[..], cut, cutSigs, StartOf(bounds, p)) && Untouched(A, k, parts[..], bounds, sigs, p) && FromFirst(sigs, p, cutSigs)
    {
      cut, cutSigs := CutOne(A, k, parts, bounds, sigs, p, cut, cutSigs);
      p := p + 1;
    }
    ChainEnds(bounds, parts.Length);
  }

  lemma ChainEnds(bounds: seq<(nat, nat)>, end: nat)
    requires Chain(bounds, end)
    ensures StartOf(bounds, |bounds|) == end
  {
  }

  /** The blocks from `p` on are as they were. */
  ghost predicate Untouched(A: Automaton, k: nat, parts: seq<nat>, bounds: seq<(nat, nat)>, sigs: seq<(bool, seq<bool>)>, p: nat) {
    |sigs| == |bounds| && forall b: nat, i: nat :: InBlock(bounds, b, i) && b >= p && i < |parts| ==> Signature(A, k, parts[i]) == sigs[b]
  }

  /** Cuts one block. */
  method CutOne(A: Automaton, k: nat, parts: array<nat>, bounds: seq<(nat, nat)>, ghost sigs: seq<(bool, seq<bool>)>, p: nat,
                cut0: seq<(nat, nat)>, ghost cutSigs0: seq<(bool, seq<bool>)>)
      returns (cut: seq<(nat, nat)>, ghost cutSigs: seq<(bool, seq<bool>)>)
    requires IsPermutation(parts[..]) && Chain(bounds, parts.Length) && Tiles(parts.Length, bounds) && |sigs| == |bounds| && Distinct(sigs) && p < |bounds|
    requires Sorted(A, k + 1, parts[..], cut0, cutSigs0, StartOf(bounds, p)) && Untouched(A, k, parts[..], bounds, sigs, p) && FromFirst(sigs, p, cutSigs0)
    modifies parts
    ensures IsPermutation(parts[..])
    ensures Sorted(A, k + 1, parts[..], cut, cutSigs, StartOf(bounds, p + 1)) && Untouched(A, k, parts[..], bounds, sigs, p + 1) && FromFirst(sigs, p + 1, cutSigs)
  {
    ghost var before := parts[..];
    assert bounds[p].0 < bounds[p].1 <= parts.Length;
    hide Tiles, Chain, FromFirst, IsPermutation, Sorted, Signature, Distinct, Untouched;
    var m := PartitionRun(A, k, parts, bounds[p].0, bounds[p].1);
    CutBlock(A, k, before, parts[..], bounds, sigs, p, m, cut0, cutSigs0);
    cut, cutSigs := cut0, cutSigs0;
    if bounds[p].0 < m {
      cut, cutSigs := cut + [(bounds[p].0, m)], cutSigs + [Longer(sigs[p], false)];
    }
    if m < bounds[p].1 {
      cut, cutSigs := cut + [(m, bounds[p].1)], cutSigs + [Longer(sigs[p], true)];
    }
    assert cut == CutBounds(cut0, bounds[p].0, m, bounds[p].1) && cutSigs == CutSigs(cutSigs0, sigs[p], bounds[p].0, m, bounds[p].1);
  }

  /** The new signatures come from the first `p` old ones. */
  ghost predicate FromFirst(sigs: seq<(bool, seq<bool>)>, p: nat, cutSigs: seq<(bool, seq<bool>)>) {
    forall x :: x in cutSigs ==> Extends(sigs, p, x)
  }

  ghost predicate Extends(sigs: seq<(bool, seq<bool>)>, p: nat, x: (bool, seq<bool>)) {
    exists b, steps :: 0 <= b < |sigs| && b < p && x == Longer(sigs[b], steps)
  }

  ghost function CutBounds(cut: seq<(nat, nat)>, lo: nat, m: nat, hi: nat): seq<(nat, nat)> {
    (if lo < m then cut + [(lo, m)] else cut) + (if m < hi then [(m, hi)] else [])
  }

  ghost function CutSigs(cutSigs: seq<(bool, seq<bool>)>, sig: (bool, seq<bool>), lo: nat, m: nat, hi: nat): seq<(bool, seq<bool>)> {
    (if lo < m then cutSigs + [Longer(sig, false)] else cutSigs) + (if m < hi then [Longer(sig, true)] else [])
  }

  lemma BlockSignatures(A: Automaton, k: nat, before: seq<nat>, after: seq<nat>, bounds: seq<(nat, nat)>, sigs: seq<(bool, seq<bool>)>, p: nat, m: nat)
    requires Tiles(|before|, bounds) && p < |bounds| && |after| == |before| && Untouched(A, k, before, bounds, sigs, p)
    requires forall i :: bounds[p].0 <= i < bounds[p].1 ==> (A.CanStep(after[i], k) <==> i >= m) && after[i] in before[bounds[p].0..bounds[p].1]
    requires forall i :: 0 <= i < |before| && !(bounds[p].0 <= i < bounds[p].1) ==> after[i] == before[i]
    ensures forall i :: bounds[p].0 <= i < bounds[p].1 ==> Signature(A, k + 1, after[i]) == Longer(sigs[p], i >= m)
    ensures Untouched(A, k, after, bounds, sigs, p + 1)
  {
    var lo, hi, sig := bounds[p].0, bounds[p].1, sigs[p];
    forall i | lo <= i < hi ensures Signature(A, k + 1, after[i]) == Longer(sig, i >= m) {
      var j :| lo <= j < hi && before[j] == after[i];
      assert InBlock(bounds, p, j);
      SignatureGrows(A, k, after[i]);
    }
    forall b: nat, i: nat | InBlock(bounds, b, i) && b >= p + 1 && i < |after| ensures Signature(A, k, after[i]) == sigs[b] {
      assert !InBlock(bounds, p, i);
    }
  }

  lemma CutBlock(A: Automaton, k: nat, before: seq<nat>, after: seq<nat>, bounds: seq<(nat, nat)>, sigs: seq<(bool, seq<bool>)>, p: nat, m: nat,
                 cut: seq<(nat, nat)>, cutSigs: seq<(bool, seq<bool>)>)
    requires Chain(bounds, |before|) && Tiles(|before|, bounds) && |sigs| == |bounds| && Distinct(sigs) && p < |bounds| && |after| == |before|
    requires Sorted(A, k + 1, before, cut, cutSigs, StartOf(bounds, p)) && FromFirst(sigs, p, cutSigs)
    requires Untouched(A, k, before, bounds, sigs, p)
    requires bounds[p].0 <= m <= bounds[p].1
    requires forall i :: bounds[p].0 <= i < bounds[p].1 ==> (A.CanStep(after[i], k) <==> i >= m) && after[i] in before[bounds[p].0..bounds[p].1]
    requires forall i :: 0 <= i < |before| && !(bounds[p].0 <= i < bounds[p].1) ==> after[i] == before[i]
    ensures var lo, hi := bounds[p].0, bounds[p].1;
            && Sorted(A, k + 1, after, CutBounds(cut, lo, m, hi), CutSigs(cutSigs, sigs[p], lo, m, hi), hi)
            && FromFirst(sigs, p + 1, CutSigs(cutSigs, sigs[p], lo, m, hi))
    ensures Untouched(A, k, after, bounds, sigs, p + 1)
    ensures StartOf(bounds, p + 1) == bounds[p].1
  {
    var lo, hi, sig := bounds[p].0, bounds[p].1, sigs[p];
    assert lo == StartOf(bounds, p);
    BlockSignatures(A, k, before, after, bounds, sigs, p, m);
    hide Tiles, Untouched, Signature;
    SortedUnchanged(A, k + 1, before, after, cut, cutSigs, lo);
    NewSignature(sigs, p, cutSigs, false);
    NewSignature(sigs, p, cutSigs, true);
    assert Extends(sigs, p + 1, Longer(sig, false)) && Extends(sigs, p + 1, Longer(sig, true));
    forall x | x in cutSigs ensures Extends(sigs, p + 1, x) {
      assert Extends(sigs, p, x);
      var b, steps :| 0 <= b < |sigs| && b < p && x == Longer(sigs[b], steps);
    }
    var cut1, sigs1 := cut, cutSigs;
    if lo < m {
      AppendBlock(A, k + 1, after, cut, cutSigs, lo, m, Longer(sig, false));
      cut1, sigs1 := cut + [(lo, m)], cutSigs + [Longer(sig, false)];
    }
    LongerInjective(sig, sig, false, true);
    if m < hi {
      AppendBlock(A, k + 1, after, cut1, sigs1, m, hi, Longer(sig, true));
    } else {
      assert cut1 + [] == cut1 && sigs1 + [] == sigs1;
    }
  }

  /** Signatures of a new block are new. */
  lemma NewSignature(sigs: seq<(bool, seq<bool>)>, p: nat, cutSigs: seq<(bool, seq<bool>)>, steps: bool)
    requires Distinct(sigs) && p < |sigs| && FromFirst(sigs, p, cutSigs)
    ensures Longer(sigs[p], steps) !in cutSigs
  {
    if Longer(sigs[p], steps) in cutSigs {
      assert Extends(sigs, p, Longer(sigs[p], steps));
      var b, c :| 0 <= b < |sigs| && b < p && Longer(sigs[p], steps) == Longer(sigs[b], c);
      LongerInjective(sigs[p], sigs[b], steps, c);
      assert false;
    }
  }

  lemma SortedUnchanged(A: Automaton, k: nat, before: seq<nat>, after: seq<nat>, bounds: seq<(nat, nat)>, sigs: seq<(bool, seq<bool>)>, end: nat)
    requires Sorted(A, k, before, bounds, sigs, end) && |after| == |before| && forall i :: 0 <= i < end ==> after[i] == before[i]
    ensures Sorted(A, k, after, bounds, sigs, end)
  {
    ChainTiles(bounds, end);
    forall b: nat, i: nat | InBlock(bounds, b, i) && i < |after| ensures Signature(A, k, after[i]) == sigs[b] {
      assert i < end;
    }
  }

  lemma AppendBlock(A: Automaton, k: nat, parts: seq<nat>, bounds: seq<(nat, nat)>, sigs: seq<(bool, seq<bool>)>, end: nat, next: nat, sig: (bool, seq<bool>))
    requires Sorted(A, k, parts, bounds, sigs, end) && end < next <= |parts| && sig !in sigs
    requires forall i :: end <= i < next ==> Signature(A, k, parts[i]) == sig
    ensures Sorted(A, k, parts, bounds + [(end, next)], sigs + [sig], next)
  {
    ChainExtends(bounds, end, next);
    var more, moreSigs := bounds + [(end, next)], sigs + [sig];
    forall b: nat, i: nat | InBlock(more, b, i) && i < |parts| ensures Signature(A, k, parts[i]) == moreSigs[b] {
      if b < |bounds| {
        assert InBlock(bounds, b, i);
      }
    }
  }

  method SplitByAcceptance(A: Automaton, parts: array<nat>) returns (bounds: seq<(nat, nat)>, ghost sigs: seq<(bool, seq<bool>)>)
    requires parts.Length == A.states
    modifies parts
    ensures IsPermutation(parts[..]) && Sorted(A, 0, parts[..], bounds, sigs, parts.Length)
  {
    var nonfinal := FillByAcceptance(A, parts);
    bounds, sigs := [], [];
    forall i | 0 <= i < A.states ensures Signature(A, 0, parts[..][i]) == (i >= nonfinal, []) {
      assert Signature(A, 0, parts[i]).1 == [];
    }
    if 0 < nonfinal {
      AppendBlock(A, 0, parts[..], bounds, sigs, 0, nonfinal, (false, []));
      bounds, sigs := bounds + [(0, nonfinal)], sigs + [(false, [])];
    }
    if nonfinal < A.states {
      AppendBlock(A, 0, parts[..], bounds, sigs, nonfinal, A.states, (true, []));
      bounds, sigs := bounds + [(nonfinal, A.states)], sigs + [(true, [])];
    }
  }

  /** Builds the initial partition: states share a block exactly when acceptance and crash pattern agree. */
  method Build(A: Automaton) returns (rp: RefinablePartition)
    requires A.Valid()
    ensures fresh(rp) && fresh(rp.partitions) && fresh(rp.stateToPartition) && fresh(rp.move)
    ensures rp.Valid() && rp.n == A.states && rp.marked == {} && ByObservation(A, rp.Blocks())
  {
    var parts := new nat[A.states](_ => 0);
    var bounds, sigs := SplitByAcceptance(A, parts);
    var k := 0;
    while k < A.symbols
      invariant k <= A.symbols && IsPermutation(parts[..]) && Sorted(A, k, parts[..], bounds, sigs, parts.Length)
    {
      bounds, sigs := CutByCrash(A, k, parts, bounds, sigs);
      k := k + 1;
    }
    ChainTiles(bounds, A.states);
    rp := new RefinablePartition(parts[..], bounds);
    BlocksAreObservations(A, parts[..], bounds, sigs, rp.Blocks());
  }

  lemma BlocksAreObservations(A: Automaton, parts: seq<nat>, bounds: seq<(nat, nat)>, sigs: seq<(bool, seq<bool>)>, blk: seq<nat>)
    requires A.Valid() && IsPermutation(parts) && |parts| == |blk| == A.states && Tiles(A.states, bounds)
    requires Sorted(A, A.symbols, parts, bounds, sigs, A.states)
    requires forall b: nat, i: nat :: InBlock(bounds, b, i) ==> blk[parts[i]] == b
    ensures ByObservation(A, blk)
  {
    forall p, q | 0 <= p < |blk| && 0 <= q < |blk| ensures blk[p] == blk[q] <==> SameObservations(A, p, q) {
      BlockSignature(A, parts, bounds, sigs, blk, p);
      BlockSignature(A, parts, bounds, sigs, blk, q);
      FullSignature(A, p, q);
    }
  }

  lemma BlockSignature(A: Automaton, parts: seq<nat>, bounds: seq<(nat, nat)>, sigs: seq<(bool, seq<bool>)>, blk: seq<nat>, p: nat)
    requires IsPermutation(parts) && |parts| == |blk| == A.states && Tiles(A.states, bounds) && p < A.states
    requires Sorted(A, A.symbols, parts, bounds, sigs, A.states)
    requires forall b: nat, i: nat :: InBlock(bounds, b, i) ==> blk[parts[i]] == b
    ensures blk[p] < |sigs| && Signature(A, A.symbols, p) == sigs[blk[p]]
  {
    DistinctCovers(parts, p);
    var i: nat :| i < |parts| && parts[i] == p;
    assert Covered(bounds, i);
    var b :| InBlock(bounds, b, i);
  }
}
