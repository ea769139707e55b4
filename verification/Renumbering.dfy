/** Moving the entries of a table to new places, in place, by following a permutation that is used up on the way. */
module Renumbering {
  import opened Options
  import opened SeqFacts
  import opened EdgeEnumeration

  ghost function Fixed(s: seq<nat>): set<nat> {
    set i | 0 <= i < |s| && s[i] == i
  }

  /** Every pair of entry and destination is one of the original pairs, and all of them are still there. */
  ghost predicate Rearranged<T>(first: seq<T>, indices: seq<nat>, first0: seq<T>, indices0: seq<nat>, origin: seq<nat>) {
    && |first| == |indices| == |first0| == |indices0| == |origin| && IsPermutation(origin)
    && forall j :: 0 <= j < |origin| ==> first[j] == first0[origin[j]] && indices[j] == indices0[origin[j]]
  }

  function Swap<T>(s: seq<T>, i: nat, j: nat): seq<T>
    requires i < |s| && j < |s|
  {
    s[i := s[j]][j := s[i]]
  }

  lemma SwapKeepsRearranged<T>(first: seq<T>, indices: seq<nat>, first0: seq<T>, indices0: seq<nat>, origin: seq<nat>, i: nat, j: nat)
    requires Rearranged(first, indices, first0, indices0, origin) && i < |first| && j < |first|
    ensures Rearranged(Swap(first, i, j), Swap(indices, i, j), first0, indices0, Swap(origin, i, j))
  {
  }

  lemma RearrangedIsPermutation<T>(first: seq<T>, indices: seq<nat>, first0: seq<T>, indices0: seq<nat>, origin: seq<nat>)
    requires Rearranged(first, indices, first0, indices0, origin) && IsPermutation(indices0)
    ensures IsPermutation(indices)
  {
  }

  /** Sending the entry at `i` to its place settles one more place. */
  lemma SwapSettles(indices: seq<nat>, i: nat)
    requires IsPermutation(indices) && i < |indices| && indices[i] != i
    ensures indices[i] < |indices|
    ensures |Fixed(indices)| < |Fixed(Swap(indices, i, indices[i]))| <= |indices|
    ensures forall j :: 0 <= j < i && indices[j] == j ==> Swap(indices, i, indices[i])[j] == j
  {
    var next := indices[i];
    var after := Swap(indices, i, next);
    assert indices[next] != next;
    assert Fixed(indices) + {next} <= Fixed(after);
    SubsetSize(Fixed(indices) + {next}, Fixed(after));
    BoundedSetSize(Fixed(after), |after|);
  }

  method SwapBoth<T>(first: array<T>, indices: array<nat>, i: nat, next: nat)
    requires first.Length == indices.Length && i < first.Length && next < first.Length && (first as object) != (indices as object)
    modifies first, indices
    ensures first[..] == Swap(old(first[..]), i, next) && indices[..] == Swap(old(indices[..]), i, next)
  {
    first[i], first[next] := first[next], first[i];
    indices[i], indices[next] := indices[next], indices[i];
  }

  /** Swaps the entry at place `i` away until the right one has come. */
  method SettlePlace<T>(first: array<T>, indices: array<nat>, i: nat, ghost first0: seq<T>, ghost indices0: seq<nat>, ghost origin0: seq<nat>) returns (ghost origin: seq<nat>)
    requires first.Length == indices.Length == |origin0| && i < first.Length && (first as object) != (indices as object)
    requires Rearranged(first[..], indices[..], first0, indices0, origin0) && IsPermutation(indices0)
    requires forall j :: 0 <= j < i ==> indices[..][j] == j
    modifies first, indices
    ensures |origin| == first.Length && Rearranged(first[..], indices[..], first0, indices0, origin)
    ensures forall j :: 0 <= j <= i ==> indices[..][j] == j
  {
    hide Rearranged, IsPermutation, Fixed;
    origin := origin0;
    while i != indices[i]
      invariant first.Length == |origin| && Rearranged(first[..], indices[..], first0, indices0, origin)
      invariant forall j :: 0 <= j < i ==> indices[..][j] == j
      decreases first.Length - |Fixed(indices[..])|
    {
      RearrangedIsPermutation(first[..], indices[..], first0, indices0, origin);
      var next := indices[i];
      SwapSettles(indices[..], i);
      SwapKeepsRearranged(first[..], indices[..], first0, indices0, origin, i, next);
      SwapBoth(first, indices, i, next);
      origin := Swap(origin, i, next);
    }
  }

  /** Moves each entry to the place its index names; leaves the indices in order. */
  method ApplyReversePermutation<T>(first: array<T>, indices: array<nat>)
    requires first.Length == indices.Length && IsPermutation(indices[..]) && (first as object) != (indices as object)
    modifies first, indices
    ensures forall k :: 0 <= k < first.Length ==> old(indices[k]) < first.Length && first[old(indices[k])] == old(first[k])
  {
    ghost var first0: seq<T>, indices0: seq<nat> := first[..], indices[..];
    ghost var origin: seq<nat> := seq(first.Length, k => k);
    assert Rearranged(first[..], indices[..], first0, indices0, origin);
    hide Rearranged, IsPermutation;
    var i := 0;
    while i < first.Length
      invariant i <= first.Length == |origin| && Rearranged(first[..], indices[..], first0, indices0, origin)
      invariant forall j :: 0 <= j < i ==> indices[..][j] == j
    {
      origin := SettlePlace(first, indices, i, first0, indices0, origin);
      i := i + 1;
    }
    AllSettled(first[..], indices[..], first0, indices0, origin);
  }

  lemma AllSettled<T>(first: seq<T>, indices: seq<nat>, first0: seq<T>, indices0: seq<nat>, origin: seq<nat>)
    requires Rearranged(first, indices, first0, indices0, origin) && forall j :: 0 <= j < |indices| ==> indices[j] == j
    ensures forall k :: 0 <= k < |first0| ==> indices0[k] < |first| && first[indices0[k]] == first0[k]
  {
    forall k: nat | k < |first0| ensures indices0[k] < |first| && first[indices0[k]] == first0[k] {
      DistinctCovers(origin, k);
      var j :| 0 <= j < |origin| && origin[j] == k;
      assert indices[j] == indices0[k];
    }
  }

  /** A row with its targets renamed by `states` and its a-th entry the one for symbol `symbols[a]`. */
  function RenamedRow(row: seq<Option<nat>>, states: seq<nat>, symbols: seq<nat>): (r: seq<Option<nat>>)
    requires forall a :: 0 <= a < |symbols| ==> symbols[a] < |row|
    requires forall x :: 0 <= x < |row| && row[x].Some? ==> row[x].value < |states|
    ensures |r| == |symbols| && forall a :: 0 <= a < |symbols| ==> Corresponds(row[symbols[a]], r[a], states)
  {
    seq(|symbols|, a requires 0 <= a < |symbols| => if row[symbols[a]].Some? then Some(states[row[symbols[a]].value]) else None)
  }

  /** Relabels the table in place; `states`, which is used up, says where each state goes. */
  method Renumber(ghost D: Dfa, step: array<seq<Option<nat>>>, accept: seq<bool>, states: array<nat>, symbols: seq<nat>) returns (acceptAfter: seq<bool>)
    requires D.Valid() && IsPerm(D, symbols) && step[..] == D.step && accept == D.accept
    requires states.Length == step.Length && IsPermutation(states[..]) && (step as object) != (states as object)
    modifies step, states
    ensures Relabels(D, symbols, old(states[..]), Dfa(D.symbols, step[..], acceptAfter))
  {
    ghost var renumbering: seq<nat> := states[..];
    var s := 0;
    while s < step.Length
      invariant s <= step.Length && states[..] == renumbering
      invariant forall t :: s <= t < step.Length ==> step[t] == D.step[t]
      invariant forall t :: 0 <= t < s ==> |step[t]| == D.symbols
      invariant forall t, a :: 0 <= t < s && 0 <= a < D.symbols ==> Corresponds(D.step[t][symbols[a]], step[t][a], renumbering)
    {
      step[s] := RenamedRow(step[s], states[..], symbols);
      s := s + 1;
    }
    ghost var rows := step[..];
    acceptAfter := MoveFlags(accept, states);
    ApplyReversePermutation(step, states);
    MovedRelabels(D, symbols, renumbering, rows, Dfa(D.symbols, step[..], acceptAfter));
  }

  method MoveFlags(accept: seq<bool>, states: array<nat>) returns (moved: seq<bool>)
    requires |accept| == states.Length && IsPermutation(states[..])
    ensures |moved| == |accept| && forall s :: 0 <= s < |accept| ==> states[s] < |moved| && moved[states[s]] == accept[s]
  {
    moved := seq(|accept|, _ => false);
    var i := 0;
    while i < states.Length
      invariant i <= states.Length && |moved| == |accept|
      invariant forall s :: 0 <= s < i ==> states[s] < |moved| && moved[states[s]] == accept[s]
    {
      assert forall s :: 0 <= s < i ==> states[..][s] != states[..][i];
      moved := moved[states[i] := accept[i]];
      i := i + 1;
    }
  }

  lemma MovedRelabels(D: Dfa, symbols: seq<nat>, renumbering: seq<nat>, rows: seq<seq<Option<nat>>>, C: Dfa)
    requires D.Valid() && IsPerm(D, symbols) && IsPermutation(renumbering) && |renumbering| == |rows| == |D.step| == |C.step| == |C.accept| && C.symbols == D.symbols
    requires forall t :: 0 <= t < |rows| ==> |rows[t]| == D.symbols && renumbering[t] < |C.step| && C.step[renumbering[t]] == rows[t]
    requires forall t, a :: 0 <= t < |rows| && 0 <= a < D.symbols ==> Corresponds(D.step[t][symbols[a]], rows[t][a], renumbering)
    requires forall s :: 0 <= s < |D.accept| ==> C.accept[renumbering[s]] == D.accept[s]
    ensures Relabels(D, symbols, renumbering, C)
  {
    forall x: nat | x < |C.step| ensures |C.step[x]| == C.symbols && forall a: nat :: a < C.symbols && C.step[x][a].Some? ==> C.step[x][a].value < |C.step| {
      DistinctCovers(renumbering, x);
      var t :| 0 <= t < |renumbering| && renumbering[t] == x;
      forall a: nat | a < C.symbols && C.step[x][a].Some? ensures C.step[x][a].value < |C.step| {
        assert Corresponds(D.step[t][symbols[a]], rows[t][a], renumbering);
      }
    }
  }
}
