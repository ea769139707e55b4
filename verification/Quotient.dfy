/** Shrinking an automaton to its blocks. */
module Quotients {
  // It is done in place, once every block has a number.

  import opened Automata
  import opened SeqFacts
  import opened RefinablePartitions
  import opened HopcroftTheory
  import opened Survivors

  /** One entry of a state's transition list: all the symbols that lead to `next`. */
  datatype Transition = Transition(symbols: set<nat>, next: nat)

  /** The entries have different targets. */
  ghost predicate OncePerTarget(row: seq<Transition>) {
    forall i, j :: 0 <= i < j < |row| ==> row[i].next != row[j].next
  }

  /** The list has an edge on `a` to `t`. */
  ghost predicate Leads(row: seq<Transition>, a: nat, t: nat) {
    exists i :: 0 <= i < |row| && a in row[i].symbols && row[i].next == t
  }

  /** The list has an edge on `a` to a state that is renumbered to `t`. */
  ghost predicate LeadsVia(row: seq<Transition>, remap: seq<nat>, a: nat, t: nat) {
    exists i :: 0 <= i < |row| && a in row[i].symbols && row[i].next < |remap| && remap[row[i].next] == t
  }

  /**
   Renumbers the targets of a transition list, from the back, folding entries that meet in one target
   into the earliest of them.
   */
  method RenumberRow(row0: seq<Transition>, remap: seq<nat>) returns (row: seq<Transition>)
    requires forall i :: 0 <= i < |row0| ==> row0[i].next < |remap|
    ensures OncePerTarget(row)
    ensures forall a, t :: Leads(row, a, t) <==> LeadsVia(row0, remap, a, t)
  {
    row := row0;
    var i := |row|;
    while i > 0
      invariant 0 <= i <= |row| && i <= |row0| && row[..i] == row0[..i]
      invariant OncePerTarget(row[i..])
      invariant forall a, t :: Leads(row[i..], a, t) <==> LeadsVia(row0[i..], remap, a, t)
    {
      i := i - 1;
      row := RenumberEntry(row, i, remap, row0[i..]);
    }
    assert row[0..] == row && row0[0..] == row0;
  }

  /** Renumbers entry `i` and folds the later entry with the same target, if there is one, into it. */
  method RenumberEntry(row0: seq<Transition>, i: nat, remap: seq<nat>, ghost tail: seq<Transition>) returns (row: seq<Transition>)
    requires i < |row0| && row0[i].next < |remap| && OncePerTarget(row0[i + 1..])
    requires tail != [] && tail[0] == row0[i]
    requires forall a, t :: Leads(row0[i + 1..], a, t) <==> LeadsVia(tail[1..], remap, a, t)
    ensures i < |row| && row[..i] == row0[..i] && OncePerTarget(row[i..])
    ensures forall a, t :: Leads(row[i..], a, t) <==> LeadsVia(tail, remap, a, t)
  {
    var next := remap[row0[i].next];
    row := row0[i := Transition(row0[i].symbols, next)];
    var j := |row|;
    while j > i + 1 && row[j - 1].next != next
      invariant i + 1 <= j <= |row|
      invariant forall m :: j <= m < |row| ==> row[m].next != next
    {
      j := j - 1;
    }
    ghost var rest := row0[i + 1..];
    assert row[i + 1..] == rest;
    if j > i + 1 {
      var at := j - 1;
      row := row[i := Transition(row[i].symbols + row[at].symbols, next)];
      row := row[..at] + row[at + 1..];
      assert row[i..] == [Transition(row0[i].symbols + rest[at - i - 1].symbols, next)] + rest[..at - i - 1] + rest[at - i..];
      FoldedLeads(row0[i].symbols, next, rest, at - i - 1);
    } else {
      assert row[i..] == [Transition(row0[i].symbols, next)] + rest;
      forall m | 0 <= m < |rest| ensures rest[m].next != next {
        assert rest[m] == row[i + 1 + m];
      }
      PushedLeads(row0[i].symbols, next, rest);
    }
    PushedLeadsVia(tail, remap);
  }

  lemma PushedLeads(symbols: set<nat>, next: nat, rest: seq<Transition>)
    requires OncePerTarget(rest) && forall m :: 0 <= m < |rest| ==> rest[m].next != next
    ensures OncePerTarget([Transition(symbols, next)] + rest)
    ensures forall a, t :: Leads([Transition(symbols, next)] + rest, a, t) <==> Leads(rest, a, t) || (a in symbols && t == next)
  {
    var all := [Transition(symbols, next)] + rest;
    assert all[0] == Transition(symbols, next) && forall m :: 0 <= m < |rest| ==> all[m + 1] == rest[m];
  }

  lemma FoldedLeads(symbols: set<nat>, next: nat, rest: seq<Transition>, at: nat)
    requires OncePerTarget(rest) && at < |rest| && rest[at].next == next
    ensures OncePerTarget([Transition(symbols + rest[at].symbols, next)] + rest[..at] + rest[at + 1..])
    ensures forall a, t :: Leads([Transition(symbols + rest[at].symbols, next)] + rest[..at] + rest[at + 1..], a, t)
                           <==> Leads(rest, a, t) || (a in symbols && t == next)
  {
    var others := rest[..at] + rest[at + 1..];
    forall a, t ensures Leads(rest, a, t) <==> Leads(others, a, t) || (a in rest[at].symbols && t == next) {
      WithoutEntry(rest, others, at, a, t);
    }
    PushedLeads(symbols + rest[at].symbols, next, others);
    assert [Transition(symbols + rest[at].symbols, next)] + rest[..at] + rest[at + 1..] == [Transition(symbols + rest[at].symbols, next)] + others;
  }

  lemma WithoutEntry(rest: seq<Transition>, others: seq<Transition>, at: nat, a: nat, t: nat)
    requires at < |rest| == |others| + 1
    requires others == rest[..at] + rest[at + 1..]
    ensures Leads(rest, a, t) <==> Leads(others, a, t) || (a in rest[at].symbols && t == rest[at].next)
  {
    if Leads(rest, a, t) {
      var m :| 0 <= m < |rest| && a in rest[m].symbols && rest[m].next == t;
      if m < at {
        assert others[m] == rest[m];
      } else if m > at {
        assert others[m - 1] == rest[m];
      }
    }
    if Leads(others, a, t) {
      var m :| 0 <= m < |others| && a in others[m].symbols && others[m].next == t;
      assert others[m] == rest[m] || others[m] == rest[m + 1];
    }
  }

  lemma PushedLeadsVia(tail: seq<Transition>, remap: seq<nat>)
    requires tail != [] && tail[0].next < |remap|
    ensures forall a, t :: LeadsVia(tail, remap, a, t) <==> LeadsVia(tail[1..], remap, a, t) || (a in tail[0].symbols && t == remap[tail[0].next])
  {
    var rest := tail[1..];
    assert forall m :: 0 <= m < |rest| ==> tail[m + 1] == rest[m];
  }

  /**
   Shrinks the tables to the first `k` states.  A state that is not its own source takes its source's
   list, which is left empty, and its acceptance; that never reads a list already changed, because
   sources are distinct and lie at or beyond `k` when they are not the state itself.
   */
  method CompressRenumber(transitions: array<seq<Transition>>, accept: array<bool>, k: nat, comesFrom: seq<nat>, remap: seq<nat>)
    requires transitions.Length == accept.Length == |remap| && k <= |comesFrom| && k <= |remap|
    requires forall s :: 0 <= s < |remap| ==> forall i :: 0 <= i < |transitions[s]| ==> transitions[s][i].next < |remap|
    requires forall x :: 0 <= x < k ==> comesFrom[x] < |remap| && (comesFrom[x] == x || comesFrom[x] >= k)
    requires forall x, y :: 0 <= x < y < k ==> comesFrom[x] != comesFrom[y]
    modifies transitions, accept
    ensures forall s :: 0 <= s < k ==> OncePerTarget(transitions[s]) && accept[s] == old(accept[comesFrom[s]])
    ensures forall s :: 0 <= s < k ==> Follows(transitions[s], old(transitions[comesFrom[s]]), remap)
  {
    var s := 0;
    while s < k
      invariant s <= k
      invariant forall x :: 0 <= x < s ==> OncePerTarget(transitions[x]) && accept[x] == old(accept[comesFrom[x]])
      invariant forall x :: 0 <= x < s ==> Follows(transitions[x], old(transitions[comesFrom[x]]), remap)
      invariant forall x :: s <= x < k ==> transitions[x] == old(transitions[x]) && accept[x] == old(accept[x])
      invariant forall x :: s <= x < k ==> transitions[comesFrom[x]] == old(transitions[comesFrom[x]]) && accept[comesFrom[x]] == old(accept[comesFrom[x]])
    {
      var victim := comesFrom[s];
      if victim != s {
        transitions[s] := transitions[victim];
        transitions[victim] := [];
        accept[s] := accept[victim];
      }
      transitions[s] := RenumberRow(transitions[s], remap);
      s := s + 1;
    }
  }

  ghost predicate Follows(row: seq<Transition>, from: seq<Transition>, remap: seq<nat>) {
    forall a, t :: Leads(row, a, t) <==> LeadsVia(from, remap, a, t)
  }

  /** The tables hold automaton `A`. */
  ghost predicate Holds(A: Automaton, transitions: seq<seq<Transition>>, accept: seq<bool>, n: nat) {
    && n == A.states && n <= |transitions| && n <= |accept|
    && (forall s: nat, a: nat, t: nat :: s < n ==> (A.Has(s, a, t) <==> Leads(transitions[s], a, t)))
    && (forall s: nat :: s < n ==> (s in A.accept <==> accept[s]))
  }

  /** The automaton of the blocks: each number steps as the state it comes from does. */
  ghost function Quotient(A: Automaton, k: nat, remap: seq<nat>, comesFrom: seq<nat>): (B: Automaton)
    requires A.Valid() && |remap| == A.states && k <= |comesFrom|
    ensures B.states == k && B.symbols == A.symbols
    ensures forall x: nat, a: nat, y: nat :: B.Has(x, a, y) <==> x < k && Arrives(A, comesFrom[x], a, remap, y)
    ensures forall x :: x in B.accept <==> 0 <= x < k && comesFrom[x] in A.accept
  {
    var trans := set x, e | 0 <= x < k && e in A.trans && comesFrom[x] == e.source :: Edge(x, e.symbol, remap[e.target]);
    var B := Automaton(k, A.symbols, trans, set x | 0 <= x < k && comesFrom[x] in A.accept);
    assert forall x: nat, a: nat, y: nat :: B.Has(x, a, y) <==> x < k && Arrives(A, comesFrom[x], a, remap, y) by {
      forall x: nat, a: nat, y: nat ensures B.Has(x, a, y) <==> x < k && Arrives(A, comesFrom[x], a, remap, y) {
        if x < k && Arrives(A, comesFrom[x], a, remap, y) {
          var t: nat :| t < |remap| && A.Has(comesFrom[x], a, t) && remap[t] == y;
          assert Edge(comesFrom[x], a, t) in A.trans;
        }
        if B.Has(x, a, y) {
          var e :| e in A.trans && comesFrom[x] == e.source && Edge(x, a, y) == Edge(x, e.symbol, remap[e.target]);
          assert A.Has(comesFrom[x], a, e.target);
        }
      }
    }
    B
  }

  ghost predicate Arrives(A: Automaton, s: nat, a: nat, remap: seq<nat>, y: nat) {
    exists t: nat :: t < |remap| && A.Has(s, a, t) && remap[t] == y
  }

  /** In place and as a value the same automaton comes out. */
  lemma CompressedHoldsQuotient(A: Automaton, k: nat, remap: seq<nat>, comesFrom: seq<nat>,
                                before: seq<seq<Transition>>, acceptBefore: seq<bool>, after: seq<seq<Transition>>, acceptAfter: seq<bool>)
    requires A.Valid() && |remap| == A.states && k <= |comesFrom| && Holds(A, before, acceptBefore, A.states)
    requires k <= |after| && k <= |acceptAfter| && forall x :: 0 <= x < k ==> comesFrom[x] < A.states
    requires forall s :: 0 <= s < k ==> Follows(after[s], before[comesFrom[s]], remap) && acceptAfter[s] == acceptBefore[comesFrom[s]]
    ensures Holds(Quotient(A, k, remap, comesFrom), after, acceptAfter, k)
  {
    var B := Quotient(A, k, remap, comesFrom);
    forall s: nat, a: nat, t: nat | s < k ensures B.Has(s, a, t) <==> Leads(after[s], a, t) {
      var from := before[comesFrom[s]];
      assert Leads(after[s], a, t) <==> LeadsVia(from, remap, a, t);
      if LeadsVia(from, remap, a, t) {
        var i :| 0 <= i < |from| && a in from[i].symbols && from[i].next < |remap| && remap[from[i].next] == t;
        assert Leads(from, a, from[i].next);
      }
      if Arrives(A, comesFrom[s], a, remap, t) {
        var u: nat :| u < |remap| && A.Has(comesFrom[s], a, u) && remap[u] == t;
        assert Leads(from, a, u);
      }
    }
  }

  /** Every state's language survives the shrinking. */
  lemma {:induction false} QuotientKeepsLanguage(A: Automaton, blk: seq<nat>, k: nat, remap: seq<nat>, comesFrom: seq<nat>, s: nat, w: seq<nat>)
    requires A.Valid() && Stable(A, blk) && Uniform(A, blk) && Renumbers(blk, k, remap, comesFrom) && s < A.states
    ensures Accepts(Quotient(A, k, remap, comesFrom), remap[s], w) <==> Accepts(A, s, w)
    decreases |w|
  {
    var B := Quotient(A, k, remap, comesFrom);
    var x := remap[s];
    var r := comesFrom[x];
    assert remap[r] == x && blk[r] == blk[s];
    StableMeansSameLanguage(A, blk, r, s, w);
    if w == [] {
    } else {
      if Accepts(B, x, w) {
        var y: nat :| B.Has(x, w[0], y) && Accepts(B, y, w[1..]);
        var t: nat :| t < |remap| && A.Has(r, w[0], t) && remap[t] == y;
        QuotientKeepsLanguage(A, blk, k, remap, comesFrom, t, w[1..]);
        assert Accepts(A, r, w);
      }
      if Accepts(A, r, w) {
        var t: nat :| A.Has(r, w[0], t) && Accepts(A, t, w[1..]);
        assert Edge(r, w[0], t) in A.trans;
        QuotientKeepsLanguage(A, blk, k, remap, comesFrom, t, w[1..]);
        assert B.Has(x, w[0], remap[t]);
      }
    }
  }

  /** A DFA stays one, and its states now have different languages, unless same-language states crash differently. */
  lemma QuotientIsReduced(A: Automaton, initial: seq<nat>, blk: seq<nat>, k: nat, remap: seq<nat>, comesFrom: seq<nat>)
    requires A.Valid() && A.Deterministic() && ByObservation(A, initial) && CoarsestStable(A, initial, blk)
    requires Renumbers(blk, k, remap, comesFrom)
    ensures Quotient(A, k, remap, comesFrom).Valid() && Quotient(A, k, remap, comesFrom).Deterministic()
    ensures Reduced(Quotient(A, k, remap, comesFrom)) <==> CrashesAgree(A)
  {
    var B := Quotient(A, k, remap, comesFrom);
    forall e | e in B.trans ensures e.source < B.states && e.symbol < B.symbols && e.target < B.states {
      assert B.Has(e.source, e.symbol, e.target);
      var t: nat :| t < |remap| && A.Has(comesFrom[e.source], e.symbol, t) && remap[t] == e.target;
      assert Edge(comesFrom[e.source], e.symbol, t) in A.trans;
    }
    BlocksAreLanguages(A, initial, blk);
    assert Uniform(A, blk);
    forall s: nat, t: nat | s < A.states && t < A.states ensures SameLanguage(A, s, t) <==> SameLanguage(B, remap[s], remap[t]) {
      LanguagesCarryOver(A, blk, k, remap, comesFrom, s, t);
    }
    if Reduced(B) {
      forall p, q | 0 <= p < A.states && 0 <= q < A.states && SameLanguage(A, p, q) ensures blk[p] == blk[q] {
        assert SameLanguage(B, remap[p], remap[q]);
      }
    }
    if CrashesAgree(A) {
      forall x: nat, y: nat | x < k && y < k && SameLanguage(B, x, y) ensures x == y {
        assert remap[comesFrom[x]] == x && remap[comesFrom[y]] == y;
        assert SameLanguage(A, comesFrom[x], comesFrom[y]);
      }
    }
  }

  ghost predicate Reduced(B: Automaton) {
    forall x: nat, y: nat :: x < B.states && y < B.states && SameLanguage(B, x, y) ==> x == y
  }

  lemma LanguagesCarryOver(A: Automaton, blk: seq<nat>, k: nat, remap: seq<nat>, comesFrom: seq<nat>, s: nat, t: nat)
    requires A.Valid() && Stable(A, blk) && Uniform(A, blk) && Renumbers(blk, k, remap, comesFrom) && s < A.states && t < A.states
    ensures SameLanguage(A, s, t) <==> SameLanguage(Quotient(A, k, remap, comesFrom), remap[s], remap[t])
  {
    var B := Quotient(A, k, remap, comesFrom);
    forall w ensures Accepts(A, s, w) == Accepts(B, remap[s], w) && Accepts(A, t, w) == Accepts(B, remap[t], w) {
      QuotientKeepsLanguage(A, blk, k, remap, comesFrom, s, w);
      QuotientKeepsLanguage(A, blk, k, remap, comesFrom, t, w);
    }
  }
}
