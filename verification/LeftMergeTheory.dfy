/** Merging from the left. */
module LeftMergeTheory {
  // The minimizer runs on the reversed automaton, so states share a block when the same words lead to them, and
  // the states of a block are merged by pooling their transitions.

  import opened Automata
  import opened SeqFacts
  import opened Survivors
  import opened HopcroftTheory
  import opened Quotients
  import opened BlockCounts
  import opened Minimization

  /** Transitions turned round; the initial state is the one accepting state. */
  function Reverse(A: Automaton): Automaton {
    Automaton(A.states, A.symbols, set e | e in A.trans :: Edge(e.target, e.symbol, e.source), {0})
  }

  lemma ReverseHas(A: Automaton, s: nat, a: nat, t: nat)
    ensures Reverse(A).Has(t, a, s) <==> A.Has(s, a, t)
  {
    if A.Has(s, a, t) {
      assert Edge(s, a, t) in A.trans;
    }
  }

  /** The word `w` leads from `s` to `t`. */
  ghost predicate Path(A: Automaton, s: nat, w: seq<nat>, t: nat)
    decreases |w|
  {
    if w == [] then s == t else exists u: nat :: A.Has(s, w[0], u) && Path(A, u, w[1..], t)
  }

  lemma {:induction false} PathExtends(A: Automaton, s: nat, w: seq<nat>, a: nat, t: nat)
    ensures Path(A, s, w + [a], t) <==> exists u: nat :: Path(A, s, w, u) && A.Has(u, a, t)
    decreases |w|
  {
    var all := w + [a];
    if w == [] {
      assert all[0] == a && all[1..] == [];
      if Path(A, s, all, t) {
        var u: nat :| A.Has(s, all[0], u) && Path(A, u, all[1..], t);
        assert Path(A, s, w, s) && A.Has(s, a, t);
      }
      if u: nat :| Path(A, s, w, u) && A.Has(u, a, t) {
        assert A.Has(s, all[0], t) && Path(A, t, all[1..], t);
      }
    } else {
      assert all[0] == w[0] && all[1..] == w[1..] + [a];
      if Path(A, s, all, t) {
        var v: nat :| A.Has(s, all[0], v) && Path(A, v, all[1..], t);
        PathExtends(A, v, w[1..], a, t);
        var u: nat :| Path(A, v, w[1..], u) && A.Has(u, a, t);
        assert Path(A, s, w, u);
      }
      if u: nat :| Path(A, s, w, u) && A.Has(u, a, t) {
        var v: nat :| A.Has(s, w[0], v) && Path(A, v, w[1..], u);
        PathExtends(A, v, w[1..], a, t);
        assert Path(A, v, all[1..], t);
      }
    }
  }

  lemma {:induction false} PathReversed(A: Automaton, s: nat, w: seq<nat>, t: nat)
    ensures Path(A, s, w, t) <==> Path(Reverse(A), t, Backward(w), s)
    decreases |w|
  {
    var R := Reverse(A);
    if w != [] {
      BackwardSnoc(w[0], w[1..]);
      assert w == [w[0]] + w[1..];
      PathExtends(R, t, Backward(w[1..]), w[0], s);
      forall u: nat ensures A.Has(s, w[0], u) && Path(A, u, w[1..], t) <==> Path(R, t, Backward(w[1..]), u) && R.Has(u, w[0], s) {
        ReverseHas(A, s, w[0], u);
        PathReversed(A, u, w[1..], t);
      }
      assert Path(A, s, w, t) <==> exists u: nat :: Path(R, t, Backward(w[1..]), u) && R.Has(u, w[0], s) by {
        if Path(A, s, w, t) {
          var u: nat :| A.Has(s, w[0], u) && Path(A, u, w[1..], t);
        }
      }
    }
  }

  lemma {:induction false} AcceptsIsPath(A: Automaton, s: nat, w: seq<nat>)
    ensures Accepts(A, s, w) <==> exists t: nat :: Path(A, s, w, t) && t in A.accept
    decreases |w|
  {
    if w == [] {
      assert Path(A, s, w, s);
    } else {
      if Accepts(A, s, w) {
        var u: nat :| A.Has(s, w[0], u) && Accepts(A, u, w[1..]);
        AcceptsIsPath(A, u, w[1..]);
        var t: nat :| Path(A, u, w[1..], t) && t in A.accept;
        assert Path(A, s, w, t);
      }
      if t: nat :| Path(A, s, w, t) && t in A.accept {
        var u: nat :| A.Has(s, w[0], u) && Path(A, u, w[1..], t);
        AcceptsIsPath(A, u, w[1..]);
      }
    }
  }

  /** The pooled automaton: an edge for every edge, and the acceptance of the survivor alone. */
  ghost function Merged(A: Automaton, k: nat, remap: seq<nat>, comesFrom: seq<nat>): (B: Automaton)
    requires A.Valid() && |remap| == A.states && k <= |comesFrom|
    ensures B.states == k && B.symbols == A.symbols
    ensures forall x: nat, a: nat, y: nat :: B.Has(x, a, y) <==> Pooled(A, remap, x, a, y)
    ensures forall x :: x in B.accept <==> 0 <= x < k && comesFrom[x] in A.accept
  {
    var B := Automaton(k, A.symbols, set e | e in A.trans :: Edge(remap[e.source], e.symbol, remap[e.target]), set x | 0 <= x < k && comesFrom[x] in A.accept);
    assert forall x: nat, a: nat, y: nat :: B.Has(x, a, y) <==> Pooled(A, remap, x, a, y) by {
      forall x: nat, a: nat, y: nat ensures B.Has(x, a, y) <==> Pooled(A, remap, x, a, y) {
        if B.Has(x, a, y) {
          var e :| e in A.trans && Edge(x, a, y) == Edge(remap[e.source], e.symbol, remap[e.target]);
          assert A.Has(e.source, a, e.target);
        }
        if Pooled(A, remap, x, a, y) {
          var s: nat, t: nat :| s < |remap| && t < |remap| && A.Has(s, a, t) && remap[s] == x && remap[t] == y;
          assert Edge(s, a, t) in A.trans;
        }
      }
    }
    B
  }

  ghost predicate Pooled(A: Automaton, remap: seq<nat>, x: nat, a: nat, y: nat) {
    exists s: nat, t: nat :: s < |remap| && t < |remap| && A.Has(s, a, t) && remap[s] == x && remap[t] == y
  }

  /** The words that lead to a state of the pooled automaton are those that lead to any state of its block. */
  lemma {:induction false} MergedArrivals(A: Automaton, blk: seq<nat>, k: nat, remap: seq<nat>, comesFrom: seq<nat>, s: nat, w: seq<nat>)
    requires A.Valid() && A.states > 0 && Stable(Reverse(A), blk) && Uniform(Reverse(A), blk) && Renumbers(blk, k, remap, comesFrom) && s < A.states
    ensures Path(Reverse(Merged(A, k, remap, comesFrom)), remap[s], w, 0) <==> Path(Reverse(A), s, w, 0)
    decreases |w|
  {
    var R, B := Reverse(A), Merged(A, k, remap, comesFrom);
    var RB := Reverse(B);
    if w == [] {
      assert blk[s] == blk[0] ==> SameObservations(R, s, 0);
    } else {
      if Path(RB, remap[s], w, 0) {
        var y: nat :| RB.Has(remap[s], w[0], y) && Path(RB, y, w[1..], 0);
        ReverseHas(B, y, w[0], remap[s]);
        var t: nat, p: nat :| t < |remap| && p < |remap| && A.Has(t, w[0], p) && remap[t] == y && remap[p] == remap[s];
        ReverseHas(A, t, w[0], p);
        assert R.Has(p, w[0], t) && blk[p] == blk[s];
        assert Reaches(R, blk, s, w[0], blk[t]);
        var u: nat :| u < |blk| && R.Has(s, w[0], u) && blk[u] == blk[t];
        MergedArrivals(A, blk, k, remap, comesFrom, u, w[1..]);
      }
      if Path(R, s, w, 0) {
        var u: nat :| R.Has(s, w[0], u) && Path(R, u, w[1..], 0);
        ReverseHas(A, u, w[0], s);
        assert Edge(u, w[0], s) in A.trans;
        assert Pooled(A, remap, remap[u], w[0], remap[s]);
        ReverseHas(B, remap[u], w[0], remap[s]);
        MergedArrivals(A, blk, k, remap, comesFrom, u, w[1..]);
      }
    }
  }

  /** `w` leads the original automaton to a state whose survivor accepts. */
  ghost predicate Kept(A: Automaton, remap: seq<nat>, comesFrom: seq<nat>, w: seq<nat>) {
    exists s: nat :: s < |remap| && Path(A, 0, w, s) && remap[s] < |comesFrom| && comesFrom[remap[s]] in A.accept
  }

  /** What merging from the left accepts: exactly the words that lead to a state whose survivor accepts. */
  lemma MergedAccepts(A: Automaton, blk: seq<nat>, k: nat, remap: seq<nat>, comesFrom: seq<nat>, w: seq<nat>)
    requires A.Valid() && A.states > 0 && Stable(Reverse(A), blk) && Uniform(Reverse(A), blk) && Renumbers(blk, k, remap, comesFrom)
    ensures Accepts(Merged(A, k, remap, comesFrom), 0, w) <==> Kept(A, remap, comesFrom, w)
    ensures Accepts(Merged(A, k, remap, comesFrom), 0, w) ==> Accepts(A, 0, w)
  {
    var B := Merged(A, k, remap, comesFrom);
    AcceptsIsPath(B, 0, w);
    AcceptsIsPath(A, 0, w);
    forall s: nat | s < A.states ensures Path(B, 0, w, remap[s]) <==> Path(A, 0, w, s) {
      PathReversed(A, 0, w, s);
      PathReversed(B, 0, w, remap[s]);
      MergedArrivals(A, blk, k, remap, comesFrom, s, Backward(w));
    }
    if Accepts(B, 0, w) {
      var x: nat :| Path(B, 0, w, x) && x in B.accept;
      var s := comesFrom[x];
      assert remap[s] == x && Path(A, 0, w, s);
    }
  }

  /** So the language survives if acceptance is the same throughout each block. */
  lemma MergedKeepsLanguage(A: Automaton, blk: seq<nat>, k: nat, remap: seq<nat>, comesFrom: seq<nat>, w: seq<nat>)
    requires A.Valid() && A.states > 0 && Stable(Reverse(A), blk) && Uniform(Reverse(A), blk) && Renumbers(blk, k, remap, comesFrom)
    requires forall s, t :: 0 <= s < A.states && 0 <= t < A.states && blk[s] == blk[t] && s in A.accept ==> t in A.accept
    ensures Accepts(Merged(A, k, remap, comesFrom), 0, w) <==> Accepts(A, 0, w)
  {
    MergedAccepts(A, blk, k, remap, comesFrom, w);
    AcceptsIsPath(A, 0, w);
    if Accepts(A, 0, w) {
      var s: nat :| Path(A, 0, w, s) && s in A.accept;
      assert s < A.states;
      assert blk[comesFrom[remap[s]]] == blk[s];
    }
  }

  /** No accepted word leads only to states whose survivors reject. */
  ghost predicate NothingLost(A: Automaton, remap: seq<nat>, comesFrom: seq<nat>) {
    forall w, s: nat :: Path(A, 0, w, s) && Dropped(A, remap, comesFrom, s) ==> Kept(A, remap, comesFrom, w)
  }

  /** State `s` accepts but the state its block is left with does not. */
  ghost predicate Dropped(A: Automaton, remap: seq<nat>, comesFrom: seq<nat>, s: nat) {
    s < |remap| && remap[s] < |comesFrom| && s in A.accept && comesFrom[remap[s]] !in A.accept
  }

  /** Words are never gained, and none is lost exactly if every word to a dropped state also leads to a kept one. */
  lemma MergedKeepsLanguageIff(A: Automaton, blk: seq<nat>, k: nat, remap: seq<nat>, comesFrom: seq<nat>)
    requires A.Valid() && A.states > 0 && Stable(Reverse(A), blk) && Uniform(Reverse(A), blk) && Renumbers(blk, k, remap, comesFrom)
    ensures KeepsLanguage(A, Merged(A, k, remap, comesFrom)) <==> NothingLost(A, remap, comesFrom)
  {
    var B := Merged(A, k, remap, comesFrom);
    forall w ensures (Accepts(B, 0, w) <==> Kept(A, remap, comesFrom, w)) && (Accepts(B, 0, w) ==> Accepts(A, 0, w)) {
      MergedAccepts(A, blk, k, remap, comesFrom, w);
    }
    if KeepsLanguage(A, B) {
      forall w, s: nat | Path(A, 0, w, s) && Dropped(A, remap, comesFrom, s) ensures Kept(A, remap, comesFrom, w) {
        AcceptsIsPath(A, 0, w);
        assert Accepts(B, 0, w) <==> Accepts(A, 0, w);
      }
    }
    if NothingLost(A, remap, comesFrom) {
      forall w | Accepts(A, 0, w) ensures Accepts(B, 0, w) {
        AcceptsIsPath(A, 0, w);
        var s: nat :| Path(A, 0, w, s) && s in A.accept;
        assert comesFrom[remap[s]] in A.accept || Dropped(A, remap, comesFrom, s);
      }
    }
  }

  /** No word leads to states of two blocks. */
  ghost predicate Unambiguous(A: Automaton, blk: seq<nat>) {
    forall w, s: nat, t: nat :: Path(A, 0, w, s) && Path(A, 0, w, t) && s < |blk| && t < |blk| ==> blk[s] == blk[t]
  }

  lemma DroppedIsLost(A: Automaton, blk: seq<nat>, k: nat, remap: seq<nat>, comesFrom: seq<nat>, w: seq<nat>, s: nat)
    requires A.Valid() && |blk| == A.states && Renumbers(blk, k, remap, comesFrom) && Unambiguous(A, blk) && Path(A, 0, w, s) && Dropped(A, remap, comesFrom, s)
    ensures !Kept(A, remap, comesFrom, w)
  {
    forall t: nat | t < |remap| && Path(A, 0, w, t) ensures comesFrom[remap[t]] !in A.accept {
      assert blk[s] == blk[t];
      assert remap[s] == remap[t];
    }
  }

  ghost predicate NoneDropped(A: Automaton, remap: seq<nat>, comesFrom: seq<nat>) {
    forall w, s: nat :: Path(A, 0, w, s) ==> !Dropped(A, remap, comesFrom, s)
  }

  lemma NothingLostMeansNoneDropped(A: Automaton, blk: seq<nat>, k: nat, remap: seq<nat>, comesFrom: seq<nat>)
    requires A.Valid() && |blk| == A.states && Renumbers(blk, k, remap, comesFrom) && Unambiguous(A, blk)
    ensures NothingLost(A, remap, comesFrom) <==> NoneDropped(A, remap, comesFrom)
  {
    hide Kept, Dropped, Path, Renumbers, Unambiguous;
    forall w, s: nat | Path(A, 0, w, s) && Dropped(A, remap, comesFrom, s) ensures !Kept(A, remap, comesFrom, w) {
      DroppedIsLost(A, blk, k, remap, comesFrom, w, s);
    }
  }

  /** Then the language is kept exactly if no reachable state is dropped. */
  lemma MergedKeepsLanguageIffNoneDropped(A: Automaton, blk: seq<nat>, k: nat, remap: seq<nat>, comesFrom: seq<nat>)
    requires A.Valid() && A.states > 0 && |blk| == A.states && Stable(Reverse(A), blk) && Uniform(Reverse(A), blk) && Renumbers(blk, k, remap, comesFrom)
    requires Unambiguous(A, blk)
    ensures |remap| == A.states && k <= |comesFrom| && (KeepsLanguage(A, Merged(A, k, remap, comesFrom)) <==> NoneDropped(A, remap, comesFrom))
  {
    assert |remap| == A.states && k <= |comesFrom|;
    hide *;
    MergedKeepsLanguageIff(A, blk, k, remap, comesFrom);
    NothingLostMeansNoneDropped(A, blk, k, remap, comesFrom);
  }

  // ---- What decides before anything is numbered.

  /** A member that may stand for its block: state 0, a small number, or any if none is small. */
  ghost predicate MayStand(blk: seq<nat>, k: nat, s: nat) {
    s < |blk| && (s < k || NoSmall(blk, k, blk[s]))
  }

  /** Whichever member stands for the block of `s`, it accepts. */
  ghost predicate Safe(A: Automaton, blk: seq<nat>, k: nat, s: nat) {
    s < |blk| && forall t: nat :: MayStand(blk, k, t) && blk[t] == blk[s] ==> t in A.accept
  }

  /** Every accepted word leads to a state whose block accepts, whichever member stands for it. */
  ghost predicate ArrivesSafely(A: Automaton, blk: seq<nat>) {
    forall w :: Accepts(A, 0, w) ==> SafeArrival(A, blk, w)
  }

  ghost predicate SafeArrival(A: Automaton, blk: seq<nat>, w: seq<nat>) {
    exists s: nat :: Path(A, 0, w, s) && Safe(A, blk, |Elems(blk)|, s)
  }

  lemma StandsIn(blk: seq<nat>, k: nat, remap: seq<nat>, comesFrom: seq<nat>, s: nat)
    requires Renumbers(blk, k, remap, comesFrom) && s < |blk|
    ensures var c := comesFrom[remap[s]]; MayStand(blk, k, c) && blk[c] == blk[s]
  {
    assert remap[comesFrom[remap[s]]] == remap[s];
  }

  lemma SafelyKept(A: Automaton, blk: seq<nat>, remap: seq<nat>, comesFrom: seq<nat>)
    requires |blk| == A.states && A.Valid() && A.states > 0 && Stable(Reverse(A), blk) && Uniform(Reverse(A), blk) && Renumbers(blk, |Elems(blk)|, remap, comesFrom)
    requires ArrivesSafely(A, blk)
    ensures KeepsLanguage(A, Merged(A, |Elems(blk)|, remap, comesFrom))
  {
    hide Stable, Uniform;
    var k := |Elems(blk)|;
    forall w ensures Accepts(Merged(A, k, remap, comesFrom), 0, w) <==> Accepts(A, 0, w) {
      MergedAccepts(A, blk, k, remap, comesFrom, w);
      if Accepts(A, 0, w) {
        assert SafeArrival(A, blk, w);
        var s: nat :| Path(A, 0, w, s) && Safe(A, blk, k, s);
        StandsIn(blk, k, remap, comesFrom, s);
        assert Kept(A, remap, comesFrom, w);
      }
    }
  }

  /** One member for each block, each of which may stand for it; for the block of state 0 that is 0. */
  ghost predicate Delegates(blk: seq<nat>, rep: map<nat, nat>) {
    && rep.Keys == Elems(blk) && |blk| > 0 && rep[blk[0]] == 0
    && forall b: nat :: b in rep ==> MayStand(blk, |Elems(blk)|, rep[b]) && blk[rep[b]] == b
  }

  /** Numbers for blocks, from 0 on, each once; a delegate that is small gives its own number. */
  ghost predicate NumbersDelegates(rep: map<nat, nat>, num: map<nat, nat>, k: nat) {
    && num.Keys == rep.Keys && Injective(num)
    && forall b: nat :: b in num ==> num[b] < k && (rep[b] < k ==> num[b] == rep[b])
  }

  ghost predicate Injective(m: map<nat, nat>) {
    forall b: nat, c: nat :: b in m && c in m && m[b] == m[c] ==> b == c
  }

  /** Two sets of the same size can be paired. */
  lemma {:induction false} Pairing(from: set<nat>, to: set<nat>) returns (m: map<nat, nat>)
    requires |from| == |to|
    ensures m.Keys == from && Injective(m) && forall b: nat :: b in m ==> m[b] in to
    decreases |from|
  {
    m := map[];
    if from != {} {
      var b :| b in from;
      var x :| x in to;
      var rest := Pairing(from - {b}, to - {x});
      m := rest[b := x];
    }
  }

  /** The delegates that give their own numbers. */
  ghost function SmallDelegates(rep: map<nat, nat>, k: nat): map<nat, nat> {
    map b | b in rep && rep[b] < k :: rep[b]
  }

  lemma AsManyLeft(blk: seq<nat>, rep: map<nat, nat>)
    requires Delegates(blk, rep)
    ensures var k := |Elems(blk)|; var small := SmallDelegates(rep, k);
            Injective(small) && |small.Keys| == |small.Values| && |rep.Keys - small.Keys| == |Numerals(k) - small.Values|
  {
    var k := |Elems(blk)|;
    var small := SmallDelegates(rep, k);
    InjectiveValues(small);
    assert small.Keys <= rep.Keys && small.Values <= Numerals(k);
  }

  lemma NumberDelegates(blk: seq<nat>, rep: map<nat, nat>) returns (num: map<nat, nat>)
    requires Delegates(blk, rep)
    ensures NumbersDelegates(rep, num, |Elems(blk)|)
  {
    AsManyLeft(blk, rep);
    hide *;
    var k := |Elems(blk)|;
    var m := Pairing(rep.Keys - SmallDelegates(rep, k).Keys, Numerals(k) - SmallDelegates(rep, k).Values);
    num := Joined(rep, m, k);
    JoinedNumbers(rep, m, k);
  }

  /** The large delegates' blocks have the numbers of `m`. */
  ghost function Joined(rep: map<nat, nat>, m: map<nat, nat>, k: nat): map<nat, nat>
    requires m.Keys == rep.Keys - SmallDelegates(rep, k).Keys
  {
    map b | b in rep :: if b in SmallDelegates(rep, k) then rep[b] else m[b]
  }

  lemma JoinedNumbers(rep: map<nat, nat>, m: map<nat, nat>, k: nat)
    requires var small := SmallDelegates(rep, k);
             && Injective(small) && Injective(m) && m.Keys == rep.Keys - small.Keys && (forall b: nat :: b in m ==> m[b] in Numerals(k) - small.Values)
    ensures NumbersDelegates(rep, Joined(rep, m, k), k)
  {
    var small, num := SmallDelegates(rep, k), Joined(rep, m, k);
    forall b: nat | b in num ensures b in small <==> num[b] in small.Values {
      assert b in small ==> small[b] in small.Values;
    }
    forall b: nat, c: nat | b in num && c in num && num[b] == num[c] ensures b == c {
      assert b in small <==> c in small;
      assert b in small && c in small ==> small[b] == small[c];
    }
  }

  ghost function Numerals(k: nat): (all: set<nat>)
    ensures |all| == k && forall x: nat :: x in all <==> x < k
  {
    if k == 0 then {} else Numerals(k - 1) + {k - 1}
  }

  /** The block with number `x`. */
  ghost function BlockOf(num: map<nat, nat>, k: nat, x: nat): (b: nat)
    requires Injective(num) && |num.Keys| == k && (forall b: nat :: b in num ==> num[b] < k) && x < k
    ensures b in num && num[b] == x
  {
    InjectiveValues(num);
    assert num.Values <= Numerals(k);
    SubsetSize(num.Values, Numerals(k));
    assert x in num.Values;
    var b: nat :| b in num && num[b] == x;
    b
  }

  /** The delegate of each number. */
  ghost function DelegatesOf(rep: map<nat, nat>, num: map<nat, nat>, k: nat): (comesFrom: seq<nat>)
    requires NumbersDelegates(rep, num, k) && |num.Keys| == k
    ensures |comesFrom| == k && forall x: nat :: x < k ==> comesFrom[x] == rep[BlockOf(num, k, x)]
    ensures forall b: nat :: b in num ==> comesFrom[num[b]] == rep[b]
  {
    forall b: nat | b in num ensures BlockOf(num, k, num[b]) == b {
    }
    seq(k, x requires 0 <= x < k => rep[BlockOf(num, k, x)])
  }

  /** Any choice of delegates is what some renumbering keeps. */
  lemma DelegatesCanStand(blk: seq<nat>, rep: map<nat, nat>) returns (remap: seq<nat>, comesFrom: seq<nat>)
    requires Delegates(blk, rep)
    ensures Renumbers(blk, |Elems(blk)|, remap, comesFrom)
    ensures forall s: nat :: s < |blk| ==> blk[s] in rep && comesFrom[remap[s]] == rep[blk[s]]
  {
    var k := |Elems(blk)|;
    var num := NumberDelegates(blk, rep);
    assert |num.Keys| == k;
    remap := BlockNumbers(blk, num);
    comesFrom := DelegatesOf(rep, num, k);
    forall x: nat | x < k ensures comesFrom[x] < |blk| && remap[comesFrom[x]] == x && IsSource(blk, k, blk[comesFrom[x]], x, comesFrom[x]) {
      DelegateIsSource(blk, rep, num, x);
    }
    hide Elems, MayStand, IsSource, Delegates, DelegatesOf;
    assert rep[blk[0]] == 0;
  }

  ghost function BlockNumbers(blk: seq<nat>, num: map<nat, nat>): (remap: seq<nat>)
    requires Elems(blk) == num.Keys && Injective(num)
    ensures |remap| == |blk| && forall s: nat :: s < |blk| ==> blk[s] in num && remap[s] == num[blk[s]]
    ensures forall s: nat, t: nat :: s < |blk| && t < |blk| ==> (remap[s] == remap[t] <==> blk[s] == blk[t])
  {
    assert forall s: nat :: s < |blk| ==> blk[s] in Elems(blk);
    seq(|blk|, s requires 0 <= s < |blk| => num[blk[s]])
  }

  lemma DelegateIsSource(blk: seq<nat>, rep: map<nat, nat>, num: map<nat, nat>, x: nat)
    requires Delegates(blk, rep) && NumbersDelegates(rep, num, |Elems(blk)|) && |num.Keys| == |Elems(blk)| && x < |Elems(blk)|
    ensures var b := BlockOf(num, |Elems(blk)|, x); rep[b] < |blk| && blk[rep[b]] == b && IsSource(blk, |Elems(blk)|, b, x, rep[b])
  {
    hide Elems;
    var b := BlockOf(num, |Elems(blk)|, x);
    assert MayStand(blk, |Elems(blk)|, rep[b]);
  }

  /** A rejecting delegate wherever there can be one. */
  lemma WorstDelegates(A: Automaton, blk: seq<nat>) returns (rep: map<nat, nat>)
    requires |blk| == A.states > 0 && forall s: nat :: s < |blk| && blk[s] == blk[0] ==> s == 0
    ensures Delegates(blk, rep) && forall s: nat :: s < |blk| && !Safe(A, blk, |Elems(blk)|, s) ==> blk[s] in rep && rep[blk[s]] !in A.accept
  {
    var k := |Elems(blk)|;
    forall b | b in Elems(blk) ensures exists t: nat :: Worst(A, blk, k, b, t) {
      SomeWorst(A, blk, k, b);
    }
    rep := map b | b in Elems(blk) :: (var t: nat :| Worst(A, blk, k, b, t); t);
    assert forall b: nat :: b in rep ==> Worst(A, blk, k, b, rep[b]);
    assert blk[0] in Elems(blk) && blk[rep[blk[0]]] == blk[0];
    forall s: nat | s < |blk| && !Safe(A, blk, k, s) ensures blk[s] in rep && rep[blk[s]] !in A.accept {
      assert blk[s] in Elems(blk) && Worst(A, blk, k, blk[s], rep[blk[s]]);
      var r: nat :| MayStand(blk, k, r) && blk[r] == blk[s] && r !in A.accept;
    }
  }

  /** `t` may stand for block `b`, and rejects if any such member does. */
  ghost predicate Worst(A: Automaton, blk: seq<nat>, k: nat, b: nat, t: nat) {
    MayStand(blk, k, t) && blk[t] == b && (t in A.accept ==> Safe(A, blk, k, t))
  }

  lemma SomeWorst(A: Automaton, blk: seq<nat>, k: nat, b: nat)
    requires b in Elems(blk)
    ensures exists t: nat :: Worst(A, blk, k, b, t)
  {
    var s: nat :| s < |blk| && blk[s] == b;
    var t: nat := s;
    if !NoSmall(blk, k, b) {
      t :| t < k && t < |blk| && blk[t] == b;
    }
    assert MayStand(blk, k, t) && blk[t] == b;
    if !Safe(A, blk, k, t) {
      var r: nat :| MayStand(blk, k, r) && blk[r] == b && r !in A.accept;
      assert Worst(A, blk, k, b, r);
    } else {
      assert Worst(A, blk, k, b, t);
    }
  }

  /** Turned round, only the initial state accepts: it has a block of its own. */
  lemma InitialAlone(A: Automaton, blk: seq<nat>, s: nat)
    requires A.states > 0 && Uniform(Reverse(A), blk) && |blk| == A.states && s < |blk| && blk[s] == blk[0]
    ensures s == 0
  {
    assert SameObservations(Reverse(A), s, 0);
  }

  /** All renumberings keep the language exactly if every accepted word arrives safely. */
  lemma AllKeepIffSafe(A: Automaton, blk: seq<nat>)
    requires A.Valid() && A.states > 0 && Stable(Reverse(A), blk) && Uniform(Reverse(A), blk)
    ensures |blk| == A.states
    ensures (forall remap: seq<nat>, comesFrom: seq<nat> :: Renumbers(blk, |Elems(blk)|, remap, comesFrom) ==> KeepsLanguage(A, Merged(A, |Elems(blk)|, remap, comesFrom)))
            <==> ArrivesSafely(A, blk)
  {
    if ArrivesSafely(A, blk) {
      forall remap: seq<nat>, comesFrom: seq<nat> | Renumbers(blk, |Elems(blk)|, remap, comesFrom) ensures KeepsLanguage(A, Merged(A, |Elems(blk)|, remap, comesFrom)) {
        SafelyKept(A, blk, remap, comesFrom);
      }
    } else {
      var remap, comesFrom := UnsafeLoses(A, blk);
    }
  }

  lemma UnsafeLoses(A: Automaton, blk: seq<nat>) returns (remap: seq<nat>, comesFrom: seq<nat>)
    requires A.Valid() && A.states > 0 && Stable(Reverse(A), blk) && Uniform(Reverse(A), blk) && !ArrivesSafely(A, blk)
    ensures Renumbers(blk, |Elems(blk)|, remap, comesFrom) && !KeepsLanguage(A, Merged(A, |Elems(blk)|, remap, comesFrom))
  {
    var k := |Elems(blk)|;
    forall s: nat | s < |blk| && blk[s] == blk[0] ensures s == 0 {
      InitialAlone(A, blk, s);
    }
    var rep := WorstDelegates(A, blk);
    remap, comesFrom := DelegatesCanStand(blk, rep);
    var w :| Accepts(A, 0, w) && !SafeArrival(A, blk, w);
    MergedAccepts(A, blk, k, remap, comesFrom, w);
    hide Stable, Uniform, Safe, Delegates, Renumbers;
    forall s: nat | s < |remap| && Path(A, 0, w, s) ensures comesFrom[remap[s]] !in A.accept {
      assert !Safe(A, blk, k, s);
    }
  }

  /** Every accepting state that is reached is safe. */
  ghost predicate ReachedAreSafe(A: Automaton, blk: seq<nat>) {
    forall w, s: nat :: Path(A, 0, w, s) && s in A.accept ==> Safe(A, blk, |Elems(blk)|, s)
  }

  /** If no word leads to two blocks: exactly if every accepting state that is reached is safe. */
  lemma SafeIffStatesSafe(A: Automaton, blk: seq<nat>)
    requires A.Valid() && A.states > 0 && |blk| == A.states && Unambiguous(A, blk)
    ensures ArrivesSafely(A, blk) <==> ReachedAreSafe(A, blk)
  {
    var k := |Elems(blk)|;
    if ArrivesSafely(A, blk) {
      forall w, s: nat | Path(A, 0, w, s) && s in A.accept ensures Safe(A, blk, k, s) {
        AcceptsIsPath(A, 0, w);
        assert SafeArrival(A, blk, w);
        var t: nat :| Path(A, 0, w, t) && Safe(A, blk, k, t);
        assert blk[s] == blk[t];
      }
    }
    if ReachedAreSafe(A, blk) {
      forall w | Accepts(A, 0, w) ensures SafeArrival(A, blk, w) {
        AcceptsIsPath(A, 0, w);
        var s: nat :| Path(A, 0, w, s) && s in A.accept;
        assert Safe(A, blk, k, s);
      }
    }
  }

  // ---- The same for the automaton alone.

  /** The blocks are those of the reversed automaton. */
  ghost predicate SafeToMerge(A: Automaton) {
    exists blk: seq<nat> :: IsResult(Reverse(A), blk) && ArrivesSafely(A, blk)
  }

  lemma ResultsRefine(A: Automaton, b1: seq<nat>, b2: seq<nat>)
    requires IsResult(A, b1) && IsResult(A, b2)
    ensures Refines(b1, b2) && Stable(A, b1) && Uniform(A, b1)
  {
    var i1 :| ByObservation(A, i1) && CoarsestStable(A, i1, b1);
    var i2 :| ByObservation(A, i2) && CoarsestStable(A, i2, b2);
    ObservationsAgree(A, i1, i2);
    RefinesTransitive(b1, i1, i2);
  }

  lemma SafeWhateverTheNames(A: Automaton, b1: seq<nat>, b2: seq<nat>)
    requires IsResult(Reverse(A), b1) && IsResult(Reverse(A), b2) && ArrivesSafely(A, b1)
    ensures ArrivesSafely(A, b2)
  {
    ResultsRefine(Reverse(A), b1, b2);
    ResultsRefine(Reverse(A), b2, b1);
    SameCount(Reverse(A), b1, b2);
    hide IsResult, Stable, Uniform;
    var k := |Elems(b1)|;
    forall w | Accepts(A, 0, w) ensures SafeArrival(A, b2, w) {
      assert SafeArrival(A, b1, w);
      var s: nat :| Path(A, 0, w, s) && Safe(A, b1, k, s);
      forall t: nat | MayStand(b2, k, t) && b2[t] == b2[s] ensures t in A.accept {
        assert b1[t] == b1[s] && MayStand(b1, k, t);
      }
      assert Safe(A, b2, k, s);
    }
  }

  /** What the optimizer may end with: the blocks in some order, each with a member that may stand for it. */
  ghost predicate Admissible(A: Automaton, k: nat, remap: seq<nat>, comesFrom: seq<nat>) {
    exists blk: seq<nat> :: IsResult(Reverse(A), blk) && k == |Elems(blk)| && Renumbers(blk, k, remap, comesFrom)
  }

  /** Merging from the left is sure to keep the language exactly if the automaton is safe to merge. */
  lemma MergingKeepsIffSafe(A: Automaton, blk: seq<nat>)
    requires A.Valid() && A.states > 0 && IsResult(Reverse(A), blk)
    ensures (forall k: nat, remap: seq<nat>, comesFrom: seq<nat> :: Admissible(A, k, remap, comesFrom) && |remap| == A.states && k <= |comesFrom| ==> KeepsLanguage(A, Merged(A, k, remap, comesFrom)))
            <==> SafeToMerge(A)
  {
    ResultsRefine(Reverse(A), blk, blk);
    AllKeepIffSafe(A, blk);
    if SafeToMerge(A) {
      forall k: nat, remap: seq<nat>, comesFrom: seq<nat> | Admissible(A, k, remap, comesFrom) && |remap| == A.states && k <= |comesFrom|
        ensures KeepsLanguage(A, Merged(A, k, remap, comesFrom))
      {
        SafeOutcome(A, k, remap, comesFrom);
      }
    } else {
      var remap, comesFrom := UnsafeLoses(A, blk);
      assert Admissible(A, |Elems(blk)|, remap, comesFrom);
    }
  }

  lemma SafeOutcome(A: Automaton, k: nat, remap: seq<nat>, comesFrom: seq<nat>)
    requires A.Valid() && A.states > 0 && SafeToMerge(A) && Admissible(A, k, remap, comesFrom) && |remap| == A.states && k <= |comesFrom|
    ensures KeepsLanguage(A, Merged(A, k, remap, comesFrom))
  {
    var b1: seq<nat> :| IsResult(Reverse(A), b1) && ArrivesSafely(A, b1);
    var b2: seq<nat> :| IsResult(Reverse(A), b2) && k == |Elems(b2)| && Renumbers(b2, k, remap, comesFrom);
    SafeWhateverTheNames(A, b1, b2);
    ResultsRefine(Reverse(A), b2, b2);
    SafelyKept(A, b2, remap, comesFrom);
  }

  // ---- An automaton that is not safe.

  /** One symbol leads to 1, which rejects, and to 2, which accepts. */
  function Forked(): Automaton {
    Automaton(3, 1, {Edge(0, 0, 1), Edge(0, 0, 2)}, {2})
  }

  lemma ForkedBlocks(blk: seq<nat>)
    requires IsResult(Reverse(Forked()), blk)
    ensures |blk| == 3 && blk[0] != blk[1] && blk[1] == blk[2] && |Elems(blk)| == 2
  {
    var A := Forked();
    var R := Reverse(A);
    ForkedArrivals();
    var initial :| ByObservation(R, initial) && CoarsestStable(R, initial, blk);
    assert SameObservations(R, 1, 2) && !SameObservations(R, 0, 1);
    hide SameObservations, Reverse, ByObservation;
    var forked: seq<nat> := [0, 1, 1];
    assert Refines(forked, initial);
    assert Elems(blk) == {blk[0], blk[1]};
  }

  /** Whichever way the blocks are numbered, {1, 2} is left with 1, which rejects, and the one word is lost. */
  lemma MergingCanLoseWords(k: nat, remap: seq<nat>, comesFrom: seq<nat>)
    requires Admissible(Forked(), k, remap, comesFrom)
    ensures Forked().Valid() && |remap| == 3 && k == 2 <= |comesFrom|
    ensures Accepts(Forked(), 0, [0]) && !Accepts(Merged(Forked(), k, remap, comesFrom), 0, [0])
  {
    var A := Forked();
    var blk: seq<nat> :| IsResult(Reverse(A), blk) && k == |Elems(blk)| && Renumbers(blk, k, remap, comesFrom);
    ForkedBlocks(blk);
    ResultsRefine(Reverse(A), blk, blk);
    assert A.Has(0, 0, 2) && Accepts(A, 2, []);
    assert [0][1..] == [];
    hide Stable, Uniform, IsResult;
    MergedAccepts(A, blk, k, remap, comesFrom, [0]);
    forall s: nat | s < 3 ensures comesFrom[remap[s]] !in A.accept {
      StandsIn(blk, k, remap, comesFrom, s);
      assert !NoSmall(blk, 2, blk[0]) && !NoSmall(blk, 2, blk[1]);
    }
  }

  lemma ForkedArrivals()
    ensures var R := Reverse(Forked());
            && Forked().Valid() && R.states == 3 && R.accept == {0} && Stable(R, [0, 1, 1]) && Uniform(R, [0, 1, 1])
            && forall s: nat, a: nat, t: nat :: R.Has(s, a, t) <==> (s == 1 || s == 2) && a == 0 && t == 0
  {
    var R := Reverse(Forked());
    assert R.trans == {Edge(1, 0, 0), Edge(2, 0, 0)};
    hide Reverse;
    assert R.Has(1, 0, 0) && R.Has(2, 0, 0);
    assert forall s: nat, a: nat, t: nat :: R.Has(s, a, t) ==> (s == 1 || s == 2) && a == 0 && t == 0;
  }
}
