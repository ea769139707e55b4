/** Why two splits are enough: the theory behind the three-way split and the bound on how often a state is looked at. */
module PaigeTarjanTheory {
  // Refining by one part of a splitter and by the remainder keeps a partition stable for all splitters. A
  // splitter assignment `spl` gives each state the splitter its block belongs to.

  import opened Arithmetic
  import opened Automata
  import opened SeqFacts
  import opened RefinablePartitions
  import opened PartitionRefinement

  /** All members of a block can reach a splitter on `a`, or none can. */
  ghost predicate StableFor(A: Automaton, blk: seq<nat>, spl: seq<nat>, a: nat) {
    && |blk| == |spl|
    && forall p: nat, q: nat, h: nat :: p < |blk| && q < |blk| && blk[p] == blk[q] && Reaches(A, spl, p, a, h) ==> Reaches(A, spl, q, a, h)
  }

  /** The successors of `s` on `a` among the states `T`. */
  ghost function Hits(A: Automaton, s: nat, a: nat, T: set<nat>): set<nat> {
    set t | t in T && A.Has(s, a, t)
  }

  type Counts = map<(nat, nat, nat), nat>

  /** A count that is not stored is zero. */
  function Stored(counts: Counts, h: nat, a: nat, s: nat): nat {
    if (h, a, s) in counts then counts[(h, a, s)] else 0
  }

  /** For symbol `a` every stored count is the number of successors in that splitter. */
  ghost predicate Exact(A: Automaton, spl: seq<nat>, counts: Counts, a: nat) {
    && (forall h: nat, s: nat :: Stored(counts, h, a, s) == |Hits(A, s, a, Members(spl, h))|)
  }

  /** Zero counts are never stored. */
  ghost predicate NoZeros(counts: Counts) {
    forall k :: k in counts ==> counts[k] > 0
  }

  /** `now` is `was` with part of splitter `h` moved to the unused splitter `r`. */
  ghost predicate Cuts(was: seq<nat>, now: seq<nat>, h: nat, r: nat) {
    && |was| == |now| && h != r
    && (forall s :: 0 <= s < |was| ==> was[s] != r)
    && (forall s :: 0 <= s < |was| ==> now[s] == was[s] || (was[s] == h && now[s] == r))
  }

  lemma ReachesIffHits(A: Automaton, spl: seq<nat>, s: nat, a: nat, h: nat)
    ensures Reaches(A, spl, s, a, h) <==> Hits(A, s, a, Members(spl, h)) != {}
    ensures Reaches(A, spl, s, a, h) <==> |Hits(A, s, a, Members(spl, h))| > 0
  {
    var hits := Hits(A, s, a, Members(spl, h));
    if Reaches(A, spl, s, a, h) {
      var u: nat :| u < |spl| && A.Has(s, a, u) && spl[u] == h;
      assert u in hits;
    }
    if hits != {} {
      var u :| u in hits;
      assert 0 <= u < |spl| && A.Has(s, a, u) && spl[u] == h;
    }
  }

  /** Cutting a splitter divides its counts. */
  lemma CutDividesHits(A: Automaton, was: seq<nat>, now: seq<nat>, h: nat, r: nat, s: nat, a: nat)
    requires Cuts(was, now, h, r)
    ensures |Hits(A, s, a, Members(was, h))| == |Hits(A, s, a, Members(now, h))| + |Hits(A, s, a, Members(now, r))|
    ensures forall g :: g != h && g != r ==> Hits(A, s, a, Members(was, g)) == Hits(A, s, a, Members(now, g))
    ensures Hits(A, s, a, Members(was, r)) == {}
  {
    assert Hits(A, s, a, Members(was, h)) == Hits(A, s, a, Members(now, h)) + Hits(A, s, a, Members(now, r));
    assert Hits(A, s, a, Members(now, h)) !! Hits(A, s, a, Members(now, r));
    forall g | g != h && g != r ensures Hits(A, s, a, Members(was, g)) == Hits(A, s, a, Members(now, g)) {
      assert Members(was, g) == Members(now, g);
    }
  }

  /** The states with a successor in the refiner but none in the remainder. */
  ghost function OnlyInto(A: Automaton, spl: seq<nat>, r: nat, h: nat, a: nat): set<nat> {
    Preimage(A, spl, r, a) - Preimage(A, spl, h, a)
  }

  lemma OnlyIntoIsRespected(A: Automaton, base: seq<nat>, spl: seq<nat>, r: nat, h: nat, a: nat)
    requires A.Valid() && KeepsStable(A, base, spl) && |base| == |spl|
    ensures Respected(A, base, OnlyInto(A, spl, r, h, a))
  {
    PreimageIsRespected(A, base, spl, r, a);
    PreimageIsRespected(A, base, spl, h, a);
  }

  /** Refining by both sets makes a partition that was stable for the whole splitter stable for its two parts. */
  lemma ThreeWaySplit(A: Automaton, before: seq<nat>, blk: seq<nat>, was: seq<nat>, now: seq<nat>, h: nat, r: nat, a: nat)
    requires StableFor(A, before, was, a) && Refines(blk, before) && Cuts(was, now, h, r)
    requires CutOnlyIn(blk, Preimage(A, now, r, a), []) && CutOnlyIn(blk, OnlyInto(A, now, r, h, a), [])
    ensures StableFor(A, blk, now, a)
  {
    forall p: nat, q: nat, g: nat | p < |blk| && q < |blk| && blk[p] == blk[q] && Reaches(A, now, p, a, g)
      ensures Reaches(A, now, q, a, g)
    {
      var into, only := Preimage(A, now, r, a), OnlyInto(A, now, r, h, a);
      assert (p in into <==> q in into) && (p in only <==> q in only) by {
        assert blk[p] == blk[q] && blk[q] == blk[p];
      }
      if g != r && (g != h || p !in into) {
        var t: nat :| t < |now| && A.Has(p, a, t) && now[t] == g;
        assert was[t] == g;
        assert Reaches(A, was, p, a, g);
        assert Reaches(A, was, q, a, g);
        var u: nat :| u < |was| && A.Has(q, a, u) && was[u] == g;
      }
    }
  }

  /** Refinement keeps stability for a fixed splitter assignment. */
  lemma StableForPassesDown(A: Automaton, before: seq<nat>, blk: seq<nat>, spl: seq<nat>, a: nat)
    requires StableFor(A, before, spl, a) && Refines(blk, before)
    ensures StableFor(A, blk, spl, a)
  {
  }

  /** Once every splitter is a single block, stability for splitters is stability. */
  lemma SingleSplittersMeanStable(A: Automaton, blk: seq<nat>, spl: seq<nat>)
    requires A.Valid() && |blk| == |spl| == A.states && Refines(spl, blk)
    requires forall a :: 0 <= a < A.symbols ==> StableFor(A, blk, spl, a)
    ensures Stable(A, blk)
  {
    forall p, q, a: nat, t: nat | 0 <= p < |blk| && 0 <= q < |blk| && blk[p] == blk[q] && A.Has(p, a, t) && t < |blk|
      ensures Reaches(A, blk, q, a, blk[t])
    {
      assert Edge(p, a, t) in A.trans;
      assert StableFor(A, blk, spl, a);
      assert Reaches(A, spl, p, a, spl[t]);
      assert Reaches(A, spl, q, a, spl[t]);
      var u: nat :| u < |spl| && A.Has(q, a, u) && spl[u] == spl[t];
    }
  }

  /** With one splitter for everything, stability is agreement on crashes. */
  lemma OneSplitterIsCrashPattern(A: Automaton, blk: seq<nat>, spl: seq<nat>, a: nat)
    requires A.Valid() && Uniform(A, blk) && |spl| == |blk| && forall s, t :: 0 <= s < |spl| && 0 <= t < |spl| ==> spl[s] == spl[t]
    ensures StableFor(A, blk, spl, a)
  {
    forall p: nat, q: nat, h: nat | p < |blk| && q < |blk| && blk[p] == blk[q] && Reaches(A, spl, p, a, h)
      ensures Reaches(A, spl, q, a, h)
    {
      assert SameObservations(A, p, q);
      assert A.CanStep(p, a);
      var u: nat :| A.Has(q, a, u);
      assert Edge(q, a, u) in A.trans;
    }
  }

  lemma CutPassesDown(fine: seq<nat>, coarse: seq<nat>, X: set<nat>)
    requires CutOnlyIn(coarse, X, []) && Refines(fine, coarse)
    ensures CutOnlyIn(fine, X, [])
  {
    forall p, q | 0 <= p < |fine| && 0 <= q < |fine| && fine[p] == fine[q] && p in X ensures q in X {
      assert coarse[p] == coarse[q];
    }
  }

  lemma KeepsStableCoarser(A: Automaton, base: seq<nat>, blk: seq<nat>, spl: seq<nat>)
    requires KeepsStable(A, base, blk) && Refines(blk, spl)
    ensures KeepsStable(A, base, spl)
  {
  }

  /** While a cut is being processed: symbols already `done` are settled for the cut splitters, the others for the whole one. */
  ghost predicate Settled(A: Automaton, blk: seq<nat>, was: seq<nat>, now: seq<nat>, counts: Counts, done: set<nat>) {
    forall b: nat :: b < A.symbols ==> SettledFor(A, blk, was, now, counts, done, b)
  }

  ghost predicate SettledFor(A: Automaton, blk: seq<nat>, was: seq<nat>, now: seq<nat>, counts: Counts, done: set<nat>, b: nat) {
    var spl := if b in done then now else was;
    StableFor(A, blk, spl, b) && Exact(A, spl, counts, b)
  }

  lemma SettleCut(A: Automaton, blk: seq<nat>, was: seq<nat>, now: seq<nat>, counts: Counts)
    requires Settled(A, blk, was, was, counts, {})
    ensures Settled(A, blk, was, now, counts, {})
  {
    forall b: nat | b < A.symbols ensures SettledFor(A, blk, was, now, counts, {}, b) {
      assert SettledFor(A, blk, was, was, counts, {}, b);
    }
  }

  lemma SettledAt(A: Automaton, blk: seq<nat>, was: seq<nat>, now: seq<nat>, counts: Counts, done: set<nat>, a: nat)
    requires Settled(A, blk, was, now, counts, done) && a < A.symbols && a !in done
    ensures StableFor(A, blk, was, a) && Exact(A, was, counts, a)
  {
    assert SettledFor(A, blk, was, now, counts, done, a);
  }

  lemma SettleOne(A: Automaton, before: seq<nat>, blk: seq<nat>, was: seq<nat>, now: seq<nat>, counts: Counts, after: Counts, done: set<nat>, a: nat)
    requires Settled(A, before, was, now, counts, done) && Refines(blk, before) && StableFor(A, blk, now, a) && Exact(A, now, after, a)
    requires forall b: nat, spl :: b != a && Exact(A, spl, counts, b) ==> Exact(A, spl, after, b)
    ensures Settled(A, blk, was, now, after, done + {a})
  {
    forall b: nat | b < A.symbols ensures SettledFor(A, blk, was, now, after, done + {a}, b) {
      if b != a {
        assert SettledFor(A, before, was, now, counts, done, b);
        StableForPassesDown(A, before, blk, if b in done then now else was, b);
      }
    }
  }

  /** Symbols without transitions are settled for any splitters. */
  lemma SettleRest(A: Automaton, blk: seq<nat>, was: seq<nat>, now: seq<nat>, counts: Counts, done: set<nat>)
    requires Settled(A, blk, was, now, counts, done) && |now| == |blk|
    requires forall e :: e in A.trans ==> e.symbol in done
    ensures Settled(A, blk, now, now, counts, {})
  {
    forall b: nat | b < A.symbols ensures SettledFor(A, blk, now, now, counts, {}, b) {
      assert SettledFor(A, blk, was, now, counts, done, b);
      if b !in done {
        forall s: nat, T ensures Hits(A, s, b, T) == {} {
          forall t | t in T ensures !A.Has(s, b, t) {
            assert Edge(s, b, t) in A.trans ==> b in done;
          }
        }
        forall p: nat, h: nat ensures !Reaches(A, now, p, b, h) {
          ReachesIffHits(A, now, p, b, h);
        }
        forall h: nat, s: nat ensures Stored(counts, h, b, s) == |Hits(A, s, b, Members(now, h))| {
          assert Stored(counts, h, b, s) == |Hits(A, s, b, Members(was, h))|;
        }
      }
    }
  }

  // ---- Keeping the counts.

  /** `after` is `counts` with `extra(s)` added to the entries of splitter `r` and symbol `a`. */
  ghost predicate Added(counts: Counts, after: Counts, r: nat, a: nat, A: Automaton, T: set<nat>) {
    forall h: nat, b: nat, s: nat ::
      Stored(after, h, b, s) == Stored(counts, h, b, s) + if h == r && b == a then |Hits(A, s, a, T)| else 0
  }

  /** One more successor for each of the listed sources. */
  ghost predicate Bumped(counts: Counts, after: Counts, r: nat, a: nat, sources: seq<nat>) {
    forall h: nat, b: nat, s: nat ::
      Stored(after, h, b, s) == Stored(counts, h, b, s) + if h == r && b == a && s in sources then 1 else 0
  }

  lemma BumpOne(counts: Counts, after: Counts, r: nat, a: nat, sources: seq<nat>, source: nat)
    requires Bumped(counts, after, r, a, sources) && source !in sources
    ensures Bumped(counts, after[(r, a, source) := Stored(after, r, a, source) + 1], r, a, sources + [source])
  {
  }

  lemma OneMoreHit(A: Automaton, s: nat, a: nat, T: set<nat>, t: nat)
    requires t !in T
    ensures |Hits(A, s, a, T + {t})| == |Hits(A, s, a, T)| + if A.Has(s, a, t) then 1 else 0
  {
    if A.Has(s, a, t) {
      assert Hits(A, s, a, T + {t}) == Hits(A, s, a, T) + {t};
    } else {
      assert Hits(A, s, a, T + {t}) == Hits(A, s, a, T);
    }
  }

  lemma AddTarget(A: Automaton, counts: Counts, middle: Counts, after: Counts, r: nat, a: nat, T: set<nat>, t: nat, sources: seq<nat>)
    requires Added(counts, middle, r, a, A, T) && t !in T && forall s :: s in sources <==> A.Has(s, a, t)
    requires Bumped(middle, after, r, a, sources)
    ensures Added(counts, after, r, a, A, T + {t})
  {
    forall h: nat, b: nat, s: nat
      ensures Stored(after, h, b, s) == Stored(counts, h, b, s) + if h == r && b == a then |Hits(A, s, a, T + {t})| else 0
    {
      OneMoreHit(A, s, a, T, t);
      hide Hits, Stored;
      assert Stored(after, h, b, s) == Stored(middle, h, b, s) + if h == r && b == a && s in sources then 1 else 0;
      assert Stored(middle, h, b, s) == Stored(counts, h, b, s) + if h == r && b == a then |Hits(A, s, a, T)| else 0;
    }
  }

  /** The counts while the refiner's share is being taken off the remainder, for the sources already `seen`. */
  ghost predicate Subtracted(A: Automaton, counts: Counts, after: Counts, now: seq<nat>, h: nat, a: nat, seen: set<nat>) {
    forall g: nat, b: nat, s: nat ::
      Stored(after, g, b, s) == if g == h && b == a && s in seen then |Hits(A, s, a, Members(now, h))| else Stored(counts, g, b, s)
  }

  /** Before the remainder is reduced: the refiner's counts are exact and the remainder still has those of the whole splitter. */
  ghost predicate ReadyToSubtract(A: Automaton, was: seq<nat>, now: seq<nat>, counts: Counts, h: nat, r: nat, a: nat) {
    && Cuts(was, now, h, r)
    && (forall s: nat :: Stored(counts, r, a, s) == |Hits(A, s, a, Members(now, r))|)
    && (forall s: nat :: Stored(counts, h, a, s) == |Hits(A, s, a, Members(was, h))|)
  }

  lemma AddedIsReady(A: Automaton, was: seq<nat>, now: seq<nat>, counts: Counts, middle: Counts, h: nat, r: nat, a: nat)
    requires Cuts(was, now, h, r) && Exact(A, was, counts, a) && Added(counts, middle, r, a, A, Members(now, r))
    ensures ReadyToSubtract(A, was, now, middle, h, r, a)
  {
    forall s: nat ensures Stored(middle, r, a, s) == |Hits(A, s, a, Members(now, r))| {
      CutDividesHits(A, was, now, h, r, s, a);
    }
    assert forall s: nat :: Stored(counts, h, a, s) == |Hits(A, s, a, Members(was, h))|;
  }

  /** The entry to reduce exists, and what is left is the remainder's own count. */
  lemma SubtractOne(A: Automaton, was: seq<nat>, now: seq<nat>, counts: Counts, after: Counts, h: nat, r: nat, a: nat, seen: set<nat>, s: nat)
    requires ReadyToSubtract(A, was, now, counts, h, r, a) && Subtracted(A, counts, after, now, h, a, seen)
    requires s !in seen && Reaches(A, now, s, a, r)
    ensures (h, a, s) in after && Stored(after, r, a, s) > 0
    ensures after[(h, a, s)] - Stored(after, r, a, s) == |Hits(A, s, a, Members(now, h))|
  {
    CutDividesHits(A, was, now, h, r, s, a);
    ReachesIffHits(A, now, s, a, r);
    assert Stored(after, r, a, s) == Stored(counts, r, a, s);
    assert Stored(after, h, a, s) == Stored(counts, h, a, s);
  }

  lemma SubtractedOne(A: Automaton, counts: Counts, after: Counts, now: seq<nat>, h: nat, a: nat, seen: set<nat>, s: nat, last: Counts)
    requires Subtracted(A, counts, after, now, h, a, seen)
    requires last == if |Hits(A, s, a, Members(now, h))| > 0 then after[(h, a, s) := |Hits(A, s, a, Members(now, h))|] else after - {(h, a, s)}
    ensures Subtracted(A, counts, last, now, h, a, seen + {s})
    ensures NoZeros(after) ==> NoZeros(last)
  {
    forall g: nat, b: nat, u: nat
      ensures Stored(last, g, b, u) == if g == h && b == a && u in seen + {s} then |Hits(A, u, a, Members(now, h))| else Stored(counts, g, b, u)
    {
      if (g, b, u) != (h, a, s) {
        assert Stored(last, g, b, u) == Stored(after, g, b, u);
      }
    }
  }

  /** Added refiner counts and reduced remainder counts are exact for the cut splitters. */
  lemma CountsStayExact(A: Automaton, was: seq<nat>, now: seq<nat>, counts: Counts, middle: Counts, after: Counts, h: nat, r: nat, a: nat)
    requires A.Valid() && Cuts(was, now, h, r) && Exact(A, was, counts, a) && |was| == A.states
    requires Added(counts, middle, r, a, A, Members(now, r))
    requires Subtracted(A, middle, after, now, h, a, Preimage(A, now, r, a))
    ensures Exact(A, now, after, a)
  {
    forall g: nat, s: nat ensures Stored(after, g, a, s) == |Hits(A, s, a, Members(now, g))| {
      CutDividesHits(A, was, now, h, r, s, a);
      if g == h && s !in Preimage(A, now, r, a) {
        ReachesIffHits(A, now, s, a, r);
        if s >= A.states {
          NoSuccessors(A, s, a, Members(now, r));
        }
      }
    }
  }

  lemma NoSuccessors(A: Automaton, s: nat, a: nat, T: set<nat>)
    requires A.Valid() && s >= A.states
    ensures Hits(A, s, a, T) == {}
  {
    forall t | t in T ensures !A.Has(s, a, t) {
      assert Edge(s, a, t) in A.trans ==> s < A.states;
    }
  }

  /** Other symbols' counts are untouched. */
  lemma CountsElsewhere(A: Automaton, spl: seq<nat>, counts: Counts, middle: Counts, after: Counts, now: seq<nat>, h: nat, r: nat, a: nat, b: nat)
    requires Exact(A, spl, counts, b) && b != a
    requires Added(counts, middle, r, a, A, Members(now, r)) && Subtracted(A, middle, after, now, h, a, Preimage(A, now, r, a))
    ensures Exact(A, spl, after, b)
  {
    forall g: nat, s: nat ensures Stored(after, g, b, s) == |Hits(A, s, b, Members(spl, g))| {
    }
  }

  // ---- Process the smaller half.

  /** A state chosen `times[s]` times lies in a splitter of at most n / 2^times[s] states. */
  ghost predicate Halved(spl: seq<nat>, times: seq<nat>) {
    && |times| == |spl|
    && forall s :: 0 <= s < |spl| ==> Pow2(times[s]) * |Members(spl, spl[s])| <= |spl|
  }

  ghost function Bump(times: seq<nat>, chosen: set<nat>): seq<nat> {
    seq(|times|, s requires 0 <= s < |times| => if s in chosen then times[s] + 1 else times[s])
  }

  lemma HalvingStep(was: seq<nat>, now: seq<nat>, h: nat, r: nat, times: seq<nat>)
    requires Halved(was, times) && Cuts(was, now, h, r)
    requires 2 * |Members(now, r)| <= |Members(was, h)|
    ensures Halved(now, Bump(times, Members(now, r)))
  {
    var after := Bump(times, Members(now, r));
    forall s | 0 <= s < |now| ensures Pow2(after[s]) * |Members(now, now[s])| <= |now| {
      if now[s] == r {
        var k, small, big := Pow2(times[s]), |Members(now, r)|, |Members(was, h)|;
        assert was[s] == h;
        assert Pow2(after[s]) * small == k * (2 * small);
        Monotone(k, 2 * small, big);
      } else {
        assert Members(now, now[s]) <= Members(was, was[s]);
        SubsetSize(Members(now, now[s]), Members(was, was[s]));
        Monotone(Pow2(times[s]), |Members(now, now[s])|, |Members(was, was[s])|);
      }
    }
  }

  lemma Monotone(k: nat, x: nat, y: nat)
    requires x <= y
    ensures k * x <= k * y
  {
  }

  /** So no state is chosen more than log2(n) times. */
  lemma ChosenAtMostLog(spl: seq<nat>, times: seq<nat>, s: nat)
    requires Halved(spl, times) && s < |spl|
    ensures Pow2(times[s]) <= |spl|
  {
    assert s in Members(spl, spl[s]);
    assert |Members(spl, spl[s])| >= 1;
    Monotone(Pow2(times[s]), 1, |Members(spl, spl[s])|);
  }
}
