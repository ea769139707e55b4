/** The tournament of edge enumerators, which finds the symbol permutations with the least enumeration. */
module CanonicalLabelling {
  // The symbol permutation whose edge enumeration is lexicographically least is found by letting enumerators
  // play; they lose as soon as their edge is not the least. The automaton is relabelled with the winner.

  import opened Arithmetic
  import opened Options
  import opened SeqFacts
  import opened EdgeEnumeration
  import opened Renumbering

  /** Edges in lexicographic order; `NoMore` comes last. */
  predicate Less(o: Out, p: Out) {
    o.from < p.from || (o.from == p.from && (o.to < p.to || (o.to == p.to && o.symbol < p.symbol)))
  }

  /** The order is that of the edges read as numbers of three digits. */
  lemma LessIsLexicographic(o: Out, p: Out)
    requires o.to <= MAX && o.symbol <= MAX && p.to <= MAX && p.symbol <= MAX
    ensures var base := MAX + 1; Less(o, p) <==> Digits(Digits(o.from, o.to, base), o.symbol, base) < Digits(Digits(p.from, p.to, base), p.symbol, base)
  {
    DigitsOrder(o.from, o.to, p.from, p.to, MAX + 1);
    DigitsOrder(Digits(o.from, o.to, MAX + 1), o.symbol, Digits(p.from, p.to, MAX + 1), p.symbol, MAX + 1);
    hide Digits;
  }

  ghost predicate Perms(D: Dfa, perms: seq<seq<nat>>) {
    D.Valid() && perms != [] && forall p :: p in perms ==> IsPerm(D, p)
  }

  /** The two enumerations agree on their first `r` edges. */
  ghost predicate Same(D: Dfa, p: seq<nat>, E: Dfa, q: seq<nat>, r: nat)
    requires D.Valid() && IsPerm(D, p) && E.Valid() && IsPerm(E, q)
  {
    forall m: nat :: m < r ==> EdgeAt(D, p, m) == EdgeAt(E, q, m)
  }

  /** Within the first `r` edges, `p`'s enumeration is the first to have a smaller one. */
  ghost predicate Before(D: Dfa, p: seq<nat>, E: Dfa, q: seq<nat>, r: nat)
    requires D.Valid() && IsPerm(D, p) && E.Valid() && IsPerm(E, q)
  {
    exists m: nat :: m < r && Same(D, p, E, q, m) && Less(EdgeAt(D, p, m), EdgeAt(E, q, m))
  }

  ghost predicate AtMost(D: Dfa, p: seq<nat>, E: Dfa, q: seq<nat>, r: nat)
    requires D.Valid() && IsPerm(D, p) && E.Valid() && IsPerm(E, q)
  {
    Same(D, p, E, q, r) || Before(D, p, E, q, r)
  }

  /** No permutation has a smaller list of first `r` edges. */
  ghost predicate LeastUpTo(D: Dfa, perms: seq<seq<nat>>, p: seq<nat>, r: nat)
    requires Perms(D, perms) && IsPerm(D, p)
  {
    forall q :: q in perms ==> AtMost(D, p, D, q, r)
  }

  /** No permutation has a smaller enumeration. */
  ghost predicate Least(D: Dfa, perms: seq<seq<nat>>, p: seq<nat>)
    requires Perms(D, perms) && IsPerm(D, p)
  {
    forall r: nat :: LeastUpTo(D, perms, p, r)
  }

  lemma Asymmetric(D: Dfa, p: seq<nat>, E: Dfa, q: seq<nat>, r: nat)
    requires D.Valid() && IsPerm(D, p) && E.Valid() && IsPerm(E, q) && AtMost(D, p, E, q, r) && AtMost(E, q, D, p, r)
    ensures Same(D, p, E, q, r)
  {
    hide EdgeAt, IsPerm;
    if Before(D, p, E, q, r) {
      var m: nat :| m < r && Same(D, p, E, q, m) && Less(EdgeAt(D, p, m), EdgeAt(E, q, m));
      NotBoth(D, p, E, q, r, m);
    }
  }

  /** If the first difference is in favour of `p`, it is not in favour of `q`, and there is one. */
  lemma NotBoth(D: Dfa, p: seq<nat>, E: Dfa, q: seq<nat>, r: nat, m: nat)
    requires D.Valid() && IsPerm(D, p) && E.Valid() && IsPerm(E, q) && m < r && Same(D, p, E, q, m) && Less(EdgeAt(D, p, m), EdgeAt(E, q, m))
    ensures !AtMost(E, q, D, p, r)
  {
    hide EdgeAt, IsPerm;
    assert EdgeAt(D, p, m) != EdgeAt(E, q, m);
    forall k: nat | k > m ensures !Same(E, q, D, p, k) {
    }
    forall k: nat | k <= m ensures !Less(EdgeAt(E, q, k), EdgeAt(D, p, k)) {
      if k < m {
        assert EdgeAt(D, p, k) == EdgeAt(E, q, k);
      }
    }
  }

  /** One more edge. */
  lemma AtMostStep(D: Dfa, p: seq<nat>, E: Dfa, q: seq<nat>, r: nat)
    requires D.Valid() && IsPerm(D, p) && E.Valid() && IsPerm(E, q)
    ensures AtMost(D, p, E, q, r + 1) <==> Before(D, p, E, q, r) || (Same(D, p, E, q, r) && !Less(EdgeAt(E, q, r), EdgeAt(D, p, r)))
  {
    hide EdgeAt, IsPerm;
    if Before(D, p, E, q, r + 1) {
      var m: nat :| m < r + 1 && Same(D, p, E, q, m) && Less(EdgeAt(D, p, m), EdgeAt(E, q, m));
      assert m < r ==> Before(D, p, E, q, r);
    }
    if Before(D, p, E, q, r) {
      var m: nat :| m < r && Same(D, p, E, q, m) && Less(EdgeAt(D, p, m), EdgeAt(E, q, m));
    }
  }

  /** The survivors of one more round are those with the least edge among the survivors so far. */
  lemma LeastStep(D: Dfa, perms: seq<seq<nat>>, p: seq<nat>, r: nat)
    requires Perms(D, perms) && p in perms
    ensures LeastUpTo(D, perms, p, r + 1) <==>
              LeastUpTo(D, perms, p, r) && forall q :: q in perms && LeastUpTo(D, perms, q, r) ==> !Less(EdgeAt(D, q, r), EdgeAt(D, p, r))
  {
    forall q | q in perms ensures AtMost(D, p, D, q, r + 1) <==> Before(D, p, D, q, r) || (Same(D, p, D, q, r) && !Less(EdgeAt(D, q, r), EdgeAt(D, p, r))) {
      AtMostStep(D, p, D, q, r);
    }
    if LeastUpTo(D, perms, p, r + 1) {
      forall q | q in perms ensures AtMost(D, p, D, q, r) {
        assert AtMost(D, p, D, q, r + 1);
      }
      forall q | q in perms && LeastUpTo(D, perms, q, r) ensures !Less(EdgeAt(D, q, r), EdgeAt(D, p, r)) {
        assert AtMost(D, p, D, q, r + 1) && AtMost(D, q, D, p, r) && AtMost(D, p, D, q, r);
        Asymmetric(D, p, D, q, r);
        NotBefore(D, p, q, r);
      }
    }
    if LeastUpTo(D, perms, p, r) && forall q :: q in perms && LeastUpTo(D, perms, q, r) ==> !Less(EdgeAt(D, q, r), EdgeAt(D, p, r)) {
      forall q | q in perms ensures AtMost(D, p, D, q, r + 1) {
        assert AtMost(D, p, D, q, r);
        if !Before(D, p, D, q, r) {
          SameIsLeast(D, perms, p, q, r);
        }
      }
    }
  }

  lemma NotBefore(D: Dfa, p: seq<nat>, q: seq<nat>, r: nat)
    requires D.Valid() && IsPerm(D, p) && IsPerm(D, q) && Same(D, p, D, q, r)
    ensures !Before(D, p, D, q, r)
  {
    forall m: nat | m < r ensures !Less(EdgeAt(D, p, m), EdgeAt(D, q, m)) {
      assert EdgeAt(D, p, m) == EdgeAt(D, q, m);
    }
  }

  lemma SameIsLeast(D: Dfa, perms: seq<seq<nat>>, p: seq<nat>, q: seq<nat>, r: nat)
    requires Perms(D, perms) && p in perms && q in perms && Same(D, p, D, q, r) && LeastUpTo(D, perms, p, r)
    ensures LeastUpTo(D, perms, q, r)
  {
    forall s | s in perms ensures AtMost(D, q, D, s, r) {
      assert AtMost(D, p, D, s, r);
      if Before(D, p, D, s, r) {
        var m: nat :| m < r && Same(D, p, D, s, m) && Less(EdgeAt(D, p, m), EdgeAt(D, s, m));
        assert Same(D, q, D, s, m) && Less(EdgeAt(D, q, m), EdgeAt(D, s, m));
      }
    }
  }

  // ---- The tournament.

  /** Each entry is a permutation with its enumerator after `r` calls, and those left are the least up to now. */
  ghost predicate Playing(D: Dfa, perms: seq<seq<nat>>, es: seq<(seq<nat>, Enumerator)>, r: nat) {
    && Perms(D, perms) && es != []
    && (forall i :: 0 <= i < |es| ==> InPlay(D, perms, es[i], r))
    && (forall p :: p in perms && LeastUpTo(D, perms, p, r) ==> Plays(es, p))
  }

  ghost predicate InPlay(D: Dfa, perms: seq<seq<nat>>, e: (seq<nat>, Enumerator), r: nat)
    requires Perms(D, perms)
  {
    e.0 in perms && e.1 == After(D, e.0, r) && LeastUpTo(D, perms, e.0, r)
  }

  ghost predicate Plays(es: seq<(seq<nat>, Enumerator)>, p: seq<nat>) {
    exists i :: 0 <= i < |es| && es[i].0 == p
  }

  /** A call of an enumerator, as the loops compute it. */
  method CallEnumerator(D: Dfa, perm: seq<nat>, en0: Enumerator) returns (en: Enumerator, edge: Out)
    requires Fits(D, perm, en0)
    ensures (en, edge) == Next(D, perm, en0)
  {
    en := TakeUp(D, en0);
    ghost var start := en;
    while true
      invariant Fits(D, perm, en) && Scan(D, perm, en) == Scan(D, perm, start)
      decreases |en.queue|, D.symbols - en.a
    {
      if en.a < D.symbols {
        match D.step[en.cur][perm[en.a]]
        case Some(dest) =>
          var met := Meet(en, dest);
          return met.(resume := true), Out(met.renumbering[met.cur], met.renumbering[dest], met.a);
        case None =>
          en := en.(a := en.a + 1);
      } else if en.queue != [] {
        en := en.(cur := en.queue[0], queue := en.queue[1..], a := 0);
      } else {
        return en.(resume := false), NoMore;
      }
    }
  }

  /** The entries from place `i` on whose edge of round `r` is `edge`, one call further. */
  ghost predicate KeptFrom(D: Dfa, es: seq<(seq<nat>, Enumerator)>, i: nat, edge: Out, kept: seq<(seq<nat>, Enumerator)>)
    requires forall j :: 0 <= j < |es| ==> Fits(D, es[j].0, es[j].1)
  {
    && (forall k :: 0 <= k < |kept| ==> exists j :: i <= j < |es| && Advances(D, es[j], edge, kept[k]))
    && (forall j :: i <= j < |es| ==> !Less(Next(D, es[j].0, es[j].1).1, edge))
    && (forall j :: i <= j < |es| && Next(D, es[j].0, es[j].1).1 == edge ==> exists k :: 0 <= k < |kept| && Advances(D, es[j], edge, kept[k]))
  }

  ghost predicate Advances(D: Dfa, e: (seq<nat>, Enumerator), edge: Out, f: (seq<nat>, Enumerator))
    requires Fits(D, e.0, e.1)
  {
    f.0 == e.0 && Next(D, e.0, e.1) == (f.1, edge)
  }

  /** An edge is never after `NoMore`. */
  ghost predicate Bounded(D: Dfa, es: seq<(seq<nat>, Enumerator)>)
    requires forall j :: 0 <= j < |es| ==> Fits(D, es[j].0, es[j].1)
  {
    forall j :: 0 <= j < |es| ==> !Less(NoMore, Next(D, es[j].0, es[j].1).1)
  }

  /** Calls the enumerator at place `i`; drops it if its edge is not the least, and those after it if theirs no longer are. */
  method CallOne(D: Dfa, ghost es0: seq<(seq<nat>, Enumerator)>, i: nat, es1: seq<(seq<nat>, Enumerator)>, least1: Out, ghost kept1: seq<(seq<nat>, Enumerator)>)
      returns (es: seq<(seq<nat>, Enumerator)>, least: Out, ghost kept: seq<(seq<nat>, Enumerator)>)
    requires (forall j :: 0 <= j < |es0| ==> Fits(D, es0[j].0, es0[j].1)) && Bounded(D, es0) && i < |es0|
    requires es1 == es0[..i + 1] + kept1 && KeptFrom(D, es0, i + 1, least1, kept1) && (kept1 == [] ==> least1 == NoMore)
    ensures es == es0[..i] + kept && KeptFrom(D, es0, i, least, kept) && kept != []
  {
    hide Next, Fits, KeptFrom;
    assert es1 == es0[..i] + [es0[i]] + kept1;
    var en, edge := CallEnumerator(D, es1[i].0, es1[i].1);
    ghost var f := (es0[i].0, en);
    es, least, kept := es1[i := (es1[i].0, en)], least1, kept1;
    assert es == es0[..i] + [f] + kept;
    Erasures(es0[..i], f, kept);
    assert !Less(NoMore, edge) by {
      assert edge == Next(D, es0[i].0, es0[i].1).1;
    }
    if Less(least, edge) {
      es := es[..i] + es[i + 1..];
      KeepWorse(D, es0, i, least, kept);
    } else if Less(edge, least) {
      es := es[..i + 1];
      KeepBetter(D, es0, i, least, kept, edge, f);
      least, kept := edge, [f];
    } else {
      KeepEqual(D, es0, i, least, kept, f);
      kept := [f] + kept;
    }
  }

  /** One round: every enumerator is called once, from the last to the first, and only those with the least edge stay. */
  method PlayRound(D: Dfa, es0: seq<(seq<nat>, Enumerator)>) returns (es: seq<(seq<nat>, Enumerator)>, least: Out)
    requires (forall j :: 0 <= j < |es0| ==> Fits(D, es0[j].0, es0[j].1)) && Bounded(D, es0)
    ensures KeptFrom(D, es0, 0, least, es) && (es0 != [] ==> es != [])
  {
    es, least := es0, NoMore;
    var i := |es|;
    ghost var kept: seq<(seq<nat>, Enumerator)> := [];
    assert KeptFrom(D, es0, i, least, kept);
    assert es == es0[..i] + kept;
    hide Next, Fits, KeptFrom, Bounded;
    while i > 0
      invariant 0 <= i <= |es0| && es == es0[..i] + kept && KeptFrom(D, es0, i, least, kept)
      invariant if i < |es0| then kept != [] else least == NoMore && kept == []
    {
      i := i - 1;
      es, least, kept := CallOne(D, es0, i, es, least, kept);
    }
    assert es == kept;
  }

  lemma Erasures<T>(front: seq<T>, f: T, kept: seq<T>)
    ensures var es := front + [f] + kept;
            es[..|front|] + es[|front| + 1..] == front + kept && es[..|front| + 1] == front + [f] && es == front + ([f] + kept)
  {
  }

  lemma KeepWorse(D: Dfa, es: seq<(seq<nat>, Enumerator)>, i: nat, least: Out, kept: seq<(seq<nat>, Enumerator)>)
    requires (forall j :: 0 <= j < |es| ==> Fits(D, es[j].0, es[j].1)) && i < |es| && KeptFrom(D, es, i + 1, least, kept)
    requires Less(least, Next(D, es[i].0, es[i].1).1)
    ensures KeptFrom(D, es, i, least, kept)
  {
  }

  lemma KeepBetter(D: Dfa, es: seq<(seq<nat>, Enumerator)>, i: nat, least: Out, kept: seq<(seq<nat>, Enumerator)>, edge: Out, f: (seq<nat>, Enumerator))
    requires (forall j :: 0 <= j < |es| ==> Fits(D, es[j].0, es[j].1)) && i < |es| && KeptFrom(D, es, i + 1, least, kept)
    requires Advances(D, es[i], edge, f) && Less(edge, least)
    ensures KeptFrom(D, es, i, edge, [f])
  {
    hide Next, Fits;
    assert [f][0] == f;
  }

  /** `g` is what one of the enumerators from `i` on becomes when it returns `edge`. */
  ghost predicate Origin(D: Dfa, es: seq<(seq<nat>, Enumerator)>, i: nat, edge: Out, g: (seq<nat>, Enumerator))
    requires forall j :: 0 <= j < |es| ==> Fits(D, es[j].0, es[j].1)
  {
    exists j :: i <= j < |es| && Advances(D, es[j], edge, g)
  }

  lemma KeepEqual(D: Dfa, es: seq<(seq<nat>, Enumerator)>, i: nat, least: Out, kept: seq<(seq<nat>, Enumerator)>, f: (seq<nat>, Enumerator))
    requires (forall j :: 0 <= j < |es| ==> Fits(D, es[j].0, es[j].1)) && i < |es| && KeptFrom(D, es, i + 1, least, kept)
    requires Advances(D, es[i], least, f)
    ensures KeptFrom(D, es, i, least, [f] + kept)
  {
    var all := [f] + kept;
    hide Next, Fits, Less;
    forall k | 0 <= k < |all| ensures Origin(D, es, i, least, all[k]) {
      if k > 0 {
        assert all[k] == kept[k - 1] && Origin(D, es, i + 1, least, kept[k - 1]);
      }
    }
    EqualFound(D, es, i, least, kept, f);
    NotLessItself(least);
  }

  lemma EqualFound(D: Dfa, es: seq<(seq<nat>, Enumerator)>, i: nat, least: Out, kept: seq<(seq<nat>, Enumerator)>, f: (seq<nat>, Enumerator))
    requires (forall j :: 0 <= j < |es| ==> Fits(D, es[j].0, es[j].1)) && i < |es|
    requires forall j :: i + 1 <= j < |es| && Next(D, es[j].0, es[j].1).1 == least ==> exists k :: 0 <= k < |kept| && Advances(D, es[j], least, kept[k])
    requires Advances(D, es[i], least, f)
    ensures forall j :: i <= j < |es| && Next(D, es[j].0, es[j].1).1 == least ==> exists k :: 0 <= k < |[f] + kept| && Advances(D, es[j], least, ([f] + kept)[k])
  {
    hide Next, Fits, Advances;
    var all := [f] + kept;
    forall j | i <= j < |es| && Next(D, es[j].0, es[j].1).1 == least ensures exists k :: 0 <= k < |all| && Advances(D, es[j], least, all[k]) {
      if j == i {
        assert all[0] == f;
      } else {
        var k :| 0 <= k < |kept| && Advances(D, es[j], least, kept[k]);
        assert all[k + 1] == kept[k];
      }
    }
  }

  lemma NotLessItself(o: Out)
    ensures !Less(o, o)
  {
  }

  /** An edge names states that have been met, so it comes before `NoMore`. */
  lemma EdgesBounded(D: Dfa, perm: seq<nat>, n: nat)
    requires D.Valid() && IsPerm(D, perm)
    ensures !Less(NoMore, EdgeAt(D, perm, n))
  {
    var o := EdgeAt(D, perm, n);
    if o != NoMore {
      AfterTracks(D, perm, n + 1);
      assert o in Outs(D, perm, n + 1);
      var en := TakeUp(D, After(D, perm, n + 1));
      assert ComesFrom(D, perm, en, o);
      var s: nat, a: nat :| Tried(D, en, s, a) && IsEdge(D, perm, en, o, s, a);
      BoundedSetSize(MetSet(en), |D.step|);
      assert o.from < MAX;
    }
  }

  /** A call in round `r` returns the r-th edge. */
  lemma CallInRound(D: Dfa, perms: seq<seq<nat>>, e: (seq<nat>, Enumerator), r: nat)
    requires Perms(D, perms) && InPlay(D, perms, e, r)
    ensures IsPerm(D, e.0) && Fits(D, e.0, e.1) && Next(D, e.0, e.1) == (After(D, e.0, r + 1), EdgeAt(D, e.0, r))
  {
  }

  /** No survivor so far has an edge before the least. */
  lemma NoneBelow(D: Dfa, perms: seq<seq<nat>>, es: seq<(seq<nat>, Enumerator)>, r: nat, least: Out, kept: seq<(seq<nat>, Enumerator)>, q: seq<nat>)
    requires Playing(D, perms, es, r) && forall j :: 0 <= j < |es| ==> Fits(D, es[j].0, es[j].1)
    requires KeptFrom(D, es, 0, least, kept) && q in perms && LeastUpTo(D, perms, q, r)
    ensures !Less(EdgeAt(D, q, r), least)
    ensures EdgeAt(D, q, r) == least ==> Plays(kept, q)
  {
    hide LeastUpTo, Fits, Next, EdgeAt, After, IsPerm;
    assert Plays(es, q);
    var j :| 0 <= j < |es| && es[j].0 == q;
    assert InPlay(D, perms, es[j], r);
    CallInRound(D, perms, es[j], r);
    if EdgeAt(D, q, r) == least {
      var k :| 0 <= k < |kept| && Advances(D, es[j], least, kept[k]);
    }
  }

  lemma KeptIsSurvivor(D: Dfa, perms: seq<seq<nat>>, es: seq<(seq<nat>, Enumerator)>, r: nat, least: Out, kept: seq<(seq<nat>, Enumerator)>, k: nat)
    requires Playing(D, perms, es, r) && k < |kept| && forall j :: 0 <= j < |es| ==> Fits(D, es[j].0, es[j].1)
    requires KeptFrom(D, es, 0, least, kept)
    ensures kept[k].0 in perms && LeastUpTo(D, perms, kept[k].0, r) && EdgeAt(D, kept[k].0, r) == least && kept[k].1 == After(D, kept[k].0, r + 1)
  {
    hide LeastUpTo, Fits, Next, EdgeAt, After, IsPerm;
    var j :| 0 <= j < |es| && Advances(D, es[j], least, kept[k]);
    assert InPlay(D, perms, es[j], r);
    CallInRound(D, perms, es[j], r);
  }

  /** A round leaves exactly the least up to one edge more. */
  lemma RoundKeepsPlaying(D: Dfa, perms: seq<seq<nat>>, es: seq<(seq<nat>, Enumerator)>, r: nat, least: Out, kept: seq<(seq<nat>, Enumerator)>)
    requires Playing(D, perms, es, r) && kept != [] && forall j :: 0 <= j < |es| ==> Fits(D, es[j].0, es[j].1)
    requires KeptFrom(D, es, 0, least, kept)
    ensures Playing(D, perms, kept, r + 1)
  {
    assert Perms(D, perms);
    hide LeastUpTo, Fits, Next, EdgeAt, After, IsPerm, KeptFrom, Playing;
    forall q | q in perms && LeastUpTo(D, perms, q, r) ensures !Less(EdgeAt(D, q, r), least) && (EdgeAt(D, q, r) == least ==> Plays(kept, q)) {
      NoneBelow(D, perms, es, r, least, kept, q);
    }
    forall k | 0 <= k < |kept| ensures InPlay(D, perms, kept[k], r + 1) && kept[k].0 in perms {
      KeptIsSurvivor(D, perms, es, r, least, kept, k);
      LeastStep(D, perms, kept[k].0, r);
    }
    KeptIsSurvivor(D, perms, es, r, least, kept, 0);
    forall p | p in perms && LeastUpTo(D, perms, p, r + 1) ensures Plays(kept, p) {
      LeastStep(D, perms, p, r);
      assert !Less(EdgeAt(D, kept[0].0, r), EdgeAt(D, p, r));
    }
    PlayingIf(D, perms, kept, r + 1);
  }

  lemma PlayingIf(D: Dfa, perms: seq<seq<nat>>, es: seq<(seq<nat>, Enumerator)>, r: nat)
    requires Perms(D, perms) && es != [] && (forall i :: 0 <= i < |es| ==> InPlay(D, perms, es[i], r))
    requires forall p :: p in perms && LeastUpTo(D, perms, p, r) ==> Plays(es, p)
    ensures Playing(D, perms, es, r)
  {
  }

  /** Once only one is left, or the first has no more edges, those left are the least for good. */
  lemma TournamentDecides(D: Dfa, perms: seq<seq<nat>>, es: seq<(seq<nat>, Enumerator)>, r: nat)
    requires Playing(D, perms, es, r) && (|es| == 1 || Finished(D, es[0].1))
    ensures forall p :: p in perms ==> (Plays(es, p) <==> Least(D, perms, p))
  {
    hide LeastUpTo, IsPerm, After, Finished;
    forall p | p in perms && Plays(es, p) ensures Least(D, perms, p) {
      var i :| 0 <= i < |es| && es[i].0 == p;
      assert InPlay(D, perms, es[i], r);
      forall m: nat ensures LeastUpTo(D, perms, p, m) {
        if m <= r {
          LeastEarlier(D, perms, p, m, r);
        } else if |es| == 1 {
          AloneIsLeast(D, perms, es, r, m);
        } else {
          FinishedTie(D, perms, es, r, p, m);
        }
      }
    }
    forall p | p in perms && Least(D, perms, p) ensures Plays(es, p) {
      assert LeastUpTo(D, perms, p, r);
    }
  }

  lemma {:induction false} LeastEarlier(D: Dfa, perms: seq<seq<nat>>, p: seq<nat>, m: nat, r: nat)
    requires Perms(D, perms) && p in perms && LeastUpTo(D, perms, p, r) && m <= r
    ensures LeastUpTo(D, perms, p, m)
    decreases r
  {
    if m < r {
      LeastStep(D, perms, p, r - 1);
      LeastEarlier(D, perms, p, m, r - 1);
    }
  }

  lemma AloneWins(D: Dfa, perms: seq<seq<nat>>, es: seq<(seq<nat>, Enumerator)>, r: nat, q: seq<nat>)
    requires Playing(D, perms, es, r) && |es| == 1 && q in perms && q != es[0].0
    ensures es[0].0 in perms && LeastUpTo(D, perms, es[0].0, r) && !LeastUpTo(D, perms, q, r)
  {
    hide LeastUpTo, After, IsPerm;
    assert InPlay(D, perms, es[0], r);
    assert !Plays(es, q);
  }

  lemma AloneIsBefore(D: Dfa, perms: seq<seq<nat>>, es: seq<(seq<nat>, Enumerator)>, r: nat, q: seq<nat>)
    requires Playing(D, perms, es, r) && |es| == 1 && q in perms && q != es[0].0
    ensures es[0].0 in perms && Before(D, es[0].0, D, q, r)
  {
    var p := es[0].0;
    AloneWins(D, perms, es, r, q);
    assert Perms(D, perms) && IsPerm(D, p) && IsPerm(D, q);
    hide Playing, EdgeAt, IsPerm, Same, Before;
    assert AtMost(D, p, D, q, r);
    hide LeastUpTo;
    if Same(D, p, D, q, r) {
      SameIsLeast(D, perms, p, q, r);
    }
  }

  lemma AloneIsLeast(D: Dfa, perms: seq<seq<nat>>, es: seq<(seq<nat>, Enumerator)>, r: nat, m: nat)
    requires Playing(D, perms, es, r) && |es| == 1 && r <= m
    ensures es[0].0 in perms && LeastUpTo(D, perms, es[0].0, m)
  {
    hide Before, Same, AtMost, IsPerm, After;
    var p := es[0].0;
    assert InPlay(D, perms, es[0], r);
    forall q | q in perms ensures AtMost(D, p, D, q, m) {
      if q != p {
        AloneIsBefore(D, perms, es, r, q);
      }
      LaterAtMost(D, p, q, r, m);
    }
  }

  /** What is before stays before; what is the same permutation stays the same. */
  lemma LaterAtMost(D: Dfa, p: seq<nat>, q: seq<nat>, r: nat, m: nat)
    requires D.Valid() && IsPerm(D, p) && IsPerm(D, q) && r <= m && (p == q || Before(D, p, D, q, r))
    ensures AtMost(D, p, D, q, m)
  {
    hide EdgeAt, IsPerm;
    if p != q {
      var k: nat :| k < r && Same(D, p, D, q, k) && Less(EdgeAt(D, p, k), EdgeAt(D, q, k));
    }
  }

  lemma FinishedTie(D: Dfa, perms: seq<seq<nat>>, es: seq<(seq<nat>, Enumerator)>, r: nat, p: seq<nat>, m: nat)
    requires Playing(D, perms, es, r) && Finished(D, es[0].1) && p in perms && LeastUpTo(D, perms, p, r) && r <= m
    ensures LeastUpTo(D, perms, p, m)
  {
    assert InPlay(D, perms, es[0], r);
    var first := es[0].0;
    assert AtMost(D, p, D, first, r) && AtMost(D, first, D, p, r);
    Asymmetric(D, p, D, first, r);
    FinishedAfter(D, first, r);
    FinishedAfter(D, p, r);
    assert r > 0 && EdgeAt(D, p, r - 1) == EdgeAt(D, first, r - 1);
    hide EdgeAt, After, IsPerm, Playing;
    LeastForGood(D, perms, p, r, m);
  }

  /** Whoever is least when its enumeration is over stays so. */
  lemma LeastForGood(D: Dfa, perms: seq<seq<nat>>, p: seq<nat>, r: nat, m: nat)
    requires Perms(D, perms) && p in perms && LeastUpTo(D, perms, p, r) && Finished(D, After(D, p, r)) && r <= m
    ensures LeastUpTo(D, perms, p, m)
  {
    forall q | q in perms ensures AtMost(D, p, D, q, m) {
      assert AtMost(D, p, D, q, r);
      if Before(D, p, D, q, r) {
        LaterAtMost(D, p, q, r, m);
      } else {
        FinishedTogether(D, p, q, r, m);
      }
    }
  }

  lemma FinishedTogether(D: Dfa, p: seq<nat>, q: seq<nat>, r: nat, m: nat)
    requires D.Valid() && IsPerm(D, p) && IsPerm(D, q) && Same(D, p, D, q, r) && Finished(D, After(D, p, r))
    ensures Same(D, p, D, q, m)
  {
    FinishedAfter(D, p, r);
    FinishedAfter(D, q, r);
    hide EdgeAt, After, IsPerm, Finished;
    assert r > 0 && EdgeAt(D, p, r - 1) == EdgeAt(D, q, r - 1);
    forall k: nat | k < m ensures EdgeAt(D, p, k) == EdgeAt(D, q, k) {
      if r <= k {
        StaysFinished(D, p, r, k);
        StaysFinished(D, q, r, k);
      }
    }
  }

  // ---- There is always a winner.

  /** Of the first `k` permutations that are least up to `r`, one has the least next edge. */
  lemma {:induction false} LeastNext(D: Dfa, perms: seq<seq<nat>>, r: nat, k: nat, some: nat) returns (best: nat)
    requires Perms(D, perms) && some < k <= |perms| && LeastUpTo(D, perms, perms[some], r)
    ensures best < k && LeastUpTo(D, perms, perms[best], r)
    ensures forall i: nat :: i < k && LeastUpTo(D, perms, perms[i], r) ==> !Less(EdgeAt(D, perms[i], r), EdgeAt(D, perms[best], r))
    decreases k
  {
    hide EdgeAt, LeastUpTo, IsPerm;
    best := some;
    if exists i: nat :: i < k - 1 && LeastUpTo(D, perms, perms[i], r) {
      var i: nat :| i < k - 1 && LeastUpTo(D, perms, perms[i], r);
      best := LeastNext(D, perms, r, k - 1, i);
      if LeastUpTo(D, perms, perms[k - 1], r) && Less(EdgeAt(D, perms[k - 1], r), EdgeAt(D, perms[best], r)) {
        best := k - 1;
      }
    }
  }

  lemma LeastUpToNothing(D: Dfa, perms: seq<seq<nat>>)
    requires Perms(D, perms)
    ensures perms != [] && forall p :: p in perms ==> IsPerm(D, p) && LeastUpTo(D, perms, p, 0)
  {
  }

  lemma {:induction false} SomeLeastUpTo(D: Dfa, perms: seq<seq<nat>>, r: nat) returns (i: nat)
    requires Perms(D, perms)
    ensures i < |perms| && LeastUpTo(D, perms, perms[i], r)
  {
    LeastUpToNothing(D, perms);
    hide LeastUpTo, EdgeAt, Less, IsPerm;
    if r == 0 {
      i := 0;
    } else {
      i := SomeLeastUpTo(D, perms, r - 1);
      i := LeastNext(D, perms, r - 1, |perms|, i);
      LeastIsNext(D, perms, r - 1, i);
    }
  }

  lemma LeastIsNext(D: Dfa, perms: seq<seq<nat>>, r: nat, i: nat)
    requires Perms(D, perms) && i < |perms| && LeastUpTo(D, perms, perms[i], r)
    requires forall k: nat :: k < |perms| && LeastUpTo(D, perms, perms[k], r) ==> !Less(EdgeAt(D, perms[k], r), EdgeAt(D, perms[i], r))
    ensures LeastUpTo(D, perms, perms[i], r + 1)
  {
    hide LeastUpTo, EdgeAt, Less, IsPerm;
    forall q | q in perms && LeastUpTo(D, perms, q, r) ensures !Less(EdgeAt(D, q, r), EdgeAt(D, perms[i], r)) {
      var k :| 0 <= k < |perms| && perms[k] == q;
    }
    LeastStep(D, perms, perms[i], r);
  }

  lemma SomeLeast(D: Dfa, perms: seq<seq<nat>>) returns (p: seq<nat>)
    requires Perms(D, perms)
    ensures p in perms && Least(D, perms, p)
  {
    var r := |D.step| * D.symbols + 1;
    var i := SomeLeastUpTo(D, perms, r);
    p := perms[i];
    EnumerationEnds(D, p);
    hide LeastUpTo, After, Finished;
    forall m: nat ensures LeastUpTo(D, perms, p, m) {
      if m <= r {
        LeastEarlier(D, perms, p, m, r);
      } else {
        LeastForGood(D, perms, p, r, m);
      }
    }
  }

  lemma PlayersFit(D: Dfa, perms: seq<seq<nat>>, es: seq<(seq<nat>, Enumerator)>, r: nat)
    requires Playing(D, perms, es, r)
    ensures (forall j :: 0 <= j < |es| ==> Fits(D, es[j].0, es[j].1)) && Bounded(D, es)
  {
    hide LeastUpTo, Fits, EdgeAt, After, IsPerm, Next;
    forall j | 0 <= j < |es| ensures Fits(D, es[j].0, es[j].1) && !Less(NoMore, Next(D, es[j].0, es[j].1).1) {
      assert InPlay(D, perms, es[j], r);
      CallInRound(D, perms, es[j], r);
      EdgesBounded(D, es[j].0, r);
    }
  }

  /** An enumerator that has more edges has not made its last call yet. */
  lemma NotYetOver(D: Dfa, perms: seq<seq<nat>>, es: seq<(seq<nat>, Enumerator)>, r: nat)
    requires Playing(D, perms, es, r) && !Finished(D, es[0].1)
    ensures r < |D.step| * D.symbols + 1
  {
    hide LeastUpTo, EdgeAt, After, IsPerm;
    assert InPlay(D, perms, es[0], r);
    EnumerationEnds(D, es[0].0);
    if r >= |D.step| * D.symbols + 1 {
      StaysFinished(D, es[0].0, |D.step| * D.symbols + 1, r);
    }
  }

  lemma AllPlay(D: Dfa, perms: seq<seq<nat>>, es: seq<(seq<nat>, Enumerator)>)
    requires Perms(D, perms) && |es| == |perms| && forall i :: 0 <= i < |es| ==> es[i] == (perms[i], Start(D))
    ensures Playing(D, perms, es, 0)
  {
  }

  /** Plays until the winners are known; `left` are all the permutations that tie for the least enumeration, the winner is the first. */
  method Tournament(D: Dfa, perms: seq<seq<nat>>) returns (perm: seq<nat>, en: Enumerator, ghost r: nat, ghost left: seq<(seq<nat>, Enumerator)>)
    requires Perms(D, perms)
    ensures perm in perms && en == After(D, perm, r) && Least(D, perms, perm)
    ensures forall p :: p in perms ==> (Plays(left, p) <==> Least(D, perms, p))
  {
    var es := seq(|perms|, i requires 0 <= i < |perms| => (perms[i], Start(D)));
    AllPlay(D, perms, es);
    r := 0;
    assert |es| > 0;
    hide *;
    while |es| > 1 && !(es[0].1.queue == [] && es[0].1.a >= D.symbols)
      invariant Playing(D, perms, es, r) && es != []
      decreases |D.step| * D.symbols + 1 - r
    {
      NotFinished(D, es[0].1);
      NotYetOver(D, perms, es, r);
      PlayersFit(D, perms, es, r);
      ghost var before := es;
      var least;
      es, least := PlayRound(D, es);
      RoundKeepsPlaying(D, perms, before, r, least, es);
      r := r + 1;
    }
    NotFinished(D, es[0].1);
    TournamentDecides(D, perms, es, r);
    FirstPlays(D, perms, es, r);
    perm, en, left := es[0].0, es[0].1, es;
  }

  lemma NotFinished(D: Dfa, en: Enumerator)
    ensures Finished(D, en) <==> en.queue == [] && en.a >= D.symbols
  {
  }

  lemma FirstPlays(D: Dfa, perms: seq<seq<nat>>, es: seq<(seq<nat>, Enumerator)>, r: nat)
    requires Playing(D, perms, es, r)
    ensures es != [] && es[0].0 in perms && es[0].1 == After(D, es[0].0, r) && Plays(es, es[0].0)
  {
    assert InPlay(D, perms, es[0], r);
  }

  lemma {:induction false} ScanIgnoresResume(D: Dfa, perm: seq<nat>, en: Enumerator, resume: bool)
    requires Fits(D, perm, en)
    ensures Scan(D, perm, en) == Scan(D, perm, en.(resume := resume))
    decreases |en.queue|, D.symbols - en.a
  {
    var em := en.(resume := resume);
    if en.a < D.symbols {
      match D.step[en.cur][perm[en.a]]
      case Some(t) =>
        assert Meet(em, t).(resume := true) == Meet(en, t).(resume := true);
      case None =>
        ScanIgnoresResume(D, perm, en.(a := en.a + 1), resume);
    } else if en.queue != [] {
      ScanIgnoresResume(D, perm, en.(cur := en.queue[0], queue := en.queue[1..], a := 0), resume);
    }
  }

  /** `en` is somewhere within call number `n`. */
  ghost predicate Within(D: Dfa, perm: seq<nat>, en: Enumerator, n: nat) {
    D.Valid() && IsPerm(D, perm) && Fits(D, perm, en) && Scan(D, perm, en) == Next(D, perm, After(D, perm, n))
  }

  lemma TakeWithin(D: Dfa, perm: seq<nat>, en: Enumerator, n: nat, t: nat)
    requires Within(D, perm, en, n) && en.a < D.symbols && D.step[en.cur][perm[en.a]] == Some(t)
    ensures t < |en.renumbering| && Within(D, perm, Meet(en, t).(a := en.a + 1), n + 1)
  {
    hide Next, After;
    assert t < |D.step|;
    var met := Meet(en, t).(a := en.a + 1);
    assert Fits(D, perm, met) && Scan(D, perm, en).0 == Meet(en, t).(resume := true);
    ScanIgnoresResume(D, perm, met, true);
    NextCall(D, perm, n, met);
  }

  lemma NextCall(D: Dfa, perm: seq<nat>, n: nat, met: Enumerator)
    requires D.Valid() && IsPerm(D, perm) && Fits(D, perm, met.(resume := true)) && met.a > 0 && Next(D, perm, After(D, perm, n)).0 == met.(resume := true, a := met.a - 1)
    ensures Scan(D, perm, met.(resume := true)) == Next(D, perm, After(D, perm, n + 1))
  {
  }

  /** Within a call that finds an edge, the enumeration is not over. */
  lemma StillGoing(D: Dfa, perm: seq<nat>, en: Enumerator, n: nat)
    requires Within(D, perm, en, n) && en.a < D.symbols && D.step[en.cur][perm[en.a]].Some?
    ensures n <= |D.step| * D.symbols
  {
    NoMoreMeansFinished(D, perm, en);
    assert Scan(D, perm, en).0.resume;
    assert EdgeAt(D, perm, n) != NoMore;
    EndsBy(D, perm, n);
  }

  lemma EndsBy(D: Dfa, perm: seq<nat>, n: nat)
    requires D.Valid() && IsPerm(D, perm) && EdgeAt(D, perm, n) != NoMore
    ensures n <= |D.step| * D.symbols
  {
    hide After, EdgeAt, IsPerm;
    EnumerationEnds(D, perm);
    if n > |D.step| * D.symbols {
      StaysFinished(D, perm, |D.step| * D.symbols + 1, n);
    }
  }

  lemma SkipWithin(D: Dfa, perm: seq<nat>, en: Enumerator, n: nat)
    requires Within(D, perm, en, n)
    ensures en.a < D.symbols && D.step[en.cur][perm[en.a]].None? ==> Within(D, perm, en.(a := en.a + 1), n)
    ensures en.a >= D.symbols && en.queue != [] ==> Within(D, perm, en.(cur := en.queue[0], queue := en.queue[1..], a := 0), n)
    ensures en.a >= D.symbols && en.queue == [] ==> Finished(D, After(D, perm, n + 1)) && After(D, perm, n + 1).renumbering == en.renumbering
  {
  }

  /** Tries one symbol, or goes on to the next queued state. */
  method TryNext(D: Dfa, perm: seq<nat>, en0: Enumerator, ghost n0: nat) returns (en: Enumerator, ghost n: nat)
    requires Within(D, perm, en0, n0) && (en0.a < D.symbols || en0.queue != [])
    ensures Within(D, perm, en, n)
    ensures (n == n0 + 1 && n0 <= |D.step| * D.symbols)
         || (n == n0 && (|en.queue| < |en0.queue| || (en.queue == en0.queue && en0.a < D.symbols && en.a == en0.a + 1)))
  {
    SkipWithin(D, perm, en0, n0);
    assert Fits(D, perm, en0);
    hide Within, Scan, Next, After, Meet;
    if en0.a < D.symbols {
      match D.step[en0.cur][perm[en0.a]]
      case Some(dest) =>
        StillGoing(D, perm, en0, n0);
        TakeWithin(D, perm, en0, n0, dest);
        en, n := Meet(en0, dest).(a := en0.a + 1), n0 + 1;
      case None =>
        en, n := en0.(a := en0.a + 1), n0;
    } else {
      en, n := en0.(cur := en0.queue[0], queue := en0.queue[1..], a := 0), n0;
    }
  }

  /** Finishes an enumeration without returning the edges; the numbering is the one the calls would have made. */
  method RunToCompletion(D: Dfa, perm: seq<nat>, en0: Enumerator, ghost r: nat) returns (en: Enumerator, ghost n: nat)
    requires D.Valid() && IsPerm(D, perm) && en0 == After(D, perm, r)
    ensures Finished(D, After(D, perm, n)) && en.renumbering == After(D, perm, n).renumbering
  {
    en, n := TakeUp(D, en0), r;
    assert Within(D, perm, en, n);
    hide *;
    while en.a < D.symbols || en.queue != []
      invariant Within(D, perm, en, n)
      decreases if n <= |D.step| * D.symbols then |D.step| * D.symbols + 1 - n else 0, |en.queue|, D.symbols - en.a
    {
      en, n := TryNext(D, perm, en, n);
    }
    SkipWithin(D, perm, en, n);
    n := n + 1;
  }

  /**
   Relabels a connected automaton with the first of the permutations whose enumeration is least, and the
   numbering of that enumeration.
   */
  method CanonicalizeRenumber(D: Dfa, perms: seq<seq<nat>>) returns (C: Dfa, perm: seq<nat>, ghost n: nat)
    requires Perms(D, perms) && AllReachable(D)
    ensures perm in perms && Canonical(D, perms, perm, n, C)
  {
    var en, last;
    ghost var r, left;
    perm, en, r, left := Tournament(D, perms);
    last, n := RunToCompletion(D, perm, en, r);
    RenumberingIsPermutation(D, perm, n);
    var step := new seq<Option<nat>>[|D.step|](i requires 0 <= i < |D.step| => D.step[i]);
    var states := new nat[|D.step|](i requires 0 <= i < |last.renumbering| => last.renumbering[i]);
    assert step[..] == D.step && states[..] == last.renumbering;
    hide Least, Plays, After, AllReachable;
    var accept := Renumber(D, step, D.accept, states, perm);
    C := Dfa(D.symbols, step[..], accept);
  }

  /** `C` is `D` relabelled by a least permutation and the numbering its enumeration, over after `n` calls, made. */
  ghost predicate Canonical(D: Dfa, perms: seq<seq<nat>>, perm: seq<nat>, n: nat, C: Dfa) {
    && Perms(D, perms) && IsPerm(D, perm) && Least(D, perms, perm) && Finished(D, After(D, perm, n))
    && Relabels(D, perm, After(D, perm, n).renumbering, C)
  }
}
