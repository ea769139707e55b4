// Breadth-first enumeration of the transitions of a deterministic automaton, one edge at a time, with the
// symbols tried in the order of a permutation. States are renumbered in the order they are met.
module EdgeEnumeration {
  import opened Options
  import opened SeqFacts

  /** `step[s][x]` is where state `s` goes on symbol `x`, if it goes anywhere. */
  datatype Dfa = Dfa(symbols: nat, step: seq<seq<Option<nat>>>, accept: seq<bool>) {
    ghost predicate Valid() {
      && |step| > 0 && |accept| == |step|
      && (forall s :: 0 <= s < |step| ==> |step[s]| == symbols)
      && (forall s: nat, x: nat :: s < |step| && x < symbols && step[s][x].Some? ==> step[s][x].value < |step|)
      && |step| < MAX && symbols < MAX
    }

    ghost predicate Goes(s: nat, x: nat, t: nat) {
      s < |step| && x < |step[s]| && step[s][x] == Some(t)
    }
  }

  /** Every transition leads from an accepting state to a rejecting one or back. */
  ghost predicate Alternates(D: Dfa) {
    forall s: nat, x: nat, t: nat :: D.Goes(s, x, t) && s < |D.accept| && t < |D.accept| ==> D.accept[s] != D.accept[t]
  }

  /** Stands for "not met yet" and, three times over, for "no more edges". */
  const MAX: nat := 0xFFFF_FFFF

  datatype Out = Out(from: nat, to: nat, symbol: nat)

  const NoMore := Out(MAX, MAX, MAX)

  /** Everything an enumerator remembers between calls. */
  datatype Enumerator = Enumerator(renumbering: seq<nat>, queue: seq<nat>, idx: nat, cur: nat, a: nat, resume: bool)

  /** An arrangement of the symbols. */
  ghost predicate IsPerm(D: Dfa, perm: seq<nat>) {
    |perm| == D.symbols && Distinct(perm) && forall a :: 0 <= a < |perm| ==> perm[a] < D.symbols
  }

  function Start(D: Dfa): Enumerator
    requires |D.step| > 0
  {
    Enumerator(seq(|D.step|, s => if s == 0 then 0 else MAX), [0], 1, 0, 0, false)
  }

  /** The enumerator can work on `D`: what it indexes is in range. */
  ghost predicate Fits(D: Dfa, perm: seq<nat>, en: Enumerator) {
    && D.Valid() && IsPerm(D, perm) && |en.renumbering| == |D.step| && en.cur < |D.step|
    && (forall i :: 0 <= i < |en.queue| ==> en.queue[i] < |D.step|)
  }

  /** Meets state `t`: numbers and queues it if it is new. */
  function Meet(en: Enumerator, t: nat): Enumerator
    requires t < |en.renumbering|
  {
    if en.renumbering[t] == MAX then en.(renumbering := en.renumbering[t := en.idx], idx := en.idx + 1, queue := en.queue + [t]) else en
  }

  /** Looks for the next edge from symbol `en.a` of state `en.cur` on. */
  ghost function Scan(D: Dfa, perm: seq<nat>, en: Enumerator): (r: (Enumerator, Out))
    requires Fits(D, perm, en)
    ensures Fits(D, perm, r.0)
    decreases |en.queue|, D.symbols - en.a
  {
    if en.a < D.symbols then
      match D.step[en.cur][perm[en.a]]
      case Some(t) =>
        var met := Meet(en, t);
        (met.(resume := true), Out(met.renumbering[en.cur], met.renumbering[t], en.a))
      case None => Scan(D, perm, en.(a := en.a + 1))
    else if en.queue == [] then (en.(resume := false), NoMore)
    else Scan(D, perm, en.(cur := en.queue[0], queue := en.queue[1..], a := 0))
  }

  /** Where a call takes up: after the edge it last returned, or at the next queued state. */
  function TakeUp(D: Dfa, en: Enumerator): Enumerator {
    if en.resume then en.(a := en.a + 1) else en.(a := D.symbols)
  }

  /** One call. */
  ghost function Next(D: Dfa, perm: seq<nat>, en: Enumerator): (r: (Enumerator, Out))
    requires Fits(D, perm, en)
    ensures Fits(D, perm, r.0)
  {
    Scan(D, perm, TakeUp(D, en))
  }

  ghost function After(D: Dfa, perm: seq<nat>, n: nat): (en: Enumerator)
    requires D.Valid() && IsPerm(D, perm)
    ensures Fits(D, perm, en)
  {
    if n == 0 then Start(D) else Next(D, perm, After(D, perm, n - 1)).0
  }

  /** The n-th edge, or `NoMore`. */
  ghost function EdgeAt(D: Dfa, perm: seq<nat>, n: nat): Out
    requires D.Valid() && IsPerm(D, perm)
  {
    Next(D, perm, After(D, perm, n)).1
  }

  ghost predicate Finished(D: Dfa, en: Enumerator) {
    en.queue == [] && en.a >= D.symbols
  }

  lemma {:induction false} NoMoreMeansFinished(D: Dfa, perm: seq<nat>, en: Enumerator)
    requires Fits(D, perm, en)
    ensures var (after, out) := Scan(D, perm, en);
            && (out == NoMore <==> Finished(D, after)) && (out == NoMore <==> !after.resume) && (after.resume ==> after.a < D.symbols)
    decreases |en.queue|, D.symbols - en.a
  {
    if en.a < D.symbols {
      if D.step[en.cur][perm[en.a]].None? {
        NoMoreMeansFinished(D, perm, en.(a := en.a + 1));
      }
    } else if en.queue != [] {
      NoMoreMeansFinished(D, perm, en.(cur := en.queue[0], queue := en.queue[1..], a := 0));
    }
  }

  /** An enumerator is finished exactly when its last call found no more edges. */
  lemma FinishedAfter(D: Dfa, perm: seq<nat>, n: nat)
    requires D.Valid() && IsPerm(D, perm)
    ensures Finished(D, After(D, perm, n)) <==> n > 0 && EdgeAt(D, perm, n - 1) == NoMore
    ensures Finished(D, After(D, perm, n)) ==> !After(D, perm, n).resume
  {
    if n > 0 {
      NoMoreMeansFinished(D, perm, TakeUp(D, After(D, perm, n - 1)));
    }
  }

  /** Once there are no more edges there never are. */
  lemma {:induction false} StaysFinished(D: Dfa, perm: seq<nat>, n: nat, m: nat)
    requires D.Valid() && IsPerm(D, perm) && n <= m && Finished(D, After(D, perm, n))
    ensures EdgeAt(D, perm, m) == NoMore && Finished(D, After(D, perm, m))
    ensures After(D, perm, m).renumbering == After(D, perm, n).renumbering
    decreases m
  {
    FinishedAfter(D, perm, n);
    if n < m {
      StaysFinished(D, perm, n, m - 1);
      FinishedAfter(D, perm, m - 1);
      FinishedAfter(D, perm, m);
    }
  }

  // ---- Relabelling: the enumeration does not see state names.

  /** `E` is `D` with states renamed by `sigma`, and on the a-th symbol of `rho` does what `D` does on the a-th of `perm`. */
  ghost predicate Isomorphic(D: Dfa, perm: seq<nat>, E: Dfa, rho: seq<nat>, sigma: seq<nat>) {
    && D.Valid() && E.Valid() && IsPerm(D, perm) && IsPerm(E, rho) && D.symbols == E.symbols
    && |D.step| == |E.step| == |sigma| && Distinct(sigma) && (forall s :: 0 <= s < |sigma| ==> sigma[s] < |sigma|) && sigma[0] == 0
    && (forall s: nat, a: nat :: s < |sigma| && a < D.symbols ==> Corresponds(D.step[s][perm[a]], E.step[sigma[s]][rho[a]], sigma))
  }

  ghost predicate Corresponds(t: Option<nat>, u: Option<nat>, sigma: seq<nat>) {
    match t
    case None => u.None?
    case Some(x) => x < |sigma| && u == Some(sigma[x])
  }

  ghost predicate Similar(en: Enumerator, em: Enumerator, sigma: seq<nat>) {
    && |en.renumbering| == |em.renumbering| == |sigma| && en.cur < |sigma| && em.cur == sigma[en.cur]
    && (forall s :: 0 <= s < |sigma| ==> sigma[s] < |sigma| && em.renumbering[sigma[s]] == en.renumbering[s])
    && |en.queue| == |em.queue| && (forall i :: 0 <= i < |en.queue| ==> en.queue[i] < |sigma| && em.queue[i] == sigma[en.queue[i]])
    && en.idx == em.idx && en.a == em.a && en.resume == em.resume
  }

  lemma MeetSimilar(en: Enumerator, em: Enumerator, sigma: seq<nat>, t: nat)
    requires Similar(en, em, sigma) && Distinct(sigma) && t < |sigma|
    ensures Similar(Meet(en, t), Meet(em, sigma[t]), sigma)
    ensures Meet(em, sigma[t]).renumbering[sigma[t]] == Meet(en, t).renumbering[t]
    ensures Meet(em, sigma[t]).renumbering[em.cur] == Meet(en, t).renumbering[en.cur]
  {
  }

  lemma {:induction false} ScanSimilar(D: Dfa, perm: seq<nat>, E: Dfa, rho: seq<nat>, sigma: seq<nat>, en: Enumerator, em: Enumerator)
    requires Isomorphic(D, perm, E, rho, sigma) && Fits(D, perm, en) && Fits(E, rho, em) && Similar(en, em, sigma)
    ensures Scan(D, perm, en).1 == Scan(E, rho, em).1 && Similar(Scan(D, perm, en).0, Scan(E, rho, em).0, sigma)
    decreases |en.queue|, D.symbols - en.a
  {
    if en.a < D.symbols {
      assert Corresponds(D.step[en.cur][perm[en.a]], E.step[sigma[en.cur]][rho[en.a]], sigma);
      match D.step[en.cur][perm[en.a]]
      case Some(t) =>
        MeetSimilar(en, em, sigma, t);
      case None =>
        ScanSimilar(D, perm, E, rho, sigma, en.(a := en.a + 1), em.(a := em.a + 1));
    } else if en.queue != [] {
      ScanSimilar(D, perm, E, rho, sigma, en.(cur := en.queue[0], queue := en.queue[1..], a := 0), em.(cur := em.queue[0], queue := em.queue[1..], a := 0));
    }
  }

  lemma AfterOneMore(D: Dfa, perm: seq<nat>, n: nat)
    requires D.Valid() && IsPerm(D, perm)
    ensures After(D, perm, n + 1) == Next(D, perm, After(D, perm, n)).0 && EdgeAt(D, perm, n) == Next(D, perm, After(D, perm, n)).1
    ensures After(D, perm, 0) == Start(D)
  {
    hide Next;
  }

  lemma BothValid(D: Dfa, perm: seq<nat>, E: Dfa, rho: seq<nat>, sigma: seq<nat>)
    requires Isomorphic(D, perm, E, rho, sigma)
    ensures D.Valid() && E.Valid() && IsPerm(D, perm) && IsPerm(E, rho) && |D.step| > 0 && |E.step| > 0
  {
  }

  lemma {:induction false} SameEdges(D: Dfa, perm: seq<nat>, E: Dfa, rho: seq<nat>, sigma: seq<nat>, n: nat)
    requires Isomorphic(D, perm, E, rho, sigma)
    ensures EdgeAt(D, perm, n) == EdgeAt(E, rho, n) && Similar(After(D, perm, n), After(E, rho, n), sigma)
  {
    hide *;
    BothValid(D, perm, E, rho, sigma);
    if n == 0 {
      StartSimilar(D, perm, E, rho, sigma);
      AfterOneMore(D, perm, 0);
      AfterOneMore(E, rho, 0);
    } else {
      SameEdges(D, perm, E, rho, sigma, n - 1);
      AfterOneMore(D, perm, n - 1);
      AfterOneMore(E, rho, n - 1);
      TakeUpSimilar(D, perm, E, rho, sigma, After(D, perm, n - 1), After(E, rho, n - 1));
    }
    AfterOneMore(D, perm, n);
    AfterOneMore(E, rho, n);
    TakeUpSimilar(D, perm, E, rho, sigma, After(D, perm, n), After(E, rho, n));
  }

  lemma StartSimilar(D: Dfa, perm: seq<nat>, E: Dfa, rho: seq<nat>, sigma: seq<nat>)
    requires Isomorphic(D, perm, E, rho, sigma)
    ensures D.Valid() && E.Valid() && Similar(Start(D), Start(E), sigma)
  {
    assert forall s :: 0 <= s < |sigma| && s != 0 ==> sigma[s] != sigma[0];
  }

  lemma TakeUpSimilar(D: Dfa, perm: seq<nat>, E: Dfa, rho: seq<nat>, sigma: seq<nat>, en: Enumerator, em: Enumerator)
    requires Isomorphic(D, perm, E, rho, sigma) && Fits(D, perm, en) && Fits(E, rho, em) && Similar(en, em, sigma)
    ensures Next(D, perm, en).1 == Next(E, rho, em).1 && Similar(Next(D, perm, en).0, Next(E, rho, em).0, sigma)
  {
    ScanSimilar(D, perm, E, rho, sigma, TakeUp(D, en), TakeUp(E, em));
  }

  // ---- Completeness: every edge comes, once, under its new names.

  ghost predicate Met(en: Enumerator, s: nat) {
    s < |en.renumbering| && en.renumbering[s] != MAX
  }

  ghost function MetSet(en: Enumerator): set<nat> {
    set s | 0 <= s < |en.renumbering| && en.renumbering[s] != MAX
  }

  /** The a-th symbol of state `s` has been tried. */
  ghost predicate Tried(D: Dfa, en: Enumerator, s: nat, a: nat) {
    Met(en, s) && s !in en.queue && a < D.symbols && (s == en.cur ==> a < en.a)
  }

  ghost predicate NumbersOk(en: Enumerator) {
    && (forall s: nat :: Met(en, s) ==> en.renumbering[s] < en.idx)
    && (forall s: nat, t: nat :: Met(en, s) && Met(en, t) && en.renumbering[s] == en.renumbering[t] ==> s == t)
    && |MetSet(en)| == en.idx && Met(en, 0) && en.renumbering[0] == 0
  }

  ghost predicate QueueOk(D: Dfa, en: Enumerator) {
    && Met(en, en.cur) && (forall q :: q in en.queue ==> Met(en, q)) && Distinct(en.queue)
    && en.a <= D.symbols && (en.a < D.symbols ==> en.cur !in en.queue)
  }

  /** Renamed edge: the a-th symbol leads from `s` to `t`. */
  ghost function Renamed(renumbering: seq<nat>, s: nat, t: nat, a: nat): Out
    requires s < |renumbering| && t < |renumbering|
  {
    Out(renumbering[s], renumbering[t], a)
  }

  /** A tried edge leads to a met state and is among the edges returned. */
  ghost predicate Returned(D: Dfa, perm: seq<nat>, en: Enumerator, outs: set<Out>, s: nat, a: nat)
    requires Fits(D, perm, en) && s < |D.step| && a < D.symbols
  {
    var to := D.step[s][perm[a]];
    to.Some? ==> Met(en, to.value) && Renamed(en.renumbering, s, to.value, a) in outs
  }

  ghost predicate ComesFrom(D: Dfa, perm: seq<nat>, en: Enumerator, o: Out)
    requires Fits(D, perm, en)
  {
    exists s: nat, a: nat :: Tried(D, en, s, a) && IsEdge(D, perm, en, o, s, a)
  }

  ghost predicate IsEdge(D: Dfa, perm: seq<nat>, en: Enumerator, o: Out, s: nat, a: nat)
    requires Fits(D, perm, en)
  {
    s < |D.step| && a < D.symbols && var to := D.step[s][perm[a]]; to.Some? && Met(en, to.value) && o == Renamed(en.renumbering, s, to.value, a)
  }

  ghost predicate Tracks(D: Dfa, perm: seq<nat>, en: Enumerator, outs: set<Out>) {
    && Fits(D, perm, en) && NumbersOk(en) && QueueOk(D, en)
    && (forall s: nat, a: nat :: Tried(D, en, s, a) ==> Returned(D, perm, en, outs, s, a))
    && (forall o :: o in outs ==> ComesFrom(D, perm, en, o))
  }

  lemma StartTracks(D: Dfa, perm: seq<nat>)
    requires D.Valid() && IsPerm(D, perm)
    ensures Tracks(D, perm, TakeUp(D, Start(D)), {})
  {
    var en := TakeUp(D, Start(D));
    assert MetSet(en) == {0};
  }

  lemma PopTracks(D: Dfa, perm: seq<nat>, en: Enumerator, outs: set<Out>)
    requires Tracks(D, perm, en, outs) && en.a >= D.symbols && en.queue != []
    ensures var next := en.(cur := en.queue[0], queue := en.queue[1..], a := 0);
            Tracks(D, perm, next, outs) && forall s: nat, a: nat :: Tried(D, next, s, a) <==> Tried(D, en, s, a)
  {
    var next := en.(cur := en.queue[0], queue := en.queue[1..], a := 0);
    assert en.queue == [next.cur] + next.queue && next.cur in en.queue;
    assert forall q :: q in en.queue <==> q == next.cur || q in next.queue;
    assert next.cur !in next.queue by {
      assert forall j :: 0 <= j < |next.queue| ==> next.queue[j] == en.queue[j + 1];
    }
    forall s: nat, a: nat ensures Tried(D, next, s, a) <==> Tried(D, en, s, a) {
    }
    assert MetSet(next) == MetSet(en);
    SameOrigins(D, perm, en, next, outs);
  }

  /** If nothing else changes, what was tried decides where edges come from. */
  lemma SameOrigins(D: Dfa, perm: seq<nat>, en: Enumerator, next: Enumerator, outs: set<Out>)
    requires Fits(D, perm, en) && Fits(D, perm, next) && next.renumbering == en.renumbering
    requires forall s: nat, a: nat :: Tried(D, en, s, a) ==> Tried(D, next, s, a)
    requires forall o :: o in outs ==> ComesFrom(D, perm, en, o)
    ensures forall o :: o in outs ==> ComesFrom(D, perm, next, o)
  {
    forall o | o in outs ensures ComesFrom(D, perm, next, o) {
      assert ComesFrom(D, perm, en, o);
      var s: nat, a: nat :| Tried(D, en, s, a) && IsEdge(D, perm, en, o, s, a);
      assert Tried(D, next, s, a) && IsEdge(D, perm, next, o, s, a);
    }
  }

  lemma SkipTracks(D: Dfa, perm: seq<nat>, en: Enumerator, outs: set<Out>)
    requires Tracks(D, perm, en, outs) && en.a < D.symbols && D.step[en.cur][perm[en.a]].None?
    ensures Tracks(D, perm, en.(a := en.a + 1), outs)
    ensures forall s: nat, a: nat :: Tried(D, en, s, a) ==> Tried(D, en.(a := en.a + 1), s, a)
  {
    var next := en.(a := en.a + 1);
    assert MetSet(next) == MetSet(en);
    forall s: nat, a: nat | Tried(D, next, s, a) ensures Returned(D, perm, next, outs, s, a) {
      assert Tried(D, en, s, a) || (s == en.cur && a == en.a);
    }
    SameOrigins(D, perm, en, next, outs);
  }

  lemma MeetNumbers(en: Enumerator, t: nat)
    requires NumbersOk(en) && t < |en.renumbering| < MAX
    ensures NumbersOk(Meet(en, t)) && Met(Meet(en, t), t) && forall s: nat :: Met(en, s) ==> Met(Meet(en, t), s) && Meet(en, t).renumbering[s] == en.renumbering[s]
    ensures forall s: nat :: Met(Meet(en, t), s) <==> Met(en, s) || s == t
  {
    if !Met(en, t) {
      NewNumber(en, t);
    }
  }

  lemma NewNumber(en: Enumerator, t: nat)
    requires NumbersOk(en) && t < |en.renumbering| < MAX && !Met(en, t)
    ensures NumbersOk(Meet(en, t)) && Met(Meet(en, t), t) && forall s: nat :: Met(en, s) ==> Met(Meet(en, t), s) && Meet(en, t).renumbering[s] == en.renumbering[s]
    ensures forall s: nat :: Met(Meet(en, t), s) <==> Met(en, s) || s == t
  {
    var met := Meet(en, t);
    BoundedSetSize(MetSet(en), |en.renumbering|);
    assert forall s: nat :: Met(met, s) <==> Met(en, s) || s == t;
    assert MetSet(met) == MetSet(en) + {t};
  }

  lemma TakeQueue(D: Dfa, perm: seq<nat>, en: Enumerator, t: nat)
    requires Fits(D, perm, en) && NumbersOk(en) && QueueOk(D, en) && en.a < D.symbols && t < |D.step|
    ensures var met := Meet(en, t).(a := en.a + 1);
            && Fits(D, perm, met) && NumbersOk(met) && QueueOk(D, met) && Met(met, t)
            && forall s: nat, a: nat :: Tried(D, met, s, a) <==> Tried(D, en, s, a) || (s == en.cur && a == en.a)
  {
    MeetNumbers(en, t);
    var met := Meet(en, t).(a := en.a + 1);
    assert MetSet(met) == MetSet(Meet(en, t));
    if !Met(en, t) {
      DistinctConcat(en.queue, [t]);
    }
    assert forall q :: q in met.queue <==> q in en.queue || (q == t && !Met(en, t));
  }

  lemma TakeTracks(D: Dfa, perm: seq<nat>, en: Enumerator, outs: set<Out>, t: nat)
    requires Tracks(D, perm, en, outs) && en.a < D.symbols && D.step[en.cur][perm[en.a]] == Some(t)
    ensures t < |D.step|
    ensures var met := Meet(en, t).(a := en.a + 1);
            && Fits(D, perm, met) && Met(met, t)
            && Tracks(D, perm, met, outs + {Renamed(met.renumbering, en.cur, t, en.a)})
            && !Tried(D, en, en.cur, en.a) && Tried(D, met, en.cur, en.a)
            && forall s: nat, a: nat :: Tried(D, en, s, a) ==> Tried(D, met, s, a)
  {
    MeetNumbers(en, t);
    TakeQueue(D, perm, en, t);
    var met := Meet(en, t).(a := en.a + 1);
    var o := Renamed(met.renumbering, en.cur, t, en.a);
    assert Met(en, en.cur) && forall s: nat :: Met(en, s) ==> met.renumbering[s] == en.renumbering[s] && Met(met, s);
    assert !Tried(D, en, en.cur, en.a);
    hide NumbersOk, QueueOk, Meet;
    forall s: nat, a: nat | Tried(D, met, s, a) ensures Returned(D, perm, met, outs + {o}, s, a) {
      if Tried(D, en, s, a) {
        assert Returned(D, perm, en, outs, s, a);
      }
    }
    assert Tried(D, met, en.cur, en.a) && IsEdge(D, perm, met, o, en.cur, en.a);
    forall p | p in outs ensures ComesFrom(D, perm, met, p) {
      OriginKept(D, perm, en, met, p);
    }
  }

  lemma OriginKept(D: Dfa, perm: seq<nat>, en: Enumerator, met: Enumerator, o: Out)
    requires Fits(D, perm, en) && Fits(D, perm, met) && ComesFrom(D, perm, en, o)
    requires forall s: nat :: Met(en, s) ==> Met(met, s) && met.renumbering[s] == en.renumbering[s]
    requires forall s: nat, a: nat :: Tried(D, en, s, a) ==> Tried(D, met, s, a)
    ensures ComesFrom(D, perm, met, o)
  {
    var s: nat, a: nat :| Tried(D, en, s, a) && IsEdge(D, perm, en, o, s, a);
    assert Tried(D, met, s, a) && IsEdge(D, perm, met, o, s, a);
  }

  ghost predicate Progresses(D: Dfa, perm: seq<nat>, en: Enumerator, outs: set<Out>, after: Enumerator, out: Out) {
    && (out == NoMore ==> Tracks(D, perm, after, outs))
    && (out != NoMore ==> Tracks(D, perm, after, outs + {out}) && exists s: nat, a: nat :: !Tried(D, en, s, a) && Tried(D, after, s, a))
    && forall s: nat, a: nat :: Tried(D, en, s, a) ==> Tried(D, after, s, a)
  }

  lemma ScanTakes(D: Dfa, perm: seq<nat>, en: Enumerator, outs: set<Out>, t: nat)
    requires Tracks(D, perm, en, outs) && en.a < D.symbols && D.step[en.cur][perm[en.a]] == Some(t)
    ensures Progresses(D, perm, en, outs, TakeUp(D, Scan(D, perm, en).0), Scan(D, perm, en).1)
  {
    TakeTracks(D, perm, en, outs, t);
    var met := Meet(en, t).(a := en.a + 1);
    var out := Renamed(met.renumbering, en.cur, t, en.a);
    assert Scan(D, perm, en).1 == out && TakeUp(D, Scan(D, perm, en).0) == met.(resume := true) && out != NoMore;
    hide Tracks, Scan;
    ResumeIrrelevant(D, perm, met, outs + {out}, true);
  }

  lemma PassOn(D: Dfa, perm: seq<nat>, en: Enumerator, next: Enumerator, outs: set<Out>, after: Enumerator, out: Out)
    requires Progresses(D, perm, next, outs, after, out) && forall s: nat, a: nat :: Tried(D, en, s, a) ==> Tried(D, next, s, a)
    ensures Progresses(D, perm, en, outs, after, out)
  {
    hide Tracks, Tried;
  }

  /** A call that returns an edge has tried one more symbol; one that returns none has tried them all. */
  lemma {:induction false} ScanTracks(D: Dfa, perm: seq<nat>, en: Enumerator, outs: set<Out>)
    requires Tracks(D, perm, en, outs)
    ensures Progresses(D, perm, en, outs, TakeUp(D, Scan(D, perm, en).0), Scan(D, perm, en).1)
    decreases |en.queue|, D.symbols - en.a
  {
    hide Progresses;
    var (after, out) := Scan(D, perm, en);
    if en.a < D.symbols {
      match D.step[en.cur][perm[en.a]]
      case Some(t) =>
        ScanTakes(D, perm, en, outs, t);
      case None =>
        var next := en.(a := en.a + 1);
        SkipTracks(D, perm, en, outs);
        ScanTracks(D, perm, next, outs);
        PassOn(D, perm, en, next, outs, TakeUp(D, after), out);
    } else if en.queue != [] {
      var next := en.(cur := en.queue[0], queue := en.queue[1..], a := 0);
      PopTracks(D, perm, en, outs);
      ScanTracks(D, perm, next, outs);
      PassOn(D, perm, en, next, outs, TakeUp(D, after), out);
    } else {
      DoneTracks(D, perm, en, outs);
    }
  }

  lemma ResumeIrrelevant(D: Dfa, perm: seq<nat>, en: Enumerator, outs: set<Out>, resume: bool)
    requires Tracks(D, perm, en, outs)
    ensures Tracks(D, perm, en.(resume := resume), outs)
    ensures forall s: nat, a: nat :: Tried(D, en.(resume := resume), s, a) <==> Tried(D, en, s, a)
  {
    var em := en.(resume := resume);
    assert MetSet(em) == MetSet(en);
    assert forall s: nat, a: nat :: Tried(D, em, s, a) <==> Tried(D, en, s, a);
    SameOrigins(D, perm, en, em, outs);
  }

  lemma DoneTracks(D: Dfa, perm: seq<nat>, en: Enumerator, outs: set<Out>)
    requires Tracks(D, perm, en, outs) && en.a >= D.symbols && en.queue == []
    ensures Progresses(D, perm, en, outs, TakeUp(D, en.(resume := false)), NoMore)
  {
    ResumeIrrelevant(D, perm, en, outs, false);
    assert TakeUp(D, en.(resume := false)) == en.(resume := false);
  }

  /** The edges the first `n` calls return. */
  ghost function Outs(D: Dfa, perm: seq<nat>, n: nat): set<Out>
    requires D.Valid() && IsPerm(D, perm)
  {
    if n == 0 then {}
    else if EdgeAt(D, perm, n - 1) == NoMore then Outs(D, perm, n - 1)
    else Outs(D, perm, n - 1) + {EdgeAt(D, perm, n - 1)}
  }

  lemma {:induction false} AfterTracks(D: Dfa, perm: seq<nat>, n: nat)
    requires D.Valid() && IsPerm(D, perm)
    ensures Tracks(D, perm, TakeUp(D, After(D, perm, n)), Outs(D, perm, n))
  {
    if n == 0 {
      StartTracks(D, perm);
    } else {
      AfterTracks(D, perm, n - 1);
      hide Tracks, Tried, Scan;
      ScanTracks(D, perm, TakeUp(D, After(D, perm, n - 1)), Outs(D, perm, n - 1));
    }
  }

  ghost function TriedSet(D: Dfa, en: Enumerator): set<(nat, nat)> {
    set s: nat, a: nat | s in MetSet(en) && a in Symbols(D.symbols) && Tried(D, en, s, a) :: (s, a)
  }

  ghost function Symbols(k: nat): (r: set<nat>)
    ensures forall a: nat :: a in r <==> a < k
  {
    if k == 0 then {} else Symbols(k - 1) + {k - 1}
  }

  lemma TriedMember(D: Dfa, en: Enumerator, s: nat, a: nat)
    ensures (s, a) in TriedSet(D, en) <==> Tried(D, en, s, a)
  {
  }

  lemma {:induction false} PairsFit(pairs: set<(nat, nat)>, n: nat, m: nat)
    requires forall p :: p in pairs ==> p.0 < n && p.1 < m
    ensures |pairs| <= n * m
    decreases n
  {
    if n == 0 {
      assert pairs == {};
    } else {
      var last := set p | p in pairs && p.0 == n - 1;
      var rest := pairs - last;
      PairsFit(rest, n - 1, m);
      var seconds := set p | p in last :: p.1;
      BoundedSetSize(seconds, m);
      SecondsSize(last, n - 1);
      assert seconds == Seconds(last);
      assert pairs == rest + last;
      assert n * m == (n - 1) * m + m;
    }
  }

  ghost function Seconds(pairs: set<(nat, nat)>): set<nat> {
    set p | p in pairs :: p.1
  }

  lemma {:induction false} SecondsSize(pairs: set<(nat, nat)>, x: nat)
    requires forall p :: p in pairs ==> p.0 == x
    ensures |Seconds(pairs)| == |pairs|
    decreases |pairs|
  {
    if pairs == {} {
      assert Seconds(pairs) == {};
    } else {
      var p :| p in pairs;
      SecondsSize(pairs - {p}, x);
      assert Seconds(pairs) == Seconds(pairs - {p}) + {p.1};
      assert p.1 !in Seconds(pairs - {p});
    }
  }

  lemma MoreTried(D: Dfa, en: Enumerator, em: Enumerator)
    requires forall s: nat, a: nat :: Tried(D, en, s, a) ==> Tried(D, em, s, a)
    requires exists s: nat, a: nat :: !Tried(D, en, s, a) && Tried(D, em, s, a)
    ensures |TriedSet(D, en)| < |TriedSet(D, em)|
  {
    var s: nat, a: nat :| !Tried(D, en, s, a) && Tried(D, em, s, a);
    var more := TriedSet(D, en) + {(s, a)};
    forall x: nat, y: nat | (x, y) in more ensures (x, y) in TriedSet(D, em) {
      TriedMember(D, en, x, y);
      TriedMember(D, em, x, y);
    }
    assert more <= TriedSet(D, em);
    TriedMember(D, en, s, a);
    SubsetSize(more, TriedSet(D, em));
  }

  /** Every call that returns an edge has tried one more pair. */
  lemma {:induction false} TriedGrows(D: Dfa, perm: seq<nat>, n: nat)
    requires D.Valid() && IsPerm(D, perm)
    ensures (n > 0 && EdgeAt(D, perm, n - 1) == NoMore) || |TriedSet(D, TakeUp(D, After(D, perm, n)))| >= n
  {
    hide Tracks, Tried, TriedSet, Scan;
    if n > 0 && EdgeAt(D, perm, n - 1) != NoMore {
      TriedGrows(D, perm, n - 1);
      AfterTracks(D, perm, n - 1);
      ScanTracks(D, perm, TakeUp(D, After(D, perm, n - 1)), Outs(D, perm, n - 1));
      MoreTried(D, TakeUp(D, After(D, perm, n - 1)), TakeUp(D, After(D, perm, n)));
      FinishedAfter(D, perm, n - 1);
      if Finished(D, After(D, perm, n - 1)) {
        StaysFinished(D, perm, n - 1, n - 1);
      }
    }
  }

  /** An enumeration ends after at most as many calls as there are state-symbol pairs, and one. */
  lemma EnumerationEnds(D: Dfa, perm: seq<nat>)
    requires D.Valid() && IsPerm(D, perm)
    ensures Finished(D, After(D, perm, |D.step| * D.symbols + 1))
  {
    var n := |D.step| * D.symbols + 1;
    TriedGrows(D, perm, n);
    FinishedAfter(D, perm, n);
    var pairs := TriedSet(D, TakeUp(D, After(D, perm, n)));
    PairsFit(pairs, |D.step|, D.symbols);
  }

  // ---- The relabelled automaton.

  /** `C` is `D` with states renamed by `renumbering` and symbol `perm[a]` renamed to `a`. */
  ghost predicate Relabels(D: Dfa, perm: seq<nat>, renumbering: seq<nat>, C: Dfa) {
    && D.Valid() && C.Valid() && IsPerm(D, perm) && |renumbering| == |D.step| == |C.step| && C.symbols == D.symbols
    && (forall s :: 0 <= s < |renumbering| ==> renumbering[s] < |C.step|)
    && (forall s: nat, a: nat :: s < |D.step| && a < D.symbols ==> Corresponds(D.step[s][perm[a]], C.step[renumbering[s]][a], renumbering))
    && (forall s: nat :: s < |D.step| ==> C.accept[renumbering[s]] == D.accept[s])
  }

  ghost predicate Leads(D: Dfa, s: nat, w: seq<nat>, t: nat)
    decreases |w|
  {
    if w == [] then s == t else exists u: nat :: D.Goes(s, w[0], u) && Leads(D, u, w[1..], t)
  }

  ghost predicate AllReachable(D: Dfa) {
    forall s: nat :: s < |D.step| ==> Reachable(D, s)
  }

  ghost predicate Reachable(D: Dfa, s: nat) {
    exists w :: Leads(D, 0, w, s)
  }

  /** When the enumeration is over every tried pair of a met state has been tried. */
  lemma FinishedTried(D: Dfa, perm: seq<nat>, n: nat)
    requires D.Valid() && IsPerm(D, perm) && Finished(D, After(D, perm, n))
    ensures var en := TakeUp(D, After(D, perm, n));
            && en.renumbering == After(D, perm, n).renumbering && Tracks(D, perm, en, Outs(D, perm, n))
            && forall s: nat, a: nat :: Met(en, s) && a < D.symbols ==> Tried(D, en, s, a)
  {
    FinishedAfter(D, perm, n);
    AfterTracks(D, perm, n);
  }

  lemma {:induction false} ReachedIsMet(D: Dfa, perm: seq<nat>, n: nat, s: nat, w: seq<nat>, t: nat)
    requires D.Valid() && IsPerm(D, perm) && Finished(D, After(D, perm, n))
    requires Met(After(D, perm, n), s) && Leads(D, s, w, t)
    ensures Met(After(D, perm, n), t)
    decreases |w|
  {
    if w != [] {
      var u: nat :| D.Goes(s, w[0], u) && Leads(D, u, w[1..], t);
      FinishedTried(D, perm, n);
      DistinctCovers(perm, w[0]);
      var a: nat :| a < |perm| && perm[a] == w[0];
      assert Returned(D, perm, TakeUp(D, After(D, perm, n)), Outs(D, perm, n), s, a);
      ReachedIsMet(D, perm, n, u, w[1..], t);
    }
  }

  /** At the end of the enumeration of a connected automaton the new numbers are a permutation of the states that fixes 0. */
  lemma RenumberingIsPermutation(D: Dfa, perm: seq<nat>, n: nat)
    requires D.Valid() && IsPerm(D, perm) && Finished(D, After(D, perm, n)) && AllReachable(D)
    ensures var r := After(D, perm, n).renumbering;
            |r| == |D.step| && r[0] == 0 && Distinct(r) && forall s :: 0 <= s < |r| ==> r[s] < |r|
  {
    var en := After(D, perm, n);
    FinishedTried(D, perm, n);
    hide Tried, Returned, ComesFrom;
    var em := TakeUp(D, en);
    assert Met(em, 0) && em.renumbering == en.renumbering;
    forall s: nat | s < |D.step| ensures Met(em, s) {
      assert Reachable(D, s);
      var w :| Leads(D, 0, w, s);
      ReachedIsMet(D, perm, n, 0, w, s);
    }
    BoundedSetSize(MetSet(em), |D.step|);
    forall i: nat, j: nat | i < j < |D.step| ensures em.renumbering[i] != em.renumbering[j] {
      assert Met(em, i) && Met(em, j);
    }
  }

  /** The edges returned are exactly the transitions of the relabelled automaton. */
  lemma OutsAreTransitions(D: Dfa, perm: seq<nat>, n: nat, C: Dfa, x: nat, a: nat, y: nat)
    requires D.Valid() && IsPerm(D, perm) && Finished(D, After(D, perm, n)) && AllReachable(D)
    requires Relabels(D, perm, After(D, perm, n).renumbering, C) && x < |C.step| && a < C.symbols
    ensures C.step[x][a] == Some(y) <==> Out(x, y, a) in Outs(D, perm, n)
  {
    var r := After(D, perm, n).renumbering;
    var en := TakeUp(D, After(D, perm, n));
    RenumberingIsPermutation(D, perm, n);
    FinishedTried(D, perm, n);
    DistinctCovers(r, x);
    var s: nat :| s < |r| && r[s] == x;
    assert Corresponds(D.step[s][perm[a]], C.step[x][a], r);
    assert Met(en, s) && Tried(D, en, s, a);
    if C.step[x][a] == Some(y) {
      assert Returned(D, perm, en, Outs(D, perm, n), s, a);
    }
    if Out(x, y, a) in Outs(D, perm, n) {
      assert ComesFrom(D, perm, en, Out(x, y, a));
      var s1: nat, a1: nat :| Tried(D, en, s1, a1) && IsEdge(D, perm, en, Out(x, y, a), s1, a1);
      assert r[s1] == r[s];
    }
  }
}
