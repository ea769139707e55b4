/** The phases of a search. */
module SearchDriver {
  // The edges are fixed. A run takes one step per phase; what the database leaves to be done, and whether an
  // operation ran to its end, are choices.

  import opened SeqFacts
  import opened SearchStates

  datatype Phase =
    | CollectInitial | BeginGeneration
    | DiscoverNeedsCombine | ComputeCombine | FollowCombine
    | DiscoverNeedsClose | ComputeClose | FollowClose
    | DiscoverNeedsMirror | ComputeMirror | FollowMirror
    | BeginSubgeneration
    | DiscoverNeedsConnect | ComputeConnect | FollowConnect

  /** Where edges lead, which ids may be combined, and the options. */
  datatype Config = Config(
    initial: set<nat>, combine: nat -> set<nat>, connect: nat -> set<nat>, close: nat -> set<nat>, mirror: nat -> set<nat>,
    mayCombine: set<nat> -> set<nat>, multiplayer: bool, computeClose: bool, computeMirror: bool, followMirror: bool)

  /** The filter keeps some of what it is given. */
  ghost predicate ValidConfig(c: Config) {
    forall g :: c.mayCombine(g) <= g
  }

  /** All the targets of edges from the ids. */
  ghost function Targets(edges: nat -> set<nat>, ids: set<nat>): set<nat> {
    set i, t | i in ids && t in edges(i) :: t
  }

  /** The ids that have edges. */
  ghost function Inputs(edges: nat -> set<nat>, ids: set<nat>): set<nat> {
    set i | i in ids && edges(i) != {}
  }

  /** `generations` and `combined` are history: what was returned when a generation ended, and what of it was combined.
      So are `closings` and `mirrorings`, the sets whose close and mirror edges were followed, and `subgenerations`,
      what was promoted each time. */
  datatype Search = Search(phase: Phase, ids: Ids, needs: set<nat>, generation: nat, subgeneration: nat, stopped: bool,
                           generations: seq<set<nat>>, combined: seq<set<nat>>,
                           closings: seq<set<nat>>, mirrorings: seq<set<nat>>, subgenerations: seq<set<nat>>)

  /** What the outside decides: which candidates still need an operation, and whether it ran to its end. */
  datatype Choice = Choice(undone: set<nat>, proceed: bool)

  ghost function Start(): Search {
    Search(CollectInitial, Ids({}, {}, {}, {}), {}, 0, 0, false, [], [], [], [], [])
  }

  /** Keeps those candidates that are still to be done; there must be no needs left over. */
  ghost function FilterUnary(s: Search, candidates: set<nat>, choice: Choice, next: Phase): Search
    requires s.needs == {}
  {
    s.(needs := candidates * choice.undone, phase := next)
  }

  /** Filtering is the only thing that can fail. */
  ghost predicate Enabled(c: Config, s: Search) {
    && !s.stopped
    && (s.phase == DiscoverNeedsClose && !c.multiplayer && c.computeClose ==> s.needs == {})
    && (s.phase == DiscoverNeedsMirror && !(s.generation == 0 && s.subgeneration == 0) && c.computeMirror ==> s.needs == {})
    && (s.phase == DiscoverNeedsConnect ==> s.needs == {})
  }

  ghost function Step(c: Config, s: Search, choice: Choice): Search
    requires Enabled(c, s)
  {
    match s.phase
    case CollectInitial => s.(ids := s.ids.Add(c.initial), phase := DiscoverNeedsClose)
    case BeginGeneration =>
      var (ids, prev) := s.ids.FlipGeneration();
      var flipped := s.(ids := ids, needs := prev, generations := s.generations + [prev]);
      if prev == {} then flipped.(stopped := true)
      else flipped.(generation := s.generation + 1, subgeneration := 0, phase := DiscoverNeedsCombine)
    case DiscoverNeedsCombine => s.(needs := c.mayCombine(s.needs), phase := ComputeCombine)
    case ComputeCombine => s.(phase := FollowCombine)
    case FollowCombine => s.(ids := s.ids.Add(Targets(c.combine, s.needs)), combined := s.combined + [s.needs], needs := {}, phase := DiscoverNeedsClose)
    case DiscoverNeedsClose =>
      if c.multiplayer then s.(phase := DiscoverNeedsMirror)
      else if !c.computeClose then s.(phase := FollowClose)
      else FilterUnary(s, s.ids.subgen, choice, ComputeClose)
    case ComputeClose => s.(needs := {}, phase := if choice.proceed then FollowClose else DiscoverNeedsClose)
    case FollowClose =>
      var inputs := Inputs(c.close, s.ids.subgen);
      s.(ids := s.ids.Erase(inputs).Add(Targets(c.close, s.ids.subgen)), closings := s.closings + [s.ids.subgen], phase := DiscoverNeedsMirror)
    case DiscoverNeedsMirror =>
      if s.generation == 0 && s.subgeneration == 0 then s.(phase := BeginSubgeneration)
      else if !c.computeMirror then s.(phase := FollowMirror)
      else FilterUnary(s, s.ids.subgen, choice, ComputeMirror)
    case ComputeMirror => s.(needs := {}, phase := if choice.proceed then FollowMirror else DiscoverNeedsMirror)
    case FollowMirror =>
      s.(ids := if c.followMirror then s.ids.Add(Targets(c.mirror, s.ids.subgen)) else s.ids,
         mirrorings := s.mirrorings + [s.ids.subgen], phase := BeginSubgeneration)
    case BeginSubgeneration =>
      var flipped := s.(ids := s.ids.FlipSubgeneration(), subgenerations := s.subgenerations + [s.ids.subgen]);
      if flipped.ids.prevSubgen == {} then flipped.(phase := BeginGeneration)
      else flipped.(subgeneration := s.subgeneration + 1, phase := DiscoverNeedsConnect)
    case DiscoverNeedsConnect => FilterUnary(s, s.ids.prevSubgen, choice, ComputeConnect)
    case ComputeConnect => s.(needs := {}, phase := if choice.proceed then FollowConnect else DiscoverNeedsConnect)
    case FollowConnect => s.(ids := s.ids.Add(Targets(c.connect, s.ids.prevSubgen)), phase := DiscoverNeedsClose)
  }

  // ---- What every step keeps.

  ghost predicate Combining(p: Phase) {
    p == DiscoverNeedsCombine || p == ComputeCombine || p == FollowCombine
  }

  ghost predicate Computing(p: Phase) {
    p == ComputeClose || p == ComputeMirror || p == ComputeConnect
  }

  ghost predicate Connecting(p: Phase) {
    p == DiscoverNeedsConnect || p == ComputeConnect || p == FollowConnect
  }

  /** An id is either closed or in the subgeneration; everything else is closed. */
  ghost predicate SetsOk(ids: Ids) {
    ids.closed !! ids.subgen && ids.curgen <= ids.closed && ids.prevSubgen <= ids.closed
  }

  /** Generations are closed, and disjoint from each other and from the current one. */
  ghost predicate GenerationsOk(ids: Ids, generations: seq<set<nat>>) {
    && (forall i :: 0 <= i < |generations| ==> generations[i] <= ids.closed && generations[i] !! ids.curgen)
    && (forall i, j :: 0 <= i < j < |generations| ==> generations[i] !! generations[j])
  }

  /** Needs are there only while something is being combined or computed. */
  ghost predicate NeedsOk(s: Search) {
    && (!Combining(s.phase) && !Computing(s.phase) ==> s.needs == {})
    && (s.phase == BeginGeneration ==> s.ids.subgen == {} && s.ids.prevSubgen == {})
    && (s.stopped ==> s.phase == BeginGeneration && s.ids.curgen == {})
    && (Combining(s.phase) ==> s.ids.subgen == {} && s.ids.prevSubgen == {} && s.ids.curgen == {})
  }

  /** An id that took part in a finished subgeneration. */
  ghost predicate Promoted(s: Search, i: nat) {
    i in s.ids.curgen || exists g :: 0 <= g < |s.generations| && i in s.generations[g]
  }

  /** Where a promoted id connects to is known, except for the subgeneration being connected. */
  ghost predicate ConnectOk(c: Config, s: Search) {
    forall i: nat, t: nat :: Promoted(s, i) && (Connecting(s.phase) ==> i !in s.ids.prevSubgen) && t in c.connect(i) ==> t in s.ids.Known()
  }

  /** Every generation but the one being combined has been combined, after filtering, and the results are known. */
  ghost predicate CombineOk(c: Config, s: Search) {
    && |s.combined| + (if Combining(s.phase) || s.stopped then 1 else 0) == |s.generations|
    && (forall g :: 0 <= g < |s.combined| ==> s.combined[g] == c.mayCombine(s.generations[g]) && Targets(c.combine, s.combined[g]) <= s.ids.Known())
    && (s.phase == DiscoverNeedsCombine ==> s.generations != [] && s.needs == s.generations[|s.generations| - 1])
    && (s.phase == ComputeCombine || s.phase == FollowCombine ==> s.generations != [] && s.needs == c.mayCombine(s.generations[|s.generations| - 1]))
    && (s.stopped ==> s.generations[|s.generations| - 1] == {})
  }

  ghost predicate Inv(c: Config, s: Search) {
    SetsOk(s.ids) && GenerationsOk(s.ids, s.generations) && NeedsOk(s) && ConnectOk(c, s) && CombineOk(c, s)
  }

  lemma StartInv(c: Config)
    ensures Inv(c, Start())
  {
  }

  lemma InvMeansEnabled(c: Config, s: Search)
    requires Inv(c, s) && !s.stopped
    ensures Enabled(c, s)
  {
  }

  ghost predicate IdsOk(ids: Ids, generations: seq<set<nat>>) {
    SetsOk(ids) && GenerationsOk(ids, generations)
  }

  lemma AddKeeps(ids: Ids, generations: seq<set<nat>>, more: set<nat>)
    requires IdsOk(ids, generations)
    ensures IdsOk(ids.Add(more), generations) && ids.Add(more).Known() == ids.Known() + more
  {
  }

  lemma EraseKeeps(ids: Ids, generations: seq<set<nat>>, erased: set<nat>)
    requires IdsOk(ids, generations) && erased <= ids.subgen
    ensures IdsOk(ids.Erase(erased), generations) && ids.Erase(erased).Known() == ids.Known()
  {
  }

  lemma FlipSubgenerationKeeps(ids: Ids, generations: seq<set<nat>>)
    requires IdsOk(ids, generations)
    ensures IdsOk(ids.FlipSubgeneration(), generations) && ids.FlipSubgeneration().Known() == ids.Known()
  {
  }

  lemma FlipGenerationKeeps(ids: Ids, generations: seq<set<nat>>)
    requires IdsOk(ids, generations) && ids.subgen == {}
    ensures var (after, prev) := ids.FlipGeneration();
            prev == ids.curgen && IdsOk(after, generations + [prev]) && after.Known() == ids.Known()
  {
    assert ids.curgen + {} == ids.curgen;
  }

  lemma StepKeepsSets(c: Config, s: Search, choice: Choice)
    requires Inv(c, s) && Enabled(c, s)
    ensures IdsOk(Step(c, s, choice).ids, Step(c, s, choice).generations)
    ensures s.ids.Known() <= Step(c, s, choice).ids.Known()
  {
    assert IdsOk(s.ids, s.generations) && (s.phase == BeginGeneration ==> s.ids.subgen == {});
    hide IdsOk, SetsOk, GenerationsOk, ConnectOk, CombineOk, NeedsOk;
    match s.phase
    case CollectInitial => AddKeeps(s.ids, s.generations, c.initial);
    case BeginGeneration => FlipGenerationKeeps(s.ids, s.generations);
    case FollowCombine => AddKeeps(s.ids, s.generations, Targets(c.combine, s.needs));
    case FollowClose =>
      var inputs := Inputs(c.close, s.ids.subgen);
      EraseKeeps(s.ids, s.generations, inputs);
      AddKeeps(s.ids.Erase(inputs), s.generations, Targets(c.close, s.ids.subgen));
    case FollowMirror => AddKeeps(s.ids, s.generations, Targets(c.mirror, s.ids.subgen));
    case BeginSubgeneration => FlipSubgenerationKeeps(s.ids, s.generations);
    case FollowConnect => AddKeeps(s.ids, s.generations, Targets(c.connect, s.ids.prevSubgen));
    case _ =>
  }

  lemma StepKeepsNeeds(c: Config, s: Search, choice: Choice)
    requires Inv(c, s) && Enabled(c, s)
    ensures NeedsOk(Step(c, s, choice))
  {
    hide SetsOk, GenerationsOk, ConnectOk, CombineOk, Targets, Inputs;
    match s.phase
    case BeginGeneration => assert s.ids.curgen + {} == s.ids.curgen;
    case _ =>
  }

  /** What is promoted and what is exempt decide; knowing more does no harm. */
  lemma ConnectCarries(c: Config, s: Search, t: Search)
    requires ConnectOk(c, s) && s.ids.Known() <= t.ids.Known()
    requires forall i: nat :: Promoted(t, i) && (Connecting(t.phase) ==> i !in t.ids.prevSubgen) ==> Promoted(s, i) && (Connecting(s.phase) ==> i !in s.ids.prevSubgen)
    ensures ConnectOk(c, t)
  {
    hide Promoted, Connecting;
  }

  lemma SamePromoted(s: Search, t: Search)
    requires t.ids.curgen == s.ids.curgen && t.generations == s.generations
    ensures forall i: nat :: Promoted(t, i) <==> Promoted(s, i)
  {
  }

  lemma FlippedPromoted(s: Search, t: Search)
    requires t.ids.curgen == {} && t.generations == s.generations + [s.ids.curgen]
    ensures forall i: nat :: Promoted(t, i) <==> Promoted(s, i)
  {
    forall i: nat ensures Promoted(t, i) <==> Promoted(s, i) {
      if Promoted(s, i) {
        if i in s.ids.curgen {
          assert i in t.generations[|s.generations|];
        } else {
          var g :| 0 <= g < |s.generations| && i in s.generations[g];
          assert i in t.generations[g];
        }
      }
    }
  }

  lemma StepKeepsConnect(c: Config, s: Search, choice: Choice)
    requires Inv(c, s) && Enabled(c, s)
    ensures ConnectOk(c, Step(c, s, choice))
  {
    StepKeepsSets(c, s, choice);
    var t := Step(c, s, choice);
    match s.phase
    case BeginGeneration =>
      assert s.ids.curgen + {} == s.ids.curgen;
      FlippedPromoted(s, t);
      ConnectCarries(c, s, t);
    case BeginSubgeneration =>
      FlippedSubgeneration(c, s, t);
    case FollowConnect =>
      SamePromoted(s, t);
      FollowedConnect(c, s, t);
    case _ =>
      SamePromoted(s, t);
      ConnectCarries(c, s, t);
  }

  lemma FlippedSubgeneration(c: Config, s: Search, t: Search)
    requires ConnectOk(c, s) && !Connecting(s.phase) && t.ids == s.ids.FlipSubgeneration() && t.generations == s.generations
    requires t.ids.prevSubgen != {} ==> Connecting(t.phase)
    ensures ConnectOk(c, t)
  {
    forall i: nat, x: nat | Promoted(t, i) && (Connecting(t.phase) ==> i !in t.ids.prevSubgen) && x in c.connect(i) ensures x in t.ids.Known() {
      assert i !in s.ids.subgen;
      assert Promoted(s, i);
      assert x in s.ids.Known();
    }
  }

  lemma FollowedConnect(c: Config, s: Search, t: Search)
    requires ConnectOk(c, s) && Connecting(s.phase) && t.ids == s.ids.Add(Targets(c.connect, s.ids.prevSubgen))
    requires forall i: nat :: Promoted(t, i) <==> Promoted(s, i)
    ensures ConnectOk(c, t)
  {
    forall i: nat, x: nat | Promoted(t, i) && x in c.connect(i) ensures x in t.ids.Known() {
      assert Promoted(s, i);
      if i in s.ids.prevSubgen {
        assert x in Targets(c.connect, s.ids.prevSubgen);
      } else {
        assert x in s.ids.Known();
      }
    }
  }

  lemma StepKeepsCombine(c: Config, s: Search, choice: Choice)
    requires Inv(c, s) && Enabled(c, s)
    ensures CombineOk(c, Step(c, s, choice))
  {
    StepKeepsSets(c, s, choice);
    var t := Step(c, s, choice);
    hide SetsOk, GenerationsOk, ConnectOk;
    match s.phase
    case FollowCombine =>
      assert t.ids.Known() == s.ids.Known() + Targets(c.combine, s.needs);
    case _ =>
  }

  lemma StepKeepsInv(c: Config, s: Search, choice: Choice)
    requires Inv(c, s) && Enabled(c, s)
    ensures Inv(c, Step(c, s, choice))
  {
    StepKeepsSets(c, s, choice);
    StepKeepsNeeds(c, s, choice);
    StepKeepsConnect(c, s, choice);
    StepKeepsCombine(c, s, choice);
    hide SetsOk, GenerationsOk, NeedsOk, ConnectOk, CombineOk;
  }

  // ---- Only derivable ids.

  ghost predicate Among(ids: set<nat>, u: iset<nat>) {
    forall i :: i in ids ==> i in u
  }

  ghost predicate Closed(edges: nat -> set<nat>, u: iset<nat>) {
    forall i: nat, t: nat :: i in u && t in edges(i) ==> t in u
  }

  /** A set, finite or not, that has the initial ids and is closed under the edges. */
  ghost predicate ClosedUnder(c: Config, u: iset<nat>) {
    Among(c.initial, u) && Closed(c.combine, u) && Closed(c.connect, u) && Closed(c.close, u) && Closed(c.mirror, u)
  }

  ghost predicate Within(s: Search, u: iset<nat>) {
    Among(s.ids.closed, u) && Among(s.ids.subgen, u) && Among(s.ids.curgen, u) && Among(s.ids.prevSubgen, u) && Among(s.needs, u)
  }

  lemma TargetsWithin(edges: nat -> set<nat>, ids: set<nat>, u: iset<nat>)
    requires Among(ids, u) && Closed(edges, u)
    ensures Among(Targets(edges, ids), u)
  {
  }

  lemma StepStaysWithin(c: Config, s: Search, choice: Choice, u: iset<nat>)
    requires ValidConfig(c) && Enabled(c, s) && ClosedUnder(c, u) && Within(s, u)
    ensures Within(Step(c, s, choice), u)
  {
    TargetsWithin(c.combine, s.needs, u);
    TargetsWithin(c.connect, s.ids.prevSubgen, u);
    TargetsWithin(c.close, s.ids.subgen, u);
    TargetsWithin(c.mirror, s.ids.subgen, u);
    hide Targets;
    match s.phase
    case DiscoverNeedsCombine => assert c.mayCombine(s.needs) <= s.needs;
    case _ =>
  }

  // ---- Termination in a finite universe.

  function Rank(p: Phase): nat {
    match p
    case CollectInitial => 15
    case DiscoverNeedsCombine => 14
    case ComputeCombine => 13
    case FollowCombine => 12
    case DiscoverNeedsConnect => 11
    case ComputeConnect => 10
    case FollowConnect => 9
    case DiscoverNeedsClose => 8
    case ComputeClose => 7
    case FollowClose => 6
    case DiscoverNeedsMirror => 5
    case ComputeMirror => 4
    case FollowMirror => 3
    case BeginSubgeneration => 2
    case BeginGeneration => 1
  }

  ghost function Every(u: set<nat>): iset<nat> {
    iset i | i in u
  }

  ghost function Remaining(s: Search, u: set<nat>): nat {
    if s.stopped then 0
    else 16 * (2 * |u - s.ids.closed| + (if s.ids.curgen == {} then 0 else 1)) + Rank(s.phase)
  }

  /** The closed set does not shrink, the generation stays, and the phase comes nearer to the end. */
  lemma NearerDecreases(s: Search, t: Search, u: set<nat>)
    requires !s.stopped && s.ids.closed <= t.ids.closed && t.ids.curgen == s.ids.curgen && Rank(t.phase) < Rank(s.phase)
    ensures Remaining(t, u) < Remaining(s, u)
  {
    SubsetSize(u - t.ids.closed, u - s.ids.closed);
  }

  lemma StepDecreases(c: Config, s: Search, choice: Choice, u: set<nat>)
    requires Inv(c, s) && Enabled(c, s) && Within(s, Every(u)) && choice.proceed
    ensures Remaining(Step(c, s, choice), u) < Remaining(s, u)
  {
    assert (s.phase == BeginGeneration ==> s.ids.subgen == {}) && s.ids.subgen !! s.ids.closed && s.ids.subgen <= u;
    hide Inv, Within, Remaining, Targets, Inputs;
    var t := Step(c, s, choice);
    if s.phase == BeginGeneration {
      GenerationDecreases(s, t, u);
    } else if s.phase == BeginSubgeneration {
      SubgenerationDecreases(s, t, u);
    } else {
      QuietStep(c, s, choice);
      NearerDecreases(s, t, u);
    }
  }

  /** The other phases only go on. */
  lemma QuietStep(c: Config, s: Search, choice: Choice)
    requires Enabled(c, s) && choice.proceed && s.phase != BeginGeneration && s.phase != BeginSubgeneration
    ensures var t := Step(c, s, choice);
            s.ids.closed <= t.ids.closed && t.ids.curgen == s.ids.curgen && Rank(t.phase) < Rank(s.phase)
  {
    hide Targets, Inputs;
  }

  lemma GenerationDecreases(s: Search, t: Search, u: set<nat>)
    requires !s.stopped && s.phase == BeginGeneration && s.ids.subgen == {} && t.ids == s.ids.FlipGeneration().0
    requires if s.ids.FlipGeneration().1 == {} then t.stopped else t.phase == DiscoverNeedsCombine && !t.stopped
    ensures Remaining(t, u) < Remaining(s, u)
  {
    assert s.ids.curgen + {} == s.ids.curgen;
  }

  lemma SubgenerationDecreases(s: Search, t: Search, u: set<nat>)
    requires !s.stopped && s.phase == BeginSubgeneration && s.ids.subgen !! s.ids.closed && s.ids.subgen <= u && t.ids == s.ids.FlipSubgeneration()
    requires t.phase == if s.ids.subgen == {} then BeginGeneration else DiscoverNeedsConnect
    ensures Remaining(t, u) < Remaining(s, u)
  {
    if s.ids.subgen == {} {
      assert s.ids.closed + {} == s.ids.closed && s.ids.curgen + {} == s.ids.curgen;
    } else {
      ClosingShrinks(u, s.ids.closed, s.ids.subgen);
    }
  }

  lemma ClosingShrinks(u: set<nat>, closed: set<nat>, more: set<nat>)
    requires more <= u && more !! closed && more != {}
    ensures |u - (closed + more)| < |u - closed|
  {
    var x :| x in more;
    SubsetSize((u - (closed + more)) + {x}, u - closed);
  }

  // ---- Whole runs.

  ghost predicate Run(c: Config, s: Search, choices: seq<Choice>, end: Search)
    decreases |choices|
  {
    if choices == [] then s == end
    else Enabled(c, s) && Run(c, Step(c, s, choices[0]), choices[1..], end)
  }

  lemma {:induction false} RunKeepsInv(c: Config, s: Search, choices: seq<Choice>, end: Search)
    requires Inv(c, s) && Run(c, s, choices, end)
    ensures Inv(c, end)
    decreases |choices|
  {
    if choices != [] {
      StepKeepsInv(c, s, choices[0]);
      RunKeepsInv(c, Step(c, s, choices[0]), choices[1..], end);
    }
  }

  lemma {:induction false} RunStaysWithin(c: Config, s: Search, choices: seq<Choice>, end: Search, u: iset<nat>)
    requires ValidConfig(c) && ClosedUnder(c, u) && Within(s, u) && Run(c, s, choices, end)
    ensures Within(end, u)
    decreases |choices|
  {
    if choices != [] {
      StepStaysWithin(c, s, choices[0], u);
      RunStaysWithin(c, Step(c, s, choices[0]), choices[1..], end, u);
    }
  }

  lemma {:induction false} RunIsBounded(c: Config, s: Search, choices: seq<Choice>, end: Search, u: set<nat>)
    requires ValidConfig(c) && ClosedUnder(c, Every(u)) && Within(s, Every(u)) && Run(c, s, choices, end) && Inv(c, s)
    requires forall i :: 0 <= i < |choices| ==> choices[i].proceed
    ensures |choices| + Remaining(end, u) <= Remaining(s, u)
    decreases |choices|
  {
    if choices != [] {
      StepKeepsInv(c, s, choices[0]);
      StepStaysWithin(c, s, choices[0], Every(u));
      StepDecreases(c, s, choices[0], u);
      RunIsBounded(c, Step(c, s, choices[0]), choices[1..], end, u);
    }
  }

  /** In every run the sets stay apart, generations are disjoint, filtering never finds old needs, and the run can go on until it stops. */
  lemma EveryRunIsSound(c: Config, choices: seq<Choice>, end: Search)
    requires Run(c, Start(), choices, end)
    ensures SetsOk(end.ids) && GenerationsOk(end.ids, end.generations)
    ensures !end.stopped ==> Enabled(c, end)
  {
    StartInv(c);
    RunKeepsInv(c, Start(), choices, end);
    if !end.stopped {
      InvMeansEnabled(c, end);
    }
  }

  /** `id` follows from the initial ids by at most `n` edges. */
  ghost predicate DerivedWithin(c: Config, n: nat, id: nat) {
    id in c.initial || (n > 0 && exists i: nat :: DerivedWithin(c, n - 1, i) && Follows(c, i, id))
  }

  /** An edge of some kind leads from `i` to `t`. */
  ghost predicate Follows(c: Config, i: nat, t: nat) {
    t in c.combine(i) || t in c.connect(i) || t in c.close(i) || t in c.mirror(i)
  }

  ghost predicate Derivable(c: Config, id: nat) {
    exists n: nat :: DerivedWithin(c, n, id)
  }

  lemma DerivableIsClosed(c: Config)
    ensures ClosedUnder(c, iset id: nat | Derivable(c, id))
  {
    var u := iset id: nat | Derivable(c, id);
    forall i | i in c.initial ensures i in u {
      var zero: nat := 0;
      assert DerivedWithin(c, zero, i);
    }
    forall i: nat, t: nat | i in u && Follows(c, i, t) ensures t in u {
      var n: nat :| DerivedWithin(c, n, i);
      var next := n + 1;
      assert DerivedWithin(c, next, t);
    }
    hide Derivable;
    forall i: nat, t: nat ensures t in c.combine(i) || t in c.connect(i) || t in c.close(i) || t in c.mirror(i) ==> Follows(c, i, t) {
    }
    hide Follows;
  }

  /** Every id ever met follows from the initial ids by the edges. */
  lemma EveryIdIsDerivable(c: Config, choices: seq<Choice>, end: Search, id: nat)
    requires ValidConfig(c) && Run(c, Start(), choices, end) && id in end.ids.Known()
    ensures Derivable(c, id)
  {
    var u := iset id: nat | Derivable(c, id);
    DerivableIsClosed(c);
    RunStaysWithin(c, Start(), choices, end, u);
    assert id in u;
  }

  /** A run that stops has followed all connect edges of every generation and all combine edges of what was combined. */
  lemma StoppedIsComplete(c: Config, choices: seq<Choice>, end: Search)
    requires Run(c, Start(), choices, end) && end.stopped
    ensures forall g :: 0 <= g < |end.generations| ==> Targets(c.connect, end.generations[g]) <= end.ids.closed
    ensures forall g :: 0 <= g < |end.generations| - 1 ==> Targets(c.combine, c.mayCombine(end.generations[g])) <= end.ids.closed
    ensures |end.generations| > 0 && end.generations[|end.generations| - 1] == {}
  {
    StartInv(c);
    RunKeepsInv(c, Start(), choices, end);
    assert end.ids.Known() == end.ids.closed;
    forall g | 0 <= g < |end.generations| ensures Targets(c.connect, end.generations[g]) <= end.ids.closed {
      forall t | t in Targets(c.connect, end.generations[g]) ensures t in end.ids.closed {
        var i :| i in end.generations[g] && t in c.connect(i);
        assert Promoted(end, i);
      }
    }
  }

  /** In a finite universe a run whose operations all succeed has at most 32|u| + 15 steps. */
  lemma FiniteRunsEnd(c: Config, choices: seq<Choice>, end: Search, u: set<nat>)
    requires ValidConfig(c) && ClosedUnder(c, Every(u)) && Run(c, Start(), choices, end)
    requires forall i :: 0 <= i < |choices| ==> choices[i].proceed
    ensures |choices| <= 32 * |u| + 15
  {
    StartInv(c);
    RunIsBounded(c, Start(), choices, end, u);
    assert u - {} == u;
  }
}
