/** What a search has followed. */
module SearchHistory {
  // Every run keeps account of the sets whose edges it followed; when it stops nothing is missing.

  import opened SearchStates
  import opened SearchDriver

  ghost predicate Given(lists: seq<set<nat>>, i: nat) {
    exists k :: 0 <= k < |lists| && i in lists[k]
  }

  lemma GivenOneMore(lists: seq<set<nat>>, more: set<nat>, i: nat)
    ensures Given(lists + [more], i) <==> Given(lists, i) || i in more
  {
    var all := lists + [more];
    if i in more {
      assert i in all[|lists|];
    }
    if k :| 0 <= k < |lists| && i in lists[k] {
      assert i in all[k];
    }
  }

  /** An id that was there when close edges were followed, and has some: it is closed but not promoted. */
  ghost predicate Erased(c: Config, s: Search, i: nat) {
    Given(s.closings, i) && c.close(i) != {}
  }

  /** Close edges have been followed or, with several players, skipped. */
  ghost predicate Mirroring(p: Phase) {
    p == DiscoverNeedsMirror || p == ComputeMirror || p == FollowMirror || p == BeginSubgeneration
  }

  // ---- Where edges led.

  /** The initial ids are known, and so are the targets of all edges that were followed. */
  ghost predicate FollowedOk(c: Config, s: Search) {
    && (s.phase != CollectInitial ==> c.initial <= s.ids.Known())
    && (forall k :: 0 <= k < |s.closings| ==> Targets(c.close, s.closings[k]) <= s.ids.Known())
    && (c.followMirror ==> forall k :: 0 <= k < |s.mirrorings| ==> Targets(c.mirror, s.mirrorings[k]) <= s.ids.Known())
  }

  lemma StepKeepsFollowed(c: Config, s: Search, choice: Choice)
    requires Inv(c, s) && Enabled(c, s) && FollowedOk(c, s)
    ensures FollowedOk(c, Step(c, s, choice))
  {
    StepKeepsSets(c, s, choice);
    var t := Step(c, s, choice);
    hide Inv, Targets, Inputs;
    if s.phase == FollowClose {
      assert t.ids.Known() == s.ids.Known() + Inputs(c.close, s.ids.subgen) + Targets(c.close, s.ids.subgen);
      FollowedMore(c, s, t);
    } else if s.phase == FollowMirror {
      assert t.ids.Known() == s.ids.Known() + if c.followMirror then Targets(c.mirror, s.ids.subgen) else {};
      FollowedMore(c, s, t);
    } else {
      FollowedSame(c, s, choice);
    }
  }

  lemma FollowedMore(c: Config, s: Search, t: Search)
    requires FollowedOk(c, s) && s.ids.Known() <= t.ids.Known() && s.phase != CollectInitial
    requires t.closings == s.closings || (t.closings == s.closings + [s.ids.subgen] && Targets(c.close, s.ids.subgen) <= t.ids.Known())
    requires t.mirrorings == s.mirrorings || (t.mirrorings == s.mirrorings + [s.ids.subgen] && (c.followMirror ==> Targets(c.mirror, s.ids.subgen) <= t.ids.Known()))
    ensures FollowedOk(c, t)
  {
    hide Targets;
  }

  lemma FollowedSame(c: Config, s: Search, choice: Choice)
    requires Enabled(c, s) && FollowedOk(c, s) && s.phase != FollowClose && s.phase != FollowMirror && s.ids.Known() <= Step(c, s, choice).ids.Known()
    ensures FollowedOk(c, Step(c, s, choice))
  {
    hide Targets, Inputs;
    var t := Step(c, s, choice);
    assert t.closings == s.closings && t.mirrorings == s.mirrorings && (s.phase == CollectInitial ==> c.initial <= t.ids.Known());
  }

  // ---- Where ids are.

  /** Every known id waits in the subgeneration, has been promoted with one, or was erased from one; the last two exclude each other. */
  ghost predicate PlacesOk(c: Config, s: Search) {
    && (forall i: nat :: i in s.ids.Known() ==> i in s.ids.subgen || Promoted(s, i) || Erased(c, s, i))
    && (forall i: nat :: Erased(c, s, i) ==> i in s.ids.closed && !Promoted(s, i))
    && (forall i: nat :: Promoted(s, i) <==> Given(s.subgenerations, i))
    && (forall i: nat :: Promoted(s, i) ==> i in s.ids.closed)
  }

  lemma StepKeepsPlaces(c: Config, s: Search, choice: Choice)
    requires Inv(c, s) && Enabled(c, s) && PlacesOk(c, s)
    ensures PlacesOk(c, Step(c, s, choice))
  {
    var t := Step(c, s, choice);
    assert SetsOk(s.ids) && (s.phase == BeginGeneration ==> s.ids.subgen == {});
    hide Inv;
    match s.phase
    case BeginGeneration =>
      assert s.ids.curgen + {} == s.ids.curgen;
      FlippedPromoted(s, t);
      SamePlaces(c, s, t);
    case BeginSubgeneration =>
      PromotedPlaces(c, s, t);
    case FollowClose =>
      ErasedPlaces(c, s, t);
    case _ =>
      SamePromoted(s, t);
      SamePlaces(c, s, t);
  }

  /** Ids may be added to the subgeneration. */
  lemma SamePlaces(c: Config, s: Search, t: Search)
    requires PlacesOk(c, s) && t.ids.closed == s.ids.closed && s.ids.subgen <= t.ids.subgen
    requires t.closings == s.closings && t.subgenerations == s.subgenerations && forall i: nat :: Promoted(t, i) <==> Promoted(s, i)
    ensures PlacesOk(c, t)
  {
    hide Promoted, Given;
    assert forall i: nat :: Erased(c, t, i) <==> Erased(c, s, i);
  }

  lemma PromotedPlaces(c: Config, s: Search, t: Search)
    requires PlacesOk(c, s) && SetsOk(s.ids) && t.ids == s.ids.FlipSubgeneration()
    requires t.closings == s.closings && t.subgenerations == s.subgenerations + [s.ids.subgen] && t.generations == s.generations
    ensures PlacesOk(c, t)
  {
    forall i: nat ensures Promoted(t, i) <==> Promoted(s, i) || i in s.ids.subgen {
    }
    forall i: nat ensures Given(t.subgenerations, i) <==> Given(s.subgenerations, i) || i in s.ids.subgen {
      GivenOneMore(s.subgenerations, s.ids.subgen, i);
    }
    hide Promoted, Given;
    assert forall i: nat :: Erased(c, t, i) <==> Erased(c, s, i);
  }

  lemma ErasedPlaces(c: Config, s: Search, t: Search)
    requires PlacesOk(c, s) && SetsOk(s.ids) && t.ids == s.ids.Erase(Inputs(c.close, s.ids.subgen)).Add(Targets(c.close, s.ids.subgen))
    requires t.closings == s.closings + [s.ids.subgen] && t.subgenerations == s.subgenerations && t.generations == s.generations
    ensures PlacesOk(c, t)
  {
    SamePromoted(s, t);
    forall i: nat ensures Erased(c, t, i) <==> Erased(c, s, i) || i in Inputs(c.close, s.ids.subgen) {
      GivenOneMore(s.closings, s.ids.subgen, i);
    }
    hide Promoted, Given, Erased, Targets;
  }

  // ---- How often edges were followed.

  /** Close edges once for each subgeneration, unless there are several players; mirror edges for each but the first. */
  ghost predicate CountsOk(c: Config, s: Search) {
    var n := |s.subgenerations|;
    && |s.closings| == (if c.multiplayer then 0 else if Mirroring(s.phase) then n + 1 else n)
    && |s.mirrorings| == (if n == 0 then 0 else if s.phase == BeginSubgeneration then n else n - 1)
    && (s.generation == 0 && s.subgeneration == 0 <==> n == 0 || FirstEmpty(s))
    && (FirstEmpty(s) ==> s.phase == BeginGeneration && s.ids.curgen == {})
    && (n == 0 ==> s.ids.curgen == {} && s.phase != ComputeMirror && s.phase != FollowMirror)
    && (s.phase == BeginGeneration || Combining(s.phase) || Connecting(s.phase) ==> n > 0)
    && (s.stopped ==> s.phase == BeginGeneration)
    && (s.phase == ComputeClose || s.phase == FollowClose ==> !c.multiplayer)
  }

  /** There was nothing to promote the first time. */
  ghost predicate FirstEmpty(s: Search) {
    |s.subgenerations| == 1 && s.subgenerations[0] == {}
  }

  lemma StepKeepsCounts(c: Config, s: Search, choice: Choice)
    requires Inv(c, s) && Enabled(c, s) && CountsOk(c, s)
    ensures CountsOk(c, Step(c, s, choice))
  {
    assert s.phase == BeginGeneration ==> s.ids.subgen == {};
    hide Inv, Targets, Inputs;
    if s.phase == BeginGeneration || s.phase == BeginSubgeneration {
      assert s.ids.curgen + {} == s.ids.curgen;
    } else {
      QuietCounts(c, s, choice);
    }
  }

  /** The other phases promote nothing. */
  lemma QuietCounts(c: Config, s: Search, choice: Choice)
    requires Enabled(c, s) && CountsOk(c, s) && s.phase != BeginGeneration && s.phase != BeginSubgeneration
    ensures CountsOk(c, Step(c, s, choice))
  {
    hide Targets, Inputs;
    var t := Step(c, s, choice);
    assert t.subgenerations == s.subgenerations && t.ids.curgen == s.ids.curgen && t.generation == s.generation && t.subgeneration == s.subgeneration;
  }

  // ---- What following edges made of a subgeneration.

  /** Ids with close edges are gone, the targets that were not closed are there. */
  ghost predicate AfterClose(c: Config, given: set<nat>, after: set<nat>) {
    var inputs := Inputs(c.close, given);
    given - inputs <= after <= given - inputs + Targets(c.close, given) && after !! inputs
  }

  /** Mirror images have joined, if they are wanted. */
  ghost predicate AfterMirror(c: Config, given: set<nat>, after: set<nat>) {
    given <= after <= if c.followMirror then given + Targets(c.mirror, given) else given
  }

  /** The `k`th subgeneration before mirror edges were followed. */
  ghost function Closed(s: Search, k: nat): set<nat>
    requires k < |s.subgenerations| && k <= |s.mirrorings|
  {
    if k == 0 then s.subgenerations[0] else s.mirrorings[k - 1]
  }

  /** Each subgeneration is what following close and mirror edges made of the ids that were new. */
  ghost predicate ContentOk(c: Config, s: Search) {
    var n := |s.subgenerations|;
    && (forall k: nat :: k < n && k <= |s.mirrorings| && k < |s.closings| ==> AfterClose(c, s.closings[k], Closed(s, k)))
    && (forall k: nat :: 0 < k < n && k <= |s.mirrorings| ==> AfterMirror(c, s.mirrorings[k - 1], s.subgenerations[k]))
    && (Mirroring(s.phase) && (s.phase != BeginSubgeneration || n == 0) && n < |s.closings| ==> AfterClose(c, s.closings[n], s.ids.subgen))
    && (s.phase == BeginSubgeneration && 0 < n == |s.mirrorings| ==>
          AfterMirror(c, s.mirrorings[n - 1], s.ids.subgen) && (n < |s.closings| ==> AfterClose(c, s.closings[n], s.mirrorings[n - 1])))
  }

  lemma StepKeepsContent(c: Config, s: Search, choice: Choice)
    requires Inv(c, s) && Enabled(c, s) && CountsOk(c, s) && ContentOk(c, s)
    ensures ContentOk(c, Step(c, s, choice))
  {
    assert SetsOk(s.ids);
    hide Inv;
    var t := Step(c, s, choice);
    match s.phase
    case FollowClose =>
      ClosedContent(c, s, t);
    case FollowMirror =>
      MirroredContent(c, s, t);
    case BeginSubgeneration =>
      PromotedContent(c, s, t);
    case _ =>
      hide AfterClose, AfterMirror, Targets, Inputs;
  }

  lemma ClosedContent(c: Config, s: Search, t: Search)
    requires CountsOk(c, s) && ContentOk(c, s) && SetsOk(s.ids) && s.phase == FollowClose
    requires t == s.(ids := s.ids.Erase(Inputs(c.close, s.ids.subgen)).Add(Targets(c.close, s.ids.subgen)), closings := s.closings + [s.ids.subgen], phase := DiscoverNeedsMirror)
    ensures ContentOk(c, t)
  {
    assert AfterClose(c, s.ids.subgen, t.ids.subgen);
    assert forall k :: 0 <= k < |s.closings| ==> t.closings[k] == s.closings[k];
    hide AfterClose, AfterMirror, Targets, Inputs;
    forall k: nat | k < |s.subgenerations| && k <= |s.mirrorings| && k < |t.closings| ensures AfterClose(c, t.closings[k], Closed(t, k)) {
      assert AfterClose(c, s.closings[k], Closed(s, k));
    }
  }

  lemma MirroredContent(c: Config, s: Search, t: Search)
    requires CountsOk(c, s) && ContentOk(c, s) && SetsOk(s.ids) && s.phase == FollowMirror
    requires t == s.(ids := if c.followMirror then s.ids.Add(Targets(c.mirror, s.ids.subgen)) else s.ids, mirrorings := s.mirrorings + [s.ids.subgen], phase := BeginSubgeneration)
    ensures ContentOk(c, t)
  {
    assert AfterMirror(c, s.ids.subgen, t.ids.subgen);
    assert forall k :: 0 <= k < |s.mirrorings| ==> t.mirrorings[k] == s.mirrorings[k];
    hide AfterClose, AfterMirror, Targets, Inputs;
    forall k: nat | k < |s.subgenerations| && k <= |t.mirrorings| && k < |s.closings| ensures AfterClose(c, s.closings[k], Closed(t, k)) {
      assert AfterClose(c, s.closings[k], Closed(s, k));
    }
  }

  lemma PromotedContent(c: Config, s: Search, t: Search)
    requires CountsOk(c, s) && ContentOk(c, s) && s.phase == BeginSubgeneration
    requires t.subgenerations == s.subgenerations + [s.ids.subgen] && t.closings == s.closings && t.mirrorings == s.mirrorings
    requires !Mirroring(t.phase)
    ensures ContentOk(c, t)
  {
    var n := |s.subgenerations|;
    assert forall k :: 0 <= k < n ==> t.subgenerations[k] == s.subgenerations[k];
    hide AfterClose, AfterMirror, Targets, Inputs;
    forall k: nat | k < n + 1 && k < |s.closings| ensures AfterClose(c, s.closings[k], Closed(t, k)) {
      if k < n {
        assert AfterClose(c, s.closings[k], Closed(s, k));
      }
    }
  }

  // ---- Whole runs.

  ghost predicate History(c: Config, s: Search) {
    FollowedOk(c, s) && PlacesOk(c, s) && CountsOk(c, s) && ContentOk(c, s)
  }

  lemma StartHistory(c: Config)
    ensures History(c, Start())
  {
  }

  lemma {:induction false} RunKeepsHistory(c: Config, s: Search, choices: seq<Choice>, end: Search)
    requires Inv(c, s) && History(c, s) && Run(c, s, choices, end)
    ensures Inv(c, end) && History(c, end)
    decreases |choices|
  {
    if choices != [] {
      StepKeepsInv(c, s, choices[0]);
      StepKeepsFollowed(c, s, choices[0]);
      StepKeepsPlaces(c, s, choices[0]);
      StepKeepsCounts(c, s, choices[0]);
      StepKeepsContent(c, s, choices[0]);
      hide Inv, FollowedOk, PlacesOk, CountsOk, ContentOk;
      RunKeepsHistory(c, Step(c, s, choices[0]), choices[1..], end);
    }
  }

  /** Once the initial ids have been collected they are known, whatever happens. */
  lemma InitialIsKnown(c: Config, choices: seq<Choice>, end: Search)
    requires Run(c, Start(), choices, end) && end.phase != CollectInitial
    ensures c.initial <= end.ids.Known()
  {
    StartInv(c);
    StartHistory(c);
    RunKeepsHistory(c, Start(), choices, end);
  }

  /**
   A run that stops has closed the initial ids and everything that the edges it followed lead to.  Every closed id
   was promoted with exactly those subgenerations that are listed, or was erased for its close edges.  Close edges
   were followed for each subgeneration, unless there are several players, and mirror edges for each but the first.
   */
  lemma StoppedHasFollowed(c: Config, choices: seq<Choice>, end: Search)
    requires Run(c, Start(), choices, end) && end.stopped
    ensures c.initial <= end.ids.closed
    ensures forall k :: 0 <= k < |end.closings| ==> Targets(c.close, end.closings[k]) <= end.ids.closed
    ensures c.followMirror ==> forall k :: 0 <= k < |end.mirrorings| ==> Targets(c.mirror, end.mirrorings[k]) <= end.ids.closed
    ensures forall i: nat :: i in end.ids.closed <==> Given(end.generations, i) || Erased(c, end, i)
    ensures forall i: nat :: Given(end.generations, i) ==> !Erased(c, end, i)
    ensures forall i: nat :: Given(end.generations, i) <==> Given(end.subgenerations, i)
    ensures |end.subgenerations| > 0 && |end.closings| == (if c.multiplayer then 0 else |end.subgenerations|) && |end.mirrorings| == |end.subgenerations| - 1
    ensures forall k :: 0 < k < |end.subgenerations| ==> AfterMirror(c, end.mirrorings[k - 1], end.subgenerations[k])
    ensures !c.multiplayer ==> forall k: nat :: k < |end.subgenerations| ==> AfterClose(c, end.closings[k], Closed(end, k))
  {
    StartInv(c);
    StartHistory(c);
    RunKeepsHistory(c, Start(), choices, end);
    assert end.ids.subgen == {} && end.ids.curgen == {};
    assert end.ids.Known() == end.ids.closed;
    forall i: nat ensures Promoted(end, i) <==> Given(end.generations, i) {
    }
    hide AfterClose, AfterMirror, Promoted, Given, Inv;
  }

  // ---- Edges are followed when the operation they come from has run to its end.

  lemma {:induction false} LastStep(c: Config, s: Search, choices: seq<Choice>, end: Search) returns (mid: Search)
    requires choices != [] && Run(c, s, choices, end)
    ensures Run(c, s, choices[..|choices| - 1], mid) && Enabled(c, mid) && end == Step(c, mid, choices[|choices| - 1])
    decreases |choices|
  {
    if |choices| == 1 {
      mid := s;
    } else {
      mid := LastStep(c, Step(c, s, choices[0]), choices[1..], end);
      assert choices[1..][..|choices| - 2] == choices[..|choices| - 1][1..];
    }
  }

  /** The ids whose edges are about to be followed, where an operation has to come first. */
  ghost predicate AboutToFollow(c: Config, s: Search, candidates: set<nat>) {
    || (s.phase == FollowConnect && candidates == s.ids.prevSubgen)
    || (s.phase == FollowClose && c.computeClose && candidates == s.ids.subgen)
    || (s.phase == FollowMirror && c.computeMirror && candidates == s.ids.subgen)
  }

  /** The phase before is the operation's, and it ran to its end. */
  lemma IntoFollow(c: Config, s: Search, choice: Choice, candidates: set<nat>)
    requires Enabled(c, s) && AboutToFollow(c, Step(c, s, choice), candidates)
    ensures var t := Step(c, s, choice);
            && choice.proceed && t.ids == s.ids && AboutToCompute(s, candidates)
            && s.phase == if t.phase == FollowConnect then ComputeConnect else if t.phase == FollowClose then ComputeClose else ComputeMirror
  {
    hide Targets, Inputs;
  }

  ghost predicate AboutToCompute(s: Search, candidates: set<nat>) {
    if s.phase == ComputeConnect then candidates == s.ids.prevSubgen
    else (s.phase == ComputeClose || s.phase == ComputeMirror) && candidates == s.ids.subgen
  }

  /** And before that what was still to be done was found out. */
  lemma IntoCompute(c: Config, s: Search, choice: Choice, candidates: set<nat>)
    requires Enabled(c, s) && AboutToCompute(Step(c, s, choice), candidates)
    ensures Step(c, s, choice).needs == candidates * choice.undone
  {
    hide Targets, Inputs;
  }

  /** Then the operation was given all of those ids that were still to be done, and ran to its end. */
  lemma ComputedBeforeFollowed(c: Config, choices: seq<Choice>, end: Search, candidates: set<nat>) returns (mid: Search)
    requires Run(c, Start(), choices, end) && AboutToFollow(c, end, candidates)
    ensures var n := |choices|;
            && n >= 2 && choices[n - 1].proceed && Run(c, Start(), choices[..n - 1], mid) && AboutToCompute(mid, candidates)
            && mid.ids == end.ids && mid.needs == candidates * choices[n - 2].undone
  {
    var n := |choices|;
    assert Start().phase == CollectInitial;
    mid := LastStep(c, Start(), choices, end);
    var early := choices[..n - 1];
    hide Step;
    IntoFollow(c, mid, choices[n - 1], candidates);
    var before := LastStep(c, Start(), early, mid);
    assert early[|early| - 1] == choices[n - 2];
    IntoCompute(c, before, choices[n - 2], candidates);
  }
}
