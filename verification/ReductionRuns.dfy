/** Whole runs of a parallel reduction. */
module ReductionRuns {
  import opened SeqFacts
  import opened Options
  import opened TransformReduce

  // ---- Termination: every step makes this smaller.

  function Weight(pc: Pc): nat {
    match pc
    case Done => 0
    case Fetching => 1
    case Transforming(_) => 1
    case Combining(_, _, _) => 2
    case Climbing(_, _) => 3
    case Storing(_, _) => 4
  }

  function TotalWeight(threads: seq<Pc>): nat {
    if threads == [] then 0 else Weight(threads[0]) + TotalWeight(threads[1..])
  }

  function WaitingNodes(phase: seq<Phase>): nat {
    if phase == [] then 0 else (if phase[0].Waiting? then 1 else 0) + WaitingNodes(phase[1..])
  }

  lemma {:induction false} WeightChanges(threads: seq<Pc>, t: nat, pc: Pc)
    requires t < |threads|
    ensures TotalWeight(threads[t := pc]) == TotalWeight(threads) - Weight(threads[t]) + Weight(pc)
  {
    var after := threads[t := pc];
    if t == 0 {
      assert after[1..] == threads[1..];
    } else {
      assert after[1..] == threads[1..][t - 1 := pc];
      WeightChanges(threads[1..], t - 1, pc);
    }
  }

  lemma {:induction false} WaitingChanges(phase: seq<Phase>, v: nat, to: Phase)
    requires v < |phase| && !to.Waiting?
    ensures WaitingNodes(phase[v := to]) == WaitingNodes(phase) - if phase[v].Waiting? then 1 else 0
  {
    var after := phase[v := to];
    if v == 0 {
      assert after[1..] == phase[1..];
    } else {
      assert after[1..] == phase[1..][v - 1 := to];
      WaitingChanges(phase[1..], v - 1, to);
    }
  }

  ghost function Remaining<T, R>(s: State<T, R>, phase: seq<Phase>): nat {
    TotalWeight(s.threads) + 5 * WaitingNodes(phase) + if s.next < |s.tasks| then |s.tasks| - s.next else 0
  }

  lemma StepDecreases<T, R>(job: Job<T, R>, s: State<T, R>, phase: seq<Phase>, t: nat)
    requires Inv(job, s, phase) && Safe(s, t) && s.threads[t] != Done && ThreadOk(job, s, phase, t)
    ensures Remaining(Step(job, s, t), After(s, phase, t)) < Remaining(s, phase)
  {
    var now := Step(job, s, t);
    WeightChanges(s.threads, t, now.threads[t]);
    match s.threads[t]
    case Transforming(i) =>
      WaitingChanges(phase, i + |s.pubs|, Held(t, i));
    case Climbing(i, v) =>
      WaitingChanges(phase, v, Published(i));
    case Combining(i, v, o) =>
      Family(v);
      assert FamilyOk(s, phase, Parent(v));
      WaitingChanges(phase, v, Consumed);
      WaitingChanges(phase[v := Consumed], Sibling(v), Consumed);
      WaitingChanges(phase[v := Consumed][Sibling(v) := Consumed], Parent(v), Held(t, i));
    case Storing(i, v) =>
      WaitingChanges(phase, 0, Published(i));
    case _ =>
  }

  // ---- Whole runs.

  /** The schedule, a list of unfinished threads to step, takes `s` to `end`. */
  ghost predicate Run<T, R>(job: Job<T, R>, s: State<T, R>, schedule: seq<nat>, end: State<T, R>)
    decreases |schedule|
  {
    if schedule == [] then s == end
    else Safe(s, schedule[0]) && s.threads[schedule[0]] != Done && Run(job, Step(job, s, schedule[0]), schedule[1..], end)
  }

  lemma {:induction false} RunKeepsInv<T, R>(job: Job<T, R>, s: State<T, R>, phase: seq<Phase>, schedule: seq<nat>, end: State<T, R>) returns (last: seq<Phase>)
    requires Inv(job, s, phase) && Run(job, s, schedule, end)
    ensures Inv(job, end, last) && |end.threads| == |s.threads| && |schedule| + Remaining(end, last) <= Remaining(s, phase)
    decreases |schedule|
  {
    if schedule == [] {
      last := phase;
    } else {
      StepKeepsInv(job, s, phase, schedule[0]);
      StepDecreases(job, s, phase, schedule[0]);
      last := RunKeepsInv(job, Step(job, s, schedule[0]), After(s, phase, schedule[0]), schedule[1..], end);
    }
  }

  lemma {:induction false} StartRemaining<T, R>(job: Job<T, R>, workers: nat)
    requires |job.tasks| >= 2
    ensures Remaining(Start(job, workers), seq(2 * |job.tasks| - 1, _ => Waiting)) <= 12 * |job.tasks| - 5
  {
    AllFetching(|Start(job, workers).threads|);
    AllWaiting(2 * |job.tasks| - 1);
  }

  lemma {:induction false} AllFetching(k: nat)
    ensures TotalWeight(seq(k, _ => Fetching)) == k
  {
    if k > 0 {
      assert seq(k, _ => Fetching)[1..] == seq(k - 1, _ => Fetching);
      AllFetching(k - 1);
    }
  }

  lemma {:induction false} AllWaiting(k: nat)
    ensures WaitingNodes(seq(k, _ => Waiting)) == k
  {
    if k > 0 {
      assert seq(k, _ => Waiting)[1..] == seq(k - 1, _ => Waiting);
      AllWaiting(k - 1);
    }
  }

  ghost predicate AllDone<T, R>(s: State<T, R>) {
    forall t :: 0 <= t < |s.threads| ==> s.threads[t] == Done
  }

  /** When every thread is done no node is still waiting. */
  lemma {:induction false} NothingWaits<T, R>(job: Job<T, R>, s: State<T, R>, phase: seq<Phase>, v: nat)
    requires Inv(job, s, phase) && AllDone(s) && |s.threads| > 0 && v < |phase|
    ensures !phase[v].Waiting?
    decreases |phase| - v
  {
    assert NodeOk(job, s, phase, v) && ThreadOk(job, s, phase, 0);
    if v < |s.pubs| {
      NothingWaits(job, s, phase, Left(v));
      NothingWaits(job, s, phase, Right(v));
      assert FamilyOk(s, phase, v) && NodeOk(job, s, phase, Left(v)) && NodeOk(job, s, phase, Right(v));
    }
  }

  /** Every node's value was computed once, and the root's is where `pubs[0]` points. */
  lemma DoneMeansReduced<T, R>(job: Job<T, R>, s: State<T, R>, phase: seq<Phase>)
    requires Inv(job, s, phase) && AllDone(s) && |s.threads| > 0
    ensures Finished(job, s)
  {
    forall v | 0 <= v < |phase| ensures v in s.log {
      NothingWaits(job, s, phase, v);
    }
    NothingWaits(job, s, phase, 0);
    assert NodeOk(job, s, phase, 0);
  }

  ghost predicate Finished<T, R>(job: Job<T, R>, s: State<T, R>) {
    && |job.tasks| >= 2
    && Distinct(s.log) && (forall v :: v in s.log <==> 0 <= v < 2 * |job.tasks| - 1)
    && |s.pubs| > 0 && s.pubs[0].Some? && s.pubs[0].value < |s.results|
    && s.results[s.pubs[0].value] == Some(TreeValue(job, 0))
  }

  /** The places in `results` that the next step of a thread reads or writes without synchronization. */
  ghost function Touches(pc: Pc): set<nat> {
    match pc
    case Transforming(i) => {i}
    case Combining(i, _, o) => {i, o}
    case _ => {}
  }

  /** No two threads are ever about to touch the same place. */
  lemma NoRaces<T, R>(job: Job<T, R>, s: State<T, R>, phase: seq<Phase>, t: nat, u: nat)
    requires Inv(job, s, phase) && t < |s.threads| && u < |s.threads| && t != u
    ensures Touches(s.threads[t]) !! Touches(s.threads[u])
  {
    assert ThreadOk(job, s, phase, t) && ThreadOk(job, s, phase, u);
    if s.threads[t].Combining? {
      TouchedPlaces(job, s, phase, t);
    }
    if s.threads[u].Combining? {
      TouchedPlaces(job, s, phase, u);
    }
    if s.threads[t].Transforming? {
      ExclusiveAt(s.threads, t, u);
    }
    if s.threads[t].Combining? && s.threads[u].Combining? {
      CombinersApart(phase, t, s.threads[t], u, s.threads[u]);
    }
  }

  lemma CombinersApart(phase: seq<Phase>, t: nat, pc: Pc, u: nat, qc: Pc)
    requires SlotsApart(phase) && t != u && pc.Combining? && qc.Combining?
    requires 0 < pc.node < |phase| && phase[pc.node] == Held(t, pc.index) && Sibling(pc.node) < |phase| && phase[Sibling(pc.node)] == Published(pc.other)
    requires 0 < qc.node < |phase| && phase[qc.node] == Held(u, qc.index) && Sibling(qc.node) < |phase| && phase[Sibling(qc.node)] == Published(qc.other)
    ensures Touches(pc) !! Touches(qc)
  {
    Family(pc.node);
    Family(qc.node);
  }

  lemma TouchedPlaces<T, R>(job: Job<T, R>, s: State<T, R>, phase: seq<Phase>, t: nat)
    requires Inv(job, s, phase) && t < |s.threads| && s.threads[t].Combining?
    ensures var pc := s.threads[t];
            && pc.index < |job.tasks| && pc.other < |job.tasks|
            && !phase[pc.index + |s.pubs|].Waiting? && !phase[pc.other + |s.pubs|].Waiting?
  {
    var pc := s.threads[t];
    assert ThreadOk(job, s, phase, t);
    assert NodeOk(job, s, phase, pc.node) && NodeOk(job, s, phase, Sibling(pc.node));
  }

  /**
   Every schedule of any positive number of workers: no thread is ever stuck or about to read a moved-from
   value, no two are about to touch the same result, there are at most 12n - 5 steps, and once all are done
   each task was transformed once, each node combined once, and the root has the one tree value.
   */
  lemma EveryRunReduces<T, R>(job: Job<T, R>, workers: nat, schedule: seq<nat>, end: State<T, R>)
    requires |job.tasks| >= 2 && workers > 0 && Run(job, Start(job, workers), schedule, end)
    ensures |end.threads| > 0 && forall t :: 0 <= t < |end.threads| ==> Safe(end, t)
    ensures forall t, u :: 0 <= t < u < |end.threads| ==> Touches(end.threads[t]) !! Touches(end.threads[u])
    ensures |schedule| <= 12 * |job.tasks| - 5
    ensures AllDone(end) ==> Finished(job, end)
  {
    StartInv(job, workers);
    StartRemaining(job, workers);
    var last := RunKeepsInv(job, Start(job, workers), seq(2 * |job.tasks| - 1, _ => Waiting), schedule, end);
    forall t | 0 <= t < |end.threads| ensures Safe(end, t) {
      InvMeansSafe(job, end, last, t);
    }
    forall t, u | 0 <= t < u < |end.threads| ensures Touches(end.threads[t]) !! Touches(end.threads[u]) {
      NoRaces(job, end, last, t, u);
    }
    if AllDone(end) {
      DoneMeansReduced(job, end, last);
    }
  }
}
