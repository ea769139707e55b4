// The lock-free parallel reduction. Worker threads take tasks from a shared counter, transform them, and
// combine the results along an implicit binary tree: whichever child of a node arrives first leaves a pointer
// to its result there, and the other one picks it up, combines the two and climbs on.
module TransformReduce {
  import opened SeqFacts
  import opened Options

  /** The tasks, how to transform one, and how to combine two results. */
  datatype Job<!T, !R> = Job(tasks: seq<T>, transform: T -> R, combine: (R, R) -> R)

  /** What a worker does next.  `node` is the tree node whose value is in `results[index]`. */
  datatype Pc =
    | Fetching
    | Transforming(index: nat)
    | Climbing(index: nat, node: nat)
    | Combining(index: nat, node: nat, other: nat)
    | Storing(index: nat, node: nat)
    | Done

  /** Shared memory, and where each worker is.  `None` in `tasks` or `results` is a moved-from or empty place; `log` is history. */
  datatype State<T, R> = State(
    tasks: seq<Option<T>>, results: seq<Option<R>>, pubs: seq<Option<nat>>, next: nat, threads: seq<Pc>, log: seq<nat>)

  // ---- The tree: n tasks, internal nodes 0 .. n-2, task i at node i + n - 1.

  function Parent(v: nat): nat {
    if v == 0 then 0 else (v - 1) / 2
  }

  function Left(p: nat): nat {
    2 * p + 1
  }

  function Right(p: nat): nat {
    2 * p + 2
  }

  function IsLeft(v: nat): bool {
    v % 2 == 1
  }

  function Sibling(v: nat): nat
    requires v > 0
  {
    if IsLeft(v) then v + 1 else v - 1
  }

  lemma Family(v: nat)
    requires v > 0
    ensures Parent(v) < v && Sibling(v) != v && Sibling(v) > 0 && Parent(Sibling(v)) == Parent(v) && Sibling(Sibling(v)) == v
    ensures if IsLeft(v) then v == Left(Parent(v)) && Sibling(v) == Right(Parent(v)) else v == Right(Parent(v)) && Sibling(v) == Left(Parent(v))
    ensures v < Sibling(v) <==> IsLeft(v)
  {
  }

  /** The value each node must get, whatever the schedule. */
  ghost function TreeValue<T, R>(job: Job<T, R>, v: nat): R
    requires |job.tasks| >= 2 && v < 2 * |job.tasks| - 1
    decreases 2 * |job.tasks| - v
  {
    var n := |job.tasks|;
    if v >= n - 1 then job.transform(job.tasks[v - (n - 1)])
    else job.combine(TreeValue(job, Left(v)), TreeValue(job, Right(v)))
  }

  // ---- The steps.

  ghost function Start<T, R>(job: Job<T, R>, workers: nat): State<T, R>
    requires |job.tasks| >= 2
  {
    var n := |job.tasks|;
    State(seq(n, i requires 0 <= i < n => Some(job.tasks[i])), seq(n, _ => None), seq(n - 1, _ => None), 0,
          seq(if workers < n then workers else n, _ => Fetching), [])
  }

  /** Everything thread `t` reads next is there: indices are in range and nothing it needs has been moved from. */
  ghost predicate Safe<T, R>(s: State<T, R>, t: nat) {
    && t < |s.threads|
    && match s.threads[t]
       case Fetching => true
       case Transforming(i) => i < |s.tasks| && s.tasks[i].Some? && i < |s.results|
       case Climbing(i, v) => 0 < v && Parent(v) < |s.pubs| && i < |s.results|
       case Combining(i, v, o) => 0 < v && i < |s.results| && o < |s.results| && i != o && s.results[i].Some? && s.results[o].Some?
       case Storing(i, v) => 0 < v && Parent(v) < |s.pubs|
       case Done => true
  }

  /** Thread `t` takes its next step. */
  ghost function Step<T, R>(job: Job<T, R>, s: State<T, R>, t: nat): State<T, R>
    requires Safe(s, t)
  {
    match s.threads[t]
    case Fetching =>
      s.(next := s.next + 1, threads := s.threads[t := if s.next < |s.tasks| then Transforming(s.next) else Done])
    case Transforming(i) =>
      s.(results := s.results[i := Some(job.transform(s.tasks[i].value))], tasks := s.tasks[i := None],
         threads := s.threads[t := Climbing(i, i + |s.pubs|)], log := s.log + [i + |s.pubs|])
    case Climbing(i, v) =>
      if s.pubs[Parent(v)].None?
      then s.(pubs := s.pubs[Parent(v) := Some(i)], threads := s.threads[t := Fetching])
      else s.(threads := s.threads[t := Combining(i, v, s.pubs[Parent(v)].value)])
    case Combining(i, v, o) =>
      var mine, theirs := s.results[i].value, s.results[o].value;
      s.(results := s.results[o := None][i := Some(if v < Sibling(v) then job.combine(mine, theirs) else job.combine(theirs, mine))],
         threads := s.threads[t := Storing(i, v)], log := s.log + [Parent(v)])
    case Storing(i, v) =>
      s.(pubs := s.pubs[Parent(v) := Some(i)], threads := s.threads[t := if Parent(v) == 0 then Fetching else Climbing(i, Parent(v))])
    case Done => s
  }

  // ---- What every step keeps.

  /** Where the value of a node is: not computed yet, with a thread, left for its sibling, or used. */
  datatype Phase = Waiting | Held(thread: nat, slot: nat) | Published(slot: nat) | Consumed

  predicate Live(p: Phase) {
    p.Held? || p.Published?
  }

  ghost predicate Sizes<T, R>(job: Job<T, R>, s: State<T, R>, phase: seq<Phase>) {
    var n := |job.tasks|;
    n >= 2 && |s.tasks| == |s.results| == n && |s.pubs| == n - 1 && |phase| == 2 * n - 1
  }

  ghost predicate HasValue<T, R>(job: Job<T, R>, s: State<T, R>, phase: seq<Phase>, v: nat, i: nat)
    requires Sizes(job, s, phase)
  {
    v < |phase| && i < |s.results| && s.results[i] == Some(TreeValue(job, v)) && !phase[i + |s.pubs|].Waiting?
  }

  ghost predicate ThreadOk<T, R>(job: Job<T, R>, s: State<T, R>, phase: seq<Phase>, t: nat)
    requires Sizes(job, s, phase) && t < |s.threads|
  {
    match s.threads[t]
    case Fetching => true
    case Transforming(i) => i < |job.tasks| && i < s.next && s.tasks[i] == Some(job.tasks[i]) && phase[i + |s.pubs|].Waiting?
    case Climbing(i, v) => 0 < v < |phase| && phase[v] == Held(t, i)
    case Combining(i, v, o) => 0 < v < |phase| && phase[v] == Held(t, i) && Sibling(v) < |phase| && phase[Sibling(v)] == Published(o)
    case Storing(i, v) => 0 < v < |phase| && phase[Parent(v)] == Held(t, i)
    case Done => s.next >= |job.tasks|
  }

  /** A held node is held by a thread that knows it. */
  ghost predicate HeldOk<T, R>(s: State<T, R>, v: nat, t: nat, i: nat) {
    && t < |s.threads|
    && match s.threads[t]
       case Climbing(j, u) => j == i && u == v
       case Combining(j, u, _) => j == i && u == v
       case Storing(j, u) => j == i && u > 0 && Parent(u) == v
       case _ => false
  }

  ghost predicate NodeOk<T, R>(job: Job<T, R>, s: State<T, R>, phase: seq<Phase>, v: nat)
    requires Sizes(job, s, phase) && v < |phase|
  {
    match phase[v]
    case Waiting => v >= |s.pubs| ==> v - |s.pubs| >= s.next || Taken(s, v - |s.pubs|)
    case Held(t, i) => HeldOk(s, v, t, i) && HasValue(job, s, phase, v, i)
    case Published(i) => HasValue(job, s, phase, v, i) && s.pubs[Parent(v)] == Some(i)
    case Consumed => v > 0
  }

  ghost predicate Taken<T, R>(s: State<T, R>, i: nat) {
    exists t :: 0 <= t < |s.threads| && s.threads[t] == Transforming(i)
  }

  /** An internal node waits until both children are used; until then at most one of them is published. */
  ghost predicate FamilyOk<T, R>(s: State<T, R>, phase: seq<Phase>, p: nat)
    requires p < |s.pubs| && Right(p) < |phase|
  {
    var l, r := phase[Left(p)], phase[Right(p)];
    if phase[p].Waiting? then !l.Consumed? && !r.Consumed? && !(l.Published? && r.Published?) && (s.pubs[p].None? <==> !l.Published? && !r.Published?)
    else l.Consumed? && r.Consumed?
  }

  /** No two nodes are kept in one place. */
  ghost predicate SlotsApart(phase: seq<Phase>) {
    forall u: nat, v: nat :: u < |phase| && v < |phase| && Live(phase[u]) && Live(phase[v]) && phase[u].slot == phase[v].slot ==> u == v
  }

  /** Each task is with one thread at most, and untouched until the counter passes it. */
  ghost predicate TasksOk<T, R>(job: Job<T, R>, s: State<T, R>, phase: seq<Phase>)
    requires Sizes(job, s, phase)
  {
    && (forall i :: s.next <= i < |job.tasks| ==> Untouched(job, s, phase, i))
    && Exclusive(s.threads)
  }

  /** Nobody has taken it yet. */
  ghost predicate Untouched<T, R>(job: Job<T, R>, s: State<T, R>, phase: seq<Phase>, i: nat)
    requires Sizes(job, s, phase) && i < |job.tasks|
  {
    s.tasks[i] == Some(job.tasks[i]) && phase[i + |s.pubs|].Waiting?
  }

  ghost predicate Exclusive(threads: seq<Pc>) {
    forall t, u :: 0 <= t < u < |threads| && threads[t].Transforming? ==> threads[t] != threads[u]
  }

  /** Every node's value has been computed as often as its phase says. */
  ghost predicate LogOk(log: seq<nat>, phase: seq<Phase>) {
    && Distinct(log)
    && (forall v :: v in log ==> v < |phase|)
    && (forall v :: 0 <= v < |phase| ==> (v in log <==> !phase[v].Waiting?))
  }

  ghost predicate Inv<T, R>(job: Job<T, R>, s: State<T, R>, phase: seq<Phase>) {
    && Sizes(job, s, phase) && TasksOk(job, s, phase) && SlotsApart(phase) && LogOk(s.log, phase)
    && (forall t :: 0 <= t < |s.threads| ==> ThreadOk(job, s, phase, t))
    && (forall v :: 0 <= v < |phase| ==> NodeOk(job, s, phase, v))
    && (forall p :: 0 <= p < |s.pubs| ==> FamilyOk(s, phase, p))
  }

  lemma StartInv<T, R>(job: Job<T, R>, workers: nat)
    requires |job.tasks| >= 2
    ensures Inv(job, Start(job, workers), seq(2 * |job.tasks| - 1, _ => Waiting))
  {
  }

  /** No thread ever reads a moved-from result or task, or leaves its arrays. */
  lemma InvMeansSafe<T, R>(job: Job<T, R>, s: State<T, R>, phase: seq<Phase>, t: nat)
    requires Inv(job, s, phase) && t < |s.threads|
    ensures Safe(s, t)
  {
    assert ThreadOk(job, s, phase, t);
    match s.threads[t]
    case Climbing(i, v) =>
      assert NodeOk(job, s, phase, v);
    case Combining(i, v, o) =>
      Family(v);
      assert NodeOk(job, s, phase, v) && NodeOk(job, s, phase, Sibling(v));
    case _ =>
  }

  /** How a step moves nodes from phase to phase. */
  ghost function After<T, R>(s: State<T, R>, phase: seq<Phase>, t: nat): (after: seq<Phase>)
    requires Safe(s, t) && |phase| == 2 * |s.pubs| + 1 && |s.results| == |s.pubs| + 1
    requires s.threads[t].Climbing? || s.threads[t].Combining? || s.threads[t].Storing? ==> s.threads[t].node < |phase|
    ensures |after| == |phase|
  {
    match s.threads[t]
    case Transforming(i) => phase[i + |s.pubs| := Held(t, i)]
    case Climbing(i, v) => if s.pubs[Parent(v)].None? then phase[v := Published(i)] else phase
    case Combining(i, v, o) =>
      Family(v);
      phase[v := Consumed][Sibling(v) := Consumed][Parent(v) := Held(t, i)]
    case Storing(i, v) => if Parent(v) == 0 then phase[0 := Published(i)] else phase
    case _ => phase
  }

  // Each step is checked thread by thread, node by node and family by family.

  ghost predicate ThreadsOk<T, R>(job: Job<T, R>, s: State<T, R>, phase: seq<Phase>)
    requires Sizes(job, s, phase)
  {
    forall t :: 0 <= t < |s.threads| ==> ThreadOk(job, s, phase, t)
  }

  ghost predicate NodesOk<T, R>(job: Job<T, R>, s: State<T, R>, phase: seq<Phase>)
    requires Sizes(job, s, phase)
  {
    forall v :: 0 <= v < |phase| ==> NodeOk(job, s, phase, v)
  }

  /** A step that leaves task `i` alone leaves it with the thread that has it. */
  lemma StillTaken<T, R>(s: State<T, R>, now: State<T, R>, t: nat, i: int)
    requires |now.threads| == |s.threads| && t < |s.threads| && now.threads == s.threads[t := now.threads[t]]
    ensures i >= 0 && Taken(s, i) && s.threads[t] != Transforming(i) ==> Taken(now, i)
  {
    if i >= 0 && Taken(s, i) && s.threads[t] != Transforming(i) {
      var u :| 0 <= u < |s.threads| && s.threads[u] == Transforming(i);
      assert now.threads[u] == Transforming(i);
    }
  }

  // Fetching the number of the next task.

  lemma FetchNode<T, R>(job: Job<T, R>, s: State<T, R>, phase: seq<Phase>, t: nat, v: nat)
    requires Sizes(job, s, phase) && Safe(s, t) && s.threads[t].Fetching? && v < |phase| && NodeOk(job, s, phase, v)
    ensures NodeOk(job, Step(job, s, t), phase, v)
  {
    hide TreeValue;
    var now := Step(job, s, t);
    StillTaken(s, now, t, v - |s.pubs|);
    if v - |s.pubs| == s.next {
      assert now.threads[t] == Transforming(s.next);
    }
  }

  lemma FetchThread<T, R>(job: Job<T, R>, s: State<T, R>, phase: seq<Phase>, t: nat, u: nat)
    requires Sizes(job, s, phase) && Safe(s, t) && s.threads[t].Fetching? && TasksOk(job, s, phase) && u < |s.threads| && ThreadOk(job, s, phase, u)
    ensures ThreadOk(job, Step(job, s, t), phase, u)
    ensures u != t ==> Step(job, s, t).threads[u] == s.threads[u] && s.threads[u] != Transforming(s.next)
  {
    if u == t && s.next < |job.tasks| {
      assert Untouched(job, s, phase, s.next);
    }
  }

  lemma OneMoreExclusive(threads: seq<Pc>, after: seq<Pc>, t: nat)
    requires Exclusive(threads) && |after| == |threads| && t < |threads|
    requires forall u :: 0 <= u < |threads| && u != t ==> after[u] == threads[u] && (after[t].Transforming? ==> after[u] != after[t])
    ensures Exclusive(after)
  {
  }

  lemma FetchKeepsInv<T, R>(job: Job<T, R>, s: State<T, R>, phase: seq<Phase>, t: nat)
    requires Inv(job, s, phase) && Safe(s, t) && s.threads[t].Fetching?
    ensures Inv(job, Step(job, s, t), phase)
  {
    var now := Step(job, s, t);
    assert now.threads[t] == Done || now.threads[t] == Transforming(s.next);
    assert now.log == s.log && now.pubs == s.pubs && now.tasks == s.tasks;
    hide NodeOk, LogOk, SlotsApart, FamilyOk, ThreadOk;
    forall u | 0 <= u < |s.threads| ensures ThreadOk(job, now, phase, u) && (u != t ==> now.threads[u] == s.threads[u] && now.threads[u] != Transforming(s.next)) {
      FetchThread(job, s, phase, t, u);
    }
    forall v | 0 <= v < |phase| ensures NodeOk(job, now, phase, v) {
      FetchNode(job, s, phase, t, v);
    }
    forall p | 0 <= p < |s.pubs| ensures FamilyOk(now, phase, p) {
      SameFamily(s, now, phase, phase, p);
    }
    assert Sizes(job, now, phase);
    OneMoreExclusive(s.threads, now.threads, t);
    TasksStay(job, s, phase, now, phase);
    assert LogOk(now.log, phase);
  }

  /** A family is unaffected by changes elsewhere. */
  lemma SameFamily<T, R>(s: State<T, R>, now: State<T, R>, phase: seq<Phase>, after: seq<Phase>, p: nat)
    requires p < |s.pubs| == |now.pubs| && Right(p) < |phase| == |after| && FamilyOk(s, phase, p)
    requires phase[Left(p)] == after[Left(p)] && phase[Right(p)] == after[Right(p)]
    requires (phase[p].Waiting? <==> after[p].Waiting?) && (phase[p].Waiting? ==> s.pubs[p] == now.pubs[p])
    ensures FamilyOk(now, after, p)
  {
  }

  // Transforming a task.

  lemma TransformNode<T, R>(job: Job<T, R>, s: State<T, R>, phase: seq<Phase>, t: nat, v: nat)
    requires Sizes(job, s, phase) && Safe(s, t) && s.threads[t].Transforming? && ThreadOk(job, s, phase, t)
    requires v < |phase| && NodeOk(job, s, phase, v)
    ensures NodeOk(job, Step(job, s, t), After(s, phase, t), v)
  {
    var now := Step(job, s, t);
    var i := s.threads[t].index;
    StillTaken(s, now, t, v - |s.pubs|);
    if v == i + |s.pubs| {
      assert TreeValue(job, v) == job.transform(job.tasks[i]);
    }
    hide TreeValue;
  }

  lemma TransformFamily<T, R>(job: Job<T, R>, s: State<T, R>, phase: seq<Phase>, t: nat, p: nat)
    requires Sizes(job, s, phase) && Safe(s, t) && s.threads[t].Transforming? && ThreadOk(job, s, phase, t)
    requires p < |s.pubs| && FamilyOk(s, phase, p)
    ensures FamilyOk(Step(job, s, t), After(s, phase, t), p)
  {
  }

  lemma TransformThread<T, R>(job: Job<T, R>, s: State<T, R>, phase: seq<Phase>, t: nat, u: nat)
    requires Sizes(job, s, phase) && Safe(s, t) && s.threads[t].Transforming? && ThreadOk(job, s, phase, t)
    requires u < |s.threads| && ThreadOk(job, s, phase, u) && (u != t ==> s.threads[u] != s.threads[t])
    ensures Sizes(job, Step(job, s, t), After(s, phase, t)) && ThreadOk(job, Step(job, s, t), After(s, phase, t), u)
  {
    hide TreeValue;
  }

  lemma TransformTasks<T, R>(job: Job<T, R>, s: State<T, R>, phase: seq<Phase>, t: nat)
    requires Sizes(job, s, phase) && Safe(s, t) && s.threads[t].Transforming? && ThreadsOk(job, s, phase) && TasksOk(job, s, phase)
    ensures Sizes(job, Step(job, s, t), After(s, phase, t)) && TasksOk(job, Step(job, s, t), After(s, phase, t))
    ensures ThreadsOk(job, Step(job, s, t), After(s, phase, t))
  {
    var now, after := Step(job, s, t), After(s, phase, t);
    assert ThreadOk(job, s, phase, t);
    StillExclusive(s.threads, now.threads, t);
    TasksStay(job, s, phase, now, after);
    hide TreeValue, ThreadOk;
    forall u | 0 <= u < |s.threads| ensures ThreadOk(job, now, after, u) {
      assert ThreadOk(job, s, phase, u);
      if u != t {
        ExclusiveAt(s.threads, t, u);
      }
      TransformThread(job, s, phase, t, u);
    }
  }

  lemma ExclusiveAt(threads: seq<Pc>, t: nat, u: nat)
    requires Exclusive(threads) && t < |threads| && u < |threads| && t != u && threads[t].Transforming?
    ensures threads[u] != threads[t]
  {
  }

  /** No node is kept in the place of a task that has not been transformed. */
  lemma FreshSlot<T, R>(job: Job<T, R>, s: State<T, R>, phase: seq<Phase>, i: nat)
    requires Sizes(job, s, phase) && NodesOk(job, s, phase) && SlotsApart(phase) && i < |job.tasks| && phase[i + |s.pubs|].Waiting?
    ensures forall t :: SlotsApart(phase[i + |s.pubs| := Held(t, i)])
  {
    hide TreeValue;
    forall v | 0 <= v < |phase| && Live(phase[v]) ensures phase[v].slot != i {
      assert NodeOk(job, s, phase, v);
    }
  }

  lemma TransformKeepsInv<T, R>(job: Job<T, R>, s: State<T, R>, phase: seq<Phase>, t: nat)
    requires Inv(job, s, phase) && Safe(s, t) && s.threads[t].Transforming? && ThreadOk(job, s, phase, t)
    ensures Inv(job, Step(job, s, t), After(s, phase, t))
  {
    FreshSlot(job, s, phase, s.threads[t].index);
    hide NodeOk, FamilyOk, SlotsApart, TreeValue;
    var now, after := Step(job, s, t), After(s, phase, t);
    TransformTasks(job, s, phase, t);
    forall v | 0 <= v < |phase| ensures NodeOk(job, now, after, v) {
      TransformNode(job, s, phase, t, v);
    }
    forall p | 0 <= p < |s.pubs| ensures FamilyOk(now, after, p) {
      TransformFamily(job, s, phase, t, p);
    }
    assert LogOk(now.log, after);
  }

  // Trying to leave a result for the sibling.

  ghost predicate AtNode<T, R>(job: Job<T, R>, s: State<T, R>, phase: seq<Phase>, t: nat) {
    && Sizes(job, s, phase) && Safe(s, t) && (s.threads[t].Climbing? || s.threads[t].Combining? || s.threads[t].Storing?)
    && ThreadOk(job, s, phase, t)
  }

  lemma ClimbThread<T, R>(job: Job<T, R>, s: State<T, R>, phase: seq<Phase>, t: nat, u: nat)
    requires AtNode(job, s, phase, t) && s.threads[t].Climbing? && u < |s.threads| && ThreadOk(job, s, phase, u)
    requires FamilyOk(s, phase, Parent(s.threads[t].node)) && Sibling(s.threads[t].node) < |phase| && NodeOk(job, s, phase, Sibling(s.threads[t].node))
    ensures Sizes(job, Step(job, s, t), After(s, phase, t)) && ThreadOk(job, Step(job, s, t), After(s, phase, t), u)
  {
    hide TreeValue;
    Family(s.threads[t].node);
  }

  lemma ClimbNode<T, R>(job: Job<T, R>, s: State<T, R>, phase: seq<Phase>, t: nat, u: nat)
    requires AtNode(job, s, phase, t) && s.threads[t].Climbing? && u < |phase| && NodeOk(job, s, phase, u)
    ensures Sizes(job, Step(job, s, t), After(s, phase, t)) && NodeOk(job, Step(job, s, t), After(s, phase, t), u)
  {
    hide TreeValue;
    StillTaken(s, Step(job, s, t), t, u - |s.pubs|);
  }

  lemma ClimbFamily<T, R>(job: Job<T, R>, s: State<T, R>, phase: seq<Phase>, t: nat, p: nat)
    requires AtNode(job, s, phase, t) && s.threads[t].Climbing? && p < |s.pubs| && FamilyOk(s, phase, p)
    ensures FamilyOk(Step(job, s, t), After(s, phase, t), p)
  {
    Family(s.threads[t].node);
    if p != Parent(s.threads[t].node) {
      SameFamily(s, Step(job, s, t), phase, After(s, phase, t), p);
    }
  }

  lemma StillExclusive(threads: seq<Pc>, after: seq<Pc>, t: nat)
    requires Exclusive(threads) && |after| == |threads| && t < |threads| && !after[t].Transforming?
    requires forall u :: 0 <= u < |threads| && u != t ==> after[u] == threads[u]
    ensures Exclusive(after)
  {
  }

  /** Tasks the counter has not passed stay as they are. */
  lemma TasksStay<T, R>(job: Job<T, R>, s: State<T, R>, phase: seq<Phase>, now: State<T, R>, after: seq<Phase>)
    requires Sizes(job, s, phase) && Sizes(job, now, after) && TasksOk(job, s, phase) && s.next <= now.next && Exclusive(now.threads)
    requires forall i :: now.next <= i < |job.tasks| && Untouched(job, s, phase, i) ==> Untouched(job, now, after, i)
    ensures TasksOk(job, now, after)
  {
    hide Untouched, Exclusive;
    forall i | now.next <= i < |job.tasks| ensures Untouched(job, now, after, i) {
      assert Untouched(job, s, phase, i);
    }
  }

  /** Steps along the tree do not touch the tasks. */
  lemma TasksUntouched<T, R>(job: Job<T, R>, s: State<T, R>, phase: seq<Phase>, now: State<T, R>, after: seq<Phase>, t: nat)
    requires Sizes(job, s, phase) && Sizes(job, now, after) && TasksOk(job, s, phase) && t < |s.threads| == |now.threads|
    requires now.tasks == s.tasks && now.next == s.next && !now.threads[t].Transforming?
    requires forall u :: 0 <= u < |s.threads| && u != t ==> now.threads[u] == s.threads[u]
    requires forall v :: |s.pubs| <= v < |phase| && phase[v].Waiting? ==> after[v].Waiting?
    ensures TasksOk(job, now, after)
  {
    StillExclusive(s.threads, now.threads, t);
    TasksStay(job, s, phase, now, after);
  }

  /** Moving a live node to another live phase in the same place keeps places apart. */
  lemma SameSlots(phase: seq<Phase>, v: nat, to: Phase)
    requires SlotsApart(phase) && v < |phase| && Live(phase[v]) && Live(to) && to.slot == phase[v].slot
    ensures SlotsApart(phase[v := to])
  {
  }

  lemma SameLog(log: seq<nat>, phase: seq<Phase>, after: seq<Phase>)
    requires LogOk(log, phase) && |after| == |phase| && forall v :: 0 <= v < |phase| ==> (phase[v].Waiting? <==> after[v].Waiting?)
    ensures LogOk(log, after)
  {
  }

  lemma ClimbKeepsInv<T, R>(job: Job<T, R>, s: State<T, R>, phase: seq<Phase>, t: nat)
    requires Inv(job, s, phase) && AtNode(job, s, phase, t) && s.threads[t].Climbing?
    ensures Inv(job, Step(job, s, t), After(s, phase, t))
  {
    var now, after := Step(job, s, t), After(s, phase, t);
    var v := s.threads[t].node;
    Family(v);
    assert Parent(v) < |s.pubs| && Sibling(v) < |phase|;
    assert now.threads == s.threads[t := now.threads[t]] && phase[v].Held?;
    SameSlots(phase, v, Published(phase[v].slot));
    SameLog(s.log, phase, after);
    hide NodeOk, FamilyOk, ThreadOk, TreeValue, SlotsApart, LogOk, TasksOk;
    TasksUntouched(job, s, phase, now, after, t);
    forall u | 0 <= u < |s.threads| ensures ThreadOk(job, now, after, u) {
      ClimbThread(job, s, phase, t, u);
    }
    forall u | 0 <= u < |phase| ensures NodeOk(job, now, after, u) {
      ClimbNode(job, s, phase, t, u);
    }
    forall p | 0 <= p < |s.pubs| ensures FamilyOk(now, after, p) {
      ClimbFamily(job, s, phase, t, p);
    }
  }

  // Combining with the sibling's result.

  lemma CombineThread<T, R>(job: Job<T, R>, s: State<T, R>, phase: seq<Phase>, t: nat, u: nat)
    requires AtNode(job, s, phase, t) && s.threads[t].Combining? && u < |s.threads| && ThreadOk(job, s, phase, u)
    requires Parent(s.threads[t].node) < |s.pubs| && phase[Parent(s.threads[t].node)].Waiting?
    ensures Sizes(job, Step(job, s, t), After(s, phase, t)) && ThreadOk(job, Step(job, s, t), After(s, phase, t), u)
  {
    hide TreeValue;
    var now, after, pc := Step(job, s, t), After(s, phase, t), s.threads[t];
    Family(pc.node);
    assert after == phase[pc.node := Consumed][Sibling(pc.node) := Consumed][Parent(pc.node) := Held(t, pc.index)];
    assert now.threads == s.threads[t := Storing(pc.index, pc.node)] && now.next == s.next && now.tasks == s.tasks && now.pubs == s.pubs && |now.results| == |s.results|;
    hide Step, After;
    if u != t && s.threads[u].Combining? {
      Family(s.threads[u].node);
    }
  }

  /** The combination is the value of the parent. */
  lemma CombinedValue<T, R>(job: Job<T, R>, s: State<T, R>, phase: seq<Phase>, t: nat)
    requires AtNode(job, s, phase, t) && s.threads[t].Combining?
    requires NodeOk(job, s, phase, s.threads[t].node) && NodeOk(job, s, phase, Sibling(s.threads[t].node))
    ensures Step(job, s, t).results[s.threads[t].index] == Some(TreeValue(job, Parent(s.threads[t].node)))
  {
    Family(s.threads[t].node);
  }

  lemma CombineOther<T, R>(job: Job<T, R>, s: State<T, R>, phase: seq<Phase>, t: nat, u: nat)
    requires AtNode(job, s, phase, t) && s.threads[t].Combining? && u < |phase| && NodeOk(job, s, phase, u)
    requires u != s.threads[t].node && u != Sibling(s.threads[t].node) && u != Parent(s.threads[t].node)
    requires Live(phase[u]) ==> phase[u].slot != s.threads[t].index && phase[u].slot != s.threads[t].other
    ensures Sizes(job, Step(job, s, t), After(s, phase, t)) && NodeOk(job, Step(job, s, t), After(s, phase, t), u)
  {
    hide TreeValue;
    StillTaken(s, Step(job, s, t), t, u - |s.pubs|);
  }

  lemma CombineParent<T, R>(job: Job<T, R>, s: State<T, R>, phase: seq<Phase>, t: nat)
    requires AtNode(job, s, phase, t) && s.threads[t].Combining? && FamilyOk(s, phase, Parent(s.threads[t].node))
    requires NodeOk(job, s, phase, s.threads[t].node) && NodeOk(job, s, phase, Sibling(s.threads[t].node))
    ensures Sizes(job, Step(job, s, t), After(s, phase, t)) && NodeOk(job, Step(job, s, t), After(s, phase, t), Parent(s.threads[t].node))
  {
    CombinedValue(job, s, phase, t);
    hide TreeValue;
    Family(s.threads[t].node);
  }

  lemma CombineNode<T, R>(job: Job<T, R>, s: State<T, R>, phase: seq<Phase>, t: nat, u: nat)
    requires AtNode(job, s, phase, t) && s.threads[t].Combining? && u < |phase| && NodeOk(job, s, phase, u) && SlotsApart(phase)
    requires NodeOk(job, s, phase, s.threads[t].node) && NodeOk(job, s, phase, Sibling(s.threads[t].node))
    requires FamilyOk(s, phase, Parent(s.threads[t].node))
    ensures Sizes(job, Step(job, s, t), After(s, phase, t)) && NodeOk(job, Step(job, s, t), After(s, phase, t), u)
  {
    var v := s.threads[t].node;
    Family(v);
    CombineParent(job, s, phase, t);
    if u != v && u != Sibling(v) && u != Parent(v) {
      assert Live(phase[v]) && Live(phase[Sibling(v)]);
      CombineOther(job, s, phase, t, u);
    }
    hide TreeValue, FamilyOk;
  }

  lemma CombineFamily<T, R>(job: Job<T, R>, s: State<T, R>, phase: seq<Phase>, t: nat, p: nat)
    requires AtNode(job, s, phase, t) && s.threads[t].Combining? && p < |s.pubs| && FamilyOk(s, phase, p)
    requires FamilyOk(s, phase, Parent(s.threads[t].node))
    ensures FamilyOk(Step(job, s, t), After(s, phase, t), p)
  {
    var v := s.threads[t].node;
    Family(v);
    Family(Left(p));
    Family(Right(p));
  }

  lemma CombineRest<T, R>(job: Job<T, R>, s: State<T, R>, phase: seq<Phase>, t: nat)
    requires AtNode(job, s, phase, t) && s.threads[t].Combining? && SlotsApart(phase) && LogOk(s.log, phase)
    requires FamilyOk(s, phase, Parent(s.threads[t].node))
    ensures SlotsApart(After(s, phase, t)) && LogOk(Step(job, s, t).log, After(s, phase, t))
  {
    Family(s.threads[t].node);
  }

  lemma CombineKeepsInv<T, R>(job: Job<T, R>, s: State<T, R>, phase: seq<Phase>, t: nat)
    requires Inv(job, s, phase) && AtNode(job, s, phase, t) && s.threads[t].Combining?
    ensures Inv(job, Step(job, s, t), After(s, phase, t))
  {
    var now, after := Step(job, s, t), After(s, phase, t);
    var v := s.threads[t].node;
    Family(v);
    assert Parent(v) < |s.pubs| && Sibling(v) < |phase|;
    assert now.threads == s.threads[t := now.threads[t]] && !now.threads[t].Transforming?;
    assert forall u :: |s.pubs| <= u < |phase| && phase[u].Waiting? ==> after[u].Waiting?;
    assert phase[Parent(v)].Waiting? by {
      assert FamilyOk(s, phase, Parent(v));
    }
    hide NodeOk, FamilyOk, ThreadOk, TreeValue, SlotsApart, LogOk, TasksOk;
    CombineRest(job, s, phase, t);
    TasksUntouched(job, s, phase, now, after, t);
    forall u | 0 <= u < |s.threads| ensures ThreadOk(job, now, after, u) {
      CombineThread(job, s, phase, t, u);
    }
    forall u | 0 <= u < |phase| ensures NodeOk(job, now, after, u) {
      CombineNode(job, s, phase, t, u);
    }
    forall p | 0 <= p < |s.pubs| ensures FamilyOk(now, after, p) {
      CombineFamily(job, s, phase, t, p);
    }
  }

  // Recording where the parent's value is.

  lemma StoreThread<T, R>(job: Job<T, R>, s: State<T, R>, phase: seq<Phase>, t: nat, u: nat)
    requires AtNode(job, s, phase, t) && s.threads[t].Storing? && u < |s.threads| && ThreadOk(job, s, phase, u)
    ensures Sizes(job, Step(job, s, t), After(s, phase, t)) && ThreadOk(job, Step(job, s, t), After(s, phase, t), u)
  {
    hide TreeValue;
    Family(s.threads[t].node);
  }

  /** The place written does not point to any published result. */
  lemma StoredElsewhere<T, R>(job: Job<T, R>, s: State<T, R>, phase: seq<Phase>, t: nat, u: nat)
    requires AtNode(job, s, phase, t) && s.threads[t].Storing? && u < |phase| && phase[u].Published?
    requires FamilyOk(s, phase, Parent(s.threads[t].node))
    ensures Parent(u) != Parent(s.threads[t].node)
  {
    Family(s.threads[t].node);
    if u > 0 {
      Family(u);
    }
  }

  lemma StoreNode<T, R>(job: Job<T, R>, s: State<T, R>, phase: seq<Phase>, t: nat, u: nat)
    requires AtNode(job, s, phase, t) && s.threads[t].Storing? && u < |phase| && NodeOk(job, s, phase, u)
    requires FamilyOk(s, phase, Parent(s.threads[t].node)) && NodeOk(job, s, phase, Parent(s.threads[t].node))
    ensures Sizes(job, Step(job, s, t), After(s, phase, t)) && NodeOk(job, Step(job, s, t), After(s, phase, t), u)
  {
    hide TreeValue, FamilyOk;
    StillTaken(s, Step(job, s, t), t, u - |s.pubs|);
    if phase[u].Published? {
      StoredElsewhere(job, s, phase, t, u);
    }
  }

  lemma StoreFamily<T, R>(job: Job<T, R>, s: State<T, R>, phase: seq<Phase>, t: nat, p: nat)
    requires AtNode(job, s, phase, t) && s.threads[t].Storing? && p < |s.pubs| && FamilyOk(s, phase, p)
    ensures FamilyOk(Step(job, s, t), After(s, phase, t), p)
  {
    SameFamily(s, Step(job, s, t), phase, After(s, phase, t), p);
  }

  lemma StoreKeepsInv<T, R>(job: Job<T, R>, s: State<T, R>, phase: seq<Phase>, t: nat)
    requires Inv(job, s, phase) && AtNode(job, s, phase, t) && s.threads[t].Storing?
    ensures Inv(job, Step(job, s, t), After(s, phase, t))
  {
    var now, after := Step(job, s, t), After(s, phase, t);
    var p := Parent(s.threads[t].node);
    Family(s.threads[t].node);
    assert phase[p].Held? && p < |s.pubs|;
    SameSlots(phase, p, Published(phase[p].slot));
    SameLog(s.log, phase, after);
    assert now.threads == s.threads[t := now.threads[t]] && !now.threads[t].Transforming?;
    hide NodeOk, FamilyOk, ThreadOk, TreeValue, SlotsApart, LogOk, TasksOk;
    TasksUntouched(job, s, phase, now, after, t);
    forall u | 0 <= u < |s.threads| ensures ThreadOk(job, now, after, u) {
      StoreThread(job, s, phase, t, u);
    }
    forall u | 0 <= u < |phase| ensures NodeOk(job, now, after, u) {
      StoreNode(job, s, phase, t, u);
    }
    forall q | 0 <= q < |s.pubs| ensures FamilyOk(now, after, q) {
      StoreFamily(job, s, phase, t, q);
    }
  }

  lemma StepKeepsInv<T, R>(job: Job<T, R>, s: State<T, R>, phase: seq<Phase>, t: nat)
    requires Inv(job, s, phase) && Safe(s, t)
    ensures ThreadOk(job, s, phase, t) && Inv(job, Step(job, s, t), After(s, phase, t))
  {
    assert ThreadOk(job, s, phase, t);
    match s.threads[t]
    case Fetching => FetchKeepsInv(job, s, phase, t);
    case Transforming(_) => TransformKeepsInv(job, s, phase, t);
    case Climbing(_, _) => ClimbKeepsInv(job, s, phase, t);
    case Combining(_, _, _) => CombineKeepsInv(job, s, phase, t);
    case Storing(_, _) => StoreKeepsInv(job, s, phase, t);
    case Done =>
  }
}
