/** Handing out tasks. */
module Scheduler {
  // Each task is a first half that leaves files behind; second halves, one at a time, gather the files that
  // have piled up.

  import opened SeqFacts

  /** Whether there are second halves, and when one is worth starting early. */
  datatype Config = Config(halves: bool, minTasks: nat, minBytes: nat)

  datatype Work = NoWork | FirstHalf(task: nat) | SecondHalf(files: seq<nat>)

  /** `tasks` are those not handed out, the next one last; `pending` the files no second half has been given. */
  datatype Books = Books(total: nat, tasks: seq<nat>, dispatched: nat, completed: nat, secondRunning: bool, pending: seq<nat>, pendingBytes: nat)

  /** The numbers from `from` up to `total`, the smallest last. */
  function Descending(from: nat, total: nat): (r: seq<nat>)
    requires from <= total
    ensures |r| == total - from
    decreases total - from
  {
    if from == total then [] else Descending(from + 1, total) + [from]
  }

  lemma DescendingLast(from: nat, total: nat)
    requires from < total
    ensures var r := Descending(from, total); r[|r| - 1] == from && r[..|r| - 1] == Descending(from + 1, total)
  {
  }

  function Open(total: nat): Books {
    Books(total, Descending(0, total), 0, 0, false, [], 0)
  }

  /** A second half is due: none is running, there are files, and either enough of them or no more to come. */
  predicate SecondDue(c: Config, b: Books) {
    && !b.secondRunning && b.pending != []
    && (b.completed == b.total || (|b.pending| >= c.minTasks && b.pendingBytes >= c.minBytes))
  }

  /** The next piece of work. */
  function NextWork(c: Config, b: Books): (Books, Work) {
    if SecondDue(c, b) then (b.(secondRunning := true, pending := [], pendingBytes := 0), SecondHalf(b.pending))
    else if b.tasks != [] then (b.(tasks := b.tasks[..|b.tasks| - 1], dispatched := b.dispatched + 1), FirstHalf(b.tasks[|b.tasks| - 1]))
    else (b, NoWork)
  }

  /** A piece of work has come back; a first half says which files it left. */
  function Completed(c: Config, b: Books, work: Work, files: seq<nat>, bytes: nat): Books
    requires work != NoWork
  {
    match work
    case FirstHalf(_) =>
      if c.halves then b.(completed := b.completed + 1, pending := b.pending + files, pendingBytes := b.pendingBytes + bytes)
      else b.(completed := b.completed + 1)
    case SecondHalf(_) => b.(secondRunning := false)
  }

  /** The time so far per task, for the tasks still to come. */
  function Eta(elapsed: nat, completed: nat, total: nat): nat
    requires 0 < completed <= total
  {
    elapsed / completed * (total - completed)
  }

  /** The estimate: whole time units per task, rounded down, for each task that is left. */
  lemma EtaRounds(elapsed: nat, completed: nat, total: nat)
    requires 0 < completed <= total
    ensures exists each: nat :: each * completed <= elapsed < (each + 1) * completed && Eta(elapsed, completed, total) == each * (total - completed)
    ensures Eta(elapsed, completed, total) == 0 <==> completed == total || elapsed < completed
    ensures Eta(elapsed, completed, total) * completed <= elapsed * (total - completed)
  {
    var each: nat, left: nat := elapsed / completed, total - completed;
    assert elapsed == each * completed + elapsed % completed;
    assert (each + 1) * completed == each * completed + completed;
    EtaIsZero(each, completed, left, elapsed);
    assert each * left * completed == each * completed * left <= elapsed * left;
  }

  lemma EtaIsZero(each: nat, completed: nat, left: nat, elapsed: nat)
    requires completed > 0 && each * completed <= elapsed < (each + 1) * completed
    ensures each * left == 0 <==> left == 0 || elapsed < completed
  {
    if each > 0 {
      assert each * completed >= completed;
      assert left > 0 ==> each * left > 0;
    }
  }

  /** The counters and lists, as the two callbacks change them. */
  class Operation {
    const config: Config
    const total: nat
    var tasks: seq<nat>
    var dispatched: nat
    var completed: nat
    var secondRunning: bool
    var pending: seq<nat>
    var pendingBytes: nat

    constructor (c: Config, n: nat)
      ensures config == c && View() == Open(n)
    {
      config, total := c, n;
      tasks, dispatched, completed, secondRunning, pending, pendingBytes := Descending(0, n), 0, 0, false, [], 0;
    }

    ghost function View(): Books
      reads this
    {
      Books(total, tasks, dispatched, completed, secondRunning, pending, pendingBytes)
    }

    /** Called when a worker is free. */
    method Next() returns (work: Work)
      modifies this
      ensures (View(), work) == NextWork(config, old(View()))
    {
      if !secondRunning && pending != [] && (completed == total || (|pending| >= config.minTasks && pendingBytes >= config.minBytes)) {
        secondRunning := true;
        work := SecondHalf(pending);
        pending, pendingBytes := [], 0;
      } else if tasks != [] {
        work := FirstHalf(tasks[|tasks| - 1]);
        tasks := tasks[..|tasks| - 1];
        dispatched := dispatched + 1;
      } else {
        work := NoWork;
      }
    }

    /** Called when a worker has answered; also estimates how long the rest will take. */
    method Process(work: Work, files: seq<nat>, bytes: nat, elapsed: nat) returns (eta: nat)
      requires work != NoWork && (work.FirstHalf? || completed > 0) && completed <= total
      requires work.FirstHalf? ==> completed < total
      modifies this
      ensures View() == Completed(config, old(View()), work, files, bytes)
      ensures 0 < completed <= total && eta == Eta(elapsed, completed, total)
    {
      if work.FirstHalf? {
        completed := completed + 1;
      }
      eta := Eta(elapsed, completed, total);
      if work.FirstHalf? && config.halves {
        pending, pendingBytes := pending + files, pendingBytes + bytes;
      } else if work.SecondHalf? {
        secondRunning := false;
      }
    }
  }

  // ---- The whole operation.

  /** What a first half left: its files and their size. */
  datatype Answer = Answer(files: seq<nat>, bytes: nat)

  /** What a second half was given: the files, the answers since the one before, and how many tasks were completed then. */
  datatype Batch = Batch(files: seq<nat>, answers: seq<Answer>, completed: nat)

  /** What each worker is doing, and history: the tasks handed out, the files left by first halves, those given to second
      halves; the answers since the last second half, and what the second halves were given. */
  datatype System = System(books: Books, workers: seq<Work>, log: seq<nat>, produced: multiset<nat>, given: multiset<nat>,
                           left: seq<Answer>, batches: seq<Batch>)

  ghost function FilesOf(answers: seq<Answer>): seq<nat> {
    if answers == [] then [] else FilesOf(answers[..|answers| - 1]) + answers[|answers| - 1].files
  }

  ghost function BytesOf(answers: seq<Answer>): nat {
    if answers == [] then 0 else BytesOf(answers[..|answers| - 1]) + answers[|answers| - 1].bytes
  }

  lemma OneMoreAnswer(answers: seq<Answer>, answer: Answer)
    ensures FilesOf(answers + [answer]) == FilesOf(answers) + answer.files && BytesOf(answers + [answer]) == BytesOf(answers) + answer.bytes
  {
    assert (answers + [answer])[..|answers|] == answers;
  }

  /** Gives the next piece of work to worker `w`. */
  ghost function Give(c: Config, s: System, w: nat): System
    requires w < |s.workers|
  {
    var (b, work) := NextWork(c, s.books);
    System(b, s.workers[w := work], if work.FirstHalf? then s.log + [work.task] else s.log, s.produced,
           if work.SecondHalf? then s.given + multiset(work.files) else s.given,
           if work.SecondHalf? then [] else s.left,
           if work.SecondHalf? then s.batches + [Batch(work.files, s.left, s.books.completed)] else s.batches)
  }

  /** Worker `w` has answered and has nothing to do yet. */
  ghost function Answered(c: Config, s: System, w: nat, files: seq<nat>, bytes: nat): System
    requires w < |s.workers| && s.workers[w] != NoWork
  {
    var first := s.workers[w].FirstHalf? && c.halves;
    s.(books := Completed(c, s.books, s.workers[w], files, bytes), workers := s.workers[w := NoWork],
       produced := if first then s.produced + multiset(files) else s.produced,
       left := if first then s.left + [Answer(files, bytes)] else s.left)
  }

  /** Worker `w` finishes and gets its next piece of work. */
  ghost function Finish(c: Config, s: System, w: nat, files: seq<nat>, bytes: nat): System
    requires w < |s.workers| && s.workers[w] != NoWork
  {
    Give(c, Answered(c, s, w, files, bytes), w)
  }

  /** The first round: workers get work one after the other until there is none. */
  ghost function Launch(c: Config, s: System, w: nat): System
    requires w <= |s.workers|
    decreases |s.workers| - w
  {
    if w == |s.workers| then s
    else
      var after := Give(c, s, w);
      if after.workers[w] == NoWork then after else Launch(c, after, w + 1)
  }

  /** Nobody has been given anything. */
  ghost function Idle(total: nat, workers: nat): System {
    System(Open(total), seq(workers, _ => NoWork), [], multiset{}, multiset{}, [], [])
  }

  ghost function Start(c: Config, total: nat, workers: nat): System {
    Launch(c, Idle(total, workers), 0)
  }

  // ---- Counting busy workers.

  function FirstHalves(workers: seq<Work>): nat {
    if workers == [] then 0 else (if workers[0].FirstHalf? then 1 else 0) + FirstHalves(workers[1..])
  }

  function SecondHalves(workers: seq<Work>): nat {
    if workers == [] then 0 else (if workers[0].SecondHalf? then 1 else 0) + SecondHalves(workers[1..])
  }

  lemma {:induction false} CountsChange(workers: seq<Work>, w: nat, work: Work)
    requires w < |workers|
    ensures FirstHalves(workers[w := work]) + (if workers[w].FirstHalf? then 1 else 0) == FirstHalves(workers) + if work.FirstHalf? then 1 else 0
    ensures SecondHalves(workers[w := work]) + (if workers[w].SecondHalf? then 1 else 0) == SecondHalves(workers) + if work.SecondHalf? then 1 else 0
  {
    var after := workers[w := work];
    if w == 0 {
      assert after[1..] == workers[1..];
    } else {
      assert after[1..] == workers[1..][w - 1 := work];
      CountsChange(workers[1..], w - 1, work);
    }
  }

  lemma {:induction false} CountsPositive(workers: seq<Work>, w: nat)
    requires w < |workers|
    ensures workers[w].FirstHalf? ==> FirstHalves(workers) > 0
    ensures workers[w].SecondHalf? ==> SecondHalves(workers) > 0
  {
    if w > 0 {
      CountsPositive(workers[1..], w - 1);
    }
  }

  lemma {:induction false} SomeBusy(workers: seq<Work>)
    requires FirstHalves(workers) + SecondHalves(workers) > 0
    ensures exists w :: 0 <= w < |workers| && workers[w] != NoWork
  {
    if workers[0] != NoWork {
    } else {
      SomeBusy(workers[1..]);
      var w :| 0 <= w < |workers[1..]| && workers[1..][w] != NoWork;
      assert workers[w + 1] != NoWork;
    }
  }

  lemma {:induction false} SomeSecond(workers: seq<Work>)
    requires SecondHalves(workers) > 0
    ensures exists w :: 0 <= w < |workers| && workers[w].SecondHalf?
  {
    if !workers[0].SecondHalf? {
      SomeSecond(workers[1..]);
      var w :| 0 <= w < |workers[1..]| && workers[1..][w].SecondHalf?;
      assert workers[w + 1].SecondHalf?;
    }
  }

  lemma {:induction false} NoneBusy(n: nat)
    ensures FirstHalves(seq(n, _ => NoWork)) == 0 && SecondHalves(seq(n, _ => NoWork)) == 0
  {
    if n > 0 {
      assert seq(n, _ => NoWork)[1..] == seq(n - 1, _ => NoWork);
      NoneBusy(n - 1);
    }
  }

  // ---- What every event keeps.

  ghost predicate BooksOk(c: Config, b: Books) {
    && b.completed <= b.dispatched <= b.total && b.tasks == Descending(b.dispatched, b.total)
    && (b.pending != [] || b.secondRunning ==> b.completed > 0 && c.halves)
  }

  /** The first `n` tasks, in order. */
  function InOrder(n: nat): seq<nat> {
    seq(n, i => i)
  }

  lemma OneMoreInOrder(n: nat)
    ensures InOrder(n + 1) == InOrder(n) + [n]
  {
  }

  /** The workers are on what the books say. */
  ghost predicate Counted(workers: seq<Work>, b: Books) {
    && FirstHalves(workers) == b.dispatched - b.completed
    && SecondHalves(workers) == (if b.secondRunning then 1 else 0)
  }

  /** Every file that was left is pending or was given to a second half. */
  ghost predicate Balanced(s: System) {
    s.produced == multiset(s.books.pending) + s.given
  }

  ghost predicate Inv(c: Config, s: System) {
    && BooksOk(c, s.books)
    && Counted(s.workers, s.books)
    && s.log == InOrder(s.books.dispatched)
    && TasksApart(s.workers, s.books.dispatched)
    && Balanced(s)
    && BatchesOk(c, s)
  }

  /** Pending is what has been left; while tasks are still out, second halves were given enough files and bytes. */
  ghost predicate BatchesOk(c: Config, s: System) {
    && s.books.pending == FilesOf(s.left) && s.books.pendingBytes == BytesOf(s.left)
    && forall b :: b in s.batches ==> BatchOk(c, s.books.total, b)
  }

  ghost predicate BatchOk(c: Config, total: nat, b: Batch) {
    && b.files == FilesOf(b.answers) != [] && b.completed <= total
    && (b.completed < total ==> |b.files| >= c.minTasks && BytesOf(b.answers) >= c.minBytes)
  }

  /** No second half is due: one is running, nothing is pending, or there are tasks still out and not enough is pending. */
  ghost predicate NothingDue(c: Config, b: Books) {
    !b.secondRunning && b.pending != [] ==> b.completed < b.total && (|b.pending| < c.minTasks || b.pendingBytes < c.minBytes)
  }

  /** If one of the first `k` workers, `except` apart, is idle, there is no task left to hand out. */
  ghost predicate IdleOk(s: System, k: nat, except: int) {
    forall w :: 0 <= w < k && w < |s.workers| && w != except && s.workers[w] == NoWork ==> s.books.dispatched == s.books.total
  }

  /** Work is under way, or there is none left. */
  ghost predicate Live(s: System) {
    FirstHalves(s.workers) + SecondHalves(s.workers) > 0 || (s.books.tasks == [] && s.books.pending == [])
  }

  lemma NextKeepsBooks(c: Config, b: Books)
    requires BooksOk(c, b)
    ensures var (after, work) := NextWork(c, b);
            && BooksOk(c, after)
            && (work.FirstHalf? ==> work.task == b.dispatched && after == b.(tasks := after.tasks, dispatched := b.dispatched + 1))
            && (work.SecondHalf? ==> !b.secondRunning && work.files == b.pending && after == b.(secondRunning := true, pending := [], pendingBytes := 0))
            && (work == NoWork ==> after == b && b.dispatched == b.total && (b.pending == [] || b.secondRunning || b.completed < b.total))
            && NothingDue(c, after)
            && (work.SecondHalf? ==> work.files != [] && (b.completed < b.total ==> |work.files| >= c.minTasks && b.pendingBytes >= c.minBytes))
            && (work.FirstHalf? ==> after.pending == b.pending && after.pendingBytes == b.pendingBytes)
  {
    if b.dispatched < b.total {
      DescendingLast(b.dispatched, b.total);
    }
  }

  lemma GiveKeepsInv(c: Config, s: System, w: nat)
    requires Inv(c, s) && w < |s.workers| && s.workers[w] == NoWork
    ensures Inv(c, Give(c, s, w)) && Live(Give(c, s, w)) && NothingDue(c, Give(c, s, w).books)
  {
    NextKeepsBooks(c, s.books);
    GiveKeepsBatches(c, s, w);
    var (b, work) := NextWork(c, s.books);
    var t := Give(c, s, w);
    assert t.workers == s.workers[w := work] && t.books == b && t.produced == s.produced;
    assert t.log == if work.FirstHalf? then s.log + [work.task] else s.log;
    assert t.given == if work.SecondHalf? then s.given + multiset(work.files) else s.given;
    hide *;
    GivenKeepsInv(c, s, t, w, work);
  }

  /** Inferred from what has changed. */
  lemma GivenKeepsInv(c: Config, s: System, t: System, w: nat, work: Work)
    requires Inv(c, s) && w < |s.workers| && s.workers[w] == NoWork && t.workers == s.workers[w := work] && t.produced == s.produced
    requires BooksOk(c, t.books) && BatchesOk(c, t) && NothingDue(c, t.books) && t.books.total == s.books.total && t.books.completed == s.books.completed
    requires t.log == if work.FirstHalf? then s.log + [work.task] else s.log
    requires t.given == if work.SecondHalf? then s.given + multiset(work.files) else s.given
    requires work.FirstHalf? ==> work.task == s.books.dispatched && t.books == s.books.(tasks := t.books.tasks, dispatched := s.books.dispatched + 1)
    requires work.SecondHalf? ==> !s.books.secondRunning && work.files == s.books.pending && t.books == s.books.(secondRunning := true, pending := [], pendingBytes := 0)
    requires work == NoWork ==> t.books == s.books && s.books.dispatched == s.books.total && (s.books.pending == [] || s.books.secondRunning || s.books.completed < s.books.total)
    ensures Inv(c, t) && Live(t)
  {
    GivenCounts(c, s, t, w, work);
    GivenBalance(s, t, work);
    OneMoreTask(s.workers, w, work, s.books.dispatched);
    OneMoreInOrder(s.books.dispatched);
    assert t.books.dispatched == if work.FirstHalf? then s.books.dispatched + 1 else s.books.dispatched;
    hide BooksOk, BatchesOk, NothingDue, TasksApart, Counted, Live, InOrder, Balanced;
  }

  lemma GivenBalance(s: System, t: System, work: Work)
    requires Balanced(s) && t.produced == s.produced
    requires if work.SecondHalf? then t.given == s.given + multiset(work.files) && work.files == s.books.pending && t.books.pending == [] else t.given == s.given && t.books.pending == s.books.pending
    ensures Balanced(t)
  {
  }

  lemma GivenCounts(c: Config, s: System, t: System, w: nat, work: Work)
    requires Inv(c, s) && w < |s.workers| && s.workers[w] == NoWork && t.workers == s.workers[w := work] && t.books.completed == s.books.completed
    requires work.FirstHalf? ==> t.books == s.books.(tasks := t.books.tasks, dispatched := s.books.dispatched + 1)
    requires work.SecondHalf? ==> !s.books.secondRunning && t.books == s.books.(secondRunning := true, pending := [], pendingBytes := 0)
    requires work == NoWork ==> t.books == s.books && s.books.dispatched == s.books.total && (s.books.pending == [] || s.books.secondRunning || s.books.completed < s.books.total)
    ensures Counted(t.workers, t.books) && Live(t)
  {
    CountsChange(s.workers, w, work);
    assert work == NoWork ==> s.books.tasks == [];
    hide BatchesOk, TasksApart, FirstHalves, SecondHalves;
  }

  lemma GiveKeepsIdle(c: Config, s: System, w: nat, k: nat)
    requires BooksOk(c, s.books) && w < |s.workers| && w < k && IdleOk(s, k, w)
    ensures IdleOk(Give(c, s, w), k, -1)
  {
    NextKeepsBooks(c, s.books);
    hide BooksOk, NextWork, NothingDue;
  }

  lemma GiveKeepsBatches(c: Config, s: System, w: nat)
    requires BooksOk(c, s.books) && BatchesOk(c, s) && w < |s.workers|
    ensures BatchesOk(c, Give(c, s, w))
  {
    NextKeepsBooks(c, s.books);
    hide BooksOk, NextWork, NothingDue;
  }

  ghost predicate TasksApart(workers: seq<Work>, dispatched: nat) {
    && (forall w :: 0 <= w < |workers| && workers[w].FirstHalf? ==> workers[w].task < dispatched)
    && (forall v, w :: 0 <= v < w < |workers| && workers[v].FirstHalf? ==> workers[v] != workers[w])
  }

  lemma OneMoreTask(workers: seq<Work>, w: nat, work: Work, dispatched: nat)
    requires TasksApart(workers, dispatched) && w < |workers| && (work.FirstHalf? ==> work.task == dispatched)
    ensures TasksApart(workers[w := work], if work.FirstHalf? then dispatched + 1 else dispatched)
  {
  }

  lemma FinishKeepsInv(c: Config, s: System, w: nat, files: seq<nat>, bytes: nat)
    requires Inv(c, s) && w < |s.workers| && s.workers[w] != NoWork
    ensures Inv(c, Finish(c, s, w, files, bytes)) && Live(Finish(c, s, w, files, bytes)) && NothingDue(c, Finish(c, s, w, files, bytes).books)
    ensures IdleOk(s, |s.workers|, -1) ==> IdleOk(Finish(c, s, w, files, bytes), |s.workers|, -1)
    ensures s.workers[w].FirstHalf? ==> s.books.completed < s.books.total
    ensures s.workers[w].SecondHalf? ==> s.books.completed > 0
  {
    AnsweredKeepsInv(c, s, w, files, bytes);
    var mid := Answered(c, s, w, files, bytes);
    assert mid.workers == s.workers[w := NoWork] && mid.books.dispatched == s.books.dispatched && mid.books.total == s.books.total;
    CountsPositive(s.workers, w);
    GiveKeepsInv(c, mid, w);
    if IdleOk(s, |s.workers|, -1) {
      GiveKeepsIdle(c, mid, w, |s.workers|);
    }
    assert BooksOk(c, s.books);
    hide FilesOf, BytesOf, BatchOk, BatchesOk, Live, Give, Answered, NothingDue, TasksApart;
  }

  lemma AnsweredKeepsInv(c: Config, s: System, w: nat, files: seq<nat>, bytes: nat)
    requires Inv(c, s) && w < |s.workers| && s.workers[w] != NoWork
    ensures Inv(c, Answered(c, s, w, files, bytes))
  {
    AnsweredKeepsBooks(c, s, w, files, bytes);
    AnsweredKeepsBatches(c, s, w, files, bytes);
    OneMoreTask(s.workers, w, NoWork, s.books.dispatched);
    assert multiset(s.books.pending + files) == multiset(s.books.pending) + multiset(files);
    hide FilesOf, BytesOf, BatchOk, BatchesOk, BooksOk, TasksApart, FirstHalves, SecondHalves;
  }

  lemma AnsweredKeepsBooks(c: Config, s: System, w: nat, files: seq<nat>, bytes: nat)
    requires Inv(c, s) && w < |s.workers| && s.workers[w] != NoWork
    ensures var t := Answered(c, s, w, files, bytes);
            && BooksOk(c, t.books) && t.books.dispatched == s.books.dispatched
            && Counted(t.workers, t.books)
  {
    hide BatchesOk, TasksApart;
    CountsChange(s.workers, w, NoWork);
    CountsPositive(s.workers, w);
    hide FirstHalves, SecondHalves;
  }

  lemma AnsweredKeepsBatches(c: Config, s: System, w: nat, files: seq<nat>, bytes: nat)
    requires BatchesOk(c, s) && w < |s.workers| && s.workers[w] != NoWork
    ensures BatchesOk(c, Answered(c, s, w, files, bytes))
  {
    OneMoreAnswer(s.left, Answer(files, bytes));
    hide FilesOf, BytesOf, BatchOk;
  }

  lemma GiveTouchesOne(c: Config, s: System, w: nat)
    requires w < |s.workers|
    ensures var t := Give(c, s, w);
            |t.workers| == |s.workers| && t.books.total == s.books.total && forall v :: w < v < |s.workers| ==> t.workers[v] == s.workers[v]
  {
  }

  lemma {:induction false} LaunchKeepsInv(c: Config, s: System, w: nat)
    requires Inv(c, s) && w <= |s.workers| && (forall v :: w <= v < |s.workers| ==> s.workers[v] == NoWork) && (w > 0 ==> Live(s)) && IdleOk(s, w, -1) && NothingDue(c, s.books)
    ensures Inv(c, Launch(c, s, w)) && |Launch(c, s, w).workers| == |s.workers| && (|s.workers| > 0 ==> Live(Launch(c, s, w)))
    ensures IdleOk(Launch(c, s, w), |s.workers|, -1) && NothingDue(c, Launch(c, s, w).books)
    ensures Launch(c, s, w).books.total == s.books.total
    decreases |s.workers| - w
  {
    if w < |s.workers| {
      assert IdleOk(s, w + 1, w);
      GiveKeepsInv(c, s, w);
      GiveTouchesOne(c, s, w);
      GiveKeepsIdle(c, s, w, w + 1);
      hide Inv, Live, Give, NothingDue;
      var after := Give(c, s, w);
      if after.workers[w] == NoWork {
        IdleForAll(after, w);
      } else {
        hide IdleOk;
        LaunchKeepsInv(c, after, w + 1);
      }
    }
  }

  lemma IdleForAll(s: System, w: nat)
    requires IdleOk(s, w + 1, -1) && w < |s.workers| && s.workers[w] == NoWork
    ensures IdleOk(s, |s.workers|, -1)
  {
    assert s.books.dispatched == s.books.total;
  }

  // ---- Every order of events.

  /** Worker `worker` finishes; if it did a first half it left these files. */
  datatype Event = Event(worker: nat, files: seq<nat>, bytes: nat)

  ghost predicate Run(c: Config, s: System, events: seq<Event>, end: System)
    decreases |events|
  {
    if events == [] then s == end
    else
      && events[0].worker < |s.workers| && s.workers[events[0].worker] != NoWork
      && Run(c, Finish(c, s, events[0].worker, events[0].files, events[0].bytes), events[1..], end)
  }

  lemma {:induction false} RunKeepsInv(c: Config, s: System, events: seq<Event>, end: System)
    requires Inv(c, s) && Live(s) && NothingDue(c, s.books) && IdleOk(s, |s.workers|, -1) && Run(c, s, events, end)
    ensures NothingDue(c, end.books) && IdleOk(end, |end.workers|, -1)
    ensures Inv(c, end) && Live(end) && |end.workers| == |s.workers| && end.books.total == s.books.total
    decreases |events|
  {
    if events != [] {
      var e := events[0];
      FinishKeepsInv(c, s, e.worker, e.files, e.bytes);
      RunKeepsInv(c, Finish(c, s, e.worker, e.files, e.bytes), events[1..], end);
    }
  }

  /** An upper bound on the answers still to come. */
  ghost function Remaining(b: Books): int {
    2 * (b.total - b.completed) + (if b.pending != [] then 1 else 0) + if b.secondRunning then 1 else 0
  }

  lemma GiveKeepsRemaining(c: Config, s: System, w: nat)
    requires w < |s.workers|
    ensures Remaining(Give(c, s, w).books) == Remaining(s.books)
  {
  }

  lemma FinishDecreases(c: Config, s: System, w: nat, files: seq<nat>, bytes: nat)
    requires Inv(c, s) && w < |s.workers| && s.workers[w] != NoWork
    ensures Remaining(Finish(c, s, w, files, bytes).books) < Remaining(s.books)
  {
    CountsPositive(s.workers, w);
    GiveKeepsRemaining(c, Answered(c, s, w, files, bytes), w);
  }

  lemma {:induction false} LaunchKeepsRemaining(c: Config, s: System, w: nat)
    requires w <= |s.workers|
    ensures Remaining(Launch(c, s, w).books) == Remaining(s.books)
    decreases |s.workers| - w
  {
    if w < |s.workers| {
      GiveKeepsRemaining(c, s, w);
      var after := Give(c, s, w);
      hide Give;
      if after.workers[w] != NoWork {
        LaunchKeepsRemaining(c, after, w + 1);
      }
    }
  }

  lemma {:induction false} RunIsBounded(c: Config, s: System, events: seq<Event>, end: System)
    requires Inv(c, s) && Run(c, s, events, end)
    ensures |events| + Remaining(end.books) <= Remaining(s.books)
    decreases |events|
  {
    if events != [] {
      var e := events[0];
      FinishKeepsInv(c, s, e.worker, e.files, e.bytes);
      FinishDecreases(c, s, e.worker, e.files, e.bytes);
      hide Inv, Finish;
      RunIsBounded(c, Finish(c, s, e.worker, e.files, e.bytes), events[1..], end);
    }
  }

  /** At most one worker is on a second half. */
  ghost predicate OneSecondHalf(workers: seq<Work>) {
    forall v, w :: 0 <= v < w < |workers| && workers[v].SecondHalf? ==> !workers[w].SecondHalf?
  }

  lemma {:induction false} CountIsAtMostOne(workers: seq<Work>)
    requires SecondHalves(workers) <= 1
    ensures OneSecondHalf(workers)
  {
    if workers != [] {
      CountIsAtMostOne(workers[1..]);
      forall v, w | 0 <= v < w < |workers| && workers[v].SecondHalf? ensures !workers[w].SecondHalf? {
        if v == 0 {
          if workers[w].SecondHalf? {
            CountsPositive(workers[1..], w - 1);
          }
        } else {
          assert workers[1..][v - 1] == workers[v] && workers[1..][w - 1] == workers[w];
        }
      }
    }
  }

  lemma StartIsSound(c: Config, total: nat, workers: nat)
    requires workers > 0
    ensures var s := Start(c, total, workers); Inv(c, s) && Live(s) && NothingDue(c, s.books) && IdleOk(s, workers, -1) && |s.workers| == workers && s.books.total == total
  {
    NoneBusy(workers);
    LaunchKeepsInv(c, Idle(total, workers), 0);
  }

  /**
   Whatever order the workers finish in: tasks are handed out once each, in order; no task is with two
   workers; nobody is idle while there is a task to hand out; one second half at most is running; every file
   left so far is pending or was given to exactly one second half; if none is running and files are pending,
   tasks are still out and there are too few files or too few bytes; a second half that was started while tasks
   were out had enough of both; whoever finishes, the estimate does not divide by zero; when all are idle
   everything was done and nothing is pending; and there are at most two answers for each task.
   */
  lemma {:induction false} EveryOrderIsSound(c: Config, total: nat, workers: nat, events: seq<Event>, end: System)
    requires workers > 0 && Run(c, Start(c, total, workers), events, end)
    ensures end.log == InOrder(end.books.dispatched) && end.books.dispatched <= total
    ensures forall v, w :: 0 <= v < w < |end.workers| && end.workers[v].FirstHalf? ==> end.workers[v] != end.workers[w]
    ensures OneSecondHalf(end.workers)
    ensures end.produced == multiset(end.books.pending) + end.given
    ensures forall w :: 0 <= w < |end.workers| && end.workers[w].SecondHalf? ==> end.books.completed > 0
    ensures (exists w :: 0 <= w < |end.workers| && end.workers[w] == NoWork) ==> end.books.dispatched == total
    ensures !(exists w :: 0 <= w < |end.workers| && end.workers[w].SecondHalf?) && end.books.pending != [] ==>
              end.books.completed < total && (|end.books.pending| < c.minTasks || end.books.pendingBytes < c.minBytes)
    ensures end.books.pending == FilesOf(end.left) && end.books.pendingBytes == BytesOf(end.left)
    ensures forall b :: b in end.batches ==> b.files == FilesOf(b.answers) != []
    ensures forall b :: b in end.batches && b.completed < total ==> |b.files| >= c.minTasks && BytesOf(b.answers) >= c.minBytes
    ensures (forall w :: 0 <= w < |end.workers| ==> end.workers[w] == NoWork) ==>
              end.books.completed == total && end.books.pending == [] && end.given == end.produced
    ensures |events| <= 2 * total
  {
    StartIsSound(c, total, workers);
    RunKeepsInv(c, Start(c, total, workers), events, end);
    LaunchKeepsRemaining(c, Idle(total, workers), 0);
    RunIsBounded(c, Start(c, total, workers), events, end);
    hide Start, Run;
    CountIsAtMostOne(end.workers);
    if SecondHalves(end.workers) > 0 {
      SomeSecond(end.workers);
    }
    forall b | b in end.batches && b.completed < total ensures |b.files| >= c.minTasks && BytesOf(b.answers) >= c.minBytes {
      assert BatchOk(c, end.books.total, b);
    }
    forall w | 0 <= w < |end.workers| && end.workers[w].SecondHalf? ensures end.books.completed > 0 {
      CountsPositive(end.workers, w);
    }
    if forall w :: 0 <= w < |end.workers| ==> end.workers[w] == NoWork {
      if FirstHalves(end.workers) + SecondHalves(end.workers) > 0 {
        SomeBusy(end.workers);
        assert false;
      }
    }
  }
}
