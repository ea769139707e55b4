/** What a reduction returns. */
module TreeFold {
  // The fixed tree folds the tasks in order, but starting in the middle and wrapping round.

  import opened Arithmetic
  import opened Options
  import opened TransformReduce
  import opened ReductionRuns

  ghost predicate Associative<R(!new)>(op: (R, R) -> R) {
    forall x, y, z :: op(op(x, y), z) == op(x, op(y, z))
  }

  ghost predicate Commutative<R(!new)>(op: (R, R) -> R) {
    forall x, y :: op(x, y) == op(y, x)
  }

  /** One after the other, from the left. */
  ghost function Fold<R>(op: (R, R) -> R, xs: seq<R>): R
    requires xs != []
  {
    if |xs| == 1 then xs[0] else op(Fold(op, xs[..|xs| - 1]), xs[|xs| - 1])
  }

  lemma {:induction false} FoldConcat<R(!new)>(op: (R, R) -> R, xs: seq<R>, ys: seq<R>)
    requires Associative(op) && xs != [] && ys != []
    ensures Fold(op, xs + ys) == op(Fold(op, xs), Fold(op, ys))
    decreases |ys|
  {
    var all, last := xs + ys, ys[|ys| - 1];
    if |ys| == 1 {
      assert all[..|all| - 1] == xs;
    } else {
      assert all[..|all| - 1] == xs + ys[..|ys| - 1];
      FoldConcat(op, xs, ys[..|ys| - 1]);
    }
  }

  /** Replacing an element by two that combine to it. */
  lemma FoldExpand<R(!new)>(op: (R, R) -> R, before: seq<R>, x: R, y: R, z: R, after: seq<R>)
    requires Associative(op) && x == op(y, z)
    ensures Fold(op, before + [x] + after) == Fold(op, before + [y, z] + after)
  {
    assert Fold(op, [y, z]) == op(y, z) by {
      assert [y, z][..1] == [y];
    }
    if before == [] && after == [] {
      assert before + [x] + after == [x] && before + [y, z] + after == [y, z];
    } else if before == [] {
      assert before + [x] + after == [x] + after && before + [y, z] + after == [y, z] + after;
      FoldConcat(op, [x], after);
      FoldConcat(op, [y, z], after);
    } else if after == [] {
      assert before + [x] + after == before + [x] && before + [y, z] + after == before + [y, z];
      FoldConcat(op, before, [x]);
      FoldConcat(op, before, [y, z]);
    } else {
      FoldConcat(op, before + [x], after);
      FoldConcat(op, before + [y, z], after);
      FoldConcat(op, before, [x]);
      FoldConcat(op, before, [y, z]);
    }
  }

  /** Node at which the deepest level starts in a tree with `k` internal nodes. */
  function DeepestLevel(k: nat): (m: nat)
    ensures k <= m <= 2 * k
  {
    if k == 0 then 0 else
      var m := DeepestLevel(k - 1);
      if m == k - 1 then 2 * k - 1 else m
  }

  ghost function Values<T, R>(job: Job<T, R>, from: nat, to: nat): seq<R>
    requires |job.tasks| >= 2 && from <= to <= 2 * |job.tasks| - 1
  {
    seq(to - from, i requires 0 <= i < to - from => TreeValue(job, from + i))
  }

  /** The leaves, from left to right, of the tree cut down to its first `k` internal nodes. */
  ghost function Frontier<T, R>(job: Job<T, R>, k: nat): (f: seq<R>)
    requires |job.tasks| >= 2 && k < |job.tasks|
    ensures |f| == k + 1
  {
    Values(job, DeepestLevel(k), 2 * k + 1) + Values(job, k, DeepestLevel(k))
  }

  /** Giving node k its two children. */
  lemma FrontierGrows<T, R(!new)>(job: Job<T, R>, k: nat)
    requires |job.tasks| >= 2 && k + 1 < |job.tasks| && Associative(job.combine)
    ensures Fold(job.combine, Frontier(job, k)) == Fold(job.combine, Frontier(job, k + 1))
  {
    var m := DeepestLevel(k);
    var x, y, z := TreeValue(job, k), TreeValue(job, 2 * k + 1), TreeValue(job, 2 * k + 2);
    assert x == job.combine(y, z);
    if m == k {
      var rest := Values(job, k + 1, 2 * k + 1);
      assert Frontier(job, k) == [] + [x] + rest;
      assert DeepestLevel(k + 1) == 2 * k + 1;
      assert Frontier(job, k + 1) == [] + [y, z] + rest;
      FoldExpand(job.combine, [], x, y, z, rest);
    } else {
      var front, rest := Values(job, m, 2 * k + 1), Values(job, k + 1, m);
      assert Frontier(job, k) == front + [x] + rest;
      assert DeepestLevel(k + 1) == m;
      assert Frontier(job, k + 1) == front + [y, z] + rest;
      FoldExpand(job.combine, front, x, y, z, rest);
    }
  }

  lemma {:induction false} FrontierFolds<T, R(!new)>(job: Job<T, R>, k: nat)
    requires |job.tasks| >= 2 && k < |job.tasks| && Associative(job.combine)
    ensures Fold(job.combine, Frontier(job, k)) == TreeValue(job, 0)
  {
    if k == 0 {
      assert Frontier(job, 0) == [TreeValue(job, 0)];
    } else {
      FrontierFolds(job, k - 1);
      FrontierGrows(job, k - 1);
    }
  }

  /** How many tasks are moved to the back. */
  function Rotation(n: nat): (r: nat)
    requires n >= 1
    ensures r < n
  {
    DeepestLevel(n - 1) - (n - 1)
  }

  ghost function Transformed<T, R>(job: Job<T, R>): (xs: seq<R>)
    ensures |xs| == |job.tasks|
  {
    seq(|job.tasks|, i requires 0 <= i < |job.tasks| => job.transform(job.tasks[i]))
  }

  ghost function Rotated<R>(xs: seq<R>, r: nat): seq<R>
    requires r <= |xs|
  {
    xs[r..] + xs[..r]
  }

  /** An associative combination yields the fold of the tasks, the first few moved to the back. */
  lemma TreeIsRotatedFold<T, R(!new)>(job: Job<T, R>)
    requires |job.tasks| >= 2 && Associative(job.combine)
    ensures TreeValue(job, 0) == Fold(job.combine, Rotated(Transformed(job), Rotation(|job.tasks|)))
  {
    var n := |job.tasks|;
    FrontierFolds(job, n - 1);
    var m, xs, r := DeepestLevel(n - 1), Transformed(job), Rotation(n);
    assert forall v :: n - 1 <= v < 2 * n - 1 ==> TreeValue(job, v) == xs[v - (n - 1)];
    assert Values(job, m, 2 * n - 1) == xs[r..];
    assert Values(job, n - 1, m) == xs[..r];
  }

  /** If it is commutative too, the order does not matter and the result is the sequential fold. */
  lemma TreeIsSequentialFold<T, R(!new)>(job: Job<T, R>)
    requires |job.tasks| >= 2 && Associative(job.combine) && Commutative(job.combine)
    ensures TreeValue(job, 0) == Fold(job.combine, Transformed(job))
  {
    TreeIsRotatedFold(job);
    var xs, r := Transformed(job), Rotation(|job.tasks|);
    if r == 0 {
      assert Rotated(xs, r) == xs;
    } else {
      FoldConcat(job.combine, xs[r..], xs[..r]);
      FoldConcat(job.combine, xs[..r], xs[r..]);
      assert xs == xs[..r] + xs[r..];
    }
  }

  // ---- When the order is kept without commutativity.

  ghost predicate IsPowerOfTwo(n: nat) {
    exists e: nat :: n == Pow2(e)
  }

  /** The deepest level of a tree starts one below a power of two. */
  lemma {:induction false} DeepestIsPower(k: nat)
    ensures IsPowerOfTwo(DeepestLevel(k) + 1)
  {
    if k == 0 {
      assert Pow2(0) == DeepestLevel(0) + 1;
    } else {
      DeepestIsPower(k - 1);
      var e: nat :| DeepestLevel(k - 1) + 1 == Pow2(e);
      assert Pow2(e + 1) == 2 * Pow2(e);
    }
  }

  lemma {:induction false} PowersApart(e: nat, f: nat)
    requires Pow2(e) <= Pow2(f) < 2 * Pow2(e)
    ensures Pow2(e) == Pow2(f)
    decreases e + f
  {
    if e > 0 && f > 0 {
      PowersApart(e - 1, f - 1);
    }
  }

  lemma RotationIsZeroIff(n: nat)
    requires n >= 1
    ensures Rotation(n) == 0 <==> IsPowerOfTwo(n)
  {
    var m := DeepestLevel(n - 1);
    DeepestIsPower(n - 1);
    if IsPowerOfTwo(n) {
      var e: nat :| n == Pow2(e);
      var f: nat :| m + 1 == Pow2(f);
      PowersApart(e, f);
    }
  }

  ghost predicate KeepsOrder<T, R>(job: Job<T, R>) {
    |job.tasks| >= 2 && TreeValue(job, 0) == Fold(job.combine, Transformed(job))
  }

  /** Lists its tasks: each becomes a list of one, and lists are joined end to end. */
  ghost function Listing(n: nat): Job<nat, seq<nat>> {
    var tasks: seq<nat> := seq(n, i => i);
    Job(tasks, (x: nat) => [x], (x: seq<nat>, y: seq<nat>) => x + y)
  }

  lemma {:induction false} FoldStarts(op: (seq<nat>, seq<nat>) -> seq<nat>, xs: seq<seq<nat>>)
    requires xs != [] && xs[0] != [] && forall x, y :: op(x, y) == x + y
    ensures Fold(op, xs) != [] && Fold(op, xs)[0] == xs[0][0]
  {
    if |xs| > 1 {
      FoldStarts(op, xs[..|xs| - 1]);
    }
  }

  /** The result of a listing starts with the task the tree starts with. */
  lemma ListingStarts(n: nat)
    requires n >= 2
    ensures var v := TreeValue(Listing(n), 0); v != [] && v[0] == Rotation(n)
    ensures var v := Fold(Listing(n).combine, Transformed(Listing(n))); v != [] && v[0] == 0
  {
    var job := Listing(n);
    ListingIsAssociative(n);
    TreeIsRotatedFold(job);
    var xs, r := Transformed(job), Rotation(n);
    assert forall i :: 0 <= i < n ==> xs[i] == [i];
    assert Rotated(xs, r)[0] == xs[r];
    FoldStarts(job.combine, xs);
    FoldStarts(job.combine, Rotated(xs, r));
  }

  /** Every associative combination of n tasks keeps their order exactly if n is a power of two. */
  lemma OrderKeptIffPowerOfTwo(n: nat)
    requires n >= 2
    ensures (forall job: Job<nat, seq<nat>> :: |job.tasks| == n && Associative(job.combine) ==> KeepsOrder(job)) <==> IsPowerOfTwo(n)
  {
    RotationIsZeroIff(n);
    if IsPowerOfTwo(n) {
      forall job: Job<nat, seq<nat>> | |job.tasks| == n && Associative(job.combine) ensures KeepsOrder(job) {
        TreeIsRotatedFold(job);
        assert Rotated(Transformed(job), 0) == Transformed(job);
      }
    } else {
      ListingStarts(n);
      ListingIsAssociative(n);
      assert !KeepsOrder(Listing(n));
    }
  }

  lemma ListingIsAssociative(n: nat)
    ensures Associative(Listing(n).combine) && |Listing(n).tasks| == n
  {
    var op := Listing(n).combine;
    forall x, y, z ensures op(op(x, y), z) == op(x, op(y, z)) {
    }
  }

  /** With lists joined end to end the order can be read off: three tasks come out as second, third, first. */
  lemma OrderOfThree(a: nat, b: nat, c: nat)
    ensures var job := Job([a, b, c], (x: nat) => [x], (x: seq<nat>, y: seq<nat>) => x + y);
            TreeValue(job, 0) == [b, c, a]
  {
    var job := Job([a, b, c], (x: nat) => [x], (x: seq<nat>, y: seq<nat>) => x + y);
    assert TreeValue(job, 1) == TreeValue(job, 3) + TreeValue(job, 4);
    assert TreeValue(job, 0) == TreeValue(job, 1) + TreeValue(job, 2);
  }

  /** What the caller gets: `empty` for no tasks, the one result for one task, else the root's value. */
  ghost function Result<T, R>(job: Job<T, R>, empty: R): R {
    if job.tasks == [] then empty
    else if |job.tasks| == 1 then job.transform(job.tasks[0])
    else TreeValue(job, 0)
  }

  /** Without tasks that is `empty`, and with one its value, whatever the combination does. */
  lemma FewTasks<T, R(!new)>(job: Job<T, R>, empty: R)
    ensures job.tasks == [] ==> Result(job, empty) == empty
    ensures |job.tasks| == 1 ==> Result(job, empty) == job.transform(job.tasks[0])
  {
  }

  /** For any tasks and an associative combination: the fold of the tasks, the first few moved to the back. */
  lemma ResultIsRotatedFold<T, R(!new)>(job: Job<T, R>, empty: R)
    requires job.tasks != [] && (|job.tasks| > 1 ==> Associative(job.combine))
    ensures Result(job, empty) == Fold(job.combine, Rotated(Transformed(job), Rotation(|job.tasks|)))
  {
    if |job.tasks| == 1 {
      var xs := Transformed(job);
      assert Rotated(xs, 0) == xs;
    } else {
      TreeIsRotatedFold(job);
    }
  }

  /** The sequential fold, if there is a power of two of tasks, for example one, or the combination commutes. */
  lemma ResultIsFold<T, R(!new)>(job: Job<T, R>, empty: R)
    requires job.tasks != [] && (|job.tasks| > 1 ==> Associative(job.combine) && (IsPowerOfTwo(|job.tasks|) || Commutative(job.combine)))
    ensures Result(job, empty) == Fold(job.combine, Transformed(job))
  {
    var xs := Transformed(job);
    ResultIsRotatedFold(job, empty);
    assert Rotated(xs, 0) == xs;
    if |job.tasks| > 1 && Commutative(job.combine) {
      TreeIsSequentialFold(job);
    } else if |job.tasks| > 1 {
      RotationIsZeroIff(|job.tasks|);
    }
  }

  /** Every finished run returns the same result, the sequential fold if the combination is associative and commutative. */
  lemma EveryRunReturns<T, R(!new)>(job: Job<T, R>, empty: R, workers: nat, schedule: seq<nat>, end: State<T, R>)
    requires |job.tasks| >= 2 && workers > 0 && Run(job, Start(job, workers), schedule, end) && AllDone(end)
    ensures |end.pubs| > 0 && end.pubs[0].Some? && end.pubs[0].value < |end.results|
    ensures end.results[end.pubs[0].value] == Some(Result(job, empty))
    ensures Associative(job.combine) && (IsPowerOfTwo(|job.tasks|) || Commutative(job.combine)) ==> Result(job, empty) == Fold(job.combine, Transformed(job))
  {
    EveryRunReduces(job, workers, schedule, end);
    if Associative(job.combine) && (IsPowerOfTwo(|job.tasks|) || Commutative(job.combine)) {
      ResultIsFold(job, empty);
    }
  }
}
