/** Renumbering blocks so that states stay put. */
module Survivors {
  // The numbers are 0 .. k-1; as many states as possible keep their own number and state 0 keeps number 0.

  import opened Automata
  import opened SeqFacts
  import opened RefinablePartitions

  /** Blocks seen so far have numbers below `k` of states of such blocks, no two the same; the block of state 0 has 0. */
  ghost predicate NumbersOk(blk: seq<nat>, k: nat, num: map<nat, nat>, i: nat) {
    && k <= |blk|
    && (forall b :: b in num ==> b < i && num[b] < k && blk[num[b]] < i)
    && (forall b, c :: b in num && c in num && num[b] == num[c] ==> b == c)
    && (0 < k && blk[0] < i ==> blk[0] in num && num[blk[0]] == 0)
  }

  /** The other blocks seen so far wait for a number. */
  ghost predicate UnmappedOk(num: map<nat, nat>, unmapped: seq<nat>, i: nat) {
    && Distinct(unmapped)
    && (forall b :: b in unmapped ==> b < i && b !in num)
    && (forall b: nat :: b < i ==> b in num || b in unmapped)
  }

  /** The small states of blocks seen so far are numbers that have been given, or are spare. */
  ghost predicate SpareOk(blk: seq<nat>, k: nat, num: map<nat, nat>, spare: seq<nat>, i: nat)
    requires k <= |blk|
  {
    && Distinct(spare)
    && (forall x :: x in spare ==> x < k && blk[x] < i && x !in num.Values)
    && (forall x: nat :: x < k && blk[x] < i ==> x in num.Values || x in spare)
  }

  /**
   After the first `i` blocks: `num` numbers some of them, `spare` are the small state numbers of those
   blocks that no block has taken, and `unmapped` are the blocks still without a number.
   */
  ghost predicate Numbering(blk: seq<nat>, k: nat, num: map<nat, nat>, spare: seq<nat>, unmapped: seq<nat>, i: nat) {
    NumbersOk(blk, k, num, i) && UnmappedOk(num, unmapped, i) && SpareOk(blk, k, num, spare, i)
  }

  /** One more block is numbered. */
  lemma OneMoreNumber(blk: seq<nat>, k: nat, num: map<nat, nat>, i: nat, next: nat, b: nat, x: nat)
    requires NumbersOk(blk, k, num, i) && i <= next && b !in num && b < next && x < k && blk[x] < next && x !in num.Values
    requires 0 < k && blk[0] < next && blk[0] !in num ==> b == blk[0] && x == 0
    requires 0 < k && blk[0] in num ==> blk[0] < i
    ensures NumbersOk(blk, k, num[b := x], next) && num[b := x].Values == num.Values + {x} && num[b := x].Keys == num.Keys + {b}
  {
    var now := num[b := x];
    assert forall c :: c in num ==> now[c] == num[c] && num[c] in num.Values;
    forall v ensures v in now.Values <==> v in num.Values || v == x {
      assert now[b] == x;
      if v in num.Values {
        var c :| c in num && num[c] == v;
        assert now[c] == v;
      }
    }
  }

  /** A block that contains a small number takes one of them; its other small numbers become spare. */
  lemma TakeOwn(blk: seq<nat>, k: nat, num: map<nat, nat>, spare: seq<nat>, unmapped: seq<nat>, i: nat, x: nat, others: seq<nat>)
    requires Numbering(blk, k, num, spare, unmapped, i) && x < k && blk[x] == i && (blk[0] == i ==> x == 0)
    requires Distinct(others) && forall y: nat :: y in others <==> y < k && blk[y] == i && y != x
    ensures Numbering(blk, k, num[i := x], spare + others, unmapped, i + 1)
  {
    assert i !in num && i !in unmapped;
    NotGiven(blk, k, num, i, x);
    forall y | y in others ensures y !in num.Values {
      NotGiven(blk, k, num, i, y);
    }
    OneMoreNumber(blk, k, num, i, i + 1, i, x);
    UnmappedStay(num, num[i := x], unmapped, i);
    DistinctConcat(spare, others);
    hide Distinct, NumbersOk, UnmappedOk;
  }

  lemma NotGiven(blk: seq<nat>, k: nat, num: map<nat, nat>, i: nat, x: nat)
    requires NumbersOk(blk, k, num, i) && x < k && blk[x] >= i
    ensures x !in num.Values
  {
    forall b | b in num ensures num[b] != x {
    }
  }

  /** The next block has been given a number. */
  lemma UnmappedStay(num: map<nat, nat>, now: map<nat, nat>, unmapped: seq<nat>, i: nat)
    requires UnmappedOk(num, unmapped, i) && now.Keys == num.Keys + {i}
    ensures UnmappedOk(now, unmapped, i + 1)
  {
    hide Distinct;
  }

  /** The last spare number is given. */
  lemma LessSpare(blk: seq<nat>, k: nat, num: map<nat, nat>, now: map<nat, nat>, spare: seq<nat>, i: nat, next: nat)
    requires k <= |blk| && SpareOk(blk, k, num, spare, i) && spare != [] && now.Values == num.Values + {spare[|spare| - 1]}
    requires i <= next && forall y: nat :: y < k && blk[y] < next ==> blk[y] < i
    ensures SpareOk(blk, k, now, spare[..|spare| - 1], next)
  {
    LastRemoved(spare);
    hide Distinct;
    var x, rest := spare[|spare| - 1], spare[..|spare| - 1];
    forall y | y in rest ensures y < k && blk[y] < next && y !in now.Values {
      assert y in spare && y != x;
    }
    forall y: nat | y < k && blk[y] < next ensures y in now.Values || y in rest {
      assert y in num.Values || y in spare;
    }
  }

  /** A block without small numbers takes a spare one. */
  lemma TakeSpare(blk: seq<nat>, k: nat, num: map<nat, nat>, spare: seq<nat>, unmapped: seq<nat>, i: nat)
    requires Numbering(blk, k, num, spare, unmapped, i) && spare != [] && NoSmall(blk, k, i)
    ensures Numbering(blk, k, num[i := spare[|spare| - 1]], spare[..|spare| - 1], unmapped, i + 1)
  {
    var x: nat := spare[|spare| - 1];
    var now, rest := num[i := x], spare[..|spare| - 1];
    assert x in spare && i !in num;
    OneMoreNumber(blk, k, num, i, i + 1, i, x);
    LessSpare(blk, k, num, now, spare, i, i + 1);
    UnmappedStay(num, now, unmapped, i);
    assert NumbersOk(blk, k, now, i + 1) && UnmappedOk(now, unmapped, i + 1) && SpareOk(blk, k, now, rest, i + 1);
  }

  lemma Postpone(blk: seq<nat>, k: nat, num: map<nat, nat>, unmapped: seq<nat>, i: nat)
    requires Numbering(blk, k, num, [], unmapped, i) && NoSmall(blk, k, i)
    ensures Numbering(blk, k, num, [], unmapped + [i], i + 1)
  {
    assert i !in num && i !in unmapped;
    assert UnmappedOk(num, unmapped + [i], i + 1);
    hide UnmappedOk, Distinct;
  }

  /** When every block has been seen, exactly as many numbers are spare as blocks are unmapped. */
  lemma {:induction false} LeftoversMatch(blk: seq<nat>, k: nat, num: map<nat, nat>, spare: seq<nat>, unmapped: seq<nat>)
    requires Numbering(blk, k, num, spare, unmapped, k) && forall s :: 0 <= s < |blk| ==> blk[s] < k
    ensures |spare| == |unmapped|
  {
    DistinctSize(spare);
    DistinctSize(unmapped);
    InjectiveValues(num);
    NumbersCover(blk, k, num, spare, unmapped);
    AllBelow(num.Values + Elems(spare), k);
    AllBelow(num.Keys + Elems(unmapped), k);
    hide Numbering, Elems;
    assert |num.Values + Elems(spare)| == |num.Values| + |Elems(spare)|;
    assert |num.Keys + Elems(unmapped)| == |num.Keys| + |Elems(unmapped)|;
  }

  lemma NumbersCover(blk: seq<nat>, k: nat, num: map<nat, nat>, spare: seq<nat>, unmapped: seq<nat>)
    requires Numbering(blk, k, num, spare, unmapped, k) && forall s :: 0 <= s < |blk| ==> blk[s] < k
    ensures num.Values !! Elems(spare) && num.Keys !! Elems(unmapped)
    ensures forall x: nat :: x in num.Values + Elems(spare) <==> x < k
    ensures forall b: nat :: b in num.Keys + Elems(unmapped) <==> b < k
  {
    forall x | x in num.Values ensures x < k {
      var b :| b in num && num[b] == x;
    }
  }

  /** An unmapped block takes a spare number after all blocks have been seen. */
  lemma MapLate(blk: seq<nat>, k: nat, num: map<nat, nat>, spare: seq<nat>, unmapped: seq<nat>)
    requires Numbering(blk, k, num, spare, unmapped, k) && spare != [] && unmapped != []
    ensures Numbering(blk, k, num[unmapped[0] := spare[|spare| - 1]], spare[..|spare| - 1], unmapped[1..], k)
  {
    var x: nat, i: nat := spare[|spare| - 1], unmapped[0];
    assert x in spare && i in unmapped && i !in num && x !in num.Values;
    OneMoreNumber(blk, k, num, k, k, i, x);
    LessSpare(blk, k, num, num[i := x], spare, k, k);
    FirstRemoved(unmapped);
    hide Distinct, NumbersOk, SpareOk;
  }

  lemma LastRemoved(s: seq<nat>)
    requires Distinct(s) && s != []
    ensures Distinct(s[..|s| - 1]) && forall y :: y in s[..|s| - 1] <==> y in s && y != s[|s| - 1]
  {
    assert s == s[..|s| - 1] + [s[|s| - 1]];
  }

  lemma FirstRemoved(s: seq<nat>)
    requires Distinct(s) && s != []
    ensures Distinct(s[1..]) && forall y :: y in s[1..] <==> y in s && y != s[0]
  {
    assert s == [s[0]] + s[1..];
    forall j | 0 <= j < |s[1..]| ensures s[1..][j] != s[0] {
      assert s[1..][j] == s[j + 1];
    }
  }

  /**
   The result: `remap` is constant on blocks, separates blocks, takes exactly the values below `k`, fixes 0,
   and `comesFrom` names a member of the block each number stands for: that number itself, or, if no member of
   the block could be a number, any.
   */
  ghost predicate Renumbers(blk: seq<nat>, k: nat, remap: seq<nat>, comesFrom: seq<nat>) {
    && |remap| == |blk| && k <= |comesFrom|
    && (forall s :: 0 <= s < |blk| ==> remap[s] < k)
    && (forall s, t :: 0 <= s < |blk| && 0 <= t < |blk| ==> (remap[s] == remap[t] <==> blk[s] == blk[t]))
    && (forall x :: 0 <= x < k ==> comesFrom[x] < |blk| && remap[comesFrom[x]] == x && IsSource(blk, k, blk[comesFrom[x]], x, comesFrom[x]))
    && (|blk| > 0 ==> remap[0] == 0)
  }

  /** `from` is a member of block `b`, and is `x` or, like all members, too large to be a number. */
  ghost predicate IsSource(blk: seq<nat>, k: nat, b: nat, x: nat, from: nat) {
    from < |blk| && blk[from] == b && (from == x || (from >= k && NoSmall(blk, k, b)))
  }

  /** Block `b` has no member below `k`. */
  ghost predicate NoSmall(blk: seq<nat>, k: nat, b: nat) {
    forall y: nat :: y < k && y < |blk| ==> blk[y] != b
  }

  /** `remap` and `comesFrom` agree with the numbering so far. */
  ghost predicate Written(blk: seq<nat>, k: nat, num: map<nat, nat>, remap: seq<nat>, comesFrom: seq<nat>) {
    && |remap| == |blk|
    && (forall s :: 0 <= s < |blk| && blk[s] in num ==> remap[s] == num[blk[s]])
    && (forall b :: b in num && num[b] < |comesFrom| ==> IsSource(blk, k, b, num[b], comesFrom[num[b]]))
  }

  /** A number has been given that the buffer of `size` places has no place for. */
  ghost predicate Overran(num: map<nat, nat>, size: nat) {
    exists b :: b in num && num[b] >= size
  }

  /** Writes one place of the buffer, if it is one. */
  method Put(comesFrom: array<nat>, x: nat, from: nat, over0: bool) returns (over: bool)
    modifies comesFrom
    ensures over == (over0 || x >= comesFrom.Length)
    ensures comesFrom[..] == if x < comesFrom.Length then old(comesFrom[..])[x := from] else old(comesFrom[..])
  {
    over := over0 || x >= comesFrom.Length;
    if x < comesFrom.Length {
      comesFrom[x] := from;
    }
  }

  /** When all blocks have numbers, the buffer was too small exactly if there are more blocks than places. */
  lemma OverranAll(blk: seq<nat>, k: nat, num: map<nat, nat>, size: nat)
    requires Numbering(blk, k, num, [], [], k) && k > 0 && forall s :: 0 <= s < |blk| ==> blk[s] < k
    ensures Overran(num, size) <==> k > size
  {
    if k > size {
      var x: nat := k - 1;
      assert x in num.Values || x in [];
      var b :| b in num && num[b] == x;
    }
  }

  lemma NumberedAll(blk: seq<nat>, k: nat, num: map<nat, nat>, remap: seq<nat>, comesFrom: seq<nat>)
    requires Numbering(blk, k, num, [], [], k) && Written(blk, k, num, remap, comesFrom) && k <= |comesFrom|
    requires forall s :: 0 <= s < |blk| ==> blk[s] < k
    ensures Renumbers(blk, k, remap, comesFrom)
  {
    forall x: nat | x < k ensures comesFrom[x] < |blk| && remap[comesFrom[x]] == x && IsSource(blk, k, blk[comesFrom[x]], x, comesFrom[x]) {
      NumberIsMember(blk, k, num, remap, comesFrom, x);
    }
    forall s: nat | s < |blk| ensures blk[s] in num && remap[s] == num[blk[s]] < k {
      assert blk[s] in num;
    }
  }

  lemma NumberIsMember(blk: seq<nat>, k: nat, num: map<nat, nat>, remap: seq<nat>, comesFrom: seq<nat>, x: nat)
    requires Numbering(blk, k, num, [], [], k) && Written(blk, k, num, remap, comesFrom) && k <= |comesFrom| && x < k && blk[x] < k
    ensures comesFrom[x] < |blk| && remap[comesFrom[x]] == x && IsSource(blk, k, blk[comesFrom[x]], x, comesFrom[x])
  {
    assert x in num.Values || x in [];
    var b :| b in num && num[b] == x;
  }

  /** Numbering one more block writes the number over its members and names the member it comes from. */
  lemma WriteBlock(blk: seq<nat>, k: nat, num: map<nat, nat>, before: seq<nat>, remap: seq<nat>, comesFrom: seq<nat>, after: seq<nat>, b: nat, x: nat, from: nat)
    requires Written(blk, k, num, before, comesFrom) && |remap| == |blk|
    requires forall s :: 0 <= s < |blk| ==> remap[s] == if blk[s] == b then x else before[s]
    requires b !in num && (forall c :: c in num ==> num[c] != x) && IsSource(blk, k, b, x, from)
    requires after == if x < |comesFrom| then comesFrom[x := from] else comesFrom
    ensures Written(blk, k, num[b := x], remap, after)
    ensures Overran(num[b := x], |comesFrom|) <==> Overran(num, |comesFrom|) || x >= |comesFrom|
  {
    var now := num[b := x];
    assert now[b] == x;
    forall c | c in num ensures c in now && now[c] == num[c] {
    }
  }

  /** Writes `x` over every member of block `b`. */
  method AssignSpare(rp: RefinablePartition, b: nat, x: nat, remap: array<nat>)
    requires rp.ValidArrays() && b < |rp.bounds| && remap.Length == rp.n && remap != rp.partitions
    modifies remap
    ensures forall s :: 0 <= s < rp.n ==> remap[s] == if rp.Blocks()[s] == b then x else old(remap[s])
  {
    var i := rp.bounds[b].0;
    while i < rp.bounds[b].1
      invariant rp.bounds[b].0 <= i <= rp.bounds[b].1
      invariant forall s :: 0 <= s < rp.n ==>
        remap[s] == if rp.Blocks()[s] == b && rp.stateToPartition[s].1 < i then x else old(remap[s])
    {
      remap[rp.partitions[i]] := x;
      i := i + 1;
    }
  }

  /** Writes `x` over every member of block `b` and lists the other small numbers in it. */
  method AssignOwn(rp: RefinablePartition, b: nat, x: nat, k: nat, remap: array<nat>) returns (others: seq<nat>)
    requires rp.ValidArrays() && b < |rp.bounds| && remap.Length == rp.n && remap != rp.partitions
    modifies remap
    ensures forall s :: 0 <= s < rp.n ==> remap[s] == if rp.Blocks()[s] == b then x else old(remap[s])
    ensures Distinct(others) && forall y: nat :: y in others <==> y < rp.n && y < k && rp.Blocks()[y] == b && y != x
  {
    others := [];
    var i := rp.bounds[b].0;
    while i < rp.bounds[b].1
      invariant rp.bounds[b].0 <= i <= rp.bounds[b].1
      invariant forall s :: 0 <= s < rp.n ==>
        remap[s] == if rp.Blocks()[s] == b && rp.stateToPartition[s].1 < i then x else old(remap[s])
      invariant Distinct(others)
      invariant forall y: nat :: y in others <==> y < rp.n && y < k && rp.Blocks()[y] == b && y != x && rp.stateToPartition[y].1 < i
    {
      var s := rp.partitions[i];
      remap[s] := x;
      if s < k && s != x {
        others := others + [s];
      }
      i := i + 1;
    }
  }

  /** State 0 for its own block, else the first member below `k`, else the first member. */
  method ChooseSurvivor(rp: RefinablePartition, b: nat, k: nat, initialPart: nat) returns (x: nat)
    requires rp.ValidArrays() && b < |rp.bounds| && rp.n > 0 && initialPart == rp.Blocks()[0]
    ensures x < rp.n && rp.Blocks()[x] == b && (rp.Blocks()[0] == b ==> x == 0)
    ensures x >= k > 0 ==> NoSmall(rp.Blocks(), k, b)
  {
    if b == initialPart {
      return 0;
    }
    var i := rp.bounds[b].0;
    while i < rp.bounds[b].1 && rp.partitions[i] >= k
      invariant rp.bounds[b].0 <= i <= rp.bounds[b].1
      invariant forall y: nat :: y < k && y < rp.n && rp.Blocks()[y] == b ==> rp.stateToPartition[y].1 >= i
    {
      i := i + 1;
    }
    x := if i < rp.bounds[b].1 then rp.partitions[i] else rp.partitions[rp.bounds[b].0];
  }

  /** Numbers block `b`, with one of its own members if it can, else with a spare number, else later. */
  method NumberBlock(rp: RefinablePartition, b: nat, k: nat, initialPart: nat, remap: array<nat>, comesFrom: array<nat>,
                     unmapped0: seq<nat>, spare0: seq<nat>, over0: bool, ghost num0: map<nat, nat>)
      returns (unmapped: seq<nat>, spare: seq<nat>, over: bool, ghost num: map<nat, nat>)
    requires rp.ValidArrays() && b < |rp.bounds| == k <= rp.n && initialPart == rp.Blocks()[0]
    requires remap.Length == rp.n && remap != rp.partitions && comesFrom != rp.partitions && remap != comesFrom
    requires Numbering(rp.Blocks(), k, num0, spare0, unmapped0, b) && Written(rp.Blocks(), k, num0, remap[..], comesFrom[..])
    requires (forall c :: c in unmapped0 ==> NoSmall(rp.Blocks(), k, c)) && (over0 <==> Overran(num0, comesFrom.Length))
    modifies remap, comesFrom
    ensures over <==> Overran(num, comesFrom.Length)
    ensures Numbering(rp.Blocks(), k, num, spare, unmapped, b + 1) && Written(rp.Blocks(), k, num, remap[..], comesFrom[..])
    ensures forall c :: c in unmapped ==> NoSmall(rp.Blocks(), k, c)
  {
    hide *;
    ghost var blk := rp.Blocks();
    BlocksBelow(rp);
    unmapped, spare, num, over := unmapped0, spare0, num0, over0;
    var x: nat := ChooseSurvivor(rp, b, k, initialPart);
    SourceOf(blk, k, b, x);
    if x < k {
      OwnIsFree(blk, k, num, spare, unmapped, b, x);
      over := Put(comesFrom, x, x, over);
      var others := AssignOwn(rp, b, x, k, remap);
      TakeOwn(blk, k, num, spare, unmapped, b, x, others);
      WriteBlock(blk, k, num, old(remap[..]), remap[..], old(comesFrom[..]), comesFrom[..], b, x, x);
      spare, num := spare + others, num[b := x];
    } else if spare != [] {
      var survivor: nat := spare[|spare| - 1];
      SpareIsFree(blk, k, num, spare, unmapped, b);
      over := Put(comesFrom, survivor, x, over);
      AssignSpare(rp, b, survivor, remap);
      TakeSpare(blk, k, num, spare, unmapped, b);
      WriteBlock(blk, k, num, old(remap[..]), remap[..], old(comesFrom[..]), comesFrom[..], b, survivor, x);
      spare, num := spare[..|spare| - 1], num[b := survivor];
    } else {
      Postpone(blk, k, num, unmapped, b);
      unmapped := unmapped + [b];
    }
  }

  /** A member may stand for its own number if it is small, and for any number if none is. */
  lemma SourceOf(blk: seq<nat>, k: nat, b: nat, x: nat)
    requires x < |blk| && blk[x] == b && (x >= k ==> NoSmall(blk, k, b))
    ensures IsSource(blk, k, b, x, x) && forall y: nat :: x >= k ==> IsSource(blk, k, b, y, x)
  {
  }

  lemma OwnIsFree(blk: seq<nat>, k: nat, num: map<nat, nat>, spare: seq<nat>, unmapped: seq<nat>, i: nat, x: nat)
    requires Numbering(blk, k, num, spare, unmapped, i) && x < k && blk[x] == i
    ensures i !in num && forall c :: c in num ==> num[c] != x
  {
  }

  lemma SpareIsFree(blk: seq<nat>, k: nat, num: map<nat, nat>, spare: seq<nat>, unmapped: seq<nat>, i: nat)
    requires Numbering(blk, k, num, spare, unmapped, i) && spare != []
    ensures i !in num && spare[|spare| - 1] < k && forall c :: c in num ==> num[c] != spare[|spare| - 1]
  {
    assert spare[|spare| - 1] in spare;
    assert forall c :: c in num ==> num[c] in num.Values;
  }

  lemma BlocksBelow(rp: RefinablePartition)
    requires rp.ValidArrays()
    ensures |rp.Blocks()| == rp.n == rp.stateToPartition.Length && |rp.bounds| <= rp.n
    ensures forall s :: 0 <= s < |rp.Blocks()| ==> rp.Blocks()[s] < |rp.bounds| && rp.Blocks()[s] == rp.stateToPartition[s].0
  {
    BlockCount(rp.n, rp.partitions[..], rp.stateToPartition[..], rp.bounds);
  }

  /** Gives the postponed blocks the numbers that are left. */
  method NumberLate(rp: RefinablePartition, k: nat, remap: array<nat>, comesFrom: array<nat>,
                    unmapped0: seq<nat>, spare0: seq<nat>, over0: bool, ghost num0: map<nat, nat>) returns (over: bool, ghost num: map<nat, nat>)
    requires rp.ValidArrays() && |rp.bounds| == k <= rp.n
    requires remap.Length == rp.n && remap != rp.partitions && comesFrom != rp.partitions && remap != comesFrom
    requires Numbering(rp.Blocks(), k, num0, spare0, unmapped0, k) && Written(rp.Blocks(), k, num0, remap[..], comesFrom[..])
    requires (forall c :: c in unmapped0 ==> NoSmall(rp.Blocks(), k, c)) && (over0 <==> Overran(num0, comesFrom.Length))
    modifies remap, comesFrom
    ensures over <==> Overran(num, comesFrom.Length)
    ensures Numbering(rp.Blocks(), k, num, [], [], k) && Written(rp.Blocks(), k, num, remap[..], comesFrom[..])
  {
    hide *;
    ghost var blk := rp.Blocks();
    BlocksBelow(rp);
    var todo, spare := unmapped0, spare0;
    num, over := num0, over0;
    LeftoversMatch(blk, k, num, spare, todo);
    while todo != []
      invariant |spare| == |todo| && (over <==> Overran(num, comesFrom.Length))
      invariant Numbering(blk, k, num, spare, todo, k) && Written(blk, k, num, remap[..], comesFrom[..])
      invariant forall c :: c in todo ==> NoSmall(blk, k, c)
      decreases |todo|
    {
      assert todo[0] in todo && forall c :: c in todo[1..] ==> c in todo;
      num, todo, spare, over := NumberPostponed(rp, k, remap, comesFrom, todo, spare, over, num);
    }
    assert spare == [];
  }

  method NumberPostponed(rp: RefinablePartition, k: nat, remap: array<nat>, comesFrom: array<nat>,
                         todo: seq<nat>, spare: seq<nat>, over: bool, ghost num: map<nat, nat>)
      returns (ghost num1: map<nat, nat>, todo1: seq<nat>, spare1: seq<nat>, over1: bool)
    requires rp.ValidArrays() && |rp.bounds| == k <= rp.n
    requires remap.Length == rp.n && remap != rp.partitions && comesFrom != rp.partitions && remap != comesFrom
    requires todo != [] && spare != [] && NoSmall(rp.Blocks(), k, todo[0])
    requires Numbering(rp.Blocks(), k, num, spare, todo, k) && Written(rp.Blocks(), k, num, remap[..], comesFrom[..])
    requires over <==> Overran(num, comesFrom.Length)
    modifies remap, comesFrom
    ensures over1 <==> Overran(num1, comesFrom.Length)
    ensures num1 == num[todo[0] := spare[|spare| - 1]] && todo1 == todo[1..] && spare1 == spare[..|spare| - 1]
    ensures Numbering(rp.Blocks(), k, num1, spare1, todo1, k) && Written(rp.Blocks(), k, num1, remap[..], comesFrom[..])
  {
    hide Numbering, Written, Overran;
    LateIsFree(rp.Blocks(), k, num, spare, todo);
    MapLate(rp.Blocks(), k, num, spare, todo);
    var survivor: nat, part: nat := spare[|spare| - 1], todo[0];
    spare1, todo1 := spare[..|spare| - 1], todo[1..];
    var first: nat := rp.partitions[rp.bounds[part].0];
    over1 := Put(comesFrom, survivor, first, over);
    AssignSpare(rp, part, survivor, remap);
    WriteBlock(rp.Blocks(), k, num, old(remap[..]), remap[..], old(comesFrom[..]), comesFrom[..], part, survivor, first);
    num1 := num[part := survivor];
  }

  lemma LateIsFree(blk: seq<nat>, k: nat, num: map<nat, nat>, spare: seq<nat>, unmapped: seq<nat>)
    requires Numbering(blk, k, num, spare, unmapped, k) && unmapped != [] && spare != []
    ensures unmapped[0] < k && unmapped[0] !in num
    ensures spare[|spare| - 1] < k && forall c :: c in num ==> num[c] != spare[|spare| - 1]
  {
    assert unmapped[0] in unmapped && spare[|spare| - 1] in spare;
    assert forall c :: c in num ==> num[c] in num.Values;
  }

  lemma NothingNumbered(blk: seq<nat>, k: nat, remap: seq<nat>, comesFrom: seq<nat>)
    requires |remap| == |blk| && k <= |blk|
    ensures Numbering(blk, k, map[], [], [], 0) && Written(blk, k, map[], remap, comesFrom) && !Overran(map[], |comesFrom|)
  {
  }

  /**
   Numbers the blocks of the finished partition.  The buffers are the caller's, who no longer needs
   what they held; it reaches beyond the end of the second exactly if there are more blocks than places.
   */
  method Finish(rp: RefinablePartition, remap: array<nat>, comesFrom: array<nat>) returns (over: bool)
    requires rp.ValidArrays() && rp.n > 0 && remap.Length == rp.n
    requires remap != rp.partitions && comesFrom != rp.partitions && remap != comesFrom
    modifies remap, comesFrom
    ensures over <==> |rp.bounds| > comesFrom.Length
    ensures !over ==> Renumbers(rp.Blocks(), |rp.bounds|, remap[..], comesFrom[..])
  {
    hide *;
    var k := |rp.bounds|;
    ghost var blk := rp.Blocks();
    BlocksBelow(rp);
    var initialPart := rp.stateToPartition[0].0;
    assert blk[0] < k;
    var unmapped, spare: seq<nat> := [], [];
    ghost var num: map<nat, nat> := map[];
    over := false;
    NothingNumbered(blk, k, remap[..], comesFrom[..]);
    var i := 0;
    while i < k
      invariant i <= k && (over <==> Overran(num, comesFrom.Length))
      invariant Numbering(blk, k, num, spare, unmapped, i) && Written(blk, k, num, remap[..], comesFrom[..])
      invariant forall c :: c in unmapped ==> NoSmall(blk, k, c)
    {
      unmapped, spare, over, num := NumberBlock(rp, i, k, initialPart, remap, comesFrom, unmapped, spare, over, num);
      i := i + 1;
    }
    over, num := NumberLate(rp, k, remap, comesFrom, unmapped, spare, over, num);
    OverranAll(blk, k, num, comesFrom.Length);
    if !over {
      NumberedAll(blk, k, num, remap[..], comesFrom[..]);
    }
  }
}
