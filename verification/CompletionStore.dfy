/** Completed ids as a merge tree. */
module CompletionStore {
  // One kind of id: one main list of intervals and levels of pages, merged upwards as they fill.

  import opened Options
  import opened SeqFacts
  import opened Intervals

  type Page = seq<Interval>

  const N: nat := 8
  const PageSize: nat := (4096 - 16) / 16

  ghost predicate HasLevel(level: seq<Page>, x: nat) {
    exists i :: 0 <= i < |level| && In(level[i], x)
  }

  ghost predicate HasLevels(levels: seq<seq<Page>>, x: nat) {
    exists l :: 0 <= l < |levels| && HasLevel(levels[l], x)
  }

  ghost predicate NormalPages(level: seq<Page>) {
    forall i :: 0 <= i < |level| ==> Normal(level[i])
  }

  /** Pages are dense and in normal form, no level is empty or overfull, and there are single-digit levels only. */
  ghost predicate Shape(levels: seq<seq<Page>>) {
    |levels| <= 10 && forall l :: 0 <= l < |levels| ==> levels[l] != [] && LevelOk(levels[l])
  }

  ghost predicate LevelOk(level: seq<Page>) {
    |level| <= N && NormalPages(level)
  }

  // ---- How much a union can grow.

  ghost function StartsOf(list: seq<Interval>): set<nat> {
    Elems(seq(|list|, i requires 0 <= i < |list| => list[i].0))
  }

  lemma StartsMember(list: seq<Interval>, x: nat)
    ensures x in StartsOf(list) <==> exists i :: 0 <= i < |list| && list[i].0 == x
  {
    var firsts := seq(|list|, i requires 0 <= i < |list| => list[i].0);
    assert forall i :: 0 <= i < |list| ==> firsts[i] == list[i].0;
  }

  lemma StartsCount(list: seq<Interval>)
    requires Disjoint(list)
    ensures |StartsOf(list)| == |list|
  {
    DistinctSize(seq(|list|, i requires 0 <= i < |list| => list[i].0));
  }

  /** An interval of a normal list starts where some part of the union starts, unless another part ends just there. */
  lemma StartOrigin(left: seq<Interval>, right: seq<Interval>, ret: seq<Interval>, i: nat)
    requires Disjoint(left) && Disjoint(right) && Normal(ret) && i < |ret| && forall x :: In(ret, x) <==> In(left, x) || In(right, x)
    ensures ret[i].0 in StartsOf(left) + StartsOf(right)
    ensures ret[i].0 > 0 ==> !In(left, ret[i].0 - 1) && !In(right, ret[i].0 - 1)
  {
    var p := ret[i].0;
    assert Inside(ret[i], p);
    assert In(ret, p);
    if p > 0 {
      assert !In(ret, p - 1) by {
        forall j | 0 <= j < |ret| ensures !Inside(ret[j], p - 1) {
        }
      }
    }
    if In(left, p) {
      StartsHere(left, p);
    } else {
      StartsHere(right, p);
    }
  }

  lemma StartsHere(list: seq<Interval>, p: nat)
    requires In(list, p) && (p > 0 ==> !In(list, p - 1))
    ensures p in StartsOf(list)
  {
    var m :| 0 <= m < |list| && Inside(list[m], p);
    if p > 0 {
      assert !Inside(list[m], p - 1);
    }
    assert list[m].0 == p;
    StartsMember(list, p);
  }

  /** The normal form of a union has no more intervals than its parts, and fewer if they touch. */
  lemma UnionSize(left: seq<Interval>, right: seq<Interval>, ret: seq<Interval>)
    requires Disjoint(left) && Disjoint(right) && Normal(ret) && forall x :: In(ret, x) <==> In(left, x) || In(right, x)
    ensures |ret| <= |left| + |right| && (Touching(left, right) ==> |ret| < |left| + |right|)
  {
    var all := StartsOf(left) + StartsOf(right);
    NormalIsDisjoint(ret);
    StartsCount(left);
    StartsCount(right);
    StartsCount(ret);
    forall x: nat | x in StartsOf(ret) ensures x in all && (x > 0 ==> !In(left, x - 1) && !In(right, x - 1)) {
      StartsMember(ret, x);
      var i :| 0 <= i < |ret| && ret[i].0 == x;
      StartOrigin(left, right, ret, i);
    }
    SubsetSize(StartsOf(ret), all);
    if Touching(left, right) {
      var p := TouchPoint(left, right);
      SubsetSize(StartsOf(ret) + {p}, all);
    }
  }

  lemma TouchPoint(left: seq<Interval>, right: seq<Interval>) returns (p: nat)
    requires Disjoint(left) && Disjoint(right) && Touching(left, right)
    ensures p in StartsOf(left) + StartsOf(right) && p > 0 && (In(left, p - 1) || In(right, p - 1))
  {
    var i, j :| 0 <= i < |left| && 0 <= j < |right| && Touch(left[i], right[j]);
    if left[i].1 == right[j].0 {
      p := right[j].0;
      assert Inside(left[i], p - 1);
      StartsMember(right, p);
    } else {
      p := left[i].0;
      assert Inside(right[j], p - 1);
      StartsMember(left, p);
    }
  }

  // ---- Merging pages.

  lemma HasLevelConcat(a: seq<Page>, b: seq<Page>)
    ensures forall x :: HasLevel(a + b, x) <==> HasLevel(a, x) || HasLevel(b, x)
  {
    forall x ensures HasLevel(a + b, x) <==> HasLevel(a, x) || HasLevel(b, x) {
      if HasLevel(a, x) {
        var i :| 0 <= i < |a| && In(a[i], x);
        assert (a + b)[i] == a[i];
      }
      if HasLevel(b, x) {
        var i :| 0 <= i < |b| && In(b[i], x);
        assert (a + b)[|a| + i] == b[i];
      }
    }
  }

  lemma HasLevelOne(p: Page)
    ensures forall x :: HasLevel([p], x) <==> In(p, x)
  {
    forall x | In(p, x) ensures HasLevel([p], x) {
      assert In([p][0], x);
    }
  }

  lemma HasLevelTwo(p: Page, q: Page)
    ensures forall x :: HasLevel([p, q], x) <==> In(p, x) || In(q, x)
  {
    assert [p, q] == [p] + [q];
    HasLevelConcat([p], [q]);
    HasLevelOne(p);
    HasLevelOne(q);
  }

  /** Replaces two neighbouring pages by their union. */
  lemma MergePair(pages: seq<Page>, i: nat, union: Page)
    requires i + 1 < |pages| && NormalPages(pages) && Normal(union) && forall x :: In(union, x) <==> In(pages[i], x) || In(pages[i + 1], x)
    ensures var after := pages[..i] + [union] + pages[i + 2..];
            NormalPages(after) && |after| == |pages| - 1 && forall x :: HasLevel(after, x) <==> HasLevel(pages, x)
  {
    assert pages == pages[..i] + [pages[i], pages[i + 1]] + pages[i + 2..];
    HasLevelTwo(pages[i], pages[i + 1]);
    HasLevelOne(union);
    HasLevelConcat(pages[..i], [pages[i], pages[i + 1]]);
    HasLevelConcat(pages[..i] + [pages[i], pages[i + 1]], pages[i + 2..]);
    HasLevelConcat(pages[..i], [union]);
    HasLevelConcat(pages[..i] + [union], pages[i + 2..]);
  }

  /** The pages two by two, an odd last one as it is. */
  method MergePairs(pages: seq<Page>) returns (merged: seq<Page>)
    requires NormalPages(pages)
    ensures NormalPages(merged) && (pages != [] ==> merged != [])
    ensures forall x :: HasLevel(merged, x) <==> HasLevel(pages, x)
  {
    merged := [];
    var i := 0;
    while i < |pages|
      invariant i <= |pages| && NormalPages(merged) && (i > 0 ==> merged != [])
      invariant forall x :: HasLevel(merged, x) <==> HasLevel(pages[..i], x)
    {
      if i + 1 < |pages| {
        NormalIsDisjoint(pages[i]);
        NormalIsDisjoint(pages[i + 1]);
        var union := Union(pages[i], pages[i + 1]);
        HasLevelConcat(merged, [union]);
        HasLevelOne(union);
        assert pages[..i + 2] == pages[..i] + [pages[i], pages[i + 1]];
        HasLevelConcat(pages[..i], [pages[i], pages[i + 1]]);
        HasLevelTwo(pages[i], pages[i + 1]);
        merged := merged + [union];
        i := i + 2;
      } else {
        HasLevelConcat(merged, [pages[i]]);
        HasLevelConcat(pages[..i], [pages[i]]);
        assert pages[..i + 1] == pages[..i] + [pages[i]];
        merged := merged + [pages[i]];
        i := i + 1;
      }
    }
    assert pages[..i] == pages;
  }

  /** Merges pages pairwise, over and over, until one is left. */
  method MergeRanges(pages: seq<Page>) returns (merged: Page)
    requires NormalPages(pages) && pages != []
    ensures Normal(merged) && forall x :: In(merged, x) <==> HasLevel(pages, x)
  {
    var intervals := MergePairs(pages);
    while |intervals| > 1
      invariant NormalPages(intervals) && intervals != [] && forall x :: HasLevel(intervals, x) <==> HasLevel(pages, x)
      decreases |intervals|
    {
      intervals := MergePass(intervals);
    }
    assert intervals == [intervals[0]];
    HasLevelOne(intervals[0]);
    merged := intervals[0];
  }

  method MergePass(pages: seq<Page>) returns (merged: seq<Page>)
    requires NormalPages(pages) && |pages| > 1
    ensures NormalPages(merged) && 0 < |merged| < |pages| && forall x :: HasLevel(merged, x) <==> HasLevel(pages, x)
  {
    merged := pages;
    var i := 0;
    while i + 1 < |merged|
      invariant NormalPages(merged) && 0 < |merged| <= |pages| && (i > 0 ==> |merged| < |pages|)
      invariant forall x :: HasLevel(merged, x) <==> HasLevel(pages, x)
      decreases |merged| - i
    {
      NormalIsDisjoint(merged[i]);
      NormalIsDisjoint(merged[i + 1]);
      var union := Union(merged[i], merged[i + 1]);
      MergePair(merged, i, union);
      ghost var after := merged[..i] + [union] + merged[i + 2..];
      merged := merged[i := union];
      merged := merged[..i + 1] + merged[i + 2..];
      assert merged == after;
      i := i + 1;
    }
  }

  // ---- Levels.

  lemma HasLevelsConcat(a: seq<seq<Page>>, b: seq<seq<Page>>)
    ensures forall x :: HasLevels(a + b, x) <==> HasLevels(a, x) || HasLevels(b, x)
  {
    forall x ensures HasLevels(a + b, x) <==> HasLevels(a, x) || HasLevels(b, x) {
      if HasLevels(a, x) {
        var i :| 0 <= i < |a| && HasLevel(a[i], x);
        assert (a + b)[i] == a[i];
      }
      if HasLevels(b, x) {
        var i :| 0 <= i < |b| && HasLevel(b[i], x);
        assert (a + b)[|a| + i] == b[i];
      }
    }
  }

  lemma HasLevelsOne(level: seq<Page>)
    ensures forall x :: HasLevels([level], x) <==> HasLevel(level, x)
  {
    forall x | HasLevel(level, x) ensures HasLevels([level], x) {
      assert HasLevel([level][0], x);
    }
  }

  /** Changing one level changes what it contributes. */
  lemma HasLevelsUpdate(levels: seq<seq<Page>>, l: nat, level: seq<Page>)
    requires l < |levels|
    ensures forall x :: HasLevels(levels[l := level], x) <==> HasLevels(levels[..l], x) || HasLevel(level, x) || HasLevels(levels[l + 1..], x)
  {
    assert levels[l := level] == levels[..l] + [level] + levels[l + 1..];
    HasLevelsConcat(levels[..l], [level]);
    HasLevelsConcat(levels[..l] + [level], levels[l + 1..]);
    HasLevelsOne(level);
  }

  /** Level `l` is emptied and its merged page is put on top of level `l + 1`, which may be new. */
  ghost function Pushed(levels: seq<seq<Page>>, l: nat, merged: Page): seq<seq<Page>>
    requires l < |levels|
  {
    if l + 1 == |levels| then levels[l := []] + [[merged]] else levels[l := []][l + 1 := levels[l + 1] + [merged]]
  }

  lemma PushedHas(levels: seq<seq<Page>>, l: nat, merged: Page)
    requires l < |levels| && forall x :: In(merged, x) <==> HasLevel(levels[l], x)
    ensures forall x :: HasLevels(Pushed(levels, l, merged), x) <==> HasLevels(levels, x)
  {
    var cleared := levels[l := []];
    HasLevelsUpdate(levels, l, levels[l]);
    HasLevelsUpdate(levels, l, []);
    assert levels[l := levels[l]] == levels;
    assert forall x :: !HasLevel([], x);
    HasLevelOne(merged);
    if l + 1 == |levels| {
      HasLevelsConcat(cleared, [[merged]]);
      HasLevelsOne([merged]);
    } else {
      HasLevelConcat(levels[l + 1], [merged]);
      HasLevelsUpdate(cleared, l + 1, levels[l + 1]);
      HasLevelsUpdate(cleared, l + 1, levels[l + 1] + [merged]);
      assert cleared[l + 1 := levels[l + 1]] == cleared;
    }
  }

  /** Every level after `l`, up to the last one there can be, is full. */
  ghost predicate Overflows(levels: seq<seq<Page>>, l: nat) {
    |levels| == 10 && forall k :: l < k < 10 ==> |levels[k]| == N
  }

  /** As `Shape`, but level `l` has just been emptied. */
  ghost predicate ShapeBut(levels: seq<seq<Page>>, l: nat) {
    |levels| <= 10 && forall k :: 0 <= k < |levels| ==> LevelOk(levels[k]) && (levels[k] == [] <==> k == l)
  }

  /** The page has the ids of the level. */
  ghost predicate PageOf(page: Page, level: seq<Page>) {
    Normal(page) && forall x: nat :: In(page, x) <==> HasLevel(level, x)
  }

  /**
   Emptying level `l` carries, as counting does: full levels above it are emptied upwards as well, each into one page
   of the next, up to level `j`, which had room or did not exist and gets one page more.
   */
  ghost predicate Carried(before: seq<seq<Page>>, after: seq<seq<Page>>, l: nat, j: nat) {
    && l < j <= |before| && |after| == (if j == |before| then j + 1 else |before|)
    && (forall k :: 0 <= k < |after| && (k < l || k > j) ==> after[k] == before[k])
    && after[l] == []
    && (forall k :: l < k < j ==> |before[k]| == N && |after[k]| == 1 && PageOf(after[k][0], before[k - 1]))
    && (j < |before| ==> |before[j]| < N) && after[j] != [] && after[j][..|after[j]| - 1] == (if j < |before| then before[j] else [])
    && PageOf(after[j][|after[j]| - 1], before[j - 1])
  }

  /** Level `l` is emptied into level `l + 1`, which has room or is new, or has just been emptied itself. */
  lemma CarryOne(before: seq<seq<Page>>, mid: seq<seq<Page>>, after: seq<seq<Page>>, l: nat, j: nat, merged: Page)
    requires l < |before| && PageOf(merged, before[l])
    requires if mid == before then l + 1 == |before| || |before[l + 1]| < N else l + 1 < |before| && |before[l + 1]| == N && Carried(before, mid, l + 1, j)
    requires l < |mid| && after == Pushed(mid, l, merged)
    ensures Carried(before, after, l, if mid == before then l + 1 else j)
  {
    hide PageOf;
  }

  /** What recording makes of the levels. */
  ghost predicate Recorded(before: seq<seq<Page>>, after: seq<seq<Page>>, intervals: Page, allowOverlap: bool) {
    after != [] && if before == [] then after == [[intervals]]
    else if exists page: nat :: Chosen(before[0], intervals, allowOverlap, page) then
      exists page: nat :: Chosen(before[0], intervals, allowOverlap, page) && Extended(before, after, intervals, page)
    else if |before[0]| < N then after == before[0 := before[0] + [intervals]]
    else exists j: nat :: MadeRoom(before, after, intervals, j)
  }

  /** Level 0 was emptied and has the intervals alone. */
  ghost predicate MadeRoom(before: seq<seq<Page>>, after: seq<seq<Page>>, intervals: Page, j: nat) {
    after != [] && after[0] == [intervals] && Carried(before, after[0 := []], 0, j)
  }

  /** Only page `page` of level 0 changes, to the union. */
  ghost predicate Extended(before: seq<seq<Page>>, after: seq<seq<Page>>, intervals: Page, page: nat)
    requires before != [] && page < |before[0]|
  {
    && |after| == |before| && after[1..] == before[1..] && |after[0]| == |before[0]| && Normal(after[0][page])
    && (forall i :: 0 <= i < |before[0]| && i != page ==> after[0][i] == before[0][i])
    && (forall x: nat :: In(after[0][page], x) <==> In(before[0][page], x) || In(intervals, x))
  }

  class Completions {
    /** The main list exists. */
    var recorded: bool
    var main: Page
    var levels: seq<seq<Page>>

    constructor ()
      ensures Valid() && forall x :: !Has(x)
    {
      recorded, main, levels := false, [], [];
    }

    ghost predicate Valid()
      reads this
    {
      Normal(main) && Shape(levels) && (!recorded ==> main == [] && levels == [])
    }

    ghost predicate Has(x: nat)
      reads this
    {
      In(main, x) || HasLevels(levels, x)
    }

    /** Merges everything into the main list. */
    method CompactFull()
      requires Normal(main) && forall l :: 0 <= l < |levels| ==> levels[l] != [] && NormalPages(levels[l])
      modifies this`main, this`levels
      ensures Normal(main) && levels == [] && forall x :: Has(x) <==> old(Has(x))
    {
      var accumulator: Page := [];
      var i := 0;
      while i < |levels|
        invariant main == old(main) && levels == old(levels)
        invariant i <= |levels| && Normal(accumulator) && forall x :: In(accumulator, x) <==> HasLevels(levels[..i], x)
      {
        var ranges := levels[i];
        assert levels[..i + 1] == levels[..i] + [levels[i]];
        HasLevelsConcat(levels[..i], [levels[i]]);
        HasLevelsOne(levels[i]);
        if accumulator != [] {
          HasLevelConcat(ranges, [accumulator]);
          HasLevelOne(accumulator);
          ranges := ranges + [accumulator];
        } else {
          assert forall x :: !In(accumulator, x);
        }
        accumulator := MergeRanges(ranges);
        i := i + 1;
      }
      assert levels[..i] == levels;
      NormalIsDisjoint(main);
      NormalIsDisjoint(accumulator);
      main := Union(main, accumulator);
      levels := [];
    }

    /**
     Empties level `l` into the next one, making room there first.  If every level up to the last is full,
     the recursion ends in a full compaction that removes the levels its callers go on to use: then, and
     only then, the result is false.
     */
    method Compact(l: nat) returns (ok: bool, ghost j: nat)
      requires Normal(main) && Shape(levels) && l < |levels| && l <= 9
      modifies this`main, this`levels
      ensures ok <==> !old(Overflows(levels, l))
      ensures Normal(main) && forall x :: Has(x) <==> old(Has(x))
      ensures ok ==> main == old(main) && l < |levels| && ShapeBut(levels, l)
      ensures ok ==> l + 1 < |levels| && forall k :: 0 <= k < l ==> levels[k] == old(levels)[k]
      ensures ok ==> Carried(old(levels), levels, l, j)
      ensures !ok ==> levels == []
      decreases 10 - l
    {
      hide Carried, In, HasLevel;
      j := l + 1;
      if l > 8 {
        CompactFull();
        return false, j;
      }
      if l + 1 < |levels| && |levels[l + 1]| == N {
        ghost var before := levels;
        ok, j := Compact(l + 1);
        if !ok {
          return;
        }
        assert levels[l] == before[l];
      }
      ghost var mid := levels;
      var merged := MergeRanges(levels[l]);
      PushedHas(levels, l, merged);
      ghost var pushed := Pushed(levels, l, merged);
      levels := levels[l := []];
      if l + 1 == |levels| {
        levels := levels + [[]];
      }
      assert [] + [merged] == [merged];
      levels := levels[l + 1 := levels[l + 1] + [merged]];
      assert levels == pushed;
      CarryOne(old(levels), mid, levels, l, j, merged);
      ok := true;
    }

    /** Do the intervals meet a page of a level? */
    method MeetsLevel(level: seq<Page>, intervals: Page) returns (meets: bool)
      requires NormalPages(level) && Normal(intervals)
      ensures meets <==> exists x :: HasLevel(level, x) && In(intervals, x)
    {
      NormalIsDisjoint(intervals);
      var i := 0;
      while i < |level|
        invariant i <= |level| && !exists x :: HasLevel(level[..i], x) && In(intervals, x)
      {
        NormalIsDisjoint(level[i]);
        var o := FindOverlap(level[i], intervals);
        if o == Overlap {
          ghost var x :| In(level[i], x) && In(intervals, x);
          assert HasLevel(level, x);
          return true;
        }
        assert level[..i + 1] == level[..i] + [level[i]];
        HasLevelConcat(level[..i], [level[i]]);
        HasLevelOne(level[i]);
        i := i + 1;
      }
      assert level[..i] == level;
      return false;
    }

    /** Do the intervals meet a level above level 0? */
    method MeetsHigher(intervals: Page) returns (meets: bool)
      requires Shape(levels) && levels != [] && Normal(intervals)
      ensures meets <==> exists x :: HasLevels(levels[1..], x) && In(intervals, x)
    {
      var l := |levels|;
      assert levels[l..] == [];
      while l > 1
        invariant 1 <= l <= |levels| && !exists x :: HasLevels(levels[l..], x) && In(intervals, x)
      {
        l := l - 1;
        assert levels[l..] == [levels[l]] + levels[l + 1..];
        HasLevelsConcat([levels[l]], levels[l + 1..]);
        HasLevelsOne(levels[l]);
        var m := MeetsLevel(levels[l], intervals);
        if m {
          ghost var x :| HasLevel(levels[l], x) && In(intervals, x);
          assert levels[1..][l - 1] == levels[l];
          assert HasLevels(levels[1..], x);
          return true;
        }
      }
      return false;
    }

    /** Looks for overlap with level 0 and, on the way, for the first page with room, an adjacent one if there is one. */
    method FindRoom(intervals: Page) returns (meets: bool, page: Option<nat>)
      requires Shape(levels) && levels != [] && Normal(intervals)
      ensures meets <==> exists x :: HasLevel(levels[0], x) && In(intervals, x)
      ensures !meets && page.Some? ==> Chosen(levels[0], intervals, false, page.value)
      ensures !meets && page.None? ==> forall i :: 0 <= i < |levels[0]| ==> !Fits(levels[0][i], intervals)
    {
      NormalIsDisjoint(intervals);
      page := None;
      var foundAdjacent := false;
      var i := 0;
      while i < |levels[0]|
        invariant i <= |levels[0]| && !exists x :: HasLevel(levels[0][..i], x) && In(intervals, x)
        invariant if page.Some? then page.value < i && Chosen(levels[0][..i], intervals, false, page.value) && foundAdjacent == Touching(levels[0][page.value], intervals)
                  else !foundAdjacent && forall j :: 0 <= j < i ==> !Fits(levels[0][j], intervals)
      {
        var r := levels[0][i];
        NormalIsDisjoint(r);
        var o := FindOverlap(r, intervals);
        if o == Overlap {
          ghost var x :| In(r, x) && In(intervals, x);
          assert HasLevel(levels[0], x);
          return true, page;
        }
        if !foundAdjacent && (page.None? || o == Adjacent) {
          if |r| + |intervals| - (if o == Adjacent then 1 else 0) <= PageSize {
            page := Some(i);
            foundAdjacent := o == Adjacent;
          }
        }
        assert levels[0][..i + 1] == levels[0][..i] + [levels[0][i]];
        HasLevelConcat(levels[0][..i], [levels[0][i]]);
        HasLevelOne(levels[0][i]);
        i := i + 1;
      }
      assert levels[0][..i] == levels[0];
      meets := false;
    }

    /** When overlap is allowed: the first page with room. */
    method FindAnyRoom(intervals: Page) returns (page: Option<nat>)
      requires levels != []
      ensures page.Some? ==> Chosen(levels[0], intervals, true, page.value) && Fits(levels[0][page.value], intervals)
      ensures page.None? <==> forall i :: 0 <= i < |levels[0]| ==> !HasRoom(levels[0][i], intervals, true)
    {
      var i := 0;
      while i < |levels[0]|
        invariant i <= |levels[0]| && forall j :: 0 <= j < i ==> !HasRoom(levels[0][j], intervals, true)
      {
        if |levels[0][i]| + |intervals| <= PageSize {
          return Some(i);
        }
        i := i + 1;
      }
      return None;
    }

    /**
     Adds the intervals.  Where overlap is not allowed and there is some, says so and changes nothing.  An
     existing page is only extended if it then still fits its size.  `None` means that the compaction ran
     into full levels all the way up.
     */
    method Record(intervals: Page, allowOverlap: bool) returns (added: Option<bool>)
      requires Valid() && Normal(intervals)
      modifies this
      ensures added == Some(false) <==> !allowOverlap && old(recorded) && exists x :: old(Has(x)) && In(intervals, x)
      ensures added == Some(false) ==> main == old(main) && levels == old(levels) && recorded == old(recorded)
      ensures added == Some(true) ==> Valid() && recorded && forall x :: Has(x) <==> old(Has(x)) || In(intervals, x)
      ensures added == None ==> levels == [] && forall x :: Has(x) <==> old(Has(x))
      ensures added == None <==> added != Some(false) && old(levels != [] && |levels[0]| == N && Overflows(levels, 0))
                                 && forall i :: 0 <= i < |old(levels)[0]| ==> !HasRoom(old(levels)[0][i], intervals, allowOverlap)
      ensures added == Some(true) && !old(recorded) ==> main == intervals && levels == []
      ensures added == Some(true) && old(recorded) ==> main == old(main) && Recorded(old(levels), levels, intervals, allowOverlap)
      ensures added == Some(true) && levels != [] && old(levels != []) && |levels[0]| == |old(levels)[0]| ==>
                forall i :: 0 <= i < |levels[0]| ==> levels[0][i] == old(levels)[0][i] || |levels[0][i]| <= PageSize
    {
      hide Extended;
      if !recorded {
        main, recorded := intervals, true;
        return Some(true);
      }
      var page: Option<nat> := None;
      ghost var j: nat := 0;
      if !allowOverlap {
        var meets;
        meets, page := CheckOverlap(intervals);
        if meets {
          return Some(false);
        }
      } else if levels == [] {
        page := Some(0);
      } else {
        page := FindAnyRoom(intervals);
      }
      if page.None? {
        if |levels[0]| < N {
          page := Some(|levels[0]|);
        } else {
          var ok;
          ok, j := Compact(0);
          if !ok {
            return None;
          }
          page := Some(0);
        }
      }
      ghost var before := levels;
      WritePage(intervals, page.value);
      if before != old(levels) {
        assert levels[0 := []] == before;
        assert MadeRoom(old(levels), levels, intervals, j);
      }
      return Some(true);
    }

    /** Overlap with anything stored; if there is none, a page of level 0 with room, if there is one. */
    method CheckOverlap(intervals: Page) returns (meets: bool, page: Option<nat>)
      requires Valid() && Normal(intervals)
      ensures meets <==> exists x :: Has(x) && In(intervals, x)
      ensures !meets && page.Some? ==> if levels == [] then page.value == 0 else Chosen(levels[0], intervals, false, page.value)
      ensures !meets && page.None? ==> levels != [] && forall i :: 0 <= i < |levels[0]| ==> !Fits(levels[0][i], intervals)
    {
      NormalIsDisjoint(main);
      NormalIsDisjoint(intervals);
      page := None;
      var o := FindOverlap(main, intervals);
      if o == Overlap {
        return true, None;
      }
      if levels == [] {
        return false, Some(0);
      }
      assert levels == [levels[0]] + levels[1..];
      HasLevelsConcat([levels[0]], levels[1..]);
      HasLevelsOne(levels[0]);
      meets := MeetsHigher(intervals);
      if !meets {
        meets, page := FindRoom(intervals);
      }
    }

    /** What of the intervals is not stored. */
    method Subtract(intervals: Page) returns (ret: Page)
      requires Valid() && Normal(intervals)
      ensures Normal(ret) && forall x :: In(ret, x) <==> In(intervals, x) && !Has(x)
    {
      if !recorded {
        return intervals;
      }
      NormalIsDisjoint(intervals);
      NormalIsDisjoint(main);
      ret := Difference(intervals, main);
      var l := |levels|;
      assert levels[l..] == [];
      while l > 0
        invariant 0 <= l <= |levels| && Normal(ret)
        invariant forall x :: In(ret, x) <==> In(intervals, x) && !In(main, x) && !HasLevels(levels[l..], x)
      {
        l := l - 1;
        assert levels[l..] == [levels[l]] + levels[l + 1..];
        HasLevelsConcat([levels[l]], levels[l + 1..]);
        HasLevelsOne(levels[l]);
        ret := SubtractLevel(ret, levels[l]);
      }
      assert levels[0..] == levels;
    }

    /** What of the intervals is stored. */
    method Intersect(intervals: Page) returns (ret: Page)
      requires Valid() && Normal(intervals)
      ensures Normal(ret) && forall x :: In(ret, x) <==> In(intervals, x) && Has(x)
    {
      if !recorded {
        return [];
      }
      NormalIsDisjoint(intervals);
      NormalIsDisjoint(main);
      var first := Intersection(intervals, main);
      if levels == [] {
        return first;
      }
      var sources := [first];
      HasLevelOne(first);
      var l := |levels|;
      assert levels[l..] == [];
      while l > 0
        invariant 0 <= l <= |levels| && NormalPages(sources) && sources != []
        invariant forall x :: HasLevel(sources, x) <==> In(intervals, x) && (In(main, x) || HasLevels(levels[l..], x))
      {
        l := l - 1;
        assert levels[l..] == [levels[l]] + levels[l + 1..];
        HasLevelsConcat([levels[l]], levels[l + 1..]);
        HasLevelsOne(levels[l]);
        sources := IntersectLevel(intervals, levels[l], sources);
      }
      assert levels[0..] == levels;
      ret := MergeRanges(sources);
    }

    /** Compacts fully if there are more levels than tolerated. */
    method CompactCompletion(tolerated: nat) returns (compacted: bool)
      requires Valid()
      modifies this`main, this`levels
      ensures Valid() && forall x :: Has(x) <==> old(Has(x))
      ensures compacted <==> |old(levels)| > tolerated
      ensures |levels| <= tolerated
    {
      if !recorded || |levels| <= tolerated {
        return false;
      }
      CompactFull();
      return true;
    }

    /** Writes the intervals to page `page` of level 0, joining what is there. */
    method WritePage(intervals: Page, page: nat)
      requires Normal(main) && Normal(intervals) && recorded
      requires if levels == [] then page == 0 else |levels| <= 10 && page <= |levels[0]| && page < N && LevelOk(levels[0])
      requires levels != [] ==> Shape([[intervals]] + levels[1..])
      modifies this`levels
      ensures Valid() && forall x :: Has(x) <==> old(Has(x)) || In(intervals, x)
      ensures if old(levels) == [] then levels == [[intervals]]
              else if page < |old(levels)[0]| then Extended(old(levels), levels, intervals, page)
              else levels == old(levels)[0 := old(levels)[0] + [intervals]]
      ensures |levels| == if old(levels) == [] then 1 else |old(levels)|
      ensures |levels[0]| == if old(levels) == [] || page == |old(levels)[0]| then page + 1 else |old(levels)[0]|
      ensures old(levels) != [] ==> forall i :: 0 <= i < |old(levels)[0]| && i != page ==> levels[0][i] == old(levels)[0][i]
      ensures old(levels) != [] && page < |old(levels)[0]| && Fits(old(levels)[0][page], intervals) ==> |levels[0][page]| <= PageSize
    {
      if levels != [] && page < |levels[0]| {
        var existing := levels[0][page];
        NormalIsDisjoint(existing);
        NormalIsDisjoint(intervals);
        var union := Union(existing, intervals);
        UnionSize(existing, intervals, union);
        ReplacePage(levels, page, union, intervals);
        levels := levels[0 := levels[0][page := union]];
      } else if levels != [] {
        AppendPage(levels, intervals);
        levels := levels[0 := levels[0] + [intervals]];
      } else {
        HasLevelsOne([intervals]);
        HasLevelOne(intervals);
        levels := [[intervals]];
      }
    }
  }

  method SubtractLevel(intervals: Page, level: seq<Page>) returns (ret: Page)
    requires Normal(intervals) && NormalPages(level)
    ensures Normal(ret) && forall x :: In(ret, x) <==> In(intervals, x) && !HasLevel(level, x)
  {
    ret := intervals;
    var i := 0;
    while i < |level|
      invariant i <= |level| && Normal(ret) && forall x :: In(ret, x) <==> In(intervals, x) && !HasLevel(level[..i], x)
    {
      NormalIsDisjoint(ret);
      NormalIsDisjoint(level[i]);
      assert level[..i + 1] == level[..i] + [level[i]];
      HasLevelConcat(level[..i], [level[i]]);
      HasLevelOne(level[i]);
      ret := Difference(ret, level[i]);
      i := i + 1;
    }
    assert level[..i] == level;
  }

  method IntersectLevel(intervals: Page, level: seq<Page>, sources: seq<Page>) returns (ret: seq<Page>)
    requires Normal(intervals) && NormalPages(level) && NormalPages(sources)
    ensures NormalPages(ret) && |sources| <= |ret| && forall x :: HasLevel(ret, x) <==> HasLevel(sources, x) || (In(intervals, x) && HasLevel(level, x))
  {
    ret := sources;
    var i := 0;
    while i < |level|
      invariant i <= |level| && NormalPages(ret) && |sources| <= |ret|
      invariant forall x :: HasLevel(ret, x) <==> HasLevel(sources, x) || (In(intervals, x) && HasLevel(level[..i], x))
    {
      NormalIsDisjoint(intervals);
      NormalIsDisjoint(level[i]);
      var part := Intersection(intervals, level[i]);
      assert level[..i + 1] == level[..i] + [level[i]];
      HasLevelConcat(level[..i], [level[i]]);
      HasLevelOne(level[i]);
      HasLevelConcat(ret, [part]);
      HasLevelOne(part);
      ret := ret + [part];
      i := i + 1;
    }
    assert level[..i] == level;
  }

  /** There is room on the page for the intervals, counting one less when they touch. */
  ghost predicate Fits(page: Page, intervals: Page) {
    |page| + |intervals| <= PageSize || (Touching(page, intervals) && |page| + |intervals| - 1 <= PageSize)
  }

  /** The page would be chosen: where overlap is allowed nobody looks whether the intervals touch. */
  ghost predicate HasRoom(page: Page, intervals: Page, allowOverlap: bool) {
    if allowOverlap then |page| + |intervals| <= PageSize else Fits(page, intervals)
  }

  /** The page that is extended: the first with room, but one that touches the intervals is preferred if nobody may overlap. */
  ghost predicate Chosen(level: seq<Page>, intervals: Page, allowOverlap: bool, page: nat) {
    && page < |level| && HasRoom(level[page], intervals, allowOverlap)
    && forall j :: 0 <= j < |level| && HasRoom(level[j], intervals, allowOverlap) ==> Preferred(level, intervals, allowOverlap, page, j)
  }

  ghost predicate Preferred(level: seq<Page>, intervals: Page, allowOverlap: bool, page: nat, j: nat)
    requires page < |level| && j < |level|
  {
    if allowOverlap || Touching(level[page], intervals) == Touching(level[j], intervals) then page <= j else Touching(level[page], intervals)
  }

  lemma ReplacePage(levels: seq<seq<Page>>, page: nat, union: Page, intervals: Page)
    requires levels != [] && LevelOk(levels[0]) && page < |levels[0]| && Normal(union) && Shape([[intervals]] + levels[1..])
    requires forall x :: In(union, x) <==> In(levels[0][page], x) || In(intervals, x)
    ensures var after := levels[0 := levels[0][page := union]];
            Shape(after) && forall x :: HasLevels(after, x) <==> HasLevels(levels, x) || In(intervals, x)
  {
    var level, after := levels[0], levels[0 := levels[0][page := union]];
    ReplacedHas(level, page, union, intervals);
    HasLevelsUpdate(levels, 0, level);
    HasLevelsUpdate(levels, 0, level[page := union]);
    assert levels[0 := level] == levels;
    forall x ensures HasLevels(after, x) <==> HasLevels(levels, x) || In(intervals, x) {
      assert HasLevel(level[page := union], x) <==> HasLevel(level, x) || In(intervals, x);
    }
    forall l | 0 < l < |levels| ensures levels[l] != [] && LevelOk(levels[l]) {
      assert ([[intervals]] + levels[1..])[l] == levels[l];
    }
  }

  lemma ReplacedHas(level: seq<Page>, page: nat, union: Page, intervals: Page)
    requires page < |level| && forall x :: In(union, x) <==> In(level[page], x) || In(intervals, x)
    ensures forall x :: HasLevel(level[page := union], x) <==> HasLevel(level, x) || In(intervals, x)
  {
    var after := level[page := union];
    forall x ensures HasLevel(after, x) <==> HasLevel(level, x) || In(intervals, x) {
      assert In(after[page], x) <==> In(level[page], x) || In(intervals, x);
      if HasLevel(after, x) {
        var i :| 0 <= i < |after| && In(after[i], x);
        assert i != page ==> In(level[i], x);
      }
      if HasLevel(level, x) {
        var i :| 0 <= i < |level| && In(level[i], x);
        assert i != page ==> In(after[i], x);
      }
    }
  }

  lemma AppendPage(levels: seq<seq<Page>>, intervals: Page)
    requires levels != [] && LevelOk(levels[0]) && |levels[0]| < N && Normal(intervals) && Shape([[intervals]] + levels[1..])
    ensures var after := levels[0 := levels[0] + [intervals]];
            Shape(after) && forall x :: HasLevels(after, x) <==> HasLevels(levels, x) || In(intervals, x)
  {
    var level := levels[0];
    HasLevelConcat(level, [intervals]);
    HasLevelOne(intervals);
    HasLevelsUpdate(levels, 0, level);
    HasLevelsUpdate(levels, 0, level + [intervals]);
    var after := levels[0 := level + [intervals]];
    assert levels[0 := level] == levels;
    forall x ensures HasLevels(after, x) <==> HasLevels(levels, x) || In(intervals, x) {
      assert HasLevel(level + [intervals], x) <==> HasLevel(level, x) || HasLevel([intervals], x);
    }
    forall l | 0 < l < |levels| ensures levels[l] != [] && LevelOk(levels[l]) {
      assert ([[intervals]] + levels[1..])[l] == levels[l];
    }
  }

  // ---- A store that overflows.

  /** The `p`th full page: every other id from its own range. */
  function FullPage(p: nat): Page {
    seq(PageSize, j requires 0 <= j < PageSize => (2 * (p * PageSize + j), 2 * (p * PageSize + j) + 1))
  }

  /** A level full of full pages. */
  function FullLevel(l: nat): (level: seq<Page>)
    ensures |level| == N
  {
    seq(N, i requires 0 <= i < N => FullPage(l * N + i))
  }

  /** As many levels as there can be. */
  function FullLevels(): (levels: seq<seq<Page>>)
    ensures |levels| == 10 && forall l :: 0 <= l < 10 ==> levels[l] == FullLevel(l)
  {
    seq(10, l requires 0 <= l < 10 => FullLevel(l))
  }

  lemma FullPageIsNormal(p: nat)
    ensures Normal(FullPage(p)) && |FullPage(p)| == PageSize
    ensures forall x: nat :: In(FullPage(p), x) ==> 2 * p * PageSize <= x < 2 * (p + 1) * PageSize
  {
    var page := FullPage(p);
    assert forall j :: 0 <= j < PageSize ==> page[j] == (2 * (p * PageSize + j), 2 * (p * PageSize + j) + 1);
  }

  lemma FullLevelIsNormal(l: nat)
    requires l < 10
    ensures LevelOk(FullLevel(l)) && forall x: nat :: HasLevel(FullLevel(l), x) ==> x < 160 * PageSize
  {
    hide In, Normal, FullPage;
    forall i | 0 <= i < N ensures Normal(FullLevel(l)[i]) && forall x: nat :: In(FullLevel(l)[i], x) ==> x < 160 * PageSize {
      FullPageIsNormal(l * N + i);
      assert FullLevel(l)[i] == FullPage(l * N + i);
    }
  }

  /** Full levels are a valid shape and overflow. */
  lemma FullLevelsOverflow()
    ensures Shape(FullLevels()) && Overflows(FullLevels(), 0)
    ensures forall x: nat :: HasLevels(FullLevels(), x) ==> x < 160 * PageSize
  {
    hide LevelOk, HasLevel, FullLevel, FullLevels;
    forall l | 0 <= l < 10 ensures LevelOk(FullLevels()[l]) && forall x: nat :: HasLevel(FullLevels()[l], x) ==> x < 160 * PageSize {
      FullLevelIsNormal(l);
    }
  }

  /** In a store with full levels new ids, which nothing overlaps, are not recorded. */
  method RecordInFullStore() returns (added: Option<bool>)
    ensures added == None
  {
    hide LevelOk, HasLevel, HasLevels, FullLevel, FullLevels, FullPage;
    var c := new Completions();
    FullLevelsOverflow();
    c.recorded, c.main, c.levels := true, [], FullLevels();
    assert c.Valid();
    var far: nat := 160 * PageSize;
    var intervals: Page := [(far, far + 1), (far + 2, far + 3)];
    assert forall x: nat :: In(intervals, x) ==> x >= far;
    forall x: nat | c.Has(x) ensures !In(intervals, x) {
      assert HasLevels(FullLevels(), x);
    }
    FullOfPages();
    added := c.Record(intervals, false);
  }

  lemma FullOfPages()
    ensures forall i :: 0 <= i < N ==> |FullLevels()[0][i]| == PageSize
  {
    forall i | 0 <= i < N ensures |FullLevels()[0][i]| == PageSize {
      assert FullLevel(0)[i] == FullPage(0 * N + i);
    }
  }
}
