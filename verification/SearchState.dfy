/** The ids a search has met: the closed set, the current subgeneration and generation, and the previous subgeneration. */
module SearchStates {
  import opened SeqFacts
  import opened Intervals

  /** The four interval lists as sets of ids. */
  datatype Ids = Ids(closed: set<nat>, subgen: set<nat>, curgen: set<nat>, prevSubgen: set<nat>) {

    /** Meets ids: those not closed join the subgeneration. */
    ghost function Add(ids: set<nat>): Ids {
      this.(subgen := subgen + (ids - closed))
    }

    /** Removes ids from the subgeneration but keeps them closed. */
    ghost function Erase(ids: set<nat>): Ids {
      this.(closed := closed + ids, subgen := subgen - ids)
    }

    ghost function FlipGeneration(): (Ids, set<nat>) {
      (this.(curgen := {}, subgen := {}), curgen + subgen)
    }

    ghost function FlipSubgeneration(): Ids {
      Ids(closed + subgen, {}, curgen + subgen, subgen)
    }

    ghost function Known(): set<nat> {
      closed + subgen
    }
  }

  ghost function Range(lo: nat, hi: nat): (r: set<nat>)
    ensures forall x: nat :: x in r <==> lo <= x < hi
    decreases hi - lo
  {
    if lo >= hi then {} else {lo} + Range(lo + 1, hi)
  }

  /** The ids an interval list stands for. */
  ghost function Points(list: seq<Interval>): (r: set<nat>)
    ensures forall x: nat :: x in r <==> In(list, x)
  {
    if list == [] then {}
    else
      InHead(list);
      Range(list[0].0, list[0].1) + Points(list[1..])
  }

  lemma NothingIn()
    ensures Points([]) == {} && Normal([])
  {
  }

  method UnionOf(a: seq<Interval>, b: seq<Interval>) returns (r: seq<Interval>)
    requires Normal(a) && Normal(b)
    ensures Normal(r) && Points(r) == Points(a) + Points(b)
  {
    NormalIsDisjoint(a);
    NormalIsDisjoint(b);
    r := Union(a, b);
    hide Normal, In;
  }

  method DifferenceOf(a: seq<Interval>, b: seq<Interval>) returns (r: seq<Interval>)
    requires Normal(a) && Normal(b)
    ensures Normal(r) && Points(r) == Points(a) - Points(b)
  {
    NormalIsDisjoint(a);
    NormalIsDisjoint(b);
    r := Difference(a, b);
    hide Normal, In;
  }

  class SearchState {
    var closed: seq<Interval>
    var subgen: seq<Interval>
    var curgen: seq<Interval>
    var prevSubgen: seq<Interval>

    constructor ()
      ensures Valid() && View() == Ids({}, {}, {}, {})
    {
      closed, subgen, curgen, prevSubgen := [], [], [], [];
    }

    ghost predicate Valid()
      reads this
    {
      Normal(closed) && Normal(subgen) && Normal(curgen) && Normal(prevSubgen)
    }

    ghost function View(): Ids
      reads this
    {
      Ids(Points(closed), Points(subgen), Points(curgen), Points(prevSubgen))
    }

    method Add(ids: seq<Interval>)
      requires Valid() && Normal(ids)
      modifies this`subgen
      ensures Valid() && View() == old(View()).Add(Points(ids))
    {
      hide Points, Normal;
      var novel := DifferenceOf(ids, closed);
      subgen := UnionOf(subgen, novel);
    }

    method EraseFromSubgeneration(erased: seq<Interval>)
      requires Valid() && Normal(erased) && Points(erased) <= Points(subgen)
      modifies this`closed, this`subgen
      ensures Valid() && View() == old(View()).Erase(Points(erased))
    {
      hide Points, Normal;
      closed := UnionOf(closed, erased);
      subgen := DifferenceOf(subgen, erased);
    }

    method FlipGeneration() returns (prev: seq<Interval>)
      requires Valid()
      modifies this`curgen, this`subgen
      ensures Valid() && Normal(prev) && (View(), Points(prev)) == old(View()).FlipGeneration()
    {
      NothingIn();
      hide Points, Normal;
      curgen := UnionOf(curgen, subgen);
      prev := curgen;
      curgen := [];
      subgen := [];
    }

    method FlipSubgeneration()
      requires Valid()
      modifies this
      ensures Valid() && View() == old(View()).FlipSubgeneration()
    {
      NothingIn();
      hide Points, Normal;
      closed := UnionOf(closed, subgen);
      curgen := UnionOf(curgen, subgen);
      prevSubgen := subgen;
      subgen := [];
    }
  }
}
