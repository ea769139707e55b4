/** Numbering gadget states. */
module GadgetNumbering {
  // Passages are met in order; each mentions the state it starts from and then the one it ends in.  States are
  // numbered as they are mentioned first.

  import opened Options
  import opened SeqFacts
  import opened EdgeEnumeration

  /** Two steps: in at location `from`, out at location `to`. */
  datatype Passage = Passage(start: nat, from: nat, to: nat, end: nat)

  ghost predicate Through(D: Dfa, q: Passage, middle: nat) {
    D.Goes(q.start, q.from, middle) && D.Goes(middle, q.to, q.end)
  }

  ghost predicate IsPassage(D: Dfa, q: Passage) {
    q.start < |D.accept| && D.accept[q.start] && exists middle: nat :: Through(D, q, middle)
  }

  /** The symbols that occur, each once. */
  ghost predicate IsActive(D: Dfa, active: seq<nat>) {
    Distinct(active) && (forall x :: x in active ==> x < D.symbols) && (forall s: nat, x: nat, t: nat :: D.Goes(s, x, t) ==> x in active)
  }

  ghost function Accepting(D: Dfa): set<nat> {
    set s | 0 <= s < |D.accept| && D.accept[s]
  }

  /** Accepting states are numbered from 0 on as they are met. */
  ghost predicate NumbersFit(D: Dfa, numbers: map<nat, nat>) {
    && numbers.Keys <= Accepting(D)
    && (forall s :: s in numbers ==> numbers[s] < |numbers|)
    && (forall s, t :: s in numbers && t in numbers && numbers[s] == numbers[t] ==> s == t)
  }

  // ---- The order in which states are mentioned.

  /** The passage from `start` in at the `i`th and out at the `j`th symbol; it mentions its start and then its end. */
  datatype Place = Place(start: nat, i: nat, j: nat, second: bool)

  ghost predicate Before(p: Place, q: Place) {
    || p.start < q.start
    || (p.start == q.start && (p.i < q.i || (p.i == q.i && (p.j < q.j || (p.j == q.j && !p.second && q.second)))))
  }

  lemma BeforeIsOrder()
    ensures forall p, q, r :: Before(p, q) && Before(q, r) ==> Before(p, r)
    ensures forall p :: !Before(p, p)
  {
  }

  /** State `x` is mentioned at `p`. */
  ghost predicate Mentions(D: Dfa, active: seq<nat>, x: nat, p: Place) {
    p.i < |active| && p.j < |active| && exists q :: PassageAt(D, active, q, p) && x == if p.second then q.end else q.start
  }

  ghost predicate PassageAt(D: Dfa, active: seq<nat>, q: Passage, p: Place)
    requires p.i < |active| && p.j < |active|
  {
    IsPassage(D, q) && q.start == p.start && q.from == active[p.i] && q.to == active[p.j]
  }

  /** A place mentions one state at most. */
  lemma OneMention(D: Dfa, active: seq<nat>, x: nat, y: nat, p: Place)
    requires Mentions(D, active, x, p) && Mentions(D, active, y, p)
    ensures x == y
  {
    var q :| PassageAt(D, active, q, p) && x == if p.second then q.end else q.start;
    var r :| PassageAt(D, active, r, p) && y == if p.second then r.end else r.start;
    var m: nat :| Through(D, q, m);
    var n: nat :| Through(D, r, n);
    assert m == n && q.end == r.end;
  }

  /** `x` is mentioned before `y` is mentioned for the first time. */
  ghost predicate Sooner(D: Dfa, active: seq<nat>, x: nat, y: nat) {
    exists p :: Mentions(D, active, x, p) && forall q :: Mentions(D, active, y, q) ==> Before(p, q)
  }

  ghost predicate Mentioned(D: Dfa, active: seq<nat>, x: nat) {
    exists p :: Mentions(D, active, x, p)
  }

  /** The states that are mentioned are numbered, the sooner the smaller. */
  ghost predicate InOrder(D: Dfa, active: seq<nat>, numbers: map<nat, nat>) {
    && (forall x: nat :: x in numbers <==> Mentioned(D, active, x))
    && (forall x: nat, y: nat :: x in numbers && y in numbers ==> (numbers[x] < numbers[y] <==> Sooner(D, active, x, y)))
  }

  /** A state is mentioned exactly if a passage starts or ends there. */
  lemma MentionedIffOnPassage(D: Dfa, active: seq<nat>, x: nat)
    requires D.Valid() && IsActive(D, active)
    ensures Mentioned(D, active, x) <==> exists q :: IsPassage(D, q) && (q.start == x || q.end == x)
  {
    if q :| IsPassage(D, q) && (q.start == x || q.end == x) {
      var p := PlaceOf(D, active, q, q.start != x);
      assert Mentions(D, active, x, p);
    }
    if Mentioned(D, active, x) {
      var p :| Mentions(D, active, x, p);
      var q :| PassageAt(D, active, q, p) && x == if p.second then q.end else q.start;
    }
  }

  lemma PlaceOf(D: Dfa, active: seq<nat>, q: Passage, second: bool) returns (p: Place)
    requires IsActive(D, active) && IsPassage(D, q)
    ensures p.start == q.start && p.second == second && p.i < |active| && p.j < |active| && PassageAt(D, active, q, p)
  {
    var m: nat :| Through(D, q, m);
    assert q.from in active && q.to in active;
    var i :| 0 <= i < |active| && active[i] == q.from;
    var j :| 0 <= j < |active| && active[j] == q.to;
    p := Place(q.start, i, j, second);
  }

  /** So a state's number is the number of states that are mentioned sooner. */
  lemma NumberIsCount(D: Dfa, active: seq<nat>, numbers: map<nat, nat>, x: nat)
    requires NumbersFit(D, numbers) && InOrder(D, active, numbers) && x in numbers
    ensures numbers[x] == |set y | y in numbers && Sooner(D, active, y, x)|
  {
    var sooner := set y | y in numbers && Sooner(D, active, y, x);
    var smaller := map y | y in numbers && numbers[y] < numbers[x] :: numbers[y];
    assert smaller.Keys == sooner;
    InjectiveValues(smaller);
    forall n: nat ensures n in smaller.Values <==> n < numbers[x] {
      if n < numbers[x] {
        EveryNumber(numbers, n);
        var y: nat :| y in numbers && numbers[y] == n;
        assert smaller[y] == n;
      }
    }
    AllBelow(smaller.Values, numbers[x]);
  }

  lemma EveryNumber(numbers: map<nat, nat>, n: nat)
    requires forall s :: s in numbers ==> numbers[s] < |numbers|
    requires forall s, t :: s in numbers && t in numbers && numbers[s] == numbers[t] ==> s == t
    requires n < |numbers|
    ensures exists y: nat :: y in numbers && numbers[y] == n
  {
    InjectiveValues(numbers);
    if n !in numbers.Values {
      BoundedByOthers(numbers.Values, |numbers|, n);
    }
  }

  lemma BoundedByOthers(s: set<nat>, k: nat, n: nat)
    requires n < k && n !in s && forall x :: x in s ==> x < k
    ensures |s| < k
  {
    BoundedSetSize(s + {n}, k);
  }

  /** The order leaves no choice. */
  lemma OneNumbering(D: Dfa, active: seq<nat>, m: map<nat, nat>, n: map<nat, nat>)
    requires NumbersFit(D, m) && NumbersFit(D, n) && InOrder(D, active, m) && InOrder(D, active, n)
    ensures m == n
  {
    assert m.Keys == n.Keys;
    forall x | x in m ensures m[x] == n[x] {
      NumberIsCount(D, active, m, x);
      NumberIsCount(D, active, n, x);
      assert (set y | y in m && Sooner(D, active, y, x)) == set y | y in n && Sooner(D, active, y, x);
    }
  }

  /** If a passage starts at the initial state, that is state 0 of the gadget. */
  lemma InitialIsFirst(D: Dfa, active: seq<nat>, numbers: map<nat, nat>, q: Passage)
    requires D.Valid() && IsActive(D, active) && NumbersFit(D, numbers) && InOrder(D, active, numbers) && IsPassage(D, q) && q.start == 0
    ensures 0 in numbers && numbers[0] == 0
  {
    var p0 := PlaceOf(D, active, q, false);
    var zero: nat := 0;
    assert Mentions(D, active, zero, p0);
    assert Mentioned(D, active, zero);
    NumberIsCount(D, active, numbers, zero);
    forall y: nat ensures !Sooner(D, active, y, zero) {
      forall p | Mentions(D, active, y, p) ensures exists r :: Mentions(D, active, zero, r) && !Before(p, r) {
        NothingSooner(D, active, y, p, p0);
      }
    }
    assert (set y | y in numbers && Sooner(D, active, y, zero)) == {};
  }

  lemma NothingSooner(D: Dfa, active: seq<nat>, y: nat, p: Place, p0: Place)
    requires Mentions(D, active, 0, p0) && Mentions(D, active, y, p) && p0.start == 0
    ensures exists r :: Mentions(D, active, 0, r) && !Before(p, r)
  {
    var zero: nat := 0;
    if Before(p, p0) {
      var r :| PassageAt(D, active, r, p) && y == if p.second then r.end else r.start;
      var first := p.(second := false);
      assert PassageAt(D, active, r, first) && Mentions(D, active, zero, first);
    } else {
      assert Mentions(D, active, zero, p0);
    }
  }

  // ---- Numbering as the passages are met.

  /** `p` is the first place where `x` is mentioned. */
  ghost predicate FirstAt(D: Dfa, active: seq<nat>, x: nat, p: Place) {
    Mentions(D, active, x, p) && forall q :: Mentions(D, active, x, q) ==> !Before(q, p)
  }

  ghost predicate SameOrder(numbers: map<nat, nat>, met: map<nat, Place>) {
    && met.Keys == numbers.Keys
    && forall x: nat, y: nat :: x in met && y in met ==> (numbers[x] < numbers[y] <==> Before(met[x], met[y]))
  }

  ghost predicate AllNumbered(D: Dfa, active: seq<nat>, numbers: map<nat, nat>, at: Place) {
    forall x: nat, p :: Mentions(D, active, x, p) && Before(p, at) ==> x in numbers
  }

  /** Everything mentioned before `at` has been numbered; `met` says where first. */
  ghost predicate Meeting(D: Dfa, active: seq<nat>, numbers: map<nat, nat>, met: map<nat, Place>, at: Place) {
    && SameOrder(numbers, met) && AllNumbered(D, active, numbers, at)
    && forall x: nat :: x in met ==> FirstAt(D, active, x, met[x]) && Before(met[x], at)
  }

  lemma NothingMet(D: Dfa, active: seq<nat>)
    ensures Meeting(D, active, map[], map[], Place(0, 0, 0, false))
  {
  }

  /** Where nothing new is mentioned. */
  lemma NothingBetween(D: Dfa, active: seq<nat>, numbers: map<nat, nat>, met: map<nat, Place>, at: Place, next: Place)
    requires Meeting(D, active, numbers, met, at) && (at == next || Before(at, next))
    requires forall x: nat, p :: Mentions(D, active, x, p) && Before(p, next) ==> Before(p, at)
    ensures Meeting(D, active, numbers, met, next)
  {
  }

  /** A state mentioned at `at` that has a number. */
  lemma MetBefore(D: Dfa, active: seq<nat>, numbers: map<nat, nat>, met: map<nat, Place>, at: Place, next: Place, x: nat)
    requires Meeting(D, active, numbers, met, at) && Mentions(D, active, x, at) && Before(at, next) && x in numbers
    requires forall p :: Before(p, next) ==> Before(p, at) || p == at
    ensures Meeting(D, active, numbers, met, next)
  {
    OneMoreNumbered(D, active, numbers, at, next, x);
    BeforeIsOrder();
    hide Mentions, Before, FirstAt, AllNumbered;
  }

  /** One that has none is given the next. */
  lemma MetFirst(D: Dfa, active: seq<nat>, numbers: map<nat, nat>, met: map<nat, Place>, at: Place, next: Place, x: nat)
    requires NumbersFit(D, numbers) && Meeting(D, active, numbers, met, at) && Mentions(D, active, x, at) && Before(at, next) && x !in numbers
    requires forall p :: Before(p, next) ==> Before(p, at) || p == at
    ensures Meeting(D, active, numbers[x := |numbers|], met[x := at], next)
  {
    var now, first := numbers[x := |numbers|], met[x := at];
    BeforeIsOrder();
    FirstMention(D, active, numbers, x, at);
    AppendOrder(D, numbers, met, at, x);
    OneMoreNumbered(D, active, numbers, at, next, x);
    hide Mentions, Before, FirstAt, SameOrder, AllNumbered;
    forall y: nat | y in first ensures FirstAt(D, active, y, first[y]) && Before(first[y], next) {
      assert y != x ==> Before(met[y], at);
    }
  }

  lemma FirstMention(D: Dfa, active: seq<nat>, numbers: map<nat, nat>, x: nat, at: Place)
    requires AllNumbered(D, active, numbers, at) && Mentions(D, active, x, at) && x !in numbers
    ensures FirstAt(D, active, x, at)
  {
    hide Mentions, Before;
  }

  lemma AppendOrder(D: Dfa, numbers: map<nat, nat>, met: map<nat, Place>, at: Place, x: nat)
    requires NumbersFit(D, numbers) && SameOrder(numbers, met) && x !in numbers && forall y: nat :: y in met ==> Before(met[y], at)
    ensures SameOrder(numbers[x := |numbers|], met[x := at])
  {
    BeforeIsOrder();
    hide Before;
    var now, first := numbers[x := |numbers|], met[x := at];
    forall y: nat, z: nat | y in first && z in first ensures now[y] < now[z] <==> Before(first[y], first[z]) {
      assert y != x ==> numbers[y] < |numbers|;
      assert z != x ==> numbers[z] < |numbers|;
    }
  }

  lemma OneMoreNumbered(D: Dfa, active: seq<nat>, numbers: map<nat, nat>, at: Place, next: Place, x: nat)
    requires AllNumbered(D, active, numbers, at) && Mentions(D, active, x, at)
    requires forall p :: Before(p, next) ==> Before(p, at) || p == at
    ensures AllNumbered(D, active, numbers[x := |numbers|], next) && (x in numbers ==> AllNumbered(D, active, numbers, next))
  {
    forall y: nat, p | Mentions(D, active, y, p) && Before(p, next) ensures y in numbers || y == x {
      if p == at {
        OneMention(D, active, x, y, p);
      }
    }
    hide Mentions, Before;
  }

  /** No way out at the `j`th symbol. */
  lemma SkipWay(D: Dfa, active: seq<nat>, numbers: map<nat, nat>, met: map<nat, Place>, start: nat, i: nat, j: nat, middle: nat)
    requires Meeting(D, active, numbers, met, Place(start, i, j, false)) && i < |active| && j < |active| && D.Goes(start, active[i], middle)
    requires forall end: nat :: !D.Goes(middle, active[j], end)
    ensures Meeting(D, active, numbers, met, Place(start, i, j + 1, false))
  {
    forall x: nat, p | Mentions(D, active, x, p) && Before(p, Place(start, i, j + 1, false)) ensures Before(p, Place(start, i, j, false)) {
      var q :| PassageAt(D, active, q, p) && x == if p.second then q.end else q.start;
      var m: nat :| Through(D, q, m);
      assert p.start == start && p.i == i ==> m == middle;
    }
    hide Mentions, Meeting;
    NothingBetween(D, active, numbers, met, Place(start, i, j, false), Place(start, i, j + 1, false));
  }

  /** All ways out have been looked at, or there is no way in at the `i`th symbol. */
  lemma NextWayIn(D: Dfa, active: seq<nat>, numbers: map<nat, nat>, met: map<nat, Place>, start: nat, i: nat, j: nat)
    requires Meeting(D, active, numbers, met, Place(start, i, j, false)) && i < |active|
    requires j >= |active| || forall middle: nat :: !D.Goes(start, active[i], middle)
    ensures Meeting(D, active, numbers, met, Place(start, i + 1, 0, false))
  {
    forall x: nat, p | Mentions(D, active, x, p) && Before(p, Place(start, i + 1, 0, false)) ensures Before(p, Place(start, i, j, false)) {
      var q :| PassageAt(D, active, q, p) && x == if p.second then q.end else q.start;
      var m: nat :| Through(D, q, m);
    }
    hide Mentions, Meeting;
    NothingBetween(D, active, numbers, met, Place(start, i, j, false), Place(start, i + 1, 0, false));
  }

  /** All ways in have been looked at, or the state rejects. */
  lemma NextStart(D: Dfa, active: seq<nat>, numbers: map<nat, nat>, met: map<nat, Place>, start: nat, i: nat)
    requires Meeting(D, active, numbers, met, Place(start, i, 0, false)) && start < |D.accept|
    requires i >= |active| || !D.accept[start]
    ensures Meeting(D, active, numbers, met, Place(start + 1, 0, 0, false))
  {
    forall x: nat, p | Mentions(D, active, x, p) && Before(p, Place(start + 1, 0, 0, false)) ensures Before(p, Place(start, i, 0, false)) {
    }
    hide Mentions, Meeting;
    NothingBetween(D, active, numbers, met, Place(start, i, 0, false), Place(start + 1, 0, 0, false));
  }

  /** When all places have been passed. */
  lemma AllMet(D: Dfa, active: seq<nat>, numbers: map<nat, nat>, met: map<nat, Place>, at: Place)
    requires Meeting(D, active, numbers, met, at) && at.start >= |D.accept|
    ensures InOrder(D, active, numbers)
  {
    forall x: nat, p | Mentions(D, active, x, p) ensures Before(p, at) {
    }
    forall x: nat, y: nat | x in numbers && y in numbers ensures numbers[x] < numbers[y] <==> Sooner(D, active, x, y) {
      if Before(met[x], met[y]) {
        forall q | Mentions(D, active, y, q) ensures Before(met[x], q) {
          assert !Before(q, met[y]);
        }
      }
      if Sooner(D, active, x, y) {
        var p :| Mentions(D, active, x, p) && forall q :: Mentions(D, active, y, q) ==> Before(p, q);
        assert Before(p, met[y]) && !Before(p, met[x]);
      }
    }
    forall x: nat ensures x in numbers <==> Mentioned(D, active, x) {
    }
  }
}
