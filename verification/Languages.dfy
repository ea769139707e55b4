/** Languages as possibly infinite sets of words, and the operations regular expressions denote. */
module Languages {
  import opened Automata

  type Word = seq<nat>
  type Lang = iset<Word>

  ghost predicate Splits(a: Lang, b: Lang, w: Word, k: nat) {
    k <= |w| && w[..k] in a && w[k..] in b
  }

  ghost function Concat(a: Lang, b: Lang): Lang {
    iset w: Word | Splittable(a, b, w)
  }

  ghost predicate Splittable(a: Lang, b: Lang, w: Word) {
    exists k: nat :: Splits(a, b, w, k)
  }

  ghost function Epsilon(): Lang {
    iset{[]}
  }

  ghost function Power(l: Lang, n: nat): Lang {
    if n == 0 then Epsilon() else Concat(l, Power(l, n - 1))
  }

  /** Between `min` and `max` words, or at least `min` if there is no upper bound. */
  ghost function Repeated(l: Lang, min: nat, bounded: bool, max: nat): Lang {
    iset w: Word | Repeats(l, min, bounded, max, w)
  }

  ghost predicate Repeats(l: Lang, min: nat, bounded: bool, max: nat, w: Word) {
    exists n: nat :: InRepeat(l, min, bounded, max, n, w)
  }

  ghost predicate InRepeat(l: Lang, min: nat, bounded: bool, max: nat, n: nat, w: Word) {
    min <= n && (bounded ==> n <= max) && w in Power(l, n)
  }

  ghost function Star(l: Lang): Lang {
    Repeated(l, 0, false, 0)
  }

  lemma InConcat(a: Lang, b: Lang, u: Word, v: Word)
    requires u in a && v in b
    ensures u + v in Concat(a, b)
  {
    var w := u + v;
    assert w[..|u|] == u && w[|u|..] == v;
    assert Splits(a, b, w, |u|);
  }

  lemma SplitOf(a: Lang, b: Lang, w: Word) returns (u: Word, v: Word)
    requires w in Concat(a, b)
    ensures u in a && v in b && w == u + v
  {
    var k: nat :| Splits(a, b, w, k);
    u, v := w[..k], w[k..];
  }

  lemma ConcatAssociative(a: Lang, b: Lang, c: Lang)
    ensures Concat(Concat(a, b), c) == Concat(a, Concat(b, c))
  {
    forall w: Word ensures w in Concat(Concat(a, b), c) <==> w in Concat(a, Concat(b, c)) {
      if w in Concat(Concat(a, b), c) {
        var uv, x := SplitOf(Concat(a, b), c, w);
        var u, v := SplitOf(a, b, uv);
        InConcat(b, c, v, x);
        InConcat(a, Concat(b, c), u, v + x);
        assert w == u + (v + x);
      }
      if w in Concat(a, Concat(b, c)) {
        var u, vx := SplitOf(a, Concat(b, c), w);
        var v, x := SplitOf(b, c, vx);
        InConcat(a, b, u, v);
        InConcat(Concat(a, b), c, u + v, x);
        assert w == (u + v) + x;
      }
    }
  }

  lemma ConcatEpsilon(a: Lang)
    ensures Concat(a, Epsilon()) == a && Concat(Epsilon(), a) == a
  {
    hide Concat;
    forall w: Word ensures w in Concat(a, Epsilon()) <==> w in a {
      if w in Concat(a, Epsilon()) {
        var u, v := SplitOf(a, Epsilon(), w);
        assert w == u;
      }
      if w in a {
        InConcat(a, Epsilon(), w, []);
        assert w + [] == w;
      }
    }
    forall w: Word ensures w in Concat(Epsilon(), a) <==> w in a {
      if w in Concat(Epsilon(), a) {
        var u, v := SplitOf(Epsilon(), a, w);
        assert w == v;
      }
      if w in a {
        InConcat(Epsilon(), a, [], w);
        assert [] + w == w;
      }
    }
  }

  lemma PowerOne(l: Lang)
    ensures Power(l, 1) == l
  {
    ConcatEpsilon(l);
    assert Power(l, 1) == Concat(l, Power(l, 0));
  }

  /** m words, then n more. */
  lemma {:induction false} PowerAdds(l: Lang, m: nat, n: nat)
    ensures Concat(Power(l, m), Power(l, n)) == Power(l, m + n)
  {
    if m == 0 {
      ConcatEpsilon(Power(l, n));
    } else {
      ConcatAssociative(l, Power(l, m - 1), Power(l, n));
      PowerAdds(l, m - 1, n);
    }
  }

  lemma PowerSnoc(l: Lang, n: nat)
    ensures Power(l, n + 1) == Concat(Power(l, n), l)
  {
    hide Concat, Power;
    PowerAdds(l, n, 1);
    PowerOne(l);
  }

  lemma InPower(l: Lang, m: nat, n: nat, u: Word, v: Word)
    requires u in Power(l, m) && v in Power(l, n)
    ensures u + v in Power(l, m + n)
  {
    InConcat(Power(l, m), Power(l, n), u, v);
    PowerAdds(l, m, n);
  }

  lemma {:induction false} PowerMono(a: Lang, b: Lang, n: nat)
    requires a <= b
    ensures Power(a, n) <= Power(b, n)
  {
    if n > 0 {
      PowerMono(a, b, n - 1);
      forall w | w in Power(a, n) ensures w in Power(b, n) {
        var u, v := SplitOf(a, Power(a, n - 1), w);
        InConcat(b, Power(b, n - 1), u, v);
      }
    }
  }

  /** Powers of powers. */
  lemma {:induction false} PowerOfRange(l: Lang, min: nat, max: nat, n: nat)
    requires min <= max
    ensures Power(Repeated(l, min, true, max), n) == Repeated(l, n * min, true, n * max)
  {
    var r := Repeated(l, min, true, max);
    if n == 0 {
      forall w: Word ensures w in Power(r, 0) <==> w in Repeated(l, 0, true, 0) {
        if w == [] {
          assert InRepeat(l, 0, true, 0, 0, w);
        }
        if w in Repeated(l, 0, true, 0) {
          var k: nat :| InRepeat(l, 0, true, 0, k, w);
          assert w in Power(l, 0);
        }
      }
    } else {
      PowerOfRange(l, min, max, n - 1);
      Bounds(min, max, n);
      var lo: nat, hi: nat := (n - 1) * min, (n - 1) * max;
      forall w: Word ensures w in Power(r, n) <==> w in Repeated(l, min + lo, true, max + hi) {
        RangesJoin(l, min, max, lo, hi, w);
      }
    }
  }

  /** Between `min` and `max` words and then between `lo` and `hi` more. */
  lemma RangesJoin(l: Lang, min: nat, max: nat, lo: nat, hi: nat, w: Word)
    requires min <= max && lo <= hi
    ensures w in Concat(Repeated(l, min, true, max), Repeated(l, lo, true, hi)) <==> w in Repeated(l, min + lo, true, max + hi)
  {
    hide Concat, Power;
    if w in Concat(Repeated(l, min, true, max), Repeated(l, lo, true, hi)) {
      var u, v := SplitOf(Repeated(l, min, true, max), Repeated(l, lo, true, hi), w);
      var i: nat :| InRepeat(l, min, true, max, i, u);
      var j: nat :| InRepeat(l, lo, true, hi, j, v);
      InPower(l, i, j, u, v);
      assert InRepeat(l, min + lo, true, max + hi, i + j, w);
    }
    if w in Repeated(l, min + lo, true, max + hi) {
      var k: nat :| InRepeat(l, min + lo, true, max + hi, k, w);
      var i: nat := if k - hi > min then k - hi else min;
      PowerAdds(l, i, k - i);
      var u, v := SplitOf(Power(l, i), Power(l, k - i), w);
      assert InRepeat(l, min, true, max, i, u) && InRepeat(l, lo, true, hi, k - i, v);
      InConcat(Repeated(l, min, true, max), Repeated(l, lo, true, hi), u, v);
    }
  }

  lemma Bounds(min: nat, max: nat, n: nat)
    requires min <= max && n > 0
    ensures n * min == min + (n - 1) * min && n * max == max + (n - 1) * max && (n - 1) * min <= (n - 1) * max
  {
    var m: nat := n - 1;
    assert n * min == (m + 1) * min == m * min + min;
    assert n * max == (m + 1) * max == m * max + max;
    assert m * max == m * min + m * (max - min);
  }

  lemma ExactlyPower(l: Lang, k: nat)
    ensures Repeated(l, k, true, k) == Power(l, k)
  {
    hide Power;
    forall w: Word ensures w in Repeated(l, k, true, k) <==> w in Power(l, k) {
      if w in Power(l, k) {
        assert InRepeat(l, k, true, k, k, w);
      }
    }
  }

  /** Powers of at least `min` words. */
  lemma {:induction false} PowerOfUnbounded(l: Lang, min: nat, n: nat)
    requires n >= 1
    ensures Power(Repeated(l, min, false, 0), n) == Repeated(l, n * min, false, 0)
  {
    var r := Repeated(l, min, false, 0);
    if n == 1 {
      PowerOne(r);
    } else {
      PowerOfUnbounded(l, min, n - 1);
      Bounds(min, min, n);
      forall w: Word ensures w in Power(r, n) <==> w in Repeated(l, n * min, false, 0) {
        UnboundedSteps(l, min, (n - 1) * min, w);
      }
    }
  }

  lemma UnboundedSteps(l: Lang, min: nat, lo: nat, w: Word)
    ensures w in Concat(Repeated(l, min, false, 0), Repeated(l, lo, false, 0)) <==> w in Repeated(l, min + lo, false, 0)
  {
    hide Concat, Power;
    if w in Concat(Repeated(l, min, false, 0), Repeated(l, lo, false, 0)) {
      var u, v := SplitOf(Repeated(l, min, false, 0), Repeated(l, lo, false, 0), w);
      var i: nat :| InRepeat(l, min, false, 0, i, u);
      var j: nat :| InRepeat(l, lo, false, 0, j, v);
      InPower(l, i, j, u, v);
      assert InRepeat(l, min + lo, false, 0, i + j, w);
    }
    if w in Repeated(l, min + lo, false, 0) {
      var k: nat :| InRepeat(l, min + lo, false, 0, k, w);
      PowerAdds(l, min, k - min);
      var u, v := SplitOf(Power(l, min), Power(l, k - min), w);
      assert InRepeat(l, min, false, 0, min, u) && InRepeat(l, lo, false, 0, k - min, v);
      InConcat(Repeated(l, min, false, 0), Repeated(l, lo, false, 0), u, v);
    }
  }

  /** An upper bound is no loss exactly if one word more than it allows is none. */
  lemma BoundIsNoLossIff(l: Lang, min: nat, max: nat)
    requires min <= max
    ensures Repeated(l, min, true, max) == Repeated(l, min, false, 0) <==> Power(l, max + 1) <= Repeated(l, min, true, max)
  {
    hide Power;
    if Repeated(l, min, true, max) == Repeated(l, min, false, 0) {
      forall w | w in Power(l, max + 1) ensures w in Repeated(l, min, true, max) {
        assert InRepeat(l, min, false, 0, max + 1, w);
      }
    }
    if Power(l, max + 1) <= Repeated(l, min, true, max) {
      forall w: Word ensures w in Repeated(l, min, true, max) <==> w in Repeated(l, min, false, 0) {
        if w in Repeated(l, min, true, max) {
          var k: nat :| InRepeat(l, min, true, max, k, w);
          assert InRepeat(l, min, false, 0, k, w);
        }
        if w in Repeated(l, min, false, 0) {
          var k: nat :| InRepeat(l, min, false, 0, k, w);
          HighPowersFold(l, min, max, k);
        }
      }
    }
  }

  lemma {:induction false} HighPowersFold(l: Lang, min: nat, max: nat, k: nat)
    requires min <= max && min <= k && Power(l, max + 1) <= Repeated(l, min, true, max)
    ensures Power(l, k) <= Repeated(l, min, true, max)
  {
    forall w | w in Power(l, k) ensures w in Repeated(l, min, true, max) {
      if k <= max {
        assert InRepeat(l, min, true, max, k, w);
      } else {
        HighPowersFold(l, min, max, k - 1);
        var u, v := SplitOf(l, Power(l, k - 1), w);
        hide Concat;
        var j: nat :| InRepeat(l, min, true, max, j, v);
        InConcat(l, Power(l, j), u, v);
        assert w in Power(l, j + 1);
        if j < max {
          assert InRepeat(l, min, true, max, j + 1, w);
        }
      }
    }
  }

  // ---- The star.

  lemma InStar(l: Lang, n: nat, w: Word)
    requires w in Power(l, n)
    ensures w in Star(l)
  {
    assert InRepeat(l, 0, false, 0, n, w);
  }

  lemma StarJoins(l: Lang, u: Word, v: Word)
    requires u in Star(l) && v in Star(l)
    ensures u + v in Star(l)
  {
    var m: nat :| InRepeat(l, 0, false, 0, m, u);
    var n: nat :| InRepeat(l, 0, false, 0, n, v);
    InPower(l, m, n, u, v);
    InStar(l, m + n, u + v);
  }

  lemma WordInStar(l: Lang, u: Word)
    requires u in l
    ensures u in Star(l)
  {
    PowerOne(l);
    InStar(l, 1, u);
  }

  lemma {:induction false} PowersInStar(l: Lang, m: Lang, n: nat)
    requires l <= Star(m)
    ensures Power(l, n) <= Star(m)
  {
    forall w | w in Power(l, n) ensures w in Star(m) {
      if n == 0 {
        InStar(m, 0, w);
      } else {
        PowersInStar(l, m, n - 1);
        var u, v := SplitOf(l, Power(l, n - 1), w);
        StarJoins(m, u, v);
      }
    }
  }

  /** If all words of `l` are made of words of `m` and the other way round, the stars are the same. */
  lemma SameStar(l: Lang, m: Lang)
    requires l <= Star(m) && m <= Star(l)
    ensures Star(l) == Star(m)
  {
    forall w: Word ensures w in Star(l) <==> w in Star(m) {
      if w in Star(l) {
        var n: nat :| InRepeat(l, 0, false, 0, n, w);
        PowersInStar(l, m, n);
      }
      if w in Star(m) {
        var n: nat :| InRepeat(m, 0, false, 0, n, w);
        PowersInStar(m, l, n);
      }
    }
  }

  /** A non-empty word of the star begins with a non-empty word of the language. */
  lemma {:induction false} FirstOfPower(l: Lang, n: nat, w: Word) returns (u: Word, v: Word)
    requires w in Power(l, n) && w != []
    ensures w == u + v && u in l && u != [] && v in Star(l)
  {
    var x, y := SplitOf(l, Power(l, n - 1), w);
    if x == [] {
      u, v := FirstOfPower(l, n - 1, y);
    } else {
      InStar(l, n - 1, y);
      u, v := x, y;
    }
  }

  lemma FirstOfStar(l: Lang, w: Word) returns (u: Word, v: Word)
    requires w in Star(l) && w != []
    ensures w == u + v && u in l && u != [] && v in Star(l)
  {
    var n: nat :| InRepeat(l, 0, false, 0, n, w);
    u, v := FirstOfPower(l, n, w);
  }

  // ---- Lists of languages.

  ghost function AllWords(): Lang {
    iset w: Word | |w| >= 0
  }

  ghost function ConcatAll(ls: seq<Lang>): Lang {
    if ls == [] then Epsilon() else Concat(ls[0], ConcatAll(ls[1..]))
  }

  ghost function UnionAll(ls: seq<Lang>): Lang {
    if ls == [] then iset{} else ls[0] + UnionAll(ls[1..])
  }

  ghost function IntersectAll(ls: seq<Lang>): Lang {
    if ls == [] then AllWords() else ls[0] * IntersectAll(ls[1..])
  }

  lemma {:induction false} ConcatAllAppend(a: seq<Lang>, b: seq<Lang>)
    ensures ConcatAll(a + b) == Concat(ConcatAll(a), ConcatAll(b))
  {
    if a == [] {
      assert a + b == b;
      ConcatEpsilon(ConcatAll(b));
    } else {
      assert (a + b)[1..] == a[1..] + b;
      ConcatAllAppend(a[1..], b);
      ConcatAssociative(a[0], ConcatAll(a[1..]), ConcatAll(b));
    }
  }

  lemma {:induction false} UnionAllAppend(a: seq<Lang>, b: seq<Lang>)
    ensures UnionAll(a + b) == UnionAll(a) + UnionAll(b)
  {
    if a == [] {
      assert a + b == b;
    } else {
      assert (a + b)[1..] == a[1..] + b;
      UnionAllAppend(a[1..], b);
    }
  }

  lemma OneLanguage(l: Lang)
    ensures ConcatAll([l]) == l && UnionAll([l]) == l
  {
    hide Concat;
    assert [l][1..] == [] && ConcatAll([]) == Epsilon() && UnionAll([]) == iset{};
    assert ConcatAll([l]) == Concat([l][0], ConcatAll([l][1..])) && UnionAll([l]) == [l][0] + UnionAll([l][1..]);
    ConcatEpsilon(l);
  }

  // ---- The languages of automata.

  /** The words accepted from state `s`. */
  ghost function LangFrom(A: Automaton, s: nat): Lang {
    iset w: Word | Accepts(A, s, w)
  }

  /** An automaton with an initial state. */
  ghost predicate Usable(A: Automaton) {
    A.Valid() && A.states > 0
  }

  /** The words over the first `n` symbols. */
  ghost function Over(n: nat): Lang {
    iset w: Word | forall i :: 0 <= i < |w| ==> w[i] < n
  }

  lemma {:induction false} AcceptsOver(A: Automaton, s: nat, w: Word)
    requires A.Valid() && Accepts(A, s, w)
    ensures w in Over(A.symbols)
    decreases |w|
  {
    if w != [] {
      var t: nat :| A.Has(s, w[0], t) && Accepts(A, t, w[1..]);
      assert Edge(s, w[0], t) in A.trans;
      AcceptsOver(A, t, w[1..]);
      assert w == [w[0]] + w[1..];
    }
  }
}
