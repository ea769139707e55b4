/** Compiling expressions. */
module RegexCompile {
  // What the compiled automaton accepts, exactly, and when that is what the expression denotes.

  import opened Automata
  import opened Options
  import opened Languages
  import opened RegexAutomata
  import opened Complements
  import opened ExplodedMinimizer
  import Folding = RegexFolding
  import Products

  // ---- The transitions of an automaton, by destination.

  method MaskRowOf(A: Automaton, s: nat) returns (row: Products.MaskRow)
    requires A.Valid()
    ensures forall a: nat, t: nat :: A.Has(s, a, t) <==> Products.InMasks(row, a, t)
  {
    row := [];
    var t := 0;
    while t < A.states
      invariant t <= A.states == |row| + (A.states - t)
      invariant forall i: nat :: i < |row| ==> row[i].1 == i && forall a: nat :: a in row[i].0 <==> A.Has(s, a, i)
    {
      var mask := set a | 0 <= a < A.symbols && Edge(s, a, t) in A.trans;
      forall a: nat ensures a in mask <==> A.Has(s, a, t) {
        assert A.Has(s, a, t) <==> Edge(s, a, t) in A.trans;
      }
      row := row + [(mask, t)];
      t := t + 1;
    }
    forall a: nat, u: nat ensures A.Has(s, a, u) <==> Products.InMasks(row, a, u) {
      if A.Has(s, a, u) {
        assert Edge(s, a, u) in A.trans;
        assert a in row[u].0 && row[u].1 == u;
      }
    }
  }

  method AllMaskRows(A: Automaton) returns (rows: Products.MaskRows)
    requires Usable(A)
    ensures Products.MaskRowsOf(A, rows)
  {
    rows := [];
    while |rows| < A.states
      invariant |rows| <= A.states
      invariant forall s: nat, a: nat, t: nat :: s < |rows| ==> (A.Has(s, a, t) <==> Products.InMasks(rows[s], a, t))
      decreases A.states - |rows|
    {
      var row := MaskRowOf(A, |rows|);
      rows := rows + [row];
    }
  }

  // ---- Restricting languages to an alphabet.

  lemma OverJoins(n: nat, u: Word, v: Word)
    ensures u + v in Over(n) <==> u in Over(n) && v in Over(n)
  {
    var w := u + v;
    forall i | 0 <= i < |u| ensures w[i] == u[i] {
    }
    forall i | 0 <= i < |v| ensures w[|u| + i] == v[i] {
    }
  }

  lemma ConcatOver(a: Lang, b: Lang, n: nat)
    ensures Concat(a, b) * Over(n) == Concat(a * Over(n), b * Over(n))
  {
    hide Concat, Over;
    forall w: Word ensures w in Concat(a, b) * Over(n) <==> w in Concat(a * Over(n), b * Over(n)) {
      if w in Concat(a, b) * Over(n) {
        var u, v := SplitOf(a, b, w);
        OverJoins(n, u, v);
        InConcat(a * Over(n), b * Over(n), u, v);
      }
      if w in Concat(a * Over(n), b * Over(n)) {
        var u, v := SplitOf(a * Over(n), b * Over(n), w);
        OverJoins(n, u, v);
        InConcat(a, b, u, v);
      }
    }
  }

  lemma {:induction false} PowerOver(l: Lang, k: nat, n: nat)
    ensures Power(l, k) * Over(n) == Power(l * Over(n), k)
  {
    hide Concat;
    if k > 0 {
      PowerOver(l, k - 1, n);
      ConcatOver(l, Power(l, k - 1), n);
    }
  }

  lemma RepeatedOver(l: Lang, min: nat, bounded: bool, max: nat, n: nat)
    ensures Repeated(l, min, bounded, max) * Over(n) == Repeated(l * Over(n), min, bounded, max)
  {
    hide Power, Over;
    var m := l * Over(n);
    forall w: Word ensures w in Repeated(l, min, bounded, max) && w in Over(n) <==> w in Repeated(m, min, bounded, max) {
      if w in Repeated(l, min, bounded, max) && w in Over(n) {
        var k: nat :| InRepeat(l, min, bounded, max, k, w);
        PowerOver(l, k, n);
        assert InRepeat(m, min, bounded, max, k, w);
      }
      if w in Repeated(m, min, bounded, max) {
        var k: nat :| InRepeat(m, min, bounded, max, k, w);
        PowerOver(l, k, n);
        assert InRepeat(l, min, bounded, max, k, w);
      }
    }
  }

  /** Each language restricted. */
  ghost function EachOver(ls: seq<Lang>, n: nat): (r: seq<Lang>)
    ensures |r| == |ls|
  {
    seq(|ls|, i requires 0 <= i < |ls| => ls[i] * Over(n))
  }

  lemma {:induction false} ConcatAllOver(ls: seq<Lang>, n: nat)
    ensures ConcatAll(ls) * Over(n) == ConcatAll(EachOver(ls, n))
  {
    if ls != [] {
      hide Concat, Over;
      ConcatAllOver(ls[1..], n);
      assert EachOver(ls, n)[1..] == EachOver(ls[1..], n);
      ConcatOver(ls[0], ConcatAll(ls[1..]), n);
    }
  }

  lemma {:induction false} UnionAllOver(ls: seq<Lang>, n: nat)
    ensures UnionAll(ls) * Over(n) == UnionAll(EachOver(ls, n))
  {
    if ls != [] {
      hide Over;
      UnionAllOver(ls[1..], n);
      assert EachOver(ls, n)[1..] == EachOver(ls[1..], n);
    }
  }

  lemma {:induction false} IntersectSnoc(ls: seq<Lang>, l: Lang)
    ensures IntersectAll(ls + [l]) == IntersectAll(ls) * l
  {
    if ls == [] {
      assert ls + [l] == [l] && [l][1..] == [];
    } else {
      assert (ls + [l])[1..] == ls[1..] + [l];
      IntersectSnoc(ls[1..], l);
    }
  }

  // ---- What compiling makes of an expression.

  /** `A` accepts the words over the alphabet that `e` stands for. */
  ghost predicate Means(A: Automaton, e: Folding.Expr, n: nat) {
    Usable(A) && A.symbols == n && LangFrom(A, 0) == Meaning(e, n)
  }

  ghost function Meaning(e: Folding.Expr, n: nat): Lang {
    Folding.Denotes(e) * Over(n)
  }

  /** The automata that are made as minimal ones and known as such: minimizing leaves them alone. */
  predicate Flagged(e: Folding.Expr) {
    match e
    case Sequence(parts) => parts == []
    case Choice(parts) => parts == []
    case Both(parts) => |parts| == 1
    case Repetition(_, _, _) => false
    case Complement(_) => false
    case _ => true
  }

  /** The words that the compiled expression accepts.  The parts of an intersection are minimized first. */
  ghost function CompiledTo(e: Folding.Expr, n: nat): Lang {
    match e
    case Sequence(parts) => ConcatAll(seq(|parts|, i requires 0 <= i < |parts| => CompiledTo(parts[i], n)))
    case Choice(parts) => UnionAll(seq(|parts|, i requires 0 <= i < |parts| => CompiledTo(parts[i], n)))
    case Both(parts) => IntersectAll(seq(|parts|, i requires 0 <= i < |parts| => Taken(parts[i], CompiledTo(parts[i], n), n)))
    case Repetition(child, min, max) => Repeated(CompiledTo(child, n), min, max != Folding.Unlimited, Folding.Upper(max))
    case Complement(child) => Over(n) - CompiledTo(child, n)
    case _ => Folding.Denotes(e) * Over(n)
  }

  /** What an intersection takes a part with language `l` for. */
  ghost function Taken(e: Folding.Expr, l: Lang, n: nat): Lang {
    if Flagged(e) then l else MinimizedTo(l, n)
  }

  ghost function EachCompiled(parts: seq<Folding.Expr>, n: nat): (r: seq<Lang>)
    ensures |r| == |parts|
  {
    seq(|parts|, i requires 0 <= i < |parts| => CompiledTo(parts[i], n))
  }

  ghost function EachTaken(parts: seq<Folding.Expr>, n: nat): (r: seq<Lang>)
    ensures |r| == |parts|
  {
    seq(|parts|, i requires 0 <= i < |parts| => Taken(parts[i], CompiledTo(parts[i], n), n))
  }

  lemma CompiledParts(parts: seq<Folding.Expr>, n: nat)
    ensures CompiledTo(Folding.Sequence(parts), n) == ConcatAll(EachCompiled(parts, n))
    ensures CompiledTo(Folding.Choice(parts), n) == UnionAll(EachCompiled(parts, n))
    ensures CompiledTo(Folding.Both(parts), n) == IntersectAll(EachTaken(parts, n))
  {
    assert EachCompiled(parts, n) == seq(|parts|, i requires 0 <= i < |parts| => CompiledTo(parts[i], n));
    assert EachTaken(parts, n) == seq(|parts|, i requires 0 <= i < |parts| => Taken(parts[i], CompiledTo(parts[i], n), n));
  }

  // ---- When that is what the expression denotes.

  /** A part that stands for all words and is taken for the empty word. */
  ghost predicate Lost(e: Folding.Expr, n: nat) {
    !Flagged(e) && Meaning(e, n) == Over(n)
  }

  /** The words that the other parts have in common. */
  ghost function Common(parts: seq<Folding.Expr>, n: nat): Lang {
    iset w: Word | w in Over(n) && forall i :: 0 <= i < |parts| && !Lost(parts[i], n) ==> w in Folding.Denotes(parts[i])
  }

  /** No part is lost, or nothing but the empty word is at stake. */
  ghost predicate Harmless(parts: seq<Folding.Expr>, n: nat) {
    (forall i :: 0 <= i < |parts| ==> !Lost(parts[i], n)) || Common(parts, n) <= Epsilon()
  }

  lemma {:induction false} InIntersection(ls: seq<Lang>, w: Word)
    ensures w in IntersectAll(ls) <==> forall i :: 0 <= i < |ls| ==> w in ls[i]
  {
    if ls != [] {
      InIntersection(ls[1..], w);
      forall i | 0 < i < |ls| ensures ls[i] == ls[1..][i - 1] {
      }
      if w in IntersectAll(ls) {
        forall i | 0 <= i < |ls| ensures w in ls[i] {
          assert i > 0 ==> w in ls[1..][i - 1];
        }
      }
    }
  }

  /** What an intersection means and what it compiles to, word by word. */
  lemma BothWords(parts: seq<Folding.Expr>, n: nat, w: Word)
    requires |parts| > 0 && forall i :: 0 <= i < |parts| ==> CompiledTo(parts[i], n) == Meaning(parts[i], n)
    ensures w in Meaning(Folding.Both(parts), n) <==> w in Common(parts, n)
    ensures w in CompiledTo(Folding.Both(parts), n) <==> w in Common(parts, n) && (w == [] || forall i :: 0 <= i < |parts| ==> !Lost(parts[i], n))
  {
    Folding.DenotesParts(parts);
    CompiledParts(parts, n);
    InIntersection(Folding.Each(parts), w);
    InIntersection(EachTaken(parts, n), w);
    var none: Word := [];
    assert none in Over(n);
    hide Folding.Denotes, CompiledTo;
    forall i | 0 <= i < |parts| ensures w in EachTaken(parts, n)[i] <==> if Lost(parts[i], n) then w == [] else w in Meaning(parts[i], n) {
      assert EachTaken(parts, n)[i] == Taken(parts[i], Meaning(parts[i], n), n);
    }
    forall i | 0 <= i < |parts| && w in Over(n) ensures w in Folding.Each(parts)[i] <==> w in Meaning(parts[i], n) {
    }
  }

  /** One intersection: if the parts are compiled right, it is exactly if it is harmless. */
  lemma BothRightIffHarmless(parts: seq<Folding.Expr>, n: nat)
    requires |parts| > 0 && forall i :: 0 <= i < |parts| ==> CompiledTo(parts[i], n) == Meaning(parts[i], n)
    ensures CompiledTo(Folding.Both(parts), n) == Meaning(Folding.Both(parts), n) <==> Harmless(parts, n)
  {
    var c, m := CompiledTo(Folding.Both(parts), n), Meaning(Folding.Both(parts), n);
    forall w: Word ensures w in m <==> w in Common(parts, n)
                   ensures w in c <==> w in Common(parts, n) && (w == [] || forall i :: 0 <= i < |parts| ==> !Lost(parts[i], n)) {
      BothWords(parts, n, w);
    }
    hide CompiledTo, Meaning, Common, Lost;
    if Harmless(parts, n) {
      forall w: Word ensures w in c <==> w in m {
      }
    }
    if !Harmless(parts, n) {
      var w :| w in Common(parts, n) && w !in Epsilon();
      assert (w in m) != (w in c);
    }
  }

  /** Every intersection in the expression is harmless. */
  ghost predicate AllHarmless(e: Folding.Expr, n: nat) {
    match e
    case Sequence(parts) => forall i :: 0 <= i < |parts| ==> AllHarmless(parts[i], n)
    case Choice(parts) => forall i :: 0 <= i < |parts| ==> AllHarmless(parts[i], n)
    case Both(parts) => Harmless(parts, n) && forall i :: 0 <= i < |parts| ==> AllHarmless(parts[i], n)
    case Repetition(child, _, _) => AllHarmless(child, n)
    case Complement(child) => AllHarmless(child, n)
    case _ => true
  }

  /** If every intersection is harmless, the expression is compiled right. */
  lemma {:induction false} HarmlessIsRight(e: Folding.Expr, n: nat)
    requires Folding.WellFormed(e, n) && AllHarmless(e, n)
    ensures CompiledTo(e, n) == Meaning(e, n)
    decreases e, 1
  {
    match e
    case Sequence(parts) =>
      PartsRight(e, parts, n);
      hide Folding.Denotes, CompiledTo, ConcatAll, Over;
      ConcatAllOver(Folding.Each(parts), n);
    case Choice(parts) =>
      PartsRight(e, parts, n);
      hide Folding.Denotes, CompiledTo, UnionAll, Over;
      UnionAllOver(Folding.Each(parts), n);
    case Both(parts) =>
      PartsRight(e, parts, n);
      BothRightIffHarmless(parts, n);
    case Repetition(child, min, max) =>
      HarmlessIsRight(child, n);
      RepeatedOver(Folding.Denotes(child), min, max != Folding.Unlimited, Folding.Upper(max), n);
    case Complement(child) =>
      HarmlessIsRight(child, n);
      assert Over(n) - Folding.Denotes(child) * Over(n) == Folding.Denotes(e) * Over(n);
    case _ =>
  }

  lemma {:induction false} PartsRight(e: Folding.Expr, parts: seq<Folding.Expr>, n: nat)
    requires e == Folding.Sequence(parts) || e == Folding.Choice(parts) || e == Folding.Both(parts)
    requires Folding.WellFormed(e, n) && AllHarmless(e, n)
    ensures forall i :: 0 <= i < |parts| ==> CompiledTo(parts[i], n) == Meaning(parts[i], n)
    ensures EachCompiled(parts, n) == EachOver(Folding.Each(parts), n)
    ensures Folding.Denotes(Folding.Sequence(parts)) == ConcatAll(Folding.Each(parts)) && Folding.Denotes(Folding.Choice(parts)) == UnionAll(Folding.Each(parts))
    ensures CompiledTo(Folding.Sequence(parts), n) == ConcatAll(EachCompiled(parts, n)) && CompiledTo(Folding.Choice(parts), n) == UnionAll(EachCompiled(parts, n))
    decreases e, 0
  {
    forall i | 0 <= i < |parts| ensures CompiledTo(parts[i], n) == Meaning(parts[i], n) {
      HarmlessIsRight(parts[i], n);
    }
    Folding.DenotesParts(parts);
    CompiledParts(parts, n);
  }

  /** All words and a letter have that letter in common; the complement of nothing and the letter compile to nothing. */
  lemma UniversalPartLosesWords(x: nat, n: nat)
    requires x < n
    ensures var parts := [Folding.Complement(Folding.Nothing), Folding.Literal(x)]; var e := Folding.Both(parts);
            && Folding.WellFormed(e, n) && Folding.FoldsWell(e, n) && Folding.Fold(e) == Some(e)
            && Meaning(e, n) == iset{[x]} && CompiledTo(e, n) == iset{}
            && CompiledTo(Folding.Both([Folding.Everything, Folding.Literal(x)]), n) == iset{[x]}
  {
    var none, letter := Folding.Complement(Folding.Nothing), Folding.Literal(x);
    var parts, others := [none, letter], [Folding.Everything, letter];
    assert Folding.Denotes(none) == AllWords() && AllWords() * Over(n) == Over(n);
    assert CompiledTo(Folding.Nothing, n) == iset{};
    assert CompiledTo(none, n) == Over(n) == Meaning(none, n) && CompiledTo(letter, n) == Meaning(letter, n);
    assert Meaning(letter, n) == iset{[x]};
    assert Lost(parts[0], n) && !Lost(parts[1], n);
    assert CompiledTo(Folding.Everything, n) == Meaning(Folding.Everything, n);
    FoldsToItself(x);
    forall w: Word ensures w in Common(parts, n) <==> w == [x] {
    }
    forall w: Word ensures w in Common(others, n) <==> w == [x] {
      assert !Lost(others[0], n) && !Lost(others[1], n) && Folding.Denotes(others[0]) == AllWords();
      assert w in Folding.Denotes(others[1]) <==> w == [x];
    }
    forall w: Word ensures w in Meaning(Folding.Both(parts), n) <==> w == [x]
                   ensures w !in CompiledTo(Folding.Both(parts), n)
                   ensures w in CompiledTo(Folding.Both(others), n) <==> w == [x] {
      BothWords(parts, n, w);
      BothWords(others, n, w);
    }
  }

  lemma FoldsToItself(x: nat)
    ensures var e := Folding.Both([Folding.Complement(Folding.Nothing), Folding.Literal(x)]); Folding.Fold(e) == Some(e)
  {
    var none, letter := Folding.Complement(Folding.Nothing), Folding.Literal(x);
    var parts := [none, letter];
    Folding.FoldParts(parts);
    assert Folding.Fold(Folding.Nothing) == Some(Folding.Nothing);
    assert Folding.Fold(none) == Some(none) && Folding.Fold(letter) == Some(letter);
    assert Folding.FoldAll(parts) == [Some(none), Some(letter)];
    assert Folding.Values(Folding.FoldAll(parts)) == parts;
  }

  // ---- Compiling.

  /** The automata of the expressions without parts. */
  function Simple(e: Folding.Expr, n: nat): Automaton {
    match e
    case Everything => Automaton(1, n, set a | 0 <= a < n :: Edge(0, a, 0), {0})
    case Empty => JustAccepts(n)
    case AnySymbol => Automaton(2, n, set a | 0 <= a < n :: Edge(0, a, 1), {1})
    case Literal(x) => Automaton(2, n, {Edge(0, x, 1)}, {1})
    case _ => Automaton(1, n, {}, {})
  }

  lemma SimpleMeans(e: Folding.Expr, n: nat)
    requires Folding.WellFormed(e, n) && (e.Nothing? || e.Everything? || e.Empty? || e.AnySymbol? || e.Literal?)
    ensures Means(Simple(e, n), e, n)
  {
    var A := Simple(e, n);
    match e
    case Everything =>
      forall w: Word ensures w in LangFrom(A, 0) <==> w in Over(n) {
        EverythingAccepts(A, n, w);
      }
      assert Folding.Denotes(e) == AllWords();
    case AnySymbol =>
      forall w: Word ensures w in LangFrom(A, 0) <==> |w| == 1 && w in Over(n) {
        OneStep(A, w);
      }
    case Literal(x) =>
      forall w: Word ensures w in LangFrom(A, 0) <==> w == [x] {
        OneStep(A, w);
      }
    case _ =>
      AcceptsNothingElse(A);
  }

  lemma {:induction false} EverythingAccepts(A: Automaton, n: nat, w: Word)
    requires A == Simple(Folding.Everything, n)
    ensures Accepts(A, 0, w) <==> w in Over(n)
    decreases |w|
  {
    if w != [] {
      assert w == [w[0]] + w[1..];
      OverJoins(n, [w[0]], w[1..]);
      EverythingAccepts(A, n, w[1..]);
      forall t: nat ensures A.Has(0, w[0], t) <==> w[0] < n && t == 0 {
      }
      assert [w[0]] in Over(n) <==> w[0] < n;
    }
  }

  /** One step from the initial to the only accepting state, which has none. */
  lemma OneStep(A: Automaton, w: Word)
    requires A.accept == {1} && forall e :: e in A.trans ==> e.source == 0 && e.target == 1
    ensures Accepts(A, 0, w) <==> |w| == 1 && A.Has(0, w[0], 1)
  {
    if w != [] {
      forall t: nat ensures A.Has(0, w[0], t) && Accepts(A, t, w[1..]) <==> t == 1 && w[1..] == [] && A.Has(0, w[0], 1) {
        if w[1..] != [] {
          forall u: nat ensures !A.Has(1, w[1], u) {
          }
        }
      }
    }
  }

  /** `A` is what `e` compiles to. */
  ghost predicate Compiles(A: Automaton, e: Folding.Expr, n: nat) {
    Usable(A) && A.symbols == n && LangFrom(A, 0) == CompiledTo(e, n)
  }

  /** The automata of a list of expressions. */
  ghost predicate CompilesEach(As: seq<Automaton>, parts: seq<Folding.Expr>, n: nat) {
    |As| <= |parts| && forall i :: 0 <= i < |As| ==> Compiles(As[i], parts[i], n)
  }

  /** The automaton of an expression and whether it is known to be minimal. */
  method Interpret(e: Folding.Expr, n: nat) returns (A: Automaton, minimal: bool)
    requires n > 0 && Folding.WellFormed(e, n)
    ensures Compiles(A, e, n) && (minimal <==> Flagged(e))
    ensures AllHarmless(e, n) ==> Means(A, e, n)
    decreases e, 1
  {
    if AllHarmless(e, n) {
      HarmlessIsRight(e, n);
    }
    hide Folding.Denotes, AllHarmless, Means;
    minimal := false;
    match e
    case Sequence(parts) =>
      var children := InterpretAll(e, parts, n);
      PartsUsable(children, parts, n);
      A := Cat(children, n);
      CompiledParts(parts, n);
      minimal := parts == [];
    case Choice(parts) =>
      var children := InterpretAll(e, parts, n);
      PartsUsable(children, parts, n);
      A := Alt(children, n);
      CompiledParts(parts, n);
      minimal := parts == [];
    case Both(parts) =>
      A := InterpretBoth(e, parts, n);
      minimal := |parts| == 1;
    case Repetition(child, min, max) =>
      var B, _ := Interpret(child, n);
      A := Repetition(B, min, max);
    case Complement(child) =>
      var B, _ := Interpret(child, n);
      A := Comp(B);
    case _ =>
      A, minimal := Simple(e, n), true;
      SimpleMeans(e, n);
  }

  /** Picks the construction for the bounds of a repetition. */
  method Repetition(B: Automaton, min: nat, max: int) returns (A: Automaton)
    requires Usable(B) && Folding.ValidBounds(min, max)
    ensures Usable(A) && A.symbols == B.symbols
    ensures LangFrom(A, 0) == Repeated(LangFrom(B, 0), min, max != Folding.Unlimited, Folding.Upper(max))
  {
    hide LangFrom;
    ghost var l := LangFrom(B, 0);
    if min == 0 && max == Folding.Unlimited {
      A := StarOf(B);
      Folding.SameUnbounded(l, 0, 0, Folding.Upper(max));
    } else if min == 0 && max == 1 {
      A := Range(B, 0, 1);
    } else if min == 1 && max == Folding.Unlimited {
      A := NOrMore(B, 1);
      Folding.SameUnbounded(l, 1, 0, Folding.Upper(max));
    } else if min == max {
      A := NCopies(B, min);
      ExactlyPower(l, min);
    } else if max == Folding.Unlimited {
      A := NOrMore(B, min);
      Folding.SameUnbounded(l, min, 0, Folding.Upper(max));
    } else {
      A := Range(B, min, max);
    }
  }

  method InterpretAll(ghost e: Folding.Expr, parts: seq<Folding.Expr>, n: nat) returns (children: seq<Automaton>)
    requires n > 0 && (e == Folding.Sequence(parts) || e == Folding.Choice(parts)) && Folding.WellFormed(e, n)
    ensures |children| == |parts| && CompilesEach(children, parts, n)
    decreases e, 0
  {
    children := [];
    while |children| < |parts|
      invariant CompilesEach(children, parts, n)
      decreases |parts| - |children|
    {
      var child, _ := Interpret(parts[|children|], n);
      children := children + [child];
    }
  }

  /** Minimizes the automata of the parts and intersects them from left to right. */
  method InterpretBoth(ghost e: Folding.Expr, parts: seq<Folding.Expr>, n: nat) returns (A: Automaton)
    requires n > 0 && e == Folding.Both(parts) && Folding.WellFormed(e, n)
    ensures Compiles(A, e, n)
    decreases e, 0
  {
    A := InterpretInput(e, parts, 0, n);
    var i := 1;
    BothFirst(parts, n);
    while i < |parts|
      invariant 1 <= i <= |parts| && Usable(A) && A.symbols == n
      invariant LangFrom(A, 0) == IntersectAll(EachTaken(parts, n)[..i])
    {
      var child := InterpretInput(e, parts, i, n);
      var lrows := AllMaskRows(A);
      var rrows := AllMaskRows(child);
      var C := Products.Conj(A, child, lrows, rrows);
      BothGrows(parts, i, n);
      assert LangFrom(C, 0) == LangFrom(A, 0) * LangFrom(child, 0);
      A := C;
      i := i + 1;
    }
    CompiledParts(parts, n);
    assert EachTaken(parts, n)[..i] == EachTaken(parts, n);
  }

  /** An input of an intersection, minimized unless it is known to be minimal. */
  method InterpretInput(ghost e: Folding.Expr, parts: seq<Folding.Expr>, i: nat, n: nat) returns (A: Automaton)
    requires n > 0 && e == Folding.Both(parts) && Folding.WellFormed(e, n) && i < |parts|
    ensures Usable(A) && A.symbols == n && LangFrom(A, 0) == EachTaken(parts, n)[i]
    decreases e, 0, 0
  {
    var child, minimal := Interpret(parts[i], n);
    if minimal {
      return child;
    }
    var stopped: bool := *;
    A := MinimizeAutomaton(child, stopped);
  }

  lemma BothFirst(parts: seq<Folding.Expr>, n: nat)
    requires |parts| > 0
    ensures IntersectAll(EachTaken(parts, n)[..1]) == EachTaken(parts, n)[0]
  {
    var ls := EachTaken(parts, n)[..1];
    assert ls == [EachTaken(parts, n)[0]] && ls[1..] == [];
  }

  lemma BothGrows(parts: seq<Folding.Expr>, i: nat, n: nat)
    requires i < |parts|
    ensures IntersectAll(EachTaken(parts, n)[..i + 1]) == IntersectAll(EachTaken(parts, n)[..i]) * EachTaken(parts, n)[i]
  {
    var ls := EachTaken(parts, n);
    assert ls[..i + 1] == ls[..i] + [ls[i]];
    IntersectSnoc(ls[..i], ls[i]);
  }

  lemma PartsUsable(children: seq<Automaton>, parts: seq<Folding.Expr>, n: nat)
    requires |children| == |parts| && CompilesEach(children, parts, n)
    ensures AllUsable(children, n) && Langs(children) == EachCompiled(parts, n)
  {
    forall A | A in children ensures Usable(A) && A.symbols == n {
      var i :| 0 <= i < |children| && children[i] == A;
      assert Compiles(children[i], parts[i], n);
    }
    forall i | 0 <= i < |parts| ensures Langs(children)[i] == EachCompiled(parts, n)[i] {
      assert Compiles(children[i], parts[i], n);
    }
  }

  /** From an expression as written to its automaton; `e` is the expression as put together by the constructors. */
  method Compile(raw: Folding.Expr, n: nat) returns (A: Automaton, e: Folding.Expr)
    requires n > 0 && Folding.FoldsWell(raw, n)
    ensures Folding.Fold(raw) == Some(e) && Compiles(A, e, n)
    ensures AllHarmless(e, n) ==> Means(A, raw, n)
  {
    Folding.FoldDenotes(raw, n);
    var built := Folding.Build(raw);
    hide Folding.Denotes, Folding.Fold, Folding.FoldsWell, AllHarmless;
    e := built.value;
    var minimal;
    A, minimal := Interpret(e, n);
  }
}
