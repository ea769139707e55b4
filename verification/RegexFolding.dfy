/** Folding regular expressions. */
module RegexFolding {
  // What expressions denote, and what their constructors fold as they put them together.

  import opened Options
  import opened Languages

  /** The upper bound of a repetition is -1 for "unlimited". */
  datatype Expr =
    | Nothing | Everything | Empty | AnySymbol | Literal(symbol: nat)
    | Sequence(parts: seq<Expr>) | Choice(parts: seq<Expr>) | Both(parts: seq<Expr>)
    | Repetition(child: Expr, min: nat, max: int) | Complement(child: Expr)

  const Unlimited: int := -1

  /** What a bound means once it is taken for an unsigned 32-bit number. */
  function Upper(max: int): nat {
    if max >= 0 then max else if 0x1_0000_0000 + max >= 0 then 0x1_0000_0000 + max else 0
  }

  /** The words over the alphabet that an expression stands for; words are taken to be over the alphabet. */
  ghost function Denotes(e: Expr): Lang {
    match e
    case Nothing => iset{}
    case Everything => AllWords()
    case Empty => Epsilon()
    case AnySymbol => iset w: Word | |w| == 1
    case Literal(x) => iset{[x]}
    case Sequence(parts) => ConcatAll(seq(|parts|, i requires 0 <= i < |parts| => Denotes(parts[i])))
    case Choice(parts) => UnionAll(seq(|parts|, i requires 0 <= i < |parts| => Denotes(parts[i])))
    case Both(parts) => IntersectAll(seq(|parts|, i requires 0 <= i < |parts| => Denotes(parts[i])))
    case Repetition(child, min, max) => Repeated(Denotes(child), min, max != Unlimited, Upper(max))
    case Complement(child) => iset w: Word | w !in Denotes(child)
  }

  /** The languages of a list of expressions. */
  ghost function Each(parts: seq<Expr>): (r: seq<Lang>)
    ensures |r| == |parts|
  {
    seq(|parts|, i requires 0 <= i < |parts| => Denotes(parts[i]))
  }

  lemma DenotesParts(parts: seq<Expr>)
    ensures Denotes(Sequence(parts)) == ConcatAll(Each(parts))
    ensures Denotes(Choice(parts)) == UnionAll(Each(parts))
    ensures Denotes(Both(parts)) == IntersectAll(Each(parts))
  {
    assert Each(parts) == seq(|parts|, i requires 0 <= i < |parts| => Denotes(parts[i]));
  }

  // ---- Flattening lists.

  lemma EachAppend(a: seq<Expr>, b: seq<Expr>)
    ensures Each(a + b) == Each(a) + Each(b)
  {
  }

  lemma OneSequence(e: Expr)
    ensures ConcatAll(Each([e])) == Denotes(e) && UnionAll(Each([e])) == Denotes(e)
  {
    hide Denotes;
    assert Each([e]) == [Denotes(e)];
    OneLanguage(Denotes(e));
  }

  /** What is left of a list to put one after the other: the empty word goes, sequences are spliced in. */
  ghost function SpliceSequences(regexes: seq<Expr>): seq<Expr> {
    if regexes == [] then []
    else SpliceSequences(regexes[..|regexes| - 1]) + SequenceParts(regexes[|regexes| - 1])
  }

  function SequenceParts(e: Expr): seq<Expr> {
    if e.Empty? then [] else if e.Sequence? then e.parts else [e]
  }

  /** What the library makes of a sequence. */
  ghost function CatOf(regexes: seq<Expr>): Expr {
    var folder := SpliceSequences(regexes);
    if folder == [] then Empty else if |folder| == 1 then folder[0] else Sequence(folder)
  }

  method Cat(regexes: seq<Expr>) returns (e: Expr)
    ensures e == CatOf(regexes)
    ensures Denotes(e) == ConcatAll(Each(regexes))
  {
    CatDenotes(regexes);
    hide Denotes;
    var folder: seq<Expr> := [];
    var i := 0;
    while i < |regexes|
      invariant i <= |regexes| && folder == SpliceSequences(regexes[..i])
    {
      var p := regexes[i];
      assert regexes[..i + 1][..i] == regexes[..i];
      if p.Empty? {
      } else if p.Sequence? {
        folder := folder + p.parts;
      } else {
        folder := folder + [p];
      }
      i := i + 1;
    }
    assert regexes[..i] == regexes;
    return if folder == [] then Empty else if |folder| == 1 then folder[0] else Sequence(folder);
  }

  lemma {:induction false} SpliceKeepsSequence(regexes: seq<Expr>)
    ensures ConcatAll(Each(SpliceSequences(regexes))) == ConcatAll(Each(regexes))
  {
    if regexes != [] {
      var before, p := regexes[..|regexes| - 1], regexes[|regexes| - 1];
      SpliceKeepsSequence(before);
      assert regexes == before + [p];
      CatStep(before, p);
      CatFolds(SpliceSequences(before), SequenceParts(p));
      hide SpliceSequences, Concat;
      if p.Empty? {
        assert Denotes(p) == Epsilon() && ConcatAll(Each([])) == Epsilon();
      } else if p.Sequence? {
        DenotesParts(p.parts);
      } else {
        OneSequence(p);
      }
    }
  }

  lemma CatDenotes(regexes: seq<Expr>)
    ensures Denotes(CatOf(regexes)) == ConcatAll(Each(regexes))
  {
    var folder := SpliceSequences(regexes);
    SpliceKeepsSequence(regexes);
    assert Denotes(Empty) == Epsilon() == ConcatAll(Each([]));
    DenotesParts(folder);
    hide SpliceSequences, Denotes, ConcatAll;
    if |folder| == 1 {
      OneSequence(folder[0]);
      assert folder == [folder[0]];
    }
  }

  lemma CatStep(before: seq<Expr>, p: Expr)
    ensures ConcatAll(Each(before + [p])) == Concat(ConcatAll(Each(before)), Denotes(p))
  {
    CatFolds(before, [p]);
    OneSequence(p);
  }

  lemma CatFolds(a: seq<Expr>, b: seq<Expr>)
    ensures ConcatAll(Each(a + b)) == Concat(ConcatAll(Each(a)), ConcatAll(Each(b)))
  {
    EachAppend(a, b);
    ConcatAllAppend(Each(a), Each(b));
  }

  /** What is left of a list to choose from: the empty language goes, choices are spliced in. */
  ghost function SpliceChoices(regexes: seq<Expr>): seq<Expr> {
    if regexes == [] then []
    else SpliceChoices(regexes[..|regexes| - 1]) + ChoiceParts(regexes[|regexes| - 1])
  }

  function ChoiceParts(e: Expr): seq<Expr> {
    if e.Nothing? then [] else if e.Choice? then e.parts else [e]
  }

  /** What the library makes of a choice. */
  ghost function AltOf(regexes: seq<Expr>): Expr {
    var folder := SpliceChoices(regexes);
    if folder == [] then Nothing else if |folder| == 1 then folder[0] else Choice(folder)
  }

  method Alt(regexes: seq<Expr>) returns (e: Expr)
    ensures e == AltOf(regexes)
    ensures Denotes(e) == UnionAll(Each(regexes))
  {
    AltDenotes(regexes);
    hide Denotes;
    var folder: seq<Expr> := [];
    var i := 0;
    while i < |regexes|
      invariant i <= |regexes| && folder == SpliceChoices(regexes[..i])
    {
      var p := regexes[i];
      assert regexes[..i + 1][..i] == regexes[..i];
      if p.Nothing? {
      } else if p.Choice? {
        folder := folder + p.parts;
      } else {
        folder := folder + [p];
      }
      i := i + 1;
    }
    assert regexes[..i] == regexes;
    return if folder == [] then Nothing else if |folder| == 1 then folder[0] else Choice(folder);
  }

  lemma {:induction false} SpliceKeepsChoice(regexes: seq<Expr>)
    ensures UnionAll(Each(SpliceChoices(regexes))) == UnionAll(Each(regexes))
  {
    if regexes != [] {
      var before, p := regexes[..|regexes| - 1], regexes[|regexes| - 1];
      SpliceKeepsChoice(before);
      assert regexes == before + [p];
      AltFolds(before, [p]);
      AltFolds(SpliceChoices(before), ChoiceParts(p));
      OneSequence(p);
      hide SpliceChoices;
      if p.Nothing? {
        NoChoice();
      } else if p.Choice? {
        DenotesParts(p.parts);
      }
    }
  }

  lemma AltDenotes(regexes: seq<Expr>)
    ensures Denotes(AltOf(regexes)) == UnionAll(Each(regexes))
  {
    var folder := SpliceChoices(regexes);
    SpliceKeepsChoice(regexes);
    hide SpliceChoices;
    DenotesParts(folder);
    NoChoice();
    if |folder| == 1 {
      OneSequence(folder[0]);
      assert folder == [folder[0]];
    }
  }

  lemma NoChoice()
    ensures UnionAll(Each([])) == iset{} == Denotes(Nothing)
  {
  }

  lemma AltFolds(a: seq<Expr>, b: seq<Expr>)
    ensures UnionAll(Each(a + b)) == UnionAll(Each(a)) + UnionAll(Each(b))
  {
    EachAppend(a, b);
    UnionAllAppend(Each(a), Each(b));
  }

  function Conj(regexes: seq<Expr>): Expr {
    if regexes == [] then Everything else if |regexes| == 1 then regexes[0] else Both(regexes)
  }

  lemma ConjDenotes(regexes: seq<Expr>)
    ensures Denotes(Conj(regexes)) == IntersectAll(Each(regexes))
  {
    DenotesParts(regexes);
    if |regexes| == 1 {
      assert Each(regexes) == [Denotes(regexes[0])] && [Denotes(regexes[0])][1..] == [];
      assert IntersectAll([]) == AllWords();
      assert Denotes(regexes[0]) * AllWords() == Denotes(regexes[0]);
    }
  }

  function Comp(regex: Expr): Expr {
    if regex.Complement? then regex.child else Complement(regex)
  }

  lemma CompDenotes(regex: Expr)
    ensures forall w: Word :: w in Denotes(Comp(regex)) <==> w !in Denotes(regex)
  {
  }

  // ---- Repetition.

  /** The bounds an expression may be repeated with. */
  ghost predicate ValidBounds(min: nat, max: int) {
    min <= IntMax && (max == Unlimited || min <= max <= IntMax)
  }

  const IntMax: int := 0x7FFF_FFFF

  /** The result is missing where the product of two bounds does not fit into an `int`. */
  function Repeat(regex: Expr, min: nat, max: int): Option<Expr> {
    if min == 0 && max == 0 then Some(Empty)
    else if min == 1 && max == 1 then Some(regex)
    else if regex.Everything? then Some(Everything)
    else if regex.Empty? then Some(Empty)
    else if min == 0 && max == Unlimited && regex.AnySymbol? then Some(Everything)
    else if min == 0 && max == Unlimited && regex.Repetition? && regex.min == 0 && regex.max == Unlimited then Some(regex)
    else if min == 0 && max == Unlimited && regex.Repetition? && regex.min == 0 then Some(Repetition(regex.child, 0, Unlimited))
    else if min == max && regex.Repetition? then
      if min * regex.min > IntMax || max * regex.max > IntMax then None
      else Some(Repetition(regex.child, min * regex.min, max * regex.max))
    else Some(Repetition(regex, min, max))
  }

  /** A fixed number of times, at least twice, of a repetition. */
  ghost predicate Multiplies(regex: Expr, min: nat, max: int) {
    min == max && min >= 2 && regex.Repetition?
  }

  /** Literals are in the alphabet, bounds make sense, and intersections have a part. */
  ghost predicate WellFormed(e: Expr, n: nat) {
    match e
    case Literal(x) => x < n
    case Sequence(parts) => forall i :: 0 <= i < |parts| ==> WellFormed(parts[i], n)
    case Choice(parts) => forall i :: 0 <= i < |parts| ==> WellFormed(parts[i], n)
    case Both(parts) => |parts| > 0 && forall i :: 0 <= i < |parts| ==> WellFormed(parts[i], n)
    case Repetition(child, min, max) => ValidBounds(min, max) && max != 0 && WellFormed(child, n)
    case Complement(child) => WellFormed(child, n)
    case _ => true
  }

  lemma RepeatNone(l: Lang)
    ensures Repeated(l, 0, true, 0) == Epsilon() && Repeated(l, 1, true, 1) == l
  {
    PowerOne(l);
    forall w: Word ensures w in Repeated(l, 0, true, 0) <==> w == [] {
      if w == [] {
        assert InRepeat(l, 0, true, 0, 0, w);
      }
    }
    forall w: Word ensures w in Repeated(l, 1, true, 1) <==> w in l {
      if w in l {
        assert InRepeat(l, 1, true, 1, 1, w);
      }
    }
  }

  lemma {:induction false} PowerOfEpsilon(n: nat)
    ensures Power(Epsilon(), n) == Epsilon()
  {
    hide Concat;
    if n > 0 {
      PowerOfEpsilon(n - 1);
      ConcatEpsilon(Epsilon());
    }
  }

  lemma RepeatEmpty(min: nat, max: int)
    requires ValidBounds(min, max)
    ensures Repeated(Epsilon(), min, max != Unlimited, Upper(max)) == Epsilon()
  {
    hide Power;
    var bounded, top := max != Unlimited, Upper(max);
    var r := Repeated(Epsilon(), min, bounded, top);
    forall w: Word ensures w in r <==> w == [] {
      PowerOfEpsilon(min);
      if w == [] {
        assert InRepeat(Epsilon(), min, bounded, top, min, w);
      }
      if w in r {
        var n: nat :| InRepeat(Epsilon(), min, bounded, top, n, w);
        PowerOfEpsilon(n);
      }
    }
  }

  lemma {:induction false} PowerOfAll(n: nat, w: Word)
    requires n > 0
    ensures w in Power(AllWords(), n)
  {
    if n == 1 {
      PowerOne(AllWords());
    } else {
      PowerOfAll(n - 1, []);
      InConcat(AllWords(), Power(AllWords(), n - 1), w, []);
      assert w + [] == w;
    }
  }

  lemma RepeatAll(min: nat, max: int)
    requires ValidBounds(min, max) && !(min == 0 && max == 0)
    ensures Repeated(AllWords(), min, max != Unlimited, Upper(max)) == AllWords()
  {
    var bounded, top := max != Unlimited, Upper(max);
    var r := Repeated(AllWords(), min, bounded, top);
    forall w: Word ensures w in r {
      var n := if min == 0 then 1 else min;
      PowerOfAll(n, w);
      assert InRepeat(AllWords(), min, bounded, top, n, w);
    }
  }

  lemma {:induction false} PowerOfAny(w: Word)
    ensures w in Power(Denotes(AnySymbol), |w|)
  {
    if w != [] {
      PowerOfAny(w[1..]);
      assert [w[0]] in Denotes(AnySymbol) && w == [w[0]] + w[1..];
      InConcat(Denotes(AnySymbol), Power(Denotes(AnySymbol), |w| - 1), [w[0]], w[1..]);
    }
  }

  lemma StarOfAny()
    ensures Star(Denotes(AnySymbol)) == AllWords()
  {
    forall w: Word ensures w in Star(Denotes(AnySymbol)) {
      PowerOfAny(w);
      InStar(Denotes(AnySymbol), |w|, w);
    }
  }

  /** The star of up to n words, n positive, and of any number of words, is the star of the words. */
  lemma StarOfRepetition(l: Lang, bounded: bool, max: nat)
    requires bounded ==> max > 0
    ensures Star(Repeated(l, 0, bounded, max)) == Star(l)
  {
    var r := Repeated(l, 0, bounded, max);
    forall w | w in r ensures w in Star(l) {
      var n: nat :| InRepeat(l, 0, bounded, max, n, w);
      InStar(l, n, w);
    }
    forall w | w in l ensures w in Star(r) {
      PowerOne(l);
      assert InRepeat(l, 0, bounded, max, 1, w);
      WordInStar(r, w);
    }
    SameStar(r, l);
  }

  /** A repetition has a result unless it multiplies bounds too large; the language is right unless it multiplies "unlimited". */
  lemma RepeatDenotes(regex: Expr, min: nat, max: int, n: nat)
    requires ValidBounds(min, max) && WellFormed(regex, n)
    ensures Repeat(regex, min, max) == None <==> Multiplies(regex, min, max) && (min * regex.min > IntMax || min * regex.max > IntMax)
    ensures var e := Repeat(regex, min, max);
            e.Some? && !(Multiplies(regex, min, max) && regex.max == Unlimited) ==>
              Denotes(e.value) == Repeated(Denotes(regex), min, max != Unlimited, Upper(max)) && WellFormed(e.value, n)
  {
    hide Concat, Power, Repeated;
    RepeatNone(Denotes(regex));
    if (min == 0 && max == 0) || (min == 1 && max == 1) {
    } else if regex.Everything? {
      RepeatAll(min, max);
    } else if regex.Empty? {
      RepeatEmpty(min, max);
    } else if min == 0 && max == Unlimited && regex.AnySymbol? {
      StarOfAny();
      SameUnbounded(Denotes(regex), 0, Upper(max), 0);
    } else if min == 0 && max == Unlimited && regex.Repetition? && regex.min == 0 {
      var l := Denotes(regex.child);
      StarOfRepetition(l, regex.max != Unlimited, Upper(regex.max));
      SameUnbounded(Denotes(regex), 0, Upper(max), 0);
      SameUnbounded(l, 0, Upper(Unlimited), 0);
    } else if min == max && regex.Repetition? && regex.max != Unlimited {
      FoldRepetition(regex.child, regex.min, regex.max, min);
      Bounds(regex.min, regex.max, min);
      FoldedBounds(regex.min, regex.max, min);
    }
  }

  lemma FoldedBounds(min: nat, max: int, n: nat)
    requires min <= max && max > 0 && n > 0
    ensures n * min <= n * max && n * max > 0
  {
  }

  /** Two hundred and fifty-six million times up to sixteen: too much for an `int`. */
  lemma RepeatOverflows()
    ensures Repeat(Repetition(Literal(0), 0, 16), 0x1000_0000, 0x1000_0000) == None
  {
  }

  /** Without an upper bound its value does not matter. */
  lemma SameUnbounded(l: Lang, min: nat, max: nat, other: nat)
    ensures Repeated(l, min, false, max) == Repeated(l, min, false, other)
  {
    forall w: Word ensures w in Repeated(l, min, false, max) <==> w in Repeated(l, min, false, other) {
      if w in Repeated(l, min, false, max) {
        var n: nat :| InRepeat(l, min, false, max, n, w);
        assert InRepeat(l, min, false, other, n, w);
      }
      if w in Repeated(l, min, false, other) {
        var n: nat :| InRepeat(l, min, false, other, n, w);
        assert InRepeat(l, min, false, max, n, w);
      }
    }
  }

  lemma FoldRepetition(child: Expr, min: nat, max: int, n: nat)
    requires min <= max && n >= 2
    ensures Denotes(Repetition(child, n * min, n * max)) == Repeated(Denotes(Repetition(child, min, max)), n, true, n)
  {
    var l := Denotes(child);
    var r := Repeated(l, min, true, max);
    assert n * max >= 0;
    PowerOfRange(l, min, max, n);
    ExactlyPower(r, n);
  }

  // ---- Folding over an unlimited repetition goes wrong.

  function Copies(x: nat, n: nat): Word {
    seq(n, _ => x)
  }

  lemma {:induction false} PowerOfLiteral(x: nat, n: nat, w: Word)
    ensures w in Power(iset{[x]}, n) <==> w == Copies(x, n)
  {
    var l: Lang := iset{[x]};
    if n > 0 {
      if w in Power(l, n) {
        var u, v := SplitOf(l, Power(l, n - 1), w);
        PowerOfLiteral(x, n - 1, v);
        assert [x] + Copies(x, n - 1) == Copies(x, n);
      }
      if w == Copies(x, n) {
        PowerOfLiteral(x, n - 1, Copies(x, n - 1));
        InConcat(l, Power(l, n - 1), [x], Copies(x, n - 1));
        assert [x] + Copies(x, n - 1) == Copies(x, n);
      }
    } else {
      assert Copies(x, 0) == [];
    }
  }

  lemma TooManyCopies(x: nat, min: nat, top: nat, k: nat)
    requires k > top
    ensures Copies(x, k) !in Repeated(iset{[x]}, min, true, top)
  {
    forall n: nat ensures !InRepeat(iset{[x]}, min, true, top, n, Copies(x, k)) {
      PowerOfLiteral(x, n, Copies(x, k));
      assert n != k ==> |Copies(x, n)| != |Copies(x, k)|;
    }
  }

  /** What the bound -1 becomes when it is multiplied and taken for an unsigned number. */
  function WrappedBound(n: nat): nat
    requires 2 <= n < 0x8000_0000
  {
    0x1_0000_0000 - n
  }

  /** n times at least m times a child, and what that is folded to: -1 is multiplied like any other bound. */
  lemma FoldedUnlimited(child: Expr, m: nat, n: nat)
    requires 2 <= n < 0x8000_0000
    ensures var regex := Repetition(child, m, Unlimited); var l := Denotes(child);
            && Repeated(Denotes(regex), n, true, n) == Repeated(l, n * m, false, 0)
            && (n * m <= IntMax ==> Denotes(Repeat(regex, n, n).value) == Repeated(l, n * m, true, WrappedBound(n)))
  {
    var regex, l := Repetition(child, m, Unlimited), Denotes(child);
    SameUnbounded(l, m, Upper(Unlimited), 0);
    var r := Repeated(l, m, false, 0);
    assert Denotes(regex) == r;
    PowerOfUnbounded(l, m, n);
    ExactlyPower(r, n);
    Wraps(n);
    if n * m <= IntMax {
      var folded := Repetition(child, n * m, n * Unlimited);
      assert Repeat(regex, n, n) == Some(folded);
      hide Repeat, Repeated, Power;
      assert Denotes(folded) == Repeated(l, n * m, true, Upper(n * Unlimited));
    }
  }

  lemma Wraps(n: nat)
    requires 2 <= n < 0x8000_0000
    ensures n * Unlimited < 0 && n * Unlimited != Unlimited && Upper(n * Unlimited) == WrappedBound(n)
  {
  }

  /** A fixed number of times a repetition: the fold is right exactly if the bound is not "unlimited" or the bound it becomes loses nothing. */
  lemma FoldRightIff(child: Expr, m: nat, max: int, n: nat, symbols: nat)
    requires ValidBounds(m, max) && max != 0 && 2 <= n < 0x8000_0000 && n * m <= IntMax && n * max <= IntMax && WellFormed(child, symbols)
    ensures var regex := Repetition(child, m, max); var l := Denotes(child);
            Denotes(Repeat(regex, n, n).value) == Repeated(Denotes(regex), n, true, n)
            <==> max != Unlimited || Power(l, WrappedBound(n) + 1) <= Repeated(l, n * m, true, WrappedBound(n))
  {
    var regex := Repetition(child, m, max);
    if max == Unlimited {
      FoldedUnlimited(child, m, n);
      BoundIsNoLossIff(Denotes(child), n * m, WrappedBound(n));
    } else {
      RepeatDenotes(regex, n, n, symbols);
    }
  }

  /** Of a repeated letter, then, the fold is right exactly if the bound is not "unlimited". */
  lemma LetterFoldIff(x: nat, m: nat, max: int, n: nat)
    requires ValidBounds(m, max) && max != 0 && 2 <= n < 0x8000_0000 && n * m <= IntMax && n * max <= IntMax
    ensures var regex := Repetition(Literal(x), m, max);
            Denotes(Repeat(regex, n, n).value) == Repeated(Denotes(regex), n, true, n) <==> max != Unlimited
  {
    FoldRightIff(Literal(x), m, max, n, x + 1);
    var top := WrappedBound(n);
    PowerOfLiteral(x, top + 1, Copies(x, top + 1));
    TooManyCopies(x, n * m, top, top + 1);
  }

  /** For every n from 2 on, (x{m,}){n} loses all long words when it is folded. */
  lemma UnlimitedFoldLosesWords(x: nat, m: nat, n: nat, k: nat)
    requires 2 <= n < 0x8000_0000 && k >= n * m && k >= 0x1_0000_0000
    ensures var regex := Repetition(Literal(x), m, Unlimited);
            Copies(x, k) in Repeated(Denotes(regex), n, true, n) && (n * m <= IntMax ==> Copies(x, k) !in Denotes(Repeat(regex, n, n).value))
  {
    FoldedUnlimited(Literal(x), m, n);
    PowerOfLiteral(x, k, Copies(x, k));
    assert InRepeat(iset{[x]}, n * m, false, 0, k, Copies(x, k));
    TooManyCopies(x, n * m, WrappedBound(n), k);
    hide Repeat, Power;
  }

  // ---- Whole expressions.

  ghost predicate AllWellFormed(parts: seq<Expr>, n: nat) {
    forall i :: 0 <= i < |parts| ==> WellFormed(parts[i], n)
  }

  lemma {:induction false} SplicedWellFormed(regexes: seq<Expr>, n: nat)
    requires AllWellFormed(regexes, n)
    ensures AllWellFormed(SpliceSequences(regexes), n) && AllWellFormed(SpliceChoices(regexes), n)
  {
    if regexes != [] {
      var p := regexes[|regexes| - 1];
      assert WellFormed(p, n);
      SplicedWellFormed(regexes[..|regexes| - 1], n);
      assert AllWellFormed(SequenceParts(p), n) && AllWellFormed(ChoiceParts(p), n);
    }
  }

  /** Putting well-formed expressions together gives well-formed ones. */
  lemma FoldsWellFormed(regexes: seq<Expr>, n: nat)
    requires AllWellFormed(regexes, n)
    ensures WellFormed(CatOf(regexes), n) && WellFormed(AltOf(regexes), n) && WellFormed(Conj(regexes), n)
  {
    SplicedWellFormed(regexes, n);
    hide SpliceSequences, SpliceChoices;
  }

  lemma CompWellFormed(regex: Expr, n: nat)
    requires WellFormed(regex, n)
    ensures WellFormed(Comp(regex), n)
  {
  }

  /** The expression the library holds after `raw` has been put together piece by piece. */
  ghost function Fold(raw: Expr): Option<Expr> {
    match raw
    case Sequence(parts) =>
      var folded := seq(|parts|, i requires 0 <= i < |parts| => Fold(parts[i]));
      if AllSome(folded) then Some(CatOf(Values(folded))) else None
    case Choice(parts) =>
      var folded := seq(|parts|, i requires 0 <= i < |parts| => Fold(parts[i]));
      if AllSome(folded) then Some(AltOf(Values(folded))) else None
    case Both(parts) =>
      var folded := seq(|parts|, i requires 0 <= i < |parts| => Fold(parts[i]));
      if AllSome(folded) then Some(Conj(Values(folded))) else None
    case Repetition(child, min, max) => var e := Fold(child); if e.Some? then Repeat(e.value, min, max) else None
    case Complement(child) => var e := Fold(child); if e.Some? then Some(Comp(e.value)) else None
    case _ => Some(raw)
  }

  ghost predicate AllSome(es: seq<Option<Expr>>) {
    forall i :: 0 <= i < |es| ==> es[i].Some?
  }

  ghost function Values(es: seq<Option<Expr>>): (r: seq<Expr>)
    requires AllSome(es)
    ensures |r| == |es| && forall i :: 0 <= i < |r| ==> r[i] == es[i].value
  {
    seq(|es|, i requires 0 <= i < |es| => es[i].value)
  }

  /** The folded parts of a list. */
  ghost function FoldAll(parts: seq<Expr>): (r: seq<Option<Expr>>)
    ensures |r| == |parts| && forall i :: 0 <= i < |r| ==> r[i] == Fold(parts[i])
  {
    seq(|parts|, i requires 0 <= i < |parts| => Fold(parts[i]))
  }

  lemma FoldParts(parts: seq<Expr>)
    ensures Fold(Sequence(parts)) == if AllSome(FoldAll(parts)) then Some(CatOf(Values(FoldAll(parts)))) else None
    ensures Fold(Choice(parts)) == if AllSome(FoldAll(parts)) then Some(AltOf(Values(FoldAll(parts)))) else None
    ensures Fold(Both(parts)) == if AllSome(FoldAll(parts)) then Some(Conj(Values(FoldAll(parts)))) else None
  {
    assert FoldAll(parts) == seq(|parts|, i requires 0 <= i < |parts| => Fold(parts[i]));
  }

  /** Literals are in the alphabet, and no repetition of a repetition overflows or multiplies "unlimited". */
  ghost predicate FoldsWell(raw: Expr, n: nat) {
    match raw
    case Literal(x) => x < n
    case Sequence(parts) => forall i :: 0 <= i < |parts| ==> FoldsWell(parts[i], n)
    case Choice(parts) => forall i :: 0 <= i < |parts| ==> FoldsWell(parts[i], n)
    case Both(parts) => forall i :: 0 <= i < |parts| ==> FoldsWell(parts[i], n)
    case Repetition(child, min, max) =>
      ValidBounds(min, max) && FoldsWell(child, n) && (Fold(child).Some? ==> Bounded(Fold(child).value, min, max))
    case Complement(child) => FoldsWell(child, n)
    case _ => true
  }

  ghost predicate Bounded(regex: Expr, min: nat, max: int) {
    Multiplies(regex, min, max) ==> regex.max != Unlimited && min * regex.min <= IntMax && min * regex.max <= IntMax
  }

  /** The folded expression of `raw` means what `raw` means. */
  ghost predicate FoldedRight(raw: Expr, n: nat) {
    Fold(raw).Some? && Denotes(Fold(raw).value) == Denotes(raw) && WellFormed(Fold(raw).value, n)
  }

  lemma FoldedList(parts: seq<Expr>, n: nat)
    requires forall i :: 0 <= i < |parts| ==> FoldedRight(parts[i], n)
    ensures AllSome(FoldAll(parts)) && Each(Values(FoldAll(parts))) == Each(parts) && AllWellFormed(Values(FoldAll(parts)), n)
  {
    forall i | 0 <= i < |parts| ensures FoldAll(parts)[i].Some? {
      assert FoldedRight(parts[i], n);
    }
    hide Fold, Denotes;
    forall i | 0 <= i < |parts| ensures Each(Values(FoldAll(parts)))[i] == Each(parts)[i] && WellFormed(Values(FoldAll(parts))[i], n) {
      assert FoldedRight(parts[i], n);
    }
  }

  lemma ListDenotes(parts: seq<Expr>, n: nat)
    requires forall i :: 0 <= i < |parts| ==> FoldedRight(parts[i], n)
    ensures FoldedRight(Sequence(parts), n) && FoldedRight(Choice(parts), n) && FoldedRight(Both(parts), n)
  {
    FoldedList(parts, n);
    var es := Values(FoldAll(parts));
    FoldParts(parts);
    DenotesParts(parts);
    CatDenotes(es);
    AltDenotes(es);
    ConjDenotes(es);
    FoldsWellFormed(es, n);
    hide Fold, Denotes, CatOf, AltOf, Conj, WellFormed;
  }

  /** Simplification on the way up keeps the language of every expression that folds well. */
  lemma {:induction false} FoldDenotes(raw: Expr, n: nat)
    requires FoldsWell(raw, n)
    ensures FoldedRight(raw, n)
  {
    match raw
    case Sequence(parts) =>
      forall i | 0 <= i < |parts| ensures FoldedRight(parts[i], n) {
        FoldDenotes(parts[i], n);
      }
      ListDenotes(parts, n);
    case Choice(parts) =>
      forall i | 0 <= i < |parts| ensures FoldedRight(parts[i], n) {
        FoldDenotes(parts[i], n);
      }
      ListDenotes(parts, n);
    case Both(parts) =>
      forall i | 0 <= i < |parts| ensures FoldedRight(parts[i], n) {
        FoldDenotes(parts[i], n);
      }
      ListDenotes(parts, n);
    case Repetition(child, min, max) =>
      FoldDenotes(child, n);
      RepeatDenotes(Fold(child).value, min, max, n);
    case Complement(child) =>
      FoldDenotes(child, n);
      CompDenotes(Fold(child).value);
      CompWellFormed(Fold(child).value, n);
    case _ =>
  }

  // ---- What folding leaves.

  /** No part that says nothing, no list in a list of its kind, no repetition that repeats nothing or folds further, no double complement. */
  ghost predicate Simplified(e: Expr) {
    match e
    case Sequence(parts) => |parts| >= 2 && forall i :: 0 <= i < |parts| ==> Simplified(parts[i]) && !parts[i].Empty? && !parts[i].Sequence?
    case Choice(parts) => |parts| >= 2 && forall i :: 0 <= i < |parts| ==> Simplified(parts[i]) && !parts[i].Nothing? && !parts[i].Choice?
    case Both(parts) => |parts| >= 2 && forall i :: 0 <= i < |parts| ==> Simplified(parts[i])
    case Repetition(child, min, max) =>
      && Simplified(child) && !child.Everything? && !child.Empty?
      && !(min == max && (min <= 1 || child.Repetition?))
    case Complement(child) => Simplified(child) && !child.Complement?
    case _ => true
  }

  ghost predicate AllSimplified(parts: seq<Expr>) {
    forall i :: 0 <= i < |parts| ==> Simplified(parts[i])
  }

  lemma {:induction false} SplicedSequences(regexes: seq<Expr>)
    requires AllSimplified(regexes)
    ensures forall p :: p in SpliceSequences(regexes) ==> Simplified(p) && !p.Empty? && !p.Sequence?
  {
    if regexes != [] {
      SplicedSequences(regexes[..|regexes| - 1]);
      assert Simplified(regexes[|regexes| - 1]);
    }
  }

  lemma {:induction false} SplicedChoices(regexes: seq<Expr>)
    requires AllSimplified(regexes)
    ensures forall p :: p in SpliceChoices(regexes) ==> Simplified(p) && !p.Nothing? && !p.Choice?
  {
    if regexes != [] {
      SplicedChoices(regexes[..|regexes| - 1]);
      assert Simplified(regexes[|regexes| - 1]);
    }
  }

  lemma RepeatSimplifies(regex: Expr, min: nat, max: int)
    requires Simplified(regex)
    ensures Repeat(regex, min, max).Some? ==> Simplified(Repeat(regex, min, max).value)
  {
    if min == max && min >= 2 && regex.Repetition? {
      NoNewFold(regex.min, regex.max, min);
    }
  }

  lemma NoNewFold(a: nat, b: int, n: nat)
    requires n >= 2
    ensures n * a == n * b ==> a == b
    ensures n * a <= 1 ==> a == 0
  {
    if a != b {
      assert n * (a - b) != 0;
    }
  }

  /** Whatever was written, the expression that is put together is simplified. */
  lemma {:induction false} FoldSimplifies(raw: Expr)
    ensures Fold(raw).Some? ==> Simplified(Fold(raw).value)
    decreases raw, 1
  {
    match raw
    case Sequence(parts) =>
      PartsSimplified(raw, parts);
      FoldParts(parts);
      if AllSome(FoldAll(parts)) {
        SplicedSequences(Values(FoldAll(parts)));
      }
    case Choice(parts) =>
      PartsSimplified(raw, parts);
      FoldParts(parts);
      if AllSome(FoldAll(parts)) {
        SplicedChoices(Values(FoldAll(parts)));
      }
    case Both(parts) =>
      PartsSimplified(raw, parts);
      FoldParts(parts);
    case Repetition(child, min, max) =>
      FoldSimplifies(child);
      if Fold(child).Some? {
        RepeatSimplifies(Fold(child).value, min, max);
      }
    case Complement(child) =>
      FoldSimplifies(child);
    case _ =>
  }

  lemma {:induction false} PartsSimplified(raw: Expr, parts: seq<Expr>)
    requires raw == Sequence(parts) || raw == Choice(parts) || raw == Both(parts)
    ensures AllSome(FoldAll(parts)) ==> AllSimplified(Values(FoldAll(parts)))
    decreases raw, 0
  {
    forall i | 0 <= i < |parts| ensures FoldAll(parts)[i].Some? ==> Simplified(FoldAll(parts)[i].value) {
      FoldSimplifies(parts[i]);
    }
  }

  /** Puts an expression together, smallest pieces first. */
  method Build(raw: Expr) returns (e: Option<Expr>)
    ensures e == Fold(raw)
    decreases raw, 1
  {
    match raw
    case Sequence(parts) =>
      FoldParts(parts);
      var folded := BuildAll(raw, parts);
      if folded.None? {
        return None;
      }
      var c := Cat(folded.value);
      return Some(c);
    case Choice(parts) =>
      FoldParts(parts);
      var folded := BuildAll(raw, parts);
      if folded.None? {
        return None;
      }
      var c := Alt(folded.value);
      return Some(c);
    case Both(parts) =>
      FoldParts(parts);
      var folded := BuildAll(raw, parts);
      if folded.None? {
        return None;
      }
      return Some(Conj(folded.value));
    case Repetition(child, min, max) =>
      var c := Build(child);
      return if c.Some? then Repeat(c.value, min, max) else None;
    case Complement(child) =>
      var c := Build(child);
      return if c.Some? then Some(Comp(c.value)) else None;
    case _ =>
      return Some(raw);
  }

  method BuildAll(ghost raw: Expr, parts: seq<Expr>) returns (es: Option<seq<Expr>>)
    requires raw == Sequence(parts) || raw == Choice(parts) || raw == Both(parts)
    ensures es == if AllSome(FoldAll(parts)) then Some(Values(FoldAll(parts))) else None
    decreases raw, 0
  {
    var done: seq<Expr> := [];
    var i := 0;
    while i < |parts|
      invariant i <= |parts| && |done| == i && forall j :: 0 <= j < i ==> Fold(parts[j]) == Some(done[j])
    {
      var e := Build(parts[i]);
      if e.None? {
        assert FoldAll(parts)[i].None?;
        return None;
      }
      done := done + [e.value];
      i := i + 1;
    }
    assert AllSome(FoldAll(parts));
    assert done == Values(FoldAll(parts));
    return Some(done);
  }
}
