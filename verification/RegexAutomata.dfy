/** The automata of concatenation, choice, star and repetition, put together by appending copies and adding empty steps. */
module RegexAutomata {
  import opened Automata
  import opened Languages

  /** Adds a copy of `B` behind the states of `A`. */
  function Append(A: Automaton, B: Automaton): Automaton {
    Automaton(A.states + B.states, A.symbols,
              A.trans + (set e | e in B.trans :: Edge(e.source + A.states, e.symbol, e.target + A.states)),
              A.accept + (set s | s in B.accept :: s + A.states))
  }

  lemma AppendHas(A: Automaton, B: Automaton)
    requires A.Valid() && B.Valid()
    ensures forall s: nat, a: nat, t: nat :: Append(A, B).Has(s, a, t) <==>
              if s < A.states then A.Has(s, a, t) else t >= A.states && B.Has(s - A.states, a, t - A.states)
    ensures forall s: nat :: s in Append(A, B).accept <==> if s < A.states then s in A.accept else s - A.states in B.accept
  {
    var C := Append(A, B);
    forall s: nat, a: nat, t: nat
      ensures C.Has(s, a, t) <==> if s < A.states then A.Has(s, a, t) else t >= A.states && B.Has(s - A.states, a, t - A.states)
    {
      if s >= A.states && t >= A.states && B.Has(s - A.states, a, t - A.states) {
        var e := Edge(s - A.states, a, t - A.states);
        assert e in B.trans;
        assert Edge(e.source + A.states, e.symbol, e.target + A.states) in C.trans;
      }
    }
    forall s: nat ensures s in C.accept <==> if s < A.states then s in A.accept else s - A.states in B.accept {
      if s >= A.states && s - A.states in B.accept {
        var r := s - A.states;
        assert r + A.states in C.accept;
      }
    }
  }

  /** From `base` on, `C` is a copy of `B`. */
  ghost predicate Copy(C: Automaton, B: Automaton, base: nat) {
    && (forall s: nat, a: nat, t: nat :: s >= base ==> (C.Has(s, a, t) <==> t >= base && B.Has(s - base, a, t - base)))
    && (forall s: nat :: s >= base ==> (s in C.accept <==> s - base in B.accept))
  }

  lemma {:induction false} CopyAccepts(C: Automaton, B: Automaton, base: nat, s: nat, w: Word)
    requires Copy(C, B, base)
    ensures Accepts(C, base + s, w) <==> Accepts(B, s, w)
    decreases |w|
  {
    var n: nat := base + s;
    if w != [] {
      if Accepts(C, n, w) {
        var t: nat :| C.Has(n, w[0], t) && Accepts(C, t, w[1..]);
        CopyAccepts(C, B, base, t - base, w[1..]);
        assert B.Has(s, w[0], t - base);
      }
      if Accepts(B, s, w) {
        var t: nat :| B.Has(s, w[0], t) && Accepts(B, t, w[1..]);
        CopyAccepts(C, B, base, t, w[1..]);
        assert C.Has(n, w[0], base + t);
      }
    }
  }

  // ---- Wiring the accepting states of one automaton to the initial state of the next.

  ghost predicate WiredRow(A: Automaton, C: Automaton, s: nat, limit: nat) {
    forall a: nat, t: nat :: C.Has(s, a, t) <==> A.Has(s, a, t) || (s < limit && s in A.accept && C.Has(A.states, a, t))
  }

  /** `C` is `A`, whose accepting states below `limit` can do what the initial state of a copy of `B` can. */
  ghost predicate Wired(A: Automaton, B: Automaton, C: Automaton, limit: nat) {
    && C.states == A.states + B.states && C.symbols == A.symbols && Copy(C, B, A.states)
    && forall s: nat :: s < A.states ==> WiredRow(A, C, s, limit)
  }

  /** The words other than the empty one. */
  ghost function Proper(l: Lang): Lang {
    l - Epsilon()
  }

  /** The automaton before wiring, with the acceptance its states have afterwards. */
  ghost function Before(A: Automaton, C: Automaton): Automaton {
    A.(accept := set s | s in C.accept && s < A.states)
  }

  /** Either the word ends before the copy, or it runs through an accepting state of `A` into the copy. */
  lemma {:induction false} WiredAccepts(A: Automaton, B: Automaton, C: Automaton, s: nat, w: Word)
    requires A.Valid() && Wired(A, B, C, A.states) && s < A.states
    ensures Accepts(C, s, w) <==> Accepts(Before(A, C), s, w) || w in Concat(LangFrom(A, s), Proper(LangFrom(B, 0)))
    decreases |w|
  {
    assert WiredRow(A, C, s, A.states);
    if w == [] {
      NotProper(LangFrom(A, s), LangFrom(B, 0));
    } else {
      if Accepts(C, s, w) {
        WiredGoes(A, B, C, s, w);
      }
      if Accepts(Before(A, C), s, w) {
        var t: nat :| Before(A, C).Has(s, w[0], t) && Accepts(Before(A, C), t, w[1..]);
        assert A.Has(s, w[0], t) && Edge(s, w[0], t) in A.trans;
        WiredAccepts(A, B, C, t, w[1..]);
        assert C.Has(s, w[0], t);
      }
      if w in Concat(LangFrom(A, s), Proper(LangFrom(B, 0))) {
        WiredComes(A, B, C, s, w);
      }
    }
  }

  lemma NotProper(k: Lang, l: Lang)
    ensures [] !in Concat(k, Proper(l))
  {
    if [] in Concat(k, Proper(l)) {
      var u, v := SplitOf(k, Proper(l), []);
    }
  }

  lemma {:induction false} WiredGoes(A: Automaton, B: Automaton, C: Automaton, s: nat, w: Word)
    requires A.Valid() && Wired(A, B, C, A.states) && s < A.states && w != [] && Accepts(C, s, w)
    ensures Accepts(Before(A, C), s, w) || w in Concat(LangFrom(A, s), Proper(LangFrom(B, 0)))
    decreases |w|, 0
  {
    assert WiredRow(A, C, s, A.states);
    var t: nat :| C.Has(s, w[0], t) && Accepts(C, t, w[1..]);
    if A.Has(s, w[0], t) {
      assert Edge(s, w[0], t) in A.trans;
      WiredAccepts(A, B, C, t, w[1..]);
      if Accepts(Before(A, C), t, w[1..]) {
        assert Before(A, C).Has(s, w[0], t);
      } else {
        Prepend(A, s, t, Proper(LangFrom(B, 0)), w);
      }
    } else {
      assert Accepts(C, A.states + 0, w);
      CopyAccepts(C, B, A.states, 0, w);
      EmptyFirst(LangFrom(A, s), Proper(LangFrom(B, 0)), w);
    }
  }

  lemma {:induction false} WiredComes(A: Automaton, B: Automaton, C: Automaton, s: nat, w: Word)
    requires A.Valid() && Wired(A, B, C, A.states) && s < A.states && w != [] && w in Concat(LangFrom(A, s), Proper(LangFrom(B, 0)))
    ensures Accepts(C, s, w)
    decreases |w|, 0
  {
    assert WiredRow(A, C, s, A.states);
    var u, v := SplitOf(LangFrom(A, s), Proper(LangFrom(B, 0)), w);
    if u == [] {
      assert v == w;
      CopyAccepts(C, B, A.states, 0, w);
      var t: nat :| C.Has(A.states + 0, w[0], t) && Accepts(C, t, w[1..]);
      assert C.Has(s, w[0], t);
    } else {
      var t: nat :| A.Has(s, u[0], t) && Accepts(A, t, u[1..]);
      assert Edge(s, u[0], t) in A.trans;
      assert w[0] == u[0] && w[1..] == u[1..] + v;
      InConcat(LangFrom(A, t), Proper(LangFrom(B, 0)), u[1..], v);
      WiredAccepts(A, B, C, t, w[1..]);
      assert C.Has(s, w[0], t);
    }
  }

  lemma StepBack(A: Automaton, s: nat, a: nat, t: nat, u: Word)
    requires A.Has(s, a, t) && u in LangFrom(A, t)
    ensures [a] + u in LangFrom(A, s)
  {
    assert ([a] + u)[0] == a && ([a] + u)[1..] == u;
  }

  /** Appending wires nothing yet; `A` may be `F` with fewer accepting states. */
  lemma AppendWired(F: Automaton, A: Automaton, B: Automaton, limit: nat)
    requires F.Valid() && B.Valid() && A == F.(accept := A.accept) && F.symbols == B.symbols && forall s: nat :: s in A.accept ==> s >= limit
    ensures Wired(A, B, Append(F, B), limit) && Append(F, B).Valid()
  {
    AppendHas(F, B);
    var C := Append(F, B);
    forall e | e in C.trans ensures e.source < C.states && e.symbol < C.symbols && e.target < C.states {
    }
    assert C.states == A.states + B.states && C.symbols == A.symbols;
    hide Append;
    forall s: nat, a: nat, t: nat ensures A.Has(s, a, t) <==> F.Has(s, a, t) {
    }
    forall s: nat | s < A.states ensures WiredRow(A, C, s, limit) {
    }
  }

  lemma EpsilonValid(A: Automaton, from: nat, to: nat)
    requires A.Valid() && from < A.states
    ensures AddEpsilon(A, from, to).Valid()
  {
  }

  /** One empty step wires one state. */
  lemma WireOne(A: Automaton, B: Automaton, C: Automaton, p: nat, accept: set<nat>)
    requires Wired(A, B, C, p) && p < A.states && p in A.accept && A.states > 0
    requires forall s: nat :: s >= A.states ==> (s in accept <==> s in C.accept)
    ensures Wired(A, B, AddEpsilon(C.(accept := accept), p, A.states), p + 1)
  {
    var c := C.(accept := accept);
    forall s: nat, a: nat, t: nat ensures c.Has(s, a, t) <==> C.Has(s, a, t) {
    }
    EpsilonHas(c, p, A.states);
    var D := AddEpsilon(c, p, A.states);
    hide AddEpsilon;
    var limit := p + 1;
    forall s: nat | s < A.states ensures WiredRow(A, D, s, limit) {
      assert WiredRow(A, C, s, p);
    }
  }

  lemma SkipOne(A: Automaton, B: Automaton, C: Automaton, p: nat)
    requires Wired(A, B, C, p) && p !in A.accept
    ensures Wired(A, B, C, p + 1)
  {
    var limit := p + 1;
    forall s: nat | s < A.states ensures WiredRow(A, C, s, limit) {
      assert WiredRow(A, C, s, p);
    }
  }

  // ---- Concatenation.

  /** The states wired so far accept only if the copy accepts the empty word. */
  ghost predicate AcceptJoined(A: Automaton, C: Automaton, limit: nat) {
    forall s: nat :: s < A.states ==> (s in C.accept <==> s in A.accept && (s < limit ==> A.states in C.accept))
  }

  /** Appends `B` and lets the accepting states of `A` go on with it instead of accepting. */
  method CatOnce(A: Automaton, B: Automaton) returns (C: Automaton)
    requires A.Valid() && Usable(B) && A.symbols == B.symbols
    ensures Usable(C) && C.symbols == A.symbols
    ensures LangFrom(C, 0) == if A.states == 0 then LangFrom(B, 0) else Concat(LangFrom(A, 0), LangFrom(B, 0))
  {
    C := Append(A, B);
    AppendWired(A, A, B, 0);
    AppendHas(A, B);
    assert AcceptJoined(A, C, 0);
    hide Append;
    var p := 0;
    while p < A.states
      invariant p <= A.states && Wired(A, B, C, p) && AcceptJoined(A, C, p) && C.Valid()
    {
      if p in C.accept {
        JoinOne(A, B, C, p);
        C := C.(accept := C.accept - {p});
        C := AddEpsilon(C, p, A.states);
      } else {
        SkipOne(A, B, C, p);
      }
      p := p + 1;
    }
    CatLanguage(A, B, C);
  }

  lemma JoinOne(A: Automaton, B: Automaton, C: Automaton, p: nat)
    requires Wired(A, B, C, p) && AcceptJoined(A, C, p) && C.Valid() && p < A.states && p in C.accept
    ensures var D := AddEpsilon(C.(accept := C.accept - {p}), p, A.states);
            Wired(A, B, D, p + 1) && AcceptJoined(A, D, p + 1) && D.Valid()
  {
    var c := C.(accept := C.accept - {p});
    WireOne(A, B, C, p, c.accept);
    EpsilonValid(c, p, A.states);
    EpsilonHas(c, p, A.states);
    hide AddEpsilon, Wired;
  }

  lemma CatLanguage(A: Automaton, B: Automaton, C: Automaton)
    requires A.Valid() && Wired(A, B, C, A.states) && AcceptJoined(A, C, A.states)
    ensures LangFrom(C, 0) == if A.states == 0 then LangFrom(B, 0) else Concat(LangFrom(A, 0), LangFrom(B, 0))
  {
    if A.states == 0 {
      forall w ensures Accepts(C, 0, w) <==> Accepts(B, 0, w) {
        CopyAccepts(C, B, 0, 0, w);
      }
    } else {
      var l, m := LangFrom(A, 0), LangFrom(B, 0);
      assert A.states in C.accept <==> 0 in B.accept;
      assert [] in m <==> 0 in B.accept;
      forall w: Word ensures w in LangFrom(C, 0) <==> w in Concat(l, m) {
        WiredAccepts(A, B, C, 0, w);
        ConcatProper(l, m, w);
        hide Wired, Concat;
        if 0 in B.accept {
          assert Before(A, C) == A;
        } else {
          NeverAccepts(Before(A, C), 0, w);
        }
      }
    }
  }

  lemma ConcatProper(l: Lang, m: Lang, w: Word)
    ensures w in Concat(l, m) <==> w in Concat(l, Proper(m)) || ([] in m && w in l)
  {
    hide Concat;
    if w in Concat(l, m) {
      var u, v := SplitOf(l, m, w);
      if v == [] {
        assert w == u;
      } else {
        InConcat(l, Proper(m), u, v);
      }
    }
    if w in Concat(l, Proper(m)) {
      var u, v := SplitOf(l, Proper(m), w);
      InConcat(l, m, u, v);
    }
    if [] in m && w in l {
      InConcat(l, m, w, []);
      assert w + [] == w;
    }
  }

  /** The languages of a list of automata. */
  ghost function Langs(parts: seq<Automaton>): (r: seq<Lang>)
    ensures |r| == |parts|
  {
    seq(|parts|, i requires 0 <= i < |parts| => LangFrom(parts[i], 0))
  }

  lemma LangsSnoc(parts: seq<Automaton>, i: nat)
    requires i < |parts|
    ensures Langs(parts[..i + 1]) == Langs(parts[..i]) + [LangFrom(parts[i], 0)]
  {
  }

  ghost predicate AllUsable(parts: seq<Automaton>, symbols: nat) {
    forall A :: A in parts ==> Usable(A) && A.symbols == symbols
  }

  /** A state that accepts at once. */
  function JustAccepts(symbols: nat): Automaton {
    Automaton(1, symbols, {}, {0})
  }

  lemma AcceptsNothingElse(A: Automaton)
    requires A.trans == {}
    ensures LangFrom(A, 0) == if 0 in A.accept then Epsilon() else iset{}
  {
    forall w: Word ensures w in LangFrom(A, 0) <==> w == [] && 0 in A.accept {
      if w != [] {
        forall t: nat ensures !A.Has(0, w[0], t) {
        }
      }
    }
  }

  /** The automata one after the other. */
  method Cat(parts: seq<Automaton>, symbols: nat) returns (C: Automaton)
    requires AllUsable(parts, symbols)
    ensures Usable(C) && C.symbols == symbols && LangFrom(C, 0) == ConcatAll(Langs(parts))
  {
    hide LangFrom, Concat;
    if |parts| == 0 {
      C := JustAccepts(symbols);
      AcceptsNothingElse(C);
      return;
    }
    C := Automaton(0, symbols, {}, {});
    assert parts[..0] == [];
    var i := 0;
    while i < |parts|
      invariant i <= |parts| && C.Valid() && C.symbols == symbols && (i == 0 <==> C.states == 0)
      invariant i > 0 ==> LangFrom(C, 0) == ConcatAll(Langs(parts[..i]))
    {
      CatGrows(parts, i);
      C := CatOnce(C, parts[i]);
      i := i + 1;
    }
    assert parts[..i] == parts;
  }

  lemma CatGrows(parts: seq<Automaton>, i: nat)
    requires i < |parts|
    ensures ConcatAll(Langs(parts[..i + 1])) == if i == 0 then LangFrom(parts[0], 0) else Concat(ConcatAll(Langs(parts[..i])), LangFrom(parts[i], 0))
  {
    hide Concat, LangFrom, ConcatAll;
    LangsSnoc(parts, i);
    ConcatAllAppend(Langs(parts[..i]), [LangFrom(parts[i], 0)]);
    OneLanguage(LangFrom(parts[i], 0));
    assert i == 0 ==> Langs(parts[..i]) == [];
    assert i == 0 ==> Langs(parts[..i]) + [LangFrom(parts[i], 0)] == [LangFrom(parts[i], 0)];
  }

  // ---- Choice.

  /** The initial state is never entered again. */
  ghost predicate Sourceless(A: Automaton) {
    forall s: nat, a: nat :: !A.Has(s, a, 0)
  }

  /** Gives the initial state the first steps of an appended copy. */
  method AltOnce(A: Automaton, B: Automaton) returns (C: Automaton)
    requires Usable(A) && Usable(B) && A.symbols == B.symbols && Sourceless(A)
    ensures Usable(C) && C.symbols == A.symbols && Sourceless(C)
    ensures LangFrom(C, 0) == LangFrom(A, 0) + LangFrom(B, 0)
  {
    C := AddEpsilon(Append(A, B), 0, A.states);
    AltParts(A, B, C);
    AltLanguage(A, B, C);
  }

  ghost predicate Branched(A: Automaton, B: Automaton, C: Automaton) {
    && Copy(C, B, A.states)
    && (forall s: nat, a: nat, t: nat :: s < A.states ==> (C.Has(s, a, t) <==> A.Has(s, a, t) || (s == 0 && C.Has(A.states, a, t))))
    && (forall s: nat :: s < A.states ==> (s in C.accept <==> s in A.accept || (s == 0 && A.states in C.accept)))
  }

  lemma AltParts(A: Automaton, B: Automaton, C: Automaton)
    requires Usable(A) && Usable(B) && A.symbols == B.symbols && Sourceless(A) && C == AddEpsilon(Append(A, B), 0, A.states)
    ensures Usable(C) && C.symbols == A.symbols && Sourceless(C) && Branched(A, B, C)
  {
    AppendHas(A, B);
    EpsilonHas(Append(A, B), 0, A.states);
    AppendWired(A, A.(accept := {}), B, 0);
    EpsilonValid(Append(A, B), 0, A.states);
    hide AddEpsilon, Append;
  }

  lemma AltLanguage(A: Automaton, B: Automaton, C: Automaton)
    requires Usable(A) && Sourceless(A) && Branched(A, B, C)
    ensures LangFrom(C, 0) == LangFrom(A, 0) + LangFrom(B, 0)
  {
    forall w: Word ensures w in LangFrom(C, 0) <==> w in LangFrom(A, 0) || w in LangFrom(B, 0) {
      CopyAccepts(C, B, A.states, 0, w);
      if w == [] {
        assert A.states in C.accept <==> 0 in B.accept;
      } else {
        if Accepts(C, 0, w) {
          var t: nat :| C.Has(0, w[0], t) && Accepts(C, t, w[1..]);
          if A.Has(0, w[0], t) {
            assert Edge(0, w[0], t) in A.trans;
            BranchKeeps(A, B, C, t, w[1..]);
          } else {
            assert Accepts(C, A.states + 0, w);
          }
        }
        if Accepts(A, 0, w) {
          var t: nat :| A.Has(0, w[0], t) && Accepts(A, t, w[1..]);
          assert Edge(0, w[0], t) in A.trans;
          BranchKeeps(A, B, C, t, w[1..]);
          assert C.Has(0, w[0], t);
        }
        if Accepts(C, A.states + 0, w) {
          var t: nat :| C.Has(A.states + 0, w[0], t) && Accepts(C, t, w[1..]);
          assert C.Has(0, w[0], t);
        }
      }
    }
  }

  lemma {:induction false} BranchKeeps(A: Automaton, B: Automaton, C: Automaton, s: nat, w: Word)
    requires Usable(A) && Sourceless(A) && Branched(A, B, C) && 0 < s < A.states
    ensures Accepts(C, s, w) <==> Accepts(A, s, w)
    decreases |w|
  {
    if w != [] {
      forall t: nat | A.Has(s, w[0], t) ensures Accepts(C, t, w[1..]) <==> Accepts(A, t, w[1..]) {
        assert Edge(s, w[0], t) in A.trans;
        BranchKeeps(A, B, C, t, w[1..]);
      }
    }
  }

  /** Any one of the automata. */
  method Alt(parts: seq<Automaton>, symbols: nat) returns (C: Automaton)
    requires AllUsable(parts, symbols)
    ensures Usable(C) && C.symbols == symbols && LangFrom(C, 0) == UnionAll(Langs(parts))
  {
    C := Automaton(1, symbols, {}, {});
    AcceptsNothingElse(C);
    assert parts[..0] == [];
    assert Sourceless(C);
    hide LangFrom, Sourceless;
    var i := 0;
    while i < |parts|
      invariant i <= |parts| && Usable(C) && C.symbols == symbols && Sourceless(C)
      invariant LangFrom(C, 0) == UnionAll(Langs(parts[..i]))
    {
      AltGrows(parts, i);
      C := AltOnce(C, parts[i]);
      i := i + 1;
    }
    assert parts[..i] == parts;
  }

  lemma AltGrows(parts: seq<Automaton>, i: nat)
    requires i < |parts|
    ensures UnionAll(Langs(parts[..i + 1])) == UnionAll(Langs(parts[..i])) + LangFrom(parts[i], 0)
  {
    hide LangFrom, UnionAll;
    LangsSnoc(parts, i);
    UnionAllAppend(Langs(parts[..i]), [LangFrom(parts[i], 0)]);
    OneLanguage(LangFrom(parts[i], 0));
  }

  // ---- The star.

  ghost predicate LoopStep(B: Automaton, limit: nat, s: nat, a: nat, t: nat) {
    if s == 0 then B.Has(0, a, t) else B.Has(s - 1, a, t) || (s < limit && s - 1 in B.accept && B.Has(0, a, t))
  }

  /** States below `limit` that accept can start again. */
  ghost predicate Looped(B: Automaton, C: Automaton, limit: nat) {
    && C.states == B.states + 1 && C.symbols == B.symbols && C.Valid()
    && (forall s: nat, a: nat, t: nat :: C.Has(s, a, t) <==> t >= 1 && LoopStep(B, limit, s, a, t - 1))
    && 0 in C.accept && (forall s: nat :: s >= 1 ==> (s in C.accept <==> s - 1 in B.accept))
  }

  method StarOf(B: Automaton) returns (C: Automaton)
    requires Usable(B)
    ensures Usable(C) && C.symbols == B.symbols && LangFrom(C, 0) == Star(LangFrom(B, 0))
  {
    C := AddEpsilon(Append(JustAccepts(B.symbols), B), 0, 1);
    StarBegins(B, C);
    var p := 1;
    while p < C.states
      invariant p <= C.states && Looped(B, C, p)
    {
      LoopOne(B, C, p);
      if p in C.accept {
        C := AddEpsilon(C, p, 0);
      }
      p := p + 1;
    }
    StarLanguage(B, C);
  }

  lemma StarBegins(B: Automaton, C: Automaton)
    requires Usable(B) && C == AddEpsilon(Append(JustAccepts(B.symbols), B), 0, 1)
    ensures Looped(B, C, 1)
  {
    var one := JustAccepts(B.symbols);
    AppendHas(one, B);
    EpsilonHas(Append(one, B), 0, 1);
    AppendWired(one, one.(accept := {}), B, 0);
    EpsilonValid(Append(one, B), 0, 1);
    assert Append(one, B).states == B.states + 1;
    hide AddEpsilon, Append;
  }

  lemma LoopOne(B: Automaton, C: Automaton, p: nat)
    requires Looped(B, C, p) && 1 <= p < C.states
    ensures Looped(B, if p in C.accept then AddEpsilon(C, p, 0) else C, p + 1)
  {
    var D := if p in C.accept then AddEpsilon(C, p, 0) else C;
    EpsilonHas(C, p, 0);
    EpsilonValid(C, p, 0);
    var limit := p + 1;
    assert D.states == C.states && D.symbols == C.symbols && D.Valid();
    hide AddEpsilon;
    forall s: nat, a: nat, t: nat ensures D.Has(s, a, t) <==> t >= 1 && LoopStep(B, limit, s, a, t - 1) {
      assert C.Has(s, a, t) <==> t >= 1 && LoopStep(B, p, s, a, t - 1);
      assert C.Has(0, a, t) <==> t >= 1 && LoopStep(B, p, 0, a, t - 1);
    }
  }

  lemma StarLanguage(B: Automaton, C: Automaton)
    requires Looped(B, C, C.states)
    ensures LangFrom(C, 0) == Star(LangFrom(B, 0))
  {
    var l := LangFrom(B, 0);
    forall w: Word ensures w in LangFrom(C, 0) <==> w in Star(l) {
      if w == [] {
        InStar(l, 0, w);
      } else {
        if Accepts(C, 0, w) {
          var t: nat :| C.Has(0, w[0], t) && Accepts(C, t, w[1..]);
          LoopedAccepts(B, C, t - 1, w[1..]);
          Restart(B, t - 1, w);
        }
        if w in Star(l) {
          var t := StartOver(B, w);
          LoopedAccepts(B, C, t, w[1..]);
          assert C.Has(0, w[0], t + 1);
        }
      }
    }
  }

  /** A step from the initial state and a word that finishes there belong to the star. */
  lemma Restart(B: Automaton, t: nat, w: Word)
    requires w != [] && B.Has(0, w[0], t) && w[1..] in Concat(LangFrom(B, t), Star(LangFrom(B, 0)))
    ensures w in Star(LangFrom(B, 0))
  {
    var l := LangFrom(B, 0);
    var u, v := SplitOf(LangFrom(B, t), Star(l), w[1..]);
    StepBack(B, 0, w[0], t, u);
    WordInStar(l, [w[0]] + u);
    StarJoins(l, [w[0]] + u, v);
    assert w == [w[0]] + u + v;
  }

  lemma StartOver(B: Automaton, w: Word) returns (t: nat)
    requires w != [] && w in Star(LangFrom(B, 0))
    ensures B.Has(0, w[0], t) && w[1..] in Concat(LangFrom(B, t), Star(LangFrom(B, 0)))
  {
    var l := LangFrom(B, 0);
    var u, v := FirstOfStar(l, w);
    assert w[0] == u[0] && w[1..] == u[1..] + v;
    t :| B.Has(0, u[0], t) && Accepts(B, t, u[1..]);
    InConcat(LangFrom(B, t), Star(l), u[1..], v);
  }

  lemma {:induction false} LoopedAccepts(B: Automaton, C: Automaton, s: nat, w: Word)
    requires Looped(B, C, C.states)
    ensures Accepts(C, s + 1, w) <==> w in Concat(LangFrom(B, s), Star(LangFrom(B, 0)))
    decreases |w|
  {
    if w == [] {
      LoopedNow(B, C, s);
    } else {
      if Accepts(C, s + 1, w) {
        LoopedGoes(B, C, s, w);
      }
      if w in Concat(LangFrom(B, s), Star(LangFrom(B, 0))) {
        LoopedComes(B, C, s, w);
      }
    }
  }

  lemma LoopedNow(B: Automaton, C: Automaton, s: nat)
    requires Looped(B, C, C.states)
    ensures Accepts(C, s + 1, []) <==> [] in Concat(LangFrom(B, s), Star(LangFrom(B, 0)))
  {
    var none: Word := [];
    var l, n := LangFrom(B, 0), s + 1;
    assert n in C.accept <==> s in B.accept;
    if s in B.accept {
      InStar(l, 0, none);
      InConcat(LangFrom(B, s), Star(l), none, none);
      assert none + none == none;
    }
    if none in Concat(LangFrom(B, s), Star(l)) {
      var u, v := SplitOf(LangFrom(B, s), Star(l), none);
      assert u == [];
    }
  }

  lemma {:induction false} LoopedGoes(B: Automaton, C: Automaton, s: nat, w: Word)
    requires Looped(B, C, C.states) && w != [] && Accepts(C, s + 1, w)
    ensures w in Concat(LangFrom(B, s), Star(LangFrom(B, 0)))
    decreases |w|, 0
  {
    var l, n := LangFrom(B, 0), s + 1;
    var t: nat :| C.Has(n, w[0], t) && Accepts(C, t, w[1..]);
    assert t >= 1 && (B.Has(s, w[0], t - 1) || (s in B.accept && B.Has(0, w[0], t - 1)));
    LoopedAccepts(B, C, t - 1, w[1..]);
    hide Looped, Concat, Star;
    if B.Has(s, w[0], t - 1) {
      Prepend(B, s, t - 1, Star(l), w);
    } else {
      Restart(B, t - 1, w);
      EmptyFirst(LangFrom(B, s), Star(l), w);
    }
  }

  lemma Prepend(B: Automaton, s: nat, t: nat, m: Lang, w: Word)
    requires w != [] && B.Has(s, w[0], t) && w[1..] in Concat(LangFrom(B, t), m)
    ensures w in Concat(LangFrom(B, s), m)
  {
    var u, v := SplitOf(LangFrom(B, t), m, w[1..]);
    StepBack(B, s, w[0], t, u);
    InConcat(LangFrom(B, s), m, [w[0]] + u, v);
    assert w == [w[0]] + u + v;
  }

  lemma EmptyFirst(k: Lang, m: Lang, w: Word)
    requires [] in k && w in m
    ensures w in Concat(k, m)
  {
    var none: Word := [];
    InConcat(k, m, none, w);
    assert w == none + w;
  }

  lemma {:induction false} LoopedComes(B: Automaton, C: Automaton, s: nat, w: Word)
    requires Looped(B, C, C.states) && w != [] && w in Concat(LangFrom(B, s), Star(LangFrom(B, 0)))
    ensures Accepts(C, s + 1, w)
    decreases |w|, 0
  {
    var l, n := LangFrom(B, 0), s + 1;
    var u, v := SplitOf(LangFrom(B, s), Star(l), w);
    var t: nat;
    if u == [] {
      assert v == w && n in C.accept;
      t := StartOver(B, w);
    } else {
      t :| B.Has(s, u[0], t) && Accepts(B, t, u[1..]);
      assert w[0] == u[0] && w[1..] == u[1..] + v;
      InConcat(LangFrom(B, t), Star(l), u[1..], v);
    }
    LoopedAccepts(B, C, t, w[1..]);
    assert C.Has(n, w[0], t + 1);
  }

  // ---- Repetition.

  method NCopies(B: Automaton, count: nat) returns (C: Automaton)
    requires Usable(B)
    ensures Usable(C) && C.symbols == B.symbols && LangFrom(C, 0) == Power(LangFrom(B, 0), count)
  {
    hide Concat, LangFrom;
    var parts := seq(count, i => B);
    CopiesArePower(B, count);
    C := Cat(parts, B.symbols);
    assert Langs(parts) == seq(count, i => LangFrom(B, 0));
  }

  lemma {:induction false} CopiesArePower(B: Automaton, count: nat)
    ensures ConcatAll(seq(count, i => LangFrom(B, 0))) == Power(LangFrom(B, 0), count)
  {
    if count > 0 {
      CopiesArePower(B, count - 1);
      assert seq(count, i => LangFrom(B, 0))[1..] == seq(count - 1, i => LangFrom(B, 0));
    }
  }

  method NOrMore(B: Automaton, min: nat) returns (C: Automaton)
    requires Usable(B)
    ensures Usable(C) && C.symbols == B.symbols && LangFrom(C, 0) == Repeated(LangFrom(B, 0), min, false, 0)
  {
    if min == 0 {
      C := StarOf(B);
      return;
    }
    var copies := NCopies(B, min);
    var star := StarOf(B);
    hide LangFrom;
    C := CatOnce(Automaton(0, B.symbols, {}, {}), copies);
    C := CatOnce(C, star);
    PowerThenStar(LangFrom(B, 0), min);
  }

  lemma PowerThenStar(l: Lang, min: nat)
    ensures Concat(Power(l, min), Star(l)) == Repeated(l, min, false, 0)
  {
    hide Concat, Power;
    forall w: Word ensures w in Concat(Power(l, min), Star(l)) <==> w in Repeated(l, min, false, 0) {
      if w in Concat(Power(l, min), Star(l)) {
        var u, v := SplitOf(Power(l, min), Star(l), w);
        var n: nat :| InRepeat(l, 0, false, 0, n, v);
        InPower(l, min, n, u, v);
        assert InRepeat(l, min, false, 0, min + n, w);
      }
      if w in Repeated(l, min, false, 0) {
        var n: nat :| InRepeat(l, min, false, 0, n, w);
        PowerAdds(l, min, n - min);
        var u, v := SplitOf(Power(l, min), Power(l, n - min), w);
        InStar(l, n - min, v);
        InConcat(Power(l, min), Star(l), u, v);
      }
    }
  }

  /** Only the states from `base` on accept. */
  ghost function Tail(C: Automaton, base: nat): Automaton {
    C.(accept := set s | s in C.accept && s >= base)
  }

  /** One more optional copy behind the last one, which starts at `lastbase`. */
  method Extend(C: Automaton, B: Automaton, lastbase: nat) returns (D: Automaton)
    requires Usable(C) && Usable(B) && C.symbols == B.symbols && lastbase <= C.states
    ensures Usable(D) && D.symbols == C.symbols && D.states == C.states + B.states
    ensures LangFrom(Tail(D, C.states), 0) == Concat(LangFrom(Tail(C, lastbase), 0), Proper(LangFrom(B, 0)))
    ensures LangFrom(D, 0) == LangFrom(C, 0) + LangFrom(Tail(D, C.states), 0)
  {
    ghost var T := Tail(C, lastbase);
    D := Append(C, B);
    AppendWired(C, T, B, lastbase);
    AppendHas(C, B);
    hide Append;
    var q := lastbase;
    while q < C.states
      invariant lastbase <= q <= C.states && Wired(T, B, D, q) && D.Valid()
      invariant forall s: nat :: s < C.states ==> (s in D.accept <==> s in C.accept)
    {
      if q in D.accept {
        ExtendOne(T, B, D, q);
        D := AddEpsilon(D, q, C.states);
      } else {
        SkipOne(T, B, D, q);
      }
      q := q + 1;
    }
    ExtendedLanguage(C, B, D, lastbase);
  }

  lemma ExtendOne(T: Automaton, B: Automaton, D: Automaton, q: nat)
    requires Wired(T, B, D, q) && D.Valid() && q < T.states && q in T.accept && q in D.accept
    ensures var E := AddEpsilon(D, q, T.states);
            Wired(T, B, E, q + 1) && E.Valid() && forall s: nat :: s < T.states ==> (s in E.accept <==> s in D.accept)
  {
    WireOne(T, B, D, q, D.accept);
    EpsilonValid(D, q, T.states);
    EpsilonHas(D, q, T.states);
    assert D.(accept := D.accept) == D;
  }

  lemma ExtendedLanguage(C: Automaton, B: Automaton, D: Automaton, lastbase: nat)
    requires Usable(C) && Wired(Tail(C, lastbase), B, D, C.states) && forall s: nat :: s < C.states ==> (s in D.accept <==> s in C.accept)
    ensures LangFrom(Tail(D, C.states), 0) == Concat(LangFrom(Tail(C, lastbase), 0), Proper(LangFrom(B, 0)))
    ensures LangFrom(D, 0) == LangFrom(C, 0) + LangFrom(Tail(D, C.states), 0)
  {
    var T, E := Tail(C, lastbase), Tail(D, C.states);
    TailWired(T, B, D);
    assert Before(T, D) == C;
    assert Before(T, E).accept == {};
    forall w: Word ensures w in LangFrom(E, 0) <==> w in Concat(LangFrom(T, 0), Proper(LangFrom(B, 0))) {
      WiredAccepts(T, B, E, 0, w);
      NeverAccepts(Before(T, E), 0, w);
    }
    forall w: Word ensures w in LangFrom(D, 0) <==> w in LangFrom(C, 0) || w in LangFrom(E, 0) {
      WiredAccepts(T, B, D, 0, w);
    }
  }

  lemma TailWired(T: Automaton, B: Automaton, D: Automaton)
    requires Wired(T, B, D, T.states)
    ensures Wired(T, B, Tail(D, T.states), T.states)
  {
    var E := Tail(D, T.states);
    forall s: nat, a: nat, t: nat ensures E.Has(s, a, t) <==> D.Has(s, a, t) {
    }
    forall s: nat | s < T.states ensures WiredRow(T, E, s, T.states) {
      assert WiredRow(T, D, s, T.states);
    }
  }

  method Range(B: Automaton, min: nat, max: nat) returns (C: Automaton)
    requires Usable(B) && min < max
    ensures Usable(C) && C.symbols == B.symbols && LangFrom(C, 0) == Repeated(LangFrom(B, 0), min, true, max)
  {
    hide LangFrom, Concat, Power;
    C := NCopies(B, min);
    ghost var first, more := Power(LangFrom(B, 0), min), Proper(LangFrom(B, 0));
    var lastbase: nat := 0;
    assert Tail(C, 0) == C;
    StartUpTo(first, more);
    var i := 0;
    while i < max - min
      invariant i <= max - min && Usable(C) && C.symbols == B.symbols && lastbase <= C.states
      invariant LangFrom(Tail(C, lastbase), 0) == Concat(first, Power(more, i)) && LangFrom(C, 0) == UpTo(first, more, i)
    {
      var base := C.states;
      C := Extend(C, B, lastbase);
      GrowUpTo(first, more, i);
      lastbase := base;
      i := i + 1;
    }
    UpToIsRange(LangFrom(B, 0), min, max);
  }

  /** A word of `first` and then at most `n` of `more`. */
  ghost function UpTo(first: Lang, more: Lang, n: nat): Lang {
    iset w: Word | AtMost(first, more, n, w)
  }

  ghost predicate AtMost(first: Lang, more: Lang, n: nat, w: Word) {
    exists j: nat :: j <= n && w in Concat(first, Power(more, j))
  }

  lemma StartUpTo(first: Lang, more: Lang)
    ensures Concat(first, Power(more, 0)) == first && UpTo(first, more, 0) == first
  {
    hide Concat, UpTo;
    ConcatEpsilon(first);
    UpToZero(first, more);
  }

  lemma UpToZero(first: Lang, more: Lang)
    ensures UpTo(first, more, 0) == Concat(first, Power(more, 0))
  {
    hide Concat, Power;
  }

  lemma GrowUpTo(first: Lang, more: Lang, n: nat)
    ensures Concat(Concat(first, Power(more, n)), more) == Concat(first, Power(more, n + 1))
    ensures UpTo(first, more, n + 1) == UpTo(first, more, n) + Concat(first, Power(more, n + 1))
  {
    hide Concat, Power;
    ConcatAssociative(first, Power(more, n), more);
    PowerSnoc(more, n);
  }

  lemma UpToIsRange(l: Lang, min: nat, max: nat)
    requires min < max
    ensures UpTo(Power(l, min), Proper(l), max - min) == Repeated(l, min, true, max)
  {
    var first, more := Power(l, min), Proper(l);
    hide Concat, Power;
    forall w: Word ensures w in UpTo(first, more, max - min) <==> w in Repeated(l, min, true, max) {
      if w in UpTo(first, more, max - min) {
        var j: nat :| j <= max - min && w in Concat(first, Power(more, j));
        var u, v := SplitOf(first, Power(more, j), w);
        PowerMono(more, l, j);
        InPower(l, min, j, u, v);
        assert InRepeat(l, min, true, max, min + j, w);
      }
      if w in Repeated(l, min, true, max) {
        var n: nat :| InRepeat(l, min, true, max, n, w);
        PowerAdds(l, min, n - min);
        var u, v := SplitOf(Power(l, min), Power(l, n - min), w);
        var j := DropEmpty(l, n - min, v);
        InConcat(first, Power(more, j), u, v);
      }
    }
  }

  /** Empty words among `n` can be left out. */
  lemma {:induction false} DropEmpty(l: Lang, n: nat, w: Word) returns (j: nat)
    requires w in Power(l, n)
    ensures j <= n && w in Power(Proper(l), j)
  {
    if n == 0 {
      return 0;
    }
    var u, v := SplitOf(l, Power(l, n - 1), w);
    j := DropEmpty(l, n - 1, v);
    if u == [] {
      assert w == v;
    } else {
      InConcat(Proper(l), Power(Proper(l), j), u, v);
      j := j + 1;
    }
  }
}
