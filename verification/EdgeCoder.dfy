/** Gadget edges as numbers in mixed radix, with the 32-bit arithmetic of the coder. */
module EdgeCoder {
  import opened SeqFacts
  import opened Arithmetic

  datatype GadgetEdge = GadgetEdge(start: nat, from: nat, to: nat, end: nat) {
    function Reverse(): GadgetEdge {
      GadgetEdge(end, to, from, start)
    }

    /** Field by field, in the order of the fields. */
    predicate Less(e: GadgetEdge) {
      || start < e.start
      || (start == e.start && (from < e.from || (from == e.from && (to < e.to || (to == e.to && end < e.end)))))
    }
  }

  const Two32: nat := 0x1_0000_0000

  /** Unsigned 32-bit arithmetic keeps the remainder. */
  function U32(x: nat): (r: nat)
    ensures r < Two32 && (x < Two32 ==> r == x)
  {
    x % Two32
  }

  /** Takes the digits off one after the other. */
  function DecodeWith(i: nat, perOrigin: nat, square: nat, states: nat): GadgetEdge
    requires perOrigin > 0 && square > 0 && states > 0
  {
    var r := i % perOrigin;
    var q := r % square;
    GadgetEdge(q / states, i / perOrigin, r / square, q % states)
  }

  datatype Coder = Coder(locations: nat, states: nat) {

    ghost predicate Valid() {
      0 < locations <= 16 && 0 < states < 0x1_0000
    }

    /** The coder can code this edge. */
    predicate Has(e: GadgetEdge) {
      e.from < locations && e.to < locations && e.start < states && e.end < states
    }

    function Square(): nat {
      states * states
    }

    /** The number of codes for one origin, exactly. */
    function Origin(): nat {
      locations * states * states
    }

    /** The number of codes, exactly. */
    function All(): nat {
      locations * locations * states * states
    }

    /** The order the edges are sorted in before coding. */
    predicate Before(e: GadgetEdge, f: GadgetEdge) {
      || e.from < f.from
      || (e.from == f.from && (e.to < f.to || (e.to == f.to && (e.start < f.start || (e.start == f.start && e.end < f.end)))))
    }

    /** The first product is taken in 64 bits, the others in 32. */
    function Encode(e: GadgetEdge): nat {
      e.from * locations * states * states + U32(U32(e.to * states) * states) + U32(e.start * states) + e.end
    }

    /** The number of codes for one origin, as 32-bit arithmetic sees it. */
    function PerOrigin(): nat {
      U32(U32(locations * states) * states)
    }

    function MaxValue(): nat {
      U32(U32(U32(locations * locations) * states) * states)
    }

    function Decode(i: nat): GadgetEdge
      requires PerOrigin() > 0 && states > 0 && Square() > 0
    {
      DecodeWith(i, PerOrigin(), Square(), states)
    }

    /** The code without any overflow. */
    ghost function Exact(e: GadgetEdge): nat {
      Digits(Digits(Digits(e.from, e.to, locations), e.start, states), e.end, states)
    }
  }

  lemma SquareFits(s: nat)
    requires 0 < s < 0x1_0000
    ensures s <= s * s < Two32
  {
    MulMono(1, s, s);
    MulMono(s, 0xFFFF, s);
    MulMono(s, 0xFFFF, 0xFFFF);
  }

  // ---- The exact code.

  /** The exact code orders edges as the sort does, and no two edges have the same code. */
  lemma ExactOrder(c: Coder, e: GadgetEdge, f: GadgetEdge)
    requires c.Has(e) && c.Has(f)
    ensures c.Exact(e) < c.Exact(f) <==> c.Before(e, f)
    ensures c.Exact(e) == c.Exact(f) <==> e == f
  {
    hide Digits;
    var e1, f1 := Digits(e.from, e.to, c.locations), Digits(f.from, f.to, c.locations);
    DigitsOrder(Digits(e1, e.start, c.states), e.end, Digits(f1, f.start, c.states), f.end, c.states);
    DigitsOrder(e1, e.start, f1, f.start, c.states);
    DigitsOrder(e.from, e.to, f.from, f.to, c.locations);
  }

  lemma ExactBound(c: Coder, e: GadgetEdge)
    requires c.Has(e)
    ensures c.Exact(e) < c.All()
  {
    hide Digits;
    var e1 := Digits(e.from, e.to, c.locations);
    DigitsBound(e.from, e.to, c.locations, c.locations);
    DigitsBound(e1, e.start, c.states, c.locations * c.locations);
    DigitsBound(Digits(e1, e.start, c.states), e.end, c.states, c.locations * c.locations * c.states);
  }

  /** The edge with a given exact code. */
  ghost function EdgeOf(c: Coder, i: nat): (e: GadgetEdge)
    requires c.locations > 0 && c.states > 0
  {
    var h: nat := i / c.states;
    var g: nat := h / c.states;
    GadgetEdge(h % c.states, g / c.locations, g % c.locations, i % c.states)
  }

  lemma DivBound(x: nat, base: nat, top: nat)
    requires base > 0 && x < top * base
    ensures x / base < top && x == Digits(x / base, x % base, base) && x % base < base
  {
    if x / base >= top {
      MulMono(top, x / base, base);
    }
  }

  lemma EdgeOfHasCode(c: Coder, i: nat)
    requires c.locations > 0 && c.states > 0 && i < c.All()
    ensures c.Has(EdgeOf(c, i)) && c.Exact(EdgeOf(c, i)) == i
  {
    hide Digits;
    var l, s := c.locations, c.states;
    DivBound(i, s, l * l * s);
    DivBound(i / s, s, l * l);
    DivBound(i / s / s, l, l);
  }

  // ---- The code in 32 bits.

  /** If the codes of one origin fit in 32 bits nothing wraps. */
  lemma DestinationFits(to: nat, l: nat, s: nat)
    requires to < l && 0 < s && l * s * s < Two32
    ensures U32(U32(to * s) * s) == to * s * s
  {
    MulMono(to, l, s);
    MulMono(to * s, l * s, s);
    MulMono(1, s, to * s);
  }

  lemma StartFits(start: nat, s: nat)
    requires start < s < 0x1_0000
    ensures U32(start * s) == start * s
  {
    SquareFits(s);
    MulMono(start, s, s);
  }

  lemma NothingWraps(c: Coder, e: GadgetEdge)
    requires c.Valid() && c.Has(e) && c.Origin() < Two32
    ensures c.Encode(e) == e.from * c.locations * c.states * c.states + e.to * c.states * c.states + e.start * c.states + e.end
  {
    hide U32;
    DestinationFits(e.to, c.locations, c.states);
    StartFits(e.start, c.states);
  }

  lemma PerOriginExact(c: Coder)
    requires c.Valid() && c.Origin() < Two32
    ensures c.PerOrigin() == c.Origin() && c.PerOrigin() > 0
  {
    MulMono(1, c.states, c.locations * c.states);
    MulMono(1, c.locations, c.states);
  }

  lemma Expand(from: nat, to: nat, start: nat, end: nat, l: nat, s: nat)
    ensures Digits(Digits(Digits(from, to, l), start, s), end, s) == from * l * s * s + to * s * s + start * s + end
  {
    var a := from * l;
    assert (a + to) * s == a * s + to * s;
    assert (a * s + to * s + start) * s == a * s * s + to * s * s + start * s;
  }

  lemma CodeIsExact(c: Coder, e: GadgetEdge)
    requires c.Valid() && c.Has(e) && c.Origin() < Two32
    ensures c.Encode(e) == c.Exact(e)
  {
    hide U32, Digits;
    NothingWraps(c, e);
    Expand(e.from, e.to, e.start, e.end, c.locations, c.states);
  }

  lemma Regroup(a: nat, l: nat, b: nat, s: nat, x: nat, y: nat)
    ensures a * l * s * s + b * s * s + x * s + y == Digits(a, Digits(b, Digits(x, y, s), s * s), l * s * s)
  {
    assert a * l * s * s == a * (l * s * s) by {
      assert a * l * s == a * (l * s);
      assert a * (l * s) * s == a * (l * s * s);
    }
    assert b * s * s == b * (s * s);
  }

  lemma CodeDigits(c: Coder, e: GadgetEdge)
    requires c.Valid() && c.Has(e) && c.Origin() < Two32
    ensures c.Encode(e) == Digits(e.from, Digits(e.to, Digits(e.start, e.end, c.states), c.Square()), c.Origin())
  {
    hide U32, Digits;
    NothingWraps(c, e);
    Regroup(e.from, c.locations, e.to, c.states, e.start, e.end);
  }

  lemma DecodeDigits(from: nat, to: nat, start: nat, end: nat, perOrigin: nat, square: nat, states: nat)
    requires states > 0 && square > 0 && perOrigin > 0
    requires end < states && Digits(start, end, states) < square && Digits(to, Digits(start, end, states), square) < perOrigin
    ensures DecodeWith(Digits(from, Digits(to, Digits(start, end, states), square), perOrigin), perOrigin, square, states) == GadgetEdge(start, from, to, end)
  {
    hide Digits;
    DigitsSplit(from, Digits(to, Digits(start, end, states), square), perOrigin);
    DigitsSplit(to, Digits(start, end, states), square);
    DigitsSplit(start, end, states);
  }

  lemma DigitsFit(c: Coder, e: GadgetEdge)
    requires c.Valid() && c.Has(e)
    ensures c.Square() > 0 && Digits(e.start, e.end, c.states) < c.Square()
    ensures Digits(e.to, Digits(e.start, e.end, c.states), c.Square()) < c.Origin()
  {
    SquareFits(c.states);
    DigitsBound(e.start, e.end, c.states, c.states);
    DigitsBound(e.to, Digits(e.start, e.end, c.states), c.Square(), c.locations);
    assert c.locations * (c.states * c.states) == c.Origin();
  }

  /** Then decoding undoes encoding. */
  lemma DecodeEncode(c: Coder, e: GadgetEdge)
    requires c.Valid() && c.Has(e) && c.Origin() < Two32
    ensures c.PerOrigin() > 0 && c.Square() > 0 && c.Decode(c.Encode(e)) == e
  {
    PerOriginExact(c);
    CodeDigits(c, e);
    DigitsFit(c, e);
    DecodeDigits(e.from, e.to, e.start, e.end, c.PerOrigin(), c.Square(), c.states);
    hide Digits, U32, DecodeWith;
  }

  /** The codes are exactly the numbers below `MaxValue`, in the order of the edges, if all codes fit in 32 bits. */
  lemma CodeIsOrderIsomorphism(c: Coder, e: GadgetEdge, f: GadgetEdge, i: nat)
    requires c.Valid() && c.All() < Two32
    ensures c.MaxValue() == c.All()
    ensures c.Has(e) ==> c.Encode(e) < c.MaxValue()
    ensures c.Has(e) && c.Has(f) ==> (c.Encode(e) < c.Encode(f) <==> c.Before(e, f)) && (c.Encode(e) == c.Encode(f) <==> e == f)
    ensures i < c.MaxValue() ==> c.Has(EdgeOf(c, i)) && c.Encode(EdgeOf(c, i)) == i
  {
    AllFit(c);
    if c.Has(e) {
      CodeIsExact(c, e);
      ExactBound(c, e);
    }
    if c.Has(e) && c.Has(f) {
      CodeIsExact(c, f);
      ExactOrder(c, e, f);
    }
    if i < c.MaxValue() {
      EdgeOfHasCode(c, i);
      CodeIsExact(c, EdgeOf(c, i));
    }
    hide Digits, U32;
  }

  lemma AllFit(c: Coder)
    requires c.Valid() && c.All() < Two32
    ensures c.MaxValue() == c.All() && c.Origin() < Two32
  {
    var l, s := c.locations, c.states;
    MulMono(1, s, l * l * s);
    MulMono(1, s, l * l);
    MulMono(1, l, l);
    MulMono(l, l * l, s);
    MulMono(l * s, l * l * s, s);
  }

  // ---- Exactly when decoding works.

  ghost predicate RoundTrips(c: Coder) {
    && c.PerOrigin() > 0 && c.states > 0 && c.Square() > 0
    && forall e :: c.Has(e) ==> c.Decode(c.Encode(e)) == e
  }

  /** Edges from location 0 decode to location 0 only if their codes are below `PerOrigin`. */
  lemma FromZeroIsSmall(c: Coder, e: GadgetEdge)
    requires RoundTrips(c) && c.Has(e) && e.from == 0
    ensures c.Encode(e) < c.PerOrigin()
  {
    var i, m := c.Encode(e), c.PerOrigin();
    assert c.Decode(i).from == i / m;
    if i >= m {
      DivAtLeastOne(i, m);
    }
  }

  lemma DivAtLeastOne(i: nat, m: nat)
    requires i >= m > 0
    ensures i / m >= 1
  {
  }

  /** The k-th edge from location 0. */
  lemma FromZero(c: Coder, k: nat)
    requires c.Valid() && k < c.Origin()
    ensures c.Has(EdgeOf(c, k)) && EdgeOf(c, k).from == 0 && c.Exact(EdgeOf(c, k)) == k
  {
    hide Digits;
    OriginAtMostAll(c);
    EdgeOfHasCode(c, k);
    DivBound(k, c.states, c.locations * c.states);
    DivBound(k / c.states, c.states, c.locations);
    SmallQuotient(k / c.states / c.states, c.locations);
  }

  lemma OriginAtMostAll(c: Coder)
    requires c.Valid()
    ensures c.Origin() <= c.All()
  {
    var l, s := c.locations, c.states;
    MulMono(1, l, l);
    MulMono(l, l * l, s);
    MulMono(l * s, l * l * s, s);
  }

  lemma SmallQuotient(x: nat, m: nat)
    requires x < m
    ensures x / m == 0
  {
  }

  /** So there cannot be more such edges than `PerOrigin`. */
  lemma TooManyEdges(c: Coder)
    requires c.Valid() && RoundTrips(c)
    ensures c.Origin() <= c.PerOrigin()
  {
    hide RoundTrips, Digits, U32;
    forall k: nat | k < c.Origin() ensures c.Has(EdgeOf(c, k)) && c.Encode(EdgeOf(c, k)) < c.PerOrigin() {
      FromZero(c, k);
      FromZeroIsSmall(c, EdgeOf(c, k));
    }
    var codes: seq<nat> := seq(c.Origin(), k requires 0 <= k < c.Origin() => c.Encode(EdgeOf(c, k)));
    forall j: nat, k: nat | j < k < c.Origin() ensures codes[j] != codes[k] {
      FromZero(c, j);
      FromZero(c, k);
      SameCode(c, EdgeOf(c, j), EdgeOf(c, k));
    }
    DistinctSize(codes);
    BoundedSetSize(Elems(codes), c.PerOrigin());
  }

  lemma SameCode(c: Coder, e: GadgetEdge, f: GadgetEdge)
    requires RoundTrips(c) && c.Has(e) && c.Has(f)
    ensures c.Encode(e) == c.Encode(f) ==> e == f
  {
    assert c.Decode(c.Encode(e)) == e && c.Decode(c.Encode(f)) == f;
  }

  /** Decoding undoes encoding for every edge exactly when the codes of one origin fit in 32 bits. */
  lemma RoundTripsIffOriginFits(c: Coder)
    requires c.Valid()
    ensures RoundTrips(c) <==> c.Origin() < Two32
  {
    if RoundTrips(c) {
      TooManyEdges(c);
    }
    if c.Origin() < Two32 {
      PerOriginExact(c);
      SquareFits(c.states);
      forall e | c.Has(e) ensures c.Decode(c.Encode(e)) == e {
        DecodeEncode(c, e);
      }
    }
  }

  /** Two locations and as many states as there can be are too much. */
  lemma LargeCoderLosesEdges()
    ensures Coder(2, 0xFFFF).Valid() && !RoundTrips(Coder(2, 0xFFFF))
  {
    var c := Coder(2, 0xFFFF);
    assert c.Origin() == 2 * 0xFFFF * 0xFFFF;
    RoundTripsIffOriginFits(c);
  }
}
