/** The packed form of a gadget: a header, and the differences of the edges' codes as numbers of varying length. */
module GadgetCodec {
  // A header with the counts, then two lists of edges as differences of their codes.

  import opened Options
  import opened SeqFacts
  import opened Sorting
  import opened EdgeCoder
  import opened Pack

  // ---- Directed, undirected and idle edges.

  /**
   Splits a set of edges: those without their reverse, one of each pair with its reverse, and, only counted,
   those that are their own reverse.
   */
  method SplitEdges(edges: seq<GadgetEdge>) returns (undirected: seq<GadgetEdge>, directed: seq<GadgetEdge>, idle: nat)
    requires Distinct(edges)
    ensures Distinct(directed) && forall e :: e in directed <==> e in edges && e.Reverse() !in edges
    ensures Distinct(undirected) && forall e :: e in undirected <==> e in edges && e.Reverse() in edges && e.Less(e.Reverse())
    ensures 2 * |undirected| + idle + |directed| == |edges|
    ensures forall e :: e in edges <==> e in directed || e in undirected || e.Reverse() in undirected || (e in edges && e == e.Reverse())
  {
    undirected, directed, idle := [], [], 0;
    ghost var mirrored: seq<GadgetEdge>, own: seq<GadgetEdge> := [], [];
    var i := 0;
    while i < |edges|
      invariant i <= |edges| && idle == |own| && |directed| + |undirected| + |mirrored| + |own| == i
      invariant Distinct(directed) && forall e :: e in directed <==> e in edges[..i] && e.Reverse() !in edges
      invariant Distinct(undirected) && forall e :: e in undirected <==> e in edges[..i] && e.Reverse() in edges && e.Less(e.Reverse())
      invariant Distinct(mirrored) && forall e :: e in mirrored <==> e in edges[..i] && e.Reverse() in edges && e.Reverse().Less(e)
    {
      var e := edges[i];
      assert edges[..i + 1] == edges[..i] + [e] && e !in edges[..i];
      if e.Reverse() !in edges {
        directed := directed + [e];
      } else if e.Less(e.Reverse()) {
        undirected := undirected + [e];
      } else if e == e.Reverse() {
        idle := idle + 1;
        own := own + [e];
      } else {
        mirrored := mirrored + [e];
      }
      i := i + 1;
    }
    assert edges[..i] == edges;
    MirrorsPair(edges, undirected, mirrored);
    forall e ensures e in edges <==> e in directed || e in undirected || e.Reverse() in undirected || (e in edges && e == e.Reverse()) {
      if e.Reverse() in undirected {
        assert e.Reverse().Reverse() == e;
      }
    }
  }

  /** There are as many edges after their reverse as before it. */
  lemma MirrorsPair(edges: seq<GadgetEdge>, undirected: seq<GadgetEdge>, mirrored: seq<GadgetEdge>)
    requires Distinct(undirected) && forall e :: e in undirected <==> e in edges && e.Reverse() in edges && e.Less(e.Reverse())
    requires Distinct(mirrored) && forall e :: e in mirrored <==> e in edges && e.Reverse() in edges && e.Reverse().Less(e)
    ensures |undirected| == |mirrored|
  {
    var turned := seq(|undirected|, i requires 0 <= i < |undirected| => undirected[i].Reverse());
    assert Distinct(turned) by {
      forall i, j | 0 <= i < j < |turned| ensures turned[i] != turned[j] {
        assert turned[i].Reverse() == undirected[i] && turned[j].Reverse() == undirected[j];
      }
    }
    forall e ensures e in turned <==> e in mirrored {
      if e in turned {
        var i :| 0 <= i < |turned| && turned[i] == e;
        assert undirected[i] in undirected && e.Reverse() == undirected[i];
      }
      if e in mirrored {
        assert e.Reverse().Reverse() == e && e.Reverse() in undirected;
        var i :| 0 <= i < |undirected| && undirected[i] == e.Reverse();
        assert turned[i] == e;
      }
    }
    DistinctSize(turned);
    DistinctSize(mirrored);
    assert Elems(turned) == Elems(mirrored);
  }

  // ---- The header.

  datatype Stats = Stats(locations: nat, states: nat, undirected: nat, directed: nat, components: nat)

  function MinimumSize(x: nat): nat {
    if x < 0x100 then 1 else if x < 0x1_0000 then 2 else if x < 0x100_0000 then 3 else 4
  }

  function EdgeLength(x: nat): nat {
    if x == 0 then 0 else MinimumSize(x)
  }

  function ComponentLength(x: nat): nat {
    if x == 1 then 0 else MinimumSize(x)
  }

  /** The counts that have a header. */
  predicate HasHeader(s: Stats) {
    && EdgeLength(s.states) <= 2 && EdgeLength(s.undirected) <= 3 && EdgeLength(s.directed) <= 3 && ComponentLength(s.components) <= 1
    && 0 < s.locations <= 16 && s.states > 0 && (s.undirected > 0 || s.directed > 0)
  }

  /** The second byte: the lengths of the counts in six bits. */
  function Lengths(s: Stats): Byte
    requires HasHeader(s)
  {
    (EdgeLength(s.states) - 1) * 32 + EdgeLength(s.undirected) * 8 + EdgeLength(s.directed) * 2 + ComponentLength(s.components)
  }

  function BuildHeader(s: Stats): Option<seq<Byte>> {
    if !HasHeader(s) then None
    else Some([s.locations - 1, Lengths(s)] + LittleEndian(s.states, EdgeLength(s.states)) + LittleEndian(s.undirected, EdgeLength(s.undirected))
              + LittleEndian(s.directed, EdgeLength(s.directed)) + LittleEndian(s.components, ComponentLength(s.components)))
  }

  function StateLength(b: Byte): nat {
    1 + b / 32 % 2
  }

  function UndirectedLength(b: Byte): nat {
    b / 8 % 4
  }

  function DirectedLength(b: Byte): nat {
    b / 2 % 4
  }

  function ComponentsLength(b: Byte): nat {
    b % 2
  }

  function Field(data: seq<Byte>, pos: nat, n: nat): nat
    requires pos + n <= |data|
  {
    FromLittleEndian(data[pos..pos + n])
  }

  /** The counts, given how many bytes each has. */
  function StatsAt(data: seq<Byte>, sl: nat, ul: nat, dl: nat, cl: nat): Stats
    requires 2 + sl + ul + dl + cl <= |data|
  {
    Stats(data[0] % 16 + 1, Field(data, 2, sl), Field(data, 2 + sl, ul), Field(data, 2 + sl + ul, dl),
          if cl == 0 then 1 else Field(data, 2 + sl + ul + dl, cl))
  }

  /** Reads the counts back; also where the edges begin. */
  function ReadStats(data: seq<Byte>): Option<(Stats, nat)>
  {
    if |data| < 2 then None
    else
      var sl, ul, dl, cl := StateLength(data[1]), UndirectedLength(data[1]), DirectedLength(data[1]), ComponentsLength(data[1]);
      if |data| < 2 + sl + ul + dl + cl then None else Some((StatsAt(data, sl, ul, dl, cl), 2 + sl + ul + dl + cl))
  }

  lemma CountRoundTrip(x: nat, n: nat)
    requires (x == 0 && n == 0) || (n == MinimumSize(x) && n <= 3)
    ensures FromLittleEndian(LittleEndian(x, n)) == x
  {
    assert Pow256(0) == 1 && Pow256(1) == 256 && Pow256(2) == 65536 && Pow256(3) == 16777216;
    LittleEndianRoundTrip(x, n);
  }

  /** The four lengths are read back from the byte they were packed into. */
  lemma LengthBits(s: Stats)
    requires HasHeader(s)
    ensures StateLength(Lengths(s)) == EdgeLength(s.states) && UndirectedLength(Lengths(s)) == EdgeLength(s.undirected)
    ensures DirectedLength(Lengths(s)) == EdgeLength(s.directed) && ComponentsLength(Lengths(s)) == ComponentLength(s.components)
  {
    SixBits(EdgeLength(s.states) - 1, EdgeLength(s.undirected), EdgeLength(s.directed), ComponentLength(s.components));
    hide EdgeLength, ComponentLength;
  }

  lemma SixBits(a: nat, b: nat, c: nat, d: nat)
    requires a < 2 && b < 4 && c < 4 && d < 2
    ensures var x := a * 32 + b * 8 + c * 2 + d; x / 32 % 2 == a && x / 8 % 4 == b && x / 2 % 4 == c && x % 2 == d
  {
    var x := a * 32 + b * 8 + c * 2 + d;
    assert x / 32 == a && x / 8 == a * 4 + b && x / 2 == a * 16 + b * 4 + c;
  }

  /** The data has `bytes` at `pos`. */
  ghost predicate At(data: seq<Byte>, pos: nat, bytes: seq<Byte>) {
    pos + |bytes| <= |data| && data[pos..pos + |bytes|] == bytes
  }

  lemma AtSplit(data: seq<Byte>, pos: nat, a: seq<Byte>, b: seq<Byte>)
    requires At(data, pos, a + b)
    ensures At(data, pos, a) && At(data, pos + |a|, b)
  {
    assert (a + b)[..|a|] == a && (a + b)[|a|..] == b;
    assert data[pos..pos + |a|] == data[pos..pos + |a + b|][..|a|];
    assert data[pos + |a|..pos + |a| + |b|] == data[pos..pos + |a + b|][|a|..];
  }

  lemma AtMeans(data: seq<Byte>, pos: nat, bytes: seq<Byte>)
    requires At(data, pos, bytes)
    ensures pos + |bytes| <= |data| && data[pos..pos + |bytes|] == bytes
  {
  }

  lemma FieldAt(data: seq<Byte>, pos: nat, bytes: seq<Byte>)
    requires At(data, pos, bytes)
    ensures pos + |bytes| <= |data| && Field(data, pos, |bytes|) == FromLittleEndian(bytes)
  {
  }

  lemma AtEnd(front: seq<Byte>, bytes: seq<Byte>, all: seq<Byte>, pos: nat)
    requires all == front + bytes && pos == |front|
    ensures At(all, pos, bytes) && |all| == pos + |bytes|
  {
  }

  lemma AtStays(front: seq<Byte>, more: seq<Byte>, all: seq<Byte>, pos: nat, bytes: seq<Byte>)
    requires all == front + more && At(front, pos, bytes)
    ensures At(all, pos, bytes)
  {
  }

  /** A header and what follows it, field by field. */
  ghost predicate Layout(data: seq<Byte>, s: Stats, p1: nat, p2: nat, p3: nat, p4: nat) {
    && HasHeader(s) && 2 <= |data| && p4 <= |data| && data[0] == s.locations - 1 && data[1] == Lengths(s)
    && p1 == 2 + EdgeLength(s.states) && p2 == p1 + EdgeLength(s.undirected) && p3 == p2 + EdgeLength(s.directed) && p4 == p3 + ComponentLength(s.components)
    && At(data, 2, LittleEndian(s.states, EdgeLength(s.states))) && At(data, p1, LittleEndian(s.undirected, EdgeLength(s.undirected)))
    && At(data, p2, LittleEndian(s.directed, EdgeLength(s.directed))) && At(data, p3, LittleEndian(s.components, ComponentLength(s.components)))
  }

  lemma LayoutIsRead(data: seq<Byte>, s: Stats, p1: nat, p2: nat, p3: nat, p4: nat)
    requires Layout(data, s, p1, p2, p3, p4)
    ensures ReadStats(data) == Some((s, p4))
  {
    var sl, ul, dl, cl := EdgeLength(s.states), EdgeLength(s.undirected), EdgeLength(s.directed), ComponentLength(s.components);
    CountRoundTrip(s.states, sl);
    CountRoundTrip(s.undirected, ul);
    CountRoundTrip(s.directed, dl);
    if cl > 0 {
      CountRoundTrip(s.components, cl);
    }
    LengthBits(s);
    hide FromLittleEndian, LittleEndian, At, Field, StateLength, UndirectedLength, DirectedLength, ComponentsLength, Lengths, StatsAt;
    FieldAt(data, 2, LittleEndian(s.states, sl));
    FieldAt(data, p1, LittleEndian(s.undirected, ul));
    FieldAt(data, p2, LittleEndian(s.directed, dl));
    FieldAt(data, p3, LittleEndian(s.components, cl));
    ReadStatsAt(data, sl, ul, dl, cl);
    StatsAre(data, s, sl, ul, dl, cl);
  }

  lemma StatsAre(data: seq<Byte>, s: Stats, sl: nat, ul: nat, dl: nat, cl: nat)
    requires 2 + sl + ul + dl + cl <= |data| && data[0] == s.locations - 1 && 0 < s.locations <= 16
    requires Field(data, 2, sl) == s.states && Field(data, 2 + sl, ul) == s.undirected && Field(data, 2 + sl + ul, dl) == s.directed
    requires cl == 0 ==> s.components == 1
    requires cl > 0 ==> Field(data, 2 + sl + ul + dl, cl) == s.components
    ensures StatsAt(data, sl, ul, dl, cl) == s
  {
    hide Field;
  }

  lemma ReadStatsAt(data: seq<Byte>, sl: nat, ul: nat, dl: nat, cl: nat)
    requires 2 + sl + ul + dl + cl <= |data|
    requires sl == StateLength(data[1]) && ul == UndirectedLength(data[1]) && dl == DirectedLength(data[1]) && cl == ComponentsLength(data[1])
    ensures ReadStats(data) == Some((StatsAt(data, sl, ul, dl, cl), 2 + sl + ul + dl + cl))
  {
    hide StatsAt, StateLength, UndirectedLength, DirectedLength, ComponentsLength;
  }

  lemma HeaderLayout(s: Stats, h0: seq<Byte>, h1: seq<Byte>, h2: seq<Byte>, h3: seq<Byte>, h4: seq<Byte>, data: seq<Byte>, rest: seq<Byte>,
                     A: seq<Byte>, B: seq<Byte>, C: seq<Byte>, D: seq<Byte>)
    requires h1 == h0 + A && h2 == h1 + B && h3 == h2 + C && h4 == h3 + D && data == h4 + rest
    ensures At(data, |h0|, A) && At(data, |h1|, B) && At(data, |h2|, C) && At(data, |h3|, D) && At(data, 0, h0)
  {
    hide At;
    AtEnd([], h0, h0, 0);
    AtStays(h0, A, h1, 0, h0);
    AtStays(h1, B, h2, 0, h0);
    AtStays(h2, C, h3, 0, h0);
    AtStays(h3, D, h4, 0, h0);
    AtStays(h4, rest, data, 0, h0);
    AtEnd(h0, A, h1, |h0|);
    AtStays(h1, B, h2, |h0|, A);
    AtStays(h2, C, h3, |h0|, A);
    AtStays(h3, D, h4, |h0|, A);
    AtStays(h4, rest, data, |h0|, A);
    AtEnd(h1, B, h2, |h1|);
    AtStays(h2, C, h3, |h1|, B);
    AtStays(h3, D, h4, |h1|, B);
    AtStays(h4, rest, data, |h1|, B);
    AtEnd(h2, C, h3, |h2|);
    AtStays(h3, D, h4, |h2|, C);
    AtStays(h4, rest, data, |h2|, C);
    AtEnd(h3, D, h4, |h3|);
    AtStays(h4, rest, data, |h3|, D);
  }

  lemma HeaderRoundTrip(s: Stats, rest: seq<Byte>)
    requires HasHeader(s)
    ensures ReadStats(BuildHeader(s).value + rest) == Some((s, |BuildHeader(s).value|))
  {
    var h0: seq<Byte> := [s.locations - 1, Lengths(s)];
    var A, B := LittleEndian(s.states, EdgeLength(s.states)), LittleEndian(s.undirected, EdgeLength(s.undirected));
    var C, D := LittleEndian(s.directed, EdgeLength(s.directed)), LittleEndian(s.components, ComponentLength(s.components));
    var h1 := h0 + A;
    var h2 := h1 + B;
    var h3 := h2 + C;
    var h4 := h3 + D;
    var data := h4 + rest;
    HeaderLayout(s, h0, h1, h2, h3, h4, data, rest, A, B, C, D);
    FirstTwo(data, h0, s.locations - 1, Lengths(s));
    hide LittleEndian, At, ReadStats, Lengths;
    LayoutIsRead(data, s, |h1|, |h2|, |h3|, |h4|);
  }

  lemma FirstTwo(data: seq<Byte>, h0: seq<Byte>, x: Byte, y: Byte)
    requires At(data, 0, h0) && h0 == [x, y]
    ensures |data| >= 2 && data[0] == x && data[1] == y
  {
    assert data[0..2][0] == x && data[0..2][1] == y;
  }

  // ---- The lists of edges.

  function Codes(c: Coder, edges: seq<GadgetEdge>): (r: seq<nat>)
    ensures |r| == |edges| && forall i :: 0 <= i < |r| ==> r[i] == c.Encode(edges[i])
  {
    seq(|edges|, i requires 0 <= i < |edges| => c.Encode(edges[i]))
  }

  /** Each code is at least the one before, and by less than 2^32 more. */
  predicate DeltasOk(codes: seq<nat>, previous: nat) {
    codes == [] || (previous <= codes[0] && codes[0] - previous < Two32 && DeltasOk(codes[1..], codes[0]))
  }

  function Compressed(codes: seq<nat>, previous: nat): seq<Byte>
    requires DeltasOk(codes, previous)
  {
    if codes == [] then [] else VarintBytes(codes[0] - previous) + Compressed(codes[1..], codes[0])
  }

  /** The size of the list; `None` if some difference does not fit. */
  method CompressedSize(edges: seq<GadgetEdge>, c: Coder) returns (size: Option<nat>)
    ensures size.Some? <==> DeltasOk(Codes(c, edges), 0)
    ensures size.Some? ==> size.value == |Compressed(Codes(c, edges), 0)|
  {
    var total: nat, previous: nat, rest := 0, 0, edges;
    while rest != []
      invariant DeltasOk(Codes(c, edges), 0) <==> DeltasOk(Codes(c, rest), previous)
      invariant DeltasOk(Codes(c, edges), 0) ==> |Compressed(Codes(c, edges), 0)| == total + |Compressed(Codes(c, rest), previous)|
      decreases |rest|
    {
      var cur := c.Encode(rest[0]);
      assert Codes(c, rest)[1..] == Codes(c, rest[1..]);
      if cur < previous || cur - previous >= Two32 {
        return None;
      }
      VarintSizeIsExact(cur - previous);
      total := total + VarintSize(cur - previous);
      previous, rest := cur, rest[1..];
    }
    return Some(total);
  }

  /** Writes the list, whose size was computed before. */
  method WriteCompressed(edges: seq<GadgetEdge>, c: Coder, writer: PackWriter)
    requires writer.Valid() && !writer.overflow
    requires DeltasOk(Codes(c, edges), 0) && writer.cur + |Compressed(Codes(c, edges), 0)| <= writer.data.Length
    modifies writer, writer.data
    ensures writer.Valid() && !writer.overflow && writer.cur == old(writer.cur) + |Compressed(Codes(c, edges), 0)|
    ensures writer.data[..writer.cur] == old(writer.data[..writer.cur]) + Compressed(Codes(c, edges), 0)
  {
    hide Compressed, DeltasOk, VarintBytes, Codes;
    var previous: nat, rest := 0, edges;
    ghost var written: seq<Byte>, begin: seq<Byte> := [], writer.data[..writer.cur];
    while rest != []
      invariant writer.Valid() && !writer.overflow && DeltasOk(Codes(c, rest), previous)
      invariant Compressed(Codes(c, edges), 0) == written + Compressed(Codes(c, rest), previous)
      invariant writer.cur == |begin| + |written| && writer.data[..writer.cur] == begin + written
      decreases |rest|
    {
      CompressedStep(c, rest, previous);
      var cur := c.Encode(rest[0]);
      ghost var bytes := VarintBytes(cur - previous);
      WriteDelta(writer, cur - previous);
      written := written + bytes;
      previous, rest := cur, rest[1..];
    }
    NothingCompressed(c, previous);
  }

  lemma NothingCompressed(c: Coder, previous: nat)
    ensures DeltasOk(Codes(c, []), previous) && Compressed(Codes(c, []), previous) == []
  {
  }

  lemma CompressedStep(c: Coder, edges: seq<GadgetEdge>, previous: nat)
    requires DeltasOk(Codes(c, edges), previous) && edges != []
    ensures var cur := c.Encode(edges[0]);
            && previous <= cur && cur - previous < Two32 && DeltasOk(Codes(c, edges[1..]), cur)
            && Compressed(Codes(c, edges), previous) == VarintBytes(cur - previous) + Compressed(Codes(c, edges[1..]), cur)
  {
    assert Codes(c, edges)[1..] == Codes(c, edges[1..]);
  }

  method WriteDelta(writer: PackWriter, delta: nat)
    requires writer.Valid() && !writer.overflow && delta < Two32 && writer.cur + |VarintBytes(delta)| <= writer.data.Length
    modifies writer, writer.data
    ensures writer.Valid() && !writer.overflow && writer.cur == old(writer.cur) + |VarintBytes(delta)|
    ensures writer.data[..writer.cur] == old(writer.data[..writer.cur]) + VarintBytes(delta)
  {
    hide VarintBytes;
    writer.WriteVarint(delta);
    assert Fitting(VarintBytes(delta), writer.data.Length - old(writer.cur)) == VarintBytes(delta);
  }

  // ---- Reading the lists.

  /** The edges, where the reader ends up, and whether the data ended too early. */
  datatype EdgesRead = EdgesRead(edges: seq<GadgetEdge>, pos: nat, overflow: bool)

  ghost predicate CanDecode(c: Coder) {
    c.PerOrigin() > 0 && c.states > 0 && c.Square() > 0
  }

  function ReadEdges(c: Coder, data: seq<Byte>, pos: nat, count: nat, previous: nat): (r: EdgesRead)
    requires pos <= |data| && c.PerOrigin() > 0 && c.states > 0 && c.Square() > 0
    ensures pos <= r.pos <= |data|
    decreases count
  {
    if count == 0 then EdgesRead([], pos, false)
    else
      var delta := ReadVarint(data, pos);
      var rest := ReadEdges(c, data, delta.pos, count - 1, previous + delta.value);
      EdgesRead([c.Decode(previous + delta.value)] + rest.edges, rest.pos, delta.overflow || rest.overflow)
  }

  method ReadCompressed(reader: PackReader, count: nat, c: Coder) returns (edges: seq<GadgetEdge>)
    requires reader.Valid() && CanDecode(c)
    modifies reader
    ensures reader.Valid() && var r := ReadEdges(c, reader.data, old(reader.cur), count, 0);
            edges == r.edges && reader.cur == r.pos && reader.overflow == (old(reader.overflow) || r.overflow)
  {
    edges := [];
    var previous: nat, i := 0, 0;
    ghost var all, had := ReadEdges(c, reader.data, reader.cur, count, 0), reader.overflow;
    hide ReadEdges, ReadVarint;
    while i < count
      invariant i <= count && reader.Valid()
      invariant Reads(c, reader.data, all, had, edges, reader.cur, reader.overflow, count - i, previous)
    {
      ReadsStep(c, reader.data, all, had, edges, reader.cur, reader.overflow, count - i, previous);
      hide Reads, ReadVarint;
      var delta := reader.ReadVar();
      var cur := delta + previous;
      edges := edges + [c.Decode(cur)];
      previous, i := cur, i + 1;
    }
  }

  /** What has been read and what is still to be read make up the whole. */
  ghost predicate Reads(c: Coder, data: seq<Byte>, all: EdgesRead, had: bool, edges: seq<GadgetEdge>, pos: nat, overflow: bool, count: nat, previous: nat) {
    && pos <= |data| && CanDecode(c)
    && var rest := ReadEdges(c, data, pos, count, previous);
       all.edges == edges + rest.edges && all.pos == rest.pos && (had || all.overflow) == (overflow || rest.overflow)
  }

  lemma ReadsStep(c: Coder, data: seq<Byte>, all: EdgesRead, had: bool, edges: seq<GadgetEdge>, pos: nat, overflow: bool, count: nat, previous: nat)
    requires Reads(c, data, all, had, edges, pos, overflow, count, previous) && count > 0
    ensures var delta := ReadVarint(data, pos);
            Reads(c, data, all, had, edges + [c.Decode(previous + delta.value)], delta.pos, overflow || delta.overflow, count - 1, previous + delta.value)
  {
    hide ReadVarint;
  }

  lemma RangesNotEmpty(c: Coder)
    requires CanDecode(c)
    ensures c.PerOrigin() > 0 && c.states > 0 && c.Square() > 0
  {
  }

  /** Reading a list gives back the edges it was written from. */
  lemma {:induction false} EdgesRoundTrip(c: Coder, data: seq<Byte>, pos: nat, edges: seq<GadgetEdge>, previous: nat)
    requires c.Valid() && c.Origin() < Two32 && CanDecode(c) && forall e :: e in edges ==> c.Has(e)
    requires DeltasOk(Codes(c, edges), previous) && At(data, pos, Compressed(Codes(c, edges), previous)) && pos <= |data|
    ensures ReadEdges(c, data, pos, |edges|, previous) == EdgesRead(edges, pos + |Compressed(Codes(c, edges), previous)|, false)
    decreases |edges|
  {
    hide *;
    RangesNotEmpty(c);
    if edges == [] {
      NothingCompressed(c, previous);
      NothingRead(c, data, pos, previous);
    } else {
      var cur := c.Encode(edges[0]);
      CompressedStep(c, edges, previous);
      var bytes, tail := VarintBytes(cur - previous), Compressed(Codes(c, edges[1..]), cur);
      AtSplit(data, pos, bytes, tail);
      AtMeans(data, pos, bytes);
      VarintRoundTrip(data, pos, cur - previous);
      assert edges[0] in edges;
      DecodeEncode(c, edges[0]);
      EdgesRoundTrip(c, data, pos + |bytes|, edges[1..], cur);
      ReadOneEdge(c, data, pos, |edges|, previous);
      assert edges == [edges[0]] + edges[1..];
    }
  }

  lemma NothingRead(c: Coder, data: seq<Byte>, pos: nat, previous: nat)
    requires pos <= |data| && CanDecode(c)
    ensures CanDecode(c) && ReadEdges(c, data, pos, 0, previous) == EdgesRead([], pos, false)
  {
  }

  lemma ReadOneEdge(c: Coder, data: seq<Byte>, pos: nat, count: nat, previous: nat)
    requires pos <= |data| && CanDecode(c) && count > 0
    ensures var delta := ReadVarint(data, pos);
            var rest := ReadEdges(c, data, delta.pos, count - 1, previous + delta.value);
            ReadEdges(c, data, pos, count, previous) == EdgesRead([c.Decode(previous + delta.value)] + rest.edges, rest.pos, delta.overflow || rest.overflow)
  {
  }

  // ---- Whole gadgets.

  predicate NotAfter(e: GadgetEdge, f: GadgetEdge) {
    || e.from < f.from
    || (e.from == f.from && (e.to < f.to || (e.to == f.to && (e.start < f.start || (e.start == f.start && e.end <= f.end)))))
  }

  function SortEdges(edges: seq<GadgetEdge>): seq<GadgetEdge> {
    Sort(edges, NotAfter)
  }

  lemma SortEdgesSorts(edges: seq<GadgetEdge>)
    ensures SortedBy(SortEdges(edges), NotAfter) && |SortEdges(edges)| == |edges| && multiset(SortEdges(edges)) == multiset(edges)
    ensures forall e :: e in SortEdges(edges) <==> e in edges
  {
    SortSorts(edges, NotAfter);
    SameContent(edges, SortEdges(edges));
    ElemsMembers(edges);
    ElemsMembers(SortEdges(edges));
  }

  /** If all codes fit in 32 bits, so do all differences of a sorted list. */
  lemma {:induction false} SortedDeltasFit(c: Coder, edges: seq<GadgetEdge>, previous: nat)
    requires c.Valid() && c.All() < Two32 && SortedBy(edges, NotAfter) && forall e :: e in edges ==> c.Has(e)
    requires edges != [] ==> previous <= c.Encode(edges[0])
    ensures DeltasOk(Codes(c, edges), previous)
    decreases |edges|
  {
    if edges != [] {
      var rest := edges[1..];
      assert edges[0] in edges && c.Has(edges[0]);
      assert forall e :: e in rest ==> e in edges;
      assert Codes(c, edges)[1..] == Codes(c, rest);
      CodeIsOrderIsomorphism(c, edges[0], edges[0], 0);
      if rest != [] {
        assert rest[0] == edges[1] && NotAfter(edges[0], edges[1]) && c.Has(edges[1]);
        CodeIsOrderIsomorphism(c, rest[0], edges[0], 0);
        assert !c.Before(rest[0], edges[0]);
      }
      SortedDeltasFit(c, rest, c.Encode(edges[0]));
    }
  }

  /** The bytes of a gadget, if it has any. */
  function Packed(s: Stats, undirected: seq<GadgetEdge>, directed: seq<GadgetEdge>): Option<seq<Byte>> {
    var c := Coder(s.locations, s.states);
    var us, ds := Codes(c, SortEdges(undirected)), Codes(c, SortEdges(directed));
    if !HasHeader(s) || !DeltasOk(us, 0) || !DeltasOk(ds, 0) then None
    else Some(BuildHeader(s).value + Compressed(us, 0) + Compressed(ds, 0))
  }

  /** Packs a gadget into a buffer of exactly the computed size. */
  method Encode(locations: nat, states: nat, components: nat, undirected: seq<GadgetEdge>, directed: seq<GadgetEdge>) returns (bytes: Option<seq<Byte>>)
    ensures bytes == Packed(Stats(locations, states, |undirected|, |directed|, components), undirected, directed)
  {
    var s := Stats(locations, states, |undirected|, |directed|, components);
    var header := BuildHeader(s);
    if header.None? {
      return None;
    }
    var c := Coder(locations, states);
    var us, ds := SortEdges(undirected), SortEdges(directed);
    var usize := CompressedSize(us, c);
    var dsize := CompressedSize(ds, c);
    if usize.None? || dsize.None? {
      return None;
    }
    hide Compressed, DeltasOk, Codes, BuildHeader, SortEdges;
    var data := FillBuffer(header.value, us, ds, c, usize.value, dsize.value);
    return Some(data);
  }

  /** Fills a buffer of the given size with the header and the two lists. */
  method FillBuffer(header: seq<Byte>, us: seq<GadgetEdge>, ds: seq<GadgetEdge>, c: Coder, usize: nat, dsize: nat) returns (bytes: seq<Byte>)
    requires DeltasOk(Codes(c, us), 0) && usize == |Compressed(Codes(c, us), 0)| && DeltasOk(Codes(c, ds), 0) && dsize == |Compressed(Codes(c, ds), 0)|
    ensures bytes == header + Compressed(Codes(c, us), 0) + Compressed(Codes(c, ds), 0)
  {
    hide Compressed, DeltasOk, Codes;
    var data := new Byte[|header| + usize + dsize](_ => 0);
    CopyHeader(header, data);
    var writer := new PackWriter(data, |header|);
    WriteCompressed(us, c, writer);
    WriteCompressed(ds, c, writer);
    assert writer.cur == data.Length && data[..writer.cur] == data[..];
    bytes := data[..];
  }

  method CopyHeader(header: seq<Byte>, data: array<Byte>)
    requires |header| <= data.Length
    modifies data
    ensures data[..|header|] == header
  {
    var i := 0;
    while i < |header|
      invariant i <= |header| && forall j :: 0 <= j < i ==> data[j] == header[j]
    {
      data[i] := header[i];
      i := i + 1;
    }
  }

  /** The two lists, where the reader stopped, and whether it ran over the end. */
  datatype Unpacked = Unpacked(undirected: seq<GadgetEdge>, directed: seq<GadgetEdge>, pos: nat, overflow: bool)

  function Unpack(data: seq<Byte>): Option<Unpacked> {
    var header := ReadStats(data);
    if header.None? then None
    else
      var (s, pos) := header.value;
      var c := Coder(s.locations, s.states);
      if c.PerOrigin() == 0 || c.states == 0 || c.Square() == 0 then None
      else
        var us := ReadEdges(c, data, pos, s.undirected, 0);
        var ds := ReadEdges(c, data, us.pos, s.directed, 0);
        Some(Unpacked(us.edges, ds.edges, ds.pos, us.overflow || ds.overflow))
  }

  /** Decodes to edge lists; `None` for a broken header or a coder that would divide by zero. */
  method DecodeToSlls(data: seq<Byte>) returns (result: Option<Unpacked>)
    ensures result == Unpack(data)
  {
    var header := ReadStats(data);
    if header.None? {
      return None;
    }
    var (s, pos) := header.value;
    var c := Coder(s.locations, s.states);
    if c.PerOrigin() == 0 || c.states == 0 || c.Square() == 0 {
      return None;
    }
    hide ReadEdges, ReadStats;
    var reader := new PackReader(data, pos);
    var us := ReadCompressed(reader, s.undirected, c);
    var ds := ReadCompressed(reader, s.directed, c);
    return Some(Unpacked(us, ds, reader.cur, reader.overflow));
  }

  /**
   Whenever a gadget can be packed and its codes per origin fit in 32 bits, unpacking gives back the sorted
   lists and uses up every byte.
   */
  lemma GadgetRoundTrip(s: Stats, undirected: seq<GadgetEdge>, directed: seq<GadgetEdge>)
    requires s.undirected == |undirected| && s.directed == |directed| && Packed(s, undirected, directed).Some?
    requires Coder(s.locations, s.states).Origin() < Two32
    requires forall e :: e in undirected || e in directed ==> Coder(s.locations, s.states).Has(e)
    ensures var data := Packed(s, undirected, directed).value;
            Unpack(data) == Some(Unpacked(SortEdges(undirected), SortEdges(directed), |data|, false))
  {
    hide *;
    var c := Coder(s.locations, s.states);
    var us, ds := SortEdges(undirected), SortEdges(directed);
    SortEdgesSorts(undirected);
    SortEdgesSorts(directed);
    PackedIs(s, undirected, directed);
    var h, u, d := BuildHeader(s).value, Compressed(Codes(c, us), 0), Compressed(Codes(c, ds), 0);
    CoderFits(s);
    PacksLayout(s, h, u, d);
    BothListsRead(c, s, h + u + d, |h|, us, ds, u, d);
  }

  lemma PackedIs(s: Stats, undirected: seq<GadgetEdge>, directed: seq<GadgetEdge>)
    requires Packed(s, undirected, directed).Some?
    ensures var c := Coder(s.locations, s.states);
            var us, ds := Codes(c, SortEdges(undirected)), Codes(c, SortEdges(directed));
            && HasHeader(s) && DeltasOk(us, 0) && DeltasOk(ds, 0) && BuildHeader(s).Some?
            && Packed(s, undirected, directed).value == BuildHeader(s).value + Compressed(us, 0) + Compressed(ds, 0)
  {
    hide DeltasOk, Compressed, Codes, SortEdges;
  }

  lemma CoderFits(s: Stats)
    requires HasHeader(s) && Coder(s.locations, s.states).Origin() < Two32
    ensures var c := Coder(s.locations, s.states); c.Valid() && c.PerOrigin() > 0 && c.states > 0 && c.Square() > 0
  {
    StatesFit(s);
    PerOriginExact(Coder(s.locations, s.states));
    SquareFits(s.states);
  }

  lemma PacksLayout(s: Stats, h: seq<Byte>, u: seq<Byte>, d: seq<Byte>)
    requires HasHeader(s) && BuildHeader(s) == Some(h)
    ensures var data := h + u + d; ReadStats(data) == Some((s, |h|)) && At(data, |h|, u) && At(data, |h| + |u|, d)
  {
    hide BuildHeader, ReadStats;
    HeaderRoundTrip(s, u + d);
    assert h + u + d == h + (u + d);
    AtEnd(h, u, h + u, |h|);
    AtStays(h + u, d, h + u + d, |h|, u);
    AtEnd(h + u, d, h + u + d, |h| + |u|);
  }

  lemma StatesFit(s: Stats)
    requires HasHeader(s)
    ensures 0 < s.locations <= 16 && 0 < s.states < 0x1_0000
  {
  }

  lemma BothListsRead(c: Coder, s: Stats, data: seq<Byte>, pos: nat, us: seq<GadgetEdge>, ds: seq<GadgetEdge>, u: seq<Byte>, d: seq<Byte>)
    requires c == Coder(s.locations, s.states) && c.Valid() && c.Origin() < Two32 && c.PerOrigin() > 0 && c.states > 0 && c.Square() > 0
    requires ReadStats(data) == Some((s, pos)) && s.undirected == |us| && s.directed == |ds|
    requires (forall e :: e in us ==> c.Has(e)) && (forall e :: e in ds ==> c.Has(e))
    requires DeltasOk(Codes(c, us), 0) && u == Compressed(Codes(c, us), 0) && DeltasOk(Codes(c, ds), 0) && d == Compressed(Codes(c, ds), 0)
    requires At(data, pos, u) && At(data, pos + |u|, d) && |data| == pos + |u| + |d|
    ensures Unpack(data) == Some(Unpacked(us, ds, |data|, false))
  {
    hide ReadStats, ReadEdges, Codes, Compressed, DeltasOk, U32;
    assert CanDecode(c);
    EdgesRoundTrip(c, data, pos, us, 0);
    EdgesRoundTrip(c, data, pos + |u|, ds, 0);
  }

  /** Every gadget with a header whose codes all fit in 32 bits can be packed. */
  lemma SmallGadgetsPack(s: Stats, undirected: seq<GadgetEdge>, directed: seq<GadgetEdge>)
    requires HasHeader(s) && Coder(s.locations, s.states).All() < Two32
    requires forall e :: e in undirected || e in directed ==> Coder(s.locations, s.states).Has(e)
    ensures Packed(s, undirected, directed).Some?
  {
    var c := Coder(s.locations, s.states);
    SortEdgesSorts(undirected);
    SortEdgesSorts(directed);
    SortedDeltasFit(c, SortEdges(undirected), 0);
    SortedDeltasFit(c, SortEdges(directed), 0);
  }
}
