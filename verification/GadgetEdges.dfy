/** From an automaton to the edges of a gadget. */
module GadgetEdges {
  // The accepting states of an alternating automaton are the states of the gadget, its symbols the locations, and
  // two steps make an edge.

  import opened Options
  import opened SeqFacts
  import opened EdgeEnumeration
  import opened EdgeCoder
  import opened Pack
  import opened GadgetCodec
  import opened GadgetNumbering
  import ComponentCounts
  import StrongComponents

  /** The edge a passage makes. */
  ghost predicate Makes(numbers: map<nat, nat>, q: Passage, e: GadgetEdge) {
    q.start in numbers && q.end in numbers && e == GadgetEdge(numbers[q.start], q.from, q.to, numbers[q.end])
  }

  /** The edges so far are those of the passages so far. */
  ghost predicate EdgesOk(numbers: map<nat, nat>, edges: seq<GadgetEdge>, made: set<Passage>) {
    && Distinct(edges) && (forall q :: q in made ==> q.start in numbers && q.end in numbers)
    && (forall e :: e in edges <==> MadeBySome(numbers, made, e))
  }

  ghost predicate MadeBySome(numbers: map<nat, nat>, made: set<Passage>, e: GadgetEdge) {
    exists q :: q in made && Makes(numbers, q, e)
  }

  /** Numbers of the states and edges found so far. */
  datatype Found = Found(numbers: map<nat, nat>, edges: seq<GadgetEdge>)

  ghost predicate Ok(D: Dfa, f: Found, made: set<Passage>) {
    D.Valid() && NumbersFit(D, f.numbers) && EdgesOk(f.numbers, f.edges, made)
  }

  /** State `s` is mentioned at `at`. */
  method NumberState(D: Dfa, f0: Found, s: nat, ghost made: set<Passage>, ghost active: seq<nat>, ghost met0: map<nat, Place>, ghost at: Place, ghost next: Place)
      returns (f: Found, ghost met: map<nat, Place>)
    requires Ok(D, f0, made) && s < |D.accept| && D.accept[s]
    requires Meeting(D, active, f0.numbers, met0, at) && Mentions(D, active, s, at) && Before(at, next) && forall p :: Before(p, next) ==> Before(p, at) || p == at
    ensures Ok(D, f, made) && s in f.numbers && f0.numbers.Keys <= f.numbers.Keys
    ensures Meeting(D, active, f.numbers, met, next)
  {
    hide Meeting, Mentions, Before;
    if s in f0.numbers {
      MetBefore(D, active, f0.numbers, met0, at, next, s);
      return f0, met0;
    }
    MetFirst(D, active, f0.numbers, met0, at, next, s);
    met := met0[s := at];
    f := Found(f0.numbers[s := |f0.numbers|], f0.edges);
    NumberOne(D, f0.numbers, s);
    NumberedEdges(f0.numbers, f.numbers, f0.edges, made);
  }

  lemma NumberOne(D: Dfa, numbers: map<nat, nat>, s: nat)
    requires NumbersFit(D, numbers) && s !in numbers && s < |D.accept| && D.accept[s]
    ensures NumbersFit(D, numbers[s := |numbers|])
  {
    var now := numbers[s := |numbers|];
    assert now.Keys == numbers.Keys + {s};
    assert |now| == |now.Keys| == |numbers.Keys| + 1;
  }

  lemma NumberedEdges(numbers: map<nat, nat>, now: map<nat, nat>, edges: seq<GadgetEdge>, made: set<Passage>)
    requires EdgesOk(numbers, edges, made) && forall s :: s in numbers ==> s in now && now[s] == numbers[s]
    ensures EdgesOk(now, edges, made)
  {
    forall e ensures MadeBySome(now, made, e) <==> MadeBySome(numbers, made, e) {
      if MadeBySome(now, made, e) {
        var q :| q in made && Makes(now, q, e);
        assert Makes(numbers, q, e);
      }
      if MadeBySome(numbers, made, e) {
        var q :| q in made && Makes(numbers, q, e);
        assert Makes(now, q, e);
      }
    }
  }

  /** One passage. */
  method AddPassage(D: Dfa, f0: Found, q: Passage, ghost made: set<Passage>, ghost active: seq<nat>, ghost met0: map<nat, Place>, ghost i: nat, ghost j: nat)
      returns (f: Found, ghost met: map<nat, Place>)
    requires Ok(D, f0, made) && q.start < |D.accept| && D.accept[q.start] && q.end < |D.accept| && D.accept[q.end]
    requires i < |active| && j < |active| && PassageAt(D, active, q, Place(q.start, i, j, false)) && Meeting(D, active, f0.numbers, met0, Place(q.start, i, j, false))
    ensures Ok(D, f, made + {q}) && Meeting(D, active, f.numbers, met, Place(q.start, i, j + 1, false))
  {
    ghost var first, second, next := Place(q.start, i, j, false), Place(q.start, i, j, true), Place(q.start, i, j + 1, false);
    BothMentioned(D, active, q, i, j);
    hide Ok, Meeting, Mentions, Before, PassageAt;
    f, met := NumberState(D, f0, q.start, made, active, met0, first, second);
    f, met := NumberState(D, f, q.end, made, active, met, second, next);
    var e := GadgetEdge(f.numbers[q.start], q.from, q.to, f.numbers[q.end]);
    OneMoreEdge(D, f, q, e, made);
    if e !in f.edges {
      f := f.(edges := f.edges + [e]);
    }
  }

  lemma BothMentioned(D: Dfa, active: seq<nat>, q: Passage, i: nat, j: nat)
    requires i < |active| && j < |active| && PassageAt(D, active, q, Place(q.start, i, j, false))
    ensures var first, second, next := Place(q.start, i, j, false), Place(q.start, i, j, true), Place(q.start, i, j + 1, false);
            && Mentions(D, active, q.start, first) && Mentions(D, active, q.end, second) && Before(first, second) && Before(second, next)
            && (forall p :: Before(p, second) ==> Before(p, first) || p == first) && (forall p :: Before(p, next) ==> Before(p, second) || p == second)
  {
    assert PassageAt(D, active, q, Place(q.start, i, j, true));
  }

  lemma OneMoreEdge(D: Dfa, f: Found, q: Passage, e: GadgetEdge, made: set<Passage>)
    requires Ok(D, f, made) && Makes(f.numbers, q, e)
    ensures Ok(D, if e in f.edges then f else f.(edges := f.edges + [e]), made + {q})
  {
    var edges := if e in f.edges then f.edges else f.edges + [e];
    forall d ensures d in edges <==> MadeBySome(f.numbers, made + {q}, d) {
      if d in edges && d != e {
        assert MadeBySome(f.numbers, made, d);
        var p :| p in made && Makes(f.numbers, p, d);
        assert p in made + {q};
      }
      if d == e {
        assert q in made + {q};
      }
      if MadeBySome(f.numbers, made + {q}, d) {
        var p :| p in made + {q} && Makes(f.numbers, p, d);
        assert p in made ==> MadeBySome(f.numbers, made, d);
      }
    }
  }

  /** All ways out after going in at `from`. */
  method WaysOut(D: Dfa, active: seq<nat>, f0: Found, start: nat, from: nat, middle: nat, ghost made0: set<Passage>, ghost met0: map<nat, Place>, ghost i: nat)
      returns (f: Found, ghost made: set<Passage>, ghost met: map<nat, Place>)
    requires Ok(D, f0, made0) && IsActive(D, active) && Alternates(D) && start < |D.accept| && D.accept[start] && D.Goes(start, from, middle)
    requires i < |active| && active[i] == from && Meeting(D, active, f0.numbers, met0, Place(start, i, 0, false))
    ensures Ok(D, f, made) && Meeting(D, active, f.numbers, met, Place(start, i, |active|, false))
    ensures forall q :: q in made <==> q in made0 || (q.start == start && q.from == from && IsPassage(D, q))
  {
    f, made, met := f0, made0, met0;
    var j := 0;
    hide Meeting, Mentions;
    while j < |active|
      invariant j <= |active| && Ok(D, f, made) && Meeting(D, active, f.numbers, met, Place(start, i, j, false))
      invariant forall q :: q in made <==> q in made0 || OutBy(D, active[..j], start, from, middle, q)
    {
      var to := active[j];
      assert to in active;
      OutOneMore(D, active, j, start, from, middle);
      var end := D.step[middle][to];
      if end.Some? {
        var q := Passage(start, from, to, end.value);
        assert D.Goes(middle, to, end.value);
        assert Through(D, q, middle);
        f, met := AddPassage(D, f, q, made, active, met, i, j);
        made := made + {q};
      } else {
        SkipWay(D, active, f.numbers, met, start, i, j, middle);
      }
      j := j + 1;
    }
    assert active[..j] == active;
    forall q: Passage ensures OutBy(D, active, start, from, middle, q) <==> q.start == start && q.from == from && IsPassage(D, q) {
      OutIsPassage(D, active, start, from, middle, q);
    }
  }

  /** A passage from `start` through `middle` that goes out at one of the listed symbols. */
  ghost predicate OutBy(D: Dfa, symbols: seq<nat>, start: nat, from: nat, middle: nat, q: Passage) {
    q.start == start && q.from == from && q.to in symbols && D.Goes(middle, q.to, q.end)
  }

  lemma OutOneMore(D: Dfa, active: seq<nat>, j: nat, start: nat, from: nat, middle: nat)
    requires j < |active| && middle < |D.step| && active[j] < |D.step[middle]|
    ensures forall q :: OutBy(D, active[..j + 1], start, from, middle, q) <==>
              OutBy(D, active[..j], start, from, middle, q)
              || (D.step[middle][active[j]].Some? && q == Passage(start, from, active[j], D.step[middle][active[j]].value))
  {
    assert active[..j + 1] == active[..j] + [active[j]];
    forall q: Passage ensures OutBy(D, active[..j + 1], start, from, middle, q) <==>
              OutBy(D, active[..j], start, from, middle, q)
              || (D.step[middle][active[j]].Some? && q == Passage(start, from, active[j], D.step[middle][active[j]].value))
    {
      assert q.to in active[..j + 1] <==> q.to in active[..j] || q.to == active[j];
      if q.to == active[j] && D.step[middle][active[j]].Some? {
        assert D.Goes(middle, q.to, q.end) <==> q.end == D.step[middle][active[j]].value;
      }
    }
  }

  lemma OutIsPassage(D: Dfa, active: seq<nat>, start: nat, from: nat, middle: nat, q: Passage)
    requires IsActive(D, active) && D.Goes(start, from, middle) && start < |D.accept| && D.accept[start]
    ensures OutBy(D, active, start, from, middle, q) <==> q.start == start && q.from == from && IsPassage(D, q)
  {
    if OutBy(D, active, start, from, middle, q) {
      assert Through(D, q, middle);
    }
    if q.start == start && q.from == from && IsPassage(D, q) {
      var m: nat :| Through(D, q, m);
      assert m == middle;
    }
  }

  /** All passages from one state. */
  method WaysFrom(D: Dfa, active: seq<nat>, f0: Found, start: nat, ghost made0: set<Passage>, ghost met0: map<nat, Place>)
      returns (f: Found, ghost made: set<Passage>, ghost met: map<nat, Place>)
    requires Ok(D, f0, made0) && IsActive(D, active) && Alternates(D) && start < |D.accept| && D.accept[start]
    requires Meeting(D, active, f0.numbers, met0, Place(start, 0, 0, false))
    ensures Meeting(D, active, f.numbers, met, Place(start, |active|, 0, false))
    ensures Ok(D, f, made) && forall q :: q in made <==> q in made0 || (q.start == start && IsPassage(D, q))
  {
    f, made, met := f0, made0, met0;
    var i := 0;
    hide Meeting;
    while i < |active|
      invariant i <= |active| && Ok(D, f, made) && Meeting(D, active, f.numbers, met, Place(start, i, 0, false))
      invariant forall q :: q in made <==> q in made0 || (q.start == start && q.from in active[..i] && IsPassage(D, q))
    {
      var from := active[i];
      assert from in active && active[..i + 1] == active[..i] + [from];
      var middle := D.step[start][from];
      if middle.Some? {
        assert D.Goes(start, from, middle.value);
        f, made, met := WaysOut(D, active, f, start, from, middle.value, made, met, i);
        NextWayIn(D, active, f.numbers, met, start, i, |active|);
      } else {
        NoWayIn(D, start, from);
        NextWayIn(D, active, f.numbers, met, start, i, 0);
      }
      i := i + 1;
    }
    assert active[..i] == active;
    forall q: Passage | q.start == start && IsPassage(D, q) ensures q.from in active {
      var m: nat :| Through(D, q, m);
    }
  }

  lemma NoWayIn(D: Dfa, start: nat, from: nat)
    requires start < |D.step| && from < |D.step[start]| && D.step[start][from].None?
    ensures forall q: Passage :: IsPassage(D, q) && q.start == start ==> q.from != from
  {
    forall q: Passage | IsPassage(D, q) && q.start == start ensures q.from != from {
      var m: nat :| Through(D, q, m);
    }
  }

  /** The edges are exactly the passages between accepting states, under the new numbers. */
  ghost predicate Deflated(D: Dfa, numbers: map<nat, nat>, edges: seq<GadgetEdge>) {
    && NumbersFit(D, numbers) && Distinct(edges)
    && (forall e :: e in edges <==> exists q :: IsPassage(D, q) && Makes(numbers, q, e))
    && (forall q :: IsPassage(D, q) ==> q.start in numbers && q.end in numbers)
  }

  /** Lists the edges of an alternating automaton; the states are numbered as the passages mention them. */
  method Deflate(D: Dfa, active: seq<nat>) returns (edges: seq<GadgetEdge>, numbers: map<nat, nat>)
    requires D.Valid() && IsActive(D, active) && Alternates(D)
    ensures Deflated(D, numbers, edges) && InOrder(D, active, numbers)
  {
    var f := Found(map[], []);
    ghost var made: set<Passage>, met: map<nat, Place> := {}, map[];
    var start := 0;
    NothingMet(D, active);
    hide Meeting, InOrder;
    while start < |D.step|
      invariant start <= |D.step| && Ok(D, f, made) && Meeting(D, active, f.numbers, met, Place(start, 0, 0, false))
      invariant forall q :: q in made <==> q.start < start && IsPassage(D, q)
    {
      if D.accept[start] {
        f, made, met := WaysFrom(D, active, f, start, made, met);
        NextStart(D, active, f.numbers, met, start, |active|);
      } else {
        assert forall q :: IsPassage(D, q) ==> q.start != start;
        NextStart(D, active, f.numbers, met, start, 0);
      }
      start := start + 1;
    }
    AllMade(D, f, made);
    AllMet(D, active, f.numbers, met, Place(start, 0, 0, false));
    return f.edges, f.numbers;
  }

  lemma AllMade(D: Dfa, f: Found, made: set<Passage>)
    requires Ok(D, f, made) && forall q :: q in made <==> q.start < |D.step| && IsPassage(D, q)
    ensures Deflated(D, f.numbers, f.edges)
  {
    hide IsPassage, Makes;
    assert forall q :: IsPassage(D, q) ==> q.start < |D.step| by {
      forall q: Passage | IsPassage(D, q) ensures q.start < |D.step| {
        PassageStart(D, q);
      }
    }
    forall e ensures e in f.edges <==> exists q :: IsPassage(D, q) && Makes(f.numbers, q, e) {
      assert e in f.edges <==> MadeBySome(f.numbers, made, e);
    }
  }

  lemma PassageStart(D: Dfa, q: Passage)
    requires D.Valid() && IsPassage(D, q)
    ensures q.start < |D.step|
  {
  }

  /** If the symbols in use are the first few, every edge can be coded for so many locations and the accepting states. */
  lemma DeflatedFits(D: Dfa, active: seq<nat>, numbers: map<nat, nat>, edges: seq<GadgetEdge>, e: GadgetEdge)
    requires D.Valid() && IsActive(D, active) && Deflated(D, numbers, edges) && e in edges && forall x :: x in active ==> x < |active|
    ensures Coder(|active|, |Accepting(D)|).Has(e)
  {
    var q :| IsPassage(D, q) && Makes(numbers, q, e);
    var m: nat :| Through(D, q, m);
    assert q.from in active && q.to in active;
    SubsetSize(numbers.Keys, Accepting(D));
    assert |numbers| == |numbers.Keys|;
  }

  /** How many states accept. */
  method AcceptSize(D: Dfa) returns (count: nat)
    ensures count == |Accepting(D)|
  {
    count := 0;
    ghost var seen: set<nat> := {};
    var s := 0;
    while s < |D.accept|
      invariant s <= |D.accept| && count == |seen| && seen == set t | 0 <= t < s && D.accept[t]
    {
      if D.accept[s] {
        seen, count := seen + {s}, count + 1;
      }
      s := s + 1;
    }
  }

  /** The counts are read back. */
  lemma StatsUnpack(s: Stats, undirected: seq<GadgetEdge>, directed: seq<GadgetEdge>)
    requires Packed(s, undirected, directed).Some?
    ensures var data := Packed(s, undirected, directed).value; ReadStats(data).Some? && ReadStats(data).value.0 == s
  {
    hide *;
    PackedIs(s, undirected, directed);
    var c := Coder(s.locations, s.states);
    var u, d := Compressed(Codes(c, SortEdges(undirected)), 0), Compressed(Codes(c, SortEdges(directed)), 0);
    assert BuildHeader(s).value + u + d == BuildHeader(s).value + (u + d);
    HeaderRoundTrip(s, u + d);
  }

  /**
   Packs the gadget of an automaton.  Whatever is packed unpacks, to the last byte, to the counts and to the sorted
   lists of its directed and undirected edges.  `start` is where the search for components happens to start counting.
   */
  method EncodeGadget(D: Dfa, active: seq<nat>, start: nat)
      returns (bytes: Option<seq<Byte>>, edges: seq<GadgetEdge>, undirected: seq<GadgetEdge>, directed: seq<GadgetEdge>, components: nat, ghost numbers: map<nat, nat>)
    requires start <= StrongComponents.MAX && D.Valid() && IsActive(D, active) && Alternates(D) && forall x :: x in active ==> x < |active|
    ensures Deflated(D, numbers, edges) && InOrder(D, active, numbers)
    ensures forall e :: e in directed <==> e in edges && e.Reverse() !in edges
    ensures forall e :: e in undirected <==> e in edges && e.Reverse() in edges && e.Less(e.Reverse())
    ensures Distinct(directed) && Distinct(undirected)
    ensures start + |D.step| <= StrongComponents.MAX ==> components == |ComponentCounts.AcceptClasses(D)|
    ensures bytes.Some? ==> ReadStats(bytes.value).Some? && ReadStats(bytes.value).value.0 == Stats(|active|, |Accepting(D)|, |undirected|, |directed|, components)
    ensures Coder(|active|, |Accepting(D)|).All() < Two32 && HasHeader(Stats(|active|, |Accepting(D)|, |undirected|, |directed|, components)) ==> bytes.Some?
    ensures bytes.Some? && Coder(|active|, |Accepting(D)|).Origin() < Two32 ==>
              Unpack(bytes.value) == Some(Unpacked(SortEdges(undirected), SortEdges(directed), |bytes.value|, false))
  {
    var names, idle;
    edges, names := Deflate(D, active);
    numbers := names;
    undirected, directed, idle := SplitEdges(edges);
    var states := AcceptSize(D);
    components := ComponentCounts.CountAcceptComponents(D, start);
    bytes := Encode(|active|, states, components, undirected, directed);
    ghost var s, c := Stats(|active|, states, |undirected|, |directed|, components), Coder(|active|, states);
    forall e | e in undirected || e in directed ensures c.Has(e) {
      DeflatedFits(D, active, numbers, edges, e);
    }
    hide *;
    if c.All() < Two32 && HasHeader(s) {
      SmallGadgetsPack(s, undirected, directed);
    }
    if bytes.Some? {
      StatsUnpack(s, undirected, directed);
    }
    if bytes.Some? && c.Origin() < Two32 {
      GadgetRoundTrip(s, undirected, directed);
    }
  }
}
