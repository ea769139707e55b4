/** Tarjan's strongly connected components, as the automaton library computes them. */
module StrongComponents {
  // Tarjan's algorithm as the automaton library has it, on values and with its fields, from any start index.

  import opened SeqFacts

  /** The destinations of each state. */
  type Graph = seq<seq<nat>>

  ghost predicate IsGraph(G: Graph) {
    forall v, i :: 0 <= v < |G| && 0 <= i < |G[v]| ==> G[v][i] < |G|
  }

  ghost predicate Steps(G: Graph, x: nat, y: nat) {
    x < |G| && y in G[x]
  }

  ghost predicate IsPath(G: Graph, x: nat, y: nat, path: seq<nat>)
    decreases |path|
  {
    if path == [] then x == y else Steps(G, x, path[0]) && IsPath(G, path[0], y, path[1..])
  }

  ghost predicate Reach(G: Graph, x: nat, y: nat) {
    exists path :: IsPath(G, x, y, path)
  }

  ghost predicate Mutual(G: Graph, x: nat, y: nat) {
    Reach(G, x, y) && Reach(G, y, x)
  }

  lemma ReachSelf(G: Graph, x: nat)
    ensures Reach(G, x, x)
  {
    assert IsPath(G, x, x, []);
  }

  lemma ReachStep(G: Graph, x: nat, y: nat)
    requires Steps(G, x, y)
    ensures Reach(G, x, y)
  {
    assert IsPath(G, y, y, []) && [y][1..] == [];
    assert IsPath(G, x, y, [y]);
  }

  lemma {:induction false} PathConcat(G: Graph, x: nat, y: nat, z: nat, p: seq<nat>, q: seq<nat>)
    requires IsPath(G, x, y, p) && IsPath(G, y, z, q)
    ensures IsPath(G, x, z, p + q)
    decreases |p|
  {
    if p == [] {
      assert p + q == q;
    } else {
      PathConcat(G, p[0], y, z, p[1..], q);
      assert (p + q)[1..] == p[1..] + q;
    }
  }

  lemma ReachTransitive(G: Graph, x: nat, y: nat, z: nat)
    requires Reach(G, x, y) && Reach(G, y, z)
    ensures Reach(G, x, z)
  {
    var p :| IsPath(G, x, y, p);
    var q :| IsPath(G, y, z, q);
    PathConcat(G, x, y, z, p, q);
  }

  /** A path out of a set has a step out of it. */
  lemma {:induction false} Crossing(G: Graph, C: set<nat>, x: nat, z: nat, path: seq<nat>) returns (from: nat, to: nat)
    requires IsPath(G, x, z, path) && x in C && z !in C
    ensures from in C && to !in C && Steps(G, from, to) && Reach(G, x, from) && Reach(G, to, z)
    decreases |path|
  {
    if path[0] in C {
      from, to := Crossing(G, C, path[0], z, path[1..]);
      ReachStep(G, x, path[0]);
      ReachTransitive(G, x, path[0], from);
    } else {
      from, to := x, path[0];
      ReachSelf(G, x);
      assert IsPath(G, to, z, path[1..]);
    }
  }

  /** The fields of the computation, as a value. */
  datatype Env = Env(num: seq<nat>, index: nat, stack: seq<nat>, comps: seq<nat>, marks: seq<nat>)

  /** Stands for "no number yet". */
  const MAX: nat := 0xFFFF_FFFF

  ghost predicate Seen(e: Env, v: nat) {
    v < |e.num| && e.num[v] != MAX
  }

  ghost function White(num: seq<nat>): set<nat> {
    set v | 0 <= v < |num| && num[v] == MAX
  }

  /** Numbers are below `index`, and there are enough left for every state without one. */
  ghost predicate NumbersOk(G: Graph, e: Env) {
    && IsGraph(G) && |e.num| == |G|
    && (forall v: nat :: Seen(e, v) ==> e.num[v] < e.index)
    && e.index + |White(e.num)| <= MAX
  }

  /** The stack is ordered by number. */
  ghost predicate StackOk(e: Env) {
    && (forall v :: v in e.stack ==> Seen(e, v))
    && (forall i, j :: 0 <= i < j < |e.stack| ==> Below(e, e.stack[i], e.stack[j]))
  }

  ghost predicate Below(e: Env, x: nat, y: nat) {
    x < |e.num| && y < |e.num| && e.num[x] < e.num[y]
  }

  /** A numbered state is on the stack or in a component, and not in both. */
  ghost predicate PlacedOk(e: Env) {
    && (forall v :: Seen(e, v) <==> v in e.stack || v in e.comps)
    && (forall v :: v in e.stack ==> v !in e.comps)
  }

  /** Only states still being explored may have unnumbered destinations. */
  ghost predicate Explored(G: Graph, e: Env, gray: set<nat>) {
    forall x: nat, y: nat :: Seen(e, x) && x !in gray && Steps(G, x, y) ==> Seen(e, y)
  }

  /** Each state on the stack reaches those above it. */
  ghost predicate Chained(G: Graph, e: Env) {
    forall i, j :: 0 <= i <= j < |e.stack| ==> Reach(G, e.stack[i], e.stack[j])
  }

  /** Each state on the stack reaches one that is still being explored, at or below it. */
  ghost predicate Anchored(G: Graph, e: Env, gray: set<nat>) {
    forall y {:trigger Anchor(G, e, gray, y)} :: y in e.stack ==> Anchor(G, e, gray, y)
  }

  ghost predicate Anchor(G: Graph, e: Env, gray: set<nat>, y: nat) {
    exists g :: g in gray && g in e.stack && (g == y || Below(e, g, y)) && Reach(G, y, g)
  }

  lemma AnchorOf(G: Graph, e: Env, gray: set<nat>, y: nat) returns (g: nat)
    requires Anchored(G, e, gray) && y in e.stack
    ensures g in gray && g in e.stack && (g == y || Below(e, g, y)) && Reach(G, y, g)
  {
    assert Anchor(G, e, gray, y);
    g :| g in gray && g in e.stack && (g == y || Below(e, g, y)) && Reach(G, y, g);
  }

  /** No component starts after place `i` and not after place `j`. */
  ghost predicate Together(marks: seq<nat>, i: nat, j: nat) {
    forall k :: 0 <= k < |marks| ==> !(i < marks[k] <= j)
  }

  /** The finished components: mutually reachable states, all of them, side by side. */
  ghost predicate CompsOk(G: Graph, comps: seq<nat>, marks: seq<nat>) {
    && Distinct(comps)
    && (forall k :: 0 <= k < |marks| ==> marks[k] < |comps|)
    && (forall k, l :: 0 <= k < l < |marks| ==> marks[k] < marks[l])
    && (comps != [] ==> marks != [] && marks[0] == 0)
    && (forall i: nat, j: nat :: i <= j < |comps| ==> (Together(marks, i, j) <==> Mutual(G, comps[i], comps[j])))
    && (forall x, z :: x in comps && Mutual(G, x, z) ==> z in comps)
  }

  ghost predicate Inv(G: Graph, e: Env, gray: set<nat>) {
    && NumbersOk(G, e) && StackOk(e) && PlacedOk(e) && Explored(G, e, gray)
    && Chained(G, e) && Anchored(G, e, gray) && CompsOk(G, e.comps, e.marks)
    && (forall g :: g in gray ==> g in e.stack)
  }

  /** What a call may change: it gives numbers, grows the stack and adds components. */
  ghost predicate Grows(e: Env, f: Env) {
    && |e.num| == |f.num| && (forall v: nat :: Seen(e, v) ==> f.num[v] == e.num[v])
    && e.stack <= f.stack
  }

  ghost predicate LowReached(G: Graph, e: Env, v: nat, low: nat) {
    exists y :: y in e.stack && y < |e.num| && e.num[y] == low && Reach(G, v, y)
  }

  /** Steps from the part of the stack above place `from` into the part below it lead to numbers of at least `low`. */
  ghost predicate LowBounds(G: Graph, e: Env, from: nat, low: nat, except: set<nat>) {
    forall i, j :: 0 <= j < from <= i < |e.stack| && e.stack[i] !in except && Steps(G, e.stack[i], e.stack[j]) && e.stack[j] < |e.num| ==> low <= e.num[e.stack[j]]
  }

  /** Numbers are unsigned 32-bit ones. */
  function Following(index: nat): nat {
    if index == MAX then 0 else index + 1
  }

  function Push(e: Env, v: nat): Env
    requires v < |e.num|
  {
    e.(num := e.num[v := e.index], index := Following(e.index), stack := e.stack + [v])
  }

  lemma PushNumbers(G: Graph, e: Env, v: nat)
    requires NumbersOk(G, e) && v < |e.num| && !Seen(e, v)
    ensures NumbersOk(G, Push(e, v)) && White(Push(e, v).num) == White(e.num) - {v} && v in White(e.num) && Grows(e, Push(e, v))
    ensures forall x: nat :: Seen(Push(e, v), x) <==> Seen(e, x) || x == v
  {
    assert v in White(e.num) && |White(e.num)| > 0;
    var f := Push(e, v);
    assert White(f.num) == White(e.num) - {v};
  }

  lemma PushStack(G: Graph, e: Env, gray: set<nat>, v: nat)
    requires NumbersOk(G, e) && v < |e.num| && !Seen(e, v) && StackOk(e) && PlacedOk(e) && Explored(G, e, gray)
    ensures StackOk(Push(e, v)) && PlacedOk(Push(e, v)) && Explored(G, Push(e, v), gray + {v})
  {
    hide Steps;
    PushNumbers(G, e, v);
    var f := Push(e, v);
    assert v !in e.stack && v !in e.comps;
    forall i, j | 0 <= i < j < |f.stack| ensures Below(f, f.stack[i], f.stack[j]) {
      assert Seen(e, f.stack[i]) by {
        assert f.stack[i] in e.stack;
      }
      assert j < |e.stack| ==> Below(e, e.stack[i], e.stack[j]);
    }
  }

  lemma PushAnchored(G: Graph, e: Env, gray: set<nat>, v: nat)
    requires Anchored(G, e, gray) && StackOk(e) && v < |e.num| && !Seen(e, v)
    ensures Anchored(G, Push(e, v), gray + {v})
  {
    hide Reach;
    var f := Push(e, v);
    forall y | y in f.stack ensures Anchor(G, f, gray + {v}, y) {
      if y == v {
        ReachSelf(G, v);
      } else {
        var g := AnchorOf(G, e, gray, y);
        assert Seen(e, g) && Seen(e, y) && g in f.stack;
      }
    }
  }

  /** The first visit to a state. */
  lemma PushKeepsInv(G: Graph, e: Env, gray: set<nat>, v: nat)
    requires Inv(G, e, gray) && v < |e.num| && !Seen(e, v) && forall g :: g in gray ==> Reach(G, g, v)
    ensures Inv(G, Push(e, v), gray + {v}) && White(Push(e, v).num) == White(e.num) - {v} && v in White(e.num)
    ensures Grows(e, Push(e, v))
  {
    hide NumbersOk, StackOk, PlacedOk, Explored, Chained, Anchored, CompsOk, Reach, Grows;
    PushNumbers(G, e, v);
    PushStack(G, e, gray, v);
    PushReaches(G, e, gray, v);
    PushAnchored(G, e, gray, v);
  }

  lemma PushReaches(G: Graph, e: Env, gray: set<nat>, v: nat)
    requires Anchored(G, e, gray) && Chained(G, e) && v < |e.num| && forall g :: g in gray ==> Reach(G, g, v)
    ensures Chained(G, Push(e, v))
  {
    var f := Push(e, v);
    forall i, j | 0 <= i <= j < |f.stack| ensures Reach(G, f.stack[i], f.stack[j]) {
      if j == |e.stack| {
        if i == j {
          ReachSelf(G, v);
        } else {
          var y := e.stack[i];
          var g := AnchorOf(G, e, gray, y);
          ReachTransitive(G, y, g, v);
        }
      }
    }
  }

  /** All of `v`'s destinations have been visited. */
  ghost predicate Exhausted(G: Graph, e: Env, v: nat) {
    forall w :: Steps(G, v, w) ==> Seen(e, w)
  }

  /** `v`, at place `k` of the stack, is finished but reaches a state below it: it stays on the stack. */
  lemma StayKeepsInv(G: Graph, e: Env, gray: set<nat>, v: nat, k: nat, low: nat)
    requires Inv(G, e, gray + {v}) && k < |e.stack| && e.stack[k] == v && v < |e.num| && Exhausted(G, e, v)
    requires forall g :: g in gray ==> g in e.stack[..k]
    requires low < e.num[v] && LowReached(G, e.(stack := e.stack[..k]), v, low)
    ensures Inv(G, e, gray)
  {
    StayAnchored(G, e, gray, v, k, low);
    assert Explored(G, e, gray) by {
      hide Steps, NumbersOk, StackOk, PlacedOk, Chained, Anchored, CompsOk;
    }
    hide NumbersOk, StackOk, PlacedOk, Explored, Chained, Anchored, CompsOk;
  }

  lemma StayAnchored(G: Graph, e: Env, gray: set<nat>, v: nat, k: nat, low: nat)
    requires Anchored(G, e, gray + {v}) && k < |e.stack| && e.stack[k] == v && v < |e.num|
    requires low < e.num[v] && LowReached(G, e.(stack := e.stack[..k]), v, low)
    ensures Anchored(G, e, gray)
  {
    hide Reach;
    var y0 :| y0 in e.stack[..k] && y0 < |e.num| && e.num[y0] == low && Reach(G, v, y0);
    var g0 := AnchorOf(G, e, gray + {v}, y0);
    ReachTransitive(G, v, y0, g0);
    forall y | y in e.stack ensures Anchor(G, e, gray, y) {
      var g := AnchorOf(G, e, gray + {v}, y);
      if g == v {
        ReachTransitive(G, y, v, g0);
      }
    }
  }

  /** The part of the stack from place `k` up becomes a component. */
  function Popped(e: Env, k: nat): Env
    requires k <= |e.stack|
  {
    e.(stack := e.stack[..k], comps := e.comps + Backward(e.stack[k..]), marks := e.marks + [|e.comps|])
  }

  /** Everything from `v` up is mutually reachable. */
  lemma AboveIsMutual(G: Graph, e: Env, gray: set<nat>, v: nat, k: nat, i: nat)
    requires Chained(G, e) && Anchored(G, e, gray + {v}) && StackOk(e) && k <= i < |e.stack| && e.stack[k] == v
    requires forall g :: g in gray ==> Reach(G, g, v)
    ensures Mutual(G, v, e.stack[i]) && Mutual(G, e.stack[i], v)
  {
    var y := e.stack[i];
    assert Reach(G, e.stack[k], e.stack[i]);
    var g := AnchorOf(G, e, gray + {v}, y);
    if g != v {
      ReachTransitive(G, y, g, v);
    }
  }

  lemma MutualTransitive(G: Graph, x: nat, y: nat, z: nat)
    requires Mutual(G, x, y) && Mutual(G, y, z)
    ensures Mutual(G, x, z)
  {
    ReachTransitive(G, x, y, z);
    ReachTransitive(G, z, y, x);
  }

  lemma Ordered(e: Env, i: nat, j: nat)
    requires StackOk(e) && i < |e.stack| && j < |e.stack|
    ensures i < j ==> Below(e, e.stack[i], e.stack[j])
  {
  }

  /** Steps out of the part from `v` up do not lead back to `v`. */
  lemma NoWayBack(G: Graph, e: Env, gray: set<nat>, v: nat, k: nat, x: nat, y: nat)
    requires NumbersOk(G, e) && StackOk(e) && PlacedOk(e) && Explored(G, e, gray + {v}) && CompsOk(G, e.comps, e.marks)
    requires k < |e.stack| && e.stack[k] == v && v < |e.num| && Exhausted(G, e, v) && LowBounds(G, e, k, e.num[v], {})
    requires (forall g :: g in gray ==> g in e.stack[..k]) && x in e.stack[k..] && Steps(G, x, y) && Mutual(G, y, v)
    ensures y in e.stack[k..]
  {
    hide Mutual, Steps;
    NotBelow(e, gray, k, x);
    assert Seen(e, y);
    assert v in e.stack && v !in e.comps && y !in e.comps;
    var i :| k <= i < |e.stack| && e.stack[i] == x;
    var j :| 0 <= j < |e.stack| && e.stack[j] == y;
    Ordered(e, j, k);
    assert k <= j;
    assert y == e.stack[k..][j - k];
  }

  /** Nothing else is mutually reachable with `v`. */
  lemma NothingElseIsMutual(G: Graph, e: Env, gray: set<nat>, v: nat, k: nat, z: nat)
    requires NumbersOk(G, e) && StackOk(e) && PlacedOk(e) && Explored(G, e, gray + {v}) && CompsOk(G, e.comps, e.marks)
    requires k < |e.stack| && e.stack[k] == v && v < |e.num| && Exhausted(G, e, v) && LowBounds(G, e, k, e.num[v], {})
    requires (forall g :: g in gray ==> g in e.stack[..k]) && Mutual(G, v, z)
    ensures z in e.stack[k..]
  {
    hide NumbersOk, StackOk, PlacedOk, Explored, CompsOk, Exhausted, LowBounds, Steps;
    var C := Elems(e.stack[k..]);
    assert v == e.stack[k..][0];
    if z !in C {
      var path :| IsPath(G, v, z, path);
      hide IsPath;
      var x, y := Crossing(G, C, v, z, path);
      ReachTransitive(G, y, z, v);
      ReachStep(G, x, y);
      ReachTransitive(G, v, x, y);
      NoWayBack(G, e, gray, v, k, x, y);
      assert false;
    }
  }

  lemma TopDistinct(e: Env, k: nat)
    requires StackOk(e) && k <= |e.stack|
    ensures Distinct(e.stack[k..]) && (forall x :: x in e.stack[k..] ==> x in e.stack) && (forall x :: x in e.stack[..k] ==> x in e.stack && x !in e.stack[k..])
  {
    var C := e.stack[k..];
    forall i, j | 0 <= i < j < |C| ensures C[i] != C[j] {
      assert Below(e, e.stack[k + i], e.stack[k + j]);
    }
    forall x | x in e.stack[..k] ensures x !in C {
      var i :| 0 <= i < k && e.stack[i] == x;
      forall j | 0 <= j < |C| ensures C[j] != x {
        assert Below(e, e.stack[i], e.stack[k + j]);
      }
    }
  }

  lemma NotBelow(e: Env, gray: set<nat>, k: nat, x: nat)
    requires StackOk(e) && k <= |e.stack| && x in e.stack[k..] && forall g :: g in gray ==> g in e.stack[..k]
    ensures x !in gray && Seen(e, x)
  {
    var i :| k <= i < |e.stack| && e.stack[i] == x;
    assert forall j :: 0 <= j < k ==> Below(e, e.stack[j], e.stack[i]);
  }

  lemma EarlierTogether(marks: seq<nat>, mark: nat, i: nat, j: nat)
    requires j < mark
    ensures Together(marks + [mark], i, j) <==> Together(marks, i, j)
  {
    var more := marks + [mark];
    assert forall k :: 0 <= k < |marks| ==> more[k] == marks[k];
    if Together(more, i, j) {
      forall k | 0 <= k < |marks| ensures !(i < marks[k] <= j) {
        assert !(i < more[k] <= j);
      }
    }
  }

  /** Adding a whole component. */
  lemma AddComponent(G: Graph, comps: seq<nat>, marks: seq<nat>, C: seq<nat>)
    requires CompsOk(G, comps, marks) && C != [] && Distinct(C) && forall x :: x in C ==> x !in comps
    requires forall x, y :: x in C && y in C ==> Mutual(G, x, y)
    requires forall x, z :: x in C && Mutual(G, x, z) ==> z in C
    ensures CompsOk(G, comps + C, marks + [|comps|])
  {
    var all, more := comps + C, marks + [|comps|];
    DistinctConcat(comps, C);
    forall i: nat, j: nat | i <= j < |all| ensures Together(more, i, j) <==> Mutual(G, all[i], all[j]) {
      if j < |comps| {
        EarlierTogether(marks, |comps|, i, j);
        assert all[i] == comps[i] && all[j] == comps[j];
      } else if i < |comps| {
        assert more[|marks|] == |comps|;
        assert all[i] == comps[i] && all[j] == C[j - |comps|];
        assert all[i] in comps && all[j] !in comps;
      } else {
        assert all[i] == C[i - |comps|] && all[j] == C[j - |comps|];
      }
    }
    forall x, z | x in all && Mutual(G, x, z) ensures z in all {
      assert x in comps || x in C;
    }
  }

  /** `v`, at place `k` of the stack, is finished and reaches nothing below it: it and all above it are a component. */
  lemma PopKeepsInv(G: Graph, e: Env, gray: set<nat>, v: nat, k: nat)
    requires Inv(G, e, gray + {v}) && k < |e.stack| && e.stack[k] == v && v < |e.num| && Exhausted(G, e, v)
    requires (forall g :: g in gray ==> g in e.stack[..k]) && (forall g :: g in gray ==> Reach(G, g, v))
    requires LowBounds(G, e, k, e.num[v], {})
    ensures Inv(G, Popped(e, k), gray)
  {
    PopPlaced(G, e, gray, v, k);
    hide NumbersOk, StackOk, PlacedOk, Explored, Chained, Anchored, CompsOk, Reach, LowBounds, Exhausted;
    PopComponent(G, e, gray, v, k);
    PopAnchored(G, e, gray, v, k);
  }

  lemma PopPlaced(G: Graph, e: Env, gray: set<nat>, v: nat, k: nat)
    requires NumbersOk(G, e) && StackOk(e) && PlacedOk(e) && Explored(G, e, gray + {v}) && Chained(G, e)
    requires k < |e.stack| && e.stack[k] == v && Exhausted(G, e, v)
    ensures var f := Popped(e, k); NumbersOk(G, f) && StackOk(f) && PlacedOk(f) && Explored(G, f, gray) && Chained(G, f)
  {
    hide Steps, Reach;
    TopDistinct(e, k);
    BackwardMembers(e.stack[k..]);
    var f := Popped(e, k);
    assert e.stack == f.stack + e.stack[k..];
    forall x: nat ensures x in e.stack <==> x in f.stack || x in e.stack[k..] {
    }
    assert forall x: nat :: Seen(f, x) <==> Seen(e, x);
    forall i, j | 0 <= i < j < |f.stack| ensures Below(f, f.stack[i], f.stack[j]) {
      assert Below(e, e.stack[i], e.stack[j]);
    }
  }

  lemma PopAnchored(G: Graph, e: Env, gray: set<nat>, v: nat, k: nat)
    requires StackOk(e) && Anchored(G, e, gray + {v}) && k < |e.stack| && e.stack[k] == v && forall g :: g in gray ==> g in e.stack[..k]
    ensures Anchored(G, Popped(e, k), gray)
  {
    var f := Popped(e, k);
    forall y | y in f.stack ensures Anchor(G, f, gray, y) {
      var g := AnchorOf(G, e, gray + {v}, y);
      var i :| 0 <= i < k && e.stack[i] == y;
      assert Below(e, e.stack[i], e.stack[k]);
      assert g in f.stack;
    }
  }

  /** The part of the stack from `v` up is a whole component. */
  lemma TopIsComponent(G: Graph, e: Env, gray: set<nat>, v: nat, k: nat, x: nat, y: nat)
    requires Inv(G, e, gray + {v}) && k < |e.stack| && e.stack[k] == v && v < |e.num| && Exhausted(G, e, v)
    requires (forall g :: g in gray ==> g in e.stack[..k]) && (forall g :: g in gray ==> Reach(G, g, v))
    requires LowBounds(G, e, k, e.num[v], {}) && x in e.stack[k..]
    ensures y in e.stack[k..] <==> Mutual(G, x, y)
  {
    hide NumbersOk, StackOk, PlacedOk, Explored, Chained, Anchored, CompsOk, Mutual, Reach, LowBounds, Exhausted;
    var i :| k <= i < |e.stack| && e.stack[i] == x;
    AboveIsMutual(G, e, gray, v, k, i);
    if y in e.stack[k..] {
      var j :| k <= j < |e.stack| && e.stack[j] == y;
      AboveIsMutual(G, e, gray, v, k, j);
      MutualTransitive(G, x, v, y);
    }
    if Mutual(G, x, y) {
      MutualTransitive(G, v, x, y);
      NothingElseIsMutual(G, e, gray, v, k, y);
    }
  }

  lemma PopComponent(G: Graph, e: Env, gray: set<nat>, v: nat, k: nat)
    requires Inv(G, e, gray + {v}) && k < |e.stack| && e.stack[k] == v && v < |e.num| && Exhausted(G, e, v)
    requires (forall g :: g in gray ==> g in e.stack[..k]) && (forall g :: g in gray ==> Reach(G, g, v))
    requires LowBounds(G, e, k, e.num[v], {})
    ensures CompsOk(G, Popped(e, k).comps, Popped(e, k).marks)
  {
    TopDistinct(e, k);
    TopApart(e, k);
    hide NumbersOk, StackOk, PlacedOk, Explored, Chained, Anchored, CompsOk, Mutual, Reach, LowBounds, Exhausted;
    var C := e.stack[k..];
    BackwardMembers(C);
    forall x, y | x in C ensures y in C <==> Mutual(G, x, y) {
      TopIsComponent(G, e, gray, v, k, x, y);
    }
    AddComponent(G, e.comps, e.marks, Backward(C));
  }

  lemma TopApart(e: Env, k: nat)
    requires PlacedOk(e) && k <= |e.stack|
    ensures forall x :: x in e.stack[k..] ==> x !in e.comps
  {
    assert forall x :: x in e.stack[k..] ==> x in e.stack;
  }

  // ---- The low number while the destinations of `v` are visited.

  /** What the loop over the destinations of `v`, at place `k`, keeps; the first `done` of them have been visited. */
  ghost predicate Visiting(G: Graph, e: Env, v: nat, k: nat, low: nat, done: nat) {
    && v < |G| == |e.num| && k < |e.stack| && e.stack[k] == v && done <= |G[v]|
    && low <= e.num[v]
    && (low < e.num[v] ==> LowReached(G, e.(stack := e.stack[..k]), v, low))
    && LowBounds(G, e, k, low, {v})
    && (forall i :: 0 <= i < done ==> Seen(e, G[v][i]))
    && (forall i, j :: 0 <= i < done && 0 <= j < k && G[v][i] == e.stack[j] && e.stack[j] < |e.num| ==> low <= e.num[e.stack[j]])
  }

  lemma VisitingStarts(G: Graph, e: Env, gray: set<nat>, v: nat)
    requires Inv(G, e, gray) && v < |e.num| && !Seen(e, v)
    ensures Visiting(G, Push(e, v), v, |e.stack|, e.index, 0)
  {
  }

  /** All destinations visited: the low number bounds every step below. */
  lemma VisitingEnds(G: Graph, e: Env, v: nat, k: nat, low: nat)
    requires v < |G| && Visiting(G, e, v, k, low, |G[v]|) && IsGraph(G)
    ensures Exhausted(G, e, v) && LowBounds(G, e, k, low, {})
  {
  }

  /** A destination that already has a number. */
  lemma VisitSeen(G: Graph, e: Env, gray: set<nat>, v: nat, k: nat, low: nat, done: nat)
    requires Inv(G, e, gray) && Visiting(G, e, v, k, low, done) && done < |G[v]| && Seen(e, G[v][done])
    ensures var w := G[v][done];
            Visiting(G, e, v, k, if e.num[w] < e.num[v] && w in e.stack && e.num[w] < low then e.num[w] else low, done + 1)
  {
    hide Reach;
    var w := G[v][done];
    assert Steps(G, v, w);
    ReachStep(G, v, w);
    if e.num[w] < e.num[v] && w in e.stack {
      var j: nat :| j < |e.stack| && e.stack[j] == w;
      Ordered(e, k, j);
      assert j < k;
      assert w in e.stack[..k];
    }
  }

  /** What a call for `w` promises about the number it returns, compared with the stack before it. */
  ghost predicate Returned(G: Graph, before: Env, after: Env, w: nat, low: nat) {
    && Grows(before, after) && Seen(after, w) && !Seen(before, w) && low <= after.num[w]
    && (low < after.num[w] ==> LowReached(G, before, w, low))
    && LowBounds(G, after, |before.stack|, low, {})
  }

  /** A destination that a recursive call has just visited. */
  lemma VisitReturned(G: Graph, e: Env, f: Env, v: nat, k: nat, low: nat, done: nat, returned: nat)
    requires StackOk(e) && StackOk(f) && NumbersOk(G, e) && NumbersOk(G, f) && Visiting(G, e, v, k, low, done) && done < |G[v]|
    requires Returned(G, e, f, G[v][done], returned) && Seen(e, v) && e.index <= f.num[G[v][done]]
    ensures Visiting(G, f, v, k, if returned < low then returned else low, done + 1)
  {
    hide Reach, LowBounds;
    var w := G[v][done];
    assert Steps(G, v, w);
    hide Steps;
    ReachStep(G, v, w);
    assert f.stack[k] == v && f.stack[..k] == e.stack[..k];
    assert forall j :: 0 <= j < |e.stack| ==> f.stack[j] == e.stack[j] && Seen(e, e.stack[j]);
    if returned < low {
      assert returned < f.num[w];
      ReturnedBelow(G, e, v, w, k, returned);
    }
    VisitBounds(G, e, f, v, k, low, returned);
  }

  lemma ReturnedBelow(G: Graph, e: Env, v: nat, w: nat, k: nat, returned: nat)
    requires StackOk(e) && LowReached(G, e, w, returned) && Reach(G, v, w) && k < |e.stack| && e.stack[k] == v && v < |e.num| && returned < e.num[v]
    ensures LowReached(G, e.(stack := e.stack[..k]), v, returned)
  {
    hide Reach;
    var y :| y in e.stack && y < |e.num| && e.num[y] == returned && Reach(G, w, y);
    ReachTransitive(G, v, w, y);
    var j: nat :| j < |e.stack| && e.stack[j] == y;
    Ordered(e, k, j);
    assert j < k;
    assert y in e.stack[..k];
  }

  lemma VisitBounds(G: Graph, e: Env, f: Env, v: nat, k: nat, low: nat, returned: nat)
    requires StackOk(e) && Grows(e, f) && k < |e.stack| && LowBounds(G, e, k, low, {v}) && LowBounds(G, f, |e.stack|, returned, {})
    ensures LowBounds(G, f, k, if returned < low then returned else low, {v})
  {
    var now := if returned < low then returned else low;
    forall i, j | 0 <= j < k <= i < |f.stack| && f.stack[i] !in {v} && Steps(G, f.stack[i], f.stack[j]) && f.stack[j] < |f.num|
      ensures now <= f.num[f.stack[j]]
    {
      assert f.stack[j] == e.stack[j] && Seen(e, e.stack[j]);
      if i < |e.stack| {
        assert f.stack[i] == e.stack[i];
      }
    }
  }

  lemma PopOne(stack: seq<nat>, m: nat)
    requires 0 < m <= |stack|
    ensures Backward(stack[m - 1..]) == Backward(stack[m..]) + [stack[m - 1]] && stack[..m][..m - 1] == stack[..m - 1]
  {
    assert stack[m - 1..] == [stack[m - 1]] + stack[m..];
    BackwardSnoc(stack[m - 1], stack[m..]);
  }

  lemma TopNumbers(e: Env, k: nat)
    requires StackOk(e) && k < |e.stack|
    ensures forall i :: 0 <= i < |e.stack| ==> e.stack[i] < |e.num| && (e.num[e.stack[i]] >= e.num[e.stack[k]] <==> i >= k)
  {
    forall i | 0 <= i < |e.stack| ensures e.stack[i] < |e.num| && (e.num[e.stack[i]] >= e.num[e.stack[k]] <==> i >= k) {
      assert Seen(e, e.stack[i]) && Seen(e, e.stack[k]);
      Ordered(e, i, k);
      Ordered(e, k, i);
    }
  }

  // ---- The computation on values.

  ghost predicate Sized(G: Graph, e: Env) {
    IsGraph(G) && |e.num| == |G| && e.index <= MAX && forall i :: 0 <= i < |e.stack| ==> e.stack[i] < |G|
  }

  /** Bounds the depth of the recursion: a state that is given the number `MAX` is still unnumbered, but the next is not. */
  ghost function Rank(e: Env): nat {
    2 * |White(e.num)| + if e.index == MAX then 1 else 0
  }

  lemma PushRank(G: Graph, e: Env, v: nat)
    requires Sized(G, e) && v < |G| && e.num[v] == MAX
    ensures Sized(G, Push(e, v)) && Rank(Push(e, v)) < Rank(e)
  {
    var f := Push(e, v);
    assert v in White(e.num);
    if e.index == MAX {
      assert f.num == e.num;
    } else {
      assert White(f.num) == White(e.num) - {v};
    }
  }

  /** Moves states from the stack to the components as long as their numbers are at least `bound`. */
  ghost function PopFrom(e: Env, bound: nat): (f: Env)
    requires forall i :: 0 <= i < |e.stack| ==> e.stack[i] < |e.num|
    ensures f.num == e.num && f.index == e.index && f.marks == e.marks && e.comps <= f.comps && f.stack <= e.stack
    decreases |e.stack|
  {
    var m: nat := |e.stack|;
    if m > 0 && e.num[e.stack[m - 1]] >= bound then PopFrom(e.(stack := e.stack[..m - 1], comps := e.comps + [e.stack[m - 1]]), bound) else e
  }

  /** Visits `v` and all it reaches that has no number; gives the new state and the low number. */
  ghost function Connect(G: Graph, e: Env, v: nat): (r: (Env, nat))
    requires Sized(G, e) && v < |G| && e.num[v] == MAX
    ensures Sized(G, r.0) && Rank(r.0) < Rank(e) && e.comps <= r.0.comps
    decreases Rank(e), 0, 0
  {
    PushRank(G, e, v);
    var d := Destinations(G, Push(e, v), v, e.index, 0);
    (if d.1 == d.0.num[v] then PopFrom(Marked(d.0), d.1) else d.0, d.1)
  }

  /** Visits the `i`th destination of `v`. */
  ghost function Visit(G: Graph, e: Env, v: nat, low: nat, i: nat): (r: (Env, nat))
    requires Sized(G, e) && v < |G| && i < |G[v]|
    ensures Sized(G, r.0) && Rank(r.0) <= Rank(e) && e.comps <= r.0.comps
    decreases Rank(e), 1, 0
  {
    var w := G[v][i];
    if e.num[w] == MAX then
      var c := Connect(G, e, w);
      (c.0, if c.1 < low then c.1 else low)
    else (e, if e.num[w] < e.num[v] && w in e.stack && e.num[w] < low then e.num[w] else low)
  }

  /** The loop over the destinations of `v` from the `i`th on. */
  ghost function Destinations(G: Graph, e: Env, v: nat, low: nat, i: nat): (r: (Env, nat))
    requires Sized(G, e) && v < |G| && i <= |G[v]|
    ensures Sized(G, r.0) && Rank(r.0) <= Rank(e) && e.comps <= r.0.comps
    decreases Rank(e), 2, |G[v]| - i
  {
    if i == |G[v]| then (e, low)
    else
      var d := Visit(G, e, v, low, i);
      Destinations(G, d.0, v, d.1, i + 1)
  }

  /** Notes where a component begins, or where the last one ends. */
  function Marked(e: Env): Env {
    e.(marks := e.marks + [|e.comps|])
  }

  /** The loop over all states from `w` on. */
  ghost function Scan(G: Graph, e: Env, w: nat): (f: Env)
    requires Sized(G, e) && w <= |G|
    ensures Sized(G, f) && e.comps <= f.comps
    decreases |G| - w
  {
    if w == |G| then e else Scan(G, if e.num[w] == MAX then Connect(G, e, w).0 else e, w + 1)
  }

  ghost function Unvisited(n: nat, start: nat): Env {
    Env(seq(n, _ => MAX), start, [], [], [])
  }

  /** The whole computation; `start` is whatever `index` happens to hold, for it is never initialized. */
  ghost function Components(G: Graph, start: nat): Env
    requires IsGraph(G) && start <= MAX
  {
    Marked(Scan(G, Unvisited(|G|, start), 0))
  }

  // ---- The computation is right if the numbers suffice.

  lemma {:induction false} PopDown(e: Env, k: nat, m: nat)
    requires k < |e.stack| && k <= m <= |e.stack| && (forall i :: 0 <= i < |e.stack| ==> e.stack[i] < |e.num|)
    requires forall i :: 0 <= i < |e.stack| ==> (e.num[e.stack[i]] >= e.num[e.stack[k]] <==> i >= k)
    ensures PopFrom(Popped(e, m), e.num[e.stack[k]]) == Popped(e, k)
    decreases m
  {
    var now, bound := Popped(e, m), e.num[e.stack[k]];
    assert m > 0 ==> now.stack[m - 1] == e.stack[m - 1];
    if k < m {
      PopOne(e.stack, m);
      PopDown(e, k, m - 1);
      var next := now.(stack := now.stack[..m - 1], comps := now.comps + [now.stack[m - 1]]);
      assert next == Popped(e, m - 1);
    }
  }

  lemma PopFromIsPopped(e: Env, k: nat)
    requires StackOk(e) && k < |e.stack|
    ensures (forall i :: 0 <= i < |e.stack| ==> e.stack[i] < |e.num|) && e.stack[k] < |e.num| && PopFrom(Marked(e), e.num[e.stack[k]]) == Popped(e, k)
  {
    TopNumbers(e, k);
    hide StackOk;
    PopDown(e, k, |e.stack|);
    assert e.stack[..|e.stack|] == e.stack && e.stack[|e.stack|..] == [] && e.comps + [] == e.comps;
  }

  lemma {:induction false} ConnectRight(G: Graph, e: Env, gray: set<nat>, v: nat)
    requires Inv(G, e, gray) && Sized(G, e) && v < |G| && e.num[v] == MAX && forall g :: g in gray ==> Reach(G, g, v)
    ensures var r := Connect(G, e, v);
            Inv(G, r.0, gray) && Returned(G, e, r.0, v, r.1) && e.index <= r.0.index && e.index <= r.0.num[v]
    decreases Rank(e), 0, 0
  {
    var k := |e.stack|;
    PushRank(G, e, v);
    CanPush(G, e, gray, v);
    VisitingStarts(G, e, gray, v);
    hide NumbersOk, StackOk, PlacedOk, Explored, Chained, Anchored, CompsOk, Visiting, Exhausted, LowBounds, Reach;
    PushKeepsInv(G, e, gray, v);
    DestinationsRight(G, Push(e, v), gray, v, k, e.index, 0);
    var d := Destinations(G, Push(e, v), v, e.index, 0);
    hide Destinations;
    var f, low := d.0, d.1;
    VisitingEnds(G, f, v, k, low);
    ReturnedFrom(G, e, f, v, k, low);
    VisitingPlace(G, f, e, v, k, low);
    hide Returned;
    if low == f.num[v] {
      PopKeepsInv(G, f, gray, v, k);
      PopFromIsPopped(f, k);
    } else {
      StayKeepsInv(G, f, gray, v, k, low);
    }
  }

  lemma {:induction false} VisitRight(G: Graph, e: Env, gray: set<nat>, v: nat, k: nat, low: nat, i: nat)
    requires Inv(G, e, gray + {v}) && Sized(G, e) && v < |G| && i < |G[v]| && Visiting(G, e, v, k, low, i) && forall g :: g in gray ==> Reach(G, g, v)
    ensures var r := Visit(G, e, v, low, i);
            Inv(G, r.0, gray + {v}) && Visiting(G, r.0, v, k, r.1, i + 1) && Grows(e, r.0) && e.index <= r.0.index
    decreases Rank(e), 1, 0
  {
    var w := G[v][i];
    assert v in e.stack && Seen(e, v);
    if e.num[w] == MAX {
      var c := Connect(G, e, w);
      ReachesDestination(G, gray, v, w);
      ConnectRight(G, e, gray + {v}, w);
      hide Connect;
      VisitReturned(G, e, c.0, v, k, low, i, c.1);
    } else {
      VisitSeen(G, e, gray + {v}, v, k, low, i);
    }
  }

  lemma {:induction false} DestinationsRight(G: Graph, e: Env, gray: set<nat>, v: nat, k: nat, low: nat, i: nat)
    requires Inv(G, e, gray + {v}) && Sized(G, e) && v < |G| && i <= |G[v]| && Visiting(G, e, v, k, low, i) && forall g :: g in gray ==> Reach(G, g, v)
    ensures var r := Destinations(G, e, v, low, i);
            Inv(G, r.0, gray + {v}) && Visiting(G, r.0, v, k, r.1, |G[v]|) && Grows(e, r.0) && e.index <= r.0.index
    decreases Rank(e), 2, |G[v]| - i
  {
    hide Inv, Visiting, Reach, Visit, Rank, Sized;
    if i < |G[v]| {
      VisitRight(G, e, gray, v, k, low, i);
      var d := Visit(G, e, v, low, i);
      DestinationsRight(G, d.0, gray, v, k, d.1, i + 1);
      GrowsTransitive(e, d.0, Destinations(G, d.0, v, d.1, i + 1).0);
    }
  }

  lemma GrowsTransitive(e: Env, f: Env, g: Env)
    requires Grows(e, f) && Grows(f, g) && |e.num| == |f.num|
    ensures Grows(e, g)
  {
    forall v: nat | Seen(e, v) ensures g.num[v] == e.num[v] {
      assert Seen(f, v);
    }
  }

  lemma {:induction false} ScanRight(G: Graph, e: Env, w: nat)
    requires Inv(G, e, {}) && Sized(G, e) && w <= |G| && forall x: nat :: x < w ==> Seen(e, x)
    ensures Inv(G, Scan(G, e, w), {}) && forall x: nat :: x < |G| ==> Seen(Scan(G, e, w), x)
    decreases |G| - w
  {
    hide Inv, Connect, LowReached, LowBounds, Reach;
    if w < |G| {
      var f := if e.num[w] == MAX then Connect(G, e, w).0 else e;
      if e.num[w] == MAX {
        ConnectRight(G, e, {}, w);
        forall x: nat | x < w ensures Seen(f, x) {
          assert Seen(e, x);
        }
      }
      ScanRight(G, f, w + 1);
    }
  }

  /** What the code finds are the components. */
  ghost predicate FindsComponents(G: Graph, start: nat)
    requires IsGraph(G) && start <= MAX
  {
    IsComponents(G, Components(G, start).comps, Components(G, start).marks)
  }

  /** As long as every state can be given a number before the one that stands for none. */
  lemma EnoughNumbers(G: Graph, start: nat)
    requires IsGraph(G) && start + |G| <= MAX
    ensures FindsComponents(G, start)
  {
    var e := Unvisited(|G|, start);
    BoundedSetSize(White(e.num), |G|);
    assert Inv(G, e, {});
    ScanRight(G, e, 0);
    var f := Scan(G, e, 0);
    NothingOnStack(G, f);
    hide Scan, Explored, Chained, Anchored, Reach;
    assert Marked(f).marks[..|f.marks|] == f.marks;
    AllFound(G, f.comps, Marked(f).marks);
  }

  // ---- It is wrong if they do not.

  /** The only step is from `j` to itself. */
  ghost function SelfLoop(n: nat, j: nat): (G: Graph)
    requires j < n
    ensures IsGraph(G) && |G| == n
  {
    seq(n, v => if v == j then [j] else [])
  }

  /** The first `w` states have been visited, each a component. */
  ghost function Visited(n: nat, start: nat, w: nat): Env {
    Env(seq(n, v => if 0 <= v < w then start + v else MAX), start + w, [], seq(w, v => v), seq(w, v => v))
  }

  lemma VisitedGrows(n: nat, start: nat, w: nat)
    requires w < n && start + w < MAX
    ensures var g := Marked(Push(Visited(n, start, w), w)); g.(stack := [], comps := g.comps + [w]) == Visited(n, start, w + 1)
  {
    var e, f := Visited(n, start, w), Visited(n, start, w + 1);
    assert e.num[w := e.index] == f.num;
    assert e.comps + [w] == f.comps && e.marks + [w] == f.marks;
  }

  lemma PopSingle(m: Env, j: nat, bound: nat)
    requires j < |m.num| && m.stack == [j] && m.num[j] >= bound
    ensures PopFrom(m, bound) == m.(stack := [], comps := m.comps + [j])
  {
    var one := m.(stack := m.stack[..0], comps := m.comps + [j]);
    assert PopFrom(one, bound) == one;
  }

  /** Visiting a state without destinations. */
  lemma ConnectLone(n: nat, start: nat, j: nat, w: nat)
    requires w < j < n && start + w < MAX
    ensures Connect(SelfLoop(n, j), Visited(n, start, w), w).0 == Visited(n, start, w + 1)
  {
    var G, e := SelfLoop(n, j), Visited(n, start, w);
    var f := Push(e, w);
    assert G[w] == [] && f.stack == [w];
    assert Destinations(G, f, w, e.index, 0) == (f, e.index);
    hide Destinations, SelfLoop;
    var g := Marked(f);
    PopSingle(g, w, e.index);
    VisitedGrows(n, start, w);
  }

  lemma {:induction false} ScanLone(n: nat, start: nat, j: nat, w: nat)
    requires w <= j < n && start + j <= MAX
    ensures Sized(SelfLoop(n, j), Visited(n, start, w))
    ensures Scan(SelfLoop(n, j), Visited(n, start, w), w) == Scan(SelfLoop(n, j), Visited(n, start, j), j)
    decreases j - w
  {
    if w < j {
      ConnectLone(n, start, j, w);
      ScanLone(n, start, j, w + 1);
    }
  }

  /** The second visit gives number 0 and finishes, taking both entries off the stack. */
  lemma SecondVisit(n: nat, j: nat, f: Env)
    requires j < n && f.index == 0 && f.stack == [j] && |f.num| == n && f.num[j] == MAX
    ensures Sized(SelfLoop(n, j), f) && Connect(SelfLoop(n, j), f, j).1 == 0
    ensures var c := Connect(SelfLoop(n, j), f, j).0; c.comps == f.comps + [j, j] && c.stack == [] && c.num[j] == 0
  {
    var G, g := SelfLoop(n, j), Push(f, j);
    assert G[j] == [j] && g.num[j] == 0 && g.stack == [j, j];
    PushRank(G, f, j);
    assert Visit(G, g, j, 0, 0) == (g, 0);
    assert Destinations(G, g, j, 0, 1) == (g, 0);
    hide Destinations, Visit;
    PopBoth(Marked(g), j);
  }

  /** A state that is given the number for "none" and leads to itself is visited again. */
  lemma ConnectTwice(n: nat, start: nat, j: nat)
    requires j < n && start + j == MAX
    ensures Connect(SelfLoop(n, j), Visited(n, start, j), j).0.comps == Visited(n, start, j).comps + [j, j]
  {
    var G, e := SelfLoop(n, j), Visited(n, start, j);
    var f := Push(e, j);
    assert G[j] == [j] && f.num == e.num && f.num[j] == MAX && f.index == 0 && f.stack == [j];
    PushRank(G, e, j);
    SecondVisit(n, j, f);
    var c := Connect(G, f, j).0;
    assert Visit(G, f, j, MAX, 0) == (c, 0);
    hide Visit;
    assert Destinations(G, c, j, 0, 1) == (c, 0);
    assert Destinations(G, f, j, MAX, 0) == (c, 0);
    assert PopFrom(Marked(c), 0) == Marked(c);
  }

  lemma PopBoth(m: Env, j: nat)
    requires j < |m.num| && m.stack == [j, j]
    ensures PopFrom(m, 0) == m.(stack := [], comps := m.comps + [j, j])
  {
    var one := m.(stack := [j], comps := m.comps + [j]);
    assert m.stack[..1] == [j];
    PopSingle(one, j, 0);
    assert m.comps + [j] + [j] == m.comps + [j, j];
  }

  /** The state whose number is the one for "none" is listed twice. */
  lemma TooFewNumbers(n: nat, start: nat)
    requires start <= MAX < start + n
    ensures !FindsComponents(SelfLoop(n, MAX - start), start)
  {
    var j: nat := MAX - start;
    var G, e := SelfLoop(n, j), Visited(n, start, j);
    ScanLone(n, start, j, 0);
    assert Visited(n, start, 0) == Unvisited(n, start);
    ConnectTwice(n, start, j);
    var comps := Components(G, start).comps;
    assert Scan(G, e, j) == Scan(G, Connect(G, e, j).0, j + 1);
    hide Scan, Connect;
    assert e.comps + [j, j] <= comps;
    assert comps[j] == (e.comps + [j, j])[j] == j && comps[j + 1] == (e.comps + [j, j])[j + 1] == j;
  }

  /** The components of all graphs of `n` states are found exactly if the numbers from `start` on suffice. */
  lemma FoundIffEnoughNumbers(n: nat, start: nat)
    requires start <= MAX
    ensures (forall G: Graph :: IsGraph(G) && |G| == n ==> FindsComponents(G, start)) <==> start + n <= MAX
  {
    hide FindsComponents;
    if start + n <= MAX {
      forall G: Graph | IsGraph(G) && |G| == n ensures FindsComponents(G, start) {
        EnoughNumbers(G, start);
      }
    } else {
      TooFewNumbers(n, start);
    }
  }

  class Tarjan {
    const G: Graph
    const number: array<nat>
    var index: nat
    var stack: seq<nat>
    var components: seq<nat>
    var indices: seq<nat>

    constructor (graph: Graph, start: nat)
      requires IsGraph(graph) && start <= MAX
      ensures G == graph && fresh(number) && Valid() && Value() == Unvisited(|G|, start)
    {
      G := graph;
      number := new nat[|graph|](_ => MAX);
      index := start;
      stack, components, indices := [], [], [];
    }

    ghost function Value(): Env
      reads this, number
    {
      Env(number[..], index, stack, components, indices)
    }

    ghost predicate Valid()
      reads this, number
    {
      Sized(G, Value())
    }

    /** Visits `v` and all it reaches that has not been visited. */
    method StrongConnect(v: nat) returns (lowlink: nat)
      requires Valid() && v < |G| && number[v] == MAX
      modifies this, number
      ensures Valid() && (Value(), lowlink) == Connect(G, old(Value()), v)
      decreases Rank(Value()), 0, 0
    {
      lowlink := index;
      PushRank(G, Value(), v);
      index := if index == MAX then 0 else index + 1;
      number[v] := lowlink;
      stack := stack + [v];
      assert Value() == Push(old(Value()), v);
      hide Rank, Destinations;
      lowlink := VisitDestinations(v, lowlink);
      if lowlink == number[v] {
        PopComponent(v);
      }
    }

    /** The loop over the destinations of `v`. */
    method VisitDestinations(v: nat, low: nat) returns (lowlink: nat)
      requires Valid() && v < |G|
      modifies this, number
      ensures Valid() && (Value(), lowlink) == Destinations(G, old(Value()), v, low, 0)
      decreases Rank(Value()), 2, 0
    {
      lowlink := low;
      var i := 0;
      while i < |G[v]|
        invariant i <= |G[v]| && Valid() && Rank(Value()) <= old(Rank(Value()))
        invariant Destinations(G, old(Value()), v, low, 0) == Destinations(G, Value(), v, lowlink, i)
      {
        var w := G[v][i];
        hide Rank, Connect;
        if number[w] == MAX {
          var otherLowlink := StrongConnect(w);
          if otherLowlink < lowlink {
            lowlink := otherLowlink;
          }
        } else if number[w] < number[v] && w in stack {
          if number[w] < lowlink {
            lowlink := number[w];
          }
        }
        i := i + 1;
      }
    }

    /** Moves the stack down to `v` to the components. */
    method PopComponent(v: nat)
      requires Valid() && v < |G|
      modifies this`stack, this`components, this`indices
      ensures Valid() && Value() == PopFrom(Marked(old(Value())), number[v])
    {
      indices := indices + [|components|];
      while stack != [] && number[stack[|stack| - 1]] >= number[v]
        invariant Valid() && PopFrom(Marked(old(Value())), number[v]) == PopFrom(Value(), number[v])
        decreases |stack|
      {
        components := components + [stack[|stack| - 1]];
        stack := stack[..|stack| - 1];
      }
    }

    /** Finds the components of the whole graph if the numbers suffice. */
    method Compute()
      requires Valid() && Value() == Unvisited(|G|, index)
      modifies this, number
      ensures Value() == Components(G, old(index))
      ensures old(index) + |G| <= MAX ==> IsComponents(G, components, indices)
    {
      var w := 0;
      while w < |G|
        invariant w <= |G| && Valid() && Scan(G, old(Value()), 0) == Scan(G, Value(), w)
      {
        hide Connect;
        if number[w] == MAX {
          var _ := StrongConnect(w);
        }
        w := w + 1;
      }
      indices := indices + [|components|];
      if old(index) + |G| <= MAX {
        EnoughNumbers(G, old(index));
      }
    }
  }

  lemma ReachesDestination(G: Graph, gray: set<nat>, v: nat, w: nat)
    requires Steps(G, v, w) && forall g :: g in gray ==> Reach(G, g, v)
    ensures forall g :: g in gray + {v} ==> Reach(G, g, w)
  {
    hide Reach;
    ReachStep(G, v, w);
    forall g | g in gray ensures Reach(G, g, w) {
      ReachTransitive(G, g, v, w);
    }
  }

  lemma CanPush(G: Graph, e: Env, gray: set<nat>, v: nat)
    requires Inv(G, e, gray) && v < |e.num| && !Seen(e, v)
    ensures IsGraph(G) && e.index < MAX && StackOk(e) && v !in gray && (forall g :: g in gray ==> g in e.stack)
  {
    assert v in White(e.num) && |White(e.num)| > 0;
  }

  lemma VisitingPlace(G: Graph, e: Env, e0: Env, v: nat, k: nat, low: nat)
    requires v < |G| && v < |e0.num| && Visiting(G, e, v, k, low, |G[v]|) && Grows(Push(e0, v), e) && k == |e0.stack|
    ensures k < |e.stack| && e.stack[k] == v && v < |e.num| && e.stack[..k] == e0.stack && low <= e.num[v]
    ensures low < e.num[v] ==> LowReached(G, e.(stack := e.stack[..k]), v, low)
    ensures low == e.num[v] ==> LowBounds(G, e, k, low, {v})
  {
    assert Push(e0, v).stack[..k] == e0.stack;
  }

  /** What a finished visit returns, whether or not it leaves its states on the stack. */
  lemma ReturnedFrom(G: Graph, e0: Env, e: Env, v: nat, k: nat, low: nat)
    requires k == |e0.stack| && StackOk(e0) && v < |e0.num| && !Seen(e0, v) && Grows(Push(e0, v), e) && e0.index != MAX
    requires v < |G| && Visiting(G, e, v, k, low, |G[v]|) && LowBounds(G, e, k, low, {})
    ensures e.num[v] == e0.index && Returned(G, e0, e, v, low) && Returned(G, e0, Popped(e, k), v, low)
  {
    hide Reach, Steps;
    assert Seen(Push(e0, v), v);
    forall x: nat | Seen(e0, x) ensures e.num[x] == e0.num[x] {
      assert Seen(Push(e0, v), x);
    }
    assert Push(e0, v).stack[..k] == e0.stack;
    assert e.stack[..k] == e0.stack;
    if low < e.num[v] {
      var y :| y in e.stack[..k] && y < |e.num| && e.num[y] == low && Reach(G, v, y);
      assert Seen(e0, y);
    }
  }

  lemma NothingOnStack(G: Graph, e: Env)
    requires Inv(G, e, {}) && forall x: nat :: x < |G| ==> Seen(e, x)
    ensures e.stack == [] && forall x: nat :: x in e.comps <==> x < |G|
  {
    hide Reach;
    if e.stack != [] {
      var g := AnchorOf(G, e, {}, e.stack[0]);
    }
  }

  /** The finished list: every state once, and two states between the same marks exactly when each reaches the other. */
  ghost predicate IsComponents(G: Graph, comps: seq<nat>, marks: seq<nat>) {
    && Distinct(comps) && (forall x: nat :: x in comps <==> x < |G|)
    && marks != [] && marks[|marks| - 1] == |comps| && (|marks| > 1 ==> marks[0] == 0) && (|marks| == 1 ==> comps == [])
    && (forall k, l :: 0 <= k < l < |marks| ==> marks[k] < marks[l])
    && (forall i: nat, j: nat :: i <= j < |comps| ==> (Together(marks, i, j) <==> Mutual(G, comps[i], comps[j])))
  }

  lemma AllFound(G: Graph, comps: seq<nat>, marks: seq<nat>)
    requires marks != [] && marks[|marks| - 1] == |comps| && CompsOk(G, comps, marks[..|marks| - 1]) && forall x: nat :: x in comps <==> x < |G|
    ensures IsComponents(G, comps, marks)
  {
    hide Mutual;
    var earlier := marks[..|marks| - 1];
    assert marks == earlier + [|comps|];
    forall i: nat, j: nat | i <= j < |comps| ensures Together(marks, i, j) <==> Mutual(G, comps[i], comps[j]) {
      EarlierTogether(earlier, |comps|, i, j);
    }
  }
}
