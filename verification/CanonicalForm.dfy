/** One canonical form. */
module CanonicalForm {
  // The canonical transitions are the same whatever the labels were; so are the accepting states exactly if no
  // symmetry of the transitions moves one.

  import opened Options
  import opened SeqFacts
  import opened EdgeEnumeration
  import opened Renumbering
  import opened CanonicalLabelling

  /** First `q`, then `p`. */
  ghost function Compose(p: seq<nat>, q: seq<nat>): (r: seq<nat>)
    requires forall a :: 0 <= a < |q| ==> q[a] < |p|
    ensures |r| == |q| && forall a :: 0 <= a < |q| ==> r[a] == p[q[a]]
  {
    seq(|q|, a requires 0 <= a < |q| => p[q[a]])
  }

  /** `inverse` undoes `p`. */
  ghost predicate Undoes(inverse: seq<nat>, p: seq<nat>) {
    |inverse| == |p| && forall a :: 0 <= a < |p| ==> inverse[a] < |p| && p[inverse[a]] == a
  }

  /** Closed under composition and inverse. */
  ghost predicate IsGroup(D: Dfa, perms: seq<seq<nat>>)
    requires Perms(D, perms)
  {
    && (forall p, q {:trigger Compose(p, q)} :: p in perms && q in perms ==> Compose(p, q) in perms)
    && (forall p {:trigger HasInverse(perms, p)} :: p in perms ==> HasInverse(perms, p))
  }

  ghost predicate HasInverse(perms: seq<seq<nat>>, p: seq<nat>) {
    exists inverse :: inverse in perms && Undoes(inverse, p)
  }

  /** `E` is `D` with states renamed by `sigma`, which fixes 0, and symbols by `tau`. */
  ghost predicate Renames(D: Dfa, E: Dfa, sigma: seq<nat>, tau: seq<nat>) {
    && D.Valid() && E.Valid() && D.symbols == E.symbols && IsPerm(D, tau)
    && |D.step| == |E.step| == |sigma| && Distinct(sigma) && (forall s :: 0 <= s < |sigma| ==> sigma[s] < |sigma|) && sigma[0] == 0
    && (forall s: nat, x: nat :: s < |sigma| && x < D.symbols ==> Corresponds(D.step[s][x], E.step[sigma[s]][tau[x]], sigma))
    && (forall s: nat :: s < |sigma| ==> E.accept[sigma[s]] == D.accept[s])
  }

  /** Enumerating `D` by `p` and `E` by `tau` after `p` gives the same edges. */
  lemma RenamedEdges(D: Dfa, E: Dfa, sigma: seq<nat>, tau: seq<nat>, p: seq<nat>, n: nat)
    requires Renames(D, E, sigma, tau) && IsPerm(D, p)
    ensures IsPerm(E, Compose(tau, p)) && EdgeAt(D, p, n) == EdgeAt(E, Compose(tau, p), n)
  {
    var rho := Compose(tau, p);
    assert IsPerm(E, rho);
    forall s: nat, a: nat | s < |sigma| && a < D.symbols ensures Corresponds(D.step[s][p[a]], E.step[sigma[s]][rho[a]], sigma) {
      assert rho[a] == tau[p[a]];
    }
    SameEdges(D, p, E, rho, sigma, n);
  }

  /** The least enumerations of the two automata are the same. */
  lemma LeastEnumerationsAgree(D: Dfa, E: Dfa, perms: seq<seq<nat>>, sigma: seq<nat>, tau: seq<nat>, p: seq<nat>, q: seq<nat>, n: nat)
    requires Renames(D, E, sigma, tau) && Perms(D, perms) && Perms(E, perms) && IsGroup(D, perms) && tau in perms
    requires p in perms && q in perms && Least(D, perms, p) && Least(E, perms, q)
    ensures EdgeAt(D, p, n) == EdgeAt(E, q, n)
  {
    var q1, p1 := Partners(D, perms, tau, p, q);
    assert LeastUpTo(E, perms, q, n + 1) && LeastUpTo(D, perms, p, n + 1);
    assert AtMost(E, q, E, q1, n + 1) && AtMost(D, p, D, p1, n + 1);
    assert IsPerm(D, p) && IsPerm(D, p1) && IsPerm(E, q) && IsPerm(E, q1);
    hide EdgeAt, IsPerm, Renames, IsGroup, Least, AtMost, Compose;
    forall m: nat ensures EdgeAt(D, p, m) == EdgeAt(E, q1, m) && EdgeAt(D, p1, m) == EdgeAt(E, q, m) {
      RenamedEdges(D, E, sigma, tau, p, m);
      RenamedEdges(D, E, sigma, tau, p1, m);
    }
    SameSecond(E, q, E, q1, D, p, n + 1);
    SameSecond(D, p, D, p1, E, q, n + 1);
    Asymmetric(D, p, E, q, n + 1);
    LastEdge(D, p, E, q, n);
  }

  lemma LastEdge(D: Dfa, p: seq<nat>, E: Dfa, q: seq<nat>, n: nat)
    requires D.Valid() && IsPerm(D, p) && E.Valid() && IsPerm(E, q) && Same(D, p, E, q, n + 1)
    ensures EdgeAt(D, p, n) == EdgeAt(E, q, n)
  {
  }

  /** In a group `tau` after `p` is a member, and `q` is `tau` after some member. */
  lemma Partners(D: Dfa, perms: seq<seq<nat>>, tau: seq<nat>, p: seq<nat>, q: seq<nat>) returns (q1: seq<nat>, p1: seq<nat>)
    requires Perms(D, perms) && IsGroup(D, perms) && tau in perms && p in perms && q in perms
    ensures q1 in perms && q1 == Compose(tau, p) && p1 in perms && q == Compose(tau, p1)
  {
    q1 := Compose(tau, p);
    assert HasInverse(perms, tau);
    var inverse :| inverse in perms && Undoes(inverse, tau);
    p1 := Compose(inverse, q);
    assert Compose(tau, p1) == q;
  }

  lemma SameSecond(D: Dfa, p: seq<nat>, E: Dfa, q: seq<nat>, F: Dfa, r: seq<nat>, n: nat)
    requires D.Valid() && IsPerm(D, p) && E.Valid() && IsPerm(E, q) && F.Valid() && IsPerm(F, r)
    requires AtMost(D, p, E, q, n) && forall m: nat :: EdgeAt(E, q, m) == EdgeAt(F, r, m)
    ensures AtMost(D, p, F, r, n)
  {
    hide EdgeAt, IsPerm;
    if Before(D, p, E, q, n) {
      var m: nat :| m < n && Same(D, p, E, q, m) && Less(EdgeAt(D, p, m), EdgeAt(E, q, m));
      assert Same(D, p, F, r, m) && Less(EdgeAt(D, p, m), EdgeAt(F, r, m));
    }
  }

  lemma {:induction false} SameOuts(D: Dfa, p: seq<nat>, E: Dfa, q: seq<nat>, n: nat)
    requires D.Valid() && IsPerm(D, p) && E.Valid() && IsPerm(E, q) && forall m: nat :: EdgeAt(D, p, m) == EdgeAt(E, q, m)
    ensures Outs(D, p, n) == Outs(E, q, n)
  {
    hide EdgeAt, IsPerm;
    if n > 0 {
      SameOuts(D, p, E, q, n - 1);
    }
  }

  lemma {:induction false} OutsSettle(D: Dfa, p: seq<nat>, n: nat, m: nat)
    requires D.Valid() && IsPerm(D, p) && n <= m && Finished(D, After(D, p, n))
    ensures Outs(D, p, m) == Outs(D, p, n)
    decreases m
  {
    hide EdgeAt, IsPerm, After;
    if n < m {
      OutsSettle(D, p, n, m - 1);
      StaysFinished(D, p, n, m - 1);
    }
  }

  lemma {:induction false} ReachableRenamed(D: Dfa, E: Dfa, sigma: seq<nat>, tau: seq<nat>, s: nat, w: seq<nat>, t: nat)
    requires Renames(D, E, sigma, tau) && s < |sigma| && Leads(D, s, w, t)
    ensures t < |sigma| && exists v :: Leads(E, sigma[s], v, sigma[t])
    decreases |w|
  {
    if w == [] {
      assert Leads(E, sigma[s], [], sigma[t]);
    } else {
      var u: nat :| D.Goes(s, w[0], u) && Leads(D, u, w[1..], t);
      assert Corresponds(D.step[s][w[0]], E.step[sigma[s]][tau[w[0]]], sigma);
      ReachableRenamed(D, E, sigma, tau, u, w[1..], t);
      var v :| Leads(E, sigma[u], v, sigma[t]);
      assert E.Goes(sigma[s], tau[w[0]], sigma[u]) && ([tau[w[0]]] + v)[1..] == v;
      assert Leads(E, sigma[s], [tau[w[0]]] + v, sigma[t]);
    }
  }

  lemma AllReachableRenamed(D: Dfa, E: Dfa, sigma: seq<nat>, tau: seq<nat>)
    requires Renames(D, E, sigma, tau) && AllReachable(D)
    ensures AllReachable(E)
  {
    forall t: nat | t < |E.step| ensures Reachable(E, t) {
      DistinctCovers(sigma, t);
      var s: nat :| s < |sigma| && sigma[s] == t;
      assert Reachable(D, s);
      var w :| Leads(D, 0, w, s);
      ReachableRenamed(D, E, sigma, tau, 0, w, s);
    }
  }

  /** Two automata that differ by names, the symbols renamed by a member of the group, get the same canonical transitions. */
  lemma SameCanonicalTransitions(D: Dfa, E: Dfa, perms: seq<seq<nat>>, sigma: seq<nat>, tau: seq<nat>,
                                 p: seq<nat>, n: nat, C: Dfa, q: seq<nat>, m: nat, F: Dfa)
    requires Renames(D, E, sigma, tau) && Perms(D, perms) && Perms(E, perms) && IsGroup(D, perms) && tau in perms && AllReachable(D)
    requires p in perms && q in perms && Canonical(D, perms, p, n, C) && Canonical(E, perms, q, m, F)
    ensures C.step == F.step
  {
    AllReachableRenamed(D, E, sigma, tau);
    var k := if n < m then m else n;
    forall i: nat ensures EdgeAt(D, p, i) == EdgeAt(E, q, i) {
      LeastEnumerationsAgree(D, E, perms, sigma, tau, p, q, i);
    }
    SameOuts(D, p, E, q, k);
    OutsSettle(D, p, n, k);
    OutsSettle(E, q, m, k);
    forall x: nat, a: nat, y: nat | x < |C.step| && a < C.symbols ensures C.step[x][a] == Some(y) <==> F.step[x][a] == Some(y) {
      OutsAreTransitions(D, p, n, C, x, a, y);
      OutsAreTransitions(E, q, m, F, x, a, y);
    }
    hide EdgeAt, After, Least, Outs, IsGroup;
    SameTables(C, F);
  }

  lemma SameTables(C: Dfa, F: Dfa)
    requires C.Valid() && F.Valid() && |C.step| == |F.step| && C.symbols == F.symbols
    requires forall x: nat, a: nat, y: nat :: x < |C.step| && a < C.symbols ==> (C.step[x][a] == Some(y) <==> F.step[x][a] == Some(y))
    ensures C.step == F.step
  {
    forall x: nat | x < |C.step| ensures C.step[x] == F.step[x] {
      forall a: nat | a < C.symbols ensures C.step[x][a] == F.step[x][a] {
        if C.step[x][a].Some? {
          assert F.step[x][a] == Some(C.step[x][a].value);
        } else if F.step[x][a].Some? {
          assert C.step[x][a] == Some(F.step[x][a].value);
        }
      }
    }
  }

  // ---- Acceptance.

  /** Renaming the states by `sigma` and the symbols by `tau` gives the same transitions again. */
  ghost predicate Symmetry(D: Dfa, sigma: seq<nat>, tau: seq<nat>) {
    Isomorphic(D, Identity(D.symbols), D, tau, sigma)
  }

  ghost function Identity(n: nat): (r: seq<nat>)
    ensures |r| == n && forall i :: 0 <= i < n ==> r[i] == i
  {
    seq(n, i => i)
  }

  ghost predicate KeepsAcceptance(D: Dfa, sigma: seq<nat>) {
    |sigma| == |D.accept| && forall s: nat :: s < |sigma| ==> sigma[s] < |sigma| && D.accept[sigma[s]] == D.accept[s]
  }

  /** No symmetry exchanges an accepting and a rejecting state. */
  ghost predicate SymmetriesKeepAcceptance(D: Dfa, perms: seq<seq<nat>>) {
    forall sigma, tau :: tau in perms && Symmetry(D, sigma, tau) ==> KeepsAcceptance(D, sigma)
  }

  /** `C` is a canonical form of `D`. */
  ghost predicate IsForm(D: Dfa, perms: seq<seq<nat>>, C: Dfa) {
    exists p, n: nat :: p in perms && Canonical(D, perms, p, n, C)
  }

  /** All canonical forms of `D` and of what it can be renamed to are the same. */
  ghost predicate OneForm(D: Dfa, perms: seq<seq<nat>>) {
    forall E, sigma, tau, C, F :: tau in perms && Renames(D, E, sigma, tau) && IsForm(D, perms, C) && IsForm(E, perms, F) ==> C == F
  }

  /** The place of each number in a permutation. */
  ghost function Inverted(p: seq<nat>): (r: seq<nat>)
    requires IsPermutation(p)
    ensures IsPermutation(r) && |r| == |p| && forall x :: 0 <= x < |p| ==> r[x] < |p| && p[r[x]] == x && r[p[x]] == x
  {
    var r: seq<nat> := seq(|p|, x requires 0 <= x < |p| => Place(p, x));
    assert forall x, y :: 0 <= x < y < |r| ==> p[r[x]] == x && p[r[y]] == y;
    r
  }

  ghost function Place(p: seq<nat>, x: nat): (a: nat)
    requires IsPermutation(p) && x < |p|
    ensures a < |p| && p[a] == x
  {
    DistinctCovers(p, x);
    var a :| 0 <= a < |p| && p[a] == x;
    a
  }

  /** In a group there is a member that turns the order `p` into the order `p1`. */
  lemma Turning(D: Dfa, perms: seq<seq<nat>>, p: seq<nat>, p1: seq<nat>) returns (turn: seq<nat>)
    requires Perms(D, perms) && IsGroup(D, perms) && p in perms && p1 in perms
    ensures turn in perms && Compose(turn, p) == p1
  {
    assert HasInverse(perms, p);
    var inverse :| inverse in perms && Undoes(inverse, p);
    turn := Compose(p1, inverse);
    forall a: nat | a < |p| ensures turn[p[a]] == p1[a] {
      assert p[inverse[p[a]]] == p[a];
    }
  }

  /** From a state by `r`, back by `u` and back by `sigma`. */
  lemma RoundTrip(sigma: seq<nat>, r: seq<nat>, u: seq<nat>) returns (g: seq<nat>)
    requires IsPermutation(sigma) && IsPermutation(r) && IsPermutation(u) && |sigma| == |r| == |u| > 0 && sigma[0] == r[0] == u[0] == 0
    ensures IsPermutation(g) && |g| == |r| && g[0] == 0 && forall s: nat :: s < |r| ==> g[s] < |sigma| && sigma[g[s]] < |u| && u[sigma[g[s]]] == r[s]
  {
    var back := Inverted(u);
    g := Compose(Inverted(sigma), Compose(back, r));
    forall s: nat | s < |r| ensures g[s] < |sigma| && sigma[g[s]] < |u| && u[sigma[g[s]]] == r[s] {
      assert sigma[g[s]] == back[r[s]];
    }
    forall s: nat, t: nat | s < t < |g| ensures g[s] != g[t] {
      assert u[sigma[g[s]]] == r[s] && u[sigma[g[t]]] == r[t];
    }
    assert u[sigma[g[0]]] == u[sigma[0]];
  }

  /** If `D` has the same relabelled transitions by `p` and, under other names, by `q`, going there and back is a symmetry. */
  lemma ThereAndBack(D: Dfa, E: Dfa, sigma: seq<nat>, tau: seq<nat>, p: seq<nat>, r: seq<nat>, C: Dfa, p1: seq<nat>, u: seq<nat>, F: Dfa, turn: seq<nat>)
      returns (g: seq<nat>)
    requires Renames(D, E, sigma, tau) && Relabels(D, p, r, C) && IsPermutation(r) && r[0] == 0
    requires IsPerm(D, p1) && Relabels(E, Compose(tau, p1), u, F) && IsPermutation(u) && u[0] == 0 && C.step == F.step
    requires IsPerm(D, turn) && Compose(turn, p) == p1
    ensures Symmetry(D, g, turn) && forall s: nat :: s < |r| ==> g[s] < |sigma| && sigma[g[s]] < |u| && u[sigma[g[s]]] == r[s]
  {
    g := RoundTrip(sigma, r, u);
    hide IsGroup, Relabels;
    forall s: nat, x: nat | s < |g| && x < D.symbols ensures Corresponds(D.step[s][Identity(D.symbols)[x]], D.step[g[s]][turn[x]], g) {
      var a := Place(p, x);
      SameRow(D, E, sigma, tau, p, r, C, p1, u, F, g, s, a);
    }
  }

  lemma SameRow(D: Dfa, E: Dfa, sigma: seq<nat>, tau: seq<nat>, p: seq<nat>, r: seq<nat>, C: Dfa, p1: seq<nat>, u: seq<nat>, F: Dfa, g: seq<nat>, s: nat, a: nat)
    requires Renames(D, E, sigma, tau) && Relabels(D, p, r, C) && IsPerm(D, p1) && Relabels(E, Compose(tau, p1), u, F) && IsPermutation(u) && C.step == F.step
    requires |g| == |r| && forall t: nat :: t < |r| ==> g[t] < |sigma| && sigma[g[t]] < |u| && u[sigma[g[t]]] == r[t]
    requires s < |r| && a < D.symbols
    ensures Corresponds(D.step[s][p[a]], D.step[g[s]][p1[a]], g)
  {
    var rho := Compose(tau, p1);
    var e := sigma[g[s]];
    assert Corresponds(D.step[s][p[a]], C.step[r[s]][a], r);
    assert Corresponds(E.step[e][rho[a]], F.step[u[e]][a], u) && u[e] == r[s];
    assert Corresponds(D.step[g[s]][p1[a]], E.step[e][tau[p1[a]]], sigma) && rho[a] == tau[p1[a]];
    match D.step[s][p[a]]
    case None =>
    case Some(t) =>
      assert C.step[r[s]][a] == Some(r[t]);
      var v := E.step[e][rho[a]].value;
      assert u[v] == r[t] == u[sigma[g[t]]];
      assert v == sigma[g[t]];
  }

  /** If symmetries keep acceptance, all canonical forms agree. */
  lemma KeptMeansOneForm(D: Dfa, E: Dfa, perms: seq<seq<nat>>, sigma: seq<nat>, tau: seq<nat>,
                         p: seq<nat>, n: nat, C: Dfa, q: seq<nat>, m: nat, F: Dfa)
    requires Renames(D, E, sigma, tau) && Perms(D, perms) && Perms(E, perms) && IsGroup(D, perms) && tau in perms && AllReachable(D)
    requires p in perms && q in perms && Canonical(D, perms, p, n, C) && Canonical(E, perms, q, m, F)
    requires SymmetriesKeepAcceptance(D, perms)
    ensures C == F
  {
    SameCanonicalTransitions(D, E, perms, sigma, tau, p, n, C, q, m, F);
    AllReachableRenamed(D, E, sigma, tau);
    RenumberingIsPermutation(D, p, n);
    RenumberingIsPermutation(E, q, m);
    var r, u := After(D, p, n).renumbering, After(E, q, m).renumbering;
    var q1, p1 := Partners(D, perms, tau, p, q);
    var turn := Turning(D, perms, p, p1);
    hide After, Least, IsGroup, EdgeAt, AllReachable;
    var g := ThereAndBack(D, E, sigma, tau, p, r, C, p1, u, F, turn);
    assert KeepsAcceptance(D, g);
    forall y: nat | y < |C.step| ensures C.accept[y] == F.accept[y] {
      var s := Place(r, y);
      assert C.accept[r[s]] == D.accept[s] == D.accept[g[s]] == E.accept[sigma[g[s]]] == F.accept[u[sigma[g[s]]]];
    }
    assert C.accept == F.accept;
  }

  // The other way round: a symmetry that moves acceptance gives an automaton with the same transitions.

  ghost function Moved(D: Dfa, sigma: seq<nat>): (E: Dfa)
    requires IsPermutation(sigma) && |sigma| == |D.accept|
    ensures E == D.(accept := E.accept) && |E.accept| == |D.accept| && forall s: nat :: s < |sigma| ==> E.accept[sigma[s]] == D.accept[s]
  {
    D.(accept := seq(|sigma|, y requires 0 <= y < |sigma| => D.accept[Place(sigma, y)]))
  }

  lemma MovedRenames(D: Dfa, sigma: seq<nat>, tau: seq<nat>)
    requires Symmetry(D, sigma, tau)
    ensures IsPermutation(sigma) && |sigma| == |D.accept| && Renames(D, Moved(D, sigma), sigma, tau)
  {
    var E := Moved(D, sigma);
    forall s: nat, x: nat | s < |sigma| && x < D.symbols ensures Corresponds(D.step[s][x], E.step[sigma[s]][tau[x]], sigma) {
      assert Corresponds(D.step[s][Identity(D.symbols)[x]], D.step[sigma[s]][tau[x]], sigma);
    }
  }

  /** The enumerations do not see acceptance. */
  lemma AcceptanceUnseen(D: Dfa, E: Dfa, p: seq<nat>, n: nat)
    requires D.Valid() && E.Valid() && E == D.(accept := E.accept) && IsPerm(D, p)
    ensures IsPerm(E, p) && EdgeAt(D, p, n) == EdgeAt(E, p, n) && After(D, p, n) == After(E, p, n)
  {
    var same := Identity(|D.step|);
    forall s: nat, a: nat | s < |same| && a < D.symbols ensures Corresponds(D.step[s][p[a]], E.step[same[s]][p[a]], same) {
    }
    SameEdges(D, p, E, p, same, n);
    var en, em := After(D, p, n), After(E, p, n);
    hide EdgeAt, After;
    assert en.renumbering == em.renumbering && en.queue == em.queue by {
      forall s: nat | s < |same| ensures em.renumbering[same[s]] == en.renumbering[s] {
      }
    }
  }

  lemma SameWinners(D: Dfa, E: Dfa, perms: seq<seq<nat>>, p: seq<nat>)
    requires Perms(D, perms) && Perms(E, perms) && E == D.(accept := E.accept) && p in perms && Least(D, perms, p)
    ensures Least(E, perms, p)
  {
    forall q, n: nat | q in perms ensures EdgeAt(D, q, n) == EdgeAt(E, q, n) {
      AcceptanceUnseen(D, E, q, n);
    }
    hide EdgeAt, IsPerm;
    forall r: nat, q | q in perms ensures AtMost(E, p, E, q, r) {
      assert LeastUpTo(D, perms, p, r);
      assert AtMost(D, p, D, q, r);
      if Before(D, p, D, q, r) {
        var m: nat :| m < r && Same(D, p, D, q, m) && Less(EdgeAt(D, p, m), EdgeAt(D, q, m));
        assert Same(E, p, E, q, m) && Less(EdgeAt(E, p, m), EdgeAt(E, q, m));
      }
    }
  }

  /** `D` relabelled by an order of the symbols and a numbering of the states. */
  ghost function Relabelled(D: Dfa, p: seq<nat>, r: seq<nat>): (C: Dfa)
    requires D.Valid() && IsPerm(D, p) && IsPermutation(r) && |r| == |D.step|
    ensures Relabels(D, p, r, C)
  {
    var C := Dfa(D.symbols,
                 seq(|r|, y requires 0 <= y < |r| => seq(D.symbols, a requires 0 <= a < D.symbols => Under(r, D.step[Place(r, y)][p[a]]))),
                 seq(|r|, y requires 0 <= y < |r| => D.accept[Place(r, y)]));
    assert forall s: nat :: s < |r| ==> Place(r, r[s]) == s;
    C
  }

  ghost function Under(r: seq<nat>, t: Option<nat>): Option<nat> {
    match t
    case None => None
    case Some(x) => if x < |r| then Some(r[x]) else None
  }

  /** Whatever order wins for `D`, it wins for an automaton that is `D` renamed, and the two forms differ. */
  lemma BrokenSymmetryShows(D: Dfa, perms: seq<seq<nat>>, sigma: seq<nat>, tau: seq<nat>, p: seq<nat>, n: nat, C: Dfa) returns (E: Dfa, F: Dfa)
    requires AllReachable(D) && tau in perms && Symmetry(D, sigma, tau) && !KeepsAcceptance(D, sigma)
    requires p in perms && Canonical(D, perms, p, n, C)
    ensures Renames(D, E, sigma, tau) && Canonical(E, perms, p, n, F) && F != C
  {
    MovedRenames(D, sigma, tau);
    E := Moved(D, sigma);
    assert Perms(E, perms);
    SameWinners(D, E, perms, p);
    AcceptanceUnseen(D, E, p, n);
    RenumberingIsPermutation(D, p, n);
    var r := After(D, p, n).renumbering;
    F := Relabelled(E, p, r);
    FormsDiffer(D, E, sigma, p, r, C, F);
  }

  lemma FormsDiffer(D: Dfa, E: Dfa, sigma: seq<nat>, p: seq<nat>, r: seq<nat>, C: Dfa, F: Dfa)
    requires Relabels(D, p, r, C) && Relabels(E, p, r, F) && IsPermutation(sigma) && |sigma| == |D.accept| == |E.accept| == |r|
    requires !KeepsAcceptance(D, sigma) && forall s: nat :: s < |sigma| ==> E.accept[sigma[s]] == D.accept[s]
    ensures F != C
  {
    var s: nat :| s < |sigma| && D.accept[sigma[s]] != D.accept[s];
    var t := sigma[s];
    hide KeepsAcceptance, Corresponds, IsPerm, IsPermutation;
    assert F.accept[r[t]] == E.accept[t] == D.accept[s];
    assert C.accept[r[t]] == D.accept[t];
  }

  /** All canonical forms agree exactly if no symmetry by a member of the group moves acceptance. */
  lemma OneFormIffSymmetriesKeep(D: Dfa, perms: seq<seq<nat>>)
    requires Perms(D, perms) && IsGroup(D, perms) && AllReachable(D)
    ensures OneForm(D, perms) <==> SymmetriesKeepAcceptance(D, perms)
  {
    if SymmetriesKeepAcceptance(D, perms) {
      forall E, sigma, tau, C, F | tau in perms && Renames(D, E, sigma, tau) && IsForm(D, perms, C) && IsForm(E, perms, F) ensures C == F {
        var p, n: nat :| p in perms && Canonical(D, perms, p, n, C);
        var q, m: nat :| q in perms && Canonical(E, perms, q, m, F);
        hide *;
        RenamedPerms(D, E, sigma, tau, perms);
        KeptMeansOneForm(D, E, perms, sigma, tau, p, n, C, q, m, F);
      }
    }
    if OneForm(D, perms) {
      var p, n, C := SomeForm(D, perms);
      forall sigma, tau | tau in perms && Symmetry(D, sigma, tau) ensures KeepsAcceptance(D, sigma) {
        if !KeepsAcceptance(D, sigma) {
          OneFormRefuted(D, perms, sigma, tau, p, n, C);
        }
      }
    }
  }

  lemma RenamedPerms(D: Dfa, E: Dfa, sigma: seq<nat>, tau: seq<nat>, perms: seq<seq<nat>>)
    requires Renames(D, E, sigma, tau) && Perms(D, perms)
    ensures Perms(E, perms)
  {
  }

  lemma OneFormRefuted(D: Dfa, perms: seq<seq<nat>>, sigma: seq<nat>, tau: seq<nat>, p: seq<nat>, n: nat, C: Dfa)
    requires AllReachable(D) && tau in perms && Symmetry(D, sigma, tau) && !KeepsAcceptance(D, sigma)
    requires p in perms && Canonical(D, perms, p, n, C)
    ensures !OneForm(D, perms)
  {
    var E, F := BrokenSymmetryShows(D, perms, sigma, tau, p, n, C);
    hide Renames, Canonical, KeepsAcceptance, Symmetry;
    assert IsForm(D, perms, C) && IsForm(E, perms, F);
  }

  /** There is a canonical form. */
  lemma SomeForm(D: Dfa, perms: seq<seq<nat>>) returns (p: seq<nat>, n: nat, C: Dfa)
    requires Perms(D, perms) && AllReachable(D)
    ensures p in perms && Canonical(D, perms, p, n, C)
  {
    p := SomeLeast(D, perms);
    n := |D.step| * D.symbols + 1;
    EnumerationEnds(D, p);
    RenumberingIsPermutation(D, p, n);
    C := Relabelled(D, p, After(D, p, n).renumbering);
  }

  // ---- Gadgets alternate.

  lemma {:induction false} AlternationFollows(D: Dfa, sigma: seq<nat>, tau: seq<nat>, s: nat, w: seq<nat>, t: nat)
    requires Symmetry(D, sigma, tau) && Alternates(D) && s < |sigma| && D.accept[sigma[s]] == D.accept[s] && Leads(D, s, w, t)
    ensures t < |sigma| && D.accept[sigma[t]] == D.accept[t]
    decreases |w|
  {
    if w != [] {
      var x, u: nat :| x == w[0] && D.Goes(s, x, u) && Leads(D, u, w[1..], t);
      assert Corresponds(D.step[s][Identity(D.symbols)[x]], D.step[sigma[s]][tau[x]], sigma);
      assert D.Goes(sigma[s], tau[x], sigma[u]);
      AlternationFollows(D, sigma, tau, u, w[1..], t);
    }
  }

  lemma AlternatingSymmetriesKeep(D: Dfa, perms: seq<seq<nat>>)
    requires D.Valid() && AllReachable(D) && Alternates(D)
    ensures SymmetriesKeepAcceptance(D, perms)
  {
    forall sigma, tau | tau in perms && Symmetry(D, sigma, tau) ensures KeepsAcceptance(D, sigma) {
      forall t: nat | t < |sigma| ensures D.accept[sigma[t]] == D.accept[t] {
        assert Reachable(D, t);
        var w :| Leads(D, 0, w, t);
        AlternationFollows(D, sigma, tau, 0, w, t);
      }
    }
  }

  /** If accepting and rejecting states alternate, the canonical forms are equal. */
  lemma SameCanonicalForm(D: Dfa, E: Dfa, perms: seq<seq<nat>>, sigma: seq<nat>, tau: seq<nat>,
                          p: seq<nat>, n: nat, C: Dfa, q: seq<nat>, m: nat, F: Dfa)
    requires Renames(D, E, sigma, tau) && Perms(D, perms) && IsGroup(D, perms) && tau in perms && AllReachable(D)
    requires p in perms && q in perms && Canonical(D, perms, p, n, C) && Canonical(E, perms, q, m, F)
    requires Alternates(D)
    ensures C == F
  {
    RenamedPerms(D, E, sigma, tau, perms);
    AlternatingSymmetriesKeep(D, perms);
    hide *;
    KeptMeansOneForm(D, E, perms, sigma, tau, p, n, C, q, m, F);
  }

  // ---- Without alternation the accepting states can differ.

  /** From 0 the two symbols lead to two states, which both lead to a third; one of the two accepts. */
  function Fork(): Dfa {
    Dfa(2, [[Some(1), Some(2)], [Some(3), Some(3)], [Some(3), Some(3)], [None, None]], [false, true, false, true])
  }

  /** The two orders of two symbols. */
  function TwoOrders(): seq<seq<nat>> {
    [[0, 1], [1, 0]]
  }

  lemma InTwoOrders(p: seq<nat>)
    ensures p in TwoOrders() <==> p == [0, 1] || p == [1, 0]
  {
  }

  lemma ComposeTwo(p: seq<nat>, q: seq<nat>)
    requires (p == [0, 1] || p == [1, 0]) && (q == [0, 1] || q == [1, 0])
    ensures Compose(p, q) == (if p == q then [0, 1] else [1, 0]) && Undoes(p, p)
  {
  }

  lemma TwoOrdersAreGroup(D: Dfa)
    requires D.Valid() && D.symbols == 2
    ensures Perms(D, TwoOrders()) && IsGroup(D, TwoOrders())
  {
    hide TwoOrders, Compose;
    forall p | p in TwoOrders() ensures IsPerm(D, p) && HasInverse(TwoOrders(), p) {
      InTwoOrders(p);
      ComposeTwo(p, p);
    }
    InTwoOrders([0, 1]);
    InTwoOrders([1, 0]);
    forall p, q | p in TwoOrders() && q in TwoOrders() ensures Compose(p, q) in TwoOrders() {
      InTwoOrders(p);
      InTwoOrders(q);
      ComposeTwo(p, q);
    }
  }

  lemma ForkRow(s: nat, x: nat)
    requires s < 4 && x < 2
    ensures var D := Fork(); Corresponds(D.step[s][x], D.step[[0, 2, 1, 3][s]][[1, 0][x]], [0, 2, 1, 3])
  {
    assert s == 0 || s == 1 || s == 2 || s == 3;
    assert x == 0 || x == 1;
  }

  /** Exchanging the symbols and the two states in the middle moves acceptance. */
  lemma ForkBreaks()
    ensures Symmetry(Fork(), [0, 2, 1, 3], [1, 0]) && !KeepsAcceptance(Fork(), [0, 2, 1, 3])
  {
    var D, sigma, tau := Fork(), [0, 2, 1, 3], [1, 0];
    assert D.accept[sigma[1]] != D.accept[1];
    assert IsPerm(D, tau) && IsPerm(D, Identity(2));
    hide Corresponds;
    forall s: nat, x: nat | s < 4 && x < 2 ensures Corresponds(D.step[s][Identity(2)[x]], D.step[sigma[s]][tau[x]], sigma) {
      ForkRow(s, x);
    }
  }

  lemma ForkReachable()
    ensures AllReachable(Fork())
  {
    var D := Fork();
    assert Leads(D, 0, [], 0);
    assert D.Goes(0, 0, 1) && D.Goes(0, 1, 2) && D.Goes(1, 0, 3);
    assert Leads(D, 1, [], 1) && Leads(D, 2, [], 2) && Leads(D, 3, [], 3);
    assert [0][1..] == [] && [1][1..] == [] && [0, 0][1..] == [0];
    assert Leads(D, 0, [0], 1) && Leads(D, 0, [1], 2) && Leads(D, 1, [0], 3);
    assert Leads(D, 0, [0, 0], 3);
    forall t: nat | t < |D.step| ensures Reachable(D, t) {
      assert t == 0 || t == 1 || t == 2 || t == 3;
    }
  }

  lemma ForkHasTwoForms()
    ensures Fork().Valid() && AllReachable(Fork()) && IsGroup(Fork(), TwoOrders()) && !OneForm(Fork(), TwoOrders())
  {
    ForkBreaks();
    ForkReachable();
    TwoOrdersAreGroup(Fork());
    InTwoOrders([1, 0]);
    assert !SymmetriesKeepAcceptance(Fork(), TwoOrders());
    hide *;
    OneFormIffSymmetriesKeep(Fork(), TwoOrders());
  }
}
