/** Singly-linked lists kept in one pair of arrays, with a free list. */
module NodeLists {
  import opened SeqFacts

  datatype Link = End | To(offset: nat)

  ghost function LinkAt(chain: seq<nat>, i: int): Link {
    if 0 <= i < |chain| then To(chain[i]) else End
  }

  /** The nodes of `chain` are linked in order, and the last one ends the list. */
  ghost predicate Linked(next: seq<Link>, chain: seq<nat>) {
    && (forall i :: 0 <= i < |chain| ==> chain[i] < |next|)
    && (forall i :: 0 <= i < |chain| ==> Follows(next, chain, i))
  }

  ghost predicate Follows(next: seq<Link>, chain: seq<nat>, i: nat)
    requires i < |chain|
  {
    chain[i] < |next| && next[chain[i]] == LinkAt(chain, i + 1)
  }

  /** No node is in two places. */
  ghost predicate Apart(chains: map<nat, seq<nat>>, free: seq<nat>) {
    && (forall h :: h in chains ==> Distinct(chains[h]))
    && (forall h, g, x :: h in chains && g in chains && x in chains[h] && x in chains[g] ==> h == g)
    && (forall h, x :: h in chains && x in chains[h] ==> x !in free)
    && Distinct(free)
  }

  ghost predicate InSomeList(chains: map<nat, seq<nat>>, x: nat) {
    exists h :: h in chains && x in chains[h]
  }

  /** The arrays hold the lists `chains` and the free list, and every node below `highwater` but the loose ones is in one of them. */
  ghost predicate ListsOk(next: seq<Link>, chains: map<nat, seq<nat>>, free: seq<nat>, highwater: nat, loose: set<nat>) {
    && highwater <= |next|
    && (forall h :: h in chains ==> chains[h] != [] && chains[h][0] == h && Linked(next, chains[h]))
    && Linked(next, free)
    && Apart(chains, free)
    && (forall x :: x in loose ==> x < highwater)
    && (forall x: nat :: x < highwater && x !in loose <==> InSomeList(chains, x) || x in free)
  }

  /** Changing a node outside the chain does not affect it. */
  lemma LinkedElsewhere(next: seq<Link>, chain: seq<nat>, p: nat, l: Link)
    requires Linked(next, chain) && p < |next| && p !in chain
    ensures Linked(next[p := l], chain)
  {
    var now := next[p := l];
    forall i | 0 <= i < |chain| ensures Follows(now, chain, i) {
      assert Follows(next, chain, i) && chain[i] != p;
    }
  }

  lemma LinkedTail(next: seq<Link>, chain: seq<nat>)
    requires Linked(next, chain) && chain != []
    ensures Linked(next, chain[1..]) && next[chain[0]] == LinkAt(chain[1..], 0)
  {
    var tail := chain[1..];
    assert Follows(next, chain, 0);
    forall i | 0 <= i < |tail| ensures Follows(next, tail, i) {
      assert Follows(next, chain, i + 1);
    }
  }

  function Inserted(chain: seq<nat>, i: nat, p: nat): seq<nat>
    requires i < |chain|
  {
    chain[..i + 1] + [p] + chain[i + 1..]
  }

  ghost predicate IsInserted(chain: seq<nat>, i: nat, p: nat, now: seq<nat>) {
    && i < |chain| && |now| == |chain| + 1
    && (forall j :: 0 <= j <= i ==> now[j] == chain[j])
    && now[i + 1] == p
    && (forall j :: i + 1 < j < |now| ==> now[j] == chain[j - 1])
  }

  lemma InsertedMembers(chain: seq<nat>, i: nat, p: nat)
    requires Distinct(chain) && i < |chain| && p !in chain
    ensures Distinct(Inserted(chain, i, p)) && forall x :: x in Inserted(chain, i, p) <==> x == p || x in chain
  {
    var now := Inserted(chain, i, p);
    assert IsInserted(chain, i, p, now);
    forall j, k | 0 <= j < k < |now| ensures now[j] != now[k] {
      assert j != i + 1 ==> now[j] in chain;
      assert k != i + 1 ==> now[k] in chain;
    }
  }

  /** Linking node `p`, which is in no list, after place `i` of the chain. */
  lemma LinkedInsert(next: seq<Link>, chain: seq<nat>, i: nat, p: nat)
    requires Linked(next, chain) && Distinct(chain) && i < |chain| && p < |next| && p !in chain
    ensures Linked(next[p := next[chain[i]]][chain[i] := To(p)], Inserted(chain, i, p))
  {
    var now := Inserted(chain, i, p);
    var links := next[p := next[chain[i]]][chain[i] := To(p)];
    assert IsInserted(chain, i, p, now);
    assert Follows(next, chain, i);
    forall j | 0 <= j < |now| ensures Follows(links, now, j) {
      if j < i {
        assert Follows(next, chain, j) && chain[j] != p;
      } else if j > i + 1 {
        assert Follows(next, chain, j - 1) && chain[j - 1] != p;
      }
    }
  }

  function Erased(chain: seq<nat>, i: nat): seq<nat>
    requires i + 1 < |chain|
  {
    chain[..i + 1] + chain[i + 2..]
  }

  ghost predicate IsErased(chain: seq<nat>, i: nat, now: seq<nat>) {
    && i + 1 < |chain| && |now| == |chain| - 1
    && (forall j :: 0 <= j <= i ==> now[j] == chain[j])
    && (forall j :: i < j < |now| ==> now[j] == chain[j + 1])
  }

  lemma ErasedMembers(chain: seq<nat>, i: nat)
    requires Distinct(chain) && i + 1 < |chain|
    ensures Distinct(Erased(chain, i)) && forall x :: x in Erased(chain, i) <==> x in chain && x != chain[i + 1]
  {
    var now := Erased(chain, i);
    assert IsErased(chain, i, now);
    forall x | x in chain && x != chain[i + 1] ensures x in now {
      var j :| 0 <= j < |chain| && chain[j] == x;
      assert now[if j <= i then j else j - 1] == x;
    }
  }

  /** Unlinking the node after place `i`. */
  lemma LinkedErase(next: seq<Link>, chain: seq<nat>, i: nat)
    requires Linked(next, chain) && Distinct(chain) && i + 1 < |chain|
    ensures Linked(next[chain[i] := next[chain[i + 1]]], Erased(chain, i))
  {
    var now := Erased(chain, i);
    var links := next[chain[i] := next[chain[i + 1]]];
    assert IsErased(chain, i, now);
    assert Follows(next, chain, i) && Follows(next, chain, i + 1);
    forall j | 0 <= j < |now| ensures Follows(links, now, j) {
      if j < i {
        assert Follows(next, chain, j);
      } else if j > i {
        assert Follows(next, chain, j + 1);
      }
    }
  }

  lemma TakeFree(next: seq<Link>, chains: map<nat, seq<nat>>, free: seq<nat>, highwater: nat)
    requires ListsOk(next, chains, free, highwater, {}) && free != []
    ensures ListsOk(next, chains, free[1..], highwater, {free[0]}) && next[free[0]] == LinkAt(free[1..], 0)
  {
    LinkedTail(next, free);
    var rest := free[1..];
    assert forall x :: x in rest <==> x in free && x != free[0] by {
      assert free == [free[0]] + rest;
      assert forall j :: 0 <= j < |rest| ==> rest[j] == free[j + 1] != free[0];
    }
    assert free[0] in free && !InSomeList(chains, free[0]);
  }

  lemma TakeUnused(next: seq<Link>, chains: map<nat, seq<nat>>, free: seq<nat>, highwater: nat)
    requires ListsOk(next, chains, free, highwater, {}) && highwater < |next|
    ensures ListsOk(next, chains, free, highwater + 1, {highwater})
  {
    assert !InSomeList(chains, highwater) && highwater !in free;
  }

  lemma AddList(next: seq<Link>, chains: map<nat, seq<nat>>, free: seq<nat>, highwater: nat, p: nat)
    requires ListsOk(next, chains, free, highwater, {p})
    ensures p !in chains && ListsOk(next[p := End], chains[p := [p]], free, highwater, {})
  {
    var now := chains[p := [p]];
    assert !InSomeList(chains, p);
    forall h | h in chains ensures h != p && Linked(next[p := End], chains[h]) {
      assert h in chains[h];
      assert p !in chains[h];
      LinkedElsewhere(next, chains[h], p, End);
    }
    LinkedElsewhere(next, free, p, End);
    forall x: nat ensures InSomeList(now, x) <==> x == p || InSomeList(chains, x) {
      assert now[p] == [p];
      assert forall h :: h in chains ==> h in now && now[h] == chains[h];
    }
  }

  lemma AddNode(next: seq<Link>, chains: map<nat, seq<nat>>, free: seq<nat>, highwater: nat, h: nat, i: nat, p: nat)
    requires ListsOk(next, chains, free, highwater, {p}) && h in chains && i < |chains[h]|
    ensures ListsOk(next[p := next[chains[h][i]]][chains[h][i] := To(p)], chains[h := Inserted(chains[h], i, p)], free, highwater, {})
  {
    var c := chains[h];
    var now := chains[h := Inserted(c, i, p)];
    var links := next[p := next[c[i]]][c[i] := To(p)];
    assert !InSomeList(chains, p);
    assert p !in c && c[i] in c;
    LinkedInsert(next, c, i, p);
    InsertedMembers(c, i, p);
    assert now[h][0] == h;
    forall g | g in chains && g != h ensures Linked(links, chains[g]) {
      assert p !in chains[g] && c[i] !in chains[g];
      LinkedElsewhere(next, chains[g], p, next[c[i]]);
      LinkedElsewhere(next[p := next[c[i]]], chains[g], c[i], To(p));
    }
    assert p !in free && c[i] !in free;
    LinkedElsewhere(next, free, p, next[c[i]]);
    LinkedElsewhere(next[p := next[c[i]]], free, c[i], To(p));
    forall x: nat ensures InSomeList(now, x) <==> x == p || InSomeList(chains, x) {
      assert x in now[h] <==> x == p || x in chains[h];
      assert forall g :: g in chains && g != h ==> now[g] == chains[g];
    }
  }

  lemma DropNode(next: seq<Link>, chains: map<nat, seq<nat>>, free: seq<nat>, highwater: nat, h: nat, i: nat)
    requires ListsOk(next, chains, free, highwater, {}) && h in chains && i + 1 < |chains[h]|
    ensures var v := chains[h][i + 1];
            ListsOk(next[chains[h][i] := next[v]][v := LinkAt(free, 0)], chains[h := Erased(chains[h], i)], [v] + free, highwater, {})
  {
    var c := chains[h];
    var v := c[i + 1];
    var now := chains[h := Erased(c, i)];
    ErasedMembers(c, i);
    DropNodeLinks(next, chains, free, highwater, h, i);
    assert c[i] in c && v in c;
    assert now[h][0] == h;
    forall x: nat ensures (InSomeList(now, x) || x == v) <==> InSomeList(chains, x) {
      assert x in now[h] <==> x in chains[h] && x != v;
      assert forall g :: g in chains && g != h ==> now[g] == chains[g];
      assert v in chains[h];
    }
    assert v !in free;
    assert Apart(now, [v] + free);
  }

  lemma DropNodeLinks(next: seq<Link>, chains: map<nat, seq<nat>>, free: seq<nat>, highwater: nat, h: nat, i: nat)
    requires ListsOk(next, chains, free, highwater, {}) && h in chains && i + 1 < |chains[h]|
    ensures var c := chains[h];
            var v := c[i + 1];
            var links := next[c[i] := next[v]][v := LinkAt(free, 0)];
            && Linked(links, Erased(c, i)) && Linked(links, [v] + free)
            && forall g :: g in chains && g != h ==> Linked(links, chains[g])
  {
    var c := chains[h];
    var v := c[i + 1];
    var once := next[c[i] := next[v]];
    LinkedErase(next, c, i);
    ErasedMembers(c, i);
    assert c[i] in c && v in c;
    LinkedElsewhere(once, Erased(c, i), v, LinkAt(free, 0));
    forall g | g in chains && g != h ensures Linked(once[v := LinkAt(free, 0)], chains[g]) {
      assert v !in chains[g] && c[i] !in chains[g];
      LinkedElsewhere(next, chains[g], c[i], next[v]);
      LinkedElsewhere(once, chains[g], v, LinkAt(free, 0));
    }
    assert v !in free && c[i] !in free;
    LinkedElsewhere(next, free, c[i], next[v]);
    LinkedElsewhere(once, free, v, LinkAt(free, 0));
    LinkedPush(once[v := LinkAt(free, 0)], free, v);
  }

  lemma LinkedPush(next: seq<Link>, chain: seq<nat>, v: nat)
    requires Linked(next, chain) && v < |next| && next[v] == LinkAt(chain, 0)
    ensures Linked(next, [v] + chain)
  {
    var now := [v] + chain;
    forall j | 0 <= j < |now| ensures Follows(next, now, j) {
      if j > 0 {
        assert Follows(next, chain, j - 1);
      }
    }
  }

  class NodeList {
    const capacity: nat
    const part: array<nat>
    const next: array<Link>
    var freeHead: Link
    var highwater: nat
    /** The lists by their head, and the free list, as sequences of offsets. */
    ghost var chains: map<nat, seq<nat>>
    ghost var free: seq<nat>

    constructor (size: nat)
      ensures Valid() && capacity == size && chains == map[] && free == [] && highwater == 0
      ensures fresh(part) && fresh(next)
    {
      capacity := size;
      part := new nat[size](_ => 0);
      next := new Link[size](_ => End);
      freeHead := End;
      highwater := 0;
      chains := map[];
      free := [];
    }

    ghost predicate Valid()
      reads this, next
    {
      && part.Length == next.Length == capacity && freeHead == LinkAt(free, 0)
      && ListsOk(next[..], chains, free, highwater, {})
    }

    /** Takes a node off the free list, or else an unused one. */
    method Allocate() returns (p: nat)
      requires Valid() && (free == [] ==> highwater < capacity)
      modifies this`freeHead, this`highwater, this`free
      ensures p < capacity && freeHead == LinkAt(free, 0) && ListsOk(next[..], chains, free, highwater, {p})
      ensures free == if old(free) == [] then [] else old(free)[1..]
      ensures old(free) == [] ==> p == old(highwater)
    {
      if freeHead != End {
        TakeFree(next[..], chains, free, highwater);
        p := freeHead.offset;
        assert Follows(next[..], free, 0);
        freeHead := next[p];
        free := free[1..];
      } else {
        TakeUnused(next[..], chains, free, highwater);
        p := highwater;
        highwater := highwater + 1;
      }
    }

    /** Starts a new list. */
    method Create(data: nat) returns (p: nat)
      requires Valid() && (free == [] ==> highwater < capacity)
      modifies this, part, next
      ensures Valid() && p < capacity && p !in old(chains) && !old(InSomeList(chains, p))
      ensures chains == old(chains)[p := [p]]
      ensures part[..] == old(part[..])[p := data]
      ensures free == if old(free) == [] then [] else old(free)[1..]
      ensures old(free) == [] ==> p == old(highwater)
    {
      p := Allocate();
      AddList(next[..], chains, free, highwater, p);
      part[p] := data;
      ghost var links := next[..];
      next[p] := End;
      assert next[..] == links[p := End];
      chains := chains[p := [p]];
    }

    /** Links in a new node after node `p`, which is at place `i` of the list headed by `h`. */
    method InsertAfter(p: nat, data: nat, ghost h: nat, ghost i: nat) returns (node: nat)
      requires Valid() && (free == [] ==> highwater < capacity)
      requires h in chains && i < |chains[h]| && chains[h][i] == p
      modifies this, part, next
      ensures Valid() && node < capacity && !old(InSomeList(chains, node))
      ensures chains == old(chains)[h := Inserted(old(chains)[h], i, node)]
      ensures part[..] == old(part[..])[node := data]
      ensures free == if old(free) == [] then [] else old(free)[1..]
    {
      assert Follows(next[..], chains[h], i);
      node := Allocate();
      assert !InSomeList(chains, node);
      AddNode(next[..], chains, free, highwater, h, i, node);
      part[node] := data;
      ghost var links := next[..];
      next[node] := next[p];
      next[p] := To(node);
      assert next[..] == links[node := links[p]][p := To(node)];
      chains := chains[h := Inserted(chains[h], i, node)];
    }

    /** Unlinks and frees the node after `p`, which is at place `i` of the list headed by `h`. */
    method EraseAfter(p: nat, ghost h: nat, ghost i: nat)
      requires Valid() && h in chains && i + 1 < |chains[h]| && chains[h][i] == p
      modifies this, next
      ensures Valid() && chains == old(chains)[h := Erased(old(chains)[h], i)]
      ensures free == [old(chains)[h][i + 1]] + old(free)
    {
      DropNode(next[..], chains, free, highwater, h, i);
      assert Follows(next[..], chains[h], i) && Follows(next[..], chains[h], i + 1);
      var victim := next[p].offset;
      var rest := next[victim];
      ghost var links := next[..];
      next[p] := rest;
      next[victim] := freeHead;
      assert next[..] == links[p := links[victim]][victim := freeHead];
      freeHead := To(victim);
      free := [victim] + free;
      chains := chains[h := Erased(chains[h], i)];
    }
  }
}
