/** The splitters as lists of blocks: each block is on exactly one list, the one `partitionToSplitter` names. */
module SplitterLists {
  import opened SeqFacts
  import opened NodeLists

  ghost predicate Holds(chain: seq<nat>, part: seq<nat>, b: nat) {
    exists x :: x in chain && x < |part| && part[x] == b
  }

  /** `part` is the block stored in each node; `p2s` the list head of each block. */
  ghost predicate SplittersOk(chains: map<nat, seq<nat>>, part: seq<nat>, p2s: seq<nat>) {
    && (forall b :: 0 <= b < |p2s| ==> p2s[b] in chains && Holds(chains[p2s[b]], part, b))
    && (forall h: nat, x: nat :: On(chains, h, x) ==> x < |part| && part[x] < |p2s| && p2s[part[x]] == h)
    && (forall h: nat, x: nat, y: nat :: On(chains, h, x) && On(chains, h, y) && x < |part| && y < |part| && part[x] == part[y] ==> x == y)
  }

  ghost predicate On(chains: map<nat, seq<nat>>, h: nat, x: nat) {
    h in chains && x in chains[h]
  }

  /** The queue holds exactly the heads of lists with more than one block, each once. */
  ghost predicate WaitingOk(waiting: seq<nat>, chains: map<nat, seq<nat>>) {
    && Distinct(waiting)
    && (forall h :: h in waiting <==> h in chains && |chains[h]| > 1)
  }

  /** There is a node left for one more block while there are fewer blocks than nodes. */
  lemma {:induction false} RoomForBlock(next: seq<Link>, chains: map<nat, seq<nat>>, highwater: nat, part: seq<nat>, p2s: seq<nat>)
    requires ListsOk(next, chains, [], highwater, {}) && SplittersOk(chains, part, p2s) && |part| == |next| && |p2s| < |next|
    ensures highwater < |next|
  {
    var used := part[..highwater];
    forall x: nat | x < highwater ensures InSomeList(chains, x) {
    }
    forall x: nat, y: nat | x < y < highwater ensures used[x] != used[y] {
      assert InSomeList(chains, x) && InSomeList(chains, y);
      var h :| h in chains && x in chains[h];
      var g :| g in chains && y in chains[g];
      assert On(chains, h, x) && On(chains, g, y);
    }
    forall x: nat | x < highwater ensures used[x] < |p2s| {
      assert InSomeList(chains, x);
      var h :| h in chains && x in chains[h];
      assert On(chains, h, x);
    }
    DistinctSize(used);
    BoundedSetSize(Elems(used), |p2s|);
  }

  /** A new block joins its parent's list. */
  lemma JoinList(chains: map<nat, seq<nat>>, part: seq<nat>, p2s: seq<nat>, h: nat, node: nat)
    requires SplittersOk(chains, part, p2s) && h in chains && chains[h] != [] && Distinct(chains[h])
    requires node < |part| && !InSomeList(chains, node)
    ensures SplittersOk(chains[h := Inserted(chains[h], 0, node)], part[node := |p2s|], p2s + [h])
  {
    var now := chains[h := Inserted(chains[h], 0, node)];
    var data := part[node := |p2s|];
    assert node !in chains[h];
    InsertedMembers(chains[h], 0, node);
    forall g: nat, x: nat | On(now, g, x) ensures (x == node && g == h) || (x != node && On(chains, g, x)) {
      assert On(chains, g, x) ==> InSomeList(chains, x);
    }
    forall b | 0 <= b < |p2s| + 1 ensures (p2s + [h])[b] in now && Holds(now[(p2s + [h])[b]], data, b) {
      if b < |p2s| {
        var x :| x in chains[p2s[b]] && x < |part| && part[x] == b;
        assert x in now[p2s[b]] && data[x] == b;
      } else {
        assert node in now[h] && data[node] == b;
      }
    }
  }

  lemma QueueIfNewlyCompound(waiting: seq<nat>, chains: map<nat, seq<nat>>, h: nat, node: nat)
    requires WaitingOk(waiting, chains) && h in chains && chains[h] != []
    ensures WaitingOk(if |chains[h]| == 1 then waiting + [h] else waiting, chains[h := Inserted(chains[h], 0, node)])
  {
  }

  /** Exchanging the blocks of the first two nodes of a list. */
  lemma SwapFirstTwo(chains: map<nat, seq<nat>>, part: seq<nat>, p2s: seq<nat>, h: nat)
    requires SplittersOk(chains, part, p2s) && h in chains && |chains[h]| > 1
    requires chains[h][0] < |part| && chains[h][1] < |part|
    ensures SplittersOk(chains, part[chains[h][0] := part[chains[h][1]]][chains[h][1] := part[chains[h][0]]], p2s)
  {
    var x0, x1 := chains[h][0], chains[h][1];
    var now := part[x0 := part[x1]][x1 := part[x0]];
    assert On(chains, h, x0) && On(chains, h, x1);
    forall g: nat, x: nat | On(chains, g, x)
      ensures x < |now| && now[x] < |p2s| && p2s[now[x]] == g
    {
      if x == x0 || x == x1 {
        assert p2s[part[x]] == g == h;
      }
    }
    forall b | 0 <= b < |p2s| ensures p2s[b] in chains && Holds(chains[p2s[b]], now, b) {
      var x :| x in chains[p2s[b]] && x < |part| && part[x] == b;
      if x == x0 {
        assert now[x1] == b && p2s[b] == h;
      } else if x == x1 {
        assert now[x0] == b && p2s[b] == h;
      } else {
        assert now[x] == b;
      }
    }
    forall g: nat, x: nat, y: nat | On(chains, g, x) && On(chains, g, y) && x < |now| && y < |now| && now[x] == now[y] ensures x == y {
      assert x != x0 && x != x1 ==> now[x] == part[x];
    }
  }

  /** The block of the second node gets a list of its own, headed by the unused node `r`. */
  lemma SplitOffSecond(chains: map<nat, seq<nat>>, part: seq<nat>, p2s: seq<nat>, h: nat, r: nat)
    requires SplittersOk(chains, part, p2s) && h in chains && |chains[h]| > 1 && Distinct(chains[h])
    requires r < |part| && !InSomeList(chains[h := Erased(chains[h], 0)], r) && r !in chains
    requires chains[h][1] < |part|
    ensures var b := part[chains[h][1]];
            b < |p2s| && SplittersOk(chains[h := Erased(chains[h], 0)][r := [r]], part[r := b], p2s[b := r])
  {
    var v := chains[h][1];
    assert On(chains, h, v);
    var b := part[v];
    var rest := chains[h := Erased(chains[h], 0)];
    var now, data, heads := rest[r := [r]], part[r := b], p2s[b := r];
    ErasedMembers(chains[h], 0);
    forall g: nat, x: nat | On(rest, g, x) ensures x != r && On(chains, g, x) && x < |part| && part[x] != b {
      assert InSomeList(rest, x);
      assert On(chains, g, x);
      assert g == h ==> x != v;
    }
    forall g: nat, x: nat | On(now, g, x) ensures (x == r && g == r) || (g != r && On(rest, g, x)) {
    }
    forall c | 0 <= c < |heads| ensures heads[c] in now && Holds(now[heads[c]], data, c) {
      if c == b {
        assert r in now[r] && data[r] == b;
      } else {
        var x :| x in chains[p2s[c]] && x < |part| && part[x] == c;
        assert On(chains, p2s[c], x) && x != v;
        assert On(rest, p2s[c], x);
        assert data[x] == c;
      }
    }
  }

  lemma QueueAfterSplitOff(waiting: seq<nat>, chains: map<nat, seq<nat>>, r: nat)
    requires WaitingOk(waiting, chains) && waiting != [] && r !in chains
    ensures var h := waiting[0];
            WaitingOk(if |chains[h]| == 2 then waiting[1..] else waiting, chains[h := Erased(chains[h], 0)][r := [r]])
  {
    var h := waiting[0];
    assert h in waiting;
    assert waiting == [h] + waiting[1..];
    assert forall j :: 0 <= j < |waiting| - 1 ==> waiting[1..][j] == waiting[j + 1] != h;
  }
}
