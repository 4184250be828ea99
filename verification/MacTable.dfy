/** The MAC tables of client/FrameDecider.c: each peer's lists of free and used entries, and
    one tree of all addresses. A used entry is named by the address it holds. */
module MacTable {
  import opened Wrappers
  import opened Lists
  import opened FrameTables

  class MacTable {
    const max: nat
    var free: map<PeerId, nat>
    var used: Macs
    var tree: map<Mac, PeerId>

    ghost predicate Valid()
      reads this
    {
      0 < max && TablesOk(free, used, tree, max)
    }

    constructor (max: nat)
      requires 0 < max
      ensures Valid() && used == map[] && this.max == max
    {
      this.max := max;
      free, used, tree := map[], map[], map[];
    }

    method PeerInit(p: PeerId)
      requires Valid() && p !in used
      modifies this
      ensures Valid() && used == old(used)[p := []]
    {
      free := free[p := max];
      used := used[p := []];
    }

    /** Takes the peer's used entries out of the tree. */
    method PeerFree(p: PeerId)
      requires Valid() && p in used
      modifies this
      ensures Valid() && used == old(used) - {p}
    {
      hide TablesOk;
      ghost var was := tree;
      RemoveAll(used[p]);
      MacPeerGone(free, used, was, max, p, tree);
      used := used - {p};
      free := free - {p};
    }

    method RemoveAll(list: seq<Mac>)
      modifies this`tree
      ensures forall m :: m in tree <==> m in old(tree) && m !in list
      ensures forall m :: m in tree ==> tree[m] == old(tree)[m]
    {
      for i := 0 to |list|
        invariant forall m :: m in tree <==> m in old(tree) && m !in list[..i]
        invariant forall m :: m in tree ==> tree[m] == old(tree)[m]
      {
        assert list[..i + 1] == list[..i] + [list[i]];
        tree := tree - {list[i]};
      }
      assert list[..|list|] == list;
    }

    /** Takes the entry of an address away from its owner. */
    method ReleaseMac(owner: PeerId, mac: Mac)
      requires Valid() && mac in tree && owner == tree[mac]
      modifies this
      ensures Valid() && tree == old(tree) - {mac}
      ensures used == old(used)[owner := Without(old(used)[owner], mac)]
      ensures owner in old(free) && free == old(free)[owner := old(free)[owner] + 1]
    {
      hide TablesOk, Without;
      MacReleased(free, used, tree, max, owner, mac);
      tree := tree - {mac};
      used := used[owner := Without(used[owner], mac)];
      free := free[owner := free[owner] + 1];
    }

    /** A free entry for the peer: if there is none, its oldest used one. */
    method AcquireMacEntry(p: PeerId)
      requires Valid() && p in used
      modifies this
      ensures Valid() && free.Keys == old(free).Keys && p in free && free[p] > 0
      ensures forall m :: m in tree ==> m in old(tree)
      ensures used == old(used)
                [p := if |old(used)[p]| >= max then old(used)[p][1..] else old(used)[p]]
    {
      assert free[p] + |used[p]| == max;
      if free[p] == 0 {
        var oldest := used[p][0];
        assert oldest in tree && tree[oldest] == p;
        WithoutHead(used[p]);
        hide Valid, Without, NoDup;
        ReleaseMac(p, oldest);
      }
    }

    /** Puts the address behind the others of the peer. */
    method InsertMac(p: PeerId, mac: Mac)
      requires Valid() && mac !in tree && p in used && p in free && free[p] > 0
      modifies this
      ensures Valid() && used == old(used)[p := old(used)[p] + [mac]]
    {
      hide TablesOk;
      MacInserted(free, used, tree, max, p, mac);
      free := free[p := free[p] - 1];
      used := used[p := used[p] + [mac]];
      tree := tree[mac := p];
    }

    /** Gives the peer an address nobody has. */
    method AddNewMac(p: PeerId, mac: Mac)
      requires Valid() && p in used && mac !in tree
      modifies this
      ensures Valid() && used == SeeNew(old(used), max, p, mac)
    {
      hide Valid;
      AcquireMacEntry(p);
      InsertMac(p, mac);
    }

    method AddMacToPeer(p: PeerId, mac: Mac)
      requires Valid() && p in used
      modifies this
      ensures Valid() && used == SeeMac(old(used), max, p, mac)
    {
      hide Valid, MacsOk, NoDup, Without, SeeNew, Forgotten;
      TreeOwner(p, mac);
      if mac !in tree {
        AddNewMac(p, mac);
        return;
      }
      var owner := tree[mac];
      ReleaseMac(owner, mac);
      if owner == p {
        InsertMac(p, mac);
      } else {
        AddNewMac(p, mac);
      }
    }

    lemma TreeOwner(p: PeerId, mac: Mac)
      requires Valid() && p in used
      ensures mac in tree ==>
                var owner := tree[mac];
                && owner in used && (mac in used[p] <==> owner == p)
                && used[owner := Without(used[owner], mac)] == Forgotten(used, mac)
      ensures mac !in tree ==> mac !in used[p] && used == Forgotten(used, mac)
    {
      if mac in tree {
        Owned(used, max, tree[mac], mac);
      } else {
        NotOwned(used, mac);
      }
    }
  }

  /** The tree finds every used address, and only at the peer that has it. */
  ghost predicate TablesOk(free: map<PeerId, nat>, used: Macs, tree: map<Mac, PeerId>, max: nat) {
    && MacsOk(used, max)
    && free.Keys == used.Keys
    && (forall p :: p in used ==> free[p] + |used[p]| == max)
    && (forall p, m :: p in used && m in used[p] ==> m in tree && tree[m] == p)
    && (forall m :: m in tree ==> tree[m] in used && m in used[tree[m]])
  }

  lemma MacReleased(free: map<PeerId, nat>, used: Macs, tree: map<Mac, PeerId>, max: nat, owner: PeerId, mac: Mac)
    requires TablesOk(free, used, tree, max) && mac in tree && owner == tree[mac]
    ensures owner in free && owner in used && mac in used[owner]
    ensures TablesOk(free[owner := free[owner] + 1], used[owner := Without(used[owner], mac)], tree - {mac}, max)
  {
    hide NoDup, Without;
  }

  lemma MacPeerGone(free: map<PeerId, nat>, used: Macs, tree: map<Mac, PeerId>, max: nat, p: PeerId, left: map<Mac, PeerId>)
    requires TablesOk(free, used, tree, max) && p in used
    requires forall m :: m in left <==> m in tree && m !in used[p]
    requires forall m :: m in left ==> left[m] == tree[m]
    ensures TablesOk(free - {p}, used - {p}, left, max)
  {
    hide NoDup;
    assert forall m :: m in left ==> left[m] != p;
  }

  lemma MacInserted(free: map<PeerId, nat>, used: Macs, tree: map<Mac, PeerId>, max: nat, p: PeerId, mac: Mac)
    requires TablesOk(free, used, tree, max) && mac !in tree && p in used && p in free && free[p] > 0
    ensures TablesOk(free[p := free[p] - 1], used[p := used[p] + [mac]], tree[mac := p], max)
  {
    assert mac !in used[p];
    NoDupAppend(used[p], mac);
    hide NoDup;
  }

  lemma Owned(t: Macs, max: nat, owner: PeerId, m: Mac)
    requires MacsOk(t, max) && owner in t && m in t[owner]
    ensures t[owner := Without(t[owner], m)] == Forgotten(t, m)
    ensures forall q :: q in t && m in t[q] ==> q == owner
  {
    hide NoDup;
    assert forall q :: q in t && q != owner ==> m !in t[q];
  }

  lemma NotOwned(t: Macs, m: Mac)
    requires forall q :: q in t ==> m !in t[q]
    ensures t == Forgotten(t, m)
  {
  }
}
