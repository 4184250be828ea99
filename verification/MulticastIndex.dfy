/** The multicast tree and signature lists of client/FrameDecider.c, with the one iterator
    that may be walking a list. */
module MulticastIndex {
  import opened Wrappers
  import opened Lists
  import opened FrameTables
  import opened SigIndex

  /** A walk over the list of `sig`, at a member or at its end. */
  datatype Walk = Walk(sig: Sig, at: Option<Member>)

  class MulticastIndex {
    var tree: Tree
    var lists: SigLists
    var masters: set<Member>
    var walk: Walk

    ghost var members: set<Member>

    ghost predicate Valid()
      reads this
    {
      && Indexes(tree, lists, masters, members)
      && (walk.at.Some? ==> walk.sig in lists && walk.at.value in lists[walk.sig])
    }

    /** What the walk has left. */
    function Remaining(): seq<Member>
      reads this
    {
      if walk.at.Some? && walk.sig in lists then From(lists[walk.sig], walk.at.value) else []
    }

    constructor ()
      ensures Valid() && members == {} && Remaining() == []
    {
      tree, lists, masters, members := map[], map[], {}, {};
      walk := Walk(0, None);
    }

    /** add_to_multicast: behind the master of its signature, or as its first master. */
    method Add(m: Member)
      requires Valid() && m !in members
      modifies this
      ensures Valid() && members == old(members) + {m} && walk == old(walk)
    {
      hide Indexes, InsertAfter;
      var sig := SigOf(m);
      if sig in tree {
        var master := tree[sig];
        TreeMaster(sig);
        var k :| 0 <= k < |lists[sig]| && lists[sig][k] == master;
        AddBehind(tree, lists, masters, members, m, k);
        lists := lists[sig := InsertAfter(lists[sig], k, m)];
      } else {
        TreeKeys();
        AddLonely(tree, lists, masters, members, m);
        masters := masters + {m};
        tree := tree[sig := m];
        lists := lists[sig := [m]];
      }
      members := members + {m};
    }

    lemma TreeKeys()
      requires Indexes(tree, lists, masters, members)
      ensures tree.Keys == lists.Keys
    {
    }

    lemma TreeMaster(sig: Sig)
      requires Indexes(tree, lists, masters, members) && sig in tree
      ensures sig in lists && tree[sig] in lists[sig]
    {
    }

    /** LinkedList3Node_Free: a walk at the node jumps to the next, and the node goes. */
    method Unlink(sig: Sig, m: Member)
      requires sig in lists && m in lists[sig]
      requires walk.at.Some? ==> walk.sig in lists && walk.at.value in lists[walk.sig]
      requires forall s :: s in lists ==> NoDup(lists[s]) && (m in lists[s] ==> s == sig)
      modifies this`lists, this`walk
      ensures lists == ListsWithout(old(lists), sig, m)
      ensures walk.at.Some? ==> walk.sig in lists && walk.at.value in lists[walk.sig]
      ensures Remaining() == Without(old(Remaining()), m) && walk.sig == old(walk.sig)
    {
      var list := lists[sig];
      if walk.sig == sig && walk.at.Some? {
        var left := From(list, walk.at.value);
        FromTail(list, walk.at.value);
        if walk.at.value == m {
          FromNext(list, m);
          walk := Walk(sig, if |left| > 1 then Some(left[1]) else None);
        } else {
          FromWithout(list, walk.at.value, m);
        }
      } else if walk.at.Some? {
        FromTail(lists[walk.sig], walk.at.value);
      }
      if list == [m] {
        lists := lists - {sig};
      } else {
        lists := lists[sig := Without(list, m)];
      }
    }

    /** Takes a master out of the tree and puts a neighbour of its list there, if it has one. */
    method Demote(sig: Sig, m: Member)
      requires sig == SigOf(m) && sig in lists && m in lists[sig] && m in masters
      modifies this`tree, this`masters
      ensures tree == TreeWithout(old(tree), lists[sig], old(masters), m)
      ensures masters == MastersWithout(lists[sig], old(masters), m)
    {
      hide Heir;
      tree := tree - {sig};
      masters := masters - {m};
      var heir := Heir(lists[sig], m);
      if heir.Some? {
        masters := masters + {heir.value};
        tree := tree[sig := heir.value];
      }
    }

    /** remove_from_multicast. */
    method Remove(m: Member)
      requires Valid() && m in members
      modifies this
      ensures Valid() && members == old(members) - {m}
      ensures Remaining() == Without(old(Remaining()), m) && walk.sig == old(walk.sig)
    {
      RemoveKeeps(tree, lists, masters, members, m);
      hide Indexes, Heir, NoDup, Without;
      var sig := SigOf(m);
      if m in masters {
        Demote(sig, m);
      }
      hide TreeWithout, MastersWithout, ListsWithout;
      Unlink(sig, m);
      members := members - {m};
    }

    /** Starts a walk over the members with a signature, if there are any. */
    method StartWalk(sig: Sig) returns (found: bool)
      requires Valid()
      modifies this
      ensures Valid() && members == old(members) && lists == old(lists)
      ensures MembersWith(sig, if found then Remaining() else [])
    {
      found := sig in tree;
      TreeKeys();
      if found {
        TreeMaster(sig);
        walk := Walk(sig, Some(lists[sig][0]));
        assert lists[sig][0] in lists[sig];
      }
    }

    /** Exactly the members with the signature, once each. */
    ghost predicate MembersWith(sig: Sig, ms: seq<Member>)
      reads this
    {
      NoDup(ms) && forall m :: m in ms <==> m in members && SigOf(m) == sig
    }

    method Next() returns (m: Option<Member>)
      requires Valid()
      modifies this`walk
      ensures Valid()
      ensures if old(Remaining()) == [] then m.None? && Remaining() == []
              else m == Some(old(Remaining())[0]) && Remaining() == old(Remaining())[1..]
    {
      m := walk.at;
      if walk.at.Some? {
        var left := From(lists[walk.sig], walk.at.value);
        FromTail(lists[walk.sig], walk.at.value);
        hide Indexes;
        walk := Walk(walk.sig, if |left| > 1 then Some(left[1]) else None);
      }
    }
  }
}
