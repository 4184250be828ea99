/** The peers' multicast groups in client/FrameDecider.c: each peer's lists of free and used
    entries with their timers, kept in step with the multicast index. A used entry is named
    by its peer and group. */
module GroupTable {
  import opened Wrappers
  import opened Lists
  import opened FrameTables
  import opened SigIndex
  import opened MulticastIndex

  function Lowered(time: int, affected: bool, limit: int): int {
    if affected && time > limit then limit else time
  }

  /** An affected timer goes off no later than the limit; no timer is put off. */
  lemma LoweredIs(time: int, affected: bool, limit: int)
    ensures var r := Lowered(time, affected, limit);
            r <= time && (r == time || r == limit) && if affected then r <= limit else r == time
  {
  }

  class GroupTable {
    const max: nat
    const membershipInterval: nat
    const lastMemberQueryTime: nat
    const multicast: MulticastIndex
    var free: map<PeerId, nat>
    var used: Groups
    var tree: set<Member>
    var timers: map<Member, int>

    /** The trees, the timers and the multicast index all hold exactly the used entries. */
    ghost predicate Valid()
      reads this, multicast
    {
      && 0 < max && GroupTables(free, used, tree, max) && timers.Keys == tree
      && multicast.Valid() && multicast.members == tree
    }

    constructor (max: nat, membershipInterval: nat, lastMemberQueryTime: nat)
      requires 0 < max
      ensures Valid() && used == map[] && this.max == max && fresh(multicast) && multicast.Remaining() == []
      ensures this.membershipInterval == membershipInterval && this.lastMemberQueryTime == lastMemberQueryTime
    {
      this.max, this.membershipInterval, this.lastMemberQueryTime := max, membershipInterval, lastMemberQueryTime;
      multicast := new MulticastIndex();
      free, used, tree, timers := map[], map[], {}, map[];
    }

    method RemoveGroupEntry(m: Member)
      requires Valid() && m in tree
      modifies this, multicast
      ensures Valid() && m.peer in old(used) && used == Leave(old(used), m) && timers == old(timers) - {m}
      ensures free.Keys == old(free).Keys && free[m.peer] > 0
      ensures multicast.Remaining() == Without(old(multicast.Remaining()), m)
    {
      hide GroupTables, Without, MulticastIndex.Valid;
      LeaveKeeps(free, used, tree, max, m);
      Entry(m);
      multicast.Remove(m);
      tree := tree - {m};
      used := used[m.peer := Without(used[m.peer], m.group)];
      free := free[m.peer := free[m.peer] + 1];
      timers := timers - {m};
    }

    lemma Entry(m: Member)
      requires Valid() && (m in tree || m.peer in used)
      ensures m.peer in used && m.peer in free && free.Keys == used.Keys
      ensures free[m.peer] + |used[m.peer]| == max
      ensures m in tree <==> m.group in used[m.peer]
    {
    }

    /** A new entry, for which there is room. */
    method InsertEntry(m: Member, endTime: int)
      requires Valid() && m !in tree && m.peer in used && m.peer in free && free[m.peer] > 0
      modifies this, multicast
      ensures Valid() && used == old(used)[m.peer := old(used)[m.peer] + [m.group]]
      ensures timers == old(timers)[m := endTime]
    {
      hide GroupTables, MulticastIndex.Valid;
      InsertKeeps(free, used, tree, max, m);
      multicast.Add(m);
      free := free[m.peer := free[m.peer] - 1];
      used := used[m.peer := used[m.peer] + [m.group]];
      tree := tree + {m};
      timers := timers[m := endTime];
    }

    /** Moves the entry behind the peer's other groups. */
    method TouchEntry(m: Member, endTime: int)
      requires Valid() && m in tree
      modifies this
      ensures Valid() && m.peer in old(used)
      ensures used == old(used)[m.peer := Without(old(used)[m.peer], m.group) + [m.group]]
      ensures timers == old(timers)[m := endTime]
    {
      hide GroupTables, Without, MulticastIndex.Valid;
      TouchKeeps(free, used, tree, max, m);
      Entry(m);
      used := used[m.peer := Without(used[m.peer], m.group) + [m.group]];
      timers := timers[m := endTime];
    }

    /** A free entry for the peer: if there is none, its earliest used one. */
    method MakeRoom(p: PeerId)
      requires Valid() && p in used
      modifies this, multicast
      ensures Valid() && free.Keys == old(free).Keys && p in free && free[p] > 0
      ensures used == old(used)[p := if |old(used)[p]| >= max then old(used)[p][1..] else old(used)[p]]
      ensures forall m :: m in timers ==> m in old(timers) && timers[m] == old(timers)[m]
    {
      hide Valid, Without, NoDup;
      RoomFacts(p);
      if free[p] == 0 {
        var oldest := used[p][0];
        OldestEntry(p);
        RemoveGroupEntry(Member(p, oldest));
      }
    }

    lemma RoomFacts(p: PeerId)
      requires Valid() && p in used
      ensures p in free && free.Keys == used.Keys && free[p] + |used[p]| == max && 0 < max
    {
    }

    /** Puts the peer in the group and starts the entry's timer. */
    method AddGroupToPeer(p: PeerId, group: Group, now: int)
      requires Valid() && p in used
      modifies this, multicast
      ensures Valid() && used == Join(old(used), max, p, group)
      ensures Member(p, group) in timers && timers[Member(p, group)] == now + membershipInterval
      ensures forall m :: m in timers && m != Member(p, group) ==> m in old(timers) && timers[m] == old(timers)[m]
    {
      hide Valid, Without, NoDup;
      var m := Member(p, group);
      Entry(m);
      if m in tree {
        TouchEntry(m, now + membershipInterval);
        return;
      }
      Timed();
      MakeRoom(p);
      Timed();
      InsertEntry(m, now + membershipInterval);
    }

    method AddGroups(p: PeerId, joins: seq<Group>, now: int)
      requires Valid() && p in used
      modifies this, multicast
      ensures Valid() && used == JoinAll(old(used), max, p, joins)
      ensures forall m :: m in timers ==>
                if m.peer == p && m.group in joins then timers[m] == now + membershipInterval
                else m in old(timers) && timers[m] == old(timers)[m]
    {
      hide Valid, Join, InTable;
      RoomFacts(p);
      for i := 0 to |joins|
        invariant Valid() && used == JoinAll(old(used), max, p, joins[..i])
        invariant forall m :: m in timers ==>
                    if m.peer == p && m.group in joins[..i] then timers[m] == now + membershipInterval
                    else m in old(timers) && timers[m] == old(timers)[m]
      {
        assert joins[..i + 1][..i] == joins[..i] && joins[..i + 1] == joins[..i] + [joins[i]];
        AddGroupToPeer(p, joins[i], now);
      }
      assert joins[..|joins|] == joins;
    }

    lemma OldestEntry(p: PeerId)
      requires Valid() && p in used && used[p] != []
      ensures Member(p, used[p][0]) in tree
      ensures Leave(used, Member(p, used[p][0])) == used[p := used[p][1..]]
    {
      WithoutHead(used[p]);
    }

    /** Lowers the timers of all members of the group to the last member query time. */
    method LowerGroupTimersToLmqt(group: Group, now: int)
      requires Valid()
      modifies this`timers
      ensures Valid()
      ensures forall m :: m in tree ==> timers[m] == Lowered(old(timers)[m], m.group == group, now + lastMemberQueryTime)
    {
      hide GroupTables, MulticastIndex.Valid, GroupSig;
      var sig := GroupSig(group);
      SigMembers(group);
      if sig !in multicast.tree {
        return;
      }
      var list := multicast.lists[sig];
      for i := 0 to |list|
        invariant timers.Keys == old(timers).Keys
        invariant forall m :: m in tree ==>
                    timers[m] == Lowered(old(timers)[m], m in list[..i] && m.group == group, now + lastMemberQueryTime)
      {
        var m := list[i];
        assert list[..i + 1] == list[..i] + [m];
        if m.group == group && timers[m] > now + lastMemberQueryTime {
          timers := timers[m := now + lastMemberQueryTime];
        }
      }
      assert list[..|list|] == list;
    }

    /** The signature's list holds every member of the group. */
    lemma SigMembers(group: Group)
      requires Valid()
      ensures timers.Keys == tree
      ensures var sig := GroupSig(group);
              if sig !in multicast.tree then forall m :: m in tree ==> m.group != group
              else
                && sig in multicast.lists
                && (forall m :: m in multicast.lists[sig] ==> m in tree)
                && (forall m :: m in tree && m.group == group ==> m in multicast.lists[sig])
    {
    }

    lemma Timed()
      requires Valid()
      ensures timers.Keys == tree
      ensures forall m :: m in timers <==> InTable(used, m)
    {
    }

    /** The next member of the walk under way. */
    method NextMember() returns (m: Option<Member>)
      requires Valid()
      modifies multicast`walk
      ensures Valid()
      ensures if old(multicast.Remaining()) == [] then m.None? && multicast.Remaining() == []
              else m == Some(old(multicast.Remaining())[0]) && multicast.Remaining() == old(multicast.Remaining())[1..]
    {
      hide GroupTables, MulticastIndex.Valid, MulticastIndex.Remaining;
      m := multicast.Next();
    }

    lemma MembersAreUsed(sig: Sig, ms: seq<Member>)
      requires Valid() && multicast.MembersWith(sig, ms)
      ensures MembersOf(used, sig, ms)
    {
      hide NoDup, GroupsOk, MulticastIndex.Valid;
    }

    method PeerInit(p: PeerId)
      requires Valid() && p !in used
      modifies this
      ensures Valid() && used == old(used)[p := []] && timers == old(timers)
    {
      free := free[p := max];
      used := used[p := []];
    }

    /** Takes all the peer's groups out of the index, promoting others where needed. */
    method PeerFree(p: PeerId)
      requires Valid() && p in used
      modifies this, multicast
      ensures Valid() && used == old(used) - {p}
      ensures forall m :: m in timers <==> m in old(timers) && m.peer != p
      ensures forall m :: m in timers ==> timers[m] == old(timers)[m]
      ensures forall m :: m in multicast.Remaining() ==> m.peer != p
      ensures PeersOf(multicast.Remaining()) == Without(PeersOf(old(multicast.Remaining())), p)
    {
      hide Valid;
      while used[p] != []
        invariant Valid() && p in used && used - {p} == old(used) - {p}
        invariant forall m :: m in timers ==> m in old(timers) && timers[m] == old(timers)[m]
        invariant forall m :: m in old(timers) && m.peer != p ==> m in timers
        invariant Without(PeersOf(multicast.Remaining()), p) == Without(PeersOf(old(multicast.Remaining())), p)
        decreases |used[p]|
      {
        OldestEntry(p);
        var m := Member(p, used[p][0]);
        PeersWithout(multicast.Remaining(), m);
        RemoveGroupEntry(m);
      }
      GonePeer(p);
      DropPeer(p);
    }

    method DropPeer(p: PeerId)
      requires Valid() && p in used && used[p] == []
      modifies this`used, this`free
      ensures Valid() && used == old(used) - {p}
    {
      hide NoDup;
      used := used - {p};
      free := free - {p};
    }

    lemma GonePeer(p: PeerId)
      requires Valid() && p in used && used[p] == []
      ensures forall m :: m in tree ==> m.peer != p
      ensures timers.Keys == tree
      ensures forall m :: m in multicast.Remaining() ==> m.peer != p
      ensures PeersOf(multicast.Remaining()) == Without(PeersOf(multicast.Remaining()), p)
    {
      hide Without, NoDup, From, GroupsOk;
      var walk := multicast.walk;
      if walk.at.Some? { FromTail(multicast.lists[walk.sig], walk.at.value); }
      var left := multicast.Remaining();
      assert forall m :: m in left ==> m in tree;
      NoPeer(left, p);
    }
  }

  lemma NoPeer(ms: seq<Member>, p: PeerId)
    requires forall m :: m in ms ==> m.peer != p
    ensures p !in PeersOf(ms)
  {
    forall q | q in PeersOf(ms) ensures q != p {
      var i :| 0 <= i < |ms| && PeersOf(ms)[i] == q;
      assert ms[i] in ms;
    }
  }

  lemma {:induction false} PeersWithout(ms: seq<Member>, m: Member)
    ensures Without(PeersOf(Without(ms, m)), m.peer) == Without(PeersOf(ms), m.peer)
  {
    hide NoDup;
    if ms != [] {
      PeersWithout(ms[1..], m);
      PeersHead(ms);
      if ms[0] != m { PeersHead([ms[0]] + Without(ms[1..], m)); }
    }
  }

  lemma PeersHead(ms: seq<Member>)
    requires ms != []
    ensures PeersOf(ms) == [ms[0].peer] + PeersOf(ms[1..]) && PeersOf(ms)[1..] == PeersOf(ms[1..])
  {
  }
}
