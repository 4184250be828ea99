/** client/FrameDecider.c: where each frame goes, decided from the peers' MAC addresses and
    multicast groups. */
module FrameDecider {
  import opened Wrappers
  import opened Lists
  import opened FrameTables
  import opened SigIndex
  import opened MulticastIndex
  import opened MacTable
  import opened GroupTable

  /** The decide_state of the code with the reference that goes with it. The multicast
      iterator is the walk of the multicast index. */
  datatype Decide = Nobody | Unicast(peer: PeerId) | Flood(current: Option<PeerId>) | Multicast

  class FrameDecider {
    const macs: MacTable
    const groups: GroupTable
    var peersList: seq<PeerId>
    var decideState: Decide

    ghost predicate Valid()
      reads this, macs, groups, groups.multicast
    {
      && macs.Valid() && groups.Valid()
      && PeersAgree(peersList, macs.used, groups.used)
      && DecideOk(decideState, peersList)
    }

    /** The destinations NextDestination has yet to return. */
    function Pending(): seq<PeerId>
      reads this, groups.multicast
    {
      PendingOf(decideState, peersList, groups.multicast.Remaining())
    }

    constructor (maxPeerMacs: nat, maxPeerGroups: nat, membershipInterval: nat, lastMemberQueryTime: nat)
      requires 0 < maxPeerMacs && 0 < maxPeerGroups
      ensures Valid() && peersList == [] && Pending() == []
      ensures fresh(macs) && fresh(groups) && fresh(groups.multicast)
    {
      macs := new MacTable(maxPeerMacs);
      groups := new GroupTable(maxPeerGroups, membershipInterval, lastMemberQueryTime);
      peersList, decideState := [], Nobody;
    }

    method PeerInit(p: PeerId)
      requires Valid() && p !in peersList
      modifies this, macs, groups
      ensures Valid() && peersList == old(peersList) + [p]
      ensures macs.used == old(macs.used)[p := []] && groups.used == old(groups.used)[p := []]
      ensures groups.timers == old(groups.timers)
    {
      hide Valid, MacTable.Valid, GroupTable.Valid, NoDup, PeersAgree, DecideOk;
      Parts();
      PeerJoins(peersList, macs.used, groups.used, decideState, p);
      peersList := peersList + [p];
      macs.PeerInit(p);
      groups.PeerInit(p);
      Whole();
    }

    /** A peer may leave while a decision is drained: it is never returned after. */
    method PeerFree(p: PeerId)
      requires Valid() && p in peersList
      modifies this, macs, groups, groups.multicast
      ensures Valid() && peersList == Without(old(peersList), p)
      ensures macs.used == old(macs.used) - {p} && groups.used == old(groups.used) - {p}
      ensures forall m :: m in groups.timers ==> m in old(groups.timers) && groups.timers[m] == old(groups.timers)[m]
      ensures Pending() == Without(old(Pending()), p)
    {
      PeerLeaves(peersList, macs.used, groups.used, decideState, p);
      Parts();
      hide Valid, MacTable.Valid, GroupTable.Valid, PeersAgree, DecideOk, MulticastIndex.Remaining, NoDup;
      hide From, Without, PeersOf, PendingOf, AfterLeaving;
      ghost var left := groups.multicast.Remaining();
      FreeTables(p);
      PendingLeaves(peersList, decideState, p, left, groups.multicast.Remaining());
      Unlist(p);
      Whole();
    }

    /** Takes the peer out of the list, and the decision off the peer. */
    method Unlist(p: PeerId)
      modifies this`peersList, this`decideState
      ensures peersList == Without(old(peersList), p)
      ensures decideState == AfterLeaving(old(decideState), old(peersList), p)
    {
      hide NoDup, Without, From;
      if decideState == Unicast(p) {
        decideState := Nobody;
      }
      if decideState == Flood(Some(p)) {
        decideState := Flood(NextOf(peersList, p));
      }
      peersList := Without(peersList, p);
    }

    method FreeTables(p: PeerId)
      requires macs.Valid() && groups.Valid() && p in macs.used && p in groups.used
      modifies macs, groups, groups.multicast
      ensures macs.Valid() && groups.Valid()
      ensures macs.used == old(macs.used) - {p} && groups.used == old(groups.used) - {p}
      ensures forall m :: m in groups.timers ==> m in old(groups.timers) && groups.timers[m] == old(groups.timers)[m]
      ensures PeersOf(groups.multicast.Remaining()) == Without(PeersOf(old(groups.multicast.Remaining())), p)
    {
      hide MacTable.Valid, GroupTable.Valid, MulticastIndex.Remaining, Without, PeersOf;
      groups.PeerFree(p);
      macs.PeerFree(p);
    }

    lemma Parts()
      requires Valid()
      ensures macs.Valid() && groups.Valid() && NoDup(peersList) && 0 < groups.max && 0 < macs.max
      ensures PeersAgree(peersList, macs.used, groups.used) && DecideOk(decideState, peersList)
      ensures forall p :: p in peersList ==> p in macs.used && p in groups.used
    {
    }

    lemma Whole()
      requires macs.Valid() && groups.Valid()
      requires PeersAgree(peersList, macs.used, groups.used) && DecideOk(decideState, peersList)
      ensures Valid()
    {
    }

    /** A frame from the peer: its source address, and the groups its IGMP reports join. A
        reported group's membership runs for the whole interval from now; no other changes. */
    method Analyze(p: PeerId, source: Mac, joins: seq<Group>, now: int)
      requires Valid() && p in peersList
      modifies macs, groups, groups.multicast
      ensures Valid()
      ensures macs.used == SeeMac(old(macs.used), macs.max, p, source)
      ensures groups.used == JoinAll(old(groups.used), groups.max, p, joins)
      ensures forall m :: m in groups.timers ==>
                if m.peer == p && m.group in joins then groups.timers[m] == now + groups.membershipInterval
                else m in old(groups.timers) && groups.timers[m] == old(groups.timers)[m]
      ensures forall m :: m in groups.timers <==> InTable(groups.used, m)
    {
      Parts();
      SeeMacPeers(macs.used, macs.max, p, source);
      SamePeers(peersList, macs.used, groups.used, SeeMac(macs.used, macs.max, p, source),
                JoinAll(groups.used, groups.max, p, joins));
      hide Valid, MacTable.Valid, GroupTable.Valid, PeersAgree, SeeMac, JoinAll, DecideOk;
      macs.AddMacToPeer(p, source);
      groups.AddGroups(p, joins, now);
      groups.Timed();
      Whole();
    }

    /** group_entry_timer_handler: a membership not renewed in time ends. A multicast decision
        being drained loses just that member's turn, and any other decision nothing. */
    method GroupTimerHandler(m: Member)
      requires Valid() && m in groups.tree
      modifies groups, groups.multicast
      ensures Valid() && m.peer in old(groups.used)
      ensures groups.used == Leave(old(groups.used), m) && groups.timers == old(groups.timers) - {m}
      ensures Pending() == if decideState.Multicast? then PeersOf(Without(old(groups.multicast.Remaining()), m)) else old(Pending())
    {
      Parts();
      groups.Entry(m);
      LeavePeers(groups.used, m);
      hide Valid, MacTable.Valid, GroupTable.Valid, NoDup, Leave, Without, PeersOf, From, MulticastIndex.Remaining, DecideOk;
      groups.RemoveGroupEntry(m);
      Whole();
    }

    /** Decides where a frame from the local device goes. The previous decision must not be a
        multicast one still being drained. */
    method AnalyzeAndDecide(frame: Frame, now: int)
      requires Valid() && !decideState.Multicast?
      modifies this`decideState, groups`timers, groups.multicast
      ensures Valid() && Decision(peersList, macs.used, groups.used, frame, Pending())
      ensures groups.timers.Keys == old(groups.timers).Keys
      ensures forall m :: m in groups.timers ==>
                groups.timers[m] == Lowered(old(groups.timers)[m], frame.Ethernet? && frame.query == Some(m.group),
                                            now + groups.lastMemberQueryTime)
    {
      decideState := Nobody;
      if frame.Short? {
        return;
      }
      Query(frame.query, now);
      hide Valid, Decision, Pending;
      Decide(frame.dest, frame.igmp, frame.query);
    }

    method Query(query: Option<Group>, now: int)
      requires Valid()
      modifies groups`timers
      ensures Valid() && groups.timers.Keys == old(groups.timers).Keys
      ensures forall m :: m in groups.timers ==>
                groups.timers[m] == Lowered(old(groups.timers)[m], query == Some(m.group), now + groups.lastMemberQueryTime)
    {
      groups.Timed();
      hide GroupTable.Valid, MacTable.Valid, PeersAgree, DecideOk;
      if query.Some? {
        groups.LowerGroupTimersToLmqt(query.value, now);
        groups.Timed();
      }
    }

    method Decide(dest: Mac, igmp: bool, ghost query: Option<Group>)
      requires Valid() && decideState == Nobody
      modifies this`decideState, groups.multicast
      ensures Valid() && Decision(peersList, macs.used, groups.used, Ethernet(dest, igmp, query), Pending())
    {
      hide Valid, Pending;
      assert dest == BROADCAST <==> forall i :: 0 <= i < 6 ==> dest[i] == 0xff;
      if igmp || dest == BROADCAST {
        StartFlood();
        return;
      }
      if IsMulticast(dest) {
        StartMulticast(MacSig(dest));
        return;
      }
      FindOwner(dest);
    }

    method FindOwner(dest: Mac)
      requires Valid()
      modifies this`decideState
      ensures Valid()
      ensures if exists p :: p in macs.used && dest in macs.used[p] then
                exists p :: p in macs.used && dest in macs.used[p] && Pending() == [p]
              else Pending() == peersList
    {
      Owner(dest);
      hide MacTable.Valid, GroupTable.Valid, NoDup;
      if dest in macs.tree {
        decideState := Unicast(macs.tree[dest]);
        return;
      }
      StartFlood();
    }

    lemma Owner(dest: Mac)
      requires Valid()
      ensures if dest in macs.tree then
                && macs.tree[dest] in macs.used && dest in macs.used[macs.tree[dest]] && macs.tree[dest] in peersList
              else forall p :: p in macs.used ==> dest !in macs.used[p]
    {
      hide GroupTable.Valid, NoDup, MacsOk;
    }

    method StartFlood()
      requires Valid()
      modifies this`decideState
      ensures Valid() && Pending() == peersList
    {
      hide MacTable.Valid, GroupTable.Valid, NoDup;
      decideState := Flood(if peersList == [] then None else Some(peersList[0]));
    }

    method StartMulticast(sig: Sig)
      requires Valid() && decideState == Nobody
      modifies this`decideState, groups.multicast
      ensures Valid()
      ensures exists ms :: MembersOf(groups.used, sig, ms) && Pending() == PeersOf(ms)
    {
      var found := groups.multicast.StartWalk(sig);
      ghost var ms := if found then groups.multicast.Remaining() else [];
      groups.MembersAreUsed(sig, ms);
      assert PeersOf([]) == [];
      hide MacTable.Valid, GroupTable.Valid, MulticastIndex.Remaining;
      if found {
        decideState := Multicast;
      }
    }

    method NextDestination() returns (next: Option<PeerId>)
      requires Valid()
      modifies this`decideState, groups.multicast`walk
      ensures Valid()
      ensures if old(Pending()) == [] then next.None? && decideState == Nobody && Pending() == []
              else next == Some(old(Pending())[0]) && Pending() == old(Pending())[1..]
    {
      hide MacTable.Valid, GroupTable.Valid, NoDup, From, PeersOf, MulticastIndex.Remaining;
      match decideState {
        case Nobody =>
          next := None;
        case Unicast(p) =>
          decideState := Nobody;
          next := Some(p);
        case Flood(current) =>
          if current.None? {
            decideState := Nobody;
            return None;
          }
          FromNextOf(peersList, current.value);
          next := current;
          decideState := Flood(NextOf(peersList, current.value));
        case Multicast =>
          PeersTail(groups.multicast.Remaining());
          var m := groups.NextMember();
          if m.None? {
            decideState := Nobody;
            return None;
          }
          next := Some(m.value.peer);
      }
    }

    /** The client's whole handling of a frame from the local device: every destination is
        routed, and told whether more will follow. */
    method Forward(frame: Frame, now: int) returns (routes: seq<Route>)
      requires Valid() && !decideState.Multicast?
      modifies this`decideState, groups`timers, groups.multicast
      ensures Valid() && decideState == Nobody
      ensures exists dests :: Decision(peersList, macs.used, groups.used, frame, dests) && RoutesTo(routes, dests)
    {
      hide Valid, Pending, Decision, Draining;
      AnalyzeAndDecide(frame, now);
      ghost var dests := Pending();
      routes := [];
      var current := NextDestination();
      DrainStart(dests, current, Pending());
      while current.Some?
        invariant Valid() && (current.None? ==> decideState == Nobody)
        invariant Draining(routes, dests, current, Pending())
        decreases if current.Some? then 1 + |Pending()| else 0
      {
        ghost var left := Pending();
        var next := NextDestination();
        DrainStep(routes, dests, current.value, left, next);
        routes := routes + [Route(current.value, next.Some?)];
        current := next;
      }
      DrainEnd(routes, dests, Pending());
    }
  }

  lemma PeerJoins(peers: seq<PeerId>, macs: Macs, groups: Groups, d: Decide, p: PeerId)
    requires PeersAgree(peers, macs, groups) && DecideOk(d, peers) && p !in peers
    ensures p !in macs && p !in groups
    ensures PeersAgree(peers + [p], macs[p := []], groups[p := []]) && DecideOk(d, peers + [p])
  {
    NoDupAppend(peers, p);
    hide NoDup;
  }

  lemma LeavePeers(used: Groups, m: Member)
    requires m.peer in used
    ensures Leave(used, m).Keys == used.Keys
  {
  }

  datatype Route = Route(peer: PeerId, more: bool)

  predicate RoutesTo(routes: seq<Route>, dests: seq<PeerId>) {
    && |routes| == |dests|
    && forall i :: 0 <= i < |routes| ==> routes[i] == Route(dests[i], i < |dests| - 1)
  }

  /** What was routed, what comes next and what is left. */
  ghost predicate Draining(routes: seq<Route>, dests: seq<PeerId>, current: Option<PeerId>, left: seq<PeerId>) {
    && |routes| <= |dests|
    && (forall i :: 0 <= i < |routes| ==> routes[i] == Route(dests[i], i < |dests| - 1))
    && (if current.None? then |routes| == |dests| else dests[|routes|..] == [current.value] + left)
  }

  lemma DrainStart(dests: seq<PeerId>, current: Option<PeerId>, left: seq<PeerId>)
    requires if dests == [] then current.None? else current == Some(dests[0]) && left == dests[1..]
    ensures Draining([], dests, current, left)
  {
  }

  lemma DrainStep(routes: seq<Route>, dests: seq<PeerId>, p: PeerId, left: seq<PeerId>, next: Option<PeerId>)
    requires Draining(routes, dests, Some(p), left)
    requires if left == [] then next.None? else next == Some(left[0])
    ensures Draining(routes + [Route(p, next.Some?)], dests, next, if left == [] then [] else left[1..])
  {
    var n := |routes|;
    assert dests[n..][0] == p && dests[n + 1..] == dests[n..][1..] == left;
  }

  lemma DrainEnd(routes: seq<Route>, dests: seq<PeerId>, left: seq<PeerId>)
    requires Draining(routes, dests, None, left)
    ensures RoutesTo(routes, dests)
  {
  }

  /** The list of peers, and both tables, are of the same peers. */
  ghost predicate PeersAgree(peers: seq<PeerId>, macs: Macs, groups: Groups) {
    NoDup(peers) && forall p :: (p in peers <==> p in macs) && (p in peers <==> p in groups)
  }

  lemma SamePeers(peers: seq<PeerId>, macs: Macs, groups: Groups, macs': Macs, groups': Groups)
    requires PeersAgree(peers, macs, groups) && macs'.Keys == macs.Keys && groups'.Keys == groups.Keys
    ensures PeersAgree(peers, macs', groups')
  {
    hide NoDup;
  }

  ghost predicate DecideOk(d: Decide, peers: seq<PeerId>) {
    && (d.Unicast? ==> d.peer in peers)
    && (d.Flood? && d.current.Some? ==> d.current.value in peers)
  }

  function PendingOf(d: Decide, peers: seq<PeerId>, left: seq<Member>): seq<PeerId> {
    match d
    case Nobody => []
    case Unicast(p) => [p]
    case Flood(current) => if current.None? then [] else From(peers, current.value)
    case Multicast => PeersOf(left)
  }

  function NextOf(peers: seq<PeerId>, p: PeerId): Option<PeerId> {
    var rest := From(peers, p);
    if |rest| > 1 then Some(rest[1]) else None
  }

  lemma FromNextOf(peers: seq<PeerId>, p: PeerId)
    requires NoDup(peers) && p in peers
    ensures var next := NextOf(peers, p);
            && From(peers, p) == [p] + (if next.None? then [] else From(peers, next.value))
            && (next.Some? ==> next.value in peers)
  {
    FromTail(peers, p);
    var rest := From(peers, p);
    hide From;
    if |rest| > 1 { assert rest[1] in rest; }
  }

  lemma PeersTail(ms: seq<Member>)
    ensures ms == [] ==> PeersOf(ms) == []
    ensures ms != [] ==> PeersOf(ms) == [ms[0].peer] + PeersOf(ms[1..])
  {
  }

  /** The decision when `p` leaves the list of peers. */
  function AfterLeaving(d: Decide, peers: seq<PeerId>, p: PeerId): Decide {
    if d == Unicast(p) then Nobody
    else if d == Flood(Some(p)) then Flood(NextOf(peers, p))
    else d
  }

  lemma PeerLeaves(peers: seq<PeerId>, macs: Macs, groups: Groups, d: Decide, p: PeerId)
    requires PeersAgree(peers, macs, groups) && DecideOk(d, peers) && p in peers
    ensures PeersAgree(Without(peers, p), macs - {p}, groups - {p})
    ensures DecideOk(AfterLeaving(d, peers, p), Without(peers, p))
  {
    hide Without, From, NextOf;
    AgreeLeaves(peers, macs, groups, p);
    NextStays(peers, p);
  }

  lemma AgreeLeaves(peers: seq<PeerId>, macs: Macs, groups: Groups, p: PeerId)
    requires PeersAgree(peers, macs, groups)
    ensures PeersAgree(Without(peers, p), macs - {p}, groups - {p})
  {
    hide NoDup, Without;
  }

  lemma NextStays(peers: seq<PeerId>, p: PeerId)
    requires NoDup(peers) && p in peers
    ensures var next := NextOf(peers, p); next.Some? ==> next.value in peers && next.value != p
  {
    hide Without, From;
    FromTail(peers, p);
    var rest := From(peers, p);
    if |rest| > 1 { assert rest[1] in rest && rest[1] != rest[0]; }
  }

  lemma PendingLeaves(peers: seq<PeerId>, d: Decide, p: PeerId, left: seq<Member>, now: seq<Member>)
    requires NoDup(peers) && DecideOk(d, peers) && p in peers
    requires PeersOf(now) == Without(PeersOf(left), p)
    ensures PendingOf(AfterLeaving(d, peers, p), Without(peers, p), now) == Without(PendingOf(d, peers, left), p)
  {
    if d == Flood(Some(p)) {
      FromTail(peers, p);
      FromNext(peers, p);
    } else if d.Flood? && d.current.Some? {
      FromWithout(peers, d.current.value, p);
    }
  }

  lemma SeeMacPeers(t: Macs, max: nat, p: PeerId, m: Mac)
    requires p in t && 0 < max
    ensures SeeMac(t, max, p, m).Keys == t.Keys
  {
  }
}
