/** The link and relay bookkeeping of client/client.c as values: each peer's flags, and the
    lists of relays, of their users and of peers waiting for a relay. */
module RelayLinks {
  import opened Wrappers
  import opened Lists

  type PeerId = nat

  datatype Peer = Peer(haveLink: bool, relaying: Option<PeerId>, waiting: bool, isRelay: bool, relayServer: bool)

  datatype Links = Links(peers: map<PeerId, Peer>, relays: seq<PeerId>, users: map<PeerId, seq<PeerId>>, waiting: seq<PeerId>)

  // ----- the invariant

  /** A peer has a link, or uses a relay, or waits for one, and only one of these; only a peer
      with a link is a relay; and the lists say what the flags say. */
  predicate PeerOk(l: Links, p: PeerId)
    requires p in l.peers
  {
    var q := l.peers[p];
    && !(q.haveLink && q.relaying.Some?) && !(q.haveLink && q.waiting) && !(q.relaying.Some? && q.waiting)
    && (q.isRelay ==> q.haveLink)
    && (q.isRelay <==> p in l.relays) && (q.isRelay <==> p in l.users)
    && (q.waiting <==> p in l.waiting)
    && (q.relaying.Some? ==> q.relaying.value in l.users && p in l.users[q.relaying.value])
  }

  ghost predicate UsersOk(l: Links, r: PeerId)
    requires r in l.users
  {
    r in l.peers && NoDup(l.users[r]) && forall u :: u in l.users[r] ==> u in l.peers && l.peers[u].relaying == Some(r)
  }

  ghost predicate Core(l: Links) {
    && NoDup(l.relays) && NoDup(l.waiting)
    && (forall p :: p in l.relays ==> p in l.peers) && (forall p :: p in l.waiting ==> p in l.peers)
    && (forall p :: p in l.peers ==> PeerOk(l, p))
    && (forall r :: r in l.users ==> UsersOk(l, r))
  }

  /** No peer waits while there is a relay. */
  predicate Settled(l: Links) {
    l.relays == [] || l.waiting == []
  }

  predicate Unconnected(l: Links, p: PeerId)
    requires p in l.peers
  {
    !l.peers[p].haveLink && l.peers[p].relaying.None? && !l.peers[p].waiting && !l.peers[p].isRelay
  }

  // ----- the steps

  function With(l: Links, p: PeerId, q: Peer): Links {
    l.(peers := l.peers[p := q])
  }

  function Linked(l: Links, p: PeerId, on: bool): Links
    requires p in l.peers
  {
    With(l, p, l.peers[p].(haveLink := on))
  }

  function Installed(l: Links, p: PeerId, r: PeerId): Links
    requires p in l.peers && r in l.users
  {
    With(l, p, l.peers[p].(relaying := Some(r))).(users := l.users[r := l.users[r] + [p]])
  }

  function Uninstalled(l: Links, p: PeerId): Links
    requires p in l.peers && l.peers[p].relaying.Some? && l.peers[p].relaying.value in l.users
  {
    var r := l.peers[p].relaying.value;
    With(l, p, l.peers[p].(relaying := None)).(users := l.users[r := Without(l.users[r], p)])
  }

  function Registered(l: Links, p: PeerId): Links
    requires p in l.peers
  {
    With(l, p, l.peers[p].(waiting := true)).(waiting := l.waiting + [p])
  }

  function Unregistered(l: Links, p: PeerId): Links
    requires p in l.peers
  {
    With(l, p, l.peers[p].(waiting := false)).(waiting := Without(l.waiting, p))
  }

  function Enabled(l: Links, p: PeerId): Links
    requires p in l.peers
  {
    With(l, p, l.peers[p].(isRelay := true)).(relays := l.relays + [p], users := l.users[p := []])
  }

  function Disabled(l: Links, p: PeerId): Links
    requires p in l.peers
  {
    With(l, p, l.peers[p].(isRelay := false)).(relays := Without(l.relays, p), users := l.users - {p})
  }

  lemma LinkedKeeps(l: Links, p: PeerId, on: bool)
    requires Core(l) && p in l.peers && !l.peers[p].isRelay
    requires on ==> Unconnected(l, p)
    ensures Core(Linked(l, p, on))
  {
    hide NoDup;
    var m := Linked(l, p, on);
    forall q | q in m.peers ensures PeerOk(m, q) { assert PeerOk(l, q); }
    forall r | r in m.users ensures UsersOk(m, r) { assert UsersOk(l, r); }
  }

  lemma InstalledKeeps(l: Links, p: PeerId, r: PeerId)
    requires Core(l) && p in l.peers && r in l.users && Unconnected(l, p)
    ensures Core(Installed(l, p, r)) && r in l.peers && l.peers[r].isRelay && r != p
  {
    hide NoDup;
    var m := Installed(l, p, r);
    assert UsersOk(l, r) && PeerOk(l, r);
    NoDupAppend(l.users[r], p);
    forall q | q in m.peers ensures PeerOk(m, q) { assert PeerOk(l, q); }
    forall s | s in m.users ensures UsersOk(m, s) { assert UsersOk(l, s); }
  }

  lemma UninstalledKeeps(l: Links, p: PeerId)
    requires Core(l) && p in l.peers && l.peers[p].relaying.Some?
    ensures l.peers[p].relaying.value in l.users && p in l.users[l.peers[p].relaying.value]
    ensures Core(Uninstalled(l, p)) && Unconnected(Uninstalled(l, p), p)
  {
    hide NoDup, Without;
    assert PeerOk(l, p);
    var m := Uninstalled(l, p);
    forall q | q in m.peers ensures PeerOk(m, q) { assert PeerOk(l, q); }
    forall s | s in m.users ensures UsersOk(m, s) { assert UsersOk(l, s); }
  }

  lemma RegisteredKeeps(l: Links, p: PeerId)
    requires Core(l) && p in l.peers && Unconnected(l, p)
    ensures Core(Registered(l, p))
  {
    hide NoDup;
    var m := Registered(l, p);
    assert PeerOk(l, p);
    NoDupAppend(l.waiting, p);
    forall q | q in m.peers ensures PeerOk(m, q) { assert PeerOk(l, q); }
    forall s | s in m.users ensures UsersOk(m, s) { assert UsersOk(l, s); }
  }

  lemma UnregisteredKeeps(l: Links, p: PeerId)
    requires Core(l) && p in l.peers && l.peers[p].waiting
    ensures Core(Unregistered(l, p)) && Unconnected(Unregistered(l, p), p) && p in l.waiting
  {
    hide NoDup, Without;
    assert PeerOk(l, p);
    var m := Unregistered(l, p);
    forall q | q in m.peers ensures PeerOk(m, q) { assert PeerOk(l, q); }
    forall s | s in m.users ensures UsersOk(m, s) { assert UsersOk(l, s); }
  }

  lemma EnabledKeeps(l: Links, p: PeerId)
    requires Core(l) && p in l.peers && l.peers[p].haveLink && !l.peers[p].isRelay
    ensures Core(Enabled(l, p))
  {
    hide NoDup;
    var m := Enabled(l, p);
    assert PeerOk(l, p);
    NoDupAppend(l.relays, p);
    forall q | q in m.peers ensures PeerOk(m, q) { assert PeerOk(l, q); }
    forall s | s in m.users ensures UsersOk(m, s) {
      if s != p { assert UsersOk(l, s); } else { assert NoDup<PeerId>([]) by { NoDupEmpty(); } }
    }
  }

  lemma NoDupEmpty()
    ensures NoDup<PeerId>([])
  {
  }

  lemma DisabledKeeps(l: Links, p: PeerId)
    requires Core(l) && p in l.users && l.users[p] == []
    ensures p in l.peers && Core(Disabled(l, p))
  {
    hide NoDup, Without;
    var m := Disabled(l, p);
    assert UsersOk(l, p) && PeerOk(l, p);
    forall q | q in m.peers ensures PeerOk(m, q) { assert PeerOk(l, q); }
    forall s | s in m.users ensures UsersOk(m, s) { assert UsersOk(l, s); }
  }

  // ----- assign_relays and the handlers, as functions

  /** Every waiting peer, in turn, is given the first relay, if there is one. */
  function Assigned(l: Links): Links
    requires Core(l)
    decreases |l.waiting|
  {
    if l.waiting == [] || l.relays == [] then l
    else
      var p, r := l.waiting[0], l.relays[0];
      FirstFacts(l);
      UnregisteredKeeps(l, p);
      InstalledKeeps(Unregistered(l, p), p, r);
      Assigned(Installed(Unregistered(l, p), p, r))
  }

  lemma FirstFacts(l: Links)
    requires Core(l)
    ensures l.waiting != [] ==> l.waiting[0] in l.peers && l.peers[l.waiting[0]].waiting
    ensures l.waiting != [] ==> Without(l.waiting, l.waiting[0]) == l.waiting[1..]
    ensures l.relays != [] ==> l.relays[0] in l.users
  {
    if l.waiting != [] { assert PeerOk(l, l.waiting[0]); WithoutHead(l.waiting); }
    if l.relays != [] { assert PeerOk(l, l.relays[0]); }
  }

  /** Afterwards no peer waits while there is a relay: the waiting peers use the first relay,
      and all else is as before. */
  lemma {:induction false} AssignedSettles(l: Links)
    requires Core(l)
    ensures var m := Assigned(l);
            && Core(m) && Settled(m) && m.relays == l.relays && m.peers.Keys == l.peers.Keys
            && (forall p :: p in l.peers && !l.peers[p].waiting ==> m.peers[p] == l.peers[p])
            && (forall p :: p in l.peers && l.peers[p].waiting ==>
                  m.peers[p] == if l.relays == [] then l.peers[p]
                                else l.peers[p].(waiting := false, relaying := Some(l.relays[0])))
    decreases |l.waiting|
  {
    hide NoDup, Without, PeerOk, UsersOk;
    if l.waiting != [] && l.relays != [] {
      var p, r := l.waiting[0], l.relays[0];
      FirstFacts(l);
      UnregisteredKeeps(l, p);
      InstalledKeeps(Unregistered(l, p), p, r);
      AssignedSettles(Installed(Unregistered(l, p), p, r));
    } else if l.waiting == [] {
      NobodyWaits(l);
    }
  }

  lemma NobodyWaits(l: Links)
    requires Core(l) && l.waiting == []
    ensures forall p :: p in l.peers ==> !l.peers[p].waiting
  {
    forall p | p in l.peers ensures !l.peers[p].waiting { assert PeerOk(l, p); }
  }

  /** Every user of the relay is taken off it and waits. */
  function Disconnected(l: Links, p: PeerId): Links
    requires Core(l) && p in l.users
    decreases |l.users[p]|
  {
    if l.users[p] == [] then l
    else
      var u := l.users[p][0];
      UserFacts(l, p);
      UninstalledKeeps(l, u);
      RegisteredKeeps(Uninstalled(l, u), u);
      Disconnected(Registered(Uninstalled(l, u), u), p)
  }

  lemma UserFacts(l: Links, p: PeerId)
    requires Core(l) && p in l.users
    ensures p in l.peers && l.peers[p].isRelay && l.peers[p].haveLink && l.peers[p].relaying.None?
    ensures l.users[p] != [] ==>
              var u := l.users[p][0];
              && u in l.peers && l.peers[u].relaying == Some(p) && u != p
              && Without(l.users[p], u) == l.users[p][1..]
  {
    assert UsersOk(l, p) && PeerOk(l, p);
    if l.users[p] != [] { WithoutHead(l.users[p]); }
  }

  lemma {:induction false} DisconnectedEmpties(l: Links, p: PeerId)
    requires Core(l) && p in l.users
    ensures var m := Disconnected(l, p);
            && Core(m) && p in m.users && m.users[p] == [] && m.relays == l.relays && m.peers.Keys == l.peers.Keys
            && (forall q :: q in l.peers ==>
                  m.peers[q] == if l.peers[q].relaying == Some(p) then l.peers[q].(relaying := None, waiting := true)
                                else l.peers[q])
    decreases |l.users[p]|
  {
    hide NoDup, Without, PeerOk, UsersOk;
    UserFacts(l, p);
    if l.users[p] == [] {
      NobodyUses(l, p);
    } else {
      var u := l.users[p][0];
      UninstalledKeeps(l, u);
      RegisteredKeeps(Uninstalled(l, u), u);
      DisconnectedEmpties(Registered(Uninstalled(l, u), u), p);
    }
  }

  lemma NobodyUses(l: Links, p: PeerId)
    requires Core(l) && p in l.users && l.users[p] == []
    ensures forall q :: q in l.peers ==> l.peers[q].relaying != Some(p)
  {
    forall q | q in l.peers ensures l.peers[q].relaying != Some(p) { assert PeerOk(l, q); }
  }

  function RelayDisabled(l: Links, p: PeerId): Links
    requires Core(l) && p in l.users
  {
    DisconnectedEmpties(l, p);
    DisabledKeeps(Disconnected(l, p), p);
    Assigned(Disabled(Disconnected(l, p), p))
  }

  /** The peer keeps its link, its users wait or use another relay, and all else is as before. */
  lemma RelayDisabledKeeps(l: Links, p: PeerId)
    requires Core(l) && Settled(l) && p in l.users
    ensures p in l.peers && l.peers[p].isRelay
    ensures var m := RelayDisabled(l, p);
            && Core(m) && Settled(m) && m.peers.Keys == l.peers.Keys && m.peers[p] == l.peers[p].(isRelay := false)
            && m.relays == Without(l.relays, p) && Moved(l, m, p)
  {
    hide NoDup, Without, PeerOk, UsersOk, Core, Moved, Disconnected, Assigned;
    UserFacts(l, p);
    FirstWaits(l, p);
    DisconnectedEmpties(l, p);
    var d := Disconnected(l, p);
    DisabledKeeps(d, p);
    AssignedSettles(Disabled(d, p));
    Moves(l, d, RelayDisabled(l, p), p);
  }

  lemma Moves(l: Links, d: Links, m: Links, p: PeerId)
    requires p in l.peers && l.peers[p].relaying.None? && d.peers.Keys == m.peers.Keys == l.peers.Keys
    requires forall q :: q in l.peers ==> !l.peers[q].waiting
    requires forall q :: q in l.peers ==>
               d.peers[q] == if l.peers[q].relaying == Some(p) then l.peers[q].(relaying := None, waiting := true)
                             else l.peers[q]
    requires forall q :: q in l.peers ==>
               var x := if q == p then d.peers[q].(isRelay := false) else d.peers[q];
               m.peers[q] == if !x.waiting || m.relays == [] then x else x.(waiting := false, relaying := Some(m.relays[0]))
    ensures Moved(l, m, p) && m.peers[p] == l.peers[p].(isRelay := false)
  {
  }

  /** Other peers are as before, except that users of `p` use the first other relay or wait. */
  ghost predicate Moved(l: Links, m: Links, p: PeerId) {
    forall q :: q in l.peers && q != p ==>
      && q in m.peers
      && m.peers[q] == if l.peers[q].relaying != Some(p) then l.peers[q]
                       else if m.relays == [] then l.peers[q].(relaying := None, waiting := true)
                       else l.peers[q].(relaying := Some(m.relays[0]))
  }

  /** While there is a relay nobody waits. */
  lemma FirstWaits(l: Links, p: PeerId)
    requires Core(l) && Settled(l) && p in l.users
    ensures forall q :: q in l.peers ==> !l.peers[q].waiting
  {
  }

  /** peer_cleanup_connections. */
  function Cleaned(l: Links, p: PeerId): Links
    requires Core(l) && p in l.peers
  {
    assert PeerOk(l, p);
    if l.peers[p].haveLink then
      if l.peers[p].isRelay then
        DisconnectedEmpties(l, p);
        DisabledKeeps(Disconnected(l, p), p);
        AssignedSettles(Disabled(Disconnected(l, p), p));
        Linked(RelayDisabled(l, p), p, false)
      else Linked(l, p, false)
    else if l.peers[p].relaying.Some? then Uninstalled(l, p)
    else if l.peers[p].waiting then Unregistered(l, p)
    else l
  }

  lemma CleanedKeeps(l: Links, p: PeerId)
    requires Core(l) && Settled(l) && p in l.peers
    ensures var m := Cleaned(l, p);
            && Core(m) && Settled(m) && m.peers.Keys == l.peers.Keys && Unconnected(m, p) && Moved(l, m, p)
            && m.relays == Without(l.relays, p) && m.peers[p].relayServer == l.peers[p].relayServer
  {
    hide NoDup, Without, UsersOk;
    assert PeerOk(l, p);
    hide Core;
    var q := l.peers[p];
    if q.haveLink {
      LinkCleaned(l, p);
    } else {
      OnlyRelaysUsed(l, p);
      if q.relaying.Some? {
        UninstalledKeeps(l, p);
      } else if q.waiting {
        UnregisteredKeeps(l, p);
      }
    }
  }

  lemma LinkCleaned(l: Links, p: PeerId)
    requires Core(l) && Settled(l) && p in l.peers && l.peers[p].haveLink && PeerOk(l, p)
    ensures var m := Cleaned(l, p);
            && Core(m) && Settled(m) && m.peers.Keys == l.peers.Keys && Unconnected(m, p) && Moved(l, m, p)
            && m.relays == Without(l.relays, p) && m.peers[p].relayServer == l.peers[p].relayServer
  {
    hide NoDup, Without, UsersOk, Core;
    if l.peers[p].isRelay {
      RelayDisabledKeeps(l, p);
      hide RelayDisabled;
      LinkedKeeps(RelayDisabled(l, p), p, false);
    } else {
      OnlyRelaysUsed(l, p);
      LinkedKeeps(l, p, false);
    }
  }

  lemma OnlyRelaysUsed(l: Links, p: PeerId)
    requires Core(l) && p in l.peers && !l.peers[p].isRelay
    ensures forall q :: q in l.peers ==> l.peers[q].relaying != Some(p)
  {
    assert PeerOk(l, p);
    forall q | q in l.peers ensures l.peers[q].relaying != Some(p) { assert PeerOk(l, q); }
  }

  // ----- runs

  /** A new peer; its removal; a connection attempt whose link objects can be made or not; a
      report that no connection is possible; its link going up or down; a reset. */
  datatype Event =
    | NewPeer(peer: PeerId, relayServer: bool) | RemovePeer(peer: PeerId) | Connect(peer: PeerId, ok: bool)
    | NeedRelay(peer: PeerId) | LinkUp(peer: PeerId) | LinkDown(peer: PeerId) | Reset(peer: PeerId)

  /** What calls the code: link reports come from links, and each peer is new once. */
  predicate Enabling(l: Links, e: Event) {
    if e.NewPeer? then e.peer !in l.peers
    else e.peer in l.peers && (e.LinkUp? || e.LinkDown? ==> l.peers[e.peer].haveLink)
  }

  /** peer_need_relay, which the callers skip for a relay. */
  function Needing(l: Links, p: PeerId): Links
    requires Core(l) && p in l.peers
  {
    assert PeerOk(l, p);
    if l.peers[p].isRelay || l.peers[p].waiting then l
    else
      CoreFreed(l, p);
      RegisteredKeeps(Freed(l, p), p);
      Assigned(Registered(Freed(l, p), p))
  }

  /** A peer that needs a relay uses the first one, or waits if there is none; it keeps no link. */
  lemma NeedingServes(l: Links, p: PeerId)
    requires Core(l) && Settled(l) && p in l.peers && !l.peers[p].isRelay
    ensures var m := Needing(l, p);
            && Core(m) && Settled(m) && p in m.peers && !m.peers[p].haveLink
            && m.relays == l.relays && m.peers.Keys == l.peers.Keys
            && (if l.relays == [] then m.peers[p].waiting else m.peers[p].relaying == Some(l.relays[0]))
            && forall q :: q in l.peers && q != p ==> m.peers[q] == l.peers[q]
  {
    hide NoDup, Without, UsersOk;
    assert PeerOk(l, p);
    hide PeerOk;
    if !l.peers[p].waiting {
      CoreFreed(l, p);
      RegisteredKeeps(Freed(l, p), p);
      AssignedSettles(Registered(Freed(l, p), p));
    } else {
      WaitsOnList(l, p);
    }
  }

  lemma WaitsOnList(l: Links, p: PeerId)
    requires Core(l) && p in l.peers && l.peers[p].waiting
    ensures l.waiting != [] && !l.peers[p].haveLink
  {
    assert PeerOk(l, p);
  }

  function Freed(l: Links, p: PeerId): Links
    requires Core(l) && p in l.peers
  {
    assert PeerOk(l, p);
    if l.peers[p].haveLink then Linked(l, p, false)
    else if l.peers[p].relaying.Some? then Uninstalled(l, p)
    else l
  }

  lemma CoreFreed(l: Links, p: PeerId)
    requires Core(l) && p in l.peers && !l.peers[p].isRelay && !l.peers[p].waiting
    ensures p in Freed(l, p).peers && Core(Freed(l, p)) && Unconnected(Freed(l, p), p)
  {
    hide NoDup, Without, UsersOk;
    assert PeerOk(l, p);
    if l.peers[p].haveLink { LinkedKeeps(l, p, false); }
    else if l.peers[p].relaying.Some? { UninstalledKeeps(l, p); }
  }

  function Step(l: Links, e: Event): Links
    requires Core(l) && Settled(l) && Enabling(l, e)
  {
    match e
    case NewPeer(p, server) => With(l, p, Peer(false, None, false, false, server))
    case RemovePeer(p) =>
      CleanedKeeps(l, p);
      var m := Cleaned(l, p);
      m.(peers := m.peers - {p})
    case Connect(p, ok) =>
      CleanedKeeps(l, p);
      if ok then Linked(Cleaned(l, p), p, true) else Cleaned(Cleaned(l, p), p)
    case NeedRelay(p) => Needing(l, p)
    case LinkUp(p) =>
      if l.peers[p].relayServer && !l.peers[p].isRelay then
        EnabledKeeps(l, p);
        Assigned(Enabled(l, p))
      else l
    case LinkDown(p) =>
      assert PeerOk(l, p);
      if l.peers[p].isRelay then RelayDisabled(l, p) else l
    case Reset(p) => Cleaned(l, p)
  }

  /** What every step keeps. */
  lemma StepKeeps(l: Links, e: Event)
    requires Core(l) && Settled(l) && Enabling(l, e)
    ensures Core(Step(l, e)) && Settled(Step(l, e))
  {
    hide NoDup, Without, UsersOk, PeerOk;
    match e {
      case NewPeer(p, server) => NewKeeps(l, p, server);
      case RemovePeer(p) =>
        CleanedKeeps(l, p);
        RemoveKeeps(Cleaned(l, p), p);
      case Connect(p, ok) =>
        CleanedKeeps(l, p);
        LinkedKeeps(Cleaned(l, p), p, true);
        CleanedKeeps(Cleaned(l, p), p);
      case NeedRelay(p) =>
        if !l.peers[p].isRelay && !l.peers[p].waiting {
          CoreFreed(l, p);
          RegisteredKeeps(Freed(l, p), p);
          AssignedSettles(Registered(Freed(l, p), p));
        }
      case LinkUp(p) =>
        if l.peers[p].relayServer && !l.peers[p].isRelay {
          EnabledKeeps(l, p);
          AssignedSettles(Enabled(l, p));
        }
      case LinkDown(p) =>
        if l.peers[p].isRelay {
          RelayHasUsers(l, p);
          RelayDisabledKeeps(l, p);
        }
      case Reset(p) => CleanedKeeps(l, p);
    }
  }

  lemma RelayHasUsers(l: Links, p: PeerId)
    requires Core(l) && p in l.peers && l.peers[p].isRelay
    ensures p in l.users
  {
    assert PeerOk(l, p);
  }

  lemma NewKeeps(l: Links, p: PeerId, server: bool)
    requires Core(l) && p !in l.peers
    ensures Core(With(l, p, Peer(false, None, false, false, server)))
  {
    hide NoDup;
    var m := With(l, p, Peer(false, None, false, false, server));
    forall q | q in m.peers ensures PeerOk(m, q) { if q != p { assert PeerOk(l, q); } }
    forall r | r in m.users ensures UsersOk(m, r) { assert UsersOk(l, r); }
  }

  lemma RemoveKeeps(l: Links, p: PeerId)
    requires Core(l) && p in l.peers && Unconnected(l, p)
    ensures Core(l.(peers := l.peers - {p}))
  {
    hide NoDup;
    var m := l.(peers := l.peers - {p});
    assert PeerOk(l, p);
    forall q | q in m.peers ensures PeerOk(m, q) { assert PeerOk(l, q); }
    forall r | r in m.users ensures UsersOk(m, r) { assert UsersOk(l, r); }
  }

  // ----- what each event does

  /** Other peers are as before, whatever becomes of `p`. */
  ghost predicate OthersKept(l: Links, m: Links, p: PeerId) {
    forall q :: q != p ==> (q in m.peers <==> q in l.peers) && (q in l.peers ==> m.peers[q] == l.peers[q])
  }

  /** A new peer has no connection and keeps what is known of it. */
  lemma NewPeerDoes(l: Links, p: PeerId, server: bool)
    requires Core(l) && Settled(l) && Enabling(l, NewPeer(p, server))
    ensures var m := Step(l, NewPeer(p, server));
            && p in m.peers && Unconnected(m, p) && m.peers[p].relayServer == server
            && OthersKept(l, m, p) && m.relays == l.relays && m.waiting == l.waiting && m.users == l.users
  {
  }

  /** A peer that goes is gone from everywhere; its users use the first other relay or wait. */
  lemma RemovePeerDoes(l: Links, p: PeerId)
    requires Core(l) && Settled(l) && Enabling(l, RemovePeer(p))
    ensures var m := Step(l, RemovePeer(p));
            && m.peers.Keys == l.peers.Keys - {p} && m.relays == Without(l.relays, p)
            && p !in m.users && p !in m.waiting && Moved(l, m, p)
  {
    hide NoDup, Without, Cleaned;
    CleanedKeeps(l, p);
    assert PeerOk(Cleaned(l, p), p);
  }

  /** A connection attempt ends with a link and nothing else, or with nothing; either way the
      peer is no relay, and its users move as after a removal. */
  lemma ConnectDoes(l: Links, p: PeerId, ok: bool)
    requires Core(l) && Settled(l) && Enabling(l, Connect(p, ok))
    ensures var m := Step(l, Connect(p, ok));
            && m.peers.Keys == l.peers.Keys && m.relays == Without(l.relays, p) && Moved(l, m, p)
            && m.peers[p] == Peer(ok, None, false, false, l.peers[p].relayServer)
  {
    hide NoDup, Cleaned, Core;
    CleanedKeeps(l, p);
    if !ok {
      CleanedKeeps(Cleaned(l, p), p);
      WithoutTwice(l.relays, p);
    }
    hide Without;
  }

  lemma {:induction false} WithoutTwice(s: seq<PeerId>, p: PeerId)
    ensures Without(Without(s, p), p) == Without(s, p)
  {
    assert p !in Without(s, p);
  }

  /** A reset leaves the peer without any connection. */
  lemma ResetDoes(l: Links, p: PeerId)
    requires Core(l) && Settled(l) && Enabling(l, Reset(p))
    ensures var m := Step(l, Reset(p));
            && m.peers.Keys == l.peers.Keys && m.relays == Without(l.relays, p) && Moved(l, m, p)
            && m.peers[p] == Peer(false, None, false, false, l.peers[p].relayServer)
  {
    hide NoDup, Without, Cleaned, Core;
    CleanedKeeps(l, p);
  }

  /** A peer that needs a relay uses the first one or waits, unless it is a relay itself. */
  lemma NeedRelayDoes(l: Links, p: PeerId)
    requires Core(l) && Settled(l) && Enabling(l, NeedRelay(p))
    ensures var m := Step(l, NeedRelay(p));
            && m.relays == l.relays && OthersKept(l, m, p) && p in m.peers
            && (if l.peers[p].isRelay then m.peers[p] == l.peers[p]
                else !m.peers[p].haveLink
                     && if l.relays == [] then m.peers[p].waiting else m.peers[p].relaying == Some(l.relays[0]))
  {
    hide NoDup, Without, Core, Needing;
    if l.peers[p].isRelay { RelayNeeds(l, p); } else { NeedingServes(l, p); }
  }

  lemma RelayNeeds(l: Links, p: PeerId)
    requires Core(l) && p in l.peers && l.peers[p].isRelay
    ensures Needing(l, p) == l
  {
  }

  /** The link of a relay server coming up makes it a relay, behind the others; nobody waits any
      longer, and all who waited use the first relay. Any other link changes nothing. */
  lemma LinkUpDoes(l: Links, p: PeerId)
    requires Core(l) && Settled(l) && Enabling(l, LinkUp(p))
    ensures var m := Step(l, LinkUp(p));
            && m.peers.Keys == l.peers.Keys
            && (if l.peers[p].relayServer || l.peers[p].isRelay then
                  && p in m.relays && m.peers[p] == l.peers[p].(isRelay := true) && m.waiting == []
                  && m.relays == (if p in l.relays then l.relays else l.relays + [p])
                  && forall q :: q in l.peers && q != p ==>
                       m.peers[q] == if l.peers[q].waiting then l.peers[q].(waiting := false, relaying := Some(p)) else l.peers[q]
                else m == l)
  {
    hide NoDup, Without, UsersOk;
    assert PeerOk(l, p);
    hide PeerOk;
    if l.peers[p].isRelay {
      RelayHasUsers(l, p);
      FirstWaits(l, p);
    } else if l.peers[p].relayServer {
      NobodyBefore(l);
      EnabledKeeps(l, p);
      AssignedSettles(Enabled(l, p));
    }
  }

  lemma NobodyBefore(l: Links)
    requires Core(l) && Settled(l)
    ensures l.relays != [] ==> forall q :: q in l.peers ==> !l.peers[q].waiting
  {
    if l.relays != [] { NobodyWaits(l); }
  }

  /** A link going down ends the peer's service as a relay, not its link; its users use the
      first other relay or wait. */
  lemma LinkDownDoes(l: Links, p: PeerId)
    requires Core(l) && Settled(l) && Enabling(l, LinkDown(p))
    ensures var m := Step(l, LinkDown(p));
            && m.peers.Keys == l.peers.Keys && m.relays == Without(l.relays, p) && Moved(l, m, p)
            && m.peers[p] == l.peers[p].(isRelay := false)
  {
    hide NoDup, Without, UsersOk, RelayDisabled;
    assert PeerOk(l, p);
    hide PeerOk;
    if l.peers[p].isRelay {
      RelayHasUsers(l, p);
      RelayDisabledKeeps(l, p);
    } else {
      OnlyRelaysUsed(l, p);
    }
  }
}
