/** The link and relay handlers of client/client.c, over the flows of client/DataProto.c: each
    peer has a local flow, and with a link a sink, both named by the peer. */
module Relay {
  import opened Wrappers
  import opened Lists
  import opened RelayLinks
  import opened FlowBuffers
  import opened DataProto

  /** Where a peer's local flow should go: to its own link, to its relay's, or nowhere. */
  function Way(q: Peer, p: PeerId): Option<SinkId> {
    if q.haveLink then Some(p) else q.relaying
  }

  /** The local flows are those of the peers, the sinks those of the links, and each local flow
      desires the sink of its own link, of its relay's, or none. */
  ghost predicate Agree(peers: map<PeerId, Peer>, flows: Flows, sinks: Sinks) {
    && flows.Keys == peers.Keys
    && (forall p :: p in sinks ==> p in peers)
    && (forall p :: p in peers ==> (p in sinks <==> peers[p].haveLink))
    && (forall p :: p in peers ==> flows[p].desired == Way(peers[p], p))
  }

  class Client {
    const dp: DataProto
    var peers: map<PeerId, Peer>
    var relays: seq<PeerId>
    var users: map<PeerId, seq<PeerId>>
    var waiting: seq<PeerId>

    function Now(): Links
      reads this
    {
      Links(peers, relays, users, waiting)
    }

    /** Holds between any two steps of a handler. */
    ghost predicate Steady()
      reads this, dp
    {
      dp.Valid() && Core(Now()) && Agree(peers, dp.flows, dp.sinks)
    }

    ghost predicate Valid()
      reads this, dp
    {
      Steady() && Settled(Now())
    }

    constructor ()
      ensures Valid() && Now() == Links(map[], [], map[], []) && fresh(dp)
    {
      dp := new DataProto();
      peers, relays, users, waiting := map[], [], map[], [];
    }

    // ----- links

    method InitLink(p: PeerId)
      requires Steady() && p in peers && Unconnected(Now(), p)
      modifies this`peers, dp
      ensures Steady() && Now() == Linked(old(Now()), p, true)
    {
      hide DataProto.Valid, Core;
      LinkedKeeps(Now(), p, true);
      dp.SinkInit(p);
      dp.Attach(p, p);
      peers := peers[p := peers[p].(haveLink := true)];
    }

    /** No local flow is attached to the sink when it is freed. */
    method FreeLink(p: PeerId)
      requires Steady() && p in peers && peers[p].haveLink && !peers[p].isRelay
      modifies this`peers, dp
      ensures Steady() && Now() == Linked(old(Now()), p, false)
    {
      hide DataProto.Valid, Core, Agree, DataProto.Settled;
      OnlyRelaysUsed(Now(), p);
      LinkRelaysNot(Now(), p);
      LinkedKeeps(Now(), p, false);
      AgreeUnlinked(peers, dp.flows, dp.sinks, p);
      dp.Detach(p);
      dp.SinkFree(p);
      peers := peers[p := peers[p].(haveLink := false)];
    }

    // ----- relaying

    method InstallRelaying(p: PeerId, r: PeerId)
      requires Steady() && p in peers && r in users && Unconnected(Now(), p)
      modifies this`peers, this`users, dp
      ensures Steady() && Now() == Installed(old(Now()), p, r)
    {
      hide DataProto.Valid, Core;
      InstalledKeeps(Now(), p, r);
      RelayLinked(Now(), r);
      users := users[r := users[r] + [p]];
      dp.Attach(p, r);
      peers := peers[p := peers[p].(relaying := Some(r))];
    }

    method FreeRelaying(p: PeerId)
      requires Steady() && p in peers && peers[p].relaying.Some?
      modifies this`peers, this`users, dp
      ensures old(peers)[p].relaying.value in old(users)
      ensures Steady() && Now() == Uninstalled(old(Now()), p)
    {
      hide DataProto.Valid, Core, Without;
      UninstalledKeeps(Now(), p);
      RelayingUnlinked(Now(), p);
      var r := peers[p].relaying.value;
      dp.Detach(p);
      users := users[r := Without(users[r], p)];
      peers := peers[p := peers[p].(relaying := None)];
    }

    method RegisterNeedRelay(p: PeerId)
      requires Steady() && p in peers && Unconnected(Now(), p)
      modifies this`peers, this`waiting
      ensures Steady() && Now() == Registered(old(Now()), p)
    {
      hide DataProto.Valid, Core;
      RegisteredKeeps(Now(), p);
      waiting := waiting + [p];
      peers := peers[p := peers[p].(waiting := true)];
    }

    method UnregisterNeedRelay(p: PeerId)
      requires Steady() && p in peers && peers[p].waiting
      modifies this`peers, this`waiting
      ensures Steady() && Now() == Unregistered(old(Now()), p)
    {
      hide DataProto.Valid, Core, Without;
      UnregisteredKeeps(Now(), p);
      waiting := Without(waiting, p);
      peers := peers[p := peers[p].(waiting := false)];
    }

    /** The loop ends: each round takes a peer off the waiting list. */
    method AssignRelays()
      requires Steady()
      modifies this, dp
      ensures Steady() && Now() == Assigned(old(Now()))
    {
      hide DataProto.Valid, Core, Without, Agree;
      while waiting != []
        invariant Steady() && Assigned(Now()) == Assigned(old(Now()))
        decreases |waiting|
      {
        FirstFacts(Now());
        var p := waiting[0];
        if relays == [] {
          return;
        }
        UnregisteredKeeps(Now(), p);
        var r := relays[0];
        UnregisterNeedRelay(p);
        InstallRelaying(p, r);
      }
    }

    // ----- packets

    /** Packets of sinks may start and end between any two handlers. */
    method SinkSends(p: PeerId, what: Sending)
      requires Valid() && p in dp.sinks && dp.sinks[p].sending.Idle? && !what.Idle?
      requires what.Of? ==> what.buffer in dp.buffers && dp.buffers[what.buffer].sink == Some(p)
      modifies dp`sinks
      ensures Valid() && Now() == old(Now())
    {
      hide DataProto.Valid, Core;
      dp.QueueSends(p, what);
    }

    method SinkDone(p: PeerId)
      requires Valid() && p in dp.sinks && !dp.sinks[p].sending.Idle?
      modifies dp`sinks, dp`buffers, dp`freed
      ensures Valid() && Now() == old(Now())
    {
      hide DataProto.Valid, Core, DataProto.Settled;
      dp.QueueDone(p);
    }

    // ----- relay providers

    method EnableRelayProvider(p: PeerId)
      requires Steady() && p in peers && peers[p].haveLink && !peers[p].isRelay
      modifies this, dp
      ensures Steady() && Core(Enabled(old(Now()), p)) && Now() == Assigned(Enabled(old(Now()), p))
    {
      hide DataProto.Valid, Core;
      EnabledKeeps(Now(), p);
      relays := relays + [p];
      users := users[p := []];
      peers := peers[p := peers[p].(isRelay := true)];
      hide Agree;
      AssignRelays();
    }

    method DisconnectUsers(p: PeerId)
      requires Steady() && p in users
      modifies this, dp
      ensures Steady() && Now() == Disconnected(old(Now()), p)
    {
      hide DataProto.Valid, Core, Without, Agree;
      while users[p] != []
        invariant Steady() && p in users && Disconnected(Now(), p) == Disconnected(old(Now()), p)
        decreases |users[p]|
      {
        UserFacts(Now(), p);
        var u := users[p][0];
        UninstalledKeeps(Now(), u);
        FreeRelaying(u);
        RegisterNeedRelay(u);
      }
    }

    method DisableRelayProvider(p: PeerId)
      requires Steady() && p in peers && peers[p].isRelay
      modifies this, dp
      ensures Steady() && p in old(users) && Now() == RelayDisabled(old(Now()), p)
    {
      hide DataProto.Valid, Core, Without, Agree, Disabled, Disconnected, Assigned;
      RelayHasUsers(Now(), p);
      DisconnectedEmpties(Now(), p);
      DisconnectUsers(p);
      Retire(p);
      AssignRelays();
    }

    /** Takes a relay without users off the list. */
    method Retire(p: PeerId)
      requires Steady() && p in users && users[p] == []
      modifies this
      ensures p in old(peers) && Steady() && Now() == Disabled(old(Now()), p)
    {
      hide DataProto.Valid, Core, Without, Agree;
      DisabledKeeps(Now(), p);
      AgreeRetired(peers, dp.flows, dp.sinks, p);
      relays := Without(relays, p);
      users := users - {p};
      peers := peers[p := peers[p].(isRelay := false)];
    }

    // ----- handlers

    method CleanupConnections(p: PeerId)
      requires Valid() && p in peers
      modifies this, dp
      ensures Valid() && Now() == Cleaned(old(Now()), p)
    {
      hide DataProto.Valid, Core, Agree, Settled, Linked, Uninstalled, Unregistered;
      CleanedKeeps(Now(), p);
      if peers[p].haveLink {
        if peers[p].isRelay {
          RelayHasUsers(Now(), p);
          RelayDisabledKeeps(Now(), p);
          DisableRelayProvider(p);
        }
        FreeLink(p);
      } else if peers[p].relaying.Some? {
        FreeRelaying(p);
      } else if peers[p].waiting {
        UnregisterNeedRelay(p);
      }
    }

    method NeedRelay(p: PeerId)
      requires Valid() && p in peers
      modifies this, dp
      ensures Valid() && Now() == Step(old(Now()), RelayLinks.NeedRelay(p))
    {
      hide DataProto.Valid, Core, Agree, Linked, Uninstalled, Registered, Settled;
      StepKeeps(Now(), RelayLinks.NeedRelay(p));
      if peers[p].isRelay || peers[p].waiting {
        return;
      }
      CoreFreed(Now(), p);
      if peers[p].haveLink {
        FreeLink(p);
      } else if peers[p].relaying.Some? {
        FreeRelaying(p);
      }
      RegisteredKeeps(Now(), p);
      RegisterNeedRelay(p);
      AssignRelays();
    }

    /** A reset, as after any error of a link. */
    method ResetPeer(p: PeerId)
      requires Valid() && p in peers
      modifies this, dp
      ensures Valid() && Now() == Step(old(Now()), Reset(p))
    {
      hide DataProto.Valid, Core, Agree, Settled, Cleaned;
      CleanupConnections(p);
    }

    /** A connection attempt: a fresh link, or a reset if its objects cannot be made. */
    method Connect(p: PeerId, ok: bool)
      requires Valid() && p in peers
      modifies this, dp
      ensures Valid() && Now() == Step(old(Now()), RelayLinks.Connect(p, ok))
    {
      hide DataProto.Valid, Core, Agree, Settled, Linked, Cleaned;
      StepKeeps(Now(), RelayLinks.Connect(p, ok));
      CleanedKeeps(Now(), p);
      CleanupConnections(p);
      if ok {
        InitLink(p);
      } else {
        CleanupConnections(p);
      }
    }

    /** The link reports that it is up: it can now serve as a relay. */
    method LinkReportsUp(p: PeerId)
      requires Valid() && p in peers && peers[p].haveLink
      modifies this, dp
      ensures Valid() && Now() == Step(old(Now()), LinkUp(p))
      ensures p in peers && (peers[p].relayServer ==> peers[p].isRelay && p in relays && waiting == [])
    {
      hide DataProto.Valid, Core, Agree, Settled, Enabled;
      StepKeeps(Now(), LinkUp(p));
      LinkUpDoes(Now(), p);
      if peers[p].relayServer && !peers[p].isRelay {
        EnableRelayProvider(p);
      }
    }

    method LinkReportsDown(p: PeerId)
      requires Valid() && p in peers && peers[p].haveLink
      modifies this, dp
      ensures Valid() && Now() == Step(old(Now()), LinkDown(p))
    {
      hide DataProto.Valid, Core, Agree, Settled, RelayDisabled;
      StepKeeps(Now(), LinkDown(p));
      if peers[p].isRelay {
        DisableRelayProvider(p);
      }
    }

    method AddPeer(p: PeerId, relayServer: bool)
      requires Valid() && p !in peers
      modifies this`peers, dp
      ensures Valid() && Now() == Step(old(Now()), NewPeer(p, relayServer))
    {
      hide DataProto.Valid, Core, Agree, Cleaned, Assigned, RelayDisabled, Needing, Linked;
      NewKeeps(Now(), p, relayServer);
      AgreeNew(peers, dp.flows, dp.sinks, p, relayServer, dp.next);
      dp.FlowInit(p);
      peers := peers[p := Peer(false, None, false, false, relayServer)];
    }

    /** The local flow is detached when it is freed. */
    method PeerRemove(p: PeerId)
      requires Valid() && p in peers
      modifies this, dp
      ensures Valid() && Now() == Step(old(Now()), RemovePeer(p))
    {
      hide DataProto.Valid, Core, Cleaned, Settled, Agree;
      StepKeeps(Now(), RemovePeer(p));
      CleanedKeeps(Now(), p);
      CleanupConnections(p);
      Forget(p);
    }

    method Forget(p: PeerId)
      requires Steady() && p in peers && Unconnected(Now(), p)
      modifies this`peers, dp
      ensures Steady() && Now() == old(Now()).(peers := old(peers) - {p})
    {
      hide DataProto.Valid, Core;
      RemoveKeeps(Now(), p);
      dp.FlowFree(p);
      peers := peers - {p};
    }
  }

  lemma AgreeRetired(peers: map<PeerId, Peer>, flows: Flows, sinks: Sinks, p: PeerId)
    requires Agree(peers, flows, sinks) && p in peers
    ensures Agree(peers[p := peers[p].(isRelay := false)], flows, sinks)
  {
  }

  lemma AgreeNew(peers: map<PeerId, Peer>, flows: Flows, sinks: Sinks, p: PeerId, server: bool, b: BufferId)
    requires Agree(peers, flows, sinks) && p !in peers
    ensures p !in flows && Agree(peers[p := Peer(false, None, false, false, server)], flows[p := Flow(None, b)], sinks)
  {
  }

  lemma AgreeUnlinked(peers: map<PeerId, Peer>, flows: Flows, sinks: Sinks, p: PeerId)
    requires Agree(peers, flows, sinks) && p in peers && peers[p].haveLink && peers[p].relaying.None?
    requires forall q :: q in peers ==> peers[q].relaying != Some(p)
    ensures p in flows && p in sinks && flows[p].desired == Some(p)
    ensures var flows' := flows[p := Flow(None, flows[p].buffer)];
            && (forall f :: f in flows' ==> flows'[f].desired != Some(p))
            && forall sinks': Sinks :: sinks'.Keys == sinks.Keys - {p} ==>
                 Agree(peers[p := peers[p].(haveLink := false)], flows', sinks')
  {
  }

  lemma RelayLinked(l: Links, r: PeerId)
    requires Core(l) && r in l.users
    ensures r in l.peers && l.peers[r].haveLink
  {
    UserFacts(l, r);
  }

  lemma LinkRelaysNot(l: Links, p: PeerId)
    requires Core(l) && p in l.peers && l.peers[p].haveLink
    ensures l.peers[p].relaying.None?
  {
    assert PeerOk(l, p);
  }

  lemma RelayingUnlinked(l: Links, p: PeerId)
    requires Core(l) && p in l.peers && l.peers[p].relaying.Some?
    ensures !l.peers[p].haveLink
  {
    assert PeerOk(l, p);
  }
}
