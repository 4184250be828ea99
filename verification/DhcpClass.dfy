/** The handlers of dhcpclient/BDHCPClientCore.c. */
module DhcpClass {
  import opened Wrappers
  import opened Dhcp

  class BDHCPClientCore {
    var state: State
    var xid: nat
    var xidReuse: nat
    var requestCount: nat
    var offered: Offered
    var acked: Acked
    var sending: bool
    var timers: map<Timer, int>

    function Now(): Client
      reads this
    {
      Client(state, xid, xidReuse, requestCount, offered, acked, sending, timers)
    }

    ghost predicate Valid()
      reads this
    {
      Inv(Now())
    }

    constructor (now: int, freshXid: nat)
      ensures Valid() && Now() == Initial(now, freshXid).client
    {
      state, xid, xidReuse, requestCount, offered := Resetting, 0, 0, 0, Offered(0, 0);
      acked, sending, timers := Acked(0, 0, None, [], 0), false, map[];
      new;
      var _ := StartProcess(now, true, freshXid);
    }

    method SendMessage(m: Message) returns (outs: seq<Output>)
      modifies this`sending
      ensures Outcome(Now(), outs) == Sent(old(Now()), m)
    {
      if sending {
        return [];
      }
      sending := true;
      return [Send(m)];
    }

    method StartProcess(now: int, forceNew: bool, freshXid: nat) returns (outs: seq<Output>)
      modifies this
      ensures Outcome(Now(), outs) == Dhcp.StartProcess(old(Now()), now, forceNew, freshXid)
    {
      if forceNew || xidReuse == XID_REUSE_MAX {
        xid := freshXid;
        xidReuse := 0;
      }
      xidReuse := xidReuse + 1;
      outs := SendMessage(Discover(xid));
      timers := timers[ResetTimer := now + RESET_TIMEOUT];
      state := SentDiscover;
    }

    // ----- timers

    method ResetTimerHandler(now: int, freshXid: nat) returns (outs: seq<Output>)
      requires Valid() && ResetTimer in timers
      modifies this
      ensures Valid() && Outcome(Now(), outs) == Step(old(Now()), now, Expire(ResetTimer, freshXid))
    {
      StepKeeps(Now(), now, Expire(ResetTimer, freshXid));
      assert state == Resetting || state == SentDiscover;
      hide Inv;
      timers := timers - {ResetTimer};
      outs := StartProcess(now, state == Resetting, freshXid);
    }

    method RequestTimerHandler(now: int, freshXid: nat) returns (outs: seq<Output>)
      requires Valid() && RequestTimer in timers
      modifies this
      ensures Valid() && Outcome(Now(), outs) == Step(old(Now()), now, Expire(RequestTimer, freshXid))
    {
      StepKeeps(Now(), now, Expire(RequestTimer, freshXid));
      assert state == SentRequest && 1 <= requestCount <= MAX_REQUESTS;
      hide Inv;
      timers := timers - {RequestTimer};
      if requestCount == MAX_REQUESTS {
        outs := StartProcess(now, false, freshXid);
        return;
      }
      outs := SendMessage(Request(xid, offered.yiaddr, Some(offered.server)));
      timers := timers[RequestTimer := now + REQUEST_TIMEOUT];
      requestCount := requestCount + 1;
    }

    method RenewTimerHandler(now: int, ghost freshXid: nat) returns (outs: seq<Output>)
      requires Valid() && RenewTimer in timers
      modifies this
      ensures Valid() && Outcome(Now(), outs) == Step(old(Now()), now, Expire(RenewTimer, freshXid))
    {
      StepKeeps(Now(), now, Expire(RenewTimer, freshXid));
      assert state == Finished;
      hide Inv;
      timers := timers - {RenewTimer};
      outs := SendMessage(Request(xid, offered.yiaddr, None));
      timers := timers[RenewRequestTimer := now + RENEW_REQUEST_TIMEOUT];
      timers := timers[LeaseTimer := now + LeaseTimeout(acked.lease)];
      state := Renewing;
    }

    method RenewRequestTimerHandler(now: int, ghost freshXid: nat) returns (outs: seq<Output>)
      requires Valid() && RenewRequestTimer in timers
      modifies this
      ensures Valid() && Outcome(Now(), outs) == Step(old(Now()), now, Expire(RenewRequestTimer, freshXid))
    {
      StepKeeps(Now(), now, Expire(RenewRequestTimer, freshXid));
      assert state == Renewing;
      hide Inv;
      timers := timers - {RenewRequestTimer};
      outs := SendMessage(Request(xid, offered.yiaddr, None));
      timers := timers[RenewRequestTimer := now + RENEW_REQUEST_TIMEOUT];
    }

    method LeaseTimerHandler(now: int, freshXid: nat) returns (outs: seq<Output>)
      requires Valid() && LeaseTimer in timers
      modifies this
      ensures Valid() && Outcome(Now(), outs) == Step(old(Now()), now, Expire(LeaseTimer, freshXid))
    {
      StepKeeps(Now(), now, Expire(LeaseTimer, freshXid));
      assert state == Renewing;
      hide Inv;
      timers := timers - {LeaseTimer};
      timers := timers - {RenewRequestTimer};
      outs := StartProcess(now, true, freshXid);
      outs := outs + [Down];
    }

    // ----- packets

    method SendHandlerDone(ghost now: int)
      requires Valid() && sending
      modifies this`sending
      ensures Valid() && Outcome(Now(), []) == Step(old(Now()), now, SendDone)
    {
      sending := false;
    }

    method RecvHandlerDone(r: Reply, now: int) returns (outs: seq<Output>)
      requires Valid()
      modifies this
      ensures Valid() && Outcome(Now(), outs) == Step(old(Now()), now, Receive(r))
    {
      StepKeeps(Now(), now, Receive(r));
      hide Inv;
      if state == Resetting || r.xid != xid || r.kind == OtherKind || r.server.None? {
        return [];
      }
      if r.kind == Nak {
        outs := NakHandler(r, now);
        return;
      }
      if r.yiaddr == 0 || r.lease.None? || r.mask.None? {
        return [];
      }
      if state == SentDiscover && r.kind == Offer {
        outs := OfferHandler(r, now);
      } else if (state == SentRequest || state == Renewing) && r.kind == Ack {
        if r.yiaddr != offered.yiaddr || r.server.value != offered.server {
          return [];
        }
        outs := AckHandler(r, now);
      } else {
        outs := [];
      }
    }

    method NakHandler(r: Reply, now: int) returns (outs: seq<Output>)
      requires r.server.Some?
      modifies this
      ensures Outcome(Now(), outs) == NakReceived(old(Now()), now, r)
    {
      if state != SentRequest && state != Finished && state != Renewing {
        return [];
      }
      if r.server.value != offered.server {
        return [];
      }
      outs := [];
      if state == SentRequest {
        timers := timers - {RequestTimer};
      } else if state == Finished {
        timers := timers - {RenewTimer};
        outs := [Down];
      } else {
        timers := timers - {RenewRequestTimer};
        timers := timers - {LeaseTimer};
        outs := [Down];
      }
      timers := timers[ResetTimer := now + RESET_TIMEOUT];
      state := Resetting;
    }

    method OfferHandler(r: Reply, now: int) returns (outs: seq<Output>)
      requires r.server.Some?
      modifies this
      ensures Outcome(Now(), outs) == OfferReceived(old(Now()), now, r)
    {
      offered := Offered(r.yiaddr, r.server.value);
      outs := SendMessage(Request(xid, offered.yiaddr, Some(offered.server)));
      timers := timers - {ResetTimer};
      timers := timers[RequestTimer := now + REQUEST_TIMEOUT];
      state := SentRequest;
      requestCount := 1;
    }

    method AckHandler(r: Reply, now: int) returns (outs: seq<Output>)
      requires Acks(Now(), r)
      modifies this
      ensures Outcome(Now(), outs) == AckReceived(old(Now()), now, r)
    {
      outs := [];
      if state == SentRequest {
        acked := Acked(r.lease.value, r.mask.value, r.router, r.dns, r.serverMac);
        timers := timers - {RequestTimer};
        outs := [Up];
      } else {
        acked := acked.(lease := r.lease.value);
        timers := timers - {RenewRequestTimer};
        timers := timers - {LeaseTimer};
      }
      timers := timers[RenewTimer := now + RenewTimeout(acked.lease)];
      state := Finished;
    }
  }
}
