/** The client of dhcpclient/BDHCPClientCore.c as a state machine over received replies and
    timers, with times in milliseconds. */
module Dhcp {
  import opened Wrappers

  const RESET_TIMEOUT := 4000
  const REQUEST_TIMEOUT := 3000
  const RENEW_REQUEST_TIMEOUT := 20000
  const MAX_REQUESTS := 4
  const XID_REUSE_MAX := 8

  function RenewTimeout(lease: nat): nat {
    500 * lease
  }

  function LeaseTimeout(lease: nat): nat {
    1000 * lease - RenewTimeout(lease)
  }

  datatype State = Resetting | SentDiscover | SentRequest | Finished | Renewing

  datatype Timer = ResetTimer | RequestTimer | RenewTimer | RenewRequestTimer | LeaseTimer

  datatype Kind = Offer | Ack | Nak | OtherKind

  /** A reply with a good header and options, whatever its transaction. */
  datatype Reply = Reply(kind: Kind, xid: nat, server: Option<nat>, yiaddr: nat, lease: Option<nat>, mask: Option<nat>,
                         router: Option<nat>, dns: seq<nat>, serverMac: nat)

  datatype Message = Discover(xid: nat) | Request(xid: nat, address: nat, server: Option<nat>)

  datatype Output = Send(message: Message) | Up | Down

  datatype Offered = Offered(yiaddr: nat, server: nat)

  datatype Acked = Acked(lease: nat, mask: nat, router: Option<nat>, dns: seq<nat>, serverMac: nat)

  datatype Client = Client(state: State, xid: nat, xidReuse: nat, requestCount: nat, offered: Offered, acked: Acked,
                           sending: bool, timers: map<Timer, int>)

  datatype Outcome = Outcome(client: Client, outs: seq<Output>)

  datatype Event = Receive(reply: Reply) | Expire(timer: Timer, freshXid: nat) | SendDone

  // ----- handlers

  /** Nothing is sent while the previous message still is. */
  function Sent(c: Client, m: Message): Outcome {
    if c.sending then Outcome(c, []) else Outcome(c.(sending := true), [Send(m)])
  }

  function SetTimer(c: Client, t: Timer, time: int): Client {
    c.(timers := c.timers[t := time])
  }

  function StopTimer(c: Client, t: Timer): Client {
    c.(timers := c.timers - {t})
  }

  function StartProcess(c: Client, now: int, forceNew: bool, freshXid: nat): Outcome {
    var renew := forceNew || c.xidReuse == XID_REUSE_MAX;
    var d := c.(xid := if renew then freshXid else c.xid, xidReuse := if renew then 1 else c.xidReuse + 1);
    var sent := Sent(d, Discover(d.xid));
    sent.(client := SetTimer(sent.client, ResetTimer, now + RESET_TIMEOUT).(state := SentDiscover))
  }

  function Request1(c: Client): Outcome {
    Sent(c, Request(c.xid, c.offered.yiaddr, Some(c.offered.server)))
  }

  function RequestAgain(c: Client): Outcome {
    Sent(c, Request(c.xid, c.offered.yiaddr, None))
  }

  function Expired(c: Client, now: int, t: Timer, freshXid: nat): Outcome {
    var o := StopTimer(c, t);
    match t
    case ResetTimer => StartProcess(o, now, c.state == Resetting, freshXid)
    case RequestTimer =>
      if c.requestCount == MAX_REQUESTS then StartProcess(o, now, false, freshXid)
      else
        var sent := Request1(o);
        sent.(client := SetTimer(sent.client, RequestTimer, now + REQUEST_TIMEOUT).(requestCount := c.requestCount + 1))
    case RenewTimer =>
      var sent := RequestAgain(o);
      var d := SetTimer(sent.client, RenewRequestTimer, now + RENEW_REQUEST_TIMEOUT);
      sent.(client := SetTimer(d, LeaseTimer, now + LeaseTimeout(c.acked.lease)).(state := Renewing))
    case RenewRequestTimer =>
      var sent := RequestAgain(o);
      sent.(client := SetTimer(sent.client, RenewRequestTimer, now + RENEW_REQUEST_TIMEOUT))
    case LeaseTimer =>
      var started := StartProcess(StopTimer(o, RenewRequestTimer), now, true, freshXid);
      started.(outs := started.outs + [Down])
  }

  /** Replies that name a transaction and server the client cannot be waiting for, or lack what
      every reply must have, change nothing. */
  predicate Relevant(c: Client, r: Reply) {
    c.state != Resetting && r.xid == c.xid && r.kind != OtherKind && r.server.Some?
  }

  predicate Usable(r: Reply) {
    r.yiaddr != 0 && r.lease.Some? && r.mask.Some?
  }

  function NakReceived(c: Client, now: int, r: Reply): Outcome
    requires r.server.Some?
  {
    if c.state == SentDiscover || c.state == Resetting || r.server.value != c.offered.server then Outcome(c, [])
    else
      var stopped :=
        if c.state == SentRequest then StopTimer(c, RequestTimer)
        else if c.state == Finished then StopTimer(c, RenewTimer)
        else StopTimer(StopTimer(c, RenewRequestTimer), LeaseTimer);
      Outcome(SetTimer(stopped, ResetTimer, now + RESET_TIMEOUT).(state := Resetting),
              if c.state == SentRequest then [] else [Down])
  }

  function OfferReceived(c: Client, now: int, r: Reply): Outcome
    requires r.server.Some?
  {
    var sent := Request1(c.(offered := Offered(r.yiaddr, r.server.value)));
    var d := SetTimer(StopTimer(sent.client, ResetTimer), RequestTimer, now + REQUEST_TIMEOUT);
    sent.(client := d.(state := SentRequest, requestCount := 1))
  }

  /** The ACK of the offer that was requested. */
  predicate Acks(c: Client, r: Reply) {
    && Relevant(c, r) && Usable(r) && r.kind == Ack && (c.state == SentRequest || c.state == Renewing)
    && r.yiaddr == c.offered.yiaddr && r.server == Some(c.offered.server)
  }

  function AckReceived(c: Client, now: int, r: Reply): Outcome
    requires Acks(c, r)
  {
    if c.state == SentRequest then
      var d := StopTimer(c, RequestTimer).(acked := Acked(r.lease.value, r.mask.value, r.router, r.dns, r.serverMac));
      Outcome(SetTimer(d, RenewTimer, now + RenewTimeout(r.lease.value)).(state := Finished), [Up])
    else
      var d := StopTimer(StopTimer(c, RenewRequestTimer), LeaseTimer).(acked := c.acked.(lease := r.lease.value));
      Outcome(SetTimer(d, RenewTimer, now + RenewTimeout(r.lease.value)).(state := Finished), [])
  }

  function Received(c: Client, now: int, r: Reply): Outcome {
    if !Relevant(c, r) then Outcome(c, [])
    else if r.kind == Nak then NakReceived(c, now, r)
    else if !Usable(r) then Outcome(c, [])
    else if c.state == SentDiscover && r.kind == Offer then OfferReceived(c, now, r)
    else if Acks(c, r) then AckReceived(c, now, r)
    else Outcome(c, [])
  }

  function Step(c: Client, now: int, e: Event): Outcome {
    match e
    case Receive(r) => Received(c, now, r)
    case Expire(t, x) => Expired(c, now, t, x)
    case SendDone => Outcome(c.(sending := false), [])
  }

  function Initial(now: int, freshXid: nat): Outcome {
    StartProcess(Client(Resetting, 0, 0, 0, Offered(0, 0), Acked(0, 0, None, [], 0), false, map[]), now, true, freshXid)
  }

  // ----- what every step keeps

  function TimersOf(s: State): set<Timer> {
    match s
    case Resetting => {ResetTimer}
    case SentDiscover => {ResetTimer}
    case SentRequest => {RequestTimer}
    case Finished => {RenewTimer}
    case Renewing => {RenewRequestTimer, LeaseTimer}
  }

  predicate IsUp(s: State) {
    s == Finished || s == Renewing
  }

  /** The running timers are exactly those of the state, and the counters are in range. */
  ghost predicate Inv(c: Client) {
    && c.timers.Keys == TimersOf(c.state)
    && 1 <= c.xidReuse <= XID_REUSE_MAX
    && (c.state == SentRequest ==> 1 <= c.requestCount <= MAX_REQUESTS)
  }

  /** Timers expire and messages are sent off only if they are under way. */
  predicate Enabled(c: Client, e: Event) {
    match e
    case Receive(_) => true
    case Expire(t, _) => t in c.timers
    case SendDone => c.sending
  }

  lemma StepKeeps(c: Client, now: int, e: Event)
    requires Inv(c) && Enabled(c, e)
    ensures Inv(Step(c, now, e).client)
  {
  }

  /** A client starts with a new transaction number and a DISCOVER. */
  lemma InitialAsks(now: int, freshXid: nat)
    ensures var o := Initial(now, freshXid);
            && Inv(o.client) && o.outs == [Send(Discover(freshXid))] && o.client.xid == freshXid && o.client.xidReuse == 1
            && o.client.state == SentDiscover && o.client.timers == map[ResetTimer := now + 4000] && o.client.sending
  {
  }

  function Report(o: Output): seq<Output> {
    if o.Send? then [] else [o]
  }

  /** The reports among the outputs. */
  function Reports(outs: seq<Output>): seq<Output> {
    if outs == [] then [] else Report(outs[0]) + Reports(outs[1..])
  }

  lemma {:induction false} ReportsConcat(a: seq<Output>, b: seq<Output>)
    ensures Reports(a + b) == Reports(a) + Reports(b)
  {
    hide Report;
    if a == [] {
      assert a + b == b;
    } else {
      ReportsConcat(a[1..], b);
      assert (a + b)[1..] == a[1..] + b;
      var x, y, z := Report(a[0]), Reports(a[1..]), Reports(b);
      assert x + (y + z) == x + y + z;
    }
  }

  /** Up is reported exactly on entering the states Finished and Renewing from outside, and
      Down exactly on leaving them. */
  lemma StepReports(c: Client, now: int, e: Event)
    requires Inv(c) && Enabled(c, e)
    ensures var o := Step(c, now, e);
            Reports(o.outs) == if IsUp(c.state) == IsUp(o.client.state) then [] else if IsUp(c.state) then [Down] else [Up]
  {
    var o := Step(c, now, e);
    if |o.outs| == 2 {
      assert o.outs == [o.outs[0]] + [o.outs[1]];
      ReportsConcat([o.outs[0]], [o.outs[1]]);
    }
    assert Reports([]) == [];
    assert |o.outs| == 1 ==> o.outs[1..] == [];
  }

  /** The client comes up only by an ACK of its request, from the server and for the address
      of the offer, and goes down exactly when that server refuses it or the lease runs out.
      After a refusal of a request or a lease it rests until its reset timer goes off. */
  lemma StepTurns(c: Client, now: int, e: Event)
    requires Inv(c) && Enabled(c, e)
    ensures var up := IsUp(Step(c, now, e).client.state);
            && (!IsUp(c.state) ==>
                  (up <==> && c.state == SentRequest && e.Receive? && e.reply.kind == Ack && e.reply.xid == c.xid
                           && e.reply.server == Some(c.offered.server) && e.reply.yiaddr == c.offered.yiaddr != 0
                           && e.reply.lease.Some? && e.reply.mask.Some?))
            && (IsUp(c.state) ==>
                  (!up <==> (e.Expire? && e.timer == LeaseTimer)
                            || (e.Receive? && e.reply.kind == Nak && e.reply.xid == c.xid
                                && e.reply.server == Some(c.offered.server))))
    ensures Step(c, now, e).client.state == Resetting <==>
              if c.state == Resetting then !e.Expire?
              else c.state != SentDiscover && e.Receive? && e.reply.kind == Nak && e.reply.xid == c.xid
                   && e.reply.server == Some(c.offered.server)
  {
    if e.Expire? { assert e.timer in TimersOf(c.state); }
  }

  /** The offer kept is that of the last OFFER taken while discovering, and the lease, mask,
      router, servers and address kept are those of the ACK that brought the client up; an ACK
      that renews brings a lease only. Nothing else changes them. */
  lemma StepKnows(c: Client, now: int, e: Event)
    requires Inv(c) && Enabled(c, e)
    ensures var m := Step(c, now, e).client;
            var good := e.Receive? && e.reply.xid == c.xid && e.reply.server.Some? && e.reply.yiaddr != 0
                        && e.reply.lease.Some? && e.reply.mask.Some?;
            var acked := good && e.reply.kind == Ack && e.reply.server == Some(c.offered.server)
                         && e.reply.yiaddr == c.offered.yiaddr;
            && m.offered == (if good && e.reply.kind == Offer && c.state == SentDiscover
                             then Offered(e.reply.yiaddr, e.reply.server.value) else c.offered)
            && m.acked == (if acked && c.state == SentRequest
                           then Acked(e.reply.lease.value, e.reply.mask.value, e.reply.router, e.reply.dns, e.reply.serverMac)
                           else if acked && c.state == Renewing then c.acked.(lease := e.reply.lease.value)
                           else c.acked)
            && (acked && (c.state == SentRequest || c.state == Renewing) ==> m.state == Finished)
  {
  }

  /** A timer that starts runs for its time: 4 s to the next process, 3 s to the next request,
      half the lease to renewal, 20 s to the next renewal request and half the lease to its
      end. Running timers are not touched. */
  lemma StepTimers(c: Client, now: int, e: Event)
    requires Inv(c) && Enabled(c, e)
    ensures var m := Step(c, now, e).client;
            forall t :: t in m.timers ==>
              m.timers[t] == if t in c.timers && !(e.Expire? && e.timer == t) then c.timers[t]
                             else now + match t
                                        case ResetTimer => 4000
                                        case RequestTimer => 3000
                                        case RenewTimer => 500 * m.acked.lease
                                        case RenewRequestTimer => 20000
                                        case LeaseTimer => 500 * m.acked.lease
  {
    hide Received, Expired;
    match e
    case Receive(r) => ReceivedTimers(c, now, r);
    case Expire(t, x) => ExpiredTimers(c, now, t, x);
    case SendDone =>
  }

  lemma ReceivedTimers(c: Client, now: int, r: Reply)
    requires Inv(c)
    ensures var m := Received(c, now, r).client;
            forall t :: t in m.timers ==>
              if t in c.timers then m.timers[t] == c.timers[t]
              else match t
                   case ResetTimer => m.timers[t] == now + 4000
                   case RequestTimer => m.timers[t] == now + 3000
                   case RenewTimer => m.timers[t] == now + 500 * m.acked.lease
                   case _ => false
  {
  }

  lemma ExpiredTimers(c: Client, now: int, timer: Timer, freshXid: nat)
    requires Inv(c) && timer in c.timers
    ensures var m := Expired(c, now, timer, freshXid).client;
            forall t :: t in m.timers ==>
              if t in c.timers && t != timer then m.timers[t] == c.timers[t]
              else match t
                   case ResetTimer => m.timers[t] == now + 4000
                   case RequestTimer => m.timers[t] == now + 3000
                   case RenewTimer => false
                   case RenewRequestTimer => m.timers[t] == now + 20000
                   case LeaseTimer => m.timers[t] == now + 500 * m.acked.lease
  {
    assert timer in TimersOf(c.state);
  }

  /** When a process starts anew: after the reset timer, the fourth request, or the lease. */
  predicate Restarts(c: Client, e: Event) {
    e.Expire? && (e.timer == ResetTimer || e.timer == LeaseTimer || (e.timer == RequestTimer && c.requestCount == 4))
  }

  /** What goes out, when nothing is on its way: a DISCOVER on every new start, a REQUEST to the
      server on its offer and up to three times more, and a REQUEST to any server on renewal. A
      new start takes a new transaction number after a refusal or the end of a lease and when
      the old one has been used eight times; else all keep the one in use. */
  lemma StepAsks(c: Client, now: int, e: Event)
    requires Inv(c) && Enabled(c, e)
    ensures var (m, outs) := (Step(c, now, e).client, Step(c, now, e).outs);
            && m.xid == (if Restarts(c, e) && (c.state == Resetting || e.timer == LeaseTimer || c.xidReuse == 8)
                         then e.freshXid else c.xid)
            && (Restarts(c, e) ==>
                  m.xidReuse == if c.state == Resetting || e.timer == LeaseTimer || c.xidReuse == 8 then 1 else c.xidReuse + 1)
            && (!Restarts(c, e) ==> m.xidReuse == c.xidReuse)
            && (Restarts(c, e) ==> m.state == SentDiscover && (!c.sending ==> outs != [] && outs[0] == Send(Discover(m.xid))))
            && (e.Expire? && e.timer == RequestTimer && c.requestCount < 4 ==>
                  && m.state == SentRequest && m.requestCount == c.requestCount + 1
                  && (!c.sending ==> outs == [Send(Request(c.xid, c.offered.yiaddr, Some(c.offered.server)))]))
            && (e.Receive? && c.state == SentDiscover && m.state == SentRequest ==>
                  && m.requestCount == 1
                  && (!c.sending ==> outs == [Send(Request(c.xid, e.reply.yiaddr, e.reply.server))]))
            && (e.Expire? && (e.timer == RenewTimer || e.timer == RenewRequestTimer) ==>
                  && m.state == Renewing
                  && (!c.sending ==> outs == [Send(Request(c.xid, c.offered.yiaddr, None))]))
  {
    if e.Expire? { assert e.timer in TimersOf(c.state); }
  }

  /** A message goes out only if none is on its way. It carries the current transaction number;
      a DISCOVER starts a process, and a REQUEST asks for the offered address, from the server
      that offered it at first and from any when renewing. */
  lemma StepSends(c: Client, now: int, e: Event)
    requires Inv(c) && Enabled(c, e)
    ensures var o := Step(c, now, e);
            forall k :: 0 <= k < |o.outs| && o.outs[k].Send? ==>
              k == 0 && !c.sending && o.client.sending && MessageOf(o.client, o.outs[k].message)
    ensures var o := Step(c, now, e);
            !(o.outs != [] && o.outs[0].Send?) ==> o.client.sending == (c.sending && !e.SendDone?)
  {
  }

  predicate MessageOf(c: Client, m: Message) {
    && m.xid == c.xid
    && match m
       case Discover(_) => c.state == SentDiscover
       case Request(_, address, server) =>
         address == c.offered.yiaddr
         && if c.state == SentRequest then server == Some(c.offered.server) else c.state == Renewing && server == None
  }

  // ----- runs

  datatype Timed = Timed(now: int, event: Event)

  /** When a run starts, and its first transaction number. */
  datatype Begin = Begin(now: int, freshXid: nat)

  /** A client after a run: its outputs, and when it last accepted an ACK for what lease. */
  datatype Run = Run(client: Client, outs: seq<Output>, ackTime: int, ackLease: nat)

  function RunStep(r: Run, t: Timed): Run {
    var o := Step(r.client, t.now, t.event);
    var acks := t.event.Receive? && Acks(r.client, t.event.reply);
    Run(o.client, r.outs + o.outs,
        if acks then t.now else r.ackTime, if acks then t.event.reply.lease.value else r.ackLease)
  }

  /** Events come in time order, and no timer is more than `late` late. */
  predicate Punctual(r: Run, from: int, t: Timed, late: nat) {
    && Enabled(r.client, t.event) && from <= t.now
    && (forall k :: k in r.client.timers ==> t.now <= r.client.timers[k] + late)
    && (t.event.Expire? ==> r.client.timers[t.event.timer] <= t.now)
  }

  function Start(now: int, freshXid: nat): Run {
    Run(Initial(now, freshXid).client, Initial(now, freshXid).outs, now, 0)
  }

  ghost predicate Legal(start: Begin, es: seq<Timed>, late: nat)
    decreases |es|, 0
  {
    es != [] ==>
      && Legal(start, es[..|es| - 1], late)
      && Punctual(After(start, es[..|es| - 1], late), Clock(start, es[..|es| - 1]), es[|es| - 1], late)
  }

  ghost function After(start: Begin, es: seq<Timed>, late: nat): Run
    requires Legal(start, es, late)
    decreases |es|, 1
  {
    if es == [] then Start(start.now, start.freshXid) else RunStep(After(start, es[..|es| - 1], late), es[|es| - 1])
  }

  function Clock(start: Begin, es: seq<Timed>): int {
    if es == [] then start.now else es[|es| - 1].now
  }

  /** The reports so far: Up and Down in turn, and the last one right. */
  predicate Alternate(reports: seq<Output>, up: bool) {
    && (forall i :: 0 <= i < |reports| ==> reports[i] == if i % 2 == 0 then Up else Down)
    && (up <==> |reports| % 2 == 1)
  }

  /** Timers that end the lease: the renew timer half a lease after the ACK, and then the lease
      timer, which was set when the renew timer went off. */
  ghost predicate LeaseClock(r: Run, late: nat) {
    && (r.client.state == Finished ==>
          r.client.acked.lease == r.ackLease && RenewTimer in r.client.timers
          && r.client.timers[RenewTimer] == r.ackTime + 500 * r.ackLease)
    && (r.client.state == Renewing ==>
          r.client.acked.lease == r.ackLease && LeaseTimer in r.client.timers
          && r.client.timers[LeaseTimer] <= r.ackTime + 1000 * r.ackLease + late)
  }

  ghost predicate RunInv(r: Run, late: nat) {
    && Inv(r.client) && Alternate(Reports(r.outs), IsUp(r.client.state)) && LeaseClock(r, late)
  }

  lemma LeaseStep(r: Run, from: int, t: Timed, late: nat)
    requires Inv(r.client) && LeaseClock(r, late) && Punctual(r, from, t, late)
    ensures LeaseClock(RunStep(r, t), late)
  {
  }

  lemma AlternateStep(reports: seq<Output>, was: bool, up: bool)
    requires Alternate(reports, was)
    ensures Alternate(reports + if was == up then [] else if was then [Down] else [Up], up)
  {
    assert reports + [] == reports;
  }

  lemma RunStepKeeps(r: Run, from: int, t: Timed, late: nat)
    requires RunInv(r, late) && Punctual(r, from, t, late)
    ensures RunInv(RunStep(r, t), late)
  {
    var o := Step(r.client, t.now, t.event);
    StepKeeps(r.client, t.now, t.event);
    StepReports(r.client, t.now, t.event);
    ReportsConcat(r.outs, o.outs);
    AlternateStep(Reports(r.outs), IsUp(r.client.state), IsUp(o.client.state));
    LeaseStep(r, from, t, late);
    hide Step, Inv, LeaseClock, Alternate, Reports;
  }

  /** Over all runs: the timers are those of the state, Up and Down reports alternate with the
      last one right, and with timers no more than `late` late the client is never up later
      than 1000 ms times the lease, and twice `late`, after the last ACK it accepted. */
  lemma {:induction false} Runs(start: Begin, es: seq<Timed>, late: nat)
    requires Legal(start, es, late)
    ensures RunInv(After(start, es, late), late)
    decreases |es|
  {
    if es == [] {
      assert Reports(Start(start.now, start.freshXid).outs) == [] by {
        assert Start(start.now, start.freshXid).outs[1..] == [];
      }
    } else {
      Runs(start, es[..|es| - 1], late);
      RunStepKeeps(After(start, es[..|es| - 1], late), Clock(start, es[..|es| - 1]), es[|es| - 1], late);
    }
  }

  /** At any moment `now` before which no timer was due for longer than `late`. */
  lemma NeverUpTooLong(start: Begin, es: seq<Timed>, late: nat, now: int)
    requires Legal(start, es, late)
    requires var r := After(start, es, late);
             IsUp(r.client.state) && forall k :: k in r.client.timers ==> now <= r.client.timers[k] + late
    ensures now <= After(start, es, late).ackTime + 1000 * After(start, es, late).ackLease + 2 * late
  {
    Runs(start, es, late);
    hide Alternate, Reports;
  }

  lemma RunSnoc(start: Begin, es: seq<Timed>, t: Timed, late: nat)
    requires Legal(start, es, late) && Punctual(After(start, es, late), Clock(start, es), t, late)
    ensures Legal(start, es + [t], late) && Clock(start, es + [t]) == t.now
    ensures After(start, es + [t], late) == RunStep(After(start, es, late), t)
  {
    hide Punctual, RunStep;
    assert (es + [t])[..|es|] == es;
  }

  function OfferOf(lease: nat): Reply {
    Reply(Offer, 0, Some(0), 1, Some(lease), Some(0), None, [], 0)
  }

  /** An offer comes and its REQUEST goes out, all at 0. */
  function Asked(lease: nat): seq<Timed> {
    [] + [Timed(0, SendDone)] + [Timed(0, Receive(OfferOf(lease)))] + [Timed(0, SendDone)]
  }

  lemma AskedRun(lease: nat)
    ensures Legal(Begin(0, 0), Asked(lease), 0) && Legal(Begin(0, 0), Asked(lease)[..2], 0) && Clock(Begin(0, 0), Asked(lease)) == 0
    ensures After(Begin(0, 0), Asked(lease)[..2], 0).outs == [Send(Discover(0)), Send(Request(0, 1, Some(0)))]
    ensures After(Begin(0, 0), Asked(lease), 0).client
         == Client(SentRequest, 0, 1, 1, Offered(1, 0), Acked(0, 0, None, [], 0), false, map[RequestTimer := REQUEST_TIMEOUT])
  {
    hide Legal, After, Clock;
    var start, t0, t1, t2 := Begin(0, 0), Timed(0, SendDone), Timed(0, Receive(OfferOf(lease))), Timed(0, SendDone);
    NoEvents(start);
    RunSnoc(start, [], t0, 0);
    RunSnoc(start, [] + [t0], t1, 0);
    RunSnoc(start, [] + [t0] + [t1], t2, 0);
    assert Asked(lease)[..2] == [] + [t0] + [t1];
  }

  /** The lease is counted from the arrival of the ACK: with timers on time, a client whose
      REQUEST went out at 0 is up `delay` after the lease it asked for would have ended. */
  lemma CountedFromAck(delay: nat, lease: nat) returns (es: seq<Timed>)
    requires delay <= REQUEST_TIMEOUT && RenewTimeout(lease) <= RENEW_REQUEST_TIMEOUT
    ensures |es| == 5 && es[1].now == 0 && Legal(Begin(0, 0), es, 0) && Legal(Begin(0, 0), es[..2], 0)
    ensures After(Begin(0, 0), es[..2], 0).outs == [Send(Discover(0)), Send(Request(0, 1, Some(0)))]
    ensures var r := After(Begin(0, 0), es, 0);
            IsUp(r.client.state) && forall k :: k in r.client.timers ==> delay + 1000 * lease <= r.client.timers[k]
  {
    hide Legal, After, Clock;
    var start := Begin(0, 0);
    var ack := Timed(delay, Receive(OfferOf(lease).(kind := Ack)));
    var renew := Timed(delay + RenewTimeout(lease), Expire(RenewTimer, 0));
    AskedRun(lease);
    RunSnoc(start, Asked(lease), ack, 0);
    RunSnoc(start, Asked(lease) + [ack], renew, 0);
    es := Asked(lease) + [ack] + [renew];
    assert es[..2] == Asked(lease)[..2];
  }

  lemma NoEvents(start: Begin)
    ensures Legal(start, [], 0) && After(start, [], 0) == Start(start.now, start.freshXid) && Clock(start, []) == start.now
  {
  }
}
