/** The start-time fair queue of flow/PacketPassFairQueue.c as a state machine.
    `Step` is the queue as the program runs it when `clock` is `Wrapping`, and the
    ideal queue, whose virtual times are natural numbers, when it is `Unbounded`. */
module FairQueue {
  import opened Wrappers

  const MAX_TIME: nat := 0xFFFF_FFFF_FFFF_FFFF

  /** A flow is named by its address, which breaks ties between equal times. */
  type FlowId = nat
  type Packet = seq<byte>

  datatype Clock = Wrapping | Unbounded

  datatype Queue = Queue(
    weight: nat,
    mtu: nat,
    time: map<FlowId, nat>,
    queued: map<FlowId, Packet>,
    sending: Option<FlowId>,
    sendingLen: nat,
    previous: Option<FlowId>,
    job: bool)
  {
    predicate Active(f: FlowId) {
      f in queued || sending == Some(f) || previous == Some(f)
    }

    predicate Busy() {
      sending.Some? || previous.Some? || queued.Keys != {}
    }
  }

  datatype Event =
    | FlowInit(flow: FlowId)
    | FlowFree(flow: FlowId)
    | Send(flow: FlowId, packet: Packet)
    | Done
    | Job

  datatype Sent = Sent(flow: FlowId, packet: Packet)

  // ----- the order of the queued tree

  predicate Before(time: map<FlowId, nat>, f: FlowId, g: FlowId)
    requires f in time && g in time
  {
    time[f] < time[g] || (time[f] == time[g] && f <= g)
  }

  ghost predicate IsFirst(time: map<FlowId, nat>, s: set<FlowId>, f: FlowId)
    requires s <= time.Keys
  {
    f in s && forall g :: g in s ==> Before(time, f, g)
  }

  lemma FirstExists(time: map<FlowId, nat>, s: set<FlowId>)
    requires s != {} && s <= time.Keys
    ensures exists f :: IsFirst(time, s, f)
  {
    var g :| g in s;
    if s == {g} {
      assert IsFirst(time, s, g);
    } else {
      FirstExists(time, s - {g});
      var rest :| IsFirst(time, s - {g}, rest);
      var f := if Before(time, g, rest) then g else rest;
      assert forall h :: h in s ==> h == g || h in s - {g};
      assert IsFirst(time, s, f);
    }
  }

  ghost function First(time: map<FlowId, nat>, s: set<FlowId>): (f: FlowId)
    requires s != {} && s <= time.Keys
    ensures IsFirst(time, s, f)
  {
    FirstExists(time, s);
    var f :| IsFirst(time, s, f);
    f
  }

  // ----- 64-bit arithmetic

  function Add64(a: int, b: int): nat {
    (a + b) % (MAX_TIME + 1)
  }

  function Sub64(a: int, b: int): nat {
    (a - b) % (MAX_TIME + 1)
  }

  // ----- the handlers

  ghost function CurrentTime(q: Queue): nat
    requires Inv(q)
  {
    if q.sending.Some? then q.time[q.sending.value]
    else if q.queued.Keys != {} then
      var t := q.time[First(q.time, q.queued.Keys)];
      if q.previous.Some? && q.time[q.previous.value] < t then q.time[q.previous.value] else t
    else if q.previous.Some? then q.time[q.previous.value]
    else 0
  }

  /** What increment_sent_flow takes off every clock when the sum would overflow. */
  ghost function Subtrahend(time: map<FlowId, nat>, queued: set<FlowId>, f: FlowId): nat
    requires queued <= time.Keys && f in time
  {
    if queued == {} then time[f] else time[First(time, queued)]
  }

  function Lowered(time: map<FlowId, nat>, f: FlowId, subtract: nat): map<FlowId, nat> {
    map g | g in time :: if subtract > time[g] && g != f then 0 else Sub64(time[g], subtract)
  }

  ghost function Incremented(time: map<FlowId, nat>, queued: set<FlowId>, f: FlowId, amount: nat): map<FlowId, nat>
    requires queued <= time.Keys && f in time
  {
    if amount > MAX_TIME - time[f] then
      var lowered := Lowered(time, f, Subtrahend(time, queued, f));
      lowered[f := Add64(lowered[f], amount)]
    else time[f := Add64(time[f], amount)]
  }

  ghost function Schedule(q: Queue): (r: (Queue, Option<Sent>))
    requires q.queued.Keys != {} && q.queued.Keys <= q.time.Keys
  {
    var f := First(q.time, q.queued.Keys);
    (q.(queued := q.queued - {f}, sending := Some(f), sendingLen := |q.queued[f]|), Some(Sent(f, q.queued[f])))
  }

  /** What the program asserts of its callers and of the interfaces it uses. */
  predicate Enabled(q: Queue, e: Event) {
    match e
    case FlowInit(f) => f !in q.time
    case FlowFree(f) => f in q.time && q.sending != Some(f)
    case Send(f, p) => f in q.time && q.sending != Some(f) && f !in q.queued && |p| <= q.mtu
    case Done => q.sending.Some?
    case Job => q.job
  }

  ghost function AfterSend(q: Queue, f: FlowId, p: Packet): (Queue, Option<Sent>)
    requires Inv(q) && Enabled(q, Send(f, p))
  {
    var raised :=
      if q.previous == Some(f) then q.(previous := None)
      else q.(time := q.time[f := Max(q.time[f], CurrentTime(q))]);
    var r := raised.(queued := raised.queued[f := p]);
    if r.sending.None? && !r.job then Schedule(r) else (r, None)
  }

  ghost function AfterDone(q: Queue, clock: Clock): Queue
    requires Inv(q) && Enabled(q, Done)
  {
    var f, amount := q.sending.value, q.weight + q.sendingLen;
    q.(sending := None, previous := Some(f), job := true,
       time := if clock.Wrapping? then Incremented(q.time, q.queued.Keys, f, amount)
               else q.time[f := q.time[f] + amount])
  }

  ghost function AfterJob(q: Queue): (Queue, Option<Sent>)
    requires Inv(q) && Enabled(q, Job)
  {
    var r := q.(previous := None, job := false);
    if r.queued.Keys != {} then Schedule(r) else (r, None)
  }

  ghost function Step(q: Queue, e: Event, clock: Clock): (r: (Queue, Option<Sent>))
    requires Inv(q) && Enabled(q, e)
  {
    match e
    case FlowInit(f) => (q.(time := q.time[f := 0]), None)
    case FlowFree(f) =>
      (q.(time := q.time - {f}, queued := q.queued - {f},
          previous := if q.previous == Some(f) then None else q.previous), None)
    case Send(f, p) => AfterSend(q, f, p)
    case Done => (AfterDone(q, clock), None)
    case Job => AfterJob(q)
  }

  function Max(a: nat, b: nat): nat {
    if a < b then b else a
  }

  // ----- what every step keeps

  predicate Known(q: Queue) {
    && q.queued.Keys <= q.time.Keys
    && (q.sending.Some? ==> q.sending.value in q.time)
    && (q.previous.Some? ==> q.previous.value in q.time)
  }

  /** Flags, lists and clock agree; the sending flow is never ahead of a queued one; and
      the queue is work-conserving: packets wait only behind a packet or the schedule job. */
  ghost predicate Inv(q: Queue) {
    && 0 < q.weight && q.weight + q.mtu <= MAX_TIME
    && Known(q)
    && (forall f :: f in q.queued ==> |q.queued[f]| <= q.mtu)
    && (q.sending.Some? ==>
          && q.sending.value !in q.queued && q.previous.None? && !q.job && q.sendingLen <= q.mtu
          && forall g :: g in q.queued ==> q.time[q.sending.value] <= q.time[g])
    && (q.previous.Some? ==> q.previous.value !in q.queued && q.job)
    && (q.queued.Keys != {} ==> q.sending.Some? || q.job)
  }

  ghost predicate Bounded(q: Queue) {
    forall f :: f in q.time ==> q.time[f] <= MAX_TIME
  }

  function Fresh(weight: nat, mtu: nat): Queue {
    Queue(weight, mtu, map[], map[], None, 0, None, false)
  }

  /** No step, on either clock, breaks the invariant. */
  lemma StepKeepsInv(q: Queue, e: Event, clock: Clock)
    requires Inv(q) && Enabled(q, e)
    ensures Inv(Step(q, e, clock).0)
  {
    var r := Step(q, e, clock).0;
    match e
    case FlowInit(f) =>
    case FlowFree(f) =>
    case Send(f, p) =>
    case Done =>
    case Job =>
  }

  // ----- the wrapping clock

  function Monus(a: nat, b: nat): nat {
    if a < b then 0 else a - b
  }

  /** The intentional underflow and overflow of increment_sent_flow cancel out: the finished
      flow gets the exact natural number, nothing leaves the 64-bit range, queued flows lose
      exactly the subtrahend, and only flows that are not queued are clamped. */
  lemma IncrementExact(time: map<FlowId, nat>, queued: set<FlowId>, f: FlowId, amount: nat) returns (sub: nat)
    requires queued <= time.Keys && f in time && f !in queued && amount <= MAX_TIME
    requires forall g :: g in time ==> time[g] <= MAX_TIME
    requires forall g :: g in queued ==> time[f] <= time[g]
    ensures var r := Incremented(time, queued, f, amount);
            && r.Keys == time.Keys
            && r[f] == time[f] + amount - sub
            && (forall g :: g in time && g != f ==> r[g] == Monus(time[g], sub))
            && (forall g :: g in time ==> r[g] <= MAX_TIME)
    ensures forall g :: g in queued ==> sub <= time[g]
    ensures if MAX_TIME < time[f] + amount then time[f] <= sub else sub == 0
  {
    if amount > MAX_TIME - time[f] {
      sub := Subtrahend(time, queued, f);
      assert time[f] <= sub <= MAX_TIME;
      var lowered := Lowered(time, f, sub);
      WrapCancels(time[f], sub, amount);
    } else {
      sub := 0;
    }
  }

  lemma WrapCancels(t: nat, sub: nat, amount: nat)
    requires t <= sub <= MAX_TIME && amount <= MAX_TIME < t + amount
    ensures Sub64(t, sub) == if t == sub then 0 else 0x1_0000_0000_0000_0000 - (sub - t)
    ensures Add64(Sub64(t, sub), amount) == t + amount - sub
  {
  }

  /** An overflow takes back as much as the first queued flow has, which is then at zero, or all
      that the finished flow had when nothing is queued. */
  lemma TakenBack(time: map<FlowId, nat>, queued: set<FlowId>, f: FlowId, amount: nat)
    requires queued <= time.Keys && f in time && f !in queued && amount <= MAX_TIME < time[f] + amount
    requires forall g :: g in time ==> time[g] <= MAX_TIME
    requires forall g :: g in queued ==> time[f] <= time[g]
    ensures var r := Incremented(time, queued, f, amount);
            if queued == {} then f in r && r[f] == amount else exists g :: g in queued && g in r && r[g] == 0
  {
    var sub := IncrementExact(time, queued, f, amount);
    if queued != {} { assert First(time, queued) in queued; }
  }

  /** What the step charges flow `f` for the packet it has just finished. */
  function Charge(q: Queue, e: Event, f: FlowId): nat {
    if e.Done? && q.sending == Some(f) then q.weight + q.sendingLen else 0
  }

  /** Every step moves all active clocks back by one common amount and charges the finished
      flow; idle flows fall back no further than zero, and stay at or above their old place. */
  lemma StepClock(q: Queue, e: Event, clock: Clock) returns (sub: nat)
    requires Inv(q) && Enabled(q, e) && (clock.Wrapping? ==> Bounded(q))
    ensures clock.Wrapping? ==> Bounded(Step(q, e, clock).0)
    ensures clock.Unbounded? ==> sub == 0
    ensures e.Done? || sub == 0
    ensures var r := Step(q, e, clock).0;
            && (forall f :: f in q.time && f in r.time && q.Active(f) ==>
                  r.time[f] == q.time[f] + Charge(q, e, f) - sub)
            && (forall f :: f in q.time && f in r.time && !q.Active(f) ==>
                  if e.Send? && e.flow == f then r.time[f] == Max(q.time[f], CurrentTime(q))
                  else r.time[f] == Monus(q.time[f], sub))
  {
    hide Incremented, First;
    sub := 0;
    if e.Done? && clock.Wrapping? {
      sub := IncrementExact(q.time, q.queued.Keys, q.sending.value, q.weight + q.sendingLen);
    }
  }

  // ----- refinement of the unbounded clock

  /** The wrapping queue `r` is the ideal queue `i` with `d` taken off every time; idle
      flows that are further behind have been clamped to zero. */
  ghost predicate Refines(r: Queue, i: Queue, d: nat) {
    && r == i.(time := r.time)
    && r.time.Keys == i.time.Keys
    && (forall f :: f in i.time ==> r.time[f] == Monus(i.time[f], d))
    && Known(i)
    && (forall f :: f in i.queued ==> d <= i.time[f])
    && (i.sending.Some? ==> d <= i.time[i.sending.value])
    && (i.previous.Some? ==> d <= i.time[i.previous.value])
  }

  lemma RefinesInv(r: Queue, i: Queue, d: nat)
    requires Inv(r) && Refines(r, i, d)
    ensures Inv(i)
  {
  }

  lemma RefinesFirst(r: Queue, i: Queue, d: nat)
    requires Refines(r, i, d) && r.queued.Keys != {}
    ensures First(r.time, r.queued.Keys) == First(i.time, i.queued.Keys)
  {
    var f, g := First(r.time, r.queued.Keys), First(i.time, i.queued.Keys);
    assert Before(r.time, f, g) && Before(i.time, g, f);
  }

  lemma ScheduleRefines(r: Queue, i: Queue, d: nat)
    requires Refines(r, i, d) && r.queued.Keys != {}
    ensures Refines(Schedule(r).0, Schedule(i).0, d) && Schedule(r).1 == Schedule(i).1
  {
    RefinesFirst(r, i, d);
  }

  lemma CurrentRefines(r: Queue, i: Queue, d: nat)
    requires Inv(r) && Inv(i) && Refines(r, i, d) && (r.Busy() || d == 0)
    ensures CurrentTime(i) == CurrentTime(r) + d
  {
    if r.queued.Keys != {} { RefinesFirst(r, i, d); }
  }

  lemma SendRefines(r: Queue, i: Queue, d: nat, f: FlowId, p: Packet)
    requires Inv(r) && Inv(i) && Refines(r, i, d) && Enabled(r, Send(f, p)) && (r.Busy() || d == 0)
    ensures Refines(AfterSend(r, f, p).0, AfterSend(i, f, p).0, d)
    ensures AfterSend(r, f, p).1 == AfterSend(i, f, p).1
  {
    hide Schedule;
    CurrentRefines(r, i, d);
    hide CurrentTime;
    var r1 := if r.previous == Some(f) then r.(previous := None)
              else r.(time := r.time[f := Max(r.time[f], CurrentTime(r))]);
    var i1 := if i.previous == Some(f) then i.(previous := None)
              else i.(time := i.time[f := Max(i.time[f], CurrentTime(i))]);
    var r2, i2 := r1.(queued := r1.queued[f := p]), i1.(queued := i1.queued[f := p]);
    assert Refines(r2, i2, d);
    if r2.sending.None? && !r2.job { ScheduleRefines(r2, i2, d); }
  }

  lemma TimesRefine(r: map<FlowId, nat>, i: map<FlowId, nat>, d: nat, r': map<FlowId, nat>,
                    queued: set<FlowId>, f: FlowId, amount: nat, sub: nat)
    requires r.Keys == i.Keys == r'.Keys && f in i && queued <= i.Keys && d <= i[f]
    requires forall g :: g in i ==> r[g] == Monus(i[g], d)
    requires r'[f] == r[f] + amount - sub && forall g :: g in r && g != f ==> r'[g] == Monus(r[g], sub)
    requires forall g :: g in queued ==> d <= i[g] && sub <= r[g]
    ensures forall g :: g in i ==> r'[g] == Monus(i[f := i[f] + amount][g], d + sub)
    ensures d + sub <= i[f] + amount && forall g :: g in queued ==> d + sub <= i[g]
  {
  }

  lemma DoneFacts(q: Queue)
    requires Inv(q) && q.sending.Some?
    ensures Known(q) && q.previous.None? && q.sending.value !in q.queued && q.sendingLen <= q.mtu
    ensures q.weight + q.mtu <= MAX_TIME
    ensures forall g :: g in q.queued ==> q.time[q.sending.value] <= q.time[g]
  {
  }

  /** The guard of increment_sent_flow: the finished packet's charge does not fit the clock. */
  predicate Overflows(q: Queue, e: Event) {
    && e.Done? && q.sending.Some? && q.sending.value in q.time
    && MAX_TIME < q.time[q.sending.value] + q.weight + q.sendingLen
  }

  lemma DoneRefines(r: Queue, i: Queue, d: nat) returns (d': nat)
    requires Inv(r) && Inv(i) && Bounded(r) && Refines(r, i, d) && r.sending.Some?
    ensures Refines(AfterDone(r, Wrapping), AfterDone(i, Unbounded), d')
    ensures if Overflows(r, Done) then r.time[r.sending.value] <= d' - d else d' == d
  {
    hide Incremented, First, Inv, Monus;
    DoneFacts(r);
    var f, amount := r.sending.value, r.weight + r.sendingLen;
    var sub := IncrementExact(r.time, r.queued.Keys, f, amount);
    d' := d + sub;
    TimesRefine(r.time, i.time, d, Incremented(r.time, r.queued.Keys, f, amount), r.queued.Keys, f, amount, sub);
  }

  lemma JobRefines(r: Queue, i: Queue, d: nat)
    requires Inv(r) && Inv(i) && Refines(r, i, d) && r.job
    ensures Refines(AfterJob(r).0, AfterJob(i).0, d) && AfterJob(r).1 == AfterJob(i).1
  {
    var r1, i1 := r.(previous := None, job := false), i.(previous := None, job := false);
    if r1.queued.Keys != {} { ScheduleRefines(r1, i1, d); }
  }

  lemma JoinRefines(r: Queue, i: Queue, d: nat, f: FlowId)
    requires Refines(r, i, d) && Enabled(r, FlowInit(f))
    ensures Refines(r.(time := r.time[f := 0]), i.(time := i.time[f := 0]), d)
  {
  }

  lemma LeaveRefines(r: Queue, i: Queue, d: nat, f: FlowId)
    requires Inv(r) && Inv(i) && Refines(r, i, d) && Enabled(r, FlowFree(f))
    ensures Refines(Step(r, FlowFree(f), Wrapping).0, Step(i, FlowFree(f), Unbounded).0, d)
  {
    hide AfterSend, AfterDone, AfterJob;
  }

  lemma SameEnabled(r: Queue, i: Queue, d: nat, e: Event)
    requires Refines(r, i, d)
    ensures Enabled(r, e) <==> Enabled(i, e)
    ensures r.Busy() <==> i.Busy()
  {
  }

  /** One step of the wrapping queue is one step of the ideal queue: same packet sent, same
      state up to the common offset, which only an overflow moves. Only a send into a queue
      that is not busy needs the two clocks to agree beforehand. */
  lemma StepRefines(r: Queue, i: Queue, d: nat, e: Event) returns (d': nat)
    requires Inv(r) && Bounded(r) && Refines(r, i, d) && Enabled(r, e)
    requires e.Send? ==> r.Busy() || d == 0
    ensures Inv(i) && Enabled(i, e)
    ensures Refines(Step(r, e, Wrapping).0, Step(i, e, Unbounded).0, d')
    ensures Step(r, e, Wrapping).1 == Step(i, e, Unbounded).1
    ensures if Overflows(r, e) then r.time[r.sending.value] <= d' - d else d' == d
  {
    hide AfterSend, AfterDone, AfterJob, Inv, Bounded, Refines;
    RefinesInv(r, i, d);
    SameEnabled(r, i, d, e);
    d' := d;
    match e
    case FlowInit(f) => JoinRefines(r, i, d, f);
    case FlowFree(f) => LeaveRefines(r, i, d, f);
    case Send(f, p) => SendRefines(r, i, d, f, p);
    case Done => d' := DoneRefines(r, i, d);
    case Job => JobRefines(r, i, d);
  }
}
