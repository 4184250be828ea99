/** What the fair queue hands to its output: every packet of every flow, in order and charged
    for by its real length, so that fairness holds of the bytes that leave. */
module FairQueueService {
  import opened Wrappers
  import opened FairQueue
  import opened FairQueueRuns

  // ----- what is charged is what was sent

  /** Bytes and packet weights of the packets of `f` among those handed to the output. */
  function Bytes(sents: seq<Sent>, f: FlowId, weight: nat): nat {
    if sents == [] then 0
    else (if sents[0].flow == f then weight + |sents[0].packet| else 0) + Bytes(sents[1..], f, weight)
  }

  /** What `f` will be charged for a packet that is with the output. */
  function InOutput(q: Queue, f: FlowId): nat {
    if q.sending == Some(f) then q.weight + q.sendingLen else 0
  }

  function Emitted(s: Option<Sent>): seq<Sent> {
    if s.Some? then [s.value] else []
  }

  lemma {:induction false} BytesConcat(a: seq<Sent>, b: seq<Sent>, f: FlowId, weight: nat)
    ensures Bytes(a + b, f, weight) == Bytes(a, f, weight) + Bytes(b, f, weight)
  {
    if a == [] {
      assert a + b == b;
    } else {
      BytesConcat(a[1..], b, f, weight);
      assert (a + b)[1..] == a[1..] + b;
    }
  }

  lemma StepCharged(q: Queue, e: Event, clock: Clock, f: FlowId)
    requires Inv(q) && Enabled(q, e)
    ensures var (r, s) := Step(q, e, clock);
            && r.weight == q.weight
            && Charge(q, e, f) + InOutput(r, f) == InOutput(q, f) + Bytes(Emitted(s), f, q.weight)
  {
    hide First, Incremented;
    var s := Step(q, e, clock).1;
    assert Emitted(s) != [] ==> Emitted(s)[1..] == [];
  }

  /** Over any run, on either clock, a flow is charged its weight and length for each of its
      packets handed to the output, but for one still there, and for one there at the start. */
  lemma {:induction false} ChargedIsSent(q: Queue, es: seq<Event>, clock: Clock, f: FlowId)
    requires Inv(q) && Legal(q, es, clock)
    ensures var r := Final(q, es, clock);
            && r.weight == q.weight
            && Service(q, es, clock, f) + InOutput(r, f) == InOutput(q, f) + Bytes(Sents(q, es, clock), f, q.weight)
    decreases |es|
  {
    hide Step, Inv, Enabled, InOutput, Charge;
    if es != [] {
      StepCharged(q, es[0], clock, f);
      var r := Next(q, es[0], clock);
      ChargedIsSent(r, es[1..], clock, f);
      BytesConcat(Emitted(Step(q, es[0], clock).1), Sents(r, es[1..], clock), f, q.weight);
    }
  }

  /** The packet with the output is the last one handed to it. */
  lemma {:induction false} LastInOutput(q: Queue, es: seq<Event>, clock: Clock)
    requires Inv(q) && Legal(q, es, clock)
    ensures var r, sents := Final(q, es, clock), Sents(q, es, clock);
            r.sending.Some? ==>
              if sents == [] then r.sending == q.sending && r.sendingLen == q.sendingLen
              else r.sending == Some(sents[|sents| - 1].flow) && r.sendingLen == |sents[|sents| - 1].packet|
    decreases |es|
  {
    hide Step, Inv, Enabled;
    if es != [] {
      StepOutput(q, es[0], clock);
      LastInOutput(Next(q, es[0], clock), es[1..], clock);
    }
  }

  lemma StepOutput(q: Queue, e: Event, clock: Clock)
    requires Inv(q) && Enabled(q, e)
    ensures var (r, s) := Step(q, e, clock);
            r.sending.Some? ==>
              if s.None? then r.sending == q.sending && r.sendingLen == q.sendingLen
              else r.sending == Some(s.value.flow) && r.sendingLen == |s.value.packet|
  {
  }

  // ----- every packet goes out, once and in order

  function One(s: Sent, f: FlowId): seq<Packet> {
    if s.flow == f then [s.packet] else []
  }

  function Of(sents: seq<Sent>, f: FlowId): seq<Packet> {
    if sents == [] then [] else One(sents[0], f) + Of(sents[1..], f)
  }

  function Given(es: seq<Event>, f: FlowId): seq<Packet> {
    if es == [] then []
    else (if es[0].Send? && es[0].flow == f then [es[0].packet] else []) + Given(es[1..], f)
  }

  function Waiting(q: Queue, f: FlowId): seq<Packet> {
    if f in q.queued then [q.queued[f]] else []
  }

  lemma {:induction false} OfConcat(a: seq<Sent>, b: seq<Sent>, f: FlowId)
    ensures Of(a + b, f) == Of(a, f) + Of(b, f)
  {
    hide One;
    if a == [] {
      assert a + b == b;
    } else {
      OfConcat(a[1..], b, f);
      assert (a + b)[1..] == a[1..] + b;
      var x, y, z := One(a[0], f), Of(a[1..], f), Of(b, f);
      assert x + (y + z) == x + y + z;
    }
  }

  lemma StepPasses(q: Queue, e: Event, clock: Clock, f: FlowId)
    requires Inv(q) && Enabled(q, e) && e != FlowFree(f)
    ensures var (r, s) := Step(q, e, clock);
            Of(Emitted(s), f) + Waiting(r, f) == Waiting(q, f) + Given([e], f)
  {
    hide First, Incremented;
    var s := Step(q, e, clock).1;
    assert Emitted(s) != [] ==> Emitted(s)[1..] == [];
    assert [e][1..] == [];
  }

  lemma Chained(a: seq<Packet>, b: seq<Packet>, w0: seq<Packet>, w1: seq<Packet>, w2: seq<Packet>, g0: seq<Packet>, g1: seq<Packet>)
    requires a + w1 == w0 + g0 && b + w2 == w1 + g1
    ensures (a + b) + w2 == w0 + (g0 + g1)
  {
    calc {
      (a + b) + w2;
      a + (b + w2);
      a + (w1 + g1);
      (a + w1) + g1;
      w0 + (g0 + g1);
    }
  }

  lemma GivenHead(es: seq<Event>, f: FlowId)
    requires es != []
    ensures Given(es, f) == Given([es[0]], f) + Given(es[1..], f)
  {
    assert [es[0]][1..] == [];
  }

  /** While a flow is not freed, the packets it gives to the queue come out in their order and
      unchanged, all but the one that waits. */
  lemma {:induction false} InOrder(q: Queue, es: seq<Event>, clock: Clock, f: FlowId)
    requires Inv(q) && Legal(q, es, clock) && FlowFree(f) !in es
    ensures Of(Sents(q, es, clock), f) + Waiting(Final(q, es, clock), f) == Waiting(q, f) + Given(es, f)
    decreases |es|
  {
    hide Step, Inv, Enabled, Waiting, Of;
    if es == [] {
      assert Of([], f) + Waiting(q, f) == Waiting(q, f) + [] by { NoneOf(f); }
    } else {
      hide Given;
      var e, rest := es[0], es[1..];
      var r, s := Next(q, e, clock), Emitted(Step(q, e, clock).1);
      StepPasses(q, e, clock, f);
      InOrder(r, rest, clock, f);
      OfConcat(s, Sents(r, rest, clock), f);
      GivenHead(es, f);
      Chained(Of(s, f), Of(Sents(r, rest, clock), f), Waiting(q, f), Waiting(r, f), Waiting(Final(r, rest, clock), f),
              Given([e], f), Given(rest, f));
    }
  }

  lemma NoneOf(f: FlowId)
    ensures Of([], f) == []
  {
  }

  // ----- fairness of the bytes

  /** How far a flow will be when the packet with the output is done. */
  function Stamp(q: Queue, f: FlowId): nat
    requires f in q.time
  {
    q.time[f] + InOutput(q, f)
  }

  /** A sending flow is not ahead of a queued one, and its packet is no longer than one charge. */
  lemma StampsClose(q: Queue, f: FlowId, g: FlowId, gap: nat)
    requires Inv(q) && q.Active(f) && q.Active(g) && Distance(q.time[f], q.time[g]) <= gap && q.weight + q.mtu <= gap
    ensures Distance(Stamp(q, f), Stamp(q, g)) <= gap
  {
  }

  /** While two flows stay backlogged, on either clock their times stay within the larger of
      the initial gap and one maximal packet, so the service they get differs by at most that
      plus the initial gap, and the bytes and packet weights handed to the output for the one
      exceed those for the other by at most twice that. */
  lemma Fairness(q: Queue, es: seq<Event>, clock: Clock, f: FlowId, g: FlowId)
    requires Inv(q) && Legal(q, es, clock) && (clock.Wrapping? ==> Bounded(q))
    requires Backlogged(q, es, clock, f) && Backlogged(q, es, clock, g)
    ensures var r, sents := Final(q, es, clock), Sents(q, es, clock);
            var gap := Max(Distance(q.time[f], q.time[g]), q.weight + q.mtu);
            && f in r.time && g in r.time
            && Distance(r.time[f], r.time[g]) <= gap
            && Distance(Service(q, es, clock, f), Service(q, es, clock, g)) <= Distance(q.time[f], q.time[g]) + gap
            && Distance(Bytes(sents, f, q.weight), Bytes(sents, g, q.weight)) <= Distance(Stamp(q, f), Stamp(q, g)) + gap <= 2 * gap
  {
    hide Inv, Backlogged, Sents, Step, Legal, Service, Bytes, Final, Bounded, InOutput, Queue.Active;
    BackloggedNow(q, es, clock, f);
    BackloggedNow(q, es, clock, g);
    var r, gap := Final(q, es, clock), Max(Distance(q.time[f], q.time[g]), q.weight + q.mtu);
    FairFrom(q, es, clock, f, g, gap);
    ChargedIsSent(q, es, clock, f);
    ChargedIsSent(q, es, clock, g);
    SameSizes(q, es, clock);
    ActiveKnown(r, f);
    ActiveKnown(r, g);
    StampsClose(q, f, g, gap);
    StampsClose(r, f, g, gap);
  }

  lemma BackloggedNow(q: Queue, es: seq<Event>, clock: Clock, f: FlowId)
    requires Inv(q) && Legal(q, es, clock) && Backlogged(q, es, clock, f)
    ensures q.Active(f) && f in q.time
  {
  }

  lemma ActiveKnown(q: Queue, f: FlowId)
    requires Inv(q) && q.Active(f)
    ensures f in q.time
  {
  }

  lemma {:induction false} SameSizes(q: Queue, es: seq<Event>, clock: Clock)
    requires Inv(q) && Legal(q, es, clock)
    ensures Final(q, es, clock).weight == q.weight && Final(q, es, clock).mtu == q.mtu
    decreases |es|
  {
    if es != [] { SameSizes(Next(q, es[0], clock), es[1..], clock); }
  }

  // ----- the current time

  /** The current time is that of the active flow that is furthest behind, or 0. */
  lemma CurrentIsLeast(q: Queue)
    requires Inv(q)
    ensures if q.Busy() then (exists f :: q.Active(f) && f in q.time && q.time[f] == CurrentTime(q))
                             && forall f :: q.Active(f) ==> f in q.time && CurrentTime(q) <= q.time[f]
            else CurrentTime(q) == 0
  {
    if q.sending.Some? {
      assert q.Active(q.sending.value);
    } else if q.queued.Keys != {} {
      var first := First(q.time, q.queued.Keys);
      assert q.Active(first);
      assert forall g :: g in q.queued ==> Before(q.time, first, g);
      if q.previous.Some? { assert q.Active(q.previous.value); }
    } else if q.previous.Some? {
      assert q.Active(q.previous.value);
    }
  }

  /** Flows become active by a packet only, at the current time at least, and a new one starts
      at 0; a flow stays active until its last packet is done and the schedule job has run. */
  lemma StepActive(q: Queue, e: Event, clock: Clock, f: FlowId)
    requires Inv(q) && Enabled(q, e)
    ensures var r := Step(q, e, clock).0;
            && r.Active(f) == (if e.Send? && e.flow == f then true
                               else if e == FlowFree(f) then false
                               else if e.Job? then q.Active(f) && q.previous != Some(f)
                               else q.Active(f))
            && r.time.Keys == (if e.FlowInit? then q.time.Keys + {e.flow} else if e.FlowFree? then q.time.Keys - {e.flow} else q.time.Keys)
            && (e.FlowInit? ==> r.time[e.flow] == 0)
            && (e.Send? && e.flow == f ==> r.time[f] >= CurrentTime(q))
  {
  }
}
