/** client/DataProto.c: flows whose buffers attach to sinks and leave them late, once the
    packet in progress is done. Sinks, flows and buffers are named by numbers. */
module FlowBuffers {
  import opened Wrappers
  import opened Lists

  type SinkId = nat
  type FlowId = nat
  type BufferId = nat

  /** What a sink's fair queue is sending: nothing, something else than a flow's packet (a
      keepalive), or the packet of a flow's buffer, whose queue flow is then busy. */
  datatype Sending = Idle | Keepalive | Of(buffer: BufferId)

  datatype Sink = Sink(sending: Sending, detaching: Option<BufferId>)
  datatype Flow = Flow(desired: Option<SinkId>, buffer: BufferId)
  datatype Buffer = Buffer(flow: Option<FlowId>, sink: Option<SinkId>)

  type Sinks = map<SinkId, Sink>
  type Flows = map<FlowId, Flow>
  type Buffers = map<BufferId, Buffer>

  // ----- the invariant

  /** The buffer is busy at its sink and leaves it when the packet is done. */
  predicate Detaching(sinks: Sinks, buffers: Buffers, b: BufferId) {
    b in buffers && buffers[b].sink.Some? && buffers[b].sink.value in sinks
    && sinks[buffers[b].sink.value].detaching == Some(b)
  }

  /** What is sent comes from a buffer at the sink, and a detaching buffer is the one sent. */
  predicate SinkOk(sinks: Sinks, buffers: Buffers, s: SinkId)
    requires s in sinks
  {
    && (sinks[s].sending.Of? ==>
          sinks[s].sending.buffer in buffers && buffers[sinks[s].sending.buffer].sink == Some(s))
    && (sinks[s].detaching.Some? ==> sinks[s].sending == Of(sinks[s].detaching.value))
  }

  predicate FlowOk(sinks: Sinks, flows: Flows, buffers: Buffers, f: FlowId)
    requires f in flows
  {
    && flows[f].buffer in buffers && buffers[flows[f].buffer].flow == Some(f)
    && (flows[f].desired.Some? ==> flows[f].desired.value in sinks)
  }

  /** A buffer is at the sink its flow desires, or detaching; one without a flow is detaching. */
  predicate BufferOk(sinks: Sinks, flows: Flows, buffers: Buffers, b: BufferId)
    requires b in buffers
  {
    && (buffers[b].sink.Some? ==> buffers[b].sink.value in sinks)
    && match buffers[b].flow
       case None => Detaching(sinks, buffers, b)
       case Some(f) =>
         f in flows && flows[f].buffer == b
         && (buffers[b].sink == flows[f].desired || Detaching(sinks, buffers, b))
  }

  ghost predicate Inv(sinks: Sinks, flows: Flows, buffers: Buffers) {
    && (forall s :: s in sinks ==> SinkOk(sinks, buffers, s))
    && (forall f :: f in flows ==> FlowOk(sinks, flows, buffers, f))
    && (forall b :: b in buffers ==> BufferOk(sinks, flows, buffers, b))
  }

  /** An attached flow's buffer has a sink: the desired one, or one that it is busy at and
      detaching from. */
  lemma AttachedHasSink(sinks: Sinks, flows: Flows, buffers: Buffers, f: FlowId)
    requires Inv(sinks, flows, buffers) && f in flows && flows[f].desired.Some?
    ensures var b := flows[f].buffer;
            && b in buffers && buffers[b].sink.Some? && buffers[b].sink.value in sinks
            && (buffers[b].sink == flows[f].desired
                || (sinks[buffers[b].sink.value].detaching == Some(b) && sinks[buffers[b].sink.value].sending == Of(b)))
  {
  }

  /** The buffer is at the sink but its flow is gone or wants to be elsewhere. */
  predicate MustLeave(flows: Flows, buffers: Buffers, b: BufferId, s: SinkId) {
    && b in buffers && buffers[b].sink == Some(s)
    && match buffers[b].flow
       case None => true
       case Some(f) => f in flows && flows[f].desired != Some(s)
  }

  /** At most one buffer must leave a sink: the one whose packet the sink is sending. */
  lemma OneDetaching(sinks: Sinks, flows: Flows, buffers: Buffers, a: BufferId, b: BufferId, s: SinkId)
    requires Inv(sinks, flows, buffers) && MustLeave(flows, buffers, a, s) && MustLeave(flows, buffers, b, s)
    ensures a == b && s in sinks && sinks[s].sending == Of(a)
  {
    assert BufferOk(sinks, flows, buffers, a) && BufferOk(sinks, flows, buffers, b);
  }

  // ----- the steps

  /** The queue flow of a buffer leaves its sink, and the sink forgets the buffer. */
  function SinksLeft(sinks: Sinks, s: SinkId, b: BufferId): Sinks
    requires s in sinks
  {
    sinks[s := Sink(if sinks[s].sending == Of(b) then Idle else sinks[s].sending,
                    if sinks[s].detaching == Some(b) then None else sinks[s].detaching)]
  }

  /** Where a buffer goes when it has left its sink: to the sink its flow desires, or away. */
  function BuffersSettled(flows: Flows, buffers: Buffers, b: BufferId): Buffers
    requires b in buffers && (buffers[b].flow.Some? ==> buffers[b].flow.value in flows)
  {
    match buffers[b].flow
    case None => buffers - {b}
    case Some(f) => buffers[b := Buffer(Some(f), flows[f].desired)]
  }

  /** Leaving is right whenever the buffer is detaching or the flow no longer desires its sink. */
  lemma SettleKeeps(sinks: Sinks, flows: Flows, buffers: Buffers, b: BufferId)
    requires Inv(sinks, flows, buffers) && b in buffers && buffers[b].sink.Some?
    ensures buffers[b].sink.value in sinks && (buffers[b].flow.Some? ==> buffers[b].flow.value in flows)
    ensures Inv(SinksLeft(sinks, buffers[b].sink.value, b), flows, BuffersSettled(flows, buffers, b))
  {
    assert BufferOk(sinks, flows, buffers, b);
    var s := buffers[b].sink.value;
    var sinks', buffers' := SinksLeft(sinks, s, b), BuffersSettled(flows, buffers, b);
    forall t | t in sinks' ensures SinkOk(sinks', buffers', t) {
      assert SinkOk(sinks, buffers, t);
    }
    forall f | f in flows ensures FlowOk(sinks', flows, buffers', f) {
      assert FlowOk(sinks, flows, buffers, f);
    }
    forall c | c in buffers' ensures BufferOk(sinks', flows, buffers', c) {
      assert BufferOk(sinks, flows, buffers, c);
      if buffers[b].flow.Some? { assert FlowOk(sinks, flows, buffers, buffers[b].flow.value); }
    }
  }

  /** A flow's buffer moves at once when it is not busy: to no sink, or from none to a new one. */
  lemma MoveKeeps(sinks: Sinks, flows: Flows, buffers: Buffers, f: FlowId, to: Option<SinkId>)
    requires Inv(sinks, flows, buffers) && f in flows && (to.Some? ==> to.value in sinks)
    requires flows[f].buffer in buffers
    requires var s := buffers[flows[f].buffer].sink;
             s.Some? && s.value in sinks ==> sinks[s.value].sending != Of(flows[f].buffer)
    ensures var b := flows[f].buffer;
            Inv(sinks, flows[f := Flow(to, b)], buffers[b := Buffer(Some(f), to)])
    ensures buffers[flows[f].buffer].sink == flows[f].desired
    ensures buffers[flows[f].buffer].flow == Some(f) && !Detaching(sinks, buffers, flows[f].buffer)
  {
    var b := flows[f].buffer;
    var flows', buffers' := flows[f := Flow(to, b)], buffers[b := Buffer(Some(f), to)];
    assert FlowOk(sinks, flows, buffers, f) && BufferOk(sinks, flows, buffers, b);
    forall t | t in sinks ensures SinkOk(sinks, buffers', t) {
      assert SinkOk(sinks, buffers, t);
    }
    forall g | g in flows' ensures FlowOk(sinks, flows', buffers', g) {
      assert FlowOk(sinks, flows, buffers, g);
    }
    forall c | c in buffers' ensures BufferOk(sinks, flows', buffers', c) {
      assert BufferOk(sinks, flows, buffers, c);
    }
  }

  /** A busy buffer stays at its sink, detaching, whatever its flow desires from now on. */
  lemma ScheduleKeeps(sinks: Sinks, flows: Flows, buffers: Buffers, f: FlowId, to: Option<SinkId>)
    requires Inv(sinks, flows, buffers) && f in flows && (to.Some? ==> to.value in sinks)
    requires var b := flows[f].buffer;
             && b in buffers && buffers[b].sink.Some? && buffers[b].sink.value in sinks
             && sinks[buffers[b].sink.value].sending == Of(b)
    ensures var b := flows[f].buffer;
            var s := buffers[b].sink.value;
            && (sinks[s].detaching.None? || sinks[s].detaching == Some(b))
            && Inv(sinks[s := Sink(Of(b), Some(b))], flows[f := Flow(to, b)], buffers)
  {
    var b := flows[f].buffer;
    var s := buffers[b].sink.value;
    var sinks', flows' := sinks[s := Sink(Of(b), Some(b))], flows[f := Flow(to, b)];
    assert FlowOk(sinks, flows, buffers, f) && SinkOk(sinks, buffers, s);
    forall t | t in sinks' ensures SinkOk(sinks', buffers, t) {
      assert SinkOk(sinks, buffers, t);
    }
    forall g | g in flows' ensures FlowOk(sinks', flows', buffers, g) {
      assert FlowOk(sinks, flows, buffers, g);
    }
    forall c | c in buffers ensures BufferOk(sinks', flows', buffers, c) {
      assert BufferOk(sinks, flows, buffers, c);
    }
  }

  /** A flow that desires no sink goes: its buffer with it, or later if it is detaching. */
  lemma FlowGoes(sinks: Sinks, flows: Flows, buffers: Buffers, f: FlowId)
    requires Inv(sinks, flows, buffers) && f in flows && flows[f].desired.None?
    ensures var b := flows[f].buffer;
            && b in buffers && buffers[b].flow == Some(f)
            && (buffers[b].sink.Some? ==> Detaching(sinks, buffers, b) && sinks[buffers[b].sink.value].sending == Of(b))
            && Inv(sinks, flows - {f}, if buffers[b].sink.Some? then buffers[b := Buffer(None, buffers[b].sink)] else buffers - {b})
  {
    var b := flows[f].buffer;
    assert FlowOk(sinks, flows, buffers, f) && BufferOk(sinks, flows, buffers, b);
    var flows' := flows - {f};
    var buffers' := if buffers[b].sink.Some? then buffers[b := Buffer(None, buffers[b].sink)] else buffers - {b};
    forall t | t in sinks ensures SinkOk(sinks, buffers', t) {
      assert SinkOk(sinks, buffers, t);
    }
    forall g | g in flows' ensures FlowOk(sinks, flows', buffers', g) {
      assert FlowOk(sinks, flows, buffers, g);
    }
    forall c | c in buffers' ensures BufferOk(sinks, flows', buffers', c) {
      assert BufferOk(sinks, flows, buffers, c);
    }
  }

  /** A sink no flow desires may only be referred to by its detaching buffer. */
  lemma SinkGoes(sinks: Sinks, flows: Flows, buffers: Buffers, s: SinkId)
    requires Inv(sinks, flows, buffers) && s in sinks && sinks[s].detaching.None?
    requires forall f :: f in flows ==> flows[f].desired != Some(s)
    ensures forall b :: b in buffers ==> buffers[b].sink != Some(s)
    ensures Inv(sinks - {s}, flows, buffers)
  {
    forall b | b in buffers ensures buffers[b].sink != Some(s) {
      assert BufferOk(sinks, flows, buffers, b);
    }
    forall t | t in sinks && t != s ensures SinkOk(sinks - {s}, buffers, t) {
      assert SinkOk(sinks, buffers, t);
    }
    forall f | f in flows ensures FlowOk(sinks - {s}, flows, buffers, f) {
      assert FlowOk(sinks, flows, buffers, f);
    }
    forall b | b in buffers ensures BufferOk(sinks - {s}, flows, buffers, b) {
      assert BufferOk(sinks, flows, buffers, b);
    }
  }

  lemma SinkComes(sinks: Sinks, flows: Flows, buffers: Buffers, s: SinkId)
    requires Inv(sinks, flows, buffers) && s !in sinks
    ensures Inv(sinks[s := Sink(Idle, None)], flows, buffers)
  {
  }

  lemma FlowComes(sinks: Sinks, flows: Flows, buffers: Buffers, f: FlowId, b: BufferId)
    requires Inv(sinks, flows, buffers) && f !in flows && b !in buffers
    ensures Inv(sinks, flows[f := Flow(None, b)], buffers[b := Buffer(Some(f), None)])
  {
    var flows', buffers' := flows[f := Flow(None, b)], buffers[b := Buffer(Some(f), None)];
    forall t | t in sinks ensures SinkOk(sinks, buffers', t) {
      assert SinkOk(sinks, buffers, t);
    }
    forall g | g in flows' ensures FlowOk(sinks, flows', buffers', g) {
      if g != f { assert FlowOk(sinks, flows, buffers, g); }
    }
    forall c | c in buffers' ensures BufferOk(sinks, flows', buffers', c) {
      if c != b { assert BufferOk(sinks, flows, buffers, c); }
    }
  }

  /** The queue starts sending a packet, of its own or of a buffer at the sink, or is done with
      one that nobody waits for. */
  lemma SendKeeps(sinks: Sinks, flows: Flows, buffers: Buffers, s: SinkId, to: Sending)
    requires Inv(sinks, flows, buffers) && s in sinks && sinks[s].detaching.None?
    requires to.Of? ==> to.buffer in buffers && buffers[to.buffer].sink == Some(s)
    ensures Inv(sinks[s := Sink(to, None)], flows, buffers)
  {
    var sinks' := sinks[s := Sink(to, None)];
    forall t | t in sinks' ensures SinkOk(sinks', buffers, t) {
      assert SinkOk(sinks, buffers, t);
    }
    forall f | f in flows ensures FlowOk(sinks', flows, buffers, f) {
      assert FlowOk(sinks, flows, buffers, f);
    }
    forall b | b in buffers ensures BufferOk(sinks', flows, buffers, b) {
      assert BufferOk(sinks, flows, buffers, b);
    }
  }
}
