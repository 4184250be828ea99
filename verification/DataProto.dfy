/** The handlers of client/DataProto.c. */
module DataProto {
  import opened Wrappers
  import opened Lists
  import opened FlowBuffers

  /** Every buffer ever allocated is in use or was freed, once. */
  ghost predicate Allocated(inUse: set<BufferId>, freed: seq<BufferId>, next: BufferId) {
    && NoDup(freed)
    && (forall b: BufferId :: (b < next) <==> (b in inUse || b in freed))
    && (forall b :: b in inUse ==> b !in freed)
  }

  class DataProto {
    var sinks: Sinks
    var flows: Flows
    var buffers: Buffers
    var next: BufferId

    ghost var freed: seq<BufferId>

    ghost predicate Valid()
      reads this
    {
      Inv(sinks, flows, buffers) && Allocated(buffers.Keys, freed, next)
    }

    constructor ()
      ensures Valid() && sinks == map[] && flows == map[]
    {
      sinks, flows, buffers, next, freed := map[], map[], map[], 0, [];
    }

    // ----- buffers

    method BufferFree(b: BufferId)
      requires b in buffers && buffers[b].sink.None? && Allocated(buffers.Keys, freed, next)
      modifies this`buffers, this`freed
      ensures buffers == old(buffers) - {b} && freed == old(freed) + [b] && Allocated(buffers.Keys, freed, next)
    {
      NoDupAppend(freed, b);
      hide NoDup;
      buffers := buffers - {b};
      freed := freed + [b];
    }

    method BufferAttach(b: BufferId, s: SinkId)
      requires b in buffers && buffers[b].sink.None? && s in sinks
      modifies this`buffers
      ensures buffers == old(buffers)[b := Buffer(old(buffers)[b].flow, Some(s))]
    {
      buffers := buffers[b := buffers[b].(sink := Some(s))];
    }

    /** The queue flow must not be busy, unless its queue is being freed. */
    method BufferDetach(b: BufferId, ghost freeing: bool)
      requires b in buffers && buffers[b].sink.Some? && buffers[b].sink.value in sinks
      requires sinks[buffers[b].sink.value].sending == Of(b) ==> freeing
      modifies this`buffers, this`sinks
      ensures sinks == SinksLeft(old(sinks), old(buffers)[b].sink.value, b)
      ensures buffers == old(buffers)[b := Buffer(old(buffers)[b].flow, None)]
    {
      var s := buffers[b].sink.value;
      if sinks[s].sending == Of(b) {
        sinks := sinks[s := sinks[s].(sending := Idle)];
      }
      if sinks[s].detaching == Some(b) {
        sinks := sinks[s := sinks[s].(detaching := None)];
      }
      buffers := buffers[b := buffers[b].(sink := None)];
    }

    method BufferScheduleDetach(b: BufferId)
      requires b in buffers && buffers[b].sink.Some? && buffers[b].sink.value in sinks
      requires var sink := sinks[buffers[b].sink.value];
               sink.sending == Of(b) && (sink.detaching.None? || sink.detaching == Some(b))
      modifies this`sinks
      ensures sinks == old(sinks)[buffers[b].sink.value := Sink(Of(b), Some(b))]
    {
      var s := buffers[b].sink.value;
      if sinks[s].detaching == Some(b) {
        return;
      }
      sinks := sinks[s := sinks[s].(detaching := Some(b))];
    }

    method BufferFinishDetach(b: BufferId, ghost freeing: bool)
      requires b in buffers && buffers[b].sink.Some? && buffers[b].sink.value in sinks
      requires sinks[buffers[b].sink.value].detaching == Some(b)
      requires sinks[buffers[b].sink.value].sending == Of(b) ==> freeing
      requires buffers[b].flow.Some? ==>
                 buffers[b].flow.value in flows
                 && (flows[buffers[b].flow.value].desired.Some? ==> flows[buffers[b].flow.value].desired.value in sinks)
      requires Allocated(buffers.Keys, freed, next)
      modifies this`buffers, this`sinks, this`freed
      ensures sinks == SinksLeft(old(sinks), old(buffers)[b].sink.value, b)
      ensures buffers == BuffersSettled(flows, old(buffers), b) && Allocated(buffers.Keys, freed, next)
      ensures freed == if old(buffers)[b].flow.None? then old(freed) + [b] else old(freed)
    {
      assert buffers[b := Buffer(buffers[b].flow, None)].Keys == buffers.Keys;
      hide Allocated;
      BufferDetach(b, freeing);
      if buffers[b].flow.None? {
        BufferFree(b);
      } else {
        var desired := flows[buffers[b].flow.value].desired;
        assert buffers[b := Buffer(buffers[b].flow, desired)].Keys == buffers.Keys;
        if desired.Some? {
          BufferAttach(b, desired.value);
        }
      }
    }

    // ----- the fair queue of a sink

    /** The queue of a sink starts sending. */
    method QueueSends(s: SinkId, what: Sending)
      requires Valid() && s in sinks && sinks[s].sending.Idle? && !what.Idle?
      requires what.Of? ==> what.buffer in buffers && buffers[what.buffer].sink == Some(s)
      modifies this`sinks
      ensures Valid() && sinks == old(sinks)[s := Sink(what, None)]
    {
      NotDetaching(s);
      SendKeeps(sinks, flows, buffers, s, what);
      hide Inv, Allocated;
      sinks := sinks[s := sinks[s].(sending := what)];
    }

    lemma NotDetaching(s: SinkId)
      requires Inv(sinks, flows, buffers) && s in sinks && !sinks[s].sending.Of?
      ensures sinks[s].detaching.None?
    {
      assert SinkOk(sinks, buffers, s);
    }

    lemma Busy(s: SinkId)
      requires Inv(sinks, flows, buffers) && s in sinks && sinks[s].detaching.Some?
      ensures var b := sinks[s].detaching.value;
              && sinks[s].sending == Of(b) && b in buffers && buffers[b].sink == Some(s)
              && (buffers[b].flow.Some? ==>
                    buffers[b].flow.value in flows
                    && (flows[buffers[b].flow.value].desired.Some? ==> flows[buffers[b].flow.value].desired.value in sinks))
    {
    }

    /** The packet is done; a buffer that was detaching now goes where it should. */
    method QueueDone(s: SinkId)
      requires Valid() && s in sinks && !sinks[s].sending.Idle?
      modifies this`sinks, this`buffers, this`freed
      ensures Valid() && sinks == old(sinks)[s := Sink(Idle, None)]
      ensures if old(sinks[s].detaching).None? then buffers == old(buffers) && freed == old(freed)
              else Settled(old(sinks[s].detaching.value), old(buffers), old(freed))
    {
      hide Inv, Allocated;
      if sinks[s].detaching.None? {
        SendKeeps(sinks, flows, buffers, s, Idle);
        sinks := sinks[s := sinks[s].(sending := Idle)];
        return;
      }
      Busy(s);
      var b := sinks[s].detaching.value;
      SettleKeeps(sinks, flows, buffers, b);
      ghost var left := sinks[s := Sink(Idle, None)];
      assert SinksLeft(sinks, s, b) == left;
      sinks := sinks[s := sinks[s].(sending := Idle)];
      assert SinksLeft(sinks, s, b) == left;
      BufferFinishDetach(b, false);
    }

    /** A buffer that has left its sink is at the sink its flow desires, and one that has no
        flow is freed. */
    ghost predicate Settled(b: BufferId, was: Buffers, wasFreed: seq<BufferId>)
      reads this
    {
      && b in was && (was[b].flow.Some? ==> was[b].flow.value in flows)
      && buffers == BuffersSettled(flows, was, b)
      && freed == if was[b].flow.None? then wasFreed + [b] else wasFreed
    }

    // ----- sinks

    method SinkInit(s: SinkId)
      requires Valid() && s !in sinks
      modifies this`sinks
      ensures Valid() && sinks == old(sinks)[s := Sink(Idle, None)]
    {
      SinkComes(sinks, flows, buffers, s);
      hide Inv, Allocated;
      sinks := sinks[s := Sink(Idle, None)];
    }

    /** No flow may desire the sink. Its detaching buffer is let go, and then no buffer refers
        to it. */
    method SinkFree(s: SinkId)
      requires Valid() && s in sinks && forall f :: f in flows ==> flows[f].desired != Some(s)
      modifies this`sinks, this`buffers, this`freed
      ensures Valid() && sinks == old(sinks) - {s} && forall b :: b in buffers ==> buffers[b].sink != Some(s)
      ensures if old(sinks[s].detaching).None? then buffers == old(buffers) && freed == old(freed)
              else Settled(old(sinks[s].detaching.value), old(buffers), old(freed))
    {
      hide Inv, Allocated;
      if sinks[s].detaching.Some? {
        Busy(s);
        var b := sinks[s].detaching.value;
        SettleKeeps(sinks, flows, buffers, b);
        BufferFinishDetach(b, true);
      }
      SinkGoes(sinks, flows, buffers, s);
      sinks := sinks - {s};
    }

    // ----- flows

    method FlowInit(f: FlowId)
      requires Valid() && f !in flows
      modifies this
      ensures Valid() && flows == old(flows)[f := Flow(None, old(next))] && sinks == old(sinks)
      ensures buffers == old(buffers)[old(next) := Buffer(Some(f), None)] && freed == old(freed)
    {
      FlowComes(sinks, flows, buffers, f, next);
      assert next !in buffers;
      hide Inv;
      flows := flows[f := Flow(None, next)];
      buffers := buffers[next := Buffer(Some(f), None)];
      next := next + 1;
    }

    /** The flow must be detached. Its buffer goes with it, or when its packet is done. */
    method FlowFree(f: FlowId)
      requires Valid() && f in flows && flows[f].desired.None?
      modifies this
      ensures Valid() && flows == old(flows) - {f} && sinks == old(sinks)
      ensures var b := old(flows)[f].buffer;
              && b in old(buffers)
              && if old(buffers)[b].sink.Some?
                 then buffers == old(buffers)[b := Buffer(None, old(buffers)[b].sink)] && freed == old(freed)
                 else buffers == old(buffers) - {b} && freed == old(freed) + [b]
    {
      FlowGoes(sinks, flows, buffers, f);
      hide Inv, Allocated;
      var b := flows[f].buffer;
      if buffers[b].sink.Some? {
        if sinks[buffers[b].sink.value].sending == Of(b) {
          assert buffers[b := Buffer(None, buffers[b].sink)].Keys == buffers.Keys;
          assert sinks[buffers[b].sink.value := Sink(Of(b), Some(b))] == sinks;
          BufferScheduleDetach(b);
          buffers := buffers[b := buffers[b].(flow := None)];
        } else {
          assert false;
        }
      } else {
        BufferFree(b);
      }
      flows := flows - {f};
    }

    /** The flow desires the sink from now on; its buffer is there at once unless it is busy at
        another. */
    method Attach(f: FlowId, s: SinkId)
      requires Valid() && f in flows && flows[f].desired.None? && s in sinks
      modifies this`sinks, this`flows, this`buffers
      ensures Valid() && flows == old(flows)[f := Flow(Some(s), old(flows)[f].buffer)]
      ensures sinks == old(sinks)
      ensures var b := flows[f].buffer;
              && b in old(buffers)
              && buffers == if old(buffers)[b].sink.Some? then old(buffers) else old(buffers)[b := Buffer(Some(f), Some(s))]
    {
      FlowGoes(sinks, flows, buffers, f);
      var b := flows[f].buffer;
      assert buffers[b := Buffer(Some(f), Some(s))].Keys == buffers.Keys;
      hide Inv, Allocated;
      if buffers[b].sink.Some? {
        if sinks[buffers[b].sink.value].sending == Of(b) {
          ScheduleKeeps(sinks, flows, buffers, f, Some(s));
          assert sinks[buffers[b].sink.value := Sink(Of(b), Some(b))] == sinks;
          BufferScheduleDetach(b);
        } else {
          assert false;
        }
      } else {
        MoveKeeps(sinks, flows, buffers, f, Some(s));
        BufferAttach(b, s);
      }
      flows := flows[f := flows[f].(desired := Some(s))];
    }

    /** The flow desires no sink any more; its buffer leaves at once unless it is busy. */
    method Detach(f: FlowId)
      requires Valid() && f in flows && flows[f].desired.Some?
      modifies this`sinks, this`flows, this`buffers
      ensures Valid() && flows == old(flows)[f := Flow(None, old(flows)[f].buffer)] && sinks.Keys == old(sinks).Keys
      ensures var b := flows[f].buffer;
              b in old(buffers) && old(buffers)[b].sink.Some? && old(buffers)[b].sink.value in old(sinks)
      ensures var b := flows[f].buffer;
              var s := old(buffers)[b].sink.value;
              if old(sinks)[s].sending == Of(b)
              then sinks == old(sinks)[s := Sink(Of(b), Some(b))] && buffers == old(buffers)
              else sinks == old(sinks) && buffers == old(buffers)[b := Buffer(Some(f), None)]
    {
      AttachedHasSink(sinks, flows, buffers, f);
      var b := flows[f].buffer;
      var s := buffers[b].sink.value;
      if sinks[s].sending == Of(b) {
        ScheduleKeeps(sinks, flows, buffers, f, None);
        hide Inv, Allocated;
        BufferScheduleDetach(b);
      } else {
        MoveKeeps(sinks, flows, buffers, f, None);
        assert buffers[b := Buffer(Some(f), None)].Keys == buffers.Keys;
        assert SinksLeft(sinks, s, b) == sinks;
        hide Inv, Allocated;
        BufferDetach(b, false);
      }
      flows := flows[f := flows[f].(desired := None)];
    }
  }
}
