/** The fair queue as flow/PacketPassFairQueue.c keeps it: clocks, tree of queued flows and
    list of flows updated in place. Every handler is one `Step` on the wrapping clock. */
module FairQueueClass {
  import opened Wrappers
  import opened Lists
  import opened FairQueue

  /** The first flow of the tree, which is ordered by time and then address. */
  method TreeFirst(time: map<FlowId, nat>, tree: set<FlowId>) returns (first: FlowId)
    requires tree != {} && tree <= time.Keys
    ensures first == First(time, tree)
  {
    hide First;
    ghost var k := First(time, tree);
    assert forall g :: g in tree ==> Before(time, k, g);
    first :| first in tree && forall g :: g in tree ==> Before(time, first, g);
    assert Before(time, k, first) && Before(time, first, k);
  }

  lemma Shape(q: Queue)
    requires Inv(q)
    ensures Known(q) && (q.previous.Some? ==> q.job) && (q.sending.Some? ==> q.previous.None?)
  {
  }

  class PacketPassFairQueue {
    const packetWeight: nat
    const mtu: nat
    var sendingFlow: Option<FlowId>
    var sendingLen: nat
    var previousFlow: Option<FlowId>
    var queuedTree: map<FlowId, Packet>
    var flowsList: seq<FlowId>
    var time: map<FlowId, nat>
    var busyHandlers: set<FlowId>
    var scheduleJob: bool

    ghost function State(): Queue
      reads this
    {
      Queue(packetWeight, mtu, time, queuedTree, sendingFlow, sendingLen, previousFlow, scheduleJob)
    }

    ghost predicate Valid()
      reads this
    {
      && Inv(State()) && Bounded(State())
      && NoDup(flowsList)
      && (forall f :: f in flowsList <==> f in time)
    }

    constructor (mtu: nat, packetWeight: nat)
      requires 0 < packetWeight && mtu <= MAX_TIME && packetWeight <= MAX_TIME - mtu
      ensures Valid() && State() == Fresh(packetWeight, mtu) && busyHandlers == {}
    {
      this.mtu, this.packetWeight := mtu, packetWeight;
      sendingFlow, sendingLen, previousFlow, scheduleJob := None, 0, None, false;
      queuedTree, flowsList, time, busyHandlers := map[], [], map[], {};
    }

    /** Fails when a packet's charge might not fit the clock. */
    static method Init(mtu: nat, packetWeight: nat) returns (q: PacketPassFairQueue?)
      requires 0 < packetWeight
      ensures q == null <==> MAX_TIME < packetWeight + mtu
      ensures q != null ==> fresh(q) && q.Valid() && q.State() == Fresh(packetWeight, mtu)
    {
      if mtu <= MAX_TIME && packetWeight <= MAX_TIME - mtu {
        q := new PacketPassFairQueue(mtu, packetWeight);
      } else {
        q := null;
      }
    }

    method GetCurrentTime() returns (now: nat)
      requires Valid()
      ensures now == CurrentTime(State())
    {
      if sendingFlow.Some? {
        return time[sendingFlow.value];
      }
      now := 0;
      var have := false;
      if queuedTree.Keys != {} {
        var first := TreeFirst(time, queuedTree.Keys);
        now, have := time[first], true;
      }
      if previousFlow.Some? && (!have || time[previousFlow.value] < now) {
        now, have := time[previousFlow.value], true;
      }
      now := if have then now else 0;
    }

    /** Takes `subtract` off every flow of the list, one by one. */
    method LowerAll(flow: FlowId, subtract: nat)
      requires NoDup(flowsList)
      requires forall f :: f in flowsList <==> f in time
      modifies this`time
      ensures time.Keys == old(time).Keys && time == Lowered(old(time), flow, subtract)
    {
      hide Sub64;
      for i := 0 to |flowsList|
        invariant time.Keys == old(time).Keys
        invariant forall j :: 0 <= j < i ==> time[flowsList[j]] == Lowered(old(time), flow, subtract)[flowsList[j]]
        invariant forall j :: i <= j < |flowsList| ==> time[flowsList[j]] == old(time)[flowsList[j]]
      {
        var someflow := flowsList[i];
        if subtract > time[someflow] && someflow != flow {
          time := time[someflow := 0];
        } else {
          time := time[someflow := Sub64(time[someflow], subtract)];
        }
      }
      assert forall f :: f in time ==> f in flowsList;
    }

    method IncrementSentFlow(flow: FlowId, amount: nat)
      requires Valid() && sendingFlow == Some(flow) && amount <= MAX_TIME
      modifies this`time
      ensures time.Keys == old(time).Keys && time == Incremented(old(time), queuedTree.Keys, flow, amount)
    {
      hide Lowered, Add64, First, NoDup;
      if amount > MAX_TIME - time[flow] {
        var subtract := time[flow];
        if queuedTree.Keys != {} {
          var first := TreeFirst(time, queuedTree.Keys);
          subtract := time[first];
        }
        LowerAll(flow, subtract);
      }
      time := time[flow := Add64(time[flow], amount)];
    }

    method Schedule() returns (sent: Option<Sent>)
      requires sendingFlow.None? && previousFlow.None?
      requires queuedTree.Keys != {} && queuedTree.Keys <= time.Keys
      modifies this`queuedTree, this`sendingFlow, this`sendingLen
      ensures (State(), sent) == FairQueue.Schedule(old(State()))
      ensures sent.Some? && sendingLen == |sent.value.packet|
    {
      var flow := TreeFirst(time, queuedTree.Keys);
      var packet := queuedTree[flow];
      queuedTree := queuedTree - {flow};
      sent := Some(Sent(flow, packet));
      sendingFlow, sendingLen := Some(flow), |packet|;
    }

    method ScheduleJobHandler() returns (sent: Option<Sent>)
      requires Valid() && Enabled(State(), Job)
      modifies this
      ensures Valid() && (State(), sent) == Step(old(State()), Job, Wrapping)
      ensures flowsList == old(flowsList) && busyHandlers == old(busyHandlers)
    {
      StepKeepsInv(State(), Job, Wrapping);
      scheduleJob := false;
      previousFlow := None;
      sent := None;
      if queuedTree.Keys != {} {
        sent := Schedule();
      }
    }

    method InputHandlerSend(flow: FlowId, data: Packet) returns (sent: Option<Sent>)
      requires Valid() && Enabled(State(), Send(flow, data))
      modifies this
      ensures Valid() && (State(), sent) == Step(old(State()), Send(flow, data), Wrapping)
      ensures flowsList == old(flowsList) && busyHandlers == old(busyHandlers)
    {
      hide Inv, Bounded, AfterDone, AfterJob, CurrentTime, First, FairQueue.Schedule, NoDup;
      Shape(State());
      StepKeepsInv(State(), Send(flow, data), Wrapping);
      var _ := StepClock(State(), Send(flow, data), Wrapping);
      if previousFlow == Some(flow) {
        previousFlow := None;
      } else {
        var now := GetCurrentTime();
        time := time[flow := Max(time[flow], now)];
      }
      queuedTree := queuedTree[flow := data];
      assert flow in queuedTree;
      sent := None;
      if sendingFlow.None? && !scheduleJob {
        sent := Schedule();
      }
    }

    /** Also says whose packet is finished, and whether its one-shot busy handler is due. */
    method OutputHandlerDone() returns (flow: FlowId, callBusy: bool)
      requires Valid() && Enabled(State(), Done)
      modifies this
      ensures Valid() && State() == Step(old(State()), Done, Wrapping).0
      ensures flowsList == old(flowsList) && busyHandlers == old(busyHandlers) - {flow}
      ensures Some(flow) == old(sendingFlow) && callBusy == (flow in old(busyHandlers))
    {
      hide Bounded, Incremented, AfterSend, AfterJob, First, NoDup;
      StepKeepsInv(State(), Done, Wrapping);
      var _ := StepClock(State(), Done, Wrapping);
      flow := sendingFlow.value;
      IncrementSentFlow(flow, packetWeight + sendingLen);
      sendingFlow := None;
      previousFlow := Some(flow);
      scheduleJob := true;
      callBusy := flow in busyHandlers;
      busyHandlers := busyHandlers - {flow};
    }

    method FlowInit(flow: FlowId)
      requires Valid() && Enabled(State(), Event.FlowInit(flow))
      modifies this
      ensures Valid() && State() == Step(old(State()), Event.FlowInit(flow), Wrapping).0
      ensures flowsList == old(flowsList) + [flow] && busyHandlers == old(busyHandlers) - {flow}
    {
      StepKeepsInv(State(), Event.FlowInit(flow), Wrapping);
      busyHandlers := busyHandlers - {flow};
      time := time[flow := 0];
      flowsList := flowsList + [flow];
    }

    method FlowFree(flow: FlowId)
      requires Valid() && Enabled(State(), Event.FlowFree(flow))
      modifies this
      ensures Valid() && State() == Step(old(State()), Event.FlowFree(flow), Wrapping).0
      ensures flow !in flowsList && busyHandlers == old(busyHandlers)
    {
      hide Inv, Bounded, AfterSend, AfterDone, AfterJob, NoDup, Without;
      StepKeepsInv(State(), Event.FlowFree(flow), Wrapping);
      var _ := StepClock(State(), Event.FlowFree(flow), Wrapping);
      if previousFlow == Some(flow) {
        previousFlow := None;
      }
      queuedTree := queuedTree - {flow};
      flowsList := Without(flowsList, flow);
      time := time - {flow};
    }

    method SetBusyHandler(flow: FlowId)
      requires Valid() && sendingFlow == Some(flow)
      modifies this`busyHandlers
      ensures Valid() && busyHandlers == old(busyHandlers) + {flow}
    {
      busyHandlers := busyHandlers + {flow};
    }

    /** Tells the caller whether the flow may be freed: a busy one is not waiting, its end of
        sending is what happens next, and no queued flow is before it. */
    method IsBusy(flow: FlowId) returns (busy: bool)
      requires Valid() && flow in flowsList
      ensures busy <==> !Enabled(State(), Event.FlowFree(flow))
      ensures busy ==> Enabled(State(), Done) && flow !in queuedTree && previousFlow.None? && !scheduleJob
      ensures busy ==> forall g :: g in queuedTree ==> g in time && time[flow] <= time[g]
    {
      busy := sendingFlow == Some(flow);
    }
  }
}
