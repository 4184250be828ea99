/** Theorems over whole runs of the fair queue: the renormalised clock refines the ideal
    one, backlogged flows share the output fairly, and no queued flow waits for ever. */
module FairQueueRuns {
  import opened Wrappers
  import opened FairQueue

  ghost function Next(q: Queue, e: Event, clock: Clock): (r: Queue)
    requires Inv(q) && Enabled(q, e)
    ensures Inv(r)
  {
    StepKeepsInv(q, e, clock);
    Step(q, e, clock).0
  }

  /** Every event of the run comes when the program allows it. */
  ghost predicate Legal(q: Queue, es: seq<Event>, clock: Clock)
    requires Inv(q)
    decreases |es|
  {
    es != [] ==> Enabled(q, es[0]) && Legal(Next(q, es[0], clock), es[1..], clock)
  }

  ghost function Final(q: Queue, es: seq<Event>, clock: Clock): (r: Queue)
    requires Inv(q) && Legal(q, es, clock)
    ensures Inv(r)
    decreases |es|
  {
    if es == [] then q else Final(Next(q, es[0], clock), es[1..], clock)
  }

  /** The packets handed to the output, in order. */
  ghost function Sents(q: Queue, es: seq<Event>, clock: Clock): seq<Sent>
    requires Inv(q) && Legal(q, es, clock)
    decreases |es|
  {
    if es == [] then []
    else
      var s := Step(q, es[0], clock).1;
      (if s.Some? then [s.value] else []) + Sents(Next(q, es[0], clock), es[1..], clock)
  }

  /** Bytes and packet weights of the packets of `f` finished in the run. */
  ghost function Service(q: Queue, es: seq<Event>, clock: Clock, f: FlowId): nat
    requires Inv(q) && Legal(q, es, clock)
    decreases |es|
  {
    if es == [] then 0
    else Charge(q, es[0], f) + Service(Next(q, es[0], clock), es[1..], clock, f)
  }

  /** No packet comes to a queue that is not busy once an increment has overflowed; `over`
      says that one has before. All else is free, idle periods included. */
  ghost predicate Aligned(q: Queue, es: seq<Event>, clock: Clock, over: bool)
    requires Inv(q) && Legal(q, es, clock)
    decreases |es|
  {
    es != [] ==>
      && (es[0].Send? && over ==> q.Busy())
      && Aligned(Next(q, es[0], clock), es[1..], clock, over || Overflows(q, es[0]))
  }

  /** Some increment of the run overflows. */
  ghost predicate Overflowed(q: Queue, es: seq<Event>, clock: Clock)
    requires Inv(q) && Legal(q, es, clock)
    decreases |es|
  {
    es != [] && (Overflows(q, es[0]) || Overflowed(Next(q, es[0], clock), es[1..], clock))
  }

  // ----- refinement

  lemma SameControl(r: Queue, i: Queue, d: nat, e: Event)
    requires Refines(r, i, d)
    ensures forall f :: Charge(r, e, f) == Charge(i, e, f)
    ensures d == 0 ==> r == i
  {
    assert d == 0 ==> r.time == i.time;
  }

  /** Every time of the ideal queue, and the offset to it, is zero or worth one packet. */
  ghost predicate Paid(i: Queue, d: nat) {
    && (forall f :: f in i.time ==> i.time[f] == 0 || i.weight <= i.time[f])
    && (d == 0 || i.weight <= d)
  }

  lemma StepPaid(i: Queue, d: nat, e: Event)
    requires Inv(i) && Enabled(i, e) && Paid(i, d)
    ensures Paid(Step(i, e, Unbounded).0, d)
  {
    hide First;
  }

  lemma OverflowMoves(r: Queue, i: Queue, d: nat, e: Event)
    requires Inv(r) && Refines(r, i, d)
    ensures Overflows(r, e) ==> 0 < r.time[r.sending.value]
    ensures Overflows(r, e) && Paid(i, d) && d == 0 ==> i.weight <= r.time[r.sending.value]
  {
  }

  lemma PaidStep(r: Queue, i: Queue, d: nat, e: Event, d': nat)
    requires Inv(r) && Inv(i) && Refines(r, i, d) && Enabled(i, e)
    requires if Overflows(r, e) then r.time[r.sending.value] <= d' - d else d' == d
    ensures Overflows(r, e) ==> d < d'
    ensures Paid(i, d) ==> Paid(Step(i, e, Unbounded).0, d')
  {
    OverflowMoves(r, i, d, e);
    if Paid(i, d) { StepPaid(i, d, e); StepWeight(i, e); }
    hide Step, Inv, Refines;
  }

  lemma StepWeight(q: Queue, e: Event)
    requires Inv(q) && Enabled(q, e)
    ensures Step(q, e, Unbounded).0.weight == q.weight
  {
  }

  /** Either clock's run is legal and aligned just when the other's is, and then the packets
      and the service agree; only overflows move the offset. */
  lemma {:induction false} RunRefinesFrom(r: Queue, i: Queue, d: nat, es: seq<Event>, over: bool) returns (d': nat)
    requires Inv(r) && Bounded(r) && Refines(r, i, d) && Inv(i)
    requires over || d == 0
    requires (Legal(r, es, Wrapping) && Aligned(r, es, Wrapping, over)) || (Legal(i, es, Unbounded) && Aligned(i, es, Unbounded, over))
    ensures Legal(r, es, Wrapping) && Aligned(r, es, Wrapping, over)
    ensures Legal(i, es, Unbounded) && Aligned(i, es, Unbounded, over)
    ensures Sents(r, es, Wrapping) == Sents(i, es, Unbounded)
    ensures Bounded(Final(r, es, Wrapping))
    ensures Refines(Final(r, es, Wrapping), Final(i, es, Unbounded), d')
    ensures if Overflowed(r, es, Wrapping) then d < d' else d == d'
    ensures Paid(i, d) ==> Paid(Final(i, es, Unbounded), d')
    ensures forall f :: Service(r, es, Wrapping, f) == Service(i, es, Unbounded, f)
    decreases |es|
  {
    hide Step, Refines, Inv, Enabled, Charge, Paid;
    d' := d;
    if es != [] {
      var e := es[0];
      SameControl(r, i, d, e);
      SameEnabled(r, i, d, e);
      d' := StepRefines(r, i, d, e);
      PaidStep(r, i, d, e, d');
      var _ := StepClock(r, e, Wrapping);
      var r1, i1 := Next(r, e, Wrapping), Next(i, e, Unbounded);
      d' := RunRefinesFrom(r1, i1, d', es[1..], over || Overflows(r, e));
    }
  }

  /** Any run that is aligned, on either clock, is so on both; the 64-bit queue sends exactly
      the packets of the queue with natural-number times, its times never leave the 64-bit
      range, and the two end in the same state when no increment overflows. */
  lemma RunRefines(q: Queue, es: seq<Event>)
    requires Inv(q) && Bounded(q)
    requires (Legal(q, es, Wrapping) && Aligned(q, es, Wrapping, false)) || (Legal(q, es, Unbounded) && Aligned(q, es, Unbounded, false))
    ensures Legal(q, es, Wrapping) && Aligned(q, es, Wrapping, false)
    ensures Legal(q, es, Unbounded) && Aligned(q, es, Unbounded, false)
    ensures Sents(q, es, Wrapping) == Sents(q, es, Unbounded)
    ensures Bounded(Final(q, es, Wrapping))
    ensures exists d :: Refines(Final(q, es, Wrapping), Final(q, es, Unbounded), d)
    ensures !Overflowed(q, es, Wrapping) ==> Final(q, es, Wrapping) == Final(q, es, Unbounded)
  {
    hide Inv;
    SelfRefines(q);
    var d := RunRefinesFrom(q, q, 0, es, false);
    SameControl(Final(q, es, Wrapping), Final(q, es, Unbounded), d, Done);
  }

  lemma SelfRefines(q: Queue)
    requires Inv(q)
    ensures Refines(q, q, 0)
  {
  }

  /** The queue is busy before every event but perhaps the first: one busy period, from
      the arrival that starts it. */
  ghost predicate OneBusyPeriod(q: Queue, es: seq<Event>, clock: Clock)
    requires Inv(q) && Legal(q, es, clock)
    decreases |es|
  {
    |es| <= 1 || (Next(q, es[0], clock).Busy() && OneBusyPeriod(Next(q, es[0], clock), es[1..], clock))
  }

  /** Runs are aligned over any one busy period, and over any number of them while no
      increment overflows. */
  lemma {:induction false} WhenAligned(q: Queue, es: seq<Event>, clock: Clock, over: bool)
    requires Inv(q) && Legal(q, es, clock)
    requires (OneBusyPeriod(q, es, clock) && (over ==> q.Busy())) || (!Overflowed(q, es, clock) && !over)
    ensures Aligned(q, es, clock, over)
    decreases |es|
  {
    hide Step, Inv;
    if |es| == 1 {
      assert es[1..] == [];
    } else if |es| > 1 {
      WhenAligned(Next(q, es[0], clock), es[1..], clock, over || Overflows(q, es[0]));
    }
  }

  // ----- fairness

  function Distance(a: int, b: int): nat {
    if a < b then b - a else a - b
  }

  /** `f` is sending, queued or about to queue again in every state of the run. */
  ghost predicate Backlogged(q: Queue, es: seq<Event>, clock: Clock, f: FlowId)
    requires Inv(q) && Legal(q, es, clock)
    decreases |es|
  {
    q.Active(f) && (es != [] ==> Backlogged(Next(q, es[0], clock), es[1..], clock, f))
  }

  function Lead(q: Queue, f: FlowId, g: FlowId): int
    requires f in q.time && g in q.time
  {
    q.time[f] as int - q.time[g] as int
  }

  lemma StepFair(q: Queue, e: Event, clock: Clock, f: FlowId, g: FlowId, gap: int)
    requires Inv(q) && Enabled(q, e) && (clock.Wrapping? ==> Bounded(q))
    requires q.Active(f) && q.Active(g)
    requires Next(q, e, clock).Active(f) && Next(q, e, clock).Active(g)
    requires -gap <= Lead(q, f, g) <= gap && q.weight + q.mtu <= gap
    ensures clock.Wrapping? ==> Bounded(Next(q, e, clock))
    ensures var r := Next(q, e, clock);
            && -gap <= Lead(r, f, g) <= gap
            && Lead(r, f, g) == Lead(q, f, g) + Charge(q, e, f) - Charge(q, e, g)
            && r.weight == q.weight && r.mtu == q.mtu
  {
    var sub := StepClock(q, e, clock);
  }

  lemma {:induction false} FairFrom(q: Queue, es: seq<Event>, clock: Clock, f: FlowId, g: FlowId, gap: int)
    requires Inv(q) && Legal(q, es, clock) && (clock.Wrapping? ==> Bounded(q))
    requires Backlogged(q, es, clock, f) && Backlogged(q, es, clock, g)
    requires -gap <= Lead(q, f, g) <= gap && q.weight + q.mtu <= gap
    ensures var r := Final(q, es, clock);
            && r.Active(f) && r.Active(g)
            && -gap <= Lead(r, f, g) <= gap
            && Lead(r, f, g) == Lead(q, f, g) + Service(q, es, clock, f) - Service(q, es, clock, g)
    decreases |es|
  {
    hide Step;
    if es != [] {
      StepFair(q, es[0], clock, f, g, gap);
      FairFrom(Next(q, es[0], clock), es[1..], clock, f, g, gap);
    }
  }

  // ----- bounded waiting

  ghost function SumOver(s: set<FlowId>, h: map<FlowId, nat>): nat
    requires s <= h.Keys
  {
    if s == {} then 0 else var f :| f in s; h[f] + SumOver(s - {f}, h)
  }

  lemma {:induction false} SumSplit(s: set<FlowId>, h: map<FlowId, nat>, f: FlowId)
    requires s <= h.Keys && f in s
    ensures SumOver(s, h) == h[f] + SumOver(s - {f}, h)
  {
    var g :| g in s && SumOver(s, h) == h[g] + SumOver(s - {g}, h);
    if g != f {
      SumSplit(s - {g}, h, f);
      SumSplit(s - {f}, h, g);
      assert s - {g} - {f} == s - {f} - {g};
    }
  }

  /** A pointwise smaller sum over fewer flows, smaller by `drop` at `f`. */
  lemma {:induction false} SumLess(s: set<FlowId>, h: map<FlowId, nat>, s': set<FlowId>, h': map<FlowId, nat>)
    requires s' <= s <= h.Keys && s' <= h'.Keys
    requires forall g :: g in s' ==> h'[g] <= h[g]
    ensures SumOver(s', h') <= SumOver(s, h)
  {
    if s != {} {
      var f :| f in s;
      SumSplit(s, h, f);
      SumLess(s - {f}, h, s' - {f}, h');
      if f in s' { SumSplit(s', h', f); } else { assert s' - {f} == s'; }
    }
  }

  /** How many packets a flow at time `t` can put ahead of one at time `limit`. */
  function Ahead(t: nat, limit: nat, weight: nat): nat
    requires 0 < weight
  {
    if t <= limit then (limit - t) / weight + 1 else 0
  }

  ghost function AheadMap(q: Queue, f: FlowId): map<FlowId, nat>
    requires Inv(q) && f in q.time
  {
    map g | g in q.time :: Ahead(q.time[g], q.time[f], q.weight)
  }

  /** The bound: over the flows not later than `f`, one packet plus one for every weight
      they are behind. */
  ghost function WaitBound(q: Queue, f: FlowId): nat
    requires Inv(q) && f in q.time
  {
    SumOver(q.time.Keys - {f}, AheadMap(q, f))
  }

  /** `f` stays queued in every state of the run, and no flow joins. */
  ghost predicate Waits(q: Queue, es: seq<Event>, clock: Clock, f: FlowId)
    requires Inv(q) && Legal(q, es, clock)
    decreases |es|
  {
    f in q.queued && (es != [] ==> !es[0].FlowInit? && Waits(Next(q, es[0], clock), es[1..], clock, f))
  }

  function InFlight(q: Queue): nat {
    if q.sending.Some? then 1 else 0
  }

  lemma MulMonotone(a: int, b: int, w: int)
    requires 0 <= w && a <= b
    ensures a * w <= b * w
  {
    assert (b - a) * w >= 0;
  }

  lemma DivMonotone(a: int, b: int, w: int)
    requires 0 < w && 0 <= a <= b
    ensures a / w <= b / w
  {
    assert a == a / w * w + a % w && b == b / w * w + b % w;
    if b / w < a / w { MulMonotone(b / w + 1, a / w, w); }
  }

  lemma AheadMonotone(t: int, limit: int, t': int, limit': int, weight: nat)
    requires 0 < weight && 0 <= t && 0 <= t' && 0 <= limit && 0 <= limit'
    requires t' - limit' >= t - limit
    ensures Ahead(t', limit', weight) <= Ahead(t, limit, weight)
  {
    if t' <= limit' { DivMonotone(limit' - t', limit - t, weight); }
  }

  lemma AheadDrops(t: int, limit: int, t': int, limit': int, weight: nat)
    requires 0 < weight && 0 <= t <= limit && 0 <= t' && 0 <= limit'
    requires t' - limit' >= t - limit + weight
    ensures Ahead(t', limit', weight) + 1 <= Ahead(t, limit, weight)
  {
  }

  lemma StepShape(q: Queue, e: Event, clock: Clock)
    requires Inv(q) && Enabled(q, e) && !e.FlowInit?
    ensures var r := Next(q, e, clock);
            && r.time.Keys <= q.time.Keys && r.weight == q.weight
            && (e.Done? ==> r.time.Keys == q.time.Keys)
            && (if Step(q, e, clock).1.Some? then 1 else 0) + InFlight(q) <= InFlight(r) + (if e.Done? then 1 else 0)
  {
  }

  lemma StepAhead(q: Queue, e: Event, clock: Clock, f: FlowId, g: FlowId)
    requires Inv(q) && Enabled(q, e) && !e.FlowInit? && (clock.Wrapping? ==> Bounded(q))
    requires f in q.queued && f in Next(q, e, clock).queued
    requires f != g && g in Next(q, e, clock).time && g in q.time
    ensures AheadMap(Next(q, e, clock), f)[g] + (if e.Done? && q.sending == Some(g) then 1 else 0)
            <= AheadMap(q, f)[g]
  {
    var r := Next(q, e, clock);
    StepShape(q, e, clock);
    var sub := StepClock(q, e, clock);
    hide Step;
    if e.Done? && q.sending == Some(g) {
      AheadDrops(q.time[g], q.time[f], r.time[g], r.time[f], q.weight);
    } else {
      AheadMonotone(q.time[g], q.time[f], r.time[g], r.time[f], q.weight);
    }
  }

  /** A packet sent while `f` waits is paid for when it is finished: the sender's clock moves
      up by at least one weight, which takes one off the bound. */
  lemma StepWaits(q: Queue, e: Event, clock: Clock, f: FlowId)
    requires Inv(q) && Enabled(q, e) && !e.FlowInit? && (clock.Wrapping? ==> Bounded(q))
    requires f in q.queued && f in Next(q, e, clock).queued
    ensures var r := Next(q, e, clock);
            WaitBound(r, f) + (if Step(q, e, clock).1.Some? then 1 else 0) + InFlight(q)
            <= WaitBound(q, f) + InFlight(r)
  {
    var r := Next(q, e, clock);
    StepShape(q, e, clock);
    hide Step, Ahead;
    var h, h' := AheadMap(q, f), AheadMap(r, f);
    var s, s' := q.time.Keys - {f}, r.time.Keys - {f};
    forall g | g in s' ensures h'[g] + (if e.Done? && q.sending == Some(g) then 1 else 0) <= h[g] {
      StepAhead(q, e, clock, f, g);
    }
    if e.Done? {
      var g := q.sending.value;
      SumSplit(s, h, g);
      SumSplit(s', h', g);
      SumLess(s - {g}, h, s' - {g}, h');
    } else {
      SumLess(s, h, s', h');
    }
  }

  lemma {:induction false} WaitsFrom(q: Queue, es: seq<Event>, clock: Clock, f: FlowId)
    requires Inv(q) && Legal(q, es, clock) && (clock.Wrapping? ==> Bounded(q))
    requires Waits(q, es, clock, f)
    ensures var r := Final(q, es, clock);
            && f in r.queued
            && |Sents(q, es, clock)| + WaitBound(r, f) + InFlight(q) <= WaitBound(q, f) + InFlight(r)
    decreases |es|
  {
    hide Step, WaitBound;
    if es != [] {
      StepWaits(q, es[0], clock, f);
      var _ := StepClock(q, es[0], clock);
      WaitsFrom(Next(q, es[0], clock), es[1..], clock, f);
    }
  }

  lemma SenderIsAhead(q: Queue, f: FlowId)
    requires Inv(q) && f in q.queued
    ensures InFlight(q) <= WaitBound(q, f)
  {
    if q.sending.Some? {
      var g := q.sending.value;
      assert q.time[g] <= q.time[f];
      DivMonotone(0, q.time[f] - q.time[g], q.weight);
      SumSplit(q.time.Keys - {f}, AheadMap(q, f), g);
    }
  }

  /** Bounded waiting: however long a run keeps `f` queued, with no flow joining, the packets
      sent ahead of it never exceed the bound, counting one already on its way. */
  lemma BoundedWaiting(q: Queue, es: seq<Event>, clock: Clock, f: FlowId)
    requires Inv(q) && Legal(q, es, clock) && (clock.Wrapping? ==> Bounded(q))
    requires Waits(q, es, clock, f)
    ensures |Sents(q, es, clock)| + InFlight(q) <= WaitBound(q, f)
  {
    WaitsFrom(q, es, clock, f);
    SenderIsAhead(Final(q, es, clock), f);
  }
}
