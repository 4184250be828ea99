/** Where the renormalised clock and the ideal one part: once an increment has overflowed, an
    idle queue whose times differ from the ideal ones can be told apart by the packets it
    sends, so the two agree on every later run just when no flow has been left behind. */
module FairQueueIdle {
  import opened Wrappers
  import opened FairQueue
  import opened FairQueueRuns

  /** Every aligned run of `r` on the 64-bit clock is a run of `i` on the ideal one that
      sends the same packets. */
  ghost predicate SameFuture(r: Queue, i: Queue)
    requires Inv(r) && Inv(i)
  {
    forall es :: Legal(r, es, Wrapping) && Aligned(r, es, Wrapping, false) ==>
      Legal(i, es, Unbounded) && Sents(r, es, Wrapping) == Sents(i, es, Unbounded)
  }

  // ----- runs of the ideal queue, put together event by event

  ghost predicate Plays(q: Queue, es: seq<Event>, over: bool, sents: seq<Sent>) {
    Inv(q) && Legal(q, es, Unbounded) && Aligned(q, es, Unbounded, over) && Sents(q, es, Unbounded) == sents
  }

  lemma {:induction false} Relaxed(q: Queue, es: seq<Event>, over: bool)
    requires Inv(q) && Legal(q, es, Unbounded) && Aligned(q, es, Unbounded, true)
    ensures Aligned(q, es, Unbounded, over)
    decreases |es|
  {
    hide Step, Inv;
    if es != [] { Relaxed(Next(q, es[0], Unbounded), es[1..], over || Overflows(q, es[0])); }
  }

  lemma NoEvents(q: Queue, over: bool)
    requires Inv(q)
    ensures Plays(q, [], over, [])
  {
  }

  lemma PlaysCons(q: Queue, e: Event, r: Queue, s: Option<Sent>, es: seq<Event>, over: bool, sents: seq<Sent>)
    requires Inv(q) && Enabled(q, e) && Step(q, e, Unbounded) == (r, s)
    requires Plays(r, es, over || e.Done?, sents) && (e.Send? && over ==> q.Busy())
    ensures Plays(q, [e] + es, over, if s.Some? then [s.value] + sents else sents)
  {
    hide Step, Inv;
    assert ([e] + es)[1..] == es && [] + sents == sents;
    if e.Done? { Relaxed(r, es, over || Overflows(q, e)); }
  }

  // ----- steps of a queue that sends empty packets

  ghost predicate Idle(q: Queue) {
    Inv(q) && !q.Busy() && !q.job
  }

  lemma SendAlone(q: Queue, g: FlowId)
    requires Idle(q) && g in q.time
    ensures var r := q.(sending := Some(g), sendingLen := 0);
            Inv(r) && r.queued == map[] && Enabled(q, Send(g, [])) && Step(q, Send(g, []), Unbounded) == (r, Some(Sent(g, [])))
  {
    assert q.time[g := q.time[g]] == q.time;
    var m: map<FlowId, Packet> := map[g := []];
    assert q.queued[g := []] == m && m - {g} == map[] == q.queued;
    assert First(q.time, m.Keys) == g;
  }

  lemma SendBehind(q: Queue, g: FlowId, f: FlowId)
    requires Inv(q) && q.sending == Some(g) && f != g && f in q.time && f !in q.queued && q.time[g] <= q.time[f]
    ensures var r := q.(queued := q.queued[f := []]);
            Inv(r) && Enabled(q, Send(f, [])) && Step(q, Send(f, []), Unbounded) == (r, None)
  {
    assert q.time[f := q.time[f]] == q.time;
  }

  lemma DoneEmpty(q: Queue, g: FlowId)
    requires Inv(q) && q.sending == Some(g) && q.sendingLen == 0
    ensures var r := q.(sending := None, previous := Some(g), job := true, time := q.time[g := q.time[g] + q.weight]);
            Inv(r) && Enabled(q, Done) && Step(q, Done, Unbounded) == (r, None)
  {
    StepKeepsInv(q, Done, Unbounded);
  }

  lemma JobOfTwo(q: Queue, f: FlowId, h: FlowId, w: FlowId)
    requires Inv(q) && q.job && q.queued == map[f := [], h := []] && f < h
    requires f in q.time && h in q.time && w == if q.time[f] <= q.time[h] then f else h
    ensures var r := q.(previous := None, job := false, queued := q.queued - {w}, sending := Some(w), sendingLen := 0);
            Inv(r) && Enabled(q, Job) && Step(q, Job, Unbounded) == (r, Some(Sent(w, [])))
  {
    StepKeepsInv(q, Job, Unbounded);
    hide Inv;
    assert q.queued.Keys == {f, h};
    var first := First(q.time, q.queued.Keys);
    assert first in {f, h};
    assert Before(q.time, first, w) && Before(q.time, w, first);
  }

  // ----- an idle flow clamped to zero

  function Clash(f: FlowId, g: FlowId, h: FlowId): seq<Event> {
    [Send(g, [])] + ([Send(f, [])] + ([Send(h, [])] + ([Done] + ([Job] + []))))
  }

  /** With `g` sending, `f` and `h` wait; `f` goes next just when its time was zero too. */
  lemma ClashRun(q: Queue, f: FlowId, g: FlowId, h: FlowId)
    requires Idle(q) && f in q.time && g in q.time && h in q.time && f != g && g != h && f < h
    requires q.time[g] == 0 && q.time[h] == 0
    ensures Plays(q, Clash(f, g, h), false, [Sent(g, []), Sent(if q.time[f] == 0 then f else h, [])])
  {
    hide Step, Inv, Plays;
    SendAlone(q, g);
    var q1 := q.(sending := Some(g), sendingLen := 0);
    SendBehind(q1, g, f);
    var q2 := q1.(queued := q1.queued[f := []]);
    SendBehind(q2, g, h);
    var q3 := q2.(queued := q2.queued[h := []]);
    DoneEmpty(q3, g);
    var q4 := q3.(sending := None, previous := Some(g), job := true, time := q3.time[g := q3.weight]);
    var w := if q.time[f] == 0 then f else h;
    assert q4.queued == map[f := [], h := []];
    JobOfTwo(q4, f, h, w);
    var q5 := q4.(previous := None, job := false, queued := q4.queued - {w}, sending := Some(w), sendingLen := 0);
    NoEvents(q5, true);
    PlaysCons(q4, Job, q5, Some(Sent(w, [])), [], true, []);
    assert [Sent(w, [])] + [] == [Sent(w, [])] && [Sent(g, [])] + [Sent(w, [])] == [Sent(g, []), Sent(w, [])];
    PlaysCons(q3, Done, q4, None, [Job] + [], false, [Sent(w, [])]);
    PlaysCons(q2, Send(h, []), q3, None, [Done] + ([Job] + []), false, [Sent(w, [])]);
    PlaysCons(q1, Send(f, []), q2, None, [Send(h, [])] + ([Done] + ([Job] + [])), false, [Sent(w, [])]);
    PlaysCons(q, Send(g, []), q1, Some(Sent(g, [])), [Send(f, [])] + ([Send(h, [])] + ([Done] + ([Job] + []))), false, [Sent(w, [])]);
  }

  // ----- an idle flow not clamped

  /** `g` is sending and `f` waits, with empty packets. */
  ghost predicate Contest(q: Queue, f: FlowId, g: FlowId) {
    && Inv(q) && q.sending == Some(g) && q.sendingLen == 0 && q.queued == map[f := []]
    && f < g && f in q.time && g in q.time
  }

  function Round(g: FlowId, es: seq<Event>): seq<Event> {
    [Done] + ([Send(g, [])] + ([Job] + es))
  }

  /** `g` finishes and sends again: it goes on while one weight more keeps it before `f`. */
  ghost function AfterRound(q: Queue, f: FlowId, g: FlowId): (r: Queue)
    requires Contest(q, f, g)
    ensures Inv(r) && (q.time[g] + q.weight < q.time[f] ==> Contest(r, f, g))
    ensures 0 < r.weight == q.weight && r.time == q.time[g := q.time[g] + q.weight]
  {
    hide Inv, Step;
    DoneEmpty(q, g);
    var q1 := q.(sending := None, previous := Some(g), job := true, time := q.time[g := q.time[g] + q.weight]);
    SendOwn(q1, f, g);
    var q2 := q1.(previous := None, queued := q1.queued[g := []]);
    var w := if q2.time[f] <= q2.time[g] then f else g;
    JobOfTwo(q2, f, g, w);
    assert w == g ==> q2.queued - {w} == map[f := []];
    q2.(previous := None, job := false, queued := q2.queued - {w}, sending := Some(w), sendingLen := 0)
  }

  lemma SendOwn(q: Queue, f: FlowId, g: FlowId)
    requires Inv(q) && q.previous == Some(g) && q.job && q.queued == map[f := []] && f != g
    ensures var r := q.(previous := None, queued := q.queued[g := []]);
            && Inv(r) && r.queued == map[f := [], g := []]
            && Enabled(q, Send(g, [])) && Step(q, Send(g, []), Unbounded) == (r, None)
  {
  }

  lemma RoundRun(q: Queue, f: FlowId, g: FlowId, es: seq<Event>, sents: seq<Sent>)
    requires Contest(q, f, g) && Plays(AfterRound(q, f, g), es, true, sents)
    ensures Plays(q, Round(g, es), true, [Sent(if q.time[g] + q.weight < q.time[f] then g else f, [])] + sents)
  {
    hide Step, Inv, Plays;
    DoneEmpty(q, g);
    var q1 := q.(sending := None, previous := Some(g), job := true, time := q.time[g := q.time[g] + q.weight]);
    SendOwn(q1, f, g);
    var q2 := q1.(previous := None, queued := q1.queued[g := []]);
    var w := if q2.time[f] <= q2.time[g] then f else g;
    JobOfTwo(q2, f, g, w);
    var q3 := AfterRound(q, f, g);
    PlaysCons(q2, Job, q3, Some(Sent(w, [])), es, true, sents);
    PlaysCons(q1, Send(g, []), q2, None, [Job] + es, true, [Sent(w, [])] + sents);
    PlaysCons(q, Done, q1, None, [Send(g, [])] + ([Job] + es), true, [Sent(w, [])] + sents);
  }

  /** `g` draws level with a waiting `f` one round before it would if `f` were one weight
      later. */
  lemma {:induction false} Race(r: Queue, i: Queue, f: FlowId, g: FlowId) returns (es: seq<Event>, rs: seq<Sent>, is': seq<Sent>)
    requires Contest(r, f, g) && Contest(i, f, g) && r.weight == i.weight && r.time[g] == i.time[g]
    requires r.time[g] < r.time[f] && r.time[f] + r.weight <= i.time[f]
    ensures Plays(r, es, true, rs) && Plays(i, es, true, is') && rs != is'
    decreases r.time[f] - r.time[g]
  {
    hide Inv, Plays;
    var r1, i1 := AfterRound(r, f, g), AfterRound(i, f, g);
    if r.time[g] + r.weight < r.time[f] {
      es, rs, is' := Race(r1, i1, f, g);
    } else {
      es, rs, is' := [], [], [];
      NoEvents(r1, true);
      NoEvents(i1, true);
    }
    RoundRun(r, f, g, es, rs);
    RoundRun(i, f, g, es, is');
    assert forall a: Sent, b: Sent :: ([a] + rs)[1..] == rs && ([b] + is')[1..] == is';
    es := Round(g, es);
    rs := [Sent(if r.time[g] + r.weight < r.time[f] then g else f, [])] + rs;
    is' := [Sent(g, [])] + is';
  }

  // ----- every idle pair that differs can be told apart

  lemma {:induction false} Beyond(s: set<FlowId>) returns (g: FlowId)
    ensures forall f :: f in s ==> f < g
  {
    if s == {} {
      g := 0;
    } else {
      var f :| f in s;
      g := Beyond(s - {f});
      assert forall h :: h in s ==> h == f || h in s - {f};
      g := Max(g, f + 1);
    }
  }

  lemma JoinRun(q: Queue, g: FlowId, es: seq<Event>, sents: seq<Sent>)
    requires Idle(q) && g !in q.time && Plays(q.(time := q.time[g := 0]), es, false, sents)
    ensures Plays(q, [FlowInit(g)] + es, false, sents)
  {
    hide Inv, Plays;
    PlaysCons(q, FlowInit(g), q.(time := q.time[g := 0]), None, es, false, sents);
  }

  lemma Joined(q: Queue, g: FlowId)
    requires Idle(q) && g !in q.time
    ensures Idle(q.(time := q.time[g := 0]))
  {
  }

  lemma TellClamped(r: Queue, i: Queue, f: FlowId) returns (es: seq<Event>, rs: seq<Sent>, is': seq<Sent>)
    requires Idle(r) && Idle(i) && r.time.Keys == i.time.Keys && f in r.time && r.time[f] == 0 < i.time[f]
    ensures Plays(r, es, false, rs) && Plays(i, es, false, is') && rs != is'
  {
    hide Inv, Idle, Plays;
    var g := Beyond(r.time.Keys);
    var h := g + 1;
    assert g !in r.time && h !in r.time;
    TellWith(r, f, g, h);
    TellWith(i, f, g, h);
    es := [FlowInit(g)] + ([FlowInit(h)] + Clash(f, g, h));
    rs, is' := [Sent(g, []), Sent(f, [])], [Sent(g, []), Sent(h, [])];
    assert rs[1] != is'[1];
  }

  lemma TellWith(q: Queue, f: FlowId, g: FlowId, h: FlowId)
    requires Idle(q) && f in q.time && g !in q.time && h !in q.time && f < g < h
    ensures Plays(q, [FlowInit(g)] + ([FlowInit(h)] + Clash(f, g, h)), false, [Sent(g, []), Sent(if q.time[f] == 0 then f else h, [])])
  {
    hide Inv, Idle, Plays, Clash;
    var q1 := q.(time := q.time[g := 0]);
    Joined(q, g);
    Joined(q1, h);
    var q2 := q1.(time := q1.time[h := 0]);
    ClashRun(q2, f, g, h);
    JoinRun(q1, h, Clash(f, g, h), [Sent(g, []), Sent(if q.time[f] == 0 then f else h, [])]);
    JoinRun(q, g, [FlowInit(h)] + Clash(f, g, h), [Sent(g, []), Sent(if q.time[f] == 0 then f else h, [])]);
  }

  /** Flow `g` joins and sends, and `f` queues behind it. */
  lemma ContestStarts(q: Queue, f: FlowId, g: FlowId) returns (r: Queue)
    requires Idle(q) && f in q.time && g !in q.time && f < g
    ensures Contest(r, f, g) && r.weight == q.weight && r.time == q.time[g := 0]
    ensures forall es, sents :: Plays(r, es, true, sents) ==>
      Plays(q, [FlowInit(g)] + ([Send(g, [])] + ([Send(f, [])] + es)), false, [Sent(g, [])] + sents)
  {
    hide Step, Inv, Plays;
    var q1 := q.(time := q.time[g := 0]);
    Joined(q, g);
    SendAlone(q1, g);
    var q2 := q1.(sending := Some(g), sendingLen := 0);
    SendBehind(q2, g, f);
    r := q2.(queued := q2.queued[f := []]);
    assert r.queued == map[f := []];
    forall es, sents | Plays(r, es, true, sents)
      ensures Plays(q, [FlowInit(g)] + ([Send(g, [])] + ([Send(f, [])] + es)), false, [Sent(g, [])] + sents)
    {
      PlaysRelaxed(r, es, sents);
      PlaysCons(q2, Send(f, []), r, None, es, false, sents);
      PlaysCons(q1, Send(g, []), q2, Some(Sent(g, [])), [Send(f, [])] + es, false, sents);
      JoinRun(q, g, [Send(g, [])] + ([Send(f, [])] + es), [Sent(g, [])] + sents);
    }
  }

  lemma PlaysRelaxed(q: Queue, es: seq<Event>, sents: seq<Sent>)
    requires Plays(q, es, true, sents)
    ensures Plays(q, es, false, sents)
  {
    hide Inv;
    Relaxed(q, es, false);
  }

  lemma TellUnclamped(r: Queue, i: Queue, f: FlowId) returns (es: seq<Event>, rs: seq<Sent>, is': seq<Sent>)
    requires Idle(r) && Idle(i) && r.time.Keys == i.time.Keys && r.weight == i.weight
    requires f in r.time && 0 < r.time[f] && r.time[f] + r.weight <= i.time[f]
    ensures Plays(r, es, false, rs) && Plays(i, es, false, is') && rs != is'
  {
    hide Inv, Idle, Plays, Contest;
    var g := Beyond(r.time.Keys);
    assert g !in r.time && f < g;
    var r1 := ContestStarts(r, f, g);
    var i1 := ContestStarts(i, f, g);
    es, rs, is' := Race(r1, i1, f, g);
    assert ([Sent(g, [])] + rs)[1..] == rs && ([Sent(g, [])] + is')[1..] == is';
    es, rs, is' := [FlowInit(g)] + ([Send(g, [])] + ([Send(f, [])] + es)), [Sent(g, [])] + rs, [Sent(g, [])] + is';
  }

  /** A pending schedule job finds nothing to do. */
  lemma JobIdle(q: Queue, es: seq<Event>, sents: seq<Sent>)
    requires Inv(q) && !q.Busy() && q.job && Plays(q.(job := false), es, false, sents)
    ensures Plays(q, [Job] + es, false, sents)
  {
    assert q.(previous := None, job := false) == q.(job := false);
    hide Inv, Plays;
    PlaysCons(q, Job, q.(job := false), None, es, false, sents);
  }

  lemma IdlePair(r: Queue, i: Queue, d: nat)
    requires Inv(r) && Inv(i) && Refines(r, i, d) && !r.Busy() && Paid(i, d)
    ensures Idle(r.(job := false)) && Idle(i.(job := false))
    ensures !i.Busy() && i.job == r.job && r.time.Keys == i.time.Keys && r.weight == i.weight
    ensures forall f :: f in r.time && r.time[f] != i.time[f] ==>
      if r.time[f] == 0 then 0 < i.time[f] else r.time[f] + r.weight <= i.time[f]
  {
  }

  /** Any two idle queues of which one is the other with some times lowered send different
      packets on some aligned run. */
  lemma Diverge(r: Queue, i: Queue, d: nat) returns (es: seq<Event>)
    requires Inv(r) && Bounded(r) && Inv(i) && Refines(r, i, d) && !r.Busy() && Paid(i, d) && r.time != i.time
    ensures Legal(r, es, Wrapping) && Aligned(r, es, Wrapping, false)
    ensures Legal(i, es, Unbounded) && Aligned(i, es, Unbounded, false)
    ensures Sents(r, es, Wrapping) != Sents(i, es, Unbounded)
  {
    hide Inv, Idle, Bounded, Refines, Paid;
    IdlePair(r, i, d);
    var f :| f in r.time && r.time[f] != i.time[f];
    var r0, i0, rs, is' := r.(job := false), i.(job := false), [], [];
    if r.time[f] == 0 {
      es, rs, is' := TellClamped(r0, i0, f);
    } else {
      es, rs, is' := TellUnclamped(r0, i0, f);
    }
    if r.job {
      JobIdle(r, es, rs);
      JobIdle(i, es, is');
      es := [Job] + es;
    } else {
      assert r0 == r && i0 == i;
    }
    RunRefines(r, es);
  }

  // ----- the exact condition

  /** After any aligned run that ends idle, the packets sent on every later aligned run are
      those of the ideal queue if and only if no increment has overflowed so far or no flow
      is left whose ideal time has moved. */
  lemma IdleExact(weight: nat, mtu: nat, es: seq<Event>)
    requires 0 < weight && weight + mtu <= MAX_TIME
    requires Legal(Fresh(weight, mtu), es, Wrapping) && Aligned(Fresh(weight, mtu), es, Wrapping, false)
    requires !Final(Fresh(weight, mtu), es, Wrapping).Busy()
    ensures Legal(Fresh(weight, mtu), es, Unbounded)
    ensures var r, i := Final(Fresh(weight, mtu), es, Wrapping), Final(Fresh(weight, mtu), es, Unbounded);
            SameFuture(r, i) <==> !Overflowed(Fresh(weight, mtu), es, Wrapping) || forall f :: f in i.time ==> i.time[f] == 0
  {
    var q := Fresh(weight, mtu);
    var d := Reached(q, es);
    hide Inv, Fresh;
    var r, i := Final(q, es, Wrapping), Final(q, es, Unbounded);
    SameTimes(r, i, d);
    hide Refines;
    if r.time == i.time {
      forall fs | Legal(r, fs, Wrapping) && Aligned(r, fs, Wrapping, false)
        ensures Legal(i, fs, Unbounded) && Sents(r, fs, Wrapping) == Sents(i, fs, Unbounded)
      {
        RunRefines(r, fs);
      }
    } else {
      var fs := Diverge(r, i, d);
    }
  }

  lemma Reached(q: Queue, es: seq<Event>) returns (d: nat)
    requires Inv(q) && q.time == map[]
    requires (Legal(q, es, Wrapping) && Aligned(q, es, Wrapping, false)) || (Legal(q, es, Unbounded) && Aligned(q, es, Unbounded, false))
    ensures Legal(q, es, Wrapping) && Aligned(q, es, Wrapping, false)
    ensures Legal(q, es, Unbounded) && Aligned(q, es, Unbounded, false)
    ensures var r, i := Final(q, es, Wrapping), Final(q, es, Unbounded);
            Bounded(r) && Refines(r, i, d) && Paid(i, d)
    ensures Sents(q, es, Wrapping) == Sents(q, es, Unbounded)
    ensures d == 0 <==> !Overflowed(q, es, Wrapping)
  {
    SelfRefines(q);
    hide Inv, Refines;
    d := RunRefinesFrom(q, q, 0, es, false);
  }

  lemma SameTimes(r: Queue, i: Queue, d: nat)
    requires Refines(r, i, d)
    ensures r.time == i.time <==> r == i
    ensures r.time == i.time <==> d == 0 || forall f :: f in i.time ==> i.time[f] == 0
  {
    if r.time == i.time && d > 0 {
      forall f | f in i.time ensures i.time[f] == 0 { assert r.time[f] == i.time[f]; }
    }
  }

  // ----- the two clocks do part

  function Alone(weight: nat, mtu: nat, t: nat): Queue {
    Queue(weight, mtu, map[0 := t], map[], None, 0, None, false)
  }

  /** One flow sends empty packets, each after an idle period, until the clock overflows. */
  lemma {:induction false} Lone(weight: nat, mtu: nat, t: nat) returns (es: seq<Event>)
    requires 0 < weight && weight + mtu <= MAX_TIME && t <= MAX_TIME
    ensures Inv(Alone(weight, mtu, t)) && Legal(Alone(weight, mtu, t), es, Unbounded)
    ensures Aligned(Alone(weight, mtu, t), es, Unbounded, false)
    ensures exists t' :: MAX_TIME < t' && Final(Alone(weight, mtu, t), es, Unbounded) == Alone(weight, mtu, t')
    decreases MAX_TIME - t
  {
    LoneInv(weight, mtu, t);
    LoneInv(weight, mtu, t + weight);
    hide Inv;
    if t + weight <= MAX_TIME {
      es := Lone(weight, mtu, t + weight);
    } else {
      es := [];
    }
    LoneRound(weight, mtu, t, es);
    es := [Send(0, [])] + ([Done] + ([Job] + es));
  }

  lemma LoneInv(weight: nat, mtu: nat, t: nat)
    requires 0 < weight && weight + mtu <= MAX_TIME
    ensures Inv(Alone(weight, mtu, t)) && Idle(Alone(weight, mtu, t))
  {
  }

  lemma LoneRound(weight: nat, mtu: nat, t: nat, es: seq<Event>)
    requires 0 < weight && weight + mtu <= MAX_TIME && t <= MAX_TIME
    requires Inv(Alone(weight, mtu, t)) && Inv(Alone(weight, mtu, t + weight)) && Legal(Alone(weight, mtu, t + weight), es, Unbounded)
    requires Aligned(Alone(weight, mtu, t + weight), es, Unbounded, MAX_TIME < t + weight)
    ensures var q, fs := Alone(weight, mtu, t), [Send(0, [])] + ([Done] + ([Job] + es));
            && Legal(q, fs, Unbounded) && Aligned(q, fs, Unbounded, false)
            && Final(q, fs, Unbounded) == Final(Alone(weight, mtu, t + weight), es, Unbounded)
  {
    LoneInv(weight, mtu, t);
    hide Inv, Step, Idle;
    var q, r := Alone(weight, mtu, t), Alone(weight, mtu, t + weight);
    SendAlone(q, 0);
    var q1 := q.(sending := Some(0));
    DoneEmpty(q1, 0);
    var q2 := q1.(sending := None, previous := Some(0), job := true, time := q1.time[0 := t + weight]);
    assert q2.time == r.time;
    LoneJob(q2, r);
    RunCons(q2, Job, r, es, MAX_TIME < t + weight);
    RunCons(q1, Done, q2, [Job] + es, false);
    RunCons(q, Send(0, []), q1, [Done] + ([Job] + es), false);
  }

  lemma LoneJob(q: Queue, r: Queue)
    requires Inv(q) && q.job && q.queued == map[] && r == q.(previous := None, job := false)
    ensures Enabled(q, Job) && Step(q, Job, Unbounded) == (r, None)
  {
  }

  lemma RunCons(q: Queue, e: Event, r: Queue, es: seq<Event>, over: bool)
    requires Inv(q) && Enabled(q, e) && Step(q, e, Unbounded).0 == r && Inv(r) && Legal(r, es, Unbounded)
    requires Aligned(r, es, Unbounded, over || Overflows(q, e)) && (e.Send? && over ==> q.Busy())
    ensures Legal(q, [e] + es, Unbounded) && Aligned(q, [e] + es, Unbounded, over)
    ensures Final(q, [e] + es, Unbounded) == Final(r, es, Unbounded)
  {
    hide Step, Inv;
    assert ([e] + es)[1..] == es;
  }

  lemma FirstStep(q: Queue, es: seq<Event>, clock: Clock) returns (r: Queue, first: seq<Sent>)
    requires Inv(q) && es != [] && Enabled(q, es[0])
    ensures Inv(r) && (Legal(q, es, clock) <==> Legal(r, es[1..], clock))
    ensures Legal(q, es, clock) ==>
      Final(q, es, clock) == Final(r, es[1..], clock) && Sents(q, es, clock) == first + Sents(r, es[1..], clock)
    ensures r == Next(q, es[0], clock)
    ensures first == var s := Step(q, es[0], clock).1; if s.Some? then [s.value] else []
  {
    hide Step, Inv, Enabled;
    r := Next(q, es[0], clock);
    var s := Step(q, es[0], clock).1;
    first := if s.Some? then [s.value] else [];
  }

  lemma {:induction false} LegalConcat(q: Queue, es: seq<Event>, fs: seq<Event>, clock: Clock)
    requires Inv(q) && Legal(q, es, clock) && Legal(Final(q, es, clock), fs, clock)
    ensures Legal(q, es + fs, clock)
    ensures Sents(q, es + fs, clock) == Sents(q, es, clock) + Sents(Final(q, es, clock), fs, clock)
    decreases |es|
  {
    hide Step, Inv, Enabled, Sents, Final, Legal;
    if es == [] {
      NothingRun(q, clock);
      assert es + fs == fs;
      assert Sents(q, fs, clock) == [] + Sents(q, fs, clock);
    } else {
      LegalStart(q, es, clock);
      var r, first := FirstStep(q, es, clock);
      LegalConcat(r, es[1..], fs, clock);
      assert (es + fs)[1..] == es[1..] + fs;
      var _, again := FirstStep(q, es + fs, clock);
      var a, b := Sents(r, es[1..], clock), Sents(Final(q, es, clock), fs, clock);
      assert first + (a + b) == first + a + b;
    }
  }

  lemma NothingRun(q: Queue, clock: Clock)
    requires Inv(q)
    ensures Legal(q, [], clock) && Final(q, [], clock) == q && Sents(q, [], clock) == []
  {
  }

  lemma LegalStart(q: Queue, es: seq<Event>, clock: Clock)
    requires Inv(q) && Legal(q, es, clock) && es != []
    ensures Enabled(q, es[0])
  {
  }

  /** After some aligned run the queue is idle and its clock has been taken back. */
  lemma Overrun(weight: nat, mtu: nat) returns (es: seq<Event>)
    requires 0 < weight && weight + mtu <= MAX_TIME
    ensures Inv(Fresh(weight, mtu)) && Legal(Fresh(weight, mtu), es, Unbounded)
    ensures Aligned(Fresh(weight, mtu), es, Unbounded, false)
    ensures var i := Final(Fresh(weight, mtu), es, Unbounded);
            !i.Busy() && 0 in i.time && MAX_TIME < i.time[0]
  {
    LoneInv(weight, mtu, 0);
    var q := Fresh(weight, mtu);
    assert q.time[0 := 0] == map[0 := 0] && Inv(q);
    hide Inv, Idle, Legal, Aligned, Final;
    es := Lone(weight, mtu, 0);
    RunCons(q, FlowInit(0), Alone(weight, mtu, 0), es, false);
    es := [FlowInit(0)] + es;
  }

  /** Whatever weight and MTU Init accepts, some run from the initial state makes the two
      clocks send different packets: a flow is used, with pauses, until its time overflows,
      and flows that join later are then treated differently. */
  lemma Diverges(weight: nat, mtu: nat) returns (es: seq<Event>)
    requires 0 < weight && weight + mtu <= MAX_TIME
    ensures Legal(Fresh(weight, mtu), es, Wrapping) && Legal(Fresh(weight, mtu), es, Unbounded)
    ensures Sents(Fresh(weight, mtu), es, Wrapping) != Sents(Fresh(weight, mtu), es, Unbounded)
  {
    var q := Fresh(weight, mtu);
    assert q.time == map[];
    hide Inv, Step, Legal, Aligned, Sents, Final, Refines, Fresh;
    es := Overrun(weight, mtu);
    var d := Reached(q, es);
    var r, i := Final(q, es, Wrapping), Final(q, es, Unbounded);
    NotBusy(r, i, d);
    var fs := Diverge(r, i, d);
    LegalConcat(q, es, fs, Wrapping);
    LegalConcat(q, es, fs, Unbounded);
    var sents, rs, is' := Sents(q, es, Wrapping), Sents(r, fs, Wrapping), Sents(i, fs, Unbounded);
    assert (sents + rs)[|sents|..] == rs && (sents + is')[|sents|..] == is';
    es := es + fs;
  }

  lemma NotBusy(r: Queue, i: Queue, d: nat)
    requires Refines(r, i, d) && Bounded(r) && !i.Busy() && 0 in i.time && MAX_TIME < i.time[0]
    ensures !r.Busy() && r.time != i.time
  {
    assert r.time[0] <= MAX_TIME;
  }
}
