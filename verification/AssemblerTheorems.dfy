/** What the assembler promises of any run: frames come out whole whatever the network
    loses, repeats or reorders, and pieces that all arrive are enough in any order. */
module AssemblerTheorems {
  import opened Wrappers
  import opened Lists
  import opened FragmentProto
  import opened Assembler

  datatype Event = Got(chunk: Chunk) | EndOfPacket

  function Step(s: State, e: Event): (State, seq<Delivered>)
    requires Inv(s)
  {
    match e
    case Got(c) =>
      var r := ProcessChunk(s, c);
      (r.0, if r.1.Some? then [r.1.value] else [])
    case EndOfPacket => (Tick(s), [])
  }

  lemma StepKeeps(s: State, e: Event)
    requires Inv(s)
    ensures Inv(Step(s, e).0)
  {
    match e
    case Got(c) => ProcessKeeps(s, c);
    case EndOfPacket => TickKeeps(s);
  }

  function Run(s: State, es: seq<Event>): (State, seq<Delivered>)
    requires Inv(s)
    decreases |es|
  {
    if es == [] then (s, [])
    else
      StepKeeps(s, es[0]);
      var r := Step(s, es[0]);
      var rest := Run(r.0, es[1..]);
      (rest.0, r.1 + rest.1)
  }

  function Events(cs: seq<Chunk>): seq<Event> {
    if cs == [] then [EndOfPacket] else [Got(cs[0])] + Events(cs[1..])
  }

  /** Feeding a packet is the run of its chunks and its end. */
  lemma {:induction false} FeedIsRun(s: State, cs: seq<Chunk>)
    requires Inv(s)
    ensures Inv(Chunks(s, cs).0)
    ensures Run(s, Events(cs)) == (Tick(Chunks(s, cs).0), Chunks(s, cs).1)
    decreases |cs|
  {
    hide ProcessChunk, Tick;
    if cs == [] {
      StepKeeps(s, EndOfPacket);
      var r := Step(s, EndOfPacket);
      assert Events(cs)[1..] == [];
      assert r.1 + Run(r.0, []).1 == [];
    } else {
      ProcessKeeps(s, cs[0]);
      FeedIsRun(ProcessChunk(s, cs[0]).0, cs[1..]);
      assert Events(cs)[1..] == Events(cs[1..]);
      assert Run(s, Events(cs)) ==
        (var r := Step(s, Got(cs[0])); var rest := Run(r.0, Events(cs[1..])); (rest.0, r.1 + rest.1));
    }
  }

  // ----- integrity

  /** The chunk is a piece of `frame`, and marked last only at its end. */
  predicate CutFrom(c: Chunk, frame: seq<byte>) {
    c.End() <= |frame| && c.data == frame[c.start..c.End()] && (c.last ==> c.End() == |frame|)
  }

  predicate SpanHolds(b: Span, buf: seq<byte>, frame: seq<byte>) {
    b.End() <= |frame| && b.End() <= |buf| && buf[b.start..b.End()] == frame[b.start..b.End()]
  }

  /** Every byte the entry has received is that of `frame`. */
  ghost predicate Holds(e: Entry, buf: seq<byte>, frame: seq<byte>) {
    && (forall i :: 0 <= i < |e.chunks| ==> SpanHolds(e.chunks[i], buf, frame))
    && (e.length >= 0 ==> e.length == |frame|)
  }

  ghost predicate AllHold(s: State, frames: u16 -> seq<byte>)
    requires Inv(s)
  {
    forall k :: k in s.tree ==> Holds(s.entries[s.tree[k]], s.bufs[s.tree[k]], frames(k))
  }

  lemma OverwriteSpan(b: Span, buf: seq<byte>, start: nat, data: seq<byte>, frame: seq<byte>)
    requires SpanHolds(b, buf, frame) && start + |data| <= |buf| && !Overlap(b, Span(start, |data|))
    ensures SpanHolds(b, Overwrite(buf, start, data), frame)
  {
    var out := Overwrite(buf, start, data);
    assert out[b.start..b.End()] == buf[b.start..b.End()];
  }

  /** A new piece of `frame` beside the old ones leaves only bytes of `frame`. */
  lemma OverwriteHolds(e: Entry, buf: seq<byte>, c: Chunk, frame: seq<byte>, time: nat)
    requires Holds(e, buf, frame) && Accepts(e, c) && CutFrom(c, frame) && c.End() <= |buf|
    ensures Holds(AddChunk(e, c, time), Overwrite(buf, c.start, c.data), frame)
  {
    var f, out := AddChunk(e, c, time), Overwrite(buf, c.start, c.data);
    forall i | 0 <= i < |f.chunks| ensures SpanHolds(f.chunks[i], out, frame) {
      if i < |e.chunks| {
        OverwriteSpan(e.chunks[i], buf, c.start, c.data, frame);
      } else {
        assert out[c.start..c.End()] == c.data;
      }
    }
  }

  /** The counting argument at work: a complete entry's buffer is the frame. */
  lemma CompleteIsFrame(e: Entry, buf: seq<byte>, frame: seq<byte>)
    requires Disjoint(e.chunks) && e.sum == Total(e.chunks) && Complete(e) && e.length <= |buf|
    requires forall b :: b in e.chunks ==> b.End() <= e.length
    requires Holds(e, buf, frame)
    ensures buf[..e.length] == frame
  {
    Tiling(e.chunks, e.length);
    hide Disjoint, Total, Covered, Holds;
    forall p | 0 <= p < e.length ensures buf[p] == frame[p] {
      ByteHeld(e, buf, frame, p);
    }
    LengthHeld(e, buf, frame);
  }

  lemma LengthHeld(e: Entry, buf: seq<byte>, frame: seq<byte>)
    requires Holds(e, buf, frame) && e.length >= 0
    ensures e.length == |frame|
  {
  }

  lemma ByteHeld(e: Entry, buf: seq<byte>, frame: seq<byte>, p: nat)
    requires Holds(e, buf, frame) && p in Covered(e.chunks)
    ensures p < |buf| && p < |frame| && buf[p] == frame[p]
  {
    InCovered(e.chunks, p);
    hide Covered;
    var i :| 0 <= i < |e.chunks| && e.chunks[i].start <= p < e.chunks[i].End();
    var b := e.chunks[i];
    assert SpanHolds(b, buf, frame);
    assert buf[b.start..b.End()][p - b.start] == frame[b.start..b.End()][p - b.start];
  }

  lemma AddHolds(s: State, c: Chunk, frame: seq<byte>)
    requires Inv(s) && InBounds(s, c) && c.id in s.tree && Accepts(s.entries[s.tree[c.id]], c)
    requires Holds(s.entries[s.tree[c.id]], s.bufs[s.tree[c.id]], frame) && CutFrom(c, frame)
    ensures var t := Written(s, c); var i := s.tree[c.id];
            && Holds(t.entries[i], t.bufs[i], frame)
            && (Complete(t.entries[i]) ==> t.entries[i].length <= |t.bufs[i]| && t.bufs[i][..t.entries[i].length] == frame)
  {
    var i := s.tree[c.id];
    AddKeeps(s, c);
    var f := AddChunk(s.entries[i], c, s.time);
    var buf := Overwrite(s.bufs[i], c.start, c.data);
    OverwriteHolds(s.entries[i], s.bufs[i], c, frame, s.time);
    if Complete(f) { CompleteIsFrame(f, buf, frame); }
  }

  lemma ChunkIntegrity(s: State, c: Chunk, frames: u16 -> seq<byte>)
    requires Inv(s) && AllHold(s, frames) && CutFrom(c, frames(c.id))
    ensures var r := ProcessChunk(s, c);
            Inv(r.0) && AllHold(r.0, frames) && (r.1.Some? ==> r.1.value == Delivered(c.id, frames(c.id)))
  {
    hide Locate, Accepts, Holds, CutFrom, WellFormed;
    ProcessKeeps(s, c);
    var r := ProcessChunk(s, c);
    if InBounds(s, c) {
      LocateKeeps(s, c.id);
      var l := Locate(s, c.id);
      if Accepts(l.entries[l.tree[c.id]], c) { AddHolds(l, c, frames(c.id)); }
      forall k | k in r.0.tree ensures Holds(r.0.entries[r.0.tree[k]], r.0.bufs[r.0.tree[k]], frames(k)) {
        if k != c.id { ProcessFrame(s, c, k); }
      }
    }
  }

  lemma HoldsAnyTime(e: Entry, time: nat, buf: seq<byte>, frame: seq<byte>)
    requires Holds(e, buf, frame)
    ensures Holds(e.(time := time), buf, frame)
  {
  }

  lemma TickIntegrity(s: State, frames: u16 -> seq<byte>)
    requires Inv(s) && AllHold(s, frames)
    ensures Inv(Tick(s)) && AllHold(Tick(s), frames)
  {
    TickKeeps(s);
    var r := Tick(s);
    hide Tick, NoDup, WellFormed, Holds;
    forall k | k in r.tree ensures Holds(r.entries[r.tree[k]], r.bufs[r.tree[k]], frames(k)) {
      assert Survived(s, r, k, 1);
      HoldsAnyTime(s.entries[s.tree[k]], r.entries[r.tree[k]].time, s.bufs[s.tree[k]], frames(k));
    }
  }

  /** If every chunk received with id `k` was cut from frames(k), whatever was lost, repeated
      or reordered, every frame delivered with id `k` is frames(k). */
  lemma {:induction false} Integrity(s: State, es: seq<Event>, frames: u16 -> seq<byte>)
    requires Inv(s) && AllHold(s, frames)
    requires forall e :: e in es && e.Got? ==> CutFrom(e.chunk, frames(e.chunk.id))
    ensures forall d :: d in Run(s, es).1 ==> d.data == frames(d.id)
    decreases |es|
  {
    if es != [] {
      var e := es[0];
      match e
      case Got(c) =>
        assert e in es;
        ChunkIntegrity(s, c, frames);
        Integrity(ProcessChunk(s, c).0, es[1..], frames);
      case EndOfPacket =>
        TickIntegrity(s, frames);
        Integrity(Tick(s), es[1..], frames);
    }
  }

  /** A new assembler, whatever its buffers hold. */
  predicate Initial(s: State) {
    && s.time == 0 && s.used == [] && s.tree == map[] && 0 < s.numChunks
    && |s.entries| == |s.bufs| == s.tolerance && 0 < s.tolerance < MAX_TIME
    && (forall i :: 0 <= i < |s.bufs| ==> |s.bufs[i]| == s.mtu)
    && s.free == seq(s.tolerance, i => i)
  }

  lemma InitialInv(s: State, frames: u16 -> seq<byte>)
    requires Initial(s)
    ensures Inv(s) && AllHold(s, frames)
  {
    forall i | 0 <= i < s.tolerance ensures s.free[i] == i && i in s.free {
      assert s.free[i] == i;
    }
    hide WellFormed;
  }

  // ----- what is not put together

  /** The chunk brings a byte the frame has already, a second end, an end before what came, or
      bytes behind the end; or it takes the last of `slots` places without completing the frame. */
  ghost predicate Unfit(e: Entry, c: Chunk, slots: nat) {
    || (exists k :: c.start <= k < c.End() && k in Covered(e.chunks))
    || (c.last && (e.length >= 0 || exists i :: 0 <= i < |e.chunks| && e.chunks[i].End() > c.End()))
    || (!c.last && 0 <= e.length < c.End())
    || (|e.chunks| + 1 == slots && e.sum + |c.data| < (if c.last then c.End() else e.length))
    || (|e.chunks| + 1 == slots && !c.last && e.length < 0)
  }

  lemma UnfitFails(s: State, e: Entry, c: Chunk, time: nat)
    requires WellFormed(s, e) && Unfit(e, c, s.numChunks)
    ensures !Accepts(e, c) || (var f := AddChunk(e, c, time); !Complete(f) && |f.chunks| == s.numChunks)
  {
    hide Covered, Total, Disjoint;
    if k :| c.start <= k < c.End() && k in Covered(e.chunks) {
      InCovered(e.chunks, k);
      var i :| 0 <= i < |e.chunks| && e.chunks[i].start <= k < e.chunks[i].End();
      assert Overlap(e.chunks[i], Span(c.start, |c.data|));
    } else if i :| c.last && 0 <= i < |e.chunks| && e.chunks[i].End() > c.End() {
      assert e.chunks[i] in e.chunks;
    }
  }

  /** A chunk beyond the largest frame changes nothing. Any other that does not fit the frame it
      finds makes the assembler give the frame up. */
  lemma GivesUp(s: State, c: Chunk)
    requires Inv(s)
    ensures c.End() > s.mtu ==> ProcessChunk(s, c) == (s, None)
    ensures c.End() <= s.mtu && c.id in s.tree && s.tree[c.id] < |s.entries| && Age(s, s.tree[c.id]) <= |s.entries|
            && Unfit(s.entries[s.tree[c.id]], c, s.numChunks) ==>
              ProcessChunk(s, c).1.None? && c.id !in ProcessChunk(s, c).0.tree
  {
    hide Inv, Unfit, TakeChunk;
    InTolerance(s);
    if c.End() <= s.mtu && c.id in s.tree {
      TreeEntry(s, c.id);
      EntryOf(s, c.id);
      InRange(s);
      LocateKeeps(s, c.id);
      if Unfit(s.entries[s.tree[c.id]], c, s.numChunks) {
        UnfitFails(s, s.entries[s.tree[c.id]], c, s.time);
        TakeGivesUp(s, c);
      }
    }
  }

  lemma TakeGivesUp(s: State, c: Chunk)
    requires Inv(s) && InBounds(s, c) && c.id in s.tree && s.tree[c.id] < |s.entries|
    requires !Accepts(s.entries[s.tree[c.id]], c)
             || (var f := AddChunk(s.entries[s.tree[c.id]], c, s.time); !Complete(f) && |f.chunks| == s.numChunks)
    ensures TakeChunk(s, c).1.None? && c.id !in TakeChunk(s, c).0.tree
  {
    hide Inv, Accepts, Complete, Overwrite;
    TreeEntry(s, c.id);
    InRange(s);
  }

  lemma EntryOf(s: State, id: u16)
    requires Inv(s) && id in s.tree && s.tree[id] < |s.entries|
    ensures WellFormed(s, s.entries[s.tree[id]])
  {
  }
}
