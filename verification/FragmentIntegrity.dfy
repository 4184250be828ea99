/** From the sender's frames to the receiver's, over a network that may lose, repeat and
    reorder packets: the disassembler numbers the frames, and the numbers keep them apart. */
module FragmentIntegrity {
  import opened Wrappers
  import opened FragmentProto
  import opened AssemblerTheorems
  import opened AssemblerOrder
  import A = Assembler
  import D = Disassembler

  // ----- the sender's runs

  /** A run of inputs, output packets and timers as the interfaces allow them. */
  ghost predicate Legal(p: D.Params, d: D.State, es: seq<D.Event>)
    requires D.Inv(p, d)
    decreases |es|
  {
    es != [] ==> D.Enabled(d, es[0]) && Legal(p, After(p, d, es[0]), es[1..])
  }

  ghost function After(p: D.Params, d: D.State, e: D.Event): (r: D.State)
    requires D.Inv(p, d) && D.Enabled(d, e)
    ensures D.Inv(p, r)
  {
    D.StepKeepsInv(p, d, e);
    D.Step(p, d, e).0
  }

  ghost function Final(p: D.Params, d: D.State, es: seq<D.Event>): D.State
    requires D.Inv(p, d) && Legal(p, d, es)
    decreases |es|
  {
    if es == [] then d else Final(p, After(p, d, es[0]), es[1..])
  }

  /** The packets that leave. */
  ghost function Packets(p: D.Params, d: D.State, es: seq<D.Event>): seq<seq<Chunk>>
    requires D.Inv(p, d) && Legal(p, d, es)
    decreases |es|
  {
    if es == [] then []
    else
      var sent := D.Step(p, d, es[0]).1;
      (if sent.Some? then [sent.value] else []) + Packets(p, After(p, d, es[0]), es[1..])
  }

  /** The frames given in, in order. */
  function Inputs(es: seq<D.Event>): seq<seq<byte>> {
    if es == [] then [] else (if es[0].Input? then [es[0].frame] else []) + Inputs(es[1..])
  }

  // ----- the numbers of frames

  /** The chunk is a piece of some frame and carries that frame's number. */
  ghost predicate Numbered(c: Chunk, frames: seq<seq<byte>>, base: u16) {
    exists k :: 0 <= k < |frames| && IsPieceOf(c, frames[k], k, base)
  }

  predicate IsPieceOf(c: Chunk, frame: seq<byte>, k: nat, base: u16) {
    c.id == (base + k) % ID_LIMIT && CutFrom(c, frame) && (c.last <==> c.End() == |frame|)
  }

  ghost predicate AllNumbered(cs: seq<Chunk>, frames: seq<seq<byte>>, base: u16) {
    forall c :: c in cs ==> Numbered(c, frames, base)
  }

  /** How many frames have been cut to the end. */
  function Finished(d: D.State, frames: seq<seq<byte>>): int {
    if d.input.Some? then |frames| - 1 else |frames|
  }

  /** The next number is that of the frames finished so far, counted from `base`, and what
      waits in the output packet is numbered. */
  ghost predicate Counting(d: D.State, frames: seq<seq<byte>>, base: u16) {
    && (d.input.Some? ==> frames != [] && frames[|frames| - 1] == d.input.value)
    && 0 <= Finished(d, frames) && d.frameId == (base + Finished(d, frames)) % ID_LIMIT
    && (d.out.Some? ==> AllNumbered(d.out.value, frames, base))
  }

  lemma MoreFrames(cs: seq<Chunk>, frames: seq<seq<byte>>, base: u16, frame: seq<byte>)
    requires AllNumbered(cs, frames, base)
    ensures AllNumbered(cs, frames + [frame], base)
  {
    forall c | c in cs ensures Numbered(c, frames + [frame], base) {
      var k :| 0 <= k < |frames| && IsPieceOf(c, frames[k], k, base);
      assert (frames + [frame])[k] == frames[k];
    }
  }

  /** What write_chunks cuts off the frame under way has that frame's number. */
  lemma CutNumbered(p: D.Params, d: D.State, frames: seq<seq<byte>>, base: u16)
    requires p.Ok() && d.input.Some? && d.out.Some? && D.Started(d.input.value, d.inUsed)
    requires D.OutUsed(d.out.value) + HEADER < p.outputMtu && Counting(d, frames, base)
    ensures AllNumbered(D.Cut(p, d.input.value, d.inUsed, D.OutUsed(d.out.value), d.frameId), frames, base)
  {
    hide D.Cut;
    var k := |frames| - 1;
    var cs := D.Cut(p, d.input.value, d.inUsed, D.OutUsed(d.out.value), d.frameId);
    D.CutPieces(p, d.input.value, d.inUsed, D.OutUsed(d.out.value), d.frameId);
    forall c | c in cs ensures Numbered(c, frames, base) {
      assert IsPieceOf(c, frames[k], k, base);
    }
  }

  lemma NextNumber(base: u16, n: nat)
    ensures D.NextId((base + n) % ID_LIMIT) == (base + n + 1) % ID_LIMIT
  {
  }

  lemma WriteCounts(p: D.Params, d: D.State, frames: seq<seq<byte>>, base: u16)
    requires p.Ok() && d.input.Some? && d.out.Some? && D.Started(d.input.value, d.inUsed)
    requires D.OutUsed(d.out.value) + HEADER < p.outputMtu && Counting(d, frames, base)
    ensures var w := D.WriteChunks(p, d);
            Counting(w.0, frames, base) && (w.1.Some? ==> AllNumbered(w.1.value, frames, base))
  {
    hide D.Cut, Numbered, D.NextId;
    CutNumbered(p, d, frames, base);
    NextNumber(base, |frames| - 1);
  }

  lemma StepCounts(p: D.Params, d: D.State, e: D.Event, frames: seq<seq<byte>>, base: u16)
    requires D.Inv(p, d) && D.Enabled(d, e) && Counting(d, frames, base)
    ensures var s := D.Step(p, d, e);
            Counting(s.0, frames + Inputs([e]), base) && (s.1.Some? ==> AllNumbered(s.1.value, frames + Inputs([e]), base))
  {
    hide D.WriteChunks, Numbered;
    assert [e][1..] == [] && frames + [] == frames;
    match e
    case Input(frame) =>
      assert Inputs([e]) == [frame];
      if d.out.Some? {
        MoreFrames(d.out.value, frames, base, frame);
        WriteCounts(p, d.(input := Some(frame), inUsed := 0), frames + [frame], base);
      }
    case Recv =>
      if d.input.Some? { WriteCounts(p, d.(out := Some([])), frames, base); }
    case Timer =>
  }

  lemma {:induction false} LaterNumbered(cs: seq<Chunk>, frames: seq<seq<byte>>, more: seq<seq<byte>>, base: u16)
    requires AllNumbered(cs, frames, base)
    ensures AllNumbered(cs, frames + more, base)
  {
    forall c | c in cs ensures Numbered(c, frames + more, base) {
      var k :| 0 <= k < |frames| && IsPieceOf(c, frames[k], k, base);
      assert (frames + more)[k] == frames[k];
    }
  }

  lemma FirstPacket(p: D.Params, d: D.State, es: seq<D.Event>)
    requires D.Inv(p, d) && Legal(p, d, es) && es != []
    ensures D.Enabled(d, es[0]) && Legal(p, After(p, d, es[0]), es[1..])
    ensures var sent := D.Step(p, d, es[0]).1;
            Packets(p, d, es) == (if sent.Some? then [sent.value] else []) + Packets(p, After(p, d, es[0]), es[1..])
    ensures Final(p, d, es) == Final(p, After(p, d, es[0]), es[1..])
    ensures Inputs(es) == Inputs([es[0]]) + Inputs(es[1..])
  {
    hide D.Step, D.Inv, D.Enabled;
    assert [es[0]][1..] == [];
  }

  lemma {:induction false} NumbersFrom(p: D.Params, d: D.State, es: seq<D.Event>, frames: seq<seq<byte>>, base: u16)
    requires D.Inv(p, d) && Legal(p, d, es) && Counting(d, frames, base)
    ensures Counting(Final(p, d, es), frames + Inputs(es), base)
    ensures forall cs :: cs in Packets(p, d, es) ==> AllNumbered(cs, frames + Inputs(es), base)
    decreases |es|
  {
    hide D.Step, D.Inv, D.Enabled, Counting, AllNumbered, Legal;
    if es == [] {
      assert frames + [] == frames;
    } else {
      hide Packets, Final, Inputs;
      FirstPacket(p, d, es);
      var e, sent := es[0], D.Step(p, d, es[0]).1;
      StepCounts(p, d, e, frames, base);
      NumbersFrom(p, After(p, d, e), es[1..], frames + Inputs([e]), base);
      assert (frames + Inputs([e])) + Inputs(es[1..]) == frames + (Inputs([e]) + Inputs(es[1..]));
      if sent.Some? { LaterNumbered(sent.value, frames + Inputs([e]), Inputs(es[1..]), base); }
    }
  }

  /** Nothing is under way at the sender; its next number is any. */
  predicate Quiet(d: D.State) {
    d.input.None? && (d.out.Some? ==> d.out.value == [])
  }

  /** Over any run the n-th frame's chunks all carry the number n after the first, modulo
      2^16: the number in use is always that of the frames finished, and every chunk that
      leaves is a piece of a frame and carries its number. */
  lemma Numbers(p: D.Params, d: D.State, es: seq<D.Event>)
    requires D.Inv(p, d) && Quiet(d) && Legal(p, d, es)
    ensures var r, frames := Final(p, d, es), Inputs(es);
            && r.frameId == (d.frameId + Finished(r, frames)) % ID_LIMIT
            && (r.input.Some? ==> frames != [] && r.input.value == frames[|frames| - 1])
    ensures forall cs :: cs in Packets(p, d, es) ==> AllNumbered(cs, Inputs(es), d.frameId)
  {
    hide Packets, Final, Inputs, Legal, D.Inv, Numbered;
    assert Counting(d, [], d.frameId);
    NumbersFrom(p, d, es, [], d.frameId);
    assert [] + Inputs(es) == Inputs(es);
  }

  // ----- to the receiver

  /** The frame with a number. */
  function FrameOf(frames: seq<seq<byte>>, base: u16, id: u16): seq<byte> {
    var k := (id - base) % ID_LIMIT;
    if k < |frames| then frames[k] else []
  }

  /** The numbers of 2^16 frames in a row are different. */
  lemma OneFrame(c: Chunk, frames: seq<seq<byte>>, base: u16)
    requires |frames| <= ID_LIMIT && Numbered(c, frames, base)
    ensures CutFrom(c, FrameOf(frames, base, c.id)) && (c.id - base) % ID_LIMIT < |frames|
  {
    hide CutFrom;
    var k :| 0 <= k < |frames| && IsPieceOf(c, frames[k], k, base);
    NumberBack(base, k);
  }

  lemma NumberBack(base: u16, k: nat)
    requires k < ID_LIMIT
    ensures ((base + k) % ID_LIMIT - base) % ID_LIMIT == k
  {
  }

  /** All the packets in the order in which they arrive. */
  function FeedAll(a: A.State, packets: seq<seq<byte>>): (A.State, seq<A.Delivered>)
    requires A.Inv(a)
    decreases |packets|
  {
    if packets == [] then (a, [])
    else
      A.FeedKeeps(a, packets[0]);
      var f := A.Feed(a, packets[0]);
      var rest := FeedAll(f.0, packets[1..]);
      (rest.0, f.1 + rest.1)
  }

  /** Every frame put out for a packet is the one with its number, and what is held still agrees
      with the frames. */
  lemma PacketIntegrity(a: A.State, cs: seq<Chunk>, frames: u16 -> seq<byte>)
    requires A.Inv(a) && AllHold(a, frames) && Fits(cs) && forall c :: c in cs ==> CutFrom(c, frames(c.id))
    ensures var f := A.Feed(a, Encode(cs));
            && A.Inv(f.0) && AllHold(f.0, frames)
            && forall x :: x in f.1 ==> x.data == frames(x.id) && exists c :: c in cs && c.id == x.id
  {
    hide A.Inv, A.Tick, A.Chunks, AllHold;
    A.FeedKeeps(a, Encode(cs));
    ParseEncode(cs);
    ChunksIntegrity(a, cs, frames);
    TickIntegrity(A.Chunks(a, cs).0, frames);
  }

  lemma {:induction false} ChunksIntegrity(a: A.State, cs: seq<Chunk>, frames: u16 -> seq<byte>)
    requires A.Inv(a) && AllHold(a, frames) && forall c :: c in cs ==> CutFrom(c, frames(c.id))
    ensures var v := A.Chunks(a, cs);
            && A.Inv(v.0) && AllHold(v.0, frames)
            && forall x :: x in v.1 ==> x.data == frames(x.id) && exists c :: c in cs && c.id == x.id
    decreases |cs|
  {
    hide A.ProcessChunk, A.Inv, AllHold, CutFrom;
    A.ChunksKeep(a, cs);
    if cs != [] {
      ChunkIntegrity(a, cs[0], frames);
      ChunksIntegrity(A.ProcessChunk(a, cs[0]).0, cs[1..], frames);
    }
  }

  /** Every packet that arrives is one of those sent. */
  ghost predicate FromSent(packets: seq<seq<byte>>, sent: seq<seq<Chunk>>) {
    forall x :: x in packets ==> exists cs :: cs in sent && Fits(cs) && x == Encode(cs)
  }

  lemma {:induction false} FeedIntegrity(a: A.State, packets: seq<seq<byte>>, sent: seq<seq<Chunk>>, frames: seq<seq<byte>>, base: u16)
    requires A.Inv(a) && AllHold(a, id => FrameOf(frames, base, id)) && |frames| <= ID_LIMIT && FromSent(packets, sent)
    requires forall cs :: cs in sent ==> AllNumbered(cs, frames, base)
    ensures forall x :: x in FeedAll(a, packets).1 ==>
              x.data == FrameOf(frames, base, x.id) && (x.id - base) % ID_LIMIT < |frames|
    decreases |packets|
  {
    hide A.Inv, A.Feed, AllHold, Numbered, CutFrom, FrameOf, Encode;
    if packets != [] {
      var oracle := id => FrameOf(frames, base, id);
      assert packets[0] in packets && forall x :: x in packets[1..] ==> x in packets;
      var cs :| cs in sent && Fits(cs) && packets[0] == Encode(cs);
      forall c | c in cs ensures CutFrom(c, oracle(c.id)) && (c.id - base) % ID_LIMIT < |frames| { OneFrame(c, frames, base); }
      PacketIntegrity(a, cs, oracle);
      FeedIntegrity(A.Feed(a, packets[0]).0, packets[1..], sent, frames, base);
    }
  }

  /** End to end: of any 2^16 frames in a row, cut and sent in any schedule, with any packets
      lost, repeated or reordered on the way, the assembler puts out nothing but these frames,
      each under its number. */
  lemma OnlySentFrames(p: D.Params, d: D.State, es: seq<D.Event>, a: A.State, packets: seq<seq<byte>>)
    requires D.Inv(p, d) && Quiet(d) && Legal(p, d, es) && |Inputs(es)| <= ID_LIMIT
    requires A.Inv(a) && a.tree == map[] && FromSent(packets, Packets(p, d, es))
    ensures forall x :: x in FeedAll(a, packets).1 ==>
              var k := (x.id - d.frameId) % ID_LIMIT;
              k < |Inputs(es)| && x.data == Inputs(es)[k]
    ensures forall x :: x in FeedAll(a, packets).1 ==> x.data in Inputs(es)
  {
    hide A.Inv, D.Inv, Packets, Legal, FeedAll;
    Numbers(p, d, es);
    FeedIntegrity(a, packets, Packets(p, d, es), Inputs(es), d.frameId);
  }

  /** Why no more than 2^16: numbers that far apart are equal, and of two frames with one
      number the first part of the one and the last part of the other make up a frame that
      neither is. */
  lemma NumbersRepeat(a: A.State, base: u16, k: nat, x: seq<byte>, y: seq<byte>, cut: nat)
    requires A.Inv(a) && a.tree == map[] && 2 <= a.numChunks && |x| == |y| <= a.mtu && |x| < ID_LIMIT && 0 < cut < |x|
    ensures var first := Chunk((base + k) % ID_LIMIT, 0, x[..cut], false);
            var second := Chunk((base + k + ID_LIMIT) % ID_LIMIT, cut, y[cut..], true);
            && IsPieceOf(first, x, k, base) && IsPieceOf(second, y, k + ID_LIMIT, base)
            && A.Chunks(a, [first, second]).1 == [A.Delivered(first.id, x[..cut] + y[cut..])]
  {
    hide A.Chunks, A.Inv, A.ProcessChunk;
    var first := Chunk((base + k) % ID_LIMIT, 0, x[..cut], false);
    var second := Chunk((base + k + ID_LIMIT) % ID_LIMIT, cut, y[cut..], true);
    Periodic(base + k);
    CutMixed(x, y, cut);
    Mixed(a, first, second, x[..cut] + y[cut..]);
  }

  lemma Periodic(n: nat)
    ensures (n + ID_LIMIT) % ID_LIMIT == n % ID_LIMIT
  {
  }

  lemma CutMixed(x: seq<byte>, y: seq<byte>, cut: nat)
    requires |x| == |y| && 0 < cut < |x|
    ensures x[..cut] == x[0..cut] && y[cut..] == y[cut..|y|] && |x[..cut] + y[cut..]| == |x|
  {
  }

  lemma Mixed(a: A.State, first: Chunk, second: Chunk, frame: seq<byte>)
    requires A.Inv(a) && a.tree == map[] && 2 <= a.numChunks && |frame| <= a.mtu && 0 < |first.data| < |frame|
    requires first.id == second.id && first.start == 0 && second.start == first.End() && second.End() == |frame|
    requires !first.last && second.last && first.data + second.data == frame
    ensures A.Chunks(a, [first, second]).1 == [A.Delivered(first.id, frame)]
  {
    hide A.ProcessChunk, A.Inv, Waiting, Partition, Pieces, A.Chunks, A.TimedOut;
    var ps, id := [first, second], first.id;
    TwoPieces(first, second, frame);
    PieceArrives(a, ps, id, frame, {first, second}, first);
    var r := A.ProcessChunk(a, first);
    A.ProcessScalars(a, first);
    assert {first, second} - {first} == {second} && {second} - {second} == {};
    StillWaiting(r.0, ps, id, frame, {second});
    JustWritten(a, first);
    PieceArrives(r.0, ps, id, frame, {second}, second);
    TwoChunks(a, first, second);
  }

  lemma TwoPieces(first: Chunk, second: Chunk, frame: seq<byte>)
    requires 0 < |first.data| < |frame| && !first.last && second.last && first.data + second.data == frame
    requires first.id == second.id && first.start == 0 && second.start == first.End() && second.End() == |frame|
    ensures Partition([first, second], first.id, frame) && Pieces([first, second]) == {first, second} != {second}
  {
    assert first !in {second};
  }

  lemma StillWaiting(a: A.State, ps: seq<Chunk>, id: u16, frame: seq<byte>, left: set<Chunk>)
    requires A.Inv(a) && Waiting(a, ps, id, frame, left)
    ensures id in a.tree && a.tree[id] < |a.entries|
  {
  }

  lemma TwoChunks(a: A.State, c: Chunk, e: Chunk)
    requires A.Inv(a) && A.Inv(A.ProcessChunk(a, c).0) && A.ProcessChunk(a, c).1.None?
    ensures var t := A.ProcessChunk(A.ProcessChunk(a, c).0, e);
            A.Chunks(a, [c, e]).1 == if t.1.Some? then [t.1.value] else []
  {
    hide A.ProcessChunk, A.Inv;
    A.ProcessKeeps(A.ProcessChunk(a, c).0, e);
    assert [c, e][1..] == [e] && [e][1..] == [];
    assert A.Chunks(a, [c, e]).1 == [] + A.Chunks(A.ProcessChunk(a, c).0, [e]).1;
  }

  lemma JustWritten(a: A.State, c: Chunk)
    requires A.Inv(a) && A.InBounds(a, c)
    ensures var r := A.ProcessChunk(a, c).0;
            c.id in r.tree && r.tree[c.id] < |r.entries| ==> !A.TimedOut(r, r.tree[c.id])
  {
    hide A.Accepts, A.Overwrite, A.Inv, A.Locate;
    A.LocateKeeps(a, c.id);
    A.InTolerance(a);
    A.TreeEntry(A.Locate(a, c.id), c.id);
  }
}
