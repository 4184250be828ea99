/** Cutting frames into packets of chunks, client/FragmentProtoDisassembler.c. */
module Disassembler {
  import opened Wrappers
  import opened FragmentProto
  import opened AssemblerTheorems
  import opened AssemblerOrder

  /** `chunkMtu` and `latency` are negative for no limit. */
  datatype Params = Params(outputMtu: nat, chunkMtu: int, latency: int)
  {
    predicate Ok() { HEADER < outputMtu && chunkMtu != 0 }

    /** Payload bytes of a packet with a single chunk. */
    function Room(): int { outputMtu - HEADER }
  }

  /** The frame being cut, how far, and the chunks already in the output packet. */
  datatype State = State(input: Option<seq<byte>>, inUsed: nat, out: Option<seq<Chunk>>, frameId: u16)

  datatype Event = Input(frame: seq<byte>) | Recv | Timer

  function OutUsed(cs: seq<Chunk>): nat {
    if cs == [] then 0 else OutUsed(cs[..|cs| - 1]) + HEADER + |cs[|cs| - 1].data|
  }

  function Min(a: int, b: int): int {
    if a < b then a else b
  }

  function ChunkLen(p: Params, inAvail: nat, outAvail: int): int {
    var len := Min(inAvail, outAvail);
    if p.chunkMtu > 0 then Min(len, p.chunkMtu) else len
  }

  /** The next chunk of the frame, for a packet with `outUsed` bytes in it. */
  function NextChunk(p: Params, frame: seq<byte>, inUsed: nat, outUsed: nat, id: u16): (c: Chunk)
    requires p.Ok() && inUsed <= |frame| < ID_LIMIT && outUsed + HEADER < p.outputMtu
    ensures c.id == id && c.start == inUsed && CutFrom(c, frame) && (c.last <==> c.End() == |frame|)
    ensures outUsed + HEADER + |c.data| <= p.outputMtu
    ensures inUsed < |frame| ==> 0 < |c.data|
  {
    var len := ChunkLen(p, |frame| - inUsed, p.outputMtu - outUsed - HEADER);
    Chunk(id, inUsed, frame[inUsed..inUsed + len], len == |frame| - inUsed)
  }

  /** The do-while loop of write_chunks. */
  function Cut(p: Params, frame: seq<byte>, inUsed: nat, outUsed: nat, id: u16): (cs: seq<Chunk>)
    requires p.Ok() && inUsed <= |frame| < ID_LIMIT && outUsed + HEADER < p.outputMtu
    ensures cs != []
    decreases |frame| - inUsed
  {
    var c := NextChunk(p, frame, inUsed, outUsed, id);
    var outUsed' := outUsed + HEADER + |c.data|;
    if c.End() < |frame| && outUsed' + HEADER < p.outputMtu then [c] + Cut(p, frame, c.End(), outUsed', id) else [c]
  }

  /** A frame that is not finished: something is left to cut, or nothing has been cut. */
  predicate Started(frame: seq<byte>, inUsed: nat) {
    |frame| < ID_LIMIT && (inUsed == 0 || inUsed < |frame|)
  }

  ghost predicate Inv(p: Params, s: State) {
    && p.Ok()
    && (s.input.Some? ==> s.out.None? && Started(s.input.value, s.inUsed))
    && (s.out.Some? ==> OutUsed(s.out.value) + HEADER < p.outputMtu && Fits(s.out.value))
    && (s.out.Some? && p.latency < 0 ==> s.out.value == [])
  }

  /** Every call the interfaces allow, but for the request to cancel the input. */
  predicate Enabled(s: State, e: Event) {
    match e
    case Input(frame) => s.input.None? && |frame| < ID_LIMIT
    case Recv => s.out.None?
    case Timer => s.out.Some? && s.out.value != [] && s.input.None?
  }

  /** The 16-bit increment. */
  function NextId(id: u16): u16 {
    (id + 1) % ID_LIMIT
  }

  /** write_chunks, and the packet it finishes, if it does. */
  function WriteChunks(p: Params, s: State): (State, Option<seq<Chunk>>)
    requires p.Ok() && s.input.Some? && s.out.Some? && s.inUsed <= |s.input.value| < ID_LIMIT
    requires OutUsed(s.out.value) + HEADER < p.outputMtu
  {
    var cs := Cut(p, s.input.value, s.inUsed, OutUsed(s.out.value), s.frameId);
    var packet := s.out.value + cs;
    var end := cs[|cs| - 1].End();
    var t := if end == |s.input.value| then s.(inUsed := end, input := None, frameId := NextId(s.frameId))
             else s.(inUsed := end);
    if OutUsed(packet) + HEADER >= p.outputMtu || p.latency < 0 then (t.(out := None), Some(packet))
    else (t.(out := Some(packet)), None)
  }

  function Step(p: Params, s: State, e: Event): (State, Option<seq<Chunk>>)
    requires Inv(p, s) && Enabled(s, e)
  {
    match e
    case Input(frame) =>
      var t := s.(input := Some(frame), inUsed := 0);
      if t.out.None? then (t, None) else WriteChunks(p, t)
    case Recv =>
      var t := s.(out := Some([]));
      if t.input.None? then (t, None) else WriteChunks(p, t)
    case Timer => (s.(out := None), Some(s.out.value))
  }

  lemma {:induction false} OutUsedConcat(a: seq<Chunk>, b: seq<Chunk>)
    ensures OutUsed(a + b) == OutUsed(a) + OutUsed(b)
  {
    if b == [] {
      assert a + b == a;
    } else {
      OutUsedConcat(a, b[..|b| - 1]);
      assert (a + b)[..|a + b| - 1] == a + b[..|b| - 1];
    }
  }

  /** The written bytes of a packet are what the loop counted. */
  lemma {:induction false} OutUsedIsLength(cs: seq<Chunk>)
    requires Fits(cs)
    ensures |Encode(cs)| == OutUsed(cs)
  {
    if cs != [] {
      OutUsedIsLength(cs[1..]);
      assert cs == [cs[0]] + cs[1..];
      OutUsedConcat([cs[0]], cs[1..]);
    }
  }

  /** Consecutive pieces of the frame from `inUsed`, none empty but an empty frame's. */
  ghost predicate Chain(cs: seq<Chunk>, frame: seq<byte>, inUsed: nat, id: u16) {
    && cs != [] && cs[0].start == inUsed
    && (forall i :: 0 <= i < |cs| ==>
          cs[i].id == id && CutFrom(cs[i], frame) && (cs[i].last <==> cs[i].End() == |frame|))
    && (forall i :: 0 < i < |cs| ==> cs[i].start == cs[i - 1].End())
    && (forall i :: 0 <= i < |cs| - 1 ==> !cs[i].last)
    && (inUsed < |frame| ==> forall i :: 0 <= i < |cs| ==> 0 < |cs[i].data|)
  }

  lemma ChainCons(c: Chunk, rest: seq<Chunk>, frame: seq<byte>, id: u16)
    requires Chain([c], frame, c.start, id) && !c.last && Chain(rest, frame, c.End(), id)
    ensures Chain([c] + rest, frame, c.start, id)
  {
    var cs := [c] + rest;
    assert forall i :: 0 < i < |cs| ==> cs[i] == rest[i - 1];
  }

  /** The loop cuts consecutive pieces, ends with the frame or with a full packet, and never
      writes past the packet. */
  lemma {:induction false} CutPieces(p: Params, frame: seq<byte>, inUsed: nat, outUsed: nat, id: u16)
    requires p.Ok() && Started(frame, inUsed) && outUsed + HEADER < p.outputMtu
    ensures var cs := Cut(p, frame, inUsed, outUsed, id);
            && Chain(cs, frame, inUsed, id)
            && outUsed + OutUsed(cs) <= p.outputMtu
            && (cs[|cs| - 1].last || outUsed + OutUsed(cs) + HEADER >= p.outputMtu)
    decreases |frame| - inUsed
  {
    hide Chain, NextChunk;
    var c := NextChunk(p, frame, inUsed, outUsed, id);
    FirstPiece(p, frame, inUsed, outUsed, id);
    var outUsed' := outUsed + HEADER + |c.data|;
    if c.End() < |frame| && outUsed' + HEADER < p.outputMtu {
      CutPieces(p, frame, c.End(), outUsed', id);
      var rest := Cut(p, frame, c.End(), outUsed', id);
      OutUsedConcat([c], rest);
      ChainCons(c, rest, frame, id);
    }
  }

  lemma FirstPiece(p: Params, frame: seq<byte>, inUsed: nat, outUsed: nat, id: u16)
    requires p.Ok() && Started(frame, inUsed) && outUsed + HEADER < p.outputMtu
    ensures var c := NextChunk(p, frame, inUsed, outUsed, id);
            && Chain([c], frame, inUsed, id) && OutUsed([c]) == HEADER + |c.data| <= p.outputMtu - outUsed
            && (c.last <==> c.End() >= |frame|)
            && (!c.last ==> inUsed < c.End() && Started(frame, c.End()))
  {
  }

  /** No chunk is longer than the limit; every chunk but the last of a loop has just that
      length, and the last one too unless it ends the frame or fills the packet. */
  lemma {:induction false} CutMaximal(p: Params, frame: seq<byte>, inUsed: nat, outUsed: nat, id: u16)
    requires p.Ok() && Started(frame, inUsed) && outUsed + HEADER < p.outputMtu
    ensures var cs := Cut(p, frame, inUsed, outUsed, id);
            && (p.chunkMtu > 0 ==> forall i :: 0 <= i < |cs| ==> |cs[i].data| <= p.chunkMtu)
            && (forall i :: 0 <= i < |cs| - 1 ==> |cs[i].data| == p.chunkMtu)
            && (cs[|cs| - 1].last || |cs[|cs| - 1].data| == p.chunkMtu || outUsed + OutUsed(cs) == p.outputMtu)
    decreases |frame| - inUsed
  {
    hide NextChunk;
    var c := NextChunk(p, frame, inUsed, outUsed, id);
    FirstMaximal(p, frame, inUsed, outUsed, id);
    FirstPiece(p, frame, inUsed, outUsed, id);
    var outUsed' := outUsed + HEADER + |c.data|;
    if c.End() < |frame| && outUsed' + HEADER < p.outputMtu {
      CutMaximal(p, frame, c.End(), outUsed', id);
      OutUsedConcat([c], Cut(p, frame, c.End(), outUsed', id));
    }
  }

  lemma FirstMaximal(p: Params, frame: seq<byte>, inUsed: nat, outUsed: nat, id: u16)
    requires p.Ok() && Started(frame, inUsed) && outUsed + HEADER < p.outputMtu
    ensures var c := NextChunk(p, frame, inUsed, outUsed, id);
            && (p.chunkMtu > 0 ==> |c.data| <= p.chunkMtu)
            && (c.last || |c.data| == p.chunkMtu || outUsed + HEADER + |c.data| == p.outputMtu)
  {
  }

  lemma ChainFits(cs: seq<Chunk>, frame: seq<byte>, inUsed: nat, id: u16)
    requires Chain(cs, frame, inUsed, id) && |frame| < ID_LIMIT
    ensures Fits(cs) && cs[|cs| - 1].End() <= |frame|
    ensures inUsed < |frame| ==> inUsed < cs[|cs| - 1].End()
  {
    ChainRises(cs, frame, inUsed, id, |cs| - 1);
  }

  lemma {:induction false} ChainRises(cs: seq<Chunk>, frame: seq<byte>, inUsed: nat, id: u16, n: nat)
    requires Chain(cs, frame, inUsed, id) && n < |cs|
    ensures inUsed <= cs[n].start
  {
    if n > 0 { ChainRises(cs, frame, inUsed, id, n - 1); }
  }

  lemma StepKeepsInv(p: Params, s: State, e: Event)
    requires Inv(p, s) && Enabled(s, e)
    ensures Inv(p, Step(p, s, e).0)
    ensures Step(p, s, e).1.Some? ==> Fits(Step(p, s, e).1.value)
  {
    var t := if e.Input? then s.(input := Some(e.frame), inUsed := 0)
             else if e.Recv? then s.(out := Some([])) else s;
    if !e.Timer? && t.input.Some? && t.out.Some? { WriteKeepsInv(p, t); }
  }

  /** A packet leaves only when its time is up, or nothing may wait, or it has no room for
      another byte of data. */
  lemma LeavesFull(p: Params, s: State, e: Event)
    requires Inv(p, s) && Enabled(s, e)
    ensures var (t, sent) := Step(p, s, e);
            && (sent.Some? ==>
                  && Fits(sent.value) && t.out.None?
                  && (e.Timer? || p.latency < 0 || |Encode(sent.value)| + HEADER >= p.outputMtu))
            && (sent.None? && t.out.Some? && t.out.value != [] ==>
                  p.latency >= 0 && Fits(t.out.value) && |Encode(t.out.value)| + HEADER < p.outputMtu)
  {
    hide Cut, Encode, OutUsed;
    StepKeepsInv(p, s, e);
    var (t, sent) := Step(p, s, e);
    if sent.Some? { OutUsedIsLength(sent.value); }
    if t.out.Some? { OutUsedIsLength(t.out.value); }
  }

  lemma WriteKeepsInv(p: Params, s: State)
    requires p.Ok() && s.input.Some? && s.out.Some? && Started(s.input.value, s.inUsed)
    requires OutUsed(s.out.value) + HEADER < p.outputMtu && Fits(s.out.value)
    ensures Inv(p, WriteChunks(p, s).0)
    ensures WriteChunks(p, s).1.Some? ==> Fits(WriteChunks(p, s).1.value)
  {
    var cs := Cut(p, s.input.value, s.inUsed, OutUsed(s.out.value), s.frameId);
    CutPieces(p, s.input.value, s.inUsed, OutUsed(s.out.value), s.frameId);
    ChainFits(cs, s.input.value, s.inUsed, s.frameId);
    OutUsedConcat(s.out.value, cs);
  }
}
