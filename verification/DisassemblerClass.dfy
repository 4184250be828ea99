/** The disassembler as client/FragmentProtoDisassembler.c keeps it: chunks are written into
    the caller's output packet in place. */
module DisassemblerClass {
  import opened Wrappers
  import opened FragmentProto
  import AssemblerTheorems
  import opened Disassembler

  method Memcpy(dest: array<byte>, at: nat, src: seq<byte>)
    requires at + |src| <= dest.Length
    modifies dest
    ensures dest[..at] == old(dest[..at]) && dest[at..at + |src|] == src
    ensures dest[at + |src|..] == old(dest[at + |src|..])
  {
    forall k | 0 <= k < |src| {
      dest[at + k] := src[k];
    }
  }

  /** Two memcpys, one behind the other. */
  method Append(dest: array<byte>, at: nat, a: seq<byte>, b: seq<byte>)
    requires at + |a| + |b| <= dest.Length
    modifies dest
    ensures dest[..at + |a| + |b|] == old(dest[..at]) + a + b
  {
    Memcpy(dest, at, a);
    assert dest[..at + |a|] == old(dest[..at]) + a;
    Memcpy(dest, at + |a|, b);
    assert dest[..at + |a| + |b|] == dest[..at + |a|] + b;
  }

  lemma EncodeSnoc(cs: seq<Chunk>, c: Chunk)
    requires Fits(cs) && |c.data| < ID_LIMIT
    ensures Fits(cs + [c]) && Encode(cs + [c]) == Encode(cs) + Header(c) + c.data
    ensures OutUsed(cs + [c]) == OutUsed(cs) + HEADER + |c.data|
  {
    EncodeConcat(cs, [c]);
    OutUsedConcat(cs, [c]);
    assert Encode([c]) == EncodeChunk(c);
    assert OutUsed([c]) == HEADER + |c.data|;
    assert Encode(cs) + (Header(c) + c.data) == Encode(cs) + Header(c) + c.data;
  }

  lemma WriteShape(p: Params, s: State, cs: seq<Chunk>)
    requires p.Ok() && s.input.Some? && s.out.Some? && s.inUsed <= |s.input.value| < ID_LIMIT
    requires OutUsed(s.out.value) + HEADER < p.outputMtu
    requires cs == Cut(p, s.input.value, s.inUsed, OutUsed(s.out.value), s.frameId)
    ensures var w := Disassembler.WriteChunks(p, s);
            var packet, end := s.out.value + cs, cs[|cs| - 1].End();
            var full := OutUsed(packet) + HEADER >= p.outputMtu || p.latency < 0;
            && w.1 == (if full then Some(packet) else None)
            && w.0 == (if end == |s.input.value|
                       then State(None, end, if full then None else Some(packet), NextId(s.frameId))
                       else State(s.input, end, if full then None else Some(packet), s.frameId))
  {
  }

  lemma Regroup(a: seq<Chunk>, c: Chunk, b: seq<Chunk>)
    ensures a + ([c] + b) == (a + [c]) + b
  {
  }

  lemma CutUnfold(p: Params, frame: seq<byte>, inUsed: nat, outUsed: nat, id: u16)
    requires p.Ok() && Started(frame, inUsed) && outUsed + HEADER < p.outputMtu
    ensures var c := NextChunk(p, frame, inUsed, outUsed, id);
            && |c.data| < ID_LIMIT && c.End() <= |frame|
            && Cut(p, frame, inUsed, outUsed, id) ==
                 if c.End() < |frame| && outUsed + HEADER + |c.data| + HEADER < p.outputMtu
                 then [c] + Cut(p, frame, c.End(), outUsed + HEADER + |c.data|, id) else [c]
  {
  }

  class FragmentProtoDisassembler {
    const params: Params
    var input: Option<seq<byte>>
    var inUsed: nat
    var out: array?<byte>
    var outUsed: nat
    var frameId: u16
    var timerRunning: bool

    ghost var outChunks: seq<Chunk>

    ghost function Now(): State
      reads this
    {
      State(input, inUsed, if out == null then None else Some(outChunks), frameId)
    }

    ghost predicate Valid()
      reads this, out
    {
      && Inv(params, Now())
      && (out != null ==> Holding(out))
      && (timerRunning <==> out != null && outChunks != [])
    }

    /** The output packet so far is the encoding of its chunks. */
    ghost predicate Holding(buf: array<byte>)
      reads this, buf
    {
      buf.Length == params.outputMtu && Fits(outChunks) && outUsed == OutUsed(outChunks) <= buf.Length
      && buf[..outUsed] == Encode(outChunks)
    }

    constructor (params: Params)
      requires params.Ok()
      ensures Valid() && Now() == State(None, 0, None, 0) && this.params == params
    {
      this.params := params;
      input, inUsed, out, outUsed, frameId, timerRunning, outChunks := None, 0, null, 0, 0, false, [];
    }

    /** Writes one chunk's header and data behind what the packet holds. */
    method WriteChunk(c: Chunk)
      requires out != null && Holding(out) && |c.data| < ID_LIMIT && outUsed + HEADER + |c.data| <= out.Length
      modifies this`outUsed, this`outChunks, out
      ensures out == old(out) && outChunks == old(outChunks) + [c] && Holding(out)
      ensures outUsed == old(outUsed) + HEADER + |c.data|
    {
      EncodeSnoc(outChunks, c);
      hide Encode, OutUsed, Header, Fits;
      Append(out, outUsed, Header(c), c.data);
      outUsed := outUsed + HEADER + |c.data|;
      outChunks := outChunks + [c];
    }

    /** The body of the do-while loop. */
    method WriteNext()
      requires params.Ok() && input.Some? && Started(input.value, inUsed) && out != null && Holding(out)
      requires outUsed + HEADER < params.outputMtu
      modifies this`inUsed, this`outUsed, this`outChunks, out
      ensures out == old(out) && out != null && Holding(out)
      ensures var c := NextChunk(params, input.value, old(inUsed), old(outUsed), frameId);
              && outChunks == old(outChunks) + [c] && inUsed == c.End()
              && outUsed == old(outUsed) + HEADER + |c.data|
    {
      assert out.Length == params.outputMtu;
      CutUnfold(params, input.value, inUsed, outUsed, frameId);
      hide NextChunk, Holding, AssemblerTheorems.CutFrom;
      var c := NextChunk(params, input.value, inUsed, outUsed, frameId);
      WriteChunk(c);
      inUsed := c.End();
    }

    /** The do-while loop. */
    method WriteLoop()
      requires params.Ok() && input.Some? && Started(input.value, inUsed) && out != null && Holding(out)
      requires outUsed + HEADER < params.outputMtu
      modifies this`inUsed, this`outUsed, this`outChunks, out
      ensures out == old(out) && out != null && Holding(out)
      ensures var goal := Cut(params, input.value, old(inUsed), old(outUsed), frameId);
              outChunks == old(outChunks) + goal && inUsed == goal[|goal| - 1].End() <= |input.value|
    {
      hide Holding, NextChunk, Cut;
      var frame := input.value;
      ghost var goal := Cut(params, frame, inUsed, outUsed, frameId);
      ghost var total := outChunks + goal;
      assert total[|total| - 1] == goal[|goal| - 1];
      while true
        invariant out == old(out) && out != null && Holding(out)
        invariant Started(frame, inUsed) && outUsed + HEADER < params.outputMtu
        invariant outChunks + Cut(params, frame, inUsed, outUsed, frameId) == total
        decreases |frame| - inUsed
      {
        CutUnfold(params, frame, inUsed, outUsed, frameId);
        ghost var was := outChunks;
        ghost var c := NextChunk(params, frame, inUsed, outUsed, frameId);
        hide AssemblerTheorems.CutFrom;
        WriteNext();
        if !(inUsed < |frame| && outUsed + HEADER < params.outputMtu) {
          assert outChunks == total && outChunks[|outChunks| - 1] == c;
          break;
        }
        Regroup(was, c, Cut(params, frame, inUsed, outUsed, frameId));
      }
    }

    /** The packet it finishes, if it does. */
    method WriteChunks() returns (packet: Option<seq<byte>>)
      requires params.Ok() && input.Some? && Started(input.value, inUsed) && out != null && Holding(out)
      requires outUsed + HEADER < params.outputMtu && (timerRunning <==> outChunks != [])
      modifies this, out
      ensures var w := Disassembler.WriteChunks(params, old(Now()));
              && Now() == w.0 && Valid() && (w.1.Some? ==> Fits(w.1.value))
              && packet == (if w.1.Some? then Some(Encode(w.1.value)) else None)
      ensures frameId == if input.None? then (old(frameId) + 1) % 0x1_0000 else old(frameId)
    {
      hide Disassembler.WriteChunks, Cut, Inv, Encode, Fits;
      WriteKeepsInv(params, Now());
      ghost var w := Disassembler.WriteChunks(params, Now());
      WriteShape(params, Now(), Cut(params, input.value, inUsed, outUsed, frameId));
      WriteLoop();
      packet := None;
      if inUsed == |input.value| {
        input := None;
        frameId := NextId(frameId);
      }
      if outUsed + HEADER >= params.outputMtu || params.latency < 0 {
        packet := Some(out[..outUsed]);
        out := null;
        timerRunning := false;
      } else {
        timerRunning := true;
      }
      assert Now() == w.0;
    }

    method InputHandlerSend(data: seq<byte>) returns (packet: Option<seq<byte>>)
      requires Valid() && Enabled(Now(), Input(data))
      modifies this, out
      ensures Valid()
      ensures var w := Step(params, old(Now()), Input(data));
              && Now() == w.0 && (w.1.Some? ==> Fits(w.1.value))
              && packet == (if w.1.Some? then Some(Encode(w.1.value)) else None)
    {
      input := Some(data);
      inUsed := 0;
      if out == null {
        return None;
      }
      packet := WriteChunks();
    }

    method OutputHandlerRecv(data: array<byte>) returns (packet: Option<seq<byte>>)
      requires Valid() && Enabled(Now(), Recv) && data.Length == params.outputMtu
      modifies this, data
      ensures Valid()
      ensures var w := Step(params, old(Now()), Recv);
              && Now() == w.0 && (w.1.Some? ==> Fits(w.1.value))
              && packet == (if w.1.Some? then Some(Encode(w.1.value)) else None)
    {
      out := data;
      outUsed := 0;
      outChunks := [];
      if input.None? {
        return None;
      }
      packet := WriteChunks();
    }

    method TimerHandler() returns (packet: seq<byte>)
      requires Valid() && timerRunning && input.None?
      modifies this
      ensures Valid() && Enabled(old(Now()), Timer) && Fits(old(outChunks))
      ensures var w := Step(params, old(Now()), Timer);
              Now() == w.0 && w.1 == Some(old(outChunks)) && packet == Encode(old(outChunks))
    {
      packet := out[..outUsed];
      out := null;
      timerRunning := false;
    }
  }
}
