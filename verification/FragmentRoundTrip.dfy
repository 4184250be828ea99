/** End to end: packets cut by the disassembler and fed in order to the assembler give back
    the same frames in the same order. */
module FragmentRoundTrip {
  import opened Wrappers
  import Lists
  import opened FragmentProto
  import A = Assembler
  import opened AssemblerTheorems
  import D = Disassembler

  /** fragmentproto_max_chunks_for_frame: full packets for the frame and one begun. */
  function MaxChunks(room: int, frameMtu: nat): nat
    requires 0 < room
  {
    (if frameMtu % room > 0 then frameMtu / room + 1 else frameMtu / room) + 1
  }

  /** The chunk limit is what bounds a chunk. */
  predicate Limited(p: D.Params) {
    0 < p.chunkMtu < p.Room()
  }

  /** How many chunks a frame may be cut into. With a small chunk limit, each chunk of that
      size may come with a shorter one that fills a packet. */
  function ChunkCap(p: D.Params, frameMtu: nat): nat
    requires p.Ok()
  {
    if Limited(p) then 2 * (frameMtu / p.chunkMtu + 1) else MaxChunks(p.Room(), frameMtu)
  }

  /** The two ends fit each other, for frames of up to `maxLen` bytes. */
  predicate Fitting(p: D.Params, a: A.State, maxLen: nat) {
    && p.Ok()
    && maxLen < ID_LIMIT && maxLen <= a.mtu
    && ChunkCap(p, maxLen) <= a.numChunks
  }

  /** A small chunk limit can make more chunks than fragmentproto_max_chunks_for_frame counts:
      with room for two bytes and one-byte chunks, a frame of four bytes takes four packets of
      one chunk each, where three are counted. */
  lemma SmallLimit(frame: seq<byte>, id: u16)
    requires |frame| == 4
    ensures var p := D.Params(HEADER + 2, 1, -1);
            && p.Ok() && MaxChunks(p.Room(), |frame|) == 3 < ChunkCap(p, |frame|)
            && forall n :: 0 <= n < 4 ==> D.Cut(p, frame, n, 0, id) == [Chunk(id, n, [frame[n]], n == 3)]
  {
    var p := D.Params(HEADER + 2, 1, -1);
    forall n | 0 <= n < 4 ensures D.Cut(p, frame, n, 0, id) == [Chunk(id, n, [frame[n]], n == 3)] {
      assert D.NextChunk(p, frame, n, 0, id) == Chunk(id, n, [frame[n]], n == 3);
    }
  }

  /** What `n` chunks that hold `used` bytes have used up of the bound. `open` says that the
      next chunk goes behind them into the same packet. */
  predicate Counted(p: D.Params, n: nat, used: nat, open: bool)
    requires p.Ok()
  {
    && (n == 0 <==> used == 0)
    && if Limited(p) then n <= 2 * (used / p.chunkMtu) + (if open then 0 else 1)
       else 0 < n ==> !open && (n - 1) * p.Room() + 1 <= used
  }

  /** The entry holds the first `used` bytes of `frame`. */
  ghost predicate MidEntry(p: D.Params, e: A.Entry, buf: seq<byte>, frame: seq<byte>, used: nat, open: bool) {
    && e.sum == used && e.length == -1 && e.lengthSoFar == used
    && (forall i :: 0 <= i < |e.chunks| ==> e.chunks[i].End() <= used)
    && Holds(e, buf, frame)
    && p.Ok() && Counted(p, |e.chunks|, used, open)
  }

  /** The assembler holds the first `used` bytes of `frame` and nothing else. */
  ghost predicate Mid(p: D.Params, a: A.State, frame: seq<byte>, used: nat, id: u16, open: bool)
    requires A.Inv(a)
  {
    && a.tree.Keys == {id} && 0 < used < |frame|
    && MidEntry(p, a.entries[a.tree[id]], a.bufs[a.tree[id]], frame, used, open)
  }

  /** Either nothing is held and nothing of the frame was sent, or what was sent is held. */
  ghost predicate At(p: D.Params, a: A.State, frame: seq<byte>, used: nat, id: u16, open: bool)
    requires A.Inv(a)
  {
    if used == 0 then a.tree == map[] else Mid(p, a, frame, used, id, open) && A.Age(a, a.tree[id]) <= 1
  }

  /** An unfinished frame's chunks stay below the bound. */
  lemma ChunkBound(p: D.Params, a: A.State, maxLen: nat, used: nat, n: nat, open: bool)
    requires Fitting(p, a, maxLen) && 0 < used < maxLen && Counted(p, n, used, open)
    ensures n < a.numChunks
  {
    if Limited(p) {
      Quotients(used, maxLen, p.chunkMtu);
    } else {
      FullPackets(maxLen, p.Room(), n - 1);
    }
  }

  lemma Quotients(a: nat, b: nat, m: nat)
    requires 0 < m && a <= b
    ensures a / m <= b / m
  {
    assert a == a / m * m + a % m && b == b / m * m + b % m;
    if b / m < a / m { Multiply(b / m + 1, a / m, m); }
  }

  /** One more chunk of the full size, or a shorter one that fills the packet. */
  predicate Sized(p: D.Params, c: Chunk, used: nat, open: bool, goesOn: bool)
    requires p.Ok()
  {
    if Limited(p) then |c.data| == p.chunkMtu || (!goesOn && (open || used == 0))
    else !goesOn && (used == 0 || |c.data| == p.Room())
  }

  lemma CountedNext(p: D.Params, n: nat, used: nat, open: bool, c: Chunk, goesOn: bool)
    requires p.Ok() && Counted(p, n, used, open) && Sized(p, c, used, open, goesOn) && 0 < |c.data|
    ensures Counted(p, n + 1, used + |c.data|, goesOn)
  {
    var m, room, next := p.chunkMtu, p.Room(), used + |c.data|;
    if Limited(p) {
      Quotients(used, next, m);
      if |c.data| == m { OneMore(used, m); }
    } else {
      assert n * room == (n - 1) * room + room;
    }
  }

  lemma OneMore(a: nat, m: nat)
    requires 0 < m
    ensures (a + m) / m == a / m + 1
  {
    var x, q := (a + m) / m, a / m + 1;
    assert a + m == x * m + (a + m) % m && a == a / m * m + a % m;
    assert q * m == a / m * m + m && (q + 1) * m == q * m + m;
    assert (x + 1) * m == x * m + m;
    if x < q { Multiply(x + 1, q, m); }
    if q < x { Multiply(q + 1, x, m); }
  }

  lemma FullPackets(maxLen: nat, room: nat, full: nat)
    requires 0 < room && full * room < maxLen
    ensures full + 1 < MaxChunks(room, maxLen)
  {
    var q, r := maxLen / room, maxLen % room;
    assert maxLen == q * room + r;
    var up := if r > 0 then q + 1 else q;
    assert (q + 1) * room == q * room + room;
    if full >= up { Multiply(up, full, room); }
  }

  lemma Multiply(x: int, y: int, c: int)
    requires 0 <= c && x <= y
    ensures x * c <= y * c
  {
    assert (y - x) * c >= 0;
  }

  predicate NextInOrder(c: Chunk, frame: seq<byte>, used: nat) {
    && c.start == used && CutFrom(c, frame) && (c.last <==> c.End() == |frame|)
    && (used < |frame| ==> 0 < |c.data|)
  }

  /** The entry takes the next piece, and is complete with the last. */
  lemma EntryTakes(p: D.Params, e: A.Entry, buf: seq<byte>, frame: seq<byte>, used: nat, c: Chunk, time: nat, open: bool, goesOn: bool)
    requires MidEntry(p, e, buf, frame, used, open) && NextInOrder(c, frame, used) && c.End() <= |buf|
    requires !c.last ==> Sized(p, c, used, open, goesOn)
    ensures A.Accepts(e, c)
    ensures var f := A.AddChunk(e, c, time);
            && (A.Complete(f) <==> c.last)
            && (!c.last ==> MidEntry(p, f, A.Overwrite(buf, c.start, c.data), frame, c.End(), goesOn))
  {
    hide Counted, Sized;
    var f := A.AddChunk(e, c, time);
    assert forall i :: 0 <= i < |e.chunks| ==> f.chunks[i] == e.chunks[i];
    OverwriteHolds(e, buf, c, frame, time);
    if !c.last { CountedNext(p, |e.chunks|, used, open, c, goesOn); }
  }

  /** The next piece in order is taken in; the last one delivers the frame and empties the
      table. */
  lemma NextPiece(p: D.Params, a: A.State, frame: seq<byte>, used: nat, id: u16, c: Chunk, maxLen: nat, open: bool, goesOn: bool)
    requires A.Inv(a) && Fitting(p, a, maxLen) && |frame| <= maxLen && At(p, a, frame, used, id, open)
    requires c.id == id && NextInOrder(c, frame, used) && (!c.last ==> Sized(p, c, used, open, goesOn))
    ensures var r := A.ProcessChunk(a, c);
            && A.Inv(r.0)
            && (if c.last then r.1 == Some(A.Delivered(id, frame)) && r.0.tree == map[]
                else r.1.None? && Mid(p, r.0, frame, c.End(), id, goesOn) && A.Age(r.0, r.0.tree[id]) == 0)
  {
    hide A.Locate, A.Accepts, A.Complete, A.WellFormed, Lists.NoDup, Holds, MidEntry, Sized;
    A.ProcessKeeps(a, c);
    Located(p, a, frame, used, id, open);
    var l := A.Locate(a, id);
    var i := l.tree[id];
    EntryTakes(p, l.entries[i], l.bufs[i], frame, used, c, l.time, open, goesOn);
    MidHolds(p, l.entries[i], l.bufs[i], frame, used, open);
    AddHolds(l, c, frame);
    var f := A.AddChunk(l.entries[i], c, l.time);
    if !c.last {
      MidHolds(p, f, A.Overwrite(l.bufs[i], c.start, c.data), frame, c.End(), goesOn);
      ChunkBound(p, a, maxLen, c.End(), |f.chunks|, goesOn);
    }
  }

  lemma MidHolds(p: D.Params, e: A.Entry, buf: seq<byte>, frame: seq<byte>, used: nat, open: bool)
    requires MidEntry(p, e, buf, frame, used, open)
    ensures Holds(e, buf, frame) && p.Ok() && Counted(p, |e.chunks|, used, open)
  {
  }

  /** The lookup finds the entry that holds the frame so far, which has not timed out. */
  lemma Located(p: D.Params, a: A.State, frame: seq<byte>, used: nat, id: u16, open: bool)
    requires A.Inv(a) && At(p, a, frame, used, id, open) && p.Ok()
    ensures var l := A.Locate(a, id);
            && A.Inv(l) && l.tree.Keys == {id}
            && l == a.(entries := l.entries, free := l.free, used := l.used, tree := l.tree)
            && MidEntry(p, l.entries[l.tree[id]], l.bufs[l.tree[id]], frame, used, open)
  {
    A.LocateKeeps(a, id);
  }

  // ----- the two ends connected

  function Datas(ds: seq<A.Delivered>): seq<seq<byte>> {
    if ds == [] then [] else [ds[0].data] + Datas(ds[1..])
  }

  lemma {:induction false} DatasConcat(a: seq<A.Delivered>, b: seq<A.Delivered>)
    ensures Datas(a + b) == Datas(a) + Datas(b)
  {
    if a == [] {
      assert a + b == b;
    } else {
      DatasConcat(a[1..], b);
      assert (a + b)[1..] == a[1..] + b;
    }
  }

  lemma {:induction false} ChunksSnoc(s: A.State, cs: seq<Chunk>, c: Chunk)
    requires A.Inv(s)
    ensures A.Inv(A.Chunks(s, cs).0)
    ensures var v := A.Chunks(s, cs); var r := A.ProcessChunk(v.0, c);
            A.Chunks(s, cs + [c]) == (r.0, v.1 + Emitted(r.1))
    decreases |cs|
  {
    hide A.ProcessChunk, A.Inv;
    A.ChunksKeep(s, cs);
    if cs == [] {
      var r := A.ProcessChunk(s, c);
      A.ProcessKeeps(s, c);
      assert (cs + [c])[1..] == [];
      assert A.Chunks(r.0, []) == (r.0, []);
      assert Emitted(r.1) + [] == [] + Emitted(r.1);
    } else {
      A.ProcessKeeps(s, cs[0]);
      var r := A.ProcessChunk(s, cs[0]);
      ChunksSnoc(r.0, cs[1..], c);
      assert (cs + [c])[1..] == cs[1..] + [c];
      assert (cs + [c])[0] == cs[0];
      var v := A.Chunks(r.0, cs[1..]);
      var last := Emitted(A.ProcessChunk(v.0, c).1);
      assert Emitted(r.1) + (v.1 + last) == (Emitted(r.1) + v.1) + last;
    }
  }

  function Emitted(d: Option<A.Delivered>): seq<A.Delivered> {
    if d.Some? then [d.value] else []
  }

  lemma FeedEncoded(a: A.State, cs: seq<Chunk>)
    requires A.Inv(a) && Fits(cs)
    ensures A.Inv(A.Chunks(a, cs).0)
    ensures A.Feed(a, Encode(cs)) == (A.Tick(A.Chunks(a, cs).0), A.Chunks(a, cs).1)
    ensures A.Inv(A.Feed(a, Encode(cs)).0)
  {
    hide A.Tick, A.Chunks, A.Inv;
    A.ChunksKeep(a, cs);
    ParseEncode(cs);
    A.FeedKeeps(a, Encode(cs));
  }

  lemma TickEmpty(a: A.State)
    requires A.Inv(a) && a.tree == map[]
    ensures A.Tick(a).tree == map[]
  {
    A.TickKeeps(a);
    hide A.Tick, A.Inv;
    assert forall k :: k !in A.Tick(a).tree;
  }

  lemma TickMid(p: D.Params, a: A.State, frame: seq<byte>, used: nat, id: u16)
    requires A.Inv(a) && Mid(p, a, frame, used, id, false) && A.Age(a, a.tree[id]) == 0
    ensures A.Inv(A.Tick(a)) && At(p, A.Tick(a), frame, used, id, false)
  {
    hide A.Tick, A.Inv, Holds;
    A.TickKeeps(a);
    A.TreeEntry(a, id);
    A.UsedList(a);
    A.InRange(a);
    var r := A.Tick(a);
    assert !A.TimedOut(a, a.tree[id]);
    assert A.Survived(a, r, id, 1);
    assert forall k :: k in r.tree ==> k == id;
    HoldsAnyTime(a.entries[a.tree[id]], r.entries[r.tree[id]].time, a.bufs[a.tree[id]], frame);
  }

  /** The chunk write_chunks writes next, after which the loop goes on or ends the packet. */
  lemma PieceSized(p: D.Params, frame: seq<byte>, used: nat, outUsed: nat, id: u16, open: bool)
    requires p.Ok() && D.Started(frame, used) && outUsed + HEADER < p.outputMtu
    requires (open ==> Limited(p)) && (0 < used && !open ==> outUsed == 0)
    ensures var c := D.NextChunk(p, frame, used, outUsed, id);
            && NextInOrder(c, frame, used)
            && (!c.last ==> Sized(p, c, used, open, outUsed + HEADER + |c.data| + HEADER < p.outputMtu))
  {
  }

  /** What the chunks still in the output packet will make of the assembler. */
  function Out(d: D.State): seq<Chunk> {
    if d.out.Some? then d.out.value else []
  }

  /** The frames accepted and not yet delivered: those whose pieces are in the output packet,
      and the one being cut. */
  ghost predicate Linked(p: D.Params, d: D.State, a: A.State, maxLen: nat, pending: seq<seq<byte>>) {
    && D.Inv(p, d) && A.Inv(a) && Fitting(p, a, maxLen)
    && A.Inv(A.Chunks(a, Out(d)).0)
    && var v := A.Chunks(a, Out(d));
    && pending == Datas(v.1) + (if d.input.Some? then [d.input.value] else [])
    && (if d.input.Some? then |d.input.value| <= maxLen && At(p, v.0, d.input.value, d.inUsed, d.frameId, false)
        else v.0.tree == map[])
  }

  ghost function Step(p: D.Params, d: D.State, a: A.State, e: D.Event): (D.State, A.State, seq<seq<byte>>)
    requires D.Inv(p, d) && D.Enabled(d, e) && A.Inv(a)
  {
    D.StepKeepsInv(p, d, e);
    var r := D.Step(p, d, e);
    if r.1.None? then (r.0, a, [])
    else
      var f := A.Feed(a, Encode(r.1.value));
      (r.0, f.0, Datas(f.1))
  }

  function Inputs(e: D.Event): seq<seq<byte>> {
    if e.Input? then [e.frame] else []
  }

  /** write_chunks keeps the link: what it delivers and leaves pending is what was pending. */
  lemma WriteLinked(p: D.Params, d: D.State, a: A.State, maxLen: nat, ds: seq<seq<byte>>) returns (rest: seq<seq<byte>>)
    requires A.Inv(a) && Fitting(p, a, maxLen)
    requires d.input.Some? && d.out.Some? && |d.input.value| <= maxLen && D.Started(d.input.value, d.inUsed)
    requires D.OutUsed(d.out.value) + HEADER < p.outputMtu && Fits(d.out.value)
    requires 0 < d.inUsed ==> d.out.value == []
    requires A.Inv(A.Chunks(a, d.out.value).0)
    requires At(p, A.Chunks(a, d.out.value).0, d.input.value, d.inUsed, d.frameId, false)
    requires ds == Datas(A.Chunks(a, d.out.value).1) + [d.input.value]
    ensures var w := D.WriteChunks(p, d);
            if w.1.None? then rest == ds && Linked(p, w.0, a, maxLen, rest)
            else
              Fits(w.1.value) &&
              var f := A.Feed(a, Encode(w.1.value));
              ds == Datas(f.1) + rest && Linked(p, w.0, f.0, maxLen, rest)
  {
    hide A.ProcessChunk, A.Tick, A.Chunks, A.Inv, Mid, A.Feed, D.Cut, D.NextChunk, Datas, Encode;
    var frame, cs := d.input.value, d.out.value;
    var next := D.Cut(p, frame, d.inUsed, D.OutUsed(cs), d.frameId);
    var last := next[|next| - 1];
    CutEnds(p, frame, d.inUsed, D.OutUsed(cs), d.frameId);
    D.WriteKeepsInv(p, d);
    CutSent(p, a, cs, frame, d.inUsed, d.frameId, maxLen, false);
    var w := D.WriteChunks(p, d);
    assert w.1.Some? ==> w.1.value == cs + next;
    rest := ds;
    if w.1.Some? {
      rest := if last.last then [] else [frame];
      PacketLinked(p, a, maxLen, cs + next, w.0, rest);
    }
  }

  lemma CutEnds(p: D.Params, frame: seq<byte>, used: nat, outUsed: nat, id: u16)
    requires p.Ok() && D.Started(frame, used) && outUsed + HEADER < p.outputMtu
    ensures var cs := D.Cut(p, frame, used, outUsed, id);
            cs[|cs| - 1].last <==> cs[|cs| - 1].End() == |frame|
  {
    hide D.Cut, D.NextChunk;
    D.CutPieces(p, frame, used, outUsed, id);
  }

  /** All that one call of write_chunks cuts off the frame, behind what is in the packet, makes
      the frame delivered or pending. */
  lemma {:induction false} CutSent(p: D.Params, a: A.State, cs: seq<Chunk>, frame: seq<byte>, used: nat, id: u16, maxLen: nat, open: bool)
    requires A.Inv(a) && Fitting(p, a, maxLen) && |frame| <= maxLen && A.Inv(A.Chunks(a, cs).0)
    requires p.Ok() && D.Started(frame, used) && D.OutUsed(cs) + HEADER < p.outputMtu
    requires (open ==> Limited(p)) && (0 < used && !open ==> D.OutUsed(cs) == 0)
    requires At(p, A.Chunks(a, cs).0, frame, used, id, open)
    ensures var next := D.Cut(p, frame, used, D.OutUsed(cs), id);
            var v, last := A.Chunks(a, cs + next), next[|next| - 1];
            && A.Inv(v.0)
            && Datas(A.Chunks(a, cs).1) + [frame] == Datas(v.1) + (if last.last then [] else [frame])
            && (if last.last then v.0.tree == map[]
                else Mid(p, v.0, frame, last.End(), id, false) && A.Age(v.0, v.0.tree[id]) == 0)
    decreases |frame| - used
  {
    hide A.ProcessChunk, A.Chunks, A.Inv, Mid, Sized, Fitting, Datas, D.NextChunk, D.OutUsed;
    var c := D.NextChunk(p, frame, used, D.OutUsed(cs), id);
    var goesOn := D.OutUsed(cs) + HEADER + |c.data| + HEADER < p.outputMtu;
    PieceSized(p, frame, used, D.OutUsed(cs), id, open);
    PieceSent(p, a, cs, frame, used, id, c, maxLen, open, goesOn);
    OutUsedSnoc(cs, c);
    if !c.last && goesOn {
      GoesOnLimited(p, c, used, open);
      CutSent(p, a, cs + [c], frame, c.End(), id, maxLen, true);
      var rest := D.Cut(p, frame, c.End(), D.OutUsed(cs + [c]), id);
      assert cs + ([c] + rest) == cs + [c] + rest;
    }
  }

  lemma GoesOnLimited(p: D.Params, c: Chunk, used: nat, open: bool)
    requires p.Ok() && Sized(p, c, used, open, true)
    ensures Limited(p)
  {
  }

  /** The next piece behind those in the output packet makes the frame delivered or pending. */
  lemma PieceSent(p: D.Params, a: A.State, cs: seq<Chunk>, frame: seq<byte>, used: nat, id: u16, c: Chunk, maxLen: nat,
                  open: bool, goesOn: bool)
    requires A.Inv(a) && Fitting(p, a, maxLen) && |frame| <= maxLen && A.Inv(A.Chunks(a, cs).0)
    requires At(p, A.Chunks(a, cs).0, frame, used, id, open) && c.id == id && NextInOrder(c, frame, used)
    requires !c.last ==> Sized(p, c, used, open, goesOn)
    ensures var v := A.Chunks(a, cs + [c]);
            && A.Inv(v.0)
            && Datas(A.Chunks(a, cs).1) + [frame] == Datas(v.1) + (if c.last then [] else [frame])
            && (if c.last then v.0.tree == map[]
                else Mid(p, v.0, frame, c.End(), id, goesOn) && A.Age(v.0, v.0.tree[id]) == 0)
  {
    hide A.ProcessChunk, A.Chunks, A.Inv, Mid, NextInOrder, Sized;
    var v := A.Chunks(a, cs);
    ScalarsKept(a, cs);
    NextPiece(p, v.0, frame, used, id, c, maxLen, open, goesOn);
    ChunksSnoc(a, cs, c);
    DatasConcat(v.1, Emitted(A.ProcessChunk(v.0, c).1));
  }

  /** A finished packet is fed to the assembler; nothing is left in the output. */
  lemma PacketLinked(p: D.Params, a: A.State, maxLen: nat, packet: seq<Chunk>, d: D.State, rest: seq<seq<byte>>)
    requires A.Inv(a) && Fitting(p, a, maxLen) && Fits(packet) && D.Inv(p, d) && d.out.None?
    requires A.Inv(A.Chunks(a, packet).0)
    requires var x := A.Chunks(a, packet).0;
             if d.input.None? then x.tree == map[] && rest == []
             else |d.input.value| <= maxLen && rest == [d.input.value]
                  && Mid(p, x, d.input.value, d.inUsed, d.frameId, false) && A.Age(x, x.tree[d.frameId]) == 0
    ensures var f := A.Feed(a, Encode(packet));
            f.1 == A.Chunks(a, packet).1 && Linked(p, d, f.0, maxLen, rest)
  {
    hide A.ProcessChunk, A.Tick, A.Chunks, A.Inv, A.Feed, MidEntry;
    var x := A.Chunks(a, packet).0;
    FeedEncoded(a, packet);
    ScalarsKept(a, packet);
    A.TickKeeps(x);
    EmptyOut(A.Tick(x));
    if d.input.None? { TickEmpty(x); } else { TickMid(p, x, d.input.value, d.inUsed, d.frameId); }
  }

  lemma OutUsedSnoc(cs: seq<Chunk>, c: Chunk)
    ensures D.OutUsed(cs + [c]) == D.OutUsed(cs) + HEADER + |c.data|
  {
    assert (cs + [c])[..|cs|] == cs;
  }

  lemma EmptyOut(a: A.State)
    requires A.Inv(a)
    ensures A.Chunks(a, []) == (a, []) && Datas([]) == []
  {
  }

  lemma {:induction false} ScalarsKept(a: A.State, cs: seq<Chunk>)
    requires A.Inv(a)
    ensures A.Chunks(a, cs).0.mtu == a.mtu && A.Chunks(a, cs).0.numChunks == a.numChunks
    decreases |cs|
  {
    hide A.ProcessChunk;
    if cs != [] {
      A.ProcessKeeps(a, cs[0]);
      A.ProcessScalars(a, cs[0]);
      ScalarsKept(A.ProcessChunk(a, cs[0]).0, cs[1..]);
    }
  }

  lemma StepLinked(p: D.Params, d: D.State, a: A.State, maxLen: nat, ds: seq<seq<byte>>, e: D.Event) returns (rest: seq<seq<byte>>)
    requires Linked(p, d, a, maxLen, ds) && D.Enabled(d, e) && (e.Input? ==> |e.frame| <= maxLen)
    ensures var t := Step(p, d, a, e);
            ds + Inputs(e) == t.2 + rest && Linked(p, t.0, t.1, maxLen, rest)
  {
    hide A.Tick, A.Chunks, A.Inv, Mid, A.Feed, D.WriteChunks;
    D.StepKeepsInv(p, d, e);
    EmptyOut(a);
    rest := ds + Inputs(e);
    match e
    case Input(frame) =>
      var t := d.(input := Some(frame), inUsed := 0);
      if t.out.Some? {
        rest := WriteLinked(p, t, a, maxLen, rest);
      }
    case Recv =>
      var t := d.(out := Some([]));
      if t.input.Some? {
        rest := WriteLinked(p, t, a, maxLen, rest);
      }
    case Timer =>
      rest := [];
      PacketLinked(p, a, maxLen, d.out.value, D.Step(p, d, e).0, rest);
  }

  // ----- whole runs

  /** Any schedule of frames, output packets and timers that the interfaces allow. */
  ghost predicate Legal(p: D.Params, d: D.State, a: A.State, es: seq<D.Event>, maxLen: nat)
    requires D.Inv(p, d) && A.Inv(a)
    decreases |es|
  {
    es != [] ==>
      && D.Enabled(d, es[0]) && (es[0].Input? ==> |es[0].frame| <= maxLen)
      && (StepKeeps(p, d, a, es[0]);
          var t := Step(p, d, a, es[0]); Legal(p, t.0, t.1, es[1..], maxLen))
  }

  lemma StepKeeps(p: D.Params, d: D.State, a: A.State, e: D.Event)
    requires D.Inv(p, d) && D.Enabled(d, e) && A.Inv(a)
    ensures D.Inv(p, Step(p, d, a, e).0) && A.Inv(Step(p, d, a, e).1)
  {
    D.StepKeepsInv(p, d, e);
    var r := D.Step(p, d, e);
    if r.1.Some? { A.FeedKeeps(a, Encode(r.1.value)); }
  }

  /** Both ends after the run, and the frames the assembler put out. */
  ghost function Run(p: D.Params, d: D.State, a: A.State, es: seq<D.Event>, maxLen: nat): (D.State, A.State, seq<seq<byte>>)
    requires D.Inv(p, d) && A.Inv(a) && Legal(p, d, a, es, maxLen)
    decreases |es|
  {
    if es == [] then (d, a, [])
    else
      StepKeeps(p, d, a, es[0]);
      var t := Step(p, d, a, es[0]);
      var r := Run(p, t.0, t.1, es[1..], maxLen);
      (r.0, r.1, t.2 + r.2)
  }

  function AllInputs(es: seq<D.Event>): seq<seq<byte>> {
    if es == [] then [] else Inputs(es[0]) + AllInputs(es[1..])
  }

  lemma RunFirst(p: D.Params, d: D.State, a: A.State, es: seq<D.Event>, maxLen: nat)
    requires D.Inv(p, d) && A.Inv(a) && Legal(p, d, a, es, maxLen) && es != []
    ensures D.Enabled(d, es[0]) && (es[0].Input? ==> |es[0].frame| <= maxLen)
    ensures var t := Step(p, d, a, es[0]);
            && D.Inv(p, t.0) && A.Inv(t.1) && Legal(p, t.0, t.1, es[1..], maxLen)
            && var r := Run(p, t.0, t.1, es[1..], maxLen);
               Run(p, d, a, es, maxLen) == (r.0, r.1, t.2 + r.2)
    ensures AllInputs(es) == Inputs(es[0]) + AllInputs(es[1..])
  {
    hide Step, D.Inv, A.Inv, Inputs;
    StepKeeps(p, d, a, es[0]);
  }

  lemma {:induction false} RunLinked(p: D.Params, d: D.State, a: A.State, maxLen: nat, ds: seq<seq<byte>>, es: seq<D.Event>)
    returns (rest: seq<seq<byte>>)
    requires D.Inv(p, d) && A.Inv(a) && Linked(p, d, a, maxLen, ds) && Legal(p, d, a, es, maxLen)
    ensures var r := Run(p, d, a, es, maxLen);
            ds + AllInputs(es) == r.2 + rest && Linked(p, r.0, r.1, maxLen, rest)
    decreases |es|
  {
    hide Linked, Step, D.Inv, A.Inv, Legal, Inputs, D.Enabled;
    rest := ds;
    if es == [] {
      assert ds + [] == [] + ds;
    } else {
      hide Run, AllInputs;
      RunFirst(p, d, a, es, maxLen);
      var mid := StepLinked(p, d, a, maxLen, ds, es[0]);
      var t := Step(p, d, a, es[0]);
      rest := RunLinked(p, t.0, t.1, maxLen, mid, es[1..]);
      var r := Run(p, t.0, t.1, es[1..], maxLen);
      assert ds + (Inputs(es[0]) + AllInputs(es[1..])) == (ds + Inputs(es[0])) + AllInputs(es[1..]);
      assert (t.2 + mid) + AllInputs(es[1..]) == t.2 + (mid + AllInputs(es[1..]));
      assert t.2 + (r.2 + rest) == (t.2 + r.2) + rest;
    }
  }

  /** The round trip. Started together, whatever the schedule and however often frame ids
      and the packet clock wrap, the assembler puts out exactly the frames that went in, in
      order, but for those still on their way: none when no frame is being cut and no
      chunk waits in an output packet. */
  lemma RoundTrip(p: D.Params, a: A.State, maxLen: nat, es: seq<D.Event>)
    requires A.Inv(a) && Initial(a) && Fitting(p, a, maxLen)
    requires Legal(p, D.State(None, 0, None, 0), a, es, maxLen)
    ensures var r := Run(p, D.State(None, 0, None, 0), a, es, maxLen);
            && r.2 <= AllInputs(es)
            && (r.0.input.None? && Out(r.0) == [] ==> r.2 == AllInputs(es))
  {
    var d := D.State(None, 0, None, 0);
    EmptyOut(a);
    assert Linked(p, d, a, maxLen, []);
    var rest := RunLinked(p, d, a, maxLen, [], es);
    var r := Run(p, d, a, es, maxLen);
    hide Run;
    assert [] + AllInputs(es) == AllInputs(es);
    if r.0.input.None? && Out(r.0) == [] {
      EmptyOut(r.1);
      assert rest == [];
    }
  }
}
