/** Order independence: the pieces of one frame, each arriving once, in any order and mixed
    with anything else, deliver the frame exactly once, with its last missing piece. */
module AssemblerOrder {
  import opened Wrappers
  import opened Lists
  import opened FragmentProto
  import opened Assembler
  import opened AssemblerTheorems

  /** Consecutive pieces of the whole frame, as the disassembler cuts it. */
  ghost predicate Partition(ps: seq<Chunk>, id: u16, frame: seq<byte>) {
    && ps != [] && ps[0].start == 0 && ps[|ps| - 1].End() == |frame|
    && (forall i :: 0 <= i < |ps| ==> ps[i].id == id && CutFrom(ps[i], frame) && (ps[i].last <==> i == |ps| - 1))
    && (forall i :: 0 < i < |ps| ==> ps[i].start == ps[i - 1].End())
    && (|ps| > 1 ==> forall i :: 0 <= i < |ps| ==> 0 < |ps[i].data|)
  }

  function SpanOf(c: Chunk): Span {
    Span(c.start, |c.data|)
  }

  lemma {:induction false} InOrder(ps: seq<Chunk>, id: u16, frame: seq<byte>, i: nat, j: nat)
    requires Partition(ps, id, frame) && i < j < |ps|
    ensures ps[i].End() <= ps[j].start
    decreases j
  {
    if i < j - 1 { InOrder(ps, id, frame, i, j - 1); }
  }

  lemma {:induction false} PieceAt(ps: seq<Chunk>, id: u16, frame: seq<byte>, p: nat, n: nat) returns (i: nat)
    requires Partition(ps, id, frame) && n < |ps| && p < ps[n].End()
    ensures i <= n && ps[i].start <= p < ps[i].End()
    decreases n
  {
    if ps[n].start <= p { i := n; } else { i := PieceAt(ps, id, frame, p, n - 1); }
  }

  ghost predicate Arrived(b: Span, ps: seq<Chunk>, left: set<Chunk>) {
    exists i :: 0 <= i < |ps| && ps[i] !in left && b == SpanOf(ps[i])
  }

  /** The entry holds exactly the pieces that are no longer in `left`. */
  ghost predicate Received(e: Entry, ps: seq<Chunk>, frame: seq<byte>, left: set<Chunk>) {
    && |e.chunks| + |left| == |ps|
    && (forall b :: b in e.chunks ==> Arrived(b, ps, left))
    && (forall i :: 0 <= i < |ps| && ps[i] !in left ==> SpanOf(ps[i]) in e.chunks)
    && (e.length >= 0 <==> ps != [] && ps[|ps| - 1] !in left)
    && (e.length >= 0 ==> e.length == |frame|)
    && e.lengthSoFar <= |frame|
  }

  lemma Distinct(ps: seq<Chunk>, id: u16, frame: seq<byte>, i: nat, j: nat)
    requires Partition(ps, id, frame) && i < |ps| && j < |ps| && i != j
    ensures ps[i] != ps[j] && !Overlap(SpanOf(ps[i]), SpanOf(ps[j]))
  {
    if i < j { InOrder(ps, id, frame, i, j); } else { InOrder(ps, id, frame, j, i); }
  }

  /** A missing piece fits beside those received. */
  lemma PieceAccepted(e: Entry, ps: seq<Chunk>, id: u16, frame: seq<byte>, left: set<Chunk>, k: nat)
    requires Partition(ps, id, frame) && Received(e, ps, frame, left) && k < |ps| && ps[k] in left
    ensures Accepts(e, ps[k])
  {
    forall i | 0 <= i < |e.chunks| ensures !Overlap(e.chunks[i], SpanOf(ps[k])) {
      assert Arrived(e.chunks[i], ps, left);
      var j :| 0 <= j < |ps| && ps[j] !in left && e.chunks[i] == SpanOf(ps[j]);
      Distinct(ps, id, frame, j, k);
    }
  }

  lemma PieceReceived(e: Entry, ps: seq<Chunk>, id: u16, frame: seq<byte>, left: set<Chunk>, k: nat, time: nat)
    requires Partition(ps, id, frame) && Received(e, ps, frame, left) && k < |ps| && ps[k] in left
    ensures var f, rest := AddChunk(e, ps[k], time), left - {ps[k]};
            Received(f, ps, frame, rest) && |f.chunks| == |ps| - |rest|
  {
    var f, rest := AddChunk(e, ps[k], time), left - {ps[k]};
    assert forall b :: b in f.chunks <==> b in e.chunks || b == SpanOf(ps[k]);
    forall i | 0 <= i < |ps| && ps[i] !in rest ensures SpanOf(ps[i]) in f.chunks {
      if i != k { Distinct(ps, id, frame, i, k); }
    }
    forall b | b in f.chunks ensures Arrived(b, ps, rest) {
      if b in e.chunks { StillArrived(b, ps, left, rest); }
    }
    if k < |ps| - 1 { Distinct(ps, id, frame, k, |ps| - 1); }
    hide Partition;
  }

  lemma StillArrived(b: Span, ps: seq<Chunk>, left: set<Chunk>, rest: set<Chunk>)
    requires Arrived(b, ps, left) && rest <= left
    ensures Arrived(b, ps, rest)
  {
    var i :| 0 <= i < |ps| && ps[i] !in left && b == SpanOf(ps[i]);
  }

  /** The entry is complete exactly when no piece is left. */
  lemma CompleteIffAll(e: Entry, ps: seq<Chunk>, id: u16, frame: seq<byte>, left: set<Chunk>)
    requires Partition(ps, id, frame) && Received(e, ps, frame, left)
    requires Disjoint(e.chunks) && e.sum == Total(e.chunks)
    requires left <= (set c | c in ps)
    ensures Complete(e) <==> left == {}
  {
    forall b | b in e.chunks ensures b.End() <= |frame| {
      assert Arrived(b, ps, left);
      var i :| 0 <= i < |ps| && ps[i] !in left && b == SpanOf(ps[i]);
    }
    Tiling(e.chunks, |frame|);
    if left == {} {
      forall p | 0 <= p < |frame| ensures p in Covered(e.chunks) {
        var i := PieceAt(ps, id, frame, p, |ps| - 1);
        assert SpanOf(ps[i]) in e.chunks;
        InCovered(e.chunks, p);
      }
    } else if e.length >= 0 {
      var c :| c in left;
      var k :| 0 <= k < |ps| && ps[k] == c;
      assert |ps| > 1;
      MissingPiece(e, ps, id, frame, left, k);
    }
  }

  lemma MissingPiece(e: Entry, ps: seq<Chunk>, id: u16, frame: seq<byte>, left: set<Chunk>, k: nat)
    requires Partition(ps, id, frame) && Received(e, ps, frame, left) && k < |ps| && 1 < |ps| && ps[k] in left
    ensures ps[k].start < |frame| && ps[k].start !in Covered(e.chunks)
  {
    var p := ps[k].start;
    InCovered(e.chunks, p);
    if p in Covered(e.chunks) {
      var i :| 0 <= i < |e.chunks| && e.chunks[i].start <= p < e.chunks[i].End();
      assert Arrived(e.chunks[i], ps, left);
      var j :| 0 <= j < |ps| && ps[j] !in left && e.chunks[i] == SpanOf(ps[j]);
      Distinct(ps, id, frame, j, k);
    }
  }

  // ----- one step

  function Pieces(ps: seq<Chunk>): set<Chunk> {
    set c | c in ps
  }

  lemma {:induction false} PieceCount(ps: seq<Chunk>, n: nat)
    requires n <= |ps| && forall i, j :: 0 <= i < j < |ps| ==> ps[i] != ps[j]
    ensures |Pieces(ps[..n])| == n
  {
    if n > 0 {
      PieceCount(ps, n - 1);
      assert Pieces(ps[..n]) == Pieces(ps[..n - 1]) + {ps[n - 1]};
    } else {
      assert Pieces(ps[..n]) == {};
    }
  }

  /** The assembler is waiting for the pieces in `left`. */
  ghost predicate Waiting(s: State, ps: seq<Chunk>, id: u16, frame: seq<byte>, left: set<Chunk>)
    requires Inv(s)
  {
    && id in s.tree
    && Received(s.entries[s.tree[id]], ps, frame, left)
    && Holds(s.entries[s.tree[id]], s.bufs[s.tree[id]], frame)
  }

  lemma FreshReceived(ps: seq<Chunk>, id: u16, frame: seq<byte>, time: nat, buf: seq<byte>)
    requires Partition(ps, id, frame)
    ensures var e := Entry(id, time, [], 0, -1, 0);
            Received(e, ps, frame, Pieces(ps)) && Holds(e, buf, frame)
  {
    forall i, j | 0 <= i < j < |ps| ensures ps[i] != ps[j] { Distinct(ps, id, frame, i, j); }
    PieceCount(ps, |ps|);
    assert ps[..|ps|] == ps;
    assert ps[|ps| - 1] in Pieces(ps);
  }

  /** Writing a missing piece into the entry that waits for it. */
  lemma PieceWritten(s: State, ps: seq<Chunk>, id: u16, frame: seq<byte>, left: set<Chunk>, c: Chunk)
    requires Inv(s) && Partition(ps, id, frame) && |frame| <= s.mtu
    requires left <= Pieces(ps) && c in left && Waiting(s, ps, id, frame, left)
    ensures c.id == id && InBounds(s, c) && Accepts(s.entries[s.tree[id]], c)
    ensures var t := Written(s, c); var e := t.entries[s.tree[id]]; var rest := left - {c};
            && Received(e, ps, frame, rest) && Holds(e, t.bufs[s.tree[id]], frame)
            && |e.chunks| == |ps| - |rest|
            && (Complete(e) <==> rest == {})
            && (Complete(e) ==> e.length <= |t.bufs[s.tree[id]]| && t.bufs[s.tree[id]][..e.length] == frame)
  {
    hide Received, Holds, Accepts, Partition, NoDup, WellFormed, Complete, Disjoint, Total, AddChunk;
    var i := s.tree[id];
    var k :| 0 <= k < |ps| && ps[k] == c;
    InOrderEnd(ps, id, frame, k);
    PieceAccepted(s.entries[i], ps, id, frame, left, k);
    PieceReceived(s.entries[i], ps, id, frame, left, k, s.time);
    AddKeeps(s, c);
    AddHolds(s, c, frame);
    CompleteIffAll(AddChunk(s.entries[i], c, s.time), ps, id, frame, left - {c});
  }

  /** A missing piece is taken in; the last of them delivers the frame. */
  lemma PieceArrives(s: State, ps: seq<Chunk>, id: u16, frame: seq<byte>, left: set<Chunk>, c: Chunk)
    requires Inv(s) && Partition(ps, id, frame) && |ps| <= s.numChunks && |frame| <= s.mtu
    requires left <= Pieces(ps) && c in left
    requires if left == Pieces(ps) then id !in s.tree
             else Waiting(s, ps, id, frame, left) && !TimedOut(s, s.tree[id])
    ensures var r := ProcessChunk(s, c); var rest := left - {c};
            && Inv(r.0)
            && (if rest == {} then r.1 == Some(Delivered(id, frame)) && id !in r.0.tree
                else r.1.None? && Waiting(r.0, ps, id, frame, rest))
  {
    hide Received, Holds, Locate, Accepts, Partition, NoDup, WellFormed, Complete, AddChunk;
    ProcessKeeps(s, c);
    LocateKeeps(s, id);
    var l := Locate(s, id);
    var i := l.tree[id];
    if left == Pieces(ps) { FreshReceived(ps, id, frame, s.time, l.bufs[i]); }
    PieceWritten(l, ps, id, frame, left, c);
    hide Tables;
  }

  lemma InOrderEnd(ps: seq<Chunk>, id: u16, frame: seq<byte>, k: nat)
    requires Partition(ps, id, frame) && k < |ps|
    ensures ps[k].id == id && CutFrom(ps[k], frame)
  {
  }

  // ----- whole runs

  predicate IsPiece(e: Event, id: u16) {
    e.Got? && e.chunk.id == id
  }

  /** The run brings pieces of the frame from `left`, each at most once and no other chunk
      with its id; from the first piece to the last the frame is never given up, and no
      piece finds it timed out. */
  ghost predicate Delivering(s: State, es: seq<Event>, ps: seq<Chunk>, id: u16, left: set<Chunk>)
    requires Inv(s)
    decreases |es|
  {
    es != [] ==>
      (StepKeeps(s, es[0]);
       var t := Step(s, es[0]).0;
       if IsPiece(es[0], id) then
         && es[0].chunk in left
         && (left != Pieces(ps) ==> id in s.tree && !TimedOut(s, s.tree[id]))
         && Delivering(t, es[1..], ps, id, left - {es[0].chunk})
       else
         && (left != Pieces(ps) && left != {} ==> id in t.tree)
         && Delivering(t, es[1..], ps, id, left))
  }

  /** The pieces the run has not brought. */
  function Missing(es: seq<Event>, id: u16, left: set<Chunk>): set<Chunk>
    decreases |es|
  {
    if es == [] then left
    else Missing(es[1..], id, if IsPiece(es[0], id) then left - {es[0].chunk} else left)
  }

  function Frames(ds: seq<Delivered>, id: u16): seq<seq<byte>> {
    if ds == [] then [] else (if ds[0].id == id then [ds[0].data] else []) + Frames(ds[1..], id)
  }

  lemma {:induction false} FramesConcat(a: seq<Delivered>, b: seq<Delivered>, id: u16)
    ensures Frames(a + b, id) == Frames(a, id) + Frames(b, id)
  {
    if a == [] {
      assert a + b == b;
    } else {
      FramesConcat(a[1..], b, id);
      assert (a + b)[1..] == a[1..] + b;
    }
  }

  lemma {:induction false} MissingNone(es: seq<Event>, id: u16, left: set<Chunk>)
    requires left == {}
    ensures Missing(es, id, left) == {}
    decreases |es|
  {
    if es != [] { MissingNone(es[1..], id, if IsPiece(es[0], id) then left - {es[0].chunk} else left); }
  }

  /** An event that is not a piece of frame `id` delivers nothing with that id and leaves its
      entry waiting for the same pieces; it never makes an entry for it. */
  lemma OtherEvent(s: State, e: Event, ps: seq<Chunk>, id: u16, frame: seq<byte>, left: set<Chunk>)
    requires Inv(s) && !IsPiece(e, id)
    ensures var t := Step(s, e);
            && Inv(t.0) && Frames(t.1, id) == []
            && t.0.numChunks == s.numChunks && t.0.mtu == s.mtu
            && (id !in s.tree ==> id !in t.0.tree)
            && (Waiting(s, ps, id, frame, left) && id in t.0.tree ==> Waiting(t.0, ps, id, frame, left))
  {
    StepKeeps(s, e);
    match e
    case Got(c) =>
      ProcessScalars(s, c);
      ProcessDelivers(s, c);
      if id in ProcessChunk(s, c).0.tree { ProcessFrame(s, c, id); }
    case EndOfPacket =>
      TickKeeps(s);
      var t := Tick(s);
      hide Tick, Inv;
      if id in t.tree {
        assert Survived(s, t, id, 1);
        if Waiting(s, ps, id, frame, left) {
          HoldsAnyTime(s.entries[s.tree[id]], t.entries[t.tree[id]].time, s.bufs[s.tree[id]], frame);
        }
      }
  }

  lemma ProcessDelivers(s: State, c: Chunk)
    requires Inv(s)
    ensures var r := ProcessChunk(s, c).1; r.Some? ==> r.value.id == c.id
  {
  }

  /** Order independence: after any such run the frame has been delivered exactly once if
      all its pieces have come, and not at all while one is missing; so it is the last
      missing piece that delivers it. */
  lemma {:induction false} AnyOrder(s: State, es: seq<Event>, ps: seq<Chunk>, id: u16, frame: seq<byte>, left: set<Chunk>)
    requires Inv(s) && Partition(ps, id, frame) && |ps| <= s.numChunks && |frame| <= s.mtu
    requires left <= Pieces(ps) && Delivering(s, es, ps, id, left)
    requires left == Pieces(ps) ==> id !in s.tree
    requires left != Pieces(ps) && left != {} ==> Waiting(s, ps, id, frame, left)
    ensures Frames(Run(s, es).1, id) == if left != {} && Missing(es, id, left) == {} then [frame] else []
    decreases |es|
  {
    hide ProcessChunk, Tick, Inv, Partition, Waiting, Received, Holds;
    if es != [] {
      var e, rest := es[0], es[1..];
      StepKeeps(s, e);
      var t := Step(s, e);
      FramesConcat(t.1, Run(t.0, rest).1, id);
      if IsPiece(e, id) {
        var c := e.chunk;
        PieceArrives(s, ps, id, frame, left, c);
        ProcessScalars(s, c);
        AnyOrder(t.0, rest, ps, id, frame, left - {c});
        if left == {c} { MissingNone(rest, id, left - {c}); }
      } else {
        OtherEvent(s, e, ps, id, frame, left);
        AnyOrder(t.0, rest, ps, id, frame, left);
      }
    }
  }
}
