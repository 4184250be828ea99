/** How long the assembler keeps a frame, counted in events on the wire: for as many packets as
    it has frame entries, and while chunks of fewer other frames arrive. */
module AssemblerTiming {
  import opened Wrappers
  import opened Lists
  import opened FragmentProto
  import opened Assembler
  import opened AssemblerTheorems
  import opened AssemblerOrder

  // ----- the order of allocation

  /** How many entries of the list were allocated after entry `i`. */
  function Behind(list: seq<nat>, i: nat): (n: nat)
    ensures list != [] && list[0] == i ==> n == |list| - 1
  {
    if list == [] then 0 else if list[0] == i then |list| - 1 else Behind(list[1..], i)
  }

  lemma {:induction false} BehindWithout(list: seq<nat>, x: nat, i: nat)
    requires x != i
    ensures Behind(Without(list, x), i) <= Behind(list, i)
  {
    if list != [] { BehindWithout(list[1..], x, i); }
  }

  lemma {:induction false} BehindAppend(list: seq<nat>, x: nat, i: nat)
    requires i in list
    ensures Behind(list + [x], i) == Behind(list, i) + 1
  {
    if list[0] != i {
      BehindAppend(list[1..], x, i);
      assert (list + [x])[1..] == list[1..] + [x];
    }
  }

  lemma {:induction false} BehindLast(list: seq<nat>, i: nat)
    requires i !in list
    ensures Behind(list + [i], i) == 0
  {
    if list != [] {
      BehindLast(list[1..], i);
      assert (list + [i])[1..] == list[1..] + [i];
    }
  }

  lemma {:induction false} SameSize(list: seq<nat>, all: set<int>)
    requires NoDup(list) && forall p: int :: p in all <==> 0 <= p && p in list
    ensures |all| == |list|
    decreases |list|
  {
    if list == [] {
      assert forall p: int :: p !in all;
    } else {
      assert list[0] !in list[1..];
      SameSize(list[1..], all - {list[0]});
    }
  }

  /** A full table's list has every entry. */
  lemma FullList(s: State)
    requires Tables(s) && s.free == []
    ensures |s.used| == |s.entries|
  {
    var all := Positions(0, |s.entries|);
    forall p: int ensures p in all <==> 0 <= p && p in s.used {
      assert 0 <= p < |s.entries| ==> p in s.used || p in s.free;
    }
    SameSize(s.used, all);
  }

  // ----- what keeps a frame

  /** Frame `id` is held, with fewer than `behind` + 1 frames allocated after it, and was last
      written to `age` packets ago. */
  ghost predicate Kept(s: State, id: u16, behind: nat, age: nat) {
    && Inv(s) && id in s.tree && s.tree[id] < |s.entries|
    && Behind(s.used, s.tree[id]) <= behind && Age(s, s.tree[id]) == age
  }

  /** Finding the entry of another frame allocates at most one entry behind this one, and gives
      this one up only if it is first and the table is full. */
  lemma LocateStays(s: State, other: u16, id: u16, behind: nat, age: nat)
    requires Kept(s, id, behind, age) && other != id && behind + 1 < |s.entries|
    ensures Kept(Locate(s, other), id, behind + 1, age) && other in Locate(s, other).tree
  {
    hide Inv, Without, TakeFree, Oldest, Behind, FreeFrame;
    LocateKeeps(s, other);
    var r, i := Locate(s, other), s.tree[id];
    TreeEntry(s, id);
    if other in s.tree { TreeEntry(s, other); }
    if other !in s.tree {
      AllocateStays(s, other, id, behind);
      TreeEntry(r, id);
    } else if TimedOut(s, s.tree[other]) {
      FreeKeeps(s, s.tree[other]);
      FreedStays(s, s.tree[other], i);
      AllocateStays(FreeFrame(s, s.tree[other]), other, id, behind);
      TreeEntry(r, id);
    }
  }

  lemma FreedStays(s: State, j: nat, i: nat)
    requires j < |s.entries| && i != j
    ensures var f := FreeFrame(s, j);
            f.free != [] && Behind(f.used, i) <= Behind(s.used, i) && f.entries == s.entries && f.tree == s.tree - {s.entries[j].id}
  {
    BehindWithout(s.used, j, i);
  }

  lemma AllocateStays(s: State, other: u16, id: u16, behind: nat)
    requires Inv(s) && other !in s.tree && id in s.tree && behind + 1 < |s.entries| && Behind(s.used, s.tree[id]) <= behind
    ensures var r := AllocateNewFrame(s, other);
            id in r.tree && r.tree[id] == s.tree[id] && Behind(r.used, s.tree[id]) <= behind + 1
  {
    hide Inv, Without, NoDup, Behind;
    TreeEntry(s, id);
    InTolerance(s);
    AllocateKeepsTables(s, other);
    var i := s.tree[id];
    var f := if s.free == [] then FreeFrame(s, Oldest(s)) else s;
    if s.free == [] {
      FullList(s);
      FullMakesRoom(s, other);
      assert Oldest(s) == s.used[0] != i;
      BehindWithout(s.used, s.used[0], i);
    }
    BehindAppend(f.used, f.free[0], i);
  }

  /** A chunk of another frame, or the end of a packet, leaves the frame held. */
  lemma OtherStays(s: State, e: Event, id: u16, behind: nat, age: nat)
    requires Kept(s, id, behind, age) && !IsPiece(e, id)
    requires if e.Got? then behind + 1 < |s.entries| else age <= |s.entries|
    ensures var t := Step(s, e).0;
            && |t.entries| == |s.entries|
            && if e.Got? then Kept(t, id, behind + 1, age) else Kept(t, id, behind, age + 1)
  {
    StepKeeps(s, e);
    InTolerance(s);
    InTolerance(Step(s, e).0);
    match e
    case Got(c) =>
      ProcessScalars(s, c);
      ChunkStays(s, c, id, behind, age);
    case EndOfPacket =>
      TickKeeps(s);
      TickStays(s, id);
      hide Tick, Inv, Behind;
      assert Survived(s, Tick(s), id, 1);
  }

  lemma ChunkStays(s: State, c: Chunk, id: u16, behind: nat, age: nat)
    requires Kept(s, id, behind, age) && c.id != id && behind + 1 < |s.entries| && Inv(ProcessChunk(s, c).0)
    ensures Kept(ProcessChunk(s, c).0, id, behind + 1, age)
  {
    hide Inv, Without, Behind, Locate, TakeChunk;
    if InBounds(s, c) {
      LocateStays(s, c.id, id, behind, age);
      LocateKeeps(s, c.id);
      var l := Locate(s, c.id);
      TakeStays(l, c);
      TreeEntry(l, id);
      TreeEntry(l, c.id);
      BehindWithout(l.used, l.tree[c.id], l.tree[id]);
      assert id in ProcessChunk(s, c).0.tree;
      ProcessFrame(s, c, id);
      ProcessScalars(s, c);
    }
  }

  lemma {:induction false} SweepStays(s: State, pending: seq<nat>, i: nat)
    requires forall j :: 0 <= j < |pending| ==> pending[j] < |s.entries|
    requires i < |s.entries| && !TimedOut(s, i)
    ensures Behind(Sweep(s, pending).used, i) <= Behind(s.used, i)
    decreases |pending|
  {
    if pending != [] {
      if TimedOut(s, pending[0]) {
        BehindWithout(s.used, pending[0], i);
        SweepStays(FreeFrame(s, pending[0]), pending[1..], i);
      } else {
        SweepStays(s, pending[1..], i);
      }
    }
  }

  lemma TickStays(s: State, id: u16)
    requires Inv(s) && id in s.tree && s.tree[id] < |s.entries| && !TimedOut(s, s.tree[id])
    ensures Behind(Tick(s).used, s.tree[id]) <= Behind(s.used, s.tree[id])
  {
    hide Inv, Behind, Sweep, MinTime;
    if s.time == MAX_TIME {
      UsedList(s);
      SweepKeeps(s, s.used);
      SweepStays(s, s.used, s.tree[id]);
    }
  }

  /** A piece taken in has just been written to; the first one is behind all others. */
  lemma PieceStays(s: State, c: Chunk, behind: nat, age: nat)
    requires Inv(s) && InBounds(s, c) && c.id in ProcessChunk(s, c).0.tree && Inv(ProcessChunk(s, c).0)
    requires c.id in s.tree ==> Kept(s, c.id, behind, age) && !TimedOut(s, s.tree[c.id])
    ensures Kept(ProcessChunk(s, c).0, c.id, if c.id in s.tree then behind else 0, 0)
    ensures |ProcessChunk(s, c).0.entries| == |s.entries|
  {
    hide Inv, Without, Behind, TakeFree, Overwrite, Accepts, Complete, Oldest;
    var l, r := Locate(s, c.id), ProcessChunk(s, c).0;
    LocateKeeps(s, c.id);
    TreeEntry(l, c.id);
    InTolerance(s);
    InTolerance(r);
    ProcessScalars(s, c);
    if c.id !in s.tree { NewLast(s, c.id); }
    TakeWrites(l, c);
  }

  /** A chunk after which the frame is still held was written to its entry, in its place. */
  lemma TakeWrites(s: State, c: Chunk)
    requires Inv(s) && InBounds(s, c) && c.id in s.tree && c.id in TakeChunk(s, c).0.tree
    ensures var r := TakeChunk(s, c).0;
            && r.used == s.used && r.tree == s.tree && r.time == s.time && |r.entries| == |s.entries|
            && r.tree[c.id] < |r.entries| && r.entries[r.tree[c.id]].time == s.time
  {
    hide Inv, Without, Overwrite, Accepts, Complete;
    TreeEntry(s, c.id);
    InRange(s);
  }

  lemma NewLast(s: State, id: u16)
    requires Inv(s) && id !in s.tree
    ensures var r := AllocateNewFrame(s, id); id in r.tree && Behind(r.used, r.tree[id]) == 0
  {
    hide Inv, NoDup, Without, Behind;
    InTolerance(s);
    var f := if s.free == [] then FreeFrame(s, Oldest(s)) else s;
    if s.free == [] { FreeKeepsTables(s, Oldest(s)); }
    FirstFree(f);
    BehindLast(f.used, f.free[0]);
  }

  lemma FirstFree(s: State)
    requires Tables(s) && s.free != []
    ensures s.free[0] !in s.used
  {
    assert s.free[0] in s.free;
  }

  // ----- order independence, by what is seen on the wire

  /** The run brings pieces of the frame from `left`, each at most once, and no other chunk with
      its id. While some pieces have come and others have not, at most `frames` packets end
      between two of them, and chunks of other frames come fewer than `frames` times in all. */
  ghost predicate Undisturbed(es: seq<Event>, ps: seq<Chunk>, id: u16, left: set<Chunk>, ends: nat, others: nat, frames: nat)
    decreases |es|
  {
    es != [] ==>
      var begun := left != Pieces(ps) && left != {};
      if IsPiece(es[0], id) then
        && es[0].chunk in left
        && Undisturbed(es[1..], ps, id, left - {es[0].chunk}, 0, if begun then others else 0, frames)
      else if es[0].Got? then
        (begun ==> others + 1 < frames) && Undisturbed(es[1..], ps, id, left, ends, others + 1, frames)
      else
        (begun ==> ends < frames) && Undisturbed(es[1..], ps, id, left, ends + 1, others, frames)
  }

  lemma {:induction false} InTimeDelivers(s: State, es: seq<Event>, ps: seq<Chunk>, id: u16, frame: seq<byte>,
                                          left: set<Chunk>, ends: nat, others: nat)
    requires Inv(s) && Partition(ps, id, frame) && |ps| <= s.numChunks && |frame| <= s.mtu && left <= Pieces(ps)
    requires Undisturbed(es, ps, id, left, ends, others, |s.entries|)
    requires left == Pieces(ps) ==> id !in s.tree
    requires left != Pieces(ps) && left != {} ==>
               Waiting(s, ps, id, frame, left) && Kept(s, id, others, ends) && ends <= |s.entries|
    ensures Delivering(s, es, ps, id, left)
    decreases |es|
  {
    hide ProcessChunk, Tick, Inv, Partition, Waiting, Pieces, Behind;
    if es != [] {
      var e, rest, begun := es[0], es[1..], left != Pieces(ps) && left != {};
      StepKeeps(s, e);
      InTolerance(s);
      var t := Step(s, e).0;
      if IsPiece(e, id) {
        var c := e.chunk;
        PieceInBounds(s, ps, id, frame, c);
        PieceArrives(s, ps, id, frame, left, c);
        ProcessScalars(s, c);
        InTolerance(t);
        if left - {c} != {} {
          StillHeld(t, ps, id, frame, left - {c});
          PieceStays(s, c, others, ends);
        }
        assert c in left && left - {c} != Pieces(ps);
        InTimeDelivers(t, rest, ps, id, frame, left - {c}, 0, if begun then others else 0);
      } else {
        OtherEvent(s, e, ps, id, frame, left);
        SameTable(s, e);
        if begun { OtherStays(s, e, id, others, ends); }
        InTimeDelivers(t, rest, ps, id, frame, left, if e.Got? then ends else ends + 1, if e.Got? then others + 1 else others);
      }
    }
  }

  lemma SameTable(s: State, e: Event)
    requires Inv(s)
    ensures |Step(s, e).0.entries| == |s.entries|
  {
    StepKeeps(s, e);
    InTolerance(s);
    InTolerance(Step(s, e).0);
    match e
    case Got(c) => ProcessScalars(s, c);
    case EndOfPacket => TickKeeps(s);
  }

  lemma StillHeld(s: State, ps: seq<Chunk>, id: u16, frame: seq<byte>, left: set<Chunk>)
    requires Inv(s) && Waiting(s, ps, id, frame, left)
    ensures id in s.tree
  {
  }

  lemma PieceInBounds(s: State, ps: seq<Chunk>, id: u16, frame: seq<byte>, c: Chunk)
    requires Partition(ps, id, frame) && c in Pieces(ps) && |frame| <= s.mtu
    ensures InBounds(s, c) && c.id == id
  {
  }

  /** Order independence by what is seen on the wire: pieces that each come once, in any order,
      with at most as many packets ending between two of them as the assembler has entries,
      and fewer chunks of other frames among them than that, make up the frame exactly once. */
  lemma AnyOrderInTime(s: State, es: seq<Event>, ps: seq<Chunk>, id: u16, frame: seq<byte>)
    requires Inv(s) && Partition(ps, id, frame) && |ps| <= s.numChunks && |frame| <= s.mtu && id !in s.tree
    requires Undisturbed(es, ps, id, Pieces(ps), 0, 0, |s.entries|)
    ensures Frames(Run(s, es).1, id) == if Missing(es, id, Pieces(ps)) == {} then [frame] else []
  {
    hide Inv, Undisturbed, Delivering, Run, Missing;
    SomePiece(ps, id, frame);
    InTimeDelivers(s, es, ps, id, frame, Pieces(ps), 0, 0);
    AnyOrder(s, es, ps, id, frame, Pieces(ps));
  }

  lemma SomePiece(ps: seq<Chunk>, id: u16, frame: seq<byte>)
    requires Partition(ps, id, frame)
    ensures Pieces(ps) != {}
  {
    assert ps[0] in Pieces(ps);
  }

  /** One packet more is too late: a chunk that finds the frame not written to for longer starts
      it anew, without the chunks that came before. */
  lemma TooLate(s: State, c: Chunk)
    requires Inv(s) && InBounds(s, c) && c.id in s.tree && s.tree[c.id] < |s.entries| && Age(s, s.tree[c.id]) > |s.entries|
    ensures var r := ProcessChunk(s, c);
            && (r.1.Some? ==> c.last && r.1.value.data == c.data && c.start == 0)
            && (c.id in r.0.tree && r.0.tree[c.id] < |r.0.entries| ==> r.0.entries[r.0.tree[c.id]].chunks == [Span(c.start, |c.data|)])
  {
    hide Inv, AllocateNewFrame, Overlap;
    InTolerance(s);
    LocateKeeps(s, c.id);
    var l := Locate(s, c.id);
    TreeEntry(l, c.id);
    InRange(l);
    SizeOf(l, l.tree[c.id]);
    assert [] + [Span(c.start, |c.data|)] == [Span(c.start, |c.data|)];
  }

  lemma SizeOf(s: State, i: nat)
    requires Inv(s) && i < |s.entries|
    ensures i < |s.bufs| && |s.bufs[i]| == s.mtu
  {
  }
}
