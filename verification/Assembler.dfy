/** Reassembly of frames from chunks, client/FragmentProtoAssembler.c, as a state machine
    over chunks and ends of packets, and what every step keeps. */
module Assembler {
  import opened Wrappers
  import opened Lists
  import opened FragmentProto

  const MAX_TIME: nat := 0xFFFF_FFFF

  datatype Span = Span(start: nat, len: nat)
  {
    function End(): nat { start + len }
  }

  /** A frame table entry; `length` is -1 until the last chunk is seen. */
  datatype Entry = Entry(id: u16, time: nat, chunks: seq<Span>, sum: nat, length: int, lengthSoFar: nat)

  datatype State = State(
    mtu: nat,
    numChunks: nat,
    tolerance: nat,
    time: nat,
    entries: seq<Entry>,
    bufs: seq<seq<byte>>,
    free: seq<nat>,
    used: seq<nat>,
    tree: map<u16, nat>)

  datatype Delivered = Delivered(id: u16, data: seq<byte>)

  // ----- spans and the counting argument

  predicate Overlap(a: Span, b: Span) {
    a.End() > b.start && b.End() > a.start
  }

  predicate Disjoint(cs: seq<Span>) {
    forall i, j :: 0 <= i < j < |cs| ==> !Overlap(cs[i], cs[j])
  }

  function Total(cs: seq<Span>): nat {
    if cs == [] then 0 else Total(cs[..|cs| - 1]) + cs[|cs| - 1].len
  }

  function Positions(start: nat, len: nat): (ps: set<int>)
    ensures forall p :: p in ps <==> start <= p < start + len
    ensures |ps| == len
    decreases len
  {
    if len == 0 then {} else Positions(start, len - 1) + {start + len - 1}
  }

  function Covered(cs: seq<Span>): set<int> {
    if cs == [] then {} else Covered(cs[..|cs| - 1]) + Positions(cs[|cs| - 1].start, cs[|cs| - 1].len)
  }

  lemma {:induction false} InCovered(cs: seq<Span>, p: int)
    ensures p in Covered(cs) <==> exists i :: 0 <= i < |cs| && cs[i].start <= p < cs[i].End()
  {
    if cs != [] {
      var init := cs[..|cs| - 1];
      InCovered(init, p);
      assert forall i :: 0 <= i < |init| ==> init[i] == cs[i];
    }
  }

  lemma {:induction false} CoveredSize(cs: seq<Span>)
    requires Disjoint(cs)
    ensures |Covered(cs)| == Total(cs)
  {
    if cs != [] {
      var init, c := cs[..|cs| - 1], cs[|cs| - 1];
      CoveredSize(init);
      forall p | p in Covered(init) ensures p !in Positions(c.start, c.len) { InCovered(init, p); }
    }
  }

  /** Disjoint spans below `n` of total length `n` leave no byte out. */
  lemma Tiling(cs: seq<Span>, n: nat)
    requires Disjoint(cs) && (forall c :: c in cs ==> c.End() <= n)
    ensures Total(cs) <= n
    ensures Total(cs) == n <==> forall p :: 0 <= p < n ==> p in Covered(cs)
  {
    var all := Positions(0, n);
    CoveredSize(cs);
    var got := Covered(cs);
    forall p | p in got ensures p in all { InCovered(cs, p); }
    hide Covered, Total, Disjoint;
    SubsetSize(got, all);
    if forall p :: 0 <= p < n ==> p in got {
      assert all <= got;
      assert got == all;
    }
  }

  lemma {:induction false} SubsetSize(a: set<int>, b: set<int>)
    requires a <= b
    ensures |a| <= |b| && (|a| == |b| ==> a == b)
  {
    var c := b - a;
    assert b == a + c;
  }

  // ----- the frame table

  function FreeFrame(s: State, i: nat): State
    requires i < |s.entries|
  {
    s.(used := Without(s.used, i), tree := s.tree - {s.entries[i].id}, free := s.free + [i])
  }

  function AllocateNewFrame(s: State, id: u16): State
    requires Tables(s)
  {
    if s.free == [] then
      FreeKeepsTables(s, Oldest(s));
      TakeFree(FreeFrame(s, Oldest(s)), id)
    else TakeFree(s, id)
  }

  function TakeFree(s: State, id: u16): State
    requires Tables(s) && s.free != []
  {
    var i := s.free[0];
    assert i in s.free;
    s.(free := s.free[1..], used := s.used + [i], tree := s.tree[id := i],
       entries := s.entries[i := Entry(id, s.time, [], 0, -1, 0)])
  }

  /** The frame to give up when the table is full: the one allocated first. */
  function Oldest(s: State): (i: nat)
    requires Tables(s) && s.free == []
    ensures i in s.used && i < |s.entries|
  {
    assert 0 in s.used || 0 in s.free;
    s.used[0]
  }

  predicate TimedOut(s: State, i: nat)
    requires i < |s.entries|
  {
    s.time - s.entries[i].time > s.tolerance
  }

  /** The lists split the table, and the tree finds each used entry by its id. */
  ghost predicate Tables(s: State) {
    && |s.entries| == |s.bufs| == s.tolerance && 0 < s.tolerance < MAX_TIME && s.time <= MAX_TIME
    && (forall i :: 0 <= i < |s.bufs| ==> |s.bufs[i]| == s.mtu)
    && NoDup(s.used) && NoDup(s.free)
    && (forall i :: 0 <= i < |s.entries| ==> (i in s.used <==> i !in s.free))
    && (forall i :: i in s.used ==> i < |s.entries|)
    && (forall i :: i in s.free ==> i < |s.entries|)
    && (forall i :: i in s.used ==> s.entries[i].id in s.tree && s.tree[s.entries[i].id] == i)
    && (forall k :: k in s.tree ==> s.tree[k] in s.used && s.entries[s.tree[k]].id == k)
  }

  predicate Complete(e: Entry) {
    e.length >= 0 && e.sum >= e.length
  }

  /** A used entry: room for a chunk, disjoint chunks in bounds, sums and bounds exact. */
  ghost predicate WellFormed(s: State, e: Entry) {
    && |e.chunks| < s.numChunks && Disjoint(e.chunks) && e.sum == Total(e.chunks) && e.time <= s.time
    && -1 <= e.length <= s.mtu && !Complete(e)
    && (forall c :: c in e.chunks ==> c.End() <= (if e.length < 0 then e.lengthSoFar else e.length))
    && e.lengthSoFar <= s.mtu
  }

  ghost predicate Inv(s: State) {
    Tables(s) && 0 < s.numChunks && forall i :: i in s.used ==> WellFormed(s, s.entries[i])
  }

  // ----- one chunk

  predicate InBounds(s: State, c: Chunk) {
    c.start <= s.mtu && |c.data| <= s.mtu - c.start
  }

  /** The state with an entry for `id`: the live one if there is one, else a new one. */
  function Locate(s: State, id: u16): State
    requires Inv(s)
  {
    if id !in s.tree then AllocateNewFrame(s, id)
    else if TimedOut(s, s.tree[id]) then
      FreeKeepsTables(s, s.tree[id]);
      AllocateNewFrame(FreeFrame(s, s.tree[id]), id)
    else s
  }

  predicate Accepts(e: Entry, c: Chunk) {
    && (forall i :: 0 <= i < |e.chunks| ==> !Overlap(e.chunks[i], Span(c.start, |c.data|)))
    && (if c.last then e.length < 0 && e.lengthSoFar <= c.End()
        else e.length < 0 || c.End() <= e.length)
  }

  function AddChunk(e: Entry, c: Chunk, time: nat): Entry {
    e.(time := time, chunks := e.chunks + [Span(c.start, |c.data|)], sum := e.sum + |c.data|,
       length := if c.last then c.End() else e.length,
       lengthSoFar := if !c.last && e.length < 0 && e.lengthSoFar < c.End() then c.End() else e.lengthSoFar)
  }

  /** memcpy of `data` into a buffer. */
  function Overwrite(buf: seq<byte>, start: nat, data: seq<byte>): (r: seq<byte>)
    requires start + |data| <= |buf|
    ensures |r| == |buf|
    ensures forall k :: 0 <= k < |buf| ==> r[k] == if start <= k < start + |data| then data[k - start] else buf[k]
  {
    buf[..start] + data + buf[start + |data|..]
  }

  /** The state after an accepted chunk is written, before the entry is kept or freed. */
  function Written(s: State, c: Chunk): State
    requires Inv(s) && InBounds(s, c) && c.id in s.tree
  {
    var i := s.tree[c.id];
    s.(entries := s.entries[i := AddChunk(s.entries[i], c, s.time)],
       bufs := s.bufs[i := Overwrite(s.bufs[i], c.start, c.data)])
  }

  /** What becomes of a chunk for the entry found or made for it. */
  function TakeChunk(s: State, c: Chunk): (State, Option<Delivered>)
    requires Inv(s) && InBounds(s, c) && c.id in s.tree
  {
    var i := s.tree[c.id];
    if !Accepts(s.entries[i], c) then (FreeFrame(s, i), None)
    else
      var t := Written(s, c);
      var e := t.entries[i];
      AddKeeps(s, c);
      if !Complete(e) then (if |e.chunks| == s.numChunks then FreeFrame(t, i) else t, None)
      else (FreeFrame(t, i), Some(Delivered(c.id, t.bufs[i][..e.length])))
  }

  function ProcessChunk(s: State, c: Chunk): (State, Option<Delivered>)
    requires Inv(s)
  {
    if !InBounds(s, c) then (s, None)
    else
      LocateKeeps(s, c.id);
      TakeChunk(Locate(s, c.id), c)
  }

  lemma FreeKeepsTables(s: State, i: nat)
    requires Tables(s) && i in s.used
    ensures Tables(FreeFrame(s, i)) && s.entries[i].id !in FreeFrame(s, i).tree
  {
  }

  lemma TakeKeepsTables(s: State, id: u16)
    requires Tables(s) && id !in s.tree && s.free != []
    ensures Tables(TakeFree(s, id))
  {
    var i, r := s.free[0], TakeFree(s, id);
    assert s.free == [i] + r.free;
    assert i !in s.used && i !in r.free;
    assert forall j :: j in r.used <==> j in s.used || j == i;
    assert forall j :: j in s.free <==> j in r.free || j == i;
  }

  lemma AllocateKeepsTables(s: State, id: u16)
    requires Tables(s) && id !in s.tree
    ensures var r := AllocateNewFrame(s, id);
            && Tables(r) && id in r.tree && r.entries[r.tree[id]] == Entry(id, s.time, [], 0, -1, 0)
            && (forall k :: k in r.tree && k != id ==>
                  k in s.tree && r.tree[k] == s.tree[k] && r.entries[r.tree[k]] == s.entries[s.tree[k]])
            && r == s.(entries := r.entries, free := r.free, used := r.used, tree := r.tree)
  {
    hide NoDup, Without;
    var f := if s.free == [] then FreeFrame(s, Oldest(s)) else s;
    if s.free == [] { FreeKeepsTables(s, Oldest(s)); }
    TakeKeepsTables(f, id);
    assert f.free[0] !in f.used;
  }

  lemma NewEntry(s: State, id: u16, time: nat)
    requires 0 < s.numChunks && time <= s.time
    ensures WellFormed(s, Entry(id, time, [], 0, -1, 0))
  {
  }

  lemma AllocateKeeps(s: State, id: u16)
    requires Inv(s) && id !in s.tree
    ensures Inv(AllocateNewFrame(s, id))
  {
    hide AllocateNewFrame, NoDup, Disjoint, Total, Complete;
    AllocateKeepsTables(s, id);
    var r := AllocateNewFrame(s, id);
    NewEntry(r, id, s.time);
    forall i | i in r.used ensures WellFormed(r, r.entries[i]) {
      var k := r.entries[i].id;
      assert r.tree[k] == i;
      assert k != id ==> WellFormed(s, s.entries[s.tree[k]]);
    }
  }

  /** After the lookup the frame has an entry that is not timed out, and no other frame is
      touched, though one may have been given up. */
  lemma LocateKeeps(s: State, id: u16)
    requires Inv(s)
    ensures var r := Locate(s, id);
            && Inv(r) && id in r.tree
            && r == s.(entries := r.entries, free := r.free, used := r.used, tree := r.tree)
            && !TimedOut(r, r.tree[id])
            && (id in s.tree && !TimedOut(s, s.tree[id]) ==> r == s)
            && (id !in s.tree || TimedOut(s, s.tree[id]) ==>
                  r.entries[r.tree[id]] == Entry(id, s.time, [], 0, -1, 0))
            && (forall k :: k in r.tree && k != id ==>
                  k in s.tree && r.tree[k] == s.tree[k] && r.entries[r.tree[k]] == s.entries[s.tree[k]])
  {
    hide AllocateNewFrame, NoDup;
    if id !in s.tree {
      AllocateKeepsTables(s, id);
      AllocateKeeps(s, id);
    } else if TimedOut(s, s.tree[id]) {
      FreeKeeps(s, s.tree[id]);
      AllocateKeepsTables(FreeFrame(s, s.tree[id]), id);
      AllocateKeeps(FreeFrame(s, s.tree[id]), id);
    }
  }

  lemma FreeKeeps(s: State, i: nat)
    requires Inv(s) && i in s.used
    ensures Inv(FreeFrame(s, i))
    ensures FreeFrame(s, i).tree == s.tree - {s.entries[i].id}
  {
    FreeKeepsTables(s, i);
  }

  /** A chunk that is accepted keeps the entry well formed, or completes it, and then the
      lengths add up to the frame's exactly. */
  lemma AddKeeps(s: State, c: Chunk)
    requires Inv(s) && InBounds(s, c) && c.id in s.tree && Accepts(s.entries[s.tree[c.id]], c)
    ensures var e := AddChunk(s.entries[s.tree[c.id]], c, s.time);
            && Disjoint(e.chunks) && e.sum == Total(e.chunks) && -1 <= e.length <= s.mtu
            && (forall b :: b in e.chunks ==> b.End() <= (if e.length < 0 then e.lengthSoFar else e.length))
            && e.lengthSoFar <= s.mtu
            && (Complete(e) ==> e.sum == e.length)
  {
    var old_ := s.entries[s.tree[c.id]];
    var e := AddChunk(old_, c, s.time);
    assert e.chunks[..|e.chunks| - 1] == old_.chunks;
    if e.length >= 0 { Tiling(e.chunks, e.length); }
  }

  lemma WrittenKeeps(s: State, c: Chunk)
    requires Inv(s) && InBounds(s, c) && c.id in s.tree && Accepts(s.entries[s.tree[c.id]], c)
    ensures var t := Written(s, c); var i := s.tree[c.id];
            && Tables(t) && i in t.used
            && (forall j :: j in t.used && j != i ==> WellFormed(t, t.entries[j]))
            && (!Complete(t.entries[i]) && |t.entries[i].chunks| < s.numChunks ==> Inv(t))
            && Inv(FreeFrame(t, i))
  {
    AddKeeps(s, c);
    WrittenTables(s, c);
    var t, i := Written(s, c), s.tree[c.id];
    hide Disjoint, Total, Accepts, Overwrite, Tables;
    FreeKeepsTables(t, i);
    forall j | j in t.used && j != i ensures WellFormed(t, t.entries[j]) {
      assert WellFormed(s, s.entries[j]);
    }
  }

  lemma WrittenTables(s: State, c: Chunk)
    requires Inv(s) && InBounds(s, c) && c.id in s.tree
    ensures Tables(Written(s, c)) && s.tree[c.id] in s.used
    ensures forall j :: j in s.used ==> j < |s.entries|
  {
    hide NoDup, WellFormed;
  }

  /** Every chunk keeps the invariant. */
  lemma ProcessKeeps(s: State, c: Chunk)
    requires Inv(s)
    ensures Inv(ProcessChunk(s, c).0)
  {
    hide Locate, TakeChunk, Inv;
    if InBounds(s, c) {
      LocateKeeps(s, c.id);
      TakeKeeps(Locate(s, c.id), c);
    }
  }

  lemma TakeKeeps(s: State, c: Chunk)
    requires Inv(s) && InBounds(s, c) && c.id in s.tree
    ensures Inv(TakeChunk(s, c).0)
  {
    TreeEntry(s, c.id);
    hide Accepts, WellFormed, Tables;
    if Accepts(s.entries[s.tree[c.id]], c) {
      WrittenKeeps(s, c);
    } else {
      FreeKeeps(s, s.tree[c.id]);
    }
  }

  /** A chunk of one frame leaves every other frame that survives it alone. */
  lemma ProcessFrame(s: State, c: Chunk, k: u16)
    requires Inv(s) && k != c.id && k in ProcessChunk(s, c).0.tree
    ensures Untouched(s, ProcessChunk(s, c).0, k)
  {
    hide Inv, Locate, Accepts, AddChunk, Complete, Overwrite, Without;
    InRange(s);
    if InBounds(s, c) {
      LocateKeeps(s, c.id);
      var r := Locate(s, c.id);
      InRange(r);
      TreeEntry(r, c.id);
      assert k in r.tree;
      TreeEntry(r, k);
    } else {
      TreeEntry(s, k);
    }
  }

  /** The entry of a chunk's frame stays where it is, or is freed. */
  lemma TakeStays(s: State, c: Chunk)
    requires Inv(s) && InBounds(s, c) && c.id in s.tree
    ensures var r := TakeChunk(s, c).0;
            || (r.used == s.used && r.tree == s.tree)
            || (r.used == Without(s.used, s.tree[c.id]) && r.tree == s.tree - {c.id})
  {
    hide Inv, Without, Accepts, Complete, Overwrite;
    TreeEntry(s, c.id);
    InRange(s);
  }

  /** A chunk of a live frame does not move it in the order of allocation; a chunk of an
      unknown frame that finds the table full makes the frame first in that order go, whenever
      it was updated last, and no other. */
  lemma FirstAllocatedGoes(s: State, c: Chunk)
    requires Inv(s) && InBounds(s, c)
    ensures var r := ProcessChunk(s, c).0;
            && (c.id in s.tree && !TimedOut(s, s.tree[c.id]) ==>
                  r.used == s.used || (c.id !in r.tree && r.used == Without(s.used, s.tree[c.id])))
            && (c.id !in s.tree && s.free == [] ==>
                  && s.used != [] && s.used[0] < |s.entries|
                  && s.entries[s.used[0]].id in s.tree
                  && r.tree.Keys - {c.id} == s.tree.Keys - {s.entries[s.used[0]].id})
  {
    hide Inv, Without, TakeChunk, TakeFree;
    LocateKeeps(s, c.id);
    TakeStays(Locate(s, c.id), c);
    if c.id !in s.tree && s.free == [] {
      FullMakesRoom(s, c.id);
    }
  }

  lemma FullMakesRoom(s: State, id: u16)
    requires Inv(s) && id !in s.tree && s.free == []
    ensures s.used != [] && s.used[0] < |s.entries| && s.entries[s.used[0]].id in s.tree
    ensures AllocateNewFrame(s, id).tree.Keys == s.tree.Keys - {s.entries[s.used[0]].id} + {id}
  {
    hide WellFormed, NoDup;
    var i := Oldest(s);
    assert s.used != [] && i == s.used[0];
  }

  lemma InRange(s: State)
    requires Inv(s)
    ensures |s.entries| == |s.bufs|
  {
  }

  lemma ProcessScalars(s: State, c: Chunk)
    requires Inv(s)
    ensures var r := ProcessChunk(s, c).0;
            r.mtu == s.mtu && r.numChunks == s.numChunks && r.tolerance == s.tolerance && r.time == s.time
  {
    if InBounds(s, c) { LocateKeeps(s, c.id); }
  }

  ghost predicate Untouched(s: State, r: State, k: u16)
  {
    && k in s.tree && k in r.tree && r.tree[k] == s.tree[k]
    && s.tree[k] < |s.entries| == |r.entries| == |s.bufs| == |r.bufs|
    && r.entries[s.tree[k]] == s.entries[s.tree[k]] && r.bufs[s.tree[k]] == s.bufs[s.tree[k]]
  }

  // ----- the packet clock

  /** reduce_times, first loop: frees the timed-out frames of the list. */
  function Sweep(s: State, pending: seq<nat>): State
    requires forall j :: 0 <= j < |pending| ==> pending[j] < |s.entries|
    decreases |pending|
  {
    if pending == [] then s
    else if TimedOut(s, pending[0]) then Sweep(FreeFrame(s, pending[0]), pending[1..])
    else Sweep(s, pending[1..])
  }

  function MinTime(entries: seq<Entry>, used: seq<nat>): (m: nat)
    requires used != [] && forall j :: 0 <= j < |used| ==> used[j] < |entries|
    ensures exists j :: 0 <= j < |used| && m == entries[used[j]].time
    ensures forall j :: 0 <= j < |used| ==> m <= entries[used[j]].time
  {
    var t := entries[used[0]].time;
    if |used| == 1 then t
    else
      var rest := MinTime(entries, used[1..]);
      if rest < t then rest else t
  }

  function Subtracted(s: State, m: nat): State
    requires m <= s.time && forall i :: 0 <= i < |s.entries| && i in s.used ==> m <= s.entries[i].time
  {
    s.(time := s.time - m,
       entries := seq(|s.entries|, i requires 0 <= i < |s.entries| =>
         if i in s.used then s.entries[i].(time := s.entries[i].time - m) else s.entries[i]))
  }

  function ReduceTimes(s: State): State
    requires Inv(s)
  {
    assert forall j :: 0 <= j < |s.used| ==> s.used[j] in s.used;
    SweepKeeps(s, s.used);
    var r := Sweep(s, s.used);
    if r.used == [] then r.(time := 0)
    else
      MinTimeSound(r);
      Subtracted(r, MinTime(r.entries, r.used))
  }

  lemma MinTimeSound(s: State)
    requires Inv(s) && s.used != []
    ensures forall j :: 0 <= j < |s.used| ==> s.used[j] < |s.entries|
    ensures var m := MinTime(s.entries, s.used);
            && m <= s.time && (exists i :: 0 <= i < |s.entries| && i in s.used && m == s.entries[i].time)
            && forall i :: 0 <= i < |s.entries| && i in s.used ==> m <= s.entries[i].time
  {
    assert forall j :: 0 <= j < |s.used| ==> s.used[j] in s.used;
    var m := MinTime(s.entries, s.used);
    var j :| 0 <= j < |s.used| && m == s.entries[s.used[j]].time;
    assert s.used[j] in s.used && WellFormed(s, s.entries[s.used[j]]);
    hide Tables, MinTime;
    forall i | 0 <= i < |s.entries| && i in s.used ensures m <= s.entries[i].time {
      var k :| 0 <= k < |s.used| && s.used[k] == i;
    }
  }

  /** The end of a packet. */
  function Tick(s: State): State
    requires Inv(s)
  {
    if s.time == MAX_TIME then
      var r := ReduceTimes(s);
      if r.used != [] then r.(time := r.time + 1) else r
    else s.(time := s.time + 1)
  }

  lemma {:induction false} SweepKeeps(s: State, pending: seq<nat>)
    requires Inv(s) && NoDup(pending) && forall j :: 0 <= j < |pending| ==> pending[j] in s.used && pending[j] < |s.entries|
    ensures var r := Sweep(s, pending);
            && Inv(r) && r == s.(free := r.free, used := r.used, tree := r.tree)
            && (forall i :: 0 <= i < |s.entries| ==> (i in r.used <==> i in s.used && !(i in pending && TimedOut(s, i))))
    decreases |pending|
  {
    if pending != [] {
      var i := pending[0];
      assert NoDup(pending[1..]) && i !in pending[1..];
      assert pending == [i] + pending[1..];
      if TimedOut(s, i) {
        FreeKeeps(s, i);
        hide Inv, NoDup, Without;
        SweepKeeps(FreeFrame(s, i), pending[1..]);
      } else {
        hide Inv, NoDup, FreeFrame;
        SweepKeeps(s, pending[1..]);
      }
    }
  }

  /** How long ago, in packets, the entry was last written to. */
  function Age(s: State, i: nat): int
    requires i < |s.entries|
  {
    s.time - s.entries[i].time
  }

  lemma SubtractedKeeps(s: State, m: nat)
    requires Inv(s) && m <= s.time && forall i :: 0 <= i < |s.entries| && i in s.used ==> m <= s.entries[i].time
    ensures var r := Subtracted(s, m);
            && Inv(r) && r == s.(time := s.time - m, entries := r.entries) && |r.entries| == |s.entries|
            && (forall i :: 0 <= i < |s.entries| && i in s.used ==>
                  Age(r, i) == Age(s, i) && r.entries[i] == s.entries[i].(time := r.entries[i].time))
  {
    var r := Subtracted(s, m);
    forall i | i in r.used ensures WellFormed(r, r.entries[i]) {
      assert WellFormed(s, s.entries[i]);
      hide Disjoint, Total;
    }
    hide WellFormed, NoDup;
    assert Tables(r);
  }

  /** Renormalising the packet clock removes exactly the timed-out frames, keeps the age and
      the contents of every other, and lowers the clock below its maximum; with no frame
      left the clock restarts at zero. */
  lemma ReduceTimesInvisible(s: State)
    requires Inv(s) && s.time == MAX_TIME
    ensures var r := ReduceTimes(s);
            && Inv(r) && |r.entries| == |s.entries|
            && (forall i :: 0 <= i < |s.entries| ==> (i in r.used <==> i in s.used && !TimedOut(s, i)))
            && (forall i :: 0 <= i < |s.entries| && i in r.used ==>
                  Age(r, i) == Age(s, i) && r.entries[i] == s.entries[i].(time := r.entries[i].time))
            && (if r.used == [] then r.time == 0 else r.time < s.time)
            && r == s.(time := r.time, entries := r.entries, free := r.free, used := r.used, tree := r.tree)
  {
    hide Inv, Sweep, MinTime, Subtracted;
    UsedList(s);
    SweepKeeps(s, s.used);
    var w := Sweep(s, s.used);
    if w.used != [] {
      MinTimeSound(w);
      var m := MinTime(w.entries, w.used);
      SubtractedKeeps(w, m);
      var i :| 0 <= i < |w.entries| && i in w.used && m == w.entries[i].time;
      assert !TimedOut(s, i);
    } else {
      RestartKeeps(w);
    }
  }

  lemma RestartKeeps(s: State)
    requires Inv(s) && s.used == []
    ensures Inv(s.(time := 0))
  {
    hide NoDup;
  }

  lemma UsedList(s: State)
    requires Inv(s)
    ensures NoDup(s.used) && 0 < s.tolerance < MAX_TIME
    ensures forall j :: 0 <= j < |s.used| ==> s.used[j] in s.used && s.used[j] < |s.entries|
  {
    assert forall j :: 0 <= j < |s.used| ==> s.used[j] in s.used;
  }

  /** An id of the tree names a used entry with that id, and the other way round. */
  lemma TreeEntry(s: State, k: u16)
    requires Inv(s) && k in s.tree
    ensures s.tree[k] in s.used && s.tree[k] < |s.entries| && s.entries[s.tree[k]].id == k
  {
  }

  lemma UsedEntry(s: State, i: nat)
    requires Inv(s) && i in s.used
    ensures i < |s.entries| && s.entries[i].id in s.tree && s.tree[s.entries[i].id] == i
  {
  }

  /** Frame `k` is still in place in `r`, at most its time changed, and aged by `aged`. */
  ghost predicate Survived(s: State, r: State, k: u16, aged: int) {
    && k in s.tree && k in r.tree && r.tree[k] == s.tree[k] && s.tree[k] < |s.entries| == |r.entries|
    && Age(r, r.tree[k]) == Age(s, s.tree[k]) + aged
    && r.entries[r.tree[k]] == s.entries[s.tree[k]].(time := r.entries[r.tree[k]].time)
  }

  lemma ReducedFrame(s: State, k: u16)
    requires Inv(s) && s.time == MAX_TIME && Inv(ReduceTimes(s))
    ensures k in ReduceTimes(s).tree ==> Survived(s, ReduceTimes(s), k, 0)
    ensures k in s.tree && s.tree[k] < |s.entries| && !TimedOut(s, s.tree[k]) ==> k in ReduceTimes(s).tree
  {
    hide ReduceTimes, Inv;
    ReduceTimesInvisible(s);
    var r := ReduceTimes(s);
    if k in r.tree {
      TreeEntry(r, k);
      UsedEntry(s, r.tree[k]);
    }
    if k in s.tree {
      TreeEntry(s, k);
      if !TimedOut(s, s.tree[k]) { UsedEntry(r, s.tree[k]); }
    }
  }

  /** The end of a packet ages every surviving frame by one and frees only timed-out ones. */
  lemma TickKeeps(s: State)
    requires Inv(s)
    ensures var r := Tick(s);
            && Inv(r)
            && r == s.(time := r.time, entries := r.entries, free := r.free, used := r.used, tree := r.tree)
            && (forall k :: k in r.tree ==> Survived(s, r, k, 1))
            && (forall k :: k in s.tree && s.tree[k] < |s.entries| && !TimedOut(s, s.tree[k]) ==> k in r.tree)
  {
    hide ReduceTimes, Inv;
    if s.time == MAX_TIME {
      ReduceTimesInvisible(s);
      var r := ReduceTimes(s);
      TickPlain(r);
      NoneUsed(r);
      forall k ensures k in r.tree ==> Survived(s, r, k, 0)
               ensures k in s.tree && s.tree[k] < |s.entries| && !TimedOut(s, s.tree[k]) ==> k in r.tree
      {
        ReducedFrame(s, k);
      }
    } else {
      TickPlain(s);
      InTime(s);
    }
  }

  lemma NoneUsed(s: State)
    requires Inv(s)
    ensures s.used == [] ==> s.tree == map[]
    ensures s.used != [] ==> s.tree.Keys != {}
  {
    if s.used != [] { UsedEntry(s, s.used[0]); }
  }

  lemma InTolerance(s: State)
    requires Inv(s)
    ensures 0 < s.tolerance == |s.entries| == |s.bufs| && Tables(s)
  {
  }

  lemma InTime(s: State)
    requires Inv(s)
    ensures s.time <= MAX_TIME
  {
  }

  lemma TickPlain(s: State)
    requires Inv(s)
    ensures s.time < MAX_TIME ==> Inv(s.(time := s.time + 1))
    ensures forall k :: k in s.tree ==> Survived(s, s.(time := s.time + 1), k, 1)
  {
    hide NoDup, Disjoint, Total;
  }

  // ----- whole packets

  /** All the chunks of a packet in order, and the frames they complete. */
  function Chunks(s: State, cs: seq<Chunk>): (State, seq<Delivered>)
    requires Inv(s)
    decreases |cs|
  {
    if cs == [] then (s, [])
    else
      ProcessKeeps(s, cs[0]);
      var r := ProcessChunk(s, cs[0]);
      var rest := Chunks(r.0, cs[1..]);
      (rest.0, (if r.1.Some? then [r.1.value] else []) + rest.1)
  }

  lemma {:induction false} ChunksKeep(s: State, cs: seq<Chunk>)
    requires Inv(s)
    ensures Inv(Chunks(s, cs).0)
    decreases |cs|
  {
    if cs != [] {
      ProcessKeeps(s, cs[0]);
      ChunksKeep(ProcessChunk(s, cs[0]).0, cs[1..]);
    }
  }

  /** One input packet. */
  function Feed(s: State, packet: seq<byte>): (State, seq<Delivered>)
    requires Inv(s)
  {
    ChunksKeep(s, ParseAll(packet));
    var r := Chunks(s, ParseAll(packet));
    (Tick(r.0), r.1)
  }

  lemma FeedKeeps(s: State, packet: seq<byte>)
    requires Inv(s)
    ensures Inv(Feed(s, packet).0)
  {
    ChunksKeep(s, ParseAll(packet));
    TickKeeps(Chunks(s, ParseAll(packet)).0);
  }
}
