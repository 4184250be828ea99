/** The assembler as client/FragmentProtoAssembler.c keeps it: a table of frame entries and
    buffers updated in place, two lists of table indices, a tree of ids and a read position. */
module AssemblerClass {
  import opened Wrappers
  import opened Lists
  import opened FragmentProto
  import opened Assembler
  import opened AssemblerTheorems

  class FragmentProtoAssembler {
    const outputMtu: nat
    const numChunks: nat
    const timeTolerance: nat
    const framesEntries: array<Entry>
    const framesBuffer: array<seq<byte>>
    var time: nat
    var framesFree: seq<nat>
    var framesUsed: seq<nat>
    var framesUsedTree: map<u16, nat>
    var input: Option<seq<byte>>
    var inPos: nat

    ghost function Now(): State
      reads this, framesEntries, framesBuffer
    {
      State(outputMtu, numChunks, timeTolerance, time, framesEntries[..], framesBuffer[..],
            framesFree, framesUsed, framesUsedTree)
    }

    ghost predicate Valid()
      reads this, framesEntries, framesBuffer
    {
      Inv(Now()) && (input.Some? ==> inPos <= |input.value|)
    }

    constructor (outputMtu: nat, numFrames: nat, numChunks: nat)
      requires 0 < numFrames < MAX_TIME && 0 < numChunks
      ensures Valid() && Initial(Now()) && input.None? && fresh(framesEntries) && fresh(framesBuffer)
      ensures this.outputMtu == outputMtu && this.numChunks == numChunks && timeTolerance == numFrames
    {
      this.outputMtu, this.numChunks, timeTolerance, time := outputMtu, numChunks, numFrames, 0;
      framesEntries := new Entry[numFrames];
      framesBuffer := new seq<byte>[numFrames](_ => seq(outputMtu, _ => 0));
      framesFree, framesUsed, framesUsedTree := seq(numFrames, i => i), [], map[];
      input, inPos := None, 0;
      new;
      InitialInv(Now(), _ => []);
    }

    /** What is left to read of the input packet. */
    function Rest(): seq<byte>
      requires input.Some? && inPos <= |input.value|
      reads this
    {
      input.value[inPos..]
    }

    method FreeFrame(frame: nat)
      requires frame < framesEntries.Length
      modifies this`framesUsed, this`framesUsedTree, this`framesFree
      ensures Now() == Assembler.FreeFrame(old(Now()), frame)
    {
      framesUsed := Without(framesUsed, frame);
      framesUsedTree := framesUsedTree - {framesEntries[frame].id};
      framesFree := framesFree + [frame];
    }

    method AllocateNewFrame(id: u16) returns (frame: nat)
      requires Tables(Now()) && id !in framesUsedTree
      modifies this`framesUsed, this`framesUsedTree, this`framesFree, framesEntries
      ensures Now() == Assembler.AllocateNewFrame(old(Now()), id)
      ensures id in framesUsedTree && frame == framesUsedTree[id]
    {
      if framesFree == [] {
        FreeKeepsTables(Now(), Oldest(Now()));
        FreeFrame(framesUsed[0]);
      }
      frame := framesFree[0];
      assert frame in framesFree;
      framesFree := framesFree[1..];
      framesEntries[frame] := Entry(id, time, [], 0, -1, 0);
      framesUsed := framesUsed + [frame];
      framesUsedTree := framesUsedTree[id := frame];
    }

    /** Looks up the frame, replacing it if it is timed out. */
    method LocateFrame(id: u16) returns (frame: nat)
      requires Inv(Now())
      modifies this`framesUsed, this`framesUsedTree, this`framesFree, framesEntries
      ensures Now() == Locate(old(Now()), id)
      ensures id in framesUsedTree && frame == framesUsedTree[id]
    {
      hide Assembler.AllocateNewFrame, NoDup, WellFormed;
      if id !in framesUsedTree {
        frame := AllocateNewFrame(id);
      } else {
        frame := framesUsedTree[id];
        if time - framesEntries[frame].time > timeTolerance {
          FreeKeepsTables(Now(), frame);
          FreeFrame(frame);
          frame := AllocateNewFrame(id);
        }
      }
    }

    method OverlapsAny(chunks: seq<Span>, c: Span) returns (overlaps: bool)
      ensures overlaps <==> exists i :: 0 <= i < |chunks| && Overlap(chunks[i], c)
    {
      overlaps := false;
      for i := 0 to |chunks|
        invariant forall j :: 0 <= j < i ==> !Overlap(chunks[j], c)
      {
        if Overlap(chunks[i], c) {
          return true;
        }
      }
    }

    /** The checks that fail the frame. */
    method Refuses(e: Entry, c: Chunk) returns (refuses: bool)
      ensures refuses <==> !Accepts(e, c)
    {
      refuses := OverlapsAny(e.chunks, Span(c.start, |c.data|));
      if refuses {
        return;
      }
      if c.last {
        refuses := e.length >= 0 || e.lengthSoFar > c.End();
      } else if e.length >= 0 {
        refuses := c.End() > e.length;
      }
    }

    /** Adds the chunk to the entry and copies its payload to the buffer. */
    method StoreChunk(frame: nat, c: Chunk)
      requires Inv(Now()) && InBounds(Now(), c) && c.id in framesUsedTree && frame == framesUsedTree[c.id]
      modifies framesEntries, framesBuffer
      ensures Now() == Written(old(Now()), c)
    {
      TreeInRange(Now(), c.id);
      var e := framesEntries[frame];
      var end := c.start + |c.data|;
      e := e.(time := time, chunks := e.chunks + [Span(c.start, |c.data|)], sum := e.sum + |c.data|);
      if c.last {
        e := e.(length := end);
      } else if e.length < 0 {
        if e.lengthSoFar < end {
          e := e.(lengthSoFar := end);
        }
      }
      framesEntries[frame] := e;
      framesBuffer[frame] := Overwrite(framesBuffer[frame], c.start, c.data);
    }

    method TakeChunk(i: nat, c: Chunk) returns (frame: Option<seq<byte>>)
      requires Inv(Now()) && InBounds(Now(), c) && c.id in framesUsedTree && i == framesUsedTree[c.id]
      modifies this`framesUsed, this`framesUsedTree, this`framesFree, framesEntries, framesBuffer
      ensures var r := Assembler.TakeChunk(old(Now()), c);
              && Now() == r.0
              && r.1 == (if frame.Some? then Some(Delivered(c.id, frame.value)) else None)
    {
      hide Inv, Accepts, Written, AddChunk, Assembler.FreeFrame;
      frame := None;
      TreeInRange(Now(), c.id);
      var refuses := Refuses(framesEntries[i], c);
      if refuses {
        FreeFrame(i);
        return;
      }
      AddKeeps(Now(), c);
      WrittenInRange(Now(), c);
      StoreChunk(i, c);
      var e := framesEntries[i];
      if e.length < 0 || e.sum < e.length {
        if |e.chunks| == numChunks {
          FreeFrame(i);
        }
        return;
      }
      frame := Some(framesBuffer[i][..e.length]);
      FreeFrame(i);
    }

    method ProcessChunk(c: Chunk) returns (frame: Option<seq<byte>>)
      requires Inv(Now())
      modifies this`framesUsed, this`framesUsedTree, this`framesFree, framesEntries, framesBuffer
      ensures var r := Assembler.ProcessChunk(old(Now()), c);
              && Now() == r.0 && Inv(Now())
              && r.1 == (if frame.Some? then Some(Delivered(c.id, frame.value)) else None)
    {
      hide Inv, Locate, Assembler.TakeChunk;
      ProcessKeeps(Now(), c);
      if c.start > outputMtu || |c.data| > outputMtu - c.start {
        return None;
      }
      LocateKeeps(Now(), c.id);
      var i := LocateFrame(c.id);
      frame := TakeChunk(i, c);
    }

    lemma WrittenInRange(s: State, c: Chunk)
      requires Inv(s) && InBounds(s, c) && c.id in s.tree && Accepts(s.entries[s.tree[c.id]], c)
      ensures var t := Written(s, c); var i := s.tree[c.id];
              i < |t.entries| == |t.bufs| && t.entries[i].length <= |t.bufs[i]|
    {
      TreeInRange(s, c.id);
      AddKeeps(s, c);
    }

    lemma TreeInRange(s: State, id: u16)
      requires Inv(s) && id in s.tree
      ensures s.tree[id] < |s.entries| == |s.bufs| && |s.bufs[s.tree[id]]| == s.mtu
    {
    }

    /** reduce_times, first loop: frees timed-out frames and finds the least time of the rest. */
    method SweepFrames() returns (minTime: Option<nat>)
      requires forall j :: 0 <= j < |framesUsed| ==> framesUsed[j] < framesEntries.Length
      modifies this`framesUsed, this`framesUsedTree, this`framesFree
      ensures Now() == Sweep(old(Now()), old(framesUsed))
      ensures IsLeast(minTime, old(Now()), old(framesUsed))
    {
      hide Without;
      var list := framesUsed;
      minTime := None;
      for n := 0 to |list|
        invariant Sweep(old(Now()), list) == Sweep(Now(), list[n..])
        invariant IsLeast(minTime, old(Now()), list[..n])
      {
        var frame := list[n];
        assert list[n..][0] == frame && list[n..][1..] == list[n + 1..];
        assert list[..n + 1] == list[..n] + [frame];
        if time - framesEntries[frame].time > timeTolerance {
          FreeFrame(frame);
        } else if minTime.None? || framesEntries[frame].time < minTime.value {
          minTime := Some(framesEntries[frame].time);
        }
      }
      assert list[..|list|] == list;
    }

    /** reduce_times, second loop. */
    method SubtractTimes(minTime: nat)
      requires minTime <= time && NoDup(framesUsed)
      requires forall j :: 0 <= j < |framesUsed| ==> framesUsed[j] < framesEntries.Length
      requires forall i :: 0 <= i < framesEntries.Length && i in framesUsed ==> minTime <= framesEntries[i].time
      modifies this`time, framesEntries
      ensures Now() == Subtracted(old(Now()), minTime)
    {
      hide NoDup;
      ghost var was := framesEntries[..];
      ghost var goal := Subtracted(Now(), minTime).entries;
      for n := 0 to |framesUsed|
        invariant time == old(time)
        invariant forall i :: 0 <= i < framesEntries.Length ==>
                    framesEntries[i] == if i in framesUsed[..n] then goal[i] else was[i]
      {
        var frame := framesUsed[n];
        NotBefore(framesUsed, n);
        framesEntries[frame] := framesEntries[frame].(time := framesEntries[frame].time - minTime);
      }
      assert framesUsed[..|framesUsed|] == framesUsed;
      assert framesEntries[..] == goal;
      time := time - minTime;
    }

    method ReduceTimes()
      requires Inv(Now())
      modifies this`time, this`framesUsed, this`framesUsedTree, this`framesFree, framesEntries
      ensures Now() == Assembler.ReduceTimes(old(Now()))
    {
      hide Inv, Sweep, Subtracted, MinTime, NoDup;
      UsedList(Now());
      SweepKeeps(Now(), framesUsed);
      var minTime := SweepFrames();
      UsedList(Now());
      LeastIsMin(minTime, old(Now()), Now());
      if minTime.None? {
        time := 0;
        return;
      }
      MinTimeSound(Now());
      SubtractTimes(minTime.value);
    }

    /** The end of a packet. */
    method EndPacket()
      requires Inv(Now()) && input.Some?
      modifies this`time, this`framesUsed, this`framesUsedTree, this`framesFree, this`input, framesEntries
      ensures Now() == Tick(old(Now())) && Inv(Now()) && input.None?
    {
      TickKeeps(Now());
      hide Inv, Assembler.ReduceTimes;
      if time == MAX_TIME {
        ReduceTimes();
        if framesUsed != [] {
          time := time + 1;
        }
      } else {
        time := time + 1;
      }
      input := None;
    }

    /** Reads chunks until one completes a frame, or to the end of the packet. Whatever the
        packet is made of, the frames put out by this and the later calls, and the final
        state, are those of feeding it whole. */
    method ProcessInput() returns (frame: Option<seq<byte>>, ghost id: u16)
      requires Valid() && input.Some?
      modifies this`time, this`framesUsed, this`framesUsedTree, this`framesFree, this`input, this`inPos
      modifies framesEntries, framesBuffer
      ensures Valid()
      ensures frame.None? ==> input.None? && Feed(old(Now()), old(Rest())) == (Now(), [])
      ensures frame.Some? ==>
                && input == old(input)
                && var f := Feed(Now(), Rest());
                   Feed(old(Now()), old(Rest())) == (f.0, [Delivered(id, frame.value)] + f.1)
    {
      hide Inv, Feed, Assembler.ProcessChunk;
      id := 0;
      var in_ := input.value;
      ghost var rest := Rest();
      while inPos < |in_|
        invariant input == Some(in_) && inPos <= |in_| && Inv(Now()) && rest == Rest()
        invariant Feed(Now(), rest) == Feed(old(Now()), old(Rest()))
      {
        if |in_| - inPos < HEADER {
          break;
        }
        HeaderAt(in_, inPos);
        var frameId := FromLe16(in_[inPos..inPos + 2]);
        var chunkStart := FromLe16(in_[inPos + 2..inPos + 4]);
        var chunkLen := FromLe16(in_[inPos + 4..inPos + 6]);
        var isLast := in_[inPos + 6];
        inPos := inPos + HEADER;
        if !(isLast == 0 || isLast == 1) {
          break;
        }
        if |in_| - inPos < chunkLen {
          break;
        }
        var chunk := Chunk(frameId, chunkStart, in_[inPos..inPos + chunkLen], isLast == 1);
        PayloadAt(in_, inPos - HEADER, chunkLen);
        FeedChunk(Now(), rest);
        frame := ProcessChunk(chunk);
        inPos := inPos + chunkLen;
        rest := Rest();
        if frame.Some? {
          id := chunk.id;
          return;
        }
      }
      frame := None;
      FeedEnds(Now(), rest);
      EndPacket();
    }

    method InputHandlerSend(data: seq<byte>) returns (frame: Option<seq<byte>>, ghost id: u16)
      requires Valid() && input.None?
      modifies this`time, this`framesUsed, this`framesUsedTree, this`framesFree, this`input, this`inPos
      modifies framesEntries, framesBuffer
      ensures Valid()
      ensures frame.None? ==> input.None? && Feed(old(Now()), data) == (Now(), [])
      ensures frame.Some? ==>
                && input == Some(data)
                && var f := Feed(Now(), Rest());
                   Feed(old(Now()), data) == (f.0, [Delivered(id, frame.value)] + f.1)
    {
      input := Some(data);
      inPos := 0;
      assert Rest() == data;
      frame, id := ProcessInput();
    }

    /** The frame has been taken; go on with the packet. */
    method OutputHandlerDone() returns (frame: Option<seq<byte>>, ghost id: u16)
      requires Valid() && input.Some?
      modifies this`time, this`framesUsed, this`framesUsedTree, this`framesFree, this`input, this`inPos
      modifies framesEntries, framesBuffer
      ensures Valid()
      ensures frame.None? ==> input.None? && Feed(old(Now()), old(Rest())) == (Now(), [])
      ensures frame.Some? ==>
                && input == old(input)
                && var f := Feed(Now(), Rest());
                   Feed(old(Now()), old(Rest())) == (f.0, [Delivered(id, frame.value)] + f.1)
    {
      frame, id := ProcessInput();
    }
  }

  lemma HeaderAt(p: seq<byte>, at: nat)
    requires at + HEADER <= |p|
    ensures var r := p[at..];
            r[..2] == p[at..at + 2] && r[2..4] == p[at + 2..at + 4] && r[4..6] == p[at + 4..at + 6]
            && r[6] == p[at + 6]
  {
  }

  lemma PayloadAt(p: seq<byte>, at: nat, len: nat)
    requires at + HEADER + len <= |p|
    ensures p[at..][HEADER..HEADER + len] == p[at + HEADER..at + HEADER + len]
    ensures p[at..][HEADER + len..] == p[at + HEADER + len..]
  {
  }

  lemma FeedEnds(s: State, rest: seq<byte>)
    requires Inv(s) && Parse(rest).None?
    ensures Feed(s, rest) == (Tick(s), [])
  {
  }

  lemma FeedChunk(s: State, rest: seq<byte>)
    requires Inv(s) && Parse(rest).Some?
    ensures var c := Parse(rest).value; var r := ProcessChunk(s, c.0);
            Inv(r.0) && var f := Feed(r.0, c.1);
            Feed(s, rest) == if r.1.Some? then (f.0, [r.1.value] + f.1) else f
  {
    hide ProcessChunk, Tick, Inv;
    var c := Parse(rest).value;
    ProcessKeeps(s, c.0);
    assert ParseAll(rest)[1..] == ParseAll(c.1);
    ChunksKeep(s, ParseAll(rest));
    var r := ProcessChunk(s, c.0);
    ChunksKeep(r.0, ParseAll(c.1));
    var f := Chunks(r.0, ParseAll(c.1));
    assert [] + f.1 == f.1;
  }

  /** The least time of the frames of the list that are not timed out. */
  ghost predicate IsLeast(m: Option<nat>, s: State, list: seq<nat>) {
    if m.None? then forall i :: i in list && i < |s.entries| ==> TimedOut(s, i)
    else
      && (exists i :: i in list && i < |s.entries| && !TimedOut(s, i) && m.value == s.entries[i].time)
      && forall i :: i in list && i < |s.entries| && !TimedOut(s, i) ==> m.value <= s.entries[i].time
  }

  lemma NotBefore(s: seq<nat>, n: nat)
    requires NoDup(s) && n < |s|
    ensures s[n] !in s[..n] && s[..n + 1] == s[..n] + [s[n]] && s[n] in s
  {
  }

  lemma MinUnique(entries: seq<Entry>, used: seq<nat>, m: nat, k: nat)
    requires forall j :: 0 <= j < |used| ==> used[j] < |entries| && m <= entries[used[j]].time
    requires k < |used| && m == entries[used[k]].time
    ensures m == MinTime(entries, used)
  {
  }

  lemma LeastIsMin(m: Option<nat>, s: State, r: State)
    requires IsLeast(m, s, s.used) && r == s.(free := r.free, used := r.used, tree := r.tree)
    requires forall i :: 0 <= i < |s.entries| ==> (i in r.used <==> i in s.used && !TimedOut(s, i))
    requires forall j :: 0 <= j < |r.used| ==> r.used[j] < |r.entries|
    ensures m.None? <==> r.used == []
    ensures r.used != [] ==> m == Some(MinTime(r.entries, r.used))
  {
    hide TimedOut, MinTime;
    forall j | 0 <= j < |r.used| ensures m.Some? && m.value <= r.entries[r.used[j]].time {
      assert r.used[j] in s.used && !TimedOut(s, r.used[j]);
    }
    assert r.used != [] ==> r.used[0] < |r.entries|;
    if m.Some? {
      var i :| i in s.used && i < |s.entries| && !TimedOut(s, i) && m.value == s.entries[i].time;
      assert i in r.used;
      var k :| 0 <= k < |r.used| && r.used[k] == i;
      MinUnique(r.entries, r.used, m.value, k);
    }
  }
}
