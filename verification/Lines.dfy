/** Cutting a byte stream into lines, as flow/LineBuffer.c does. */
module Lines {
  import opened Wrappers

  /** The place of the first newline, or the length if there is none. */
  function FirstNl(s: seq<byte>, nl: byte): (k: nat)
    ensures k <= |s| && (k < |s| ==> s[k] == nl)
    ensures forall j :: 0 <= j < k ==> s[j] != nl
  {
    if s == [] || s[0] == nl then 0 else 1 + FirstNl(s[1..], nl)
  }

  /** The first packet of a stream: up to and including the first newline within `size` bytes,
      else exactly `size` bytes; 0 if it is not complete. */
  function Cut(s: seq<byte>, size: nat, nl: byte): (n: nat)
    ensures n <= |s| && n <= size
  {
    var window := if |s| <= size then s else s[..size];
    var k := FirstNl(window, nl);
    if k < |window| then k + 1 else if |s| >= size then size else 0
  }

  /** The canonical packets of a stream. */
  function Packets(s: seq<byte>, size: nat, nl: byte): seq<seq<byte>> {
    var n := Cut(s, size, nl);
    if n == 0 then [] else [s[..n]] + Packets(s[n..], size, nl)
  }

  function Joined(ps: seq<seq<byte>>): seq<byte> {
    if ps == [] then [] else Joined(ps[..|ps| - 1]) + ps[|ps| - 1]
  }

  lemma {:induction false} FirstNlIs(s: seq<byte>, nl: byte, k: nat)
    requires k <= |s| && (k < |s| ==> s[k] == nl) && forall j :: 0 <= j < k ==> s[j] != nl
    ensures FirstNl(s, nl) == k
  {
  }

  /** A packet is complete exactly with the first newline within `size` bytes, or at `size`. */
  lemma CutMeaning(s: seq<byte>, size: nat, nl: byte, n: nat)
    requires 0 < n
    ensures Cut(s, size, nl) == n <==>
              && n <= |s| && n <= size && (s[n - 1] == nl || n == size)
              && forall j :: 0 <= j < n - 1 ==> s[j] != nl
  {
  }

  /** More input does not change a packet that is complete. */
  lemma CutStable(s: seq<byte>, t: seq<byte>, size: nat, nl: byte)
    requires Cut(s, size, nl) > 0
    ensures Cut(s + t, size, nl) == Cut(s, size, nl)
  {
  }

  function Rest(s: seq<byte>, size: nat, nl: byte): seq<byte> {
    var n := Cut(s, size, nl);
    if n == 0 then s else Rest(s[n..], size, nl)
  }

  /** Packets can be cut off the stream as it comes. */
  lemma {:induction false} PacketsGrow(s: seq<byte>, t: seq<byte>, size: nat, nl: byte)
    ensures Packets(s + t, size, nl) == Packets(s, size, nl) + Packets(Rest(s, size, nl) + t, size, nl)
    decreases |s|
  {
    hide Cut;
    var n := Cut(s, size, nl);
    if n > 0 {
      CutStable(s, t, size, nl);
      assert (s + t)[..n] == s[..n] && (s + t)[n..] == s[n..] + t;
      PacketsGrow(s[n..], t, size, nl);
      PacketsHead(s, size, nl);
      PacketsHead(s + t, size, nl);
      var head, mid, tail := [s[..n]], Packets(s[n..], size, nl), Packets(Rest(s[n..], size, nl) + t, size, nl);
      hide Packets;
      assert head + (mid + tail) == head + mid + tail;
    }
  }

  lemma PacketsHead(s: seq<byte>, size: nat, nl: byte)
    requires Cut(s, size, nl) > 0
    ensures Packets(s, size, nl) == [s[..Cut(s, size, nl)]] + Packets(s[Cut(s, size, nl)..], size, nl)
  {
  }

  lemma JoinedAppend(ps: seq<seq<byte>>, p: seq<byte>)
    ensures Joined(ps + [p]) == Joined(ps) + p
  {
    assert (ps + [p])[..|ps + [p]| - 1] == ps;
  }

  // ----- the buffer

  /** The buffered bytes, and how many of them are with the output, if any are. */
  datatype Buffer = Buffer(bytes: seq<byte>, consumed: nat)

  datatype Event = Input(data: seq<byte>) | OutputDone

  datatype Run = Run(buffer: Buffer, input: seq<byte>, sent: seq<seq<byte>>)

  predicate Sending(b: Buffer) {
    b.consumed > 0
  }

  /** Input comes when the buffer waits for it, and no more than there is room for. */
  predicate Enabled(r: Run, e: Event, size: nat) {
    match e
    case Input(data) => !Sending(r.buffer) && 0 < |data| <= size - |r.buffer.bytes|
    case OutputDone => Sending(r.buffer)
  }

  /** Sends the first packet of the buffered bytes, if it is complete. */
  function Emit(bytes: seq<byte>, input: seq<byte>, sent: seq<seq<byte>>, size: nat, nl: byte): Run {
    var n := Cut(bytes, size, nl);
    Run(Buffer(bytes, n), input, if n == 0 then sent else sent + [bytes[..n]])
  }

  function Step(r: Run, e: Event, size: nat, nl: byte): Run
    requires Enabled(r, e, size) && r.buffer.consumed <= |r.buffer.bytes|
  {
    match e
    case Input(data) => Emit(r.buffer.bytes + data, r.input + data, r.sent, size, nl)
    case OutputDone => Emit(r.buffer.bytes[r.buffer.consumed..], r.input, r.sent, size, nl)
  }

  /** The packets sent are the first ones of the canonical packets, the others are those of the
      bytes still buffered, and sent and buffered bytes are the input. */
  ghost predicate Inv(r: Run, size: nat, nl: byte) {
    var b := r.buffer;
    && 0 < size && |b.bytes| <= size && b.consumed <= |b.bytes|
    && (if Sending(b) then r.sent != [] && r.sent[|r.sent| - 1] == b.bytes[..b.consumed] else Cut(b.bytes, size, nl) == 0)
    && r.input == Joined(r.sent) + b.bytes[b.consumed..]
    && Packets(r.input, size, nl) == r.sent + Packets(b.bytes[b.consumed..], size, nl)
  }

  lemma EmitKeeps(bytes: seq<byte>, input: seq<byte>, sent: seq<seq<byte>>, size: nat, nl: byte)
    requires 0 < size && |bytes| <= size && input == Joined(sent) + bytes
    requires Packets(input, size, nl) == sent + Packets(bytes, size, nl)
    ensures Inv(Emit(bytes, input, sent, size, nl), size, nl)
  {
    hide Cut, Joined, Packets;
    var n := Cut(bytes, size, nl);
    if n == 0 {
      assert bytes[0..] == bytes;
    } else {
      var p, left := bytes[..n], bytes[n..];
      JoinedAppend(sent, p);
      PacketsHead(bytes, size, nl);
      assert bytes == p + left;
      var x, y := Joined(sent), Packets(left, size, nl);
      assert x + (p + left) == x + p + left;
      assert sent + ([p] + y) == sent + [p] + y;
    }
  }

  lemma StepKeeps(r: Run, e: Event, size: nat, nl: byte)
    requires Inv(r, size, nl) && Enabled(r, e, size)
    ensures Inv(Step(r, e, size, nl), size, nl)
  {
    hide Cut;
    var b := r.buffer;
    if e.Input? {
      assert b.bytes[0..] == b.bytes;
      Waits(r, size, nl);
      PacketsGrow(r.input, e.data, size, nl);
      RestIs(r.sent, b.bytes, size, nl, r.input);
      assert r.sent + [] == r.sent;
      assert r.input + e.data == Joined(r.sent) + (b.bytes + e.data);
      EmitKeeps(b.bytes + e.data, r.input + e.data, r.sent, size, nl);
    } else {
      EmitKeeps(b.bytes[b.consumed..], r.input, r.sent, size, nl);
    }
  }

  lemma Waits(r: Run, size: nat, nl: byte)
    requires Inv(r, size, nl) && !Sending(r.buffer)
    ensures Packets(r.buffer.bytes, size, nl) == [] && Packets(r.input, size, nl) == r.sent
  {
    assert r.buffer.bytes[0..] == r.buffer.bytes;
  }

  /** What is left of a stream behind its packets. */
  lemma {:induction false} RestIs(ps: seq<seq<byte>>, left: seq<byte>, size: nat, nl: byte, s: seq<byte>)
    requires s == Joined(ps) + left && Packets(s, size, nl) == ps
    ensures Rest(s, size, nl) == left
  {
    RestLength(s, size, nl);
    RestSuffix(s, size, nl);
    var r := Rest(s, size, nl);
    assert s[|s| - |r|..] == r && s[|s| - |left|..] == left;
  }

  lemma {:induction false} JoinedFront(p: seq<byte>, ps: seq<seq<byte>>)
    ensures Joined([p] + ps) == p + Joined(ps)
  {
    if ps == [] {
      assert [p] + ps == [p] && [p][..0] == [];
      assert Joined([p]) == Joined([]) + p;
    } else {
      var all, init, last := [p] + ps, ps[..|ps| - 1], ps[|ps| - 1];
      JoinedFront(p, init);
      assert all[..|all| - 1] == [p] + init && all[|all| - 1] == last;
      assert p + (Joined(init) + last) == p + Joined(init) + last;
    }
  }

  lemma {:induction false} RestLength(s: seq<byte>, size: nat, nl: byte)
    ensures |s| == |Joined(Packets(s, size, nl))| + |Rest(s, size, nl)|
    decreases |s|
  {
    var n := Cut(s, size, nl);
    if n > 0 {
      RestLength(s[n..], size, nl);
      JoinedFront(s[..n], Packets(s[n..], size, nl));
    }
  }

  lemma {:induction false} RestSuffix(s: seq<byte>, size: nat, nl: byte)
    ensures var r := Rest(s, size, nl); |r| <= |s| && s[|s| - |r|..] == r
    decreases |s|
  {
    var n := Cut(s, size, nl);
    if n > 0 {
      RestSuffix(s[n..], size, nl);
      var r := Rest(s, size, nl);
      assert s[n..][|s| - n - |r|..] == s[|s| - |r|..];
    }
  }

  // ----- runs

  ghost predicate Legal(es: seq<Event>, size: nat, nl: byte)
    requires 0 < size
    decreases |es|, 0
  {
    es != [] ==>
      && Legal(es[..|es| - 1], size, nl)
      && Enabled(After(es[..|es| - 1], size, nl), es[|es| - 1], size)
  }

  ghost function After(es: seq<Event>, size: nat, nl: byte): (r: Run)
    requires 0 < size && Legal(es, size, nl)
    ensures Inv(r, size, nl)
    decreases |es|, 1
  {
    if es == [] then Run(Buffer([], 0), [], [])
    else
      var r := After(es[..|es| - 1], size, nl);
      StepKeeps(r, es[|es| - 1], size, nl);
      Step(r, es[|es| - 1], size, nl)
  }

  /** The bytes that arrived, however they were sliced. */
  function Arrived(es: seq<Event>): seq<byte> {
    if es == [] then []
    else Arrived(es[..|es| - 1]) + if es[|es| - 1].Input? then es[|es| - 1].data else []
  }

  lemma {:induction false} ArrivedIsInput(es: seq<Event>, size: nat, nl: byte)
    requires 0 < size && Legal(es, size, nl)
    ensures After(es, size, nl).input == Arrived(es)
  {
    if es != [] { ArrivedIsInput(es[..|es| - 1], size, nl); }
  }

  /** Line splitting does not depend on how the input arrives: what was sent is always a prefix
      of the canonical packets, all of them when the buffer waits for input, and sent bytes and
      bytes still to be sent are the input. */
  lemma AnySlicing(es: seq<Event>, size: nat, nl: byte)
    requires 0 < size && Legal(es, size, nl)
    ensures var r := After(es, size, nl);
            && r.sent <= Packets(Arrived(es), size, nl)
            && (!Sending(r.buffer) ==> r.sent == Packets(Arrived(es), size, nl))
            && Joined(r.sent) + r.buffer.bytes[r.buffer.consumed..] == Arrived(es)
  {
    ArrivedIsInput(es, size, nl);
    var r := After(es, size, nl);
    if !Sending(r.buffer) { Waits(r, size, nl); }
  }

  lemma SlicingIrrelevant(es: seq<Event>, fs: seq<Event>, size: nat, nl: byte)
    requires 0 < size && Legal(es, size, nl) && Legal(fs, size, nl) && Arrived(es) == Arrived(fs)
    requires !Sending(After(es, size, nl).buffer) && !Sending(After(fs, size, nl).buffer)
    ensures After(es, size, nl).sent == After(fs, size, nl).sent
  {
    AnySlicing(es, size, nl);
    AnySlicing(fs, size, nl);
  }
}
