/** The buffer of flow/LineBuffer.c and its two handlers. */
module LineBuffer {
  import opened Wrappers
  import opened Lines

  class LineBuffer {
    const bufSize: nat
    const nlChar: byte
    const buf: array<byte>
    var bufUsed: nat
    var bufConsumed: nat
    var sending: bool

    ghost var input: seq<byte>
    ghost var sent: seq<seq<byte>>

    /** The buffer's part of a run; bufConsumed only counts while a packet is with the output. */
    ghost function Now(): Run
      requires bufUsed <= buf.Length
      reads this, buf
    {
      Run(Buffer(buf[..bufUsed], if sending then bufConsumed else 0), input, sent)
    }

    ghost predicate Valid()
      reads this, buf
    {
      && buf.Length == bufSize && bufUsed <= bufSize && (sending ==> bufConsumed > 0)
      && Inv(Now(), bufSize, nlChar)
    }

    constructor (bufSize: nat, nlChar: byte)
      requires 0 < bufSize
      ensures Valid() && !sending && sent == [] && input == []
      ensures fresh(buf) && this.bufSize == bufSize && this.nlChar == nlChar
    {
      this.bufSize, this.nlChar := bufSize, nlChar;
      buf := new byte[bufSize];
      bufUsed, bufConsumed, sending, input, sent := 0, 0, false, [], [];
    }

    /** Looks for a newline from a place that no newline comes before. */
    method FindNl(from: nat, used: nat) returns (i: nat)
      requires from <= used <= buf.Length && NoNl(buf[..from], nlChar)
      ensures i == FirstNl(buf[..used], nlChar)
    {
      i := from;
      while i < used && buf[i] != nlChar
        invariant from <= i <= used && forall j :: 0 <= j < i ==> buf[j] != nlChar
      {
        i := i + 1;
      }
      FirstNlIs(buf[..used], nlChar, i);
    }

    /** With `used` bytes buffered, passes the first packet to the output or asks for input. */
    method PassOrReceive(used: nat, i: nat, ghost all: seq<byte>)
      requires 0 < bufSize && used <= bufSize == buf.Length && i == FirstNl(buf[..used], nlChar)
      requires Inv(Emit(buf[..used], all, sent, bufSize, nlChar), bufSize, nlChar)
      modifies this
      ensures Valid() && Now() == Emit(buf[..used], all, old(sent), bufSize, nlChar)
    {
      hide Inv, FirstNl;
      bufUsed := used;
      input := all;
      sending := i < bufUsed || bufUsed == bufSize;
      if sending {
        bufConsumed := if i < bufUsed then i + 1 else i;
        assert buf[..bufUsed][..bufConsumed] == buf[..bufConsumed];
        sent := sent + [buf[..bufConsumed]];
      }
    }

    /** The `n` bytes behind those buffered. */
    ghost function Behind(n: nat): seq<byte>
      requires bufUsed + n <= buf.Length
      reads this, buf
    {
      buf[bufUsed..bufUsed + n]
    }

    /** The input wrote `dataLen` bytes behind those buffered; only they are searched. */
    method InputHandlerDone(dataLen: nat)
      requires Valid() && !sending && 0 < dataLen <= bufSize - bufUsed
      modifies this
      ensures Valid() && Now() == Step(old(Now()), Input(old(Behind(dataLen))), bufSize, nlChar)
    {
      hide Inv, Emit, Cut, FirstNl, NoNl, Packets, Joined, Valid, Step, Now, Enabled, Behind;
      InputFacts(dataLen);
      var i := FindNl(bufUsed, bufUsed + dataLen);
      PassOrReceive(bufUsed + dataLen, i, input + Behind(dataLen));
    }

    lemma InputFacts(n: nat)
      requires Valid() && !sending && 0 < n <= bufSize - bufUsed
      ensures 0 < bufSize && buf.Length == bufSize && NoNl(buf[..bufUsed], nlChar)
      ensures Enabled(Now(), Input(Behind(n)), bufSize) && Now().buffer.consumed <= |Now().buffer.bytes|
      ensures var next := Step(Now(), Input(Behind(n)), bufSize, nlChar);
              Inv(next, bufSize, nlChar) && next == Emit(buf[..bufUsed + n], input + Behind(n), sent, bufSize, nlChar)
    {
      hide Cut, FirstNl, NoNl, Packets, Joined, Emit;
      Uncut(buf[..bufUsed], bufSize, nlChar);
      hide Inv;
      StepKeeps(Now(), Input(Behind(n)), bufSize, nlChar);
      assert buf[..bufUsed] + buf[bufUsed..bufUsed + n] == buf[..bufUsed + n];
    }

    /** Moves the bytes behind the packet to the front. */
    method Move()
      requires bufConsumed <= bufUsed <= buf.Length
      modifies buf
      ensures buf[..bufUsed - bufConsumed] == old(buf[bufConsumed..bufUsed])
    {
      for i := 0 to bufUsed - bufConsumed
        invariant forall j :: 0 <= j < i ==> buf[j] == old(buf[bufConsumed + j])
        invariant forall j :: i <= j < bufUsed ==> buf[j] == old(buf[j])
      {
        buf[i] := buf[bufConsumed + i];
      }
    }

    /** The output is done with the packet. */
    method OutputHandlerDone()
      requires Valid() && sending
      modifies this, buf
      ensures Valid() && Now() == Step(old(Now()), OutputDone, bufSize, nlChar)
    {
      hide Inv, Emit, Cut, FirstNl, Packets, Joined, Valid, Step, Now, Enabled;
      OutputFacts();
      Move();
      var i := FindNl(0, bufUsed - bufConsumed);
      PassOrReceive(bufUsed - bufConsumed, i, input);
    }

    lemma OutputFacts()
      requires Valid() && sending
      ensures 0 < bufSize && buf.Length == bufSize && bufConsumed <= bufUsed <= bufSize
      ensures Enabled(Now(), OutputDone, bufSize) && Now().buffer.consumed <= |Now().buffer.bytes|
      ensures var next := Step(Now(), OutputDone, bufSize, nlChar);
              Inv(next, bufSize, nlChar) && next == Emit(buf[bufConsumed..bufUsed], input, sent, bufSize, nlChar)
    {
      hide Cut, FirstNl, NoNl, Packets, Joined, Emit;
      StepKeeps(Now(), OutputDone, bufSize, nlChar);
      assert buf[..bufUsed][bufConsumed..] == buf[bufConsumed..bufUsed];
    }
  }

  predicate NoNl(s: seq<byte>, nl: byte) {
    forall j :: 0 <= j < |s| ==> s[j] != nl
  }

  lemma Uncut(s: seq<byte>, size: nat, nl: byte)
    requires Cut(s, size, nl) == 0 && |s| <= size
    ensures NoNl(s, nl)
  {
  }
}
