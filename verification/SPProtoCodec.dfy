/** The work functions of client/SPProtoEncoder.c and client/SPProtoDecoder.c, which write,
    hash, pad and check packets in place. */
module SPProtoCodec {
  import opened Wrappers
  import opened LittleEndian
  import opened SPProto

  function Replaced(s: seq<byte>, at: nat, bytes: seq<byte>): (r: seq<byte>)
    requires at + |bytes| <= |s|
    ensures |r| == |s|
  {
    s[..at] + bytes + s[at + |bytes|..]
  }

  lemma ReplacedParts(s: seq<byte>, at: nat, bytes: seq<byte>, len: nat)
    requires at + |bytes| <= len <= |s|
    ensures Replaced(s, at, bytes)[..len] == s[..at] + bytes + s[at + |bytes|..len]
    ensures Replaced(s, at, bytes)[..at] == s[..at] && Replaced(s, at, bytes)[at + |bytes|..len] == s[at + |bytes|..len]
  {
  }

  lemma ReplacedStart(s: seq<byte>, bytes: seq<byte>)
    requires |bytes| <= |s|
    ensures Replaced(s, 0, bytes)[..|bytes|] == bytes
  {
  }

  lemma ReplacedBack(s: seq<byte>, at: nat, bytes: seq<byte>)
    requires at + |bytes| <= |s|
    ensures Replaced(Replaced(s, at, bytes), at, s[at..at + |bytes|]) == s
  {
  }

  lemma Whole(a: array<byte>, o: nat, h: nat, len: nat)
    requires o <= h <= len <= a.Length
    ensures a[..][..o] == a[..o] && a[..][o..h] == a[o..h] && a[..][h..len] == a[h..len] && a[..][..len] == a[..len]
  {
  }

  /** Copies bytes into an array. */
  method Put(a: array<byte>, at: nat, bytes: seq<byte>)
    requires at + |bytes| <= a.Length
    modifies a
    ensures a[..] == Replaced(old(a[..]), at, bytes)
  {
    for i := 0 to |bytes|
      invariant a[..at + i] == old(a[..at]) + bytes[..i]
      invariant a[at + i..] == old(a[at + i..])
    {
      a[at + i] := bytes[i];
      assert a[..at + i + 1] == a[..at + i] + [bytes[i]];
      assert bytes[..i + 1] == bytes[..i] + [bytes[i]];
      assert a[at + i + 1..] == old(a[at + i..])[1..];
    }
    assert bytes[..|bytes|] == bytes;
    assert a[..] == a[..at + |bytes|] + a[at + |bytes|..];
  }

  lemma LengthAligned(x: nat, n: nat)
    requires 0 < n
    ensures x <= AlignUp(x, n) && AlignUp(x, n) % n == 0
  {
  }

  class SPProtoEncoder {
    const p: Params
    const c: Crypto
    const buf: array<byte>

    constructor (p: Params, c: Crypto, buf: array<byte>)
      ensures this.p == p && this.c == c && this.buf == buf
    {
      this.p, this.c, this.buf := p, c, buf;
    }

    /** The payload was received behind room for the header, in the output packet or, if it will
        be encrypted, in the buffer. */
    function PlaintextIn(out: array<byte>): array<byte> {
      if p.haveEncryption then buf else out
    }

    /** Writes the packet of the payload and returns its length. */
    method EncodeWork(out: array<byte>, inLen: nat, seedId: nat, otp: seq<byte>, iv: seq<byte>) returns (outLen: nat)
      requires Fits(p, c) && out != buf && |iv| == p.blockSize
      requires PacketLen(p, inLen) <= out.Length && (p.haveEncryption ==> PacketLen(p, inLen) - p.blockSize <= buf.Length)
      requires MessageOk(p, Message(seedId, otp, []))
      modifies buf, out
      ensures outLen == PacketLen(p, inLen) <= out.Length && HeaderLen(p) + inLen <= PlaintextIn(out).Length
      ensures var payload := old(PlaintextIn(out)[HeaderLen(p)..HeaderLen(p) + inLen]);
              out[..outLen] == Encode(p, c, iv, Message(seedId, otp, payload))
    {
      hide Plaintext, Fits, Padded, AlignUp, HeaderLen, Replaced;
      Blocks(p, c);
      LengthAligned(HeaderLen(p) + inLen + 1, p.blockSize);
      var plaintext := PlaintextIn(out);
      var len := HeaderLen(p) + inLen;
      ghost var m := Message(seedId, otp, plaintext[HeaderLen(p)..len]);
      WriteHeader(plaintext, len, seedId, otp);
      if !p.haveEncryption {
        return len;
      }
      var total := WritePadding(plaintext, len);
      outLen := p.blockSize + total;
      EncryptInto(out, total, iv);
    }

    method EncryptInto(out: array<byte>, total: nat, iv: seq<byte>)
      requires Fits(p, c) && out != buf && |iv| == p.blockSize && total % p.blockSize == 0
      requires total <= buf.Length && p.blockSize + total <= out.Length
      modifies out
      ensures out[..p.blockSize + total] == iv + c.encrypt(buf[..total], iv)
    {
      hide Fits;
      SameLength(buf[..total], iv);
      Put(out, 0, iv + c.encrypt(buf[..total], iv));
    }

    lemma SameLength(s: seq<byte>, iv: seq<byte>)
      requires Fits(p, c) && |s| % p.blockSize == 0 && |iv| == p.blockSize
      ensures |c.encrypt(s, iv)| == |s|
    {
    }

    /** The one-time password, then the hash over everything with its own field zeroed. */
    method WriteHeader(a: array<byte>, len: nat, seedId: nat, otp: seq<byte>)
      requires Fits(p, c) && HeaderLen(p) <= len <= a.Length && MessageOk(p, Message(seedId, otp, []))
      modifies a
      ensures a[..len] == Plaintext(p, c, Message(seedId, otp, old(a[HeaderLen(p)..len])))
    {
      ghost var m := Message(seedId, otp, a[HeaderLen(p)..len]);
      var o, h := OtpLen(p), HeaderLen(p);
      if p.haveOtp {
        Put(a, 0, Le(seedId, 2) + otp);
      }
      assert a[..o] == OtpData(p, m) && a[h..len] == m.payload;
      if p.haveHash {
        WriteHash(a, o, len);
      } else {
        assert a[..len] == a[..o] + a[h..len];
      }
    }

    method WriteHash(a: array<byte>, o: nat, len: nat)
      requires Fits(p, c) && o + p.hashSize <= len <= a.Length
      modifies a
      ensures var before, after := old(a[..o]), old(a[o + p.hashSize..len]);
              a[..len] == before + c.hash(before + Zeros(p.hashSize) + after) + after
    {
      var h := o + p.hashSize;
      ghost var was := a[..];
      Whole(a, o, h, len);
      ReplacedParts(was, o, Zeros(p.hashSize), len);
      hide Replaced, Zeros;
      Put(a, o, Zeros(p.hashSize));
      Whole(a, o, h, len);
      ghost var zeroed := a[..];
      ReplacedParts(zeroed, o, c.hash(zeroed[..len]), len);
      Put(a, o, c.hash(a[..len]));
      Whole(a, o, h, len);
    }

    /** A 1 and zeros up to the end of a block. */
    method WritePadding(a: array<byte>, len: nat) returns (total: nat)
      requires 0 < p.blockSize && AlignUp(len + 1, p.blockSize) <= a.Length
      modifies a
      ensures total == AlignUp(len + 1, p.blockSize) && a[..total] == Padded(old(a[..len]), p.blockSize)
    {
      total := AlignUp(len + 1, p.blockSize);
      a[len] := 1;
      for i := len + 1 to total
        invariant a[..len] == old(a[..len]) && a[len] == 1
        invariant forall j :: len < j < i ==> a[j] == 0
      {
        a[i] := 0;
      }
    }
  }

  class SPProtoDecoder {
    const p: Params
    const c: Crypto
    const outputMtu: nat
    const buf: array<byte>

    constructor (p: Params, c: Crypto, outputMtu: nat, buf: array<byte>)
      ensures this.p == p && this.c == c && this.outputMtu == outputMtu && this.buf == buf
    {
      this.p, this.c, this.outputMtu, this.buf := p, c, outputMtu, buf;
    }

    /** Decodes the packet. Its bytes are left as they were. */
    method DecodeWork(input: array<byte>, inLen: nat, haveKey: bool) returns (r: Option<Message>)
      requires Fits(p, c) && input != buf && inLen <= input.Length && (p.haveEncryption ==> inLen <= buf.Length + p.blockSize)
      modifies buf, input
      ensures r == Decode(p, c, haveKey, outputMtu, old(input[..inLen])) && input[..] == old(input[..])
    {
      hide Stripped, Fits;
      if !p.haveEncryption {
        r := Strip(input, inLen);
        return;
      }
      var len := Decrypt(input, inLen, haveKey);
      if len.None? {
        return None;
      }
      hide Opened;
      r := Strip(buf, len.value);
    }

    /** Decrypts a packet into the buffer and takes the padding off. */
    method Decrypt(input: array<byte>, inLen: nat, haveKey: bool) returns (len: Option<nat>)
      requires Fits(p, c) && p.haveEncryption && input != buf && inLen <= input.Length && inLen <= buf.Length + p.blockSize
      modifies buf
      ensures len.Some? ==> len.value <= buf.Length
      ensures Opened(p, c, haveKey, input[..inLen]) == if len.None? then None else Some(buf[..len.value])
    {
      var n := p.blockSize;
      if inLen % n != 0 || inLen < n || !haveKey {
        return None;
      }
      ghost var packet := input[..inLen];
      assert input[..n] == packet[..n] && input[n..inLen] == packet[n..];
      hide Unpadded;
      BlocksAfter(inLen, n);
      var s := c.decrypt(input[n..inLen], input[..n]);
      assert |s| == inLen - n;
      len := Unpad(s);
    }

    method Unpad(s: seq<byte>) returns (len: Option<nat>)
      requires 0 < p.blockSize && |s| <= buf.Length
      modifies buf
      ensures len.Some? ==> len.value <= buf.Length
      ensures Unpadded(s, p.blockSize) == if len.None? then None else Some(buf[..len.value])
    {
      hide Replaced, PadAt;
      ReplacedStart(buf[..], s);
      Put(buf, 0, s);
      Whole(buf, 0, 0, |s|);
      if |s| < p.blockSize {
        return None;
      }
      len := FindPadding(|s|);
      if len.Some? {
        Whole(buf, len.value, len.value, len.value);
        Whole(buf, |s|, |s|, |s|);
        assert buf[..][..|s|][..len.value] == buf[..][..len.value];
      }
    }

    /** Scans the last block backwards for the padding's 1. */
    method FindPadding(total: nat) returns (r: Option<nat>)
      requires p.blockSize <= total <= buf.Length
      ensures r == PadAt(buf[..total], total - 1, total - p.blockSize)
    {
      var i := total - 1;
      while i >= total - p.blockSize
        invariant total - p.blockSize - 1 <= i < total
        invariant PadAt(buf[..total], total - 1, total - p.blockSize) == PadAt(buf[..total], i, total - p.blockSize)
      {
        if buf[i] == 1 {
          return Some(i);
        }
        if buf[i] != 0 {
          return None;
        }
        i := i - 1;
      }
      return None;
    }

    /** Checks the header and takes it off. */
    method Strip(a: array<byte>, len: nat) returns (r: Option<Message>)
      requires Fits(p, c) && len <= a.Length
      modifies a
      ensures r == Stripped(p, c, outputMtu, old(a[..len])) && a[..] == old(a[..])
    {
      var o, h := OtpLen(p), HeaderLen(p);
      if len < h || len - h > outputMtu {
        return None;
      }
      ghost var s := a[..len];
      assert a[h..len] == s[h..] && a[..o] == s[..o] && a[o..h] == s[o..h];
      if p.haveHash {
        var ok := CheckHash(a, len);
        if !ok {
          return None;
        }
      }
      assert a[..len] == s && a[h..len] == s[h..];
      if p.haveOtp {
        assert a[..2] == s[..2] && a[2..o] == s[2..o];
        r := Some(Message(FromLe(a[..2]), a[2..o], a[h..len]));
      } else {
        r := Some(Message(0, [], a[h..len]));
      }
    }

    /** Hashes the packet with its hash field zeroed, and puts the field back. */
    method CheckHash(a: array<byte>, len: nat) returns (ok: bool)
      requires Fits(p, c) && p.haveHash && HeaderLen(p) <= len <= a.Length
      modifies a
      ensures a[..] == old(a[..])
      ensures ok <==> a[OtpLen(p)..HeaderLen(p)] == c.hash(a[..OtpLen(p)] + Zeros(p.hashSize) + a[HeaderLen(p)..len])
    {
      var o, h := OtpLen(p), HeaderLen(p);
      var field := a[o..h];
      ghost var was := a[..];
      ReplacedParts(was, o, Zeros(p.hashSize), len);
      ReplacedBack(was, o, Zeros(p.hashSize));
      Whole(a, o, h, len);
      hide Replaced, Zeros;
      Put(a, o, Zeros(p.hashSize));
      assert a[..len] == a[..][..len];
      var calculated := c.hash(a[..len]);
      Put(a, o, field);
      ok := field == calculated;
    }
  }
}
