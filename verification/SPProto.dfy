/** The packet format of protocol/spproto.h: a one-time password and a hash before the payload,
    padding and encryption around them. Hash and cipher are any functions. */
module SPProto {
  import opened Wrappers
  import opened LittleEndian

  datatype Params = Params(haveOtp: bool, haveHash: bool, hashSize: nat, haveEncryption: bool, blockSize: nat)

  datatype Crypto = Crypto(
    hash: seq<byte> -> seq<byte>,
    encrypt: (seq<byte>, seq<byte>) -> seq<byte>,
    decrypt: (seq<byte>, seq<byte>) -> seq<byte>)

  /** A payload with the seed number and one-time password sent along, if they are used. */
  datatype Message = Message(seedId: nat, otp: seq<byte>, payload: seq<byte>)

  const OTP_SIZE := 4

  /** Decryption undoes encryption of whole blocks under an initialisation vector of one; nothing else is assumed of the cipher, and
      of the hash only its size. */
  ghost predicate Fits(p: Params, c: Crypto) {
    && 0 < p.blockSize
    && (forall x :: |c.hash(x)| == p.hashSize)
    && (forall x, iv :: |x| % p.blockSize == 0 && |iv| == p.blockSize ==>
          |c.encrypt(x, iv)| == |x| && c.decrypt(c.encrypt(x, iv), iv) == x)
    && (forall x, iv :: |x| % p.blockSize == 0 && |iv| == p.blockSize ==> |c.decrypt(x, iv)| == |x|)
  }

  predicate MessageOk(p: Params, m: Message) {
    if p.haveOtp then m.seedId < 0x1_0000 && |m.otp| == OTP_SIZE else m.seedId == 0 && m.otp == []
  }

  // ----- lengths

  function OtpLen(p: Params): nat {
    if p.haveOtp then 2 + OTP_SIZE else 0
  }

  function HashLen(p: Params): nat {
    if p.haveHash then p.hashSize else 0
  }

  function HeaderLen(p: Params): nat {
    OtpLen(p) + HashLen(p)
  }

  lemma Product(a: int, b: int, n: int)
    requires 0 < n && a <= b
    ensures a * n <= b * n
  {
    assert (b - a) * n >= 0;
  }

  lemma Cancel(a: int, b: int, n: int)
    requires 0 < n && a * n < b * n
    ensures a < b
  {
    if a >= b { Product(b, a, n); }
  }

  lemma Division(a: int, q: int, r: int, n: int)
    requires 0 <= r < n && a == q * n + r
    ensures a % n == r
  {
    var x, y := a / n, a % n;
    assert a == x * n + y;
    assert x * n < q * n + n == (q + 1) * n;
    Cancel(x, q + 1, n);
    assert q * n < x * n + n == (x + 1) * n;
    Cancel(q, x + 1, n);
  }

  lemma BlocksAfter(len: nat, n: nat)
    requires 0 < n <= len && len % n == 0
    ensures (len - n) % n == 0
  {
    assert (len / n - 1) * n == len / n * n - n;
    Division(len - n, len / n - 1, 0, n);
  }

  lemma BlocksBefore(len: nat, n: nat)
    requires 0 < n && len % n == 0
    ensures (len + n) % n == 0
  {
    assert (len / n + 1) * n == len / n * n + n;
    Division(len + n, len / n + 1, 0, n);
  }

  function AlignUp(x: nat, n: nat): (r: nat)
    requires 0 < n
    ensures x <= r < x + n && r % n == 0
  {
    var r := x % n;
    if r > 0 then
      AlignedUp(x, n);
      x + (n - r)
    else x
  }

  lemma AlignedUp(x: nat, n: nat)
    requires 0 < n
    ensures (x + (n - x % n)) % n == 0
  {
    var q := x / n;
    assert (q + 1) * n == q * n + n;
    Division(x + (n - x % n), q + 1, 0, n);
  }

  function AlignDown(x: nat, n: nat): nat
    requires 0 < n
  {
    x - x % n
  }

  /** The length of the packet that carries a payload. */
  function PacketLen(p: Params, payload: nat): nat
    requires 0 < p.blockSize
  {
    if p.haveEncryption then p.blockSize + AlignUp(HeaderLen(p) + payload + 1, p.blockSize)
    else HeaderLen(p) + payload
  }

  /** The largest payload for a carrier, negative if there is none. */
  function PayloadMtu(p: Params, carrier: nat): int
    requires 0 < p.blockSize
  {
    if p.haveEncryption then AlignDown(carrier, p.blockSize) - p.blockSize - HeaderLen(p) - 1
    else carrier - HeaderLen(p)
  }

  /** No multiple lies between a number and its alignments. */
  lemma AlignBounds(x: nat, c: nat, n: nat)
    requires 0 < n
    ensures AlignUp(x, n) <= c <==> x <= AlignDown(c, n)
  {
    var k, q := AlignUp(x, n) / n, c / n;
    assert AlignUp(x, n) == k * n && AlignDown(c, n) == q * n && c < q * n + n == (q + 1) * n;
    if AlignUp(x, n) <= c {
      Cancel(k, q + 1, n);
      Product(k, q, n);
    }
    if x <= AlignDown(c, n) {
      Cancel(k, q + 1, n);
      Product(k, q, n);
    }
  }

  lemma AlignDownNext(c: nat, n: nat)
    requires 0 < n <= c
    ensures AlignDown(c, n) == AlignDown(c - n, n) + n
  {
    var q := c / n;
    assert (q - 1) * n == q * n - n;
    Division(c - n, q - 1, c % n, n);
  }

  /** A payload fits the carrier if and only if it is no longer than the payload MTU. */
  lemma MtuExact(p: Params, payload: nat, carrier: nat)
    requires 0 < p.blockSize
    ensures PacketLen(p, payload) <= carrier <==> payload <= PayloadMtu(p, carrier)
  {
    if p.haveEncryption {
      hide AlignUp, HeaderLen;
      if carrier >= p.blockSize {
        AlignBounds(HeaderLen(p) + payload + 1, carrier - p.blockSize, p.blockSize);
        AlignDownNext(carrier, p.blockSize);
        hide AlignDown;
      } else {
        assert AlignDown(carrier, p.blockSize) <= carrier;
      }
    }
  }

  // ----- encoding

  function Zeros(n: nat): (r: seq<byte>)
    ensures |r| == n && forall i :: 0 <= i < n ==> r[i] == 0
  {
    seq(n, _ => 0)
  }

  function OtpData(p: Params, m: Message): (r: seq<byte>)
    requires MessageOk(p, m)
    ensures |r| == OtpLen(p)
  {
    if p.haveOtp then Le(m.seedId, 2) + m.otp else []
  }

  /** The header with the hash field zeroed, and the payload: what both sides hash. */
  function Hashed(p: Params, m: Message): seq<byte>
    requires MessageOk(p, m)
  {
    OtpData(p, m) + Zeros(HashLen(p)) + m.payload
  }

  function Plaintext(p: Params, c: Crypto, m: Message): seq<byte>
    requires MessageOk(p, m)
  {
    if p.haveHash then OtpData(p, m) + c.hash(Hashed(p, m)) + m.payload else OtpData(p, m) + m.payload
  }

  function Padded(s: seq<byte>, block: nat): (r: seq<byte>)
    requires 0 < block
    ensures |r| == AlignUp(|s| + 1, block)
  {
    s + [1] + Zeros(AlignUp(|s| + 1, block) - |s| - 1)
  }

  function Encode(p: Params, c: Crypto, iv: seq<byte>, m: Message): seq<byte>
    requires 0 < p.blockSize && MessageOk(p, m)
  {
    if p.haveEncryption then iv + c.encrypt(Padded(Plaintext(p, c, m), p.blockSize), iv) else Plaintext(p, c, m)
  }

  // ----- decoding

  /** The place of the padding's 1, searched back to `low` over zeros. */
  function PadAt(s: seq<byte>, i: int, low: nat): (r: Option<nat>)
    requires -1 <= i < |s|
    ensures r.Some? ==> low <= r.value <= i && s[r.value] == 1 && forall j :: r.value < j <= i ==> s[j] == 0
    ensures r.None? ==> forall k :: low <= k <= i && s[k] == 1 ==> exists j :: k < j <= i && s[j] != 0
    decreases i + 1
  {
    if i < low then None else if s[i] == 1 then Some(i) else if s[i] != 0 then None else PadAt(s, i - 1, low)
  }

  function Opened(p: Params, c: Crypto, haveKey: bool, packet: seq<byte>): Option<seq<byte>>
    requires 0 < p.blockSize
  {
    if !p.haveEncryption then Some(packet)
    else if |packet| % p.blockSize != 0 || |packet| < p.blockSize || !haveKey then None
    else Unpadded(c.decrypt(packet[p.blockSize..], packet[..p.blockSize]), p.blockSize)
  }

  function Unpadded(s: seq<byte>, block: nat): Option<seq<byte>>
    requires 0 < block
  {
    if |s| < block then None
    else
      var k := PadAt(s, |s| - 1, |s| - block);
      if k.None? then None else Some(s[..k.value])
  }

  function Stripped(p: Params, c: Crypto, mtu: nat, s: seq<byte>): Option<Message> {
    var h := HeaderLen(p);
    if |s| < h || |s| - h > mtu then None
    else
      var o := OtpLen(p);
      if p.haveHash && s[o..h] != c.hash(s[..o] + Zeros(p.hashSize) + s[h..]) then None
      else if p.haveOtp then Some(Message(FromLe(s[..2]), s[2..o], s[h..]))
      else Some(Message(0, [], s[h..]))
  }

  function Decode(p: Params, c: Crypto, haveKey: bool, mtu: nat, packet: seq<byte>): Option<Message>
    requires 0 < p.blockSize
  {
    var s := Opened(p, c, haveKey, packet);
    if s.None? then None else Stripped(p, c, mtu, s.value)
  }

  // ----- theorems

  /** The padding is 1 to blockSize bytes, and is found again. */
  lemma PadFound(s: seq<byte>, block: nat)
    requires 0 < block
    ensures var t := Padded(s, block);
            |t| >= block && PadAt(t, |t| - 1, |t| - block) == Some(|s|) && t[..|s|] == s && |t| % block == 0
  {
    var t := Padded(s, block);
    Positive(|t|, block);
    PadIs(t, |t| - 1, |t| - block, |s|);
  }

  lemma {:induction false} PadIs(s: seq<byte>, i: int, low: int, k: nat)
    requires low <= k <= i < |s| && s[k] == 1 && forall j :: k < j <= i ==> s[j] == 0
    ensures 0 <= low ==> PadAt(s, i, low) == Some(k)
  {
    if k < i { PadIs(s, i - 1, low, k); }
  }

  lemma Positive(a: nat, n: nat)
    requires 0 < n && 0 < a && a % n == 0
    ensures a >= n
  {
  }

  /** Both sides hash the same bytes, so the packet of a message opens to the message. */
  lemma StrippedPlaintext(p: Params, c: Crypto, mtu: nat, m: Message)
    requires Fits(p, c) && MessageOk(p, m)
    ensures Stripped(p, c, mtu, Plaintext(p, c, m)) == if |m.payload| <= mtu then Some(m) else None
  {
    var s, o, h := Plaintext(p, c, m), OtpLen(p), HeaderLen(p);
    var field := if p.haveHash then c.hash(Hashed(p, m)) else [];
    assert s == OtpData(p, m) + field + m.payload && |field| == HashLen(p);
    assert s[..o] == OtpData(p, m) && s[o..h] == field && s[h..] == m.payload;
    if p.haveOtp {
      Powers();
      FromLeLe(m.seedId, 2);
      assert s[..2] == s[..o][..2] == Le(m.seedId, 2) && s[2..o] == s[..o][2..] == m.otp;
    }
  }

  /** A plaintext is the seed number, least significant byte first, the one-time password, the
      hash and the payload, those that are used. */
  lemma PlaintextBytes(p: Params, c: Crypto, m: Message)
    requires Fits(p, c) && MessageOk(p, m)
    ensures Plaintext(p, c, m) == (if p.haveOtp then [m.seedId % 0x100, m.seedId / 0x100] + m.otp else [])
                                  + (if p.haveHash then c.hash(Hashed(p, m)) else []) + m.payload
  {
    hide Le, Hashed, Fits;
    if p.haveOtp {
      LeTop(m.seedId, 2);
      LeTop(m.seedId / 0x100, 1);
      NoBytes(m.seedId / 0x100 / 0x100);
    }
    assert OtpData(p, m) + [] == OtpData(p, m);
  }

  lemma NoBytes(n: nat)
    ensures Le(n, 0) == []
  {
  }

  /** Only messages come out of the decoder. */
  lemma DecodedOk(p: Params, c: Crypto, haveKey: bool, mtu: nat, packet: seq<byte>)
    requires Fits(p, c) && Decode(p, c, haveKey, mtu, packet).Some?
    ensures MessageOk(p, Decode(p, c, haveKey, mtu, packet).value)
  {
    hide Opened;
    Powers();
  }

  /** What both sides hash is the whole plaintext with the bytes of the hash field zeroed. */
  lemma HashedBytes(p: Params, c: Crypto, m: Message)
    requires Fits(p, c) && MessageOk(p, m)
    ensures |Hashed(p, m)| == |Plaintext(p, c, m)|
    ensures forall k :: 0 <= k < |Hashed(p, m)| ==>
              Hashed(p, m)[k] == if OtpLen(p) <= k < HeaderLen(p) then 0 else Plaintext(p, c, m)[k]
  {
    assert OtpData(p, m) + [] == OtpData(p, m);
  }

  /** Two messages whose packets are accepted with the same hash field are the same, or their
      plaintexts with that field zeroed are two different strings with one hash. */
  lemma SameHash(p: Params, c: Crypto, mtu: nat, a: seq<byte>, b: seq<byte>)
    requires Fits(p, c) && p.haveHash && Stripped(p, c, mtu, a).Some? && Stripped(p, c, mtu, b).Some?
    requires |a| >= HeaderLen(p) && |b| >= HeaderLen(p) && a[OtpLen(p)..HeaderLen(p)] == b[OtpLen(p)..HeaderLen(p)]
    ensures a == b || (Zeroed(p, a) != Zeroed(p, b) && c.hash(Zeroed(p, a)) == c.hash(Zeroed(p, b)))
  {
    var o, h := OtpLen(p), HeaderLen(p);
    if Zeroed(p, a) == Zeroed(p, b) {
      assert a[..o] == Zeroed(p, a)[..o] && b[..o] == Zeroed(p, b)[..o];
      assert a[h..] == Zeroed(p, a)[h..] && b[h..] == Zeroed(p, b)[h..];
      assert a == a[..o] + a[o..h] + a[h..] && b == b[..o] + b[o..h] + b[h..];
    } else {
      ZeroedIs(p, a);
      ZeroedIs(p, b);
    }
  }

  /** The bytes of a plaintext, but for those of its hash field, which are zero. */
  function Zeroed(p: Params, s: seq<byte>): (r: seq<byte>)
    ensures |r| == |s|
  {
    seq(|s|, k requires 0 <= k < |s| => if OtpLen(p) <= k < HeaderLen(p) then 0 else s[k])
  }

  lemma ZeroedIs(p: Params, s: seq<byte>)
    requires |s| >= HeaderLen(p)
    ensures Zeroed(p, s) == s[..OtpLen(p)] + Zeros(HashLen(p)) + s[HeaderLen(p)..]
  {
  }

  /** Every payload up to the MTU comes back, with its seed number and one-time password. */
  lemma RoundTrip(p: Params, c: Crypto, mtu: nat, iv: seq<byte>, m: Message)
    requires 0 < p.blockSize && Fits(p, c) && MessageOk(p, m) && |iv| == p.blockSize && |m.payload| <= mtu
    ensures Decode(p, c, true, mtu, Encode(p, c, iv, m)) == Some(m)
    ensures |Encode(p, c, iv, m)| == PacketLen(p, |m.payload|)
  {
    hide Plaintext, Stripped, Opened, Padded, MessageOk, HeaderLen, AlignUp, Fits;
    PlaintextLen(p, c, m);
    StrippedPlaintext(p, c, mtu, m);
    OpenedEncoded(p, c, iv, Plaintext(p, c, m));
  }

  lemma PlaintextLen(p: Params, c: Crypto, m: Message)
    requires Fits(p, c) && MessageOk(p, m)
    ensures 0 < p.blockSize && |Plaintext(p, c, m)| == HeaderLen(p) + |m.payload|
  {
  }

  lemma Undone(p: Params, c: Crypto, x: seq<byte>, iv: seq<byte>)
    requires Fits(p, c) && |x| % p.blockSize == 0 && |iv| == p.blockSize
    ensures |c.encrypt(x, iv)| == |x| && c.decrypt(c.encrypt(x, iv), iv) == x
  {
  }

  lemma OpenedEncoded(p: Params, c: Crypto, iv: seq<byte>, s: seq<byte>)
    requires 0 < p.blockSize && Fits(p, c) && |iv| == p.blockSize
    ensures var packet := if p.haveEncryption then iv + c.encrypt(Padded(s, p.blockSize), iv) else s;
            && Opened(p, c, true, packet) == Some(s)
            && |packet| == if p.haveEncryption then p.blockSize + AlignUp(|s| + 1, p.blockSize) else |s|
  {
    hide Fits, Padded, PadAt, AlignUp;
    if p.haveEncryption {
      var n, t := p.blockSize, Padded(s, p.blockSize);
      PadFound(s, n);
      Undone(p, c, t, iv);
      BlocksBefore(|t|, n);
      var packet := iv + c.encrypt(t, iv);
      assert packet[n..] == c.encrypt(t, iv) && packet[..n] == iv;
    }
  }

  /** The decoder accepts a packet if and only if it holds the plaintext of the message: as it
      is, or decrypted, followed by a 1 and zeros that take 1 to blockSize bytes. */
  lemma Accepted(p: Params, c: Crypto, haveKey: bool, mtu: nat, packet: seq<byte>, m: Message)
    requires Fits(p, c) && MessageOk(p, m)
    ensures Decode(p, c, haveKey, mtu, packet) == Some(m) <==>
              |m.payload| <= mtu && Carries(p, c, haveKey, packet, Plaintext(p, c, m))
  {
    var s := Opened(p, c, haveKey, packet);
    OpenedIff(p, c, haveKey, packet, Plaintext(p, c, m));
    StrippedPlaintext(p, c, mtu, m);
    if s.Some? && Stripped(p, c, mtu, s.value) == Some(m) {
      PlaintextStripped(p, c, mtu, s.value, m);
    }
  }

  ghost predicate Carries(p: Params, c: Crypto, haveKey: bool, packet: seq<byte>, plain: seq<byte>)
    requires 0 < p.blockSize
  {
    if !p.haveEncryption then packet == plain
    else
      && haveKey && |packet| % p.blockSize == 0 && |packet| >= 2 * p.blockSize
      && exists n :: 0 <= n < p.blockSize && c.decrypt(packet[p.blockSize..], packet[..p.blockSize]) == plain + [1] + Zeros(n)
  }

  lemma OpenedIff(p: Params, c: Crypto, haveKey: bool, packet: seq<byte>, plain: seq<byte>)
    requires Fits(p, c)
    ensures Opened(p, c, haveKey, packet) == Some(plain) <==> Carries(p, c, haveKey, packet, plain)
  {
    hide PadAt, Fits;
    Blocks(p, c);
    if p.haveEncryption && |packet| % p.blockSize == 0 && |packet| >= p.blockSize && haveKey {
      DecryptedLen(p, c, packet);
      var s := c.decrypt(packet[p.blockSize..], packet[..p.blockSize]);
      if |s| >= p.blockSize {
        UnpadIff(s, p.blockSize, plain);
      }
    }
  }

  lemma Blocks(p: Params, c: Crypto)
    requires Fits(p, c)
    ensures 0 < p.blockSize
  {
  }

  lemma DecryptedLen(p: Params, c: Crypto, packet: seq<byte>)
    requires Fits(p, c) && |packet| % p.blockSize == 0 && |packet| >= p.blockSize
    ensures |c.decrypt(packet[p.blockSize..], packet[..p.blockSize])| == |packet| - p.blockSize
  {
    BlocksAfter(|packet|, p.blockSize);
  }

  lemma UnpadIff(s: seq<byte>, block: nat, plain: seq<byte>)
    requires 0 < block <= |s|
    ensures var k := PadAt(s, |s| - 1, |s| - block);
            k.Some? && s[..k.value] == plain <==> exists n :: 0 <= n < block && s == plain + [1] + Zeros(n)
  {
    var k := PadAt(s, |s| - 1, |s| - block);
    if k.Some? && s[..k.value] == plain {
      var n := |s| - k.value - 1;
      assert s == plain + [1] + Zeros(n);
    }
    if n :| 0 <= n < block && s == plain + [1] + Zeros(n) {
      var at := |plain|;
      assert s[at] == 1 && forall j :: at < j < |s| ==> s[j] == 0;
      PadIs(s, |s| - 1, |s| - block, at);
    }
  }

  lemma PlaintextStripped(p: Params, c: Crypto, mtu: nat, s: seq<byte>, m: Message)
    requires Fits(p, c) && MessageOk(p, m) && Stripped(p, c, mtu, s) == Some(m)
    ensures s == Plaintext(p, c, m) && |m.payload| <= mtu
  {
    var o, h := OtpLen(p), HeaderLen(p);
    if p.haveOtp {
      LeFromLe(s[..2]);
      assert s[..o] == s[..2] + s[2..o];
    } else {
      assert s[..o] == [];
    }
    assert s[..o] == OtpData(p, m);
    assert s == s[..o] + s[o..h] + s[h..];
  }
}
