/** The chunk format of protocol/fragmentproto.h: what the disassembler writes and the
    assembler reads back. */
module FragmentProto {
  import opened Wrappers
  import opened LittleEndian

  const HEADER := 7
  const ID_LIMIT := 0x1_0000

  type u16 = x: int | 0 <= x < ID_LIMIT

  /** A piece of frame `id`; `last` marks the piece that ends the frame. */
  datatype Chunk = Chunk(id: u16, start: u16, data: seq<byte>, last: bool)
  {
    function End(): nat { start + |data| }
  }

  function Le16(n: u16): (r: seq<byte>)
    ensures |r| == 2
  {
    Le(n, 2)
  }

  function FromLe16(s: seq<byte>): u16
    requires |s| == 2
  {
    Powers();
    FromLe(s)
  }

  lemma Le16Back(n: u16)
    ensures FromLe16(Le16(n)) == n
  {
    Powers();
    FromLeLe(n, 2);
  }

  function Header(c: Chunk): (r: seq<byte>)
    requires |c.data| < ID_LIMIT
    ensures |r| == HEADER
  {
    Le16(c.id) + Le16(c.start) + Le16(|c.data|) + [if c.last then 1 else 0]
  }

  function EncodeChunk(c: Chunk): (r: seq<byte>)
    requires |c.data| < ID_LIMIT
    ensures |r| == HEADER + |c.data|
  {
    Header(c) + c.data
  }

  predicate Fits(cs: seq<Chunk>) {
    forall c :: c in cs ==> |c.data| < ID_LIMIT
  }

  function Encode(cs: seq<Chunk>): seq<byte>
    requires Fits(cs)
  {
    if cs == [] then [] else EncodeChunk(cs[0]) + Encode(cs[1..])
  }

  /** A chunk starts with frame number, place and length, least significant byte first, and
      whether it is the last. */
  lemma HeaderBytes(c: Chunk)
    requires |c.data| < ID_LIMIT
    ensures EncodeChunk(c) ==
              [c.id % 0x100, c.id / 0x100, c.start % 0x100, c.start / 0x100, |c.data| % 0x100, |c.data| / 0x100,
               if c.last then 1 else 0] + c.data
  {
    hide Le16;
    Le16Bytes(c.id);
    Le16Bytes(c.start);
    Le16Bytes(|c.data|);
    assert Header(c) == Le16(c.id) + Le16(c.start) + Le16(|c.data|) + [if c.last then 1 else 0];
  }

  lemma Le16Bytes(n: u16)
    ensures Le16(n) == [n % 0x100, n / 0x100]
  {
    hide Le;
    LeTop(n, 2);
    LeTop(n / 0x100, 1);
    assert Le(n / 0x100 / 0x100, 0) == [];
  }

  /** The first chunk of a packet and what follows it; None where the reader stops, at the
      end of the packet or at the first malformed chunk. */
  function Parse(p: seq<byte>): (r: Option<(Chunk, seq<byte>)>)
    ensures r.Some? ==> |r.value.1| < |p| && |r.value.0.data| < ID_LIMIT
  {
    if |p| < HEADER then None
    else
      var len := FromLe16(p[4..6]);
      if p[6] > 1 || |p| - HEADER < len then None
      else Some((Chunk(FromLe16(p[..2]), FromLe16(p[2..4]), p[HEADER..HEADER + len], p[6] == 1), p[HEADER + len..]))
  }

  function ParseAll(p: seq<byte>): (r: seq<Chunk>)
    ensures Fits(r)
    decreases |p|
  {
    var r := Parse(p);
    if r.None? then [] else [r.value.0] + ParseAll(r.value.1)
  }

  lemma ParseChunk(c: Chunk, rest: seq<byte>)
    requires |c.data| < ID_LIMIT
    ensures Parse(EncodeChunk(c) + rest) == Some((c, rest))
  {
    var p := EncodeChunk(c) + rest;
    assert p[..2] == Le16(c.id) && p[2..4] == Le16(c.start) && p[4..6] == Le16(|c.data|);
    Le16Back(c.id);
    Le16Back(c.start);
    Le16Back(|c.data|);
    assert p[HEADER..HEADER + |c.data|] == c.data;
    assert p[HEADER + |c.data|..] == rest;
  }

  /** The reader takes a chunk exactly where one was written, and stops everywhere else. */
  lemma ParseExact(p: seq<byte>, c: Chunk, rest: seq<byte>)
    ensures Parse(p) == Some((c, rest)) <==> |c.data| < ID_LIMIT && p == EncodeChunk(c) + rest
  {
    if |c.data| < ID_LIMIT && p == EncodeChunk(c) + rest { ParseChunk(c, rest); }
    if Parse(p) == Some((c, rest)) {
      Le16Read(p[..2]);
      Le16Read(p[2..4]);
      Le16Read(p[4..6]);
      assert p[..7] == p[..2] + p[2..4] + p[4..6] + [p[6]];
      assert p == p[..7] + c.data + rest;
    }
  }

  lemma Le16Read(s: seq<byte>)
    requires |s| == 2
    ensures Le16(FromLe16(s)) == s
  {
    LeFromLe(s);
  }

  /** A packet is read up to its first place where no chunk stands. */
  lemma {:induction false} ParseAllExact(p: seq<byte>) returns (rest: seq<byte>)
    ensures p == Encode(ParseAll(p)) + rest && forall c: Chunk, t :: |c.data| < ID_LIMIT ==> rest != EncodeChunk(c) + t
    decreases |p|
  {
    var r := Parse(p);
    if r.None? {
      rest := p;
      assert Encode([]) + p == p;
      forall c: Chunk, t: seq<byte> | |c.data| < ID_LIMIT ensures p != EncodeChunk(c) + t { ParseExact(p, c, t); }
    } else {
      var (c, t) := r.value;
      rest := ParseAllExact(t);
      ParseExact(p, c, t);
      assert ([c] + ParseAll(t))[1..] == ParseAll(t);
      assert EncodeChunk(c) + (Encode(ParseAll(t)) + rest) == (EncodeChunk(c) + Encode(ParseAll(t))) + rest;
    }
  }

  /** Reading back a written packet gives its chunks. */
  lemma {:induction false} ParseEncode(cs: seq<Chunk>)
    requires Fits(cs)
    ensures ParseAll(Encode(cs)) == cs
  {
    if cs != [] {
      ParseChunk(cs[0], Encode(cs[1..]));
      ParseEncode(cs[1..]);
    }
  }

  lemma FitsConcat(a: seq<Chunk>, b: seq<Chunk>)
    requires Fits(a) && Fits(b)
    ensures Fits(a + b)
  {
  }

  lemma EncodeHead(cs: seq<Chunk>)
    requires Fits(cs) && cs != []
    ensures Fits(cs[1..]) && |cs[0].data| < ID_LIMIT && Encode(cs) == EncodeChunk(cs[0]) + Encode(cs[1..])
  {
  }

  lemma {:induction false} EncodeConcat(a: seq<Chunk>, b: seq<Chunk>)
    requires Fits(a) && Fits(b)
    ensures Fits(a + b) && Encode(a + b) == Encode(a) + Encode(b)
  {
    hide EncodeChunk, Fits;
    FitsConcat(a, b);
    if a == [] {
      assert a + b == b;
    } else {
      hide Encode;
      EncodeHead(a);
      EncodeHead(a + b);
      EncodeConcat(a[1..], b);
      assert (a + b)[1..] == a[1..] + b;
      var x, y, z := EncodeChunk(a[0]), Encode(a[1..]), Encode(b);
      assert x + (y + z) == x + y + z;
    }
  }
}
