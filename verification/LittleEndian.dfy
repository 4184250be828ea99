/** Little-endian numbers, as misc/byteorder.h lays them out. */
module LittleEndian {
  import opened Wrappers

  function Pow256(k: nat): (r: nat)
    ensures r > 0
  {
    if k == 0 then 1 else 256 * Pow256(k - 1)
  }

  function Le(n: nat, k: nat): (r: seq<byte>)
    ensures |r| == k
  {
    if k == 0 then [] else [n % 256] + Le(n / 256, k - 1)
  }

  function FromLe(s: seq<byte>): (n: nat)
    ensures n < Pow256(|s|)
  {
    if s == [] then 0 else s[0] as int + 256 * FromLe(s[1..])
  }

  lemma {:induction false} FromLeLe(n: nat, k: nat)
    requires n < Pow256(k)
    ensures FromLe(Le(n, k)) == n
  {
    if k > 0 {
      FromLeLe(n / 256, k - 1);
      assert Le(n, k)[1..] == Le(n / 256, k - 1);
    }
  }

  lemma {:induction false} LeFromLe(s: seq<byte>)
    ensures Le(FromLe(s), |s|) == s
  {
    if s != [] {
      LeFromLe(s[1..]);
      assert s == [s[0]] + s[1..];
    }
  }

  lemma Powers()
    ensures Pow256(1) == 0x100 && Pow256(2) == 0x1_0000 && Pow256(4) == 0x1_0000_0000
  {
    assert Pow256(2) == 256 * Pow256(1) && Pow256(3) == 256 * Pow256(2);
  }

  lemma Quotients(n: nat)
    ensures n / 0x100 / 0x100 == n / 0x1_0000 && n / 0x1_0000 / 0x100 == n / 0x100_0000
    ensures n / 0x100_0000 / 0x100 == n / 0x1_0000_0000
  {
  }

  lemma LeTop(n: nat, k: nat)
    requires 0 < k
    ensures Le(n, k) == [n % 0x100] + Le(n / 0x100, k - 1)
  {
  }

  /** The least significant byte comes first. */
  lemma LeBytes(n: nat)
    ensures Le(n, 1) == [n % 0x100]
    ensures Le(n, 2) == [n % 0x100, n / 0x100 % 0x100]
    ensures Le(n, 4) == [n % 0x100, n / 0x100 % 0x100, n / 0x1_0000 % 0x100, n / 0x100_0000 % 0x100]
    ensures Le(n, 8) == Le(n, 4) + Le(n / 0x1_0000_0000, 4)
  {
    hide Le;
    LeTop(n, 1);
    LeTop(n, 2);
    LeTop(n / 0x100, 1);
    LeFour(n, 4);
    LeFour(n, 8);
    assert Le(n, 4) == Le(n, 4)[..4];
  }

  lemma LeFour(n: nat, k: nat)
    requires 4 <= k
    ensures Le(n, k) == [n % 0x100, n / 0x100 % 0x100, n / 0x1_0000 % 0x100, n / 0x100_0000 % 0x100] + Le(n / 0x1_0000_0000, k - 4)
  {
    hide Le;
    Quotients(n);
    LeTop(n, k);
    LeTop(n / 0x100, k - 1);
    LeTop(n / 0x1_0000, k - 2);
    LeTop(n / 0x100_0000, k - 3);
  }
}
