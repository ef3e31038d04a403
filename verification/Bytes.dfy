/** Bytes and the little-endian integers the on-disk and hashed formats use. */
module Bytes {

  type byte = b: int | 0 <= b < 256

  type u32 = n: int | 0 <= n < 0x1_0000_0000

  type u64 = n: int | 0 <= n < 0x1_0000_0000_0000_0000

  /** A 32-byte content address. */
  type Hash32 = h: seq<byte> | |h| == 32 witness seq(32, i => 0)

  function ZeroHash(): Hash32 {
    seq(32, i => 0)
  }

  function Pow256(k: nat): (p: nat)
    ensures p >= 1
  {
    if k == 0 then 1 else 256 * Pow256(k - 1)
  }

  /** The `k` low bytes of `n`, least significant first. */
  function Le(n: nat, k: nat): (bytes: seq<byte>)
    ensures |bytes| == k
    decreases k, n
  {
    if k == 0 then [] else [n % 256] + Le(n / 256, k - 1)
  }

  /** The number a little-endian byte string stands for. */
  function Value(bytes: seq<byte>): nat {
    if bytes == [] then 0 else bytes[0] + 256 * Value(bytes[1..])
  }

  lemma {:induction false} ValueOfLe(n: nat, k: nat)
    requires n < Pow256(k)
    ensures Value(Le(n, k)) == n
    decreases k
  {
    if k > 0 {
      ValueOfLe(n / 256, k - 1);
      assert Le(n, k)[1..] == Le(n / 256, k - 1);
    }
  }

  lemma Pow256Of4()
    ensures Pow256(4) == 0x1_0000_0000
  {
    assert Pow256(2) == 256 * 256;
    assert Pow256(4) == 256 * 256 * Pow256(2);
  }

  lemma Pow256Of8()
    ensures Pow256(8) == 0x1_0000_0000_0000_0000
  {
    Pow256Of4();
    assert Pow256(6) == 256 * 256 * Pow256(4);
    assert Pow256(8) == 256 * 256 * Pow256(6);
  }

  lemma ValueOfLe64(n: u64)
    ensures Value(Le(n, 8)) == n
  {
    Pow256Of8();
    ValueOfLe(n, 8);
  }

  lemma ValueOfLe32(n: u32)
    ensures Value(Le(n, 4)) == n
  {
    Pow256Of4();
    ValueOfLe(n, 4);
  }

  lemma Le32Injective(m: u32, n: u32)
    requires Le(m, 4) == Le(n, 4)
    ensures m == n
  {
    ValueOfLe32(m);
    ValueOfLe32(n);
  }

  lemma Le64Injective(m: u64, n: u64)
    requires Le(m, 8) == Le(n, 8)
    ensures m == n
  {
    ValueOfLe64(m);
    ValueOfLe64(n);
  }

  /** `part` stands at `at`, and `rest` follows it to the end. */
  predicate StandsAt(bytes: seq<byte>, at: nat, part: seq<byte>, rest: seq<byte>) {
    at + |part| <= |bytes| && bytes[at..at + |part|] == part && bytes[at + |part|..] == rest
  }

  /** Going on from one part to the next. */
  lemma NextPart(bytes: seq<byte>, at: nat, part: seq<byte>, rest: seq<byte>)
    requires at <= |bytes| && bytes[at..] == part + rest
    ensures StandsAt(bytes, at, part, rest)
  {
    var tail := bytes[at..];
    assert tail[..|part|] == part && tail[|part|..] == rest;
    assert bytes[at..at + |part|] == tail[..|part|] && bytes[at + |part|..] == tail[|part|..];
  }

  /** Two concatenations with equally long heads agree only if the heads and the tails do. */
  lemma SplitEqual(a: seq<byte>, u: seq<byte>, b: seq<byte>, v: seq<byte>)
    requires |a| == |b| && a + u == b + v
    ensures a == b && u == v
  {
    assert a == (a + u)[..|a|] && b == (b + v)[..|b|];
    assert u == (a + u)[|a|..] && v == (b + v)[|b|..];
  }
}
