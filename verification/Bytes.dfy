// Byte strings and the fixed-width little-endian integers of the log and message formats.
module Bytes {
  type byte = n: int | 0 <= n < 256
  type bytes = seq<byte>

  const TWO_16: int := 0x1_0000
  const TWO_32: int := 0x1_0000_0000
  const TWO_63: int := 0x8000_0000_0000_0000
  const TWO_64: int := 0x1_0000_0000_0000_0000

  function Pow256(k: nat): (r: nat)
    ensures r >= 1
  {
    if k == 0 then 1 else 256 * Pow256(k - 1)
  }

  lemma Widths()
    ensures Pow256(1) == 0x100
    ensures Pow256(2) == TWO_16
    ensures Pow256(4) == TWO_32
    ensures Pow256(8) == TWO_64
  {
    assert Pow256(3) == 256 * Pow256(2);
    assert Pow256(4) == 256 * Pow256(3);
    assert Pow256(5) == 256 * Pow256(4);
    assert Pow256(6) == 256 * Pow256(5);
    assert Pow256(7) == 256 * Pow256(6);
    assert Pow256(8) == 256 * Pow256(7);
  }

  // The low k bytes of n, least significant first (binary.LittleEndian, with Go's truncating conversions).
  function LE(n: nat, k: nat): (b: bytes)
    ensures |b| == k
  {
    if k == 0 then [] else [n % 256] + LE(n / 256, k - 1)
  }

  function UnLE(b: bytes): (n: nat)
    ensures n < Pow256(|b|)
    decreases |b|
  {
    if b == [] then 0 else b[0] + 256 * UnLE(b[1..])
  }

  lemma {:induction false} UnLELE(n: nat, k: nat)
    ensures UnLE(LE(n, k)) == n % Pow256(k)
    decreases k
  {
    if k > 0 {
      var low: byte, rest := n % 256, LE(n / 256, k - 1);
      assert LE(n, k) == [low] + rest;
      assert LE(n, k)[1..] == rest;
      UnLELE(n / 256, k - 1);
      DivMod256(n, Pow256(k - 1));
    }
  }

  // Numbers of two, four and eight bytes, place by place.
  function Two(b: bytes): int
    requires |b| == 2
  {
    b[0] as int + 0x100 * b[1] as int
  }

  function Four(b: bytes): int
    requires |b| == 4
  {
    Two(b[..2]) + 0x1_0000 * Two(b[2..])
  }

  function Eight(b: bytes): int
    requires |b| == 8
  {
    Four(b[..4]) + 0x1_0000_0000 * Four(b[4..])
  }

  // What LE writes, so read.
  lemma Numbers(n: nat)
    ensures Two(LE(n, 2)) == n % 0x1_0000
    ensures Four(LE(n, 4)) == n % 0x1_0000_0000
    ensures Eight(LE(n, 8)) == n % 0x1_0000_0000_0000_0000
  {
    hide LE, UnLE, Pow256;
    Widths();
    UnLELE(n, 2);
    UnLELE(n, 4);
    UnLELE(n, 8);
    Places(LE(n, 2));
    Places(LE(n, 4));
    Places(LE(n, 8));
  }

  lemma Places(b: bytes)
    ensures |b| == 2 ==> UnLE(b) == Two(b)
    ensures |b| == 4 ==> UnLE(b) == Four(b)
    ensures |b| == 8 ==> UnLE(b) == Eight(b)
  {
    if |b| >= 2 {
      UnLETwo(b);
      if |b| >= 4 {
        UnLETwo(b[2..]);
        if |b| == 8 {
          UnLETwo(b[4..]);
          UnLETwo(b[6..]);
        }
      }
    }
  }

  lemma UnLETwo(b: bytes)
    requires |b| >= 2
    ensures UnLE(b) == b[0] + 0x100 * b[1] + 0x1_0000 * UnLE(b[2..])
  {
    assert UnLE(b[1..]) == b[1] + 256 * UnLE(b[2..]) by { assert b[1..][1..] == b[2..]; }
  }

  lemma DivMod256(n: nat, p: nat)
    requires p >= 1
    ensures n % (256 * p) == n % 256 + 256 * ((n / 256) % p)
  {
    var q, r := n / 256, n % 256;
    var a, b := q / p, q % p;
    assert n == 256 * q + r && q == p * a + b;
    assert n == (256 * p) * a + (256 * b + r) by { assert 256 * (p * a) == (256 * p) * a; }
    assert 256 * b + r < 256 * p;
    ModUnique(n, 256 * p, a, 256 * b + r);
  }

  lemma ModUnique(n: nat, m: nat, a: int, r: nat)
    requires m >= 1 && n == m * a + r && r < m
    ensures n % m == r
  {
    var d := n / m - a;
    assert m * d == r - n % m by { assert n == m * (n / m) + n % m; assert m * (n / m) - m * a == m * d; }
    MulAtLeast(m, d);
  }

  lemma MulAtLeast(m: nat, d: int)
    ensures d >= 1 ==> m * d >= m
    ensures d <= -1 ==> m * d <= -(m as int)
  {
  }

  lemma {:induction false} LEUnLE(b: bytes)
    ensures LE(UnLE(b), |b|) == b
    decreases |b|
  {
    if b != [] {
      var lo := b[0];
      var hi := UnLE(b[1..]);
      assert (lo + 256 * hi) % 256 == lo && (lo + 256 * hi) / 256 == hi;
      LEUnLE(b[1..]);
      assert b == [b[0]] + b[1..];
    }
  }

  // uint64(int64(i)): two's complement.
  function Wrap64(i: int): (u: nat)
    ensures u < TWO_64
  {
    i % TWO_64
  }

  // int64(uint64)
  function Signed64(u: nat): int {
    if u < TWO_63 then u else u - TWO_64
  }

  predicate FitsInt64(i: int) {
    -TWO_63 <= i < TWO_63
  }

  lemma Signed64Wrap64(i: int)
    ensures FitsInt64(i) ==> Signed64(Wrap64(i)) == i
  {
  }
}
