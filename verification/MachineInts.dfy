// Rust's fixed-width integers and their big-endian bytes.
module MachineInts {
  import opened Base64

  type U32 = x: int | 0 <= x < 0x1_0000_0000
  type U64 = x: int | 0 <= x < 0x1_0000_0000_0000_0000
  type I64 = x: int | -0x8000_0000_0000_0000 <= x < 0x8000_0000_0000_0000

  function Pow256(n: nat): nat {
    if n == 0 then 1 else 256 * Pow256(n - 1)
  }

  /** The low `n` bytes of `x`, most significant first. */
  function BigEndian(n: nat, x: nat): (r: Bytes)
    ensures |r| == n
  {
    if n == 0 then [] else BigEndian(n - 1, x / 256) + [x % 256]
  }

  function FromBigEndian(b: Bytes): nat {
    if b == [] then 0 else 256 * FromBigEndian(b[..|b| - 1]) + b[|b| - 1]
  }

  lemma {:induction false} BigEndianInverts(n: nat, x: nat)
    requires x < Pow256(n)
    ensures FromBigEndian(BigEndian(n, x)) == x
  {
    if n > 0 {
      BigEndianInverts(n - 1, x / 256);
      assert BigEndian(n, x)[..n - 1] == BigEndian(n - 1, x / 256);
    }
  }

  lemma {:induction false} FromBigEndianInverts(b: Bytes)
    ensures FromBigEndian(b) < Pow256(|b|)
    ensures BigEndian(|b|, FromBigEndian(b)) == b
  {
    if b != [] {
      FromBigEndianInverts(b[..|b| - 1]);
      assert b == b[..|b| - 1] + [b[|b| - 1]];
    }
  }

  lemma EightBytes()
    ensures Pow256(8) == 0x1_0000_0000_0000_0000
  {
    assert Pow256(4) == 0x1_0000_0000;
  }

  /** The unsigned reading of a two's-complement word, and back. */
  function Unsigned(x: I64): U64 {
    if x < 0 then x + 0x1_0000_0000_0000_0000 else x
  }

  function Signed(x: U64): I64 {
    if x >= 0x8000_0000_0000_0000 then x - 0x1_0000_0000_0000_0000 else x
  }

  function U64Bytes(x: U64): (r: Bytes)
    ensures |r| == 8
  {
    BigEndian(8, x)
  }

  function ReadU64(b: Bytes): U64
    requires |b| == 8
  {
    FromBigEndianInverts(b);
    EightBytes();
    FromBigEndian(b)
  }

  /** `to_be_bytes` and `from_be_bytes` of `u64` undo each other. */
  lemma U64Inverts(x: U64, b: Bytes)
    requires |b| == 8
    ensures b == U64Bytes(x) <==> ReadU64(b) == x
  {
    EightBytes();
    BigEndianInverts(8, x);
    FromBigEndianInverts(b);
  }

  function I64Bytes(x: I64): (r: Bytes)
    ensures |r| == 8
  {
    U64Bytes(Unsigned(x))
  }

  function ReadI64(b: Bytes): I64
    requires |b| == 8
  {
    Signed(ReadU64(b))
  }

  /** The same for `i64`, through two's complement. */
  lemma I64Inverts(x: I64, b: Bytes)
    requires |b| == 8
    ensures b == I64Bytes(x) <==> ReadI64(b) == x
  {
    hide U64Bytes, ReadU64;
    U64Inverts(Unsigned(x), b);
  }

  /** The weight of each byte, the first the highest. */
  lemma U64Weights(b: Bytes)
    requires |b| == 8
    ensures var w: seq<int> := seq(8, i requires 0 <= i < 8 => b[i] as int);
            ReadU64(b) == 0x100_0000_0000_0000 * w[0] + 0x1_0000_0000_0000 * w[1] + 0x100_0000_0000 * w[2]
                          + 0x1_0000_0000 * w[3] + 0x100_0000 * w[4] + 0x1_0000 * w[5] + 0x100 * w[6] + w[7]
  {
    assert FromBigEndian([]) == 0;
    Horner(b, 1);
    Horner(b, 2);
    Horner(b, 3);
    Horner(b, 4);
    Horner(b, 5);
    Horner(b, 6);
    Horner(b, 7);
    Horner(b, 8);
    assert b[..8] == b;
  }

  lemma Horner(b: Bytes, n: nat)
    requires 0 < n <= |b|
    ensures FromBigEndian(b[..n]) == 256 * FromBigEndian(b[..n - 1]) + b[n - 1]
  {
    assert b[..n][..n - 1] == b[..n - 1];
  }

  /** Two's complement: a first byte from 128 on makes the number negative. */
  lemma I64Weights(b: Bytes)
    requires |b| == 8
    ensures ReadI64(b) == ReadU64(b) - if b[0] >= 128 then 0x1_0000_0000_0000_0000 else 0
  {
    U64Weights(b);
  }
}
