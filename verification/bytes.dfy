/**
  Fixed-width unsigned integers, and the 4-byte big-endian length prefix that
  both ends of the frame stream agree on (`struct.pack('>I', n)` on the sender,
  `struct.unpack('!I', b)` on the receiver; `>` and `!` are the same layout).
 */
module Bytes {

  const U32Range: int := 0x1_0000_0000

  type Byte = x: int | 0 <= x < 0x100
  type U16 = x: int | 0 <= x < 0x1_0000
  type U32 = x: int | 0 <= x < 0x1_0000_0000

  /** 256 to the power `k`: the number of values `k` bytes can hold. */
  function Pow256(k: nat): (p: nat)
    ensures p > 0
  {
    if k == 0 then 1 else 0x100 * Pow256(k - 1)
  }

  /** The unsigned value of `b`, most significant byte first. */
  function FromBigEndian(b: seq<Byte>): (n: nat)
    ensures n < Pow256(|b|)
  {
    if |b| == 0 then 0
    else FromBigEndian(b[..|b| - 1]) * 0x100 + b[|b| - 1]
  }

  /** The `k` low-order bytes of `n`, most significant first. */
  function ToBigEndian(n: nat, k: nat): (b: seq<Byte>)
    ensures |b| == k
  {
    if k == 0 then [] else ToBigEndian(n / 0x100, k - 1) + [n % 0x100]
  }

  lemma {:induction false} FromToBigEndian(n: nat, k: nat)
    requires n < Pow256(k)
    ensures FromBigEndian(ToBigEndian(n, k)) == n
  {
    if k > 0 {
      var b := ToBigEndian(n, k);
      assert b[..k - 1] == ToBigEndian(n / 0x100, k - 1);
      FromToBigEndian(n / 0x100, k - 1);
    }
  }

  lemma {:induction false} ToFromBigEndian(b: seq<Byte>)
    ensures ToBigEndian(FromBigEndian(b), |b|) == b
  {
    if |b| > 0 {
      var n := FromBigEndian(b);
      assert n / 0x100 == FromBigEndian(b[..|b| - 1]);
      ToFromBigEndian(b[..|b| - 1]);
    }
  }

  /** `struct.unpack('!I', b)`: four bytes, most significant first. */
  function Unpack32(b: seq<Byte>): (n: U32)
    requires |b| == 4
    ensures ToBigEndian(n, 4) == b
  {
    assert Pow256(4) == U32Range;
    ToFromBigEndian(b);
    FromBigEndian(b)
  }

  /** The four bytes weigh 2^24, 2^16, 2^8 and 1, as `!I` prescribes. */
  lemma Unpack32Weights(b: seq<Byte>)
    requires |b| == 4
    ensures Unpack32(b) == (b[0] as int) * 0x100_0000 + (b[1] as int) * 0x1_0000 + (b[2] as int) * 0x100 + (b[3] as int)
  {
    var b0, b1, b2, b3 := b[0] as int, b[1] as int, b[2] as int, b[3] as int;
    assert b[..3][..2][..1][..0] == [];
    assert FromBigEndian(b[..3][..2][..1]) == b0;
    assert FromBigEndian(b[..3][..2]) == b0 * 0x100 + b1;
    assert FromBigEndian(b[..3]) == (b0 * 0x100 + b1) * 0x100 + b2;
  }

  /** `struct.pack('>I', n)`: the header the sender puts in front of every payload. */
  function Pack32(n: U32): (r: seq<Byte>)
    ensures |r| == 4
    ensures Unpack32(r) == n
  {
    assert Pow256(4) == U32Range;
    FromToBigEndian(n, 4);
    ToBigEndian(n, 4)
  }

  /** Every 4-byte header is the packing of the length it decodes to. */
  lemma PackOfUnpack(b: seq<Byte>)
    requires |b| == 4
    ensures Pack32(Unpack32(b)) == b
  {
    ToFromBigEndian(b);
  }
}
