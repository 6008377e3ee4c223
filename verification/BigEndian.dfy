/** Numbers as big-endian bytes. */
module BigEndian {
  import opened Base64Url

  function Pow256(n: nat): (p: nat)
    ensures p > 0
  {
    if n == 0 then 1 else 256 * Pow256(n - 1)
  }

  function ToBigEndian(x: nat, n: nat): (b: seq<Byte>)
    requires x < Pow256(n)
    ensures |b| == n
  {
    if n == 0 then [] else ToBigEndian(x / 256, n - 1) + [x % 256]
  }

  function FromBigEndian(b: seq<Byte>): nat {
    if b == [] then 0 else FromBigEndian(b[..|b| - 1]) * 256 + b[|b| - 1]
  }

  lemma {:induction false} BigEndianRoundTrip(x: nat, n: nat)
    requires x < Pow256(n)
    ensures FromBigEndian(ToBigEndian(x, n)) == x
  {
    if n > 0 {
      BigEndianRoundTrip(x / 256, n - 1);
      var b := ToBigEndian(x, n);
      assert b[..n - 1] == ToBigEndian(x / 256, n - 1) && b[n - 1] == x % 256;
    }
  }

  /** The first byte weighs most. */
  lemma FourBytes(b: seq<Byte>)
    requires |b| == 4
    ensures var b0: int, b1: int, b2: int := b[0], b[1], b[2];
      FromBigEndian(b) == b0 * 0x100_0000 + b1 * 0x1_0000 + b2 * 0x100 + b[3]
  {
    var b0: int, b1: int, b2: int := b[0], b[1], b[2];
    assert b[..3][..2] == b[..2] && b[..2][..1] == b[..1] && b[..1][..0] == [];
    assert FromBigEndian(b[..1]) == b0;
    assert FromBigEndian(b[..2]) == b0 * 0x100 + b1;
    assert FromBigEndian(b[..3]) == b0 * 0x1_0000 + b1 * 0x100 + b2;
  }
}
