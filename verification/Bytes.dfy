/** Bytes and the big-endian 32-bit integers the encrypted envelope is written in. */
module Bytes {

  type Byte = x: int | 0 <= x < 256

  type Bytes = seq<Byte>

  const TWO_32: nat := 0x1_0000_0000

  type Uint32 = x: int | 0 <= x < 0x1_0000_0000

  // binary.BigEndian.AppendUint32 onto an empty slice.
  function BigEndian(n: Uint32): (b: Bytes)
    ensures |b| == 4
  {
    var hi, lo := n / 0x1_0000, n % 0x1_0000;
    [hi / 0x100, hi % 0x100, lo / 0x100, lo % 0x100]
  }

  // binary.BigEndian.Uint32
  function Unsigned(b: Bytes): (n: Uint32)
    requires |b| == 4
  {
    var b0: int, b1: int, b2: int, b3: int := b[0], b[1], b[2], b[3];
    (b0 * 0x100 + b1) * 0x1_0000 + (b2 * 0x100 + b3)
  }

  lemma BigEndianRoundTrip(n: Uint32)
    ensures Unsigned(BigEndian(n)) == n
  {
  }

  lemma UnsignedRoundTrip(b: Bytes)
    requires |b| == 4
    ensures BigEndian(Unsigned(b)) == b
  {
    var b0: int, b1: int, b2: int, b3: int := b[0], b[1], b[2], b[3];
    var hi, lo := b0 * 0x100 + b1, b2 * 0x100 + b3;
    assert Unsigned(b) / 0x1_0000 == hi && Unsigned(b) % 0x1_0000 == lo;
    assert hi / 0x100 == b0 && hi % 0x100 == b1;
    assert lo / 0x100 == b2 && lo % 0x100 == b3;
  }

  // u + v == u' + v' with pieces of the same sizes: the pieces are equal.
  lemma SameSplit<T>(u: seq<T>, v: seq<T>, u': seq<T>, v': seq<T>)
    requires |u| == |u'| && u + v == u' + v'
    ensures u == u' && v == v'
  {
    assert u == (u + v)[..|u|] && u' == (u' + v')[..|u|];
    assert v == (u + v)[|u|..] && v' == (u' + v')[|u|..];
  }
}
