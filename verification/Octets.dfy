/** Octets as numbers and as bit-vectors. */
module Octets {

  type octet = x: int | 0 <= x < 256

  type byte = bv8

  function ToByte(x: octet): byte
  {
    x as bv8
  }

  lemma Successor(b: byte)
    requires b as int < 255
    ensures (b + 1) as int == b as int + 1
  {
  }

  lemma ToByteOf(b: byte)
    ensures ToByte(b as int) == b
  {
  }

  lemma {:induction false} ToByteBack(x: octet)
    ensures ToByte(x) as int == x
  {
    hide ToByte;
    if x == 0 {
      ToByteOf(0);
    } else {
      ToByteBack(x - 1);
      Successor(ToByte(x - 1));
      ToByteOf(ToByte(x - 1) + 1);
    }
  }

  function ToBytes(data: seq<octet>): (r: seq<byte>)
    ensures |r| == |data|
  {
    seq(|data|, i requires 0 <= i < |data| => ToByte(data[i]))
  }

  lemma ToByteInjective(x: octet, y: octet)
    requires ToByte(x) == ToByte(y)
    ensures x == y
  {
    hide ToByte;
    ToByteBack(x);
    ToByteBack(y);
  }

  lemma ToBytesInjective(a: seq<octet>, b: seq<octet>)
    requires ToBytes(a) == ToBytes(b)
    ensures a == b
  {
    hide ToByte;
    assert |a| == |ToBytes(a)| == |ToBytes(b)| == |b|;
    forall i | 0 <= i < |a| ensures a[i] == b[i] {
      assert ToBytes(a)[i] == ToBytes(b)[i];
      ToByteInjective(a[i], b[i]);
    }
  }
}
