/**
 The CRC-32 of section 8.1.1.6.2 of ITU-T V.42, as the GPT code computes it: the reflected
 register, bit by bit. It equals a serial register fed one message bit at a time, and it detects
 every error that is confined to 32 consecutive bits.

 The operations on words have names, so that the inductive proofs can hide them from the solver.
 */
module Crc32 {
  import opened Octets

  const ONES: bv32 := 0xFFFF_FFFF

  function Xor(a: bv32, b: bv32): bv32 { a ^ b }

  function Not(a: bv32): bv32 { !a }

  function Half(z: bv32): bv32 { z >> 1 }

  function Lsb(z: bv32): bv32 { z & 1 }

  function Widen(b: byte): bv32 { b as bv32 }

  function Push(b: bv32, w: bv32): bv32 { (w << 1) | b }

  predicate TopClear(w: bv32) { w & 0x8000_0000 == 0 }

  /** The polynomial, masked with all ones or all zeros by the low bit. */
  function Masked(bit: bv32): bv32 { 0xEDB8_8320 & (0 - bit) }

  /** One step of the register. */
  function Step(c: bv32): bv32
  {
    Xor(Half(c), Masked(Lsb(c)))
  }

  function Steps(c: bv32, n: nat): bv32
    decreases n
  {
    if n == 0 then c else Steps(Step(c), n - 1)
  }

  function Update(c: bv32, data: seq<byte>): bv32
    decreases |data|
  {
    if data == [] then c else Update(Steps(Xor(c, Widen(data[0])), 8), data[1..])
  }

  function Crc(data: seq<byte>): bv32
  {
    Not(Update(ONES, data))
  }

  method Crc32Gpt(data: seq<byte>) returns (r: bv32)
    ensures r == Crc(data)
  {
    hide Xor;
    hide Widen;
    hide Step;
    hide Not;
    var crc: bv32 := ONES;
    var i := 0;
    while i < |data|
      invariant i <= |data| && Update(crc, data[i..]) == Update(ONES, data)
    {
      ghost var start := Xor(crc, Widen(data[i]));
      crc := Xor(crc, Widen(data[i]));
      var j := 0;
      while j < 8
        invariant j <= 8 && Steps(crc, 8 - j) == Steps(start, 8)
      {
        crc := Step(crc);
        j := j + 1;
      }
      assert data[i..][1..] == data[i + 1..];
      i := i + 1;
    }
    return Not(crc);
  }

  // ---------- A register fed one bit at a time ----------

  function Bits(z: bv32, n: nat): seq<bv32>
    decreases n
  {
    if n == 0 then [] else [Lsb(z)] + Bits(Half(z), n - 1)
  }

  /** The bits of a message in transmission order, least significant first. */
  function MessageBits(data: seq<byte>): seq<bv32>
  {
    if data == [] then [] else Bits(Widen(data[0]), 8) + MessageBits(data[1..])
  }

  function Serial(c: bv32, bits: seq<bv32>): bv32
    decreases |bits|
  {
    if bits == [] then c else Serial(Step(Xor(c, bits[0])), bits[1..])
  }

  function Halve(z: bv32, n: nat): bv32
    decreases n
  {
    if n == 0 then z else Halve(Half(z), n - 1)
  }

  lemma MaskedZero()
    ensures Masked(0) == 0
  {
  }

  lemma MaskedOne()
    ensures Masked(1) == 0xEDB8_8320
  {
  }

  lemma LowBit(z: bv32)
    ensures Lsb(z) == 0 || Lsb(z) == 1
  {
  }

  /** The polynomial is added exactly when the low bit is set. */
  lemma StepCases(c: bv32)
    ensures Step(c) == Xor(Half(c), if Lsb(c) == 0 then 0 else 0xEDB8_8320)
  {
    hide Masked;
    hide Xor;
    hide Half;
    hide Lsb;
    LowBit(c);
    MaskedZero();
    MaskedOne();
  }

  lemma XorAssociative(a: bv32, b: bv32, c: bv32)
    ensures Xor(a, Xor(b, c)) == Xor(Xor(a, b), c)
  {
  }

  lemma XorCommutes(a: bv32, b: bv32)
    ensures Xor(a, b) == Xor(b, a)
  {
  }

  lemma XorSwap(a: bv32, b: bv32, c: bv32)
    ensures Xor(Xor(a, b), c) == Xor(Xor(a, c), b)
  {
    hide Xor;
    XorAssociative(a, b, c);
    XorAssociative(a, c, b);
    XorCommutes(b, c);
  }

  lemma StepXor(c: bv32, d: bv32, z: bv32)
    requires Lsb(c) == Lsb(d) && Half(c) == Xor(Half(d), z)
    ensures Step(c) == Xor(Step(d), z)
  {
    hide Xor;
    hide Half;
    hide Lsb;
    hide Masked;
    XorSwap(Half(d), z, Masked(Lsb(d)));
  }

  lemma XorParts(c: bv32, z: bv32)
    ensures Lsb(Xor(c, z)) == Lsb(Xor(c, Lsb(z)))
    ensures Half(Xor(c, z)) == Xor(Half(Xor(c, Lsb(z))), Half(z))
  {
  }

  /** Bits above the lowest one pass through a step unchanged. */
  lemma StepHigh(c: bv32, z: bv32)
    ensures Step(Xor(c, z)) == Xor(Step(Xor(c, Lsb(z))), Half(z))
  {
    hide Step;
    hide Xor;
    hide Half;
    hide Lsb;
    XorParts(c, z);
    StepXor(Xor(c, z), Xor(c, Lsb(z)), Half(z));
  }

  lemma {:induction false} SerialBits(c: bv32, z: bv32, n: nat)
    ensures Steps(Xor(c, z), n) == Xor(Serial(c, Bits(z, n)), Halve(z, n))
    decreases n
  {
    hide Step;
    hide Xor;
    hide Lsb;
    hide Half;
    if n > 0 {
      StepHigh(c, z);
      SerialBits(Step(Xor(c, Lsb(z))), Half(z), n - 1);
      assert Bits(z, n)[1..] == Bits(Half(z), n - 1);
    }
  }

  lemma HalfEight(b: byte)
    ensures Half(Half(Half(Half(Half(Half(Half(Half(Widen(b))))))))) == 0
  {
  }

  lemma HalveEight(z: bv32)
    ensures Halve(z, 8) == Half(Half(Half(Half(Half(Half(Half(Half(z))))))))
  {
    hide Half;
    var y := Half(Half(Half(Half(z))));
    assert Halve(y, 4) == Halve(Half(y), 3) == Halve(Half(Half(y)), 2) == Halve(Half(Half(Half(y))), 1);
    assert Halve(z, 8) == Halve(Half(z), 7) == Halve(Half(Half(z)), 6) == Halve(Half(Half(Half(z))), 5) == Halve(y, 4);
  }

  lemma {:induction false} SerialAppend(c: bv32, a: seq<bv32>, b: seq<bv32>)
    ensures Serial(c, a + b) == Serial(Serial(c, a), b)
    decreases |a|
  {
    hide Step;
    hide Xor;
    if a == [] {
      assert a + b == b;
    } else {
      SerialAppend(Step(Xor(c, a[0])), a[1..], b);
      assert (a + b)[1..] == a[1..] + b;
    }
  }

  lemma XorZero(c: bv32)
    ensures Xor(c, 0) == c
  {
  }

  /** The loop over octets is the serial register over the bits of the message. */
  lemma {:induction false} UpdateIsSerial(c: bv32, data: seq<byte>)
    ensures Update(c, data) == Serial(c, MessageBits(data))
    decreases |data|
  {
    hide Xor;
    hide Widen;
    hide Half;
    hide Halve;
    hide Steps;
    hide Bits;
    if data != [] {
      var z := Widen(data[0]);
      SerialBits(c, z, 8);
      HalveEight(z);
      HalfEight(data[0]);
      XorZero(Serial(c, Bits(z, 8)));
      SerialAppend(c, Bits(z, 8), MessageBits(data[1..]));
      UpdateIsSerial(Steps(Xor(c, z), 8), data[1..]);
    }
  }

  // ---------- Burst errors ----------

  function Unstep(c: bv32): bv32
  {
    if c & 0x8000_0000 == 0 then c << 1 else ((c ^ 0xEDB8_8320) << 1) | 1
  }

  lemma UnstepCases(c: bv32)
    requires Lsb(c) == 0 || Lsb(c) == 1
    ensures Unstep(Xor(Half(c), if Lsb(c) == 0 then 0 else 0xEDB8_8320)) == c
  {
  }

  lemma UnstepStep(c: bv32)
    ensures Unstep(Step(c)) == c
  {
    hide Step;
    hide Unstep;
    hide Xor;
    hide Half;
    hide Lsb;
    StepCases(c);
    LowBit(c);
    UnstepCases(c);
  }

  lemma {:induction false} StepsInjective(c: bv32, d: bv32, n: nat)
    requires Steps(c, n) == Steps(d, n)
    ensures c == d
    decreases n
  {
    hide Step;
    hide Unstep;
    if n > 0 {
      StepsInjective(Step(c), Step(d), n - 1);
      UnstepStep(c);
      UnstepStep(d);
    }
  }

  lemma XorInjective(a: bv32, b: bv32, z: bv32)
    requires Xor(a, z) == Xor(b, z) || Xor(z, a) == Xor(z, b)
    ensures a == b
  {
    assert a ^ z ^ z == a && b ^ z ^ z == b;
  }

  lemma NotInjective(a: bv32, b: bv32)
    requires Not(a) == Not(b)
    ensures a == b
  {
    assert !!a == a && !!b == b;
  }

  lemma {:induction false} SerialInjective(c: bv32, d: bv32, bits: seq<bv32>)
    requires Serial(c, bits) == Serial(d, bits)
    ensures c == d
    decreases |bits|
  {
    hide Step;
    hide Unstep;
    hide Xor;
    if bits != [] {
      SerialInjective(Step(Xor(c, bits[0])), Step(Xor(d, bits[0])), bits[1..]);
      UnstepStep(Xor(c, bits[0]));
      UnstepStep(Xor(d, bits[0]));
      XorInjective(c, d, bits[0]);
    }
  }

  lemma {:induction false} HalveAdd(z: bv32, m: nat, n: nat)
    ensures Halve(z, m + n) == Halve(Halve(z, m), n)
    decreases m
  {
    hide Half;
    if m > 0 {
      HalveAdd(Half(z), m - 1, n);
    }
  }

  lemma {:induction false} HalveZero(n: nat)
    ensures Halve(0, n) == 0
  {
    if n > 0 {
      HalveZero(n - 1);
    }
  }

  function And(a: bv32, b: bv32): bv32 { a & b }

  lemma HalfMarked(w: bv32, mark: bv32)
    requires And(w, mark) == mark
    ensures And(Half(w), Half(mark)) == Half(mark)
  {
  }

  /** A bit that is set is still set, further down, after shifting. */
  lemma {:induction false} HalveMarked(w: bv32, mark: bv32, n: nat)
    requires And(w, mark) == mark
    ensures And(Halve(w, n), Halve(mark, n)) == Halve(mark, n)
    decreases n
  {
    hide And;
    hide Half;
    if n > 0 {
      HalfMarked(w, mark);
      HalveMarked(Half(w), Half(mark), n - 1);
    }
  }

  lemma TopHalved()
    ensures Halve(0x8000_0000, 31) != 0
  {
    hide Halve;
    HalveEight(0x8000_0000);
    HalveEight(0x80_0000);
    HalveEight(0x8000);
    HalveAdd(0x8000_0000, 8, 8);
    HalveAdd(0x8000_0000, 16, 8);
    HalveAdd(0x8000_0000, 24, 7);
    HalveSeven();
  }

  lemma HalveSeven()
    ensures Halve(0x80, 7) == 1
  {
    HalveEight(0x100);
    assert Halve(0x100, 8) == Halve(Half(0x100), 7);
  }

  lemma AndZero(mark: bv32)
    ensures And(0, mark) == 0
  {
  }

  lemma TopMarked(w: bv32)
    ensures TopClear(w) || And(w, 0x8000_0000) == 0x8000_0000
  {
  }

  /** Shifted out completely in 31 steps or fewer, a word has its top bit clear. */
  lemma TopIsClear(w: bv32, n: nat)
    requires Halve(w, n) == 0 && n <= 31
    ensures TopClear(w)
  {
    hide Halve;
    hide And;
    hide TopClear;
    TopMarked(w);
    if And(w, 0x8000_0000) == 0x8000_0000 {
      HalveMarked(w, 0x8000_0000, n);
      AndZero(Halve(0x8000_0000, n));
      HalveAdd(0x8000_0000, n, 31 - n);
      HalveZero(31 - n);
      TopHalved();
    }
  }

  predicate AreBits(bits: seq<bv32>)
  {
    forall i | 0 <= i < |bits| :: bits[i] == 0 || bits[i] == 1
  }

  /** Up to 32 bits as one word, the first one lowest. */
  function Pack(bits: seq<bv32>): bv32
  {
    if bits == [] then 0 else Push(bits[0], Pack(bits[1..]))
  }

  lemma PushZero(w: bv32)
    requires TopClear(w)
    ensures Half(Push(0, w)) == w && Lsb(Push(0, w)) == 0
  {
  }

  lemma PushOne(w: bv32)
    requires TopClear(w)
    ensures Half(Push(1, w)) == w && Lsb(Push(1, w)) == 1
  {
  }

  lemma PushParts(b: bv32, w: bv32)
    requires TopClear(w) && (b == 0 || b == 1)
    ensures Half(Push(b, w)) == w && Lsb(Push(b, w)) == b
  {
    hide TopClear;
    hide Push;
    hide Half;
    hide Lsb;
    if b == 0 {
      PushZero(w);
    } else {
      PushOne(w);
    }
  }

  lemma {:induction false} PackBits(bits: seq<bv32>)
    requires AreBits(bits) && |bits| <= 32
    ensures Bits(Pack(bits), |bits|) == bits && Halve(Pack(bits), |bits|) == 0
    decreases |bits|
  {
    hide Push;
    hide TopClear;
    hide Half;
    hide Lsb;
    if bits != [] {
      PackBits(bits[1..]);
      TopIsClear(Pack(bits[1..]), |bits| - 1);
      PushParts(bits[0], Pack(bits[1..]));
    }
  }

  /** Up to 32 bits enter the register as if their word had been added to it at once. */
  lemma SerialPack(c: bv32, bits: seq<bv32>)
    requires AreBits(bits) && |bits| <= 32
    ensures Serial(c, bits) == Steps(Xor(c, Pack(bits)), |bits|)
  {
    hide Xor;
    hide Pack;
    hide Steps;
    hide Serial;
    hide Bits;
    hide Halve;
    PackBits(bits);
    SerialBits(c, Pack(bits), |bits|);
    XorZero(Serial(c, bits));
  }

  lemma SameWord(y: bv32, z: bv32)
    requires Lsb(y) == Lsb(z) && Half(y) == Half(z)
    ensures y == z
  {
  }

  lemma {:induction false} BitsInjective(y: bv32, z: bv32, n: nat)
    requires Bits(y, n) == Bits(z, n) && Halve(y, n) == Halve(z, n)
    ensures y == z
    decreases n
  {
    hide Half;
    hide Lsb;
    if n > 0 {
      assert Bits(y, n)[0] == Lsb(y) && Bits(z, n)[0] == Lsb(z);
      assert Bits(y, n)[1..] == Bits(Half(y), n - 1) && Bits(z, n)[1..] == Bits(Half(z), n - 1);
      BitsInjective(Half(y), Half(z), n - 1);
      SameWord(y, z);
    }
  }

  lemma {:induction false} BitsAre(z: bv32, n: nat)
    ensures |Bits(z, n)| == n && AreBits(Bits(z, n))
    decreases n
  {
    hide Half;
    hide Lsb;
    if n > 0 {
      LowBit(z);
      BitsAre(Half(z), n - 1);
    }
  }

  lemma {:induction false} MessageBitsAre(data: seq<byte>)
    ensures |MessageBits(data)| == 8 * |data| && AreBits(MessageBits(data))
  {
    hide Bits;
    hide Widen;
    if data != [] {
      BitsAre(Widen(data[0]), 8);
      MessageBitsAre(data[1..]);
    }
  }

  lemma SameOctet(a: byte, b: byte)
    requires Widen(a) == Widen(b)
    ensures a == b
  {
  }

  lemma {:induction false} MessageBitsInjective(a: seq<byte>, b: seq<byte>)
    requires |a| == |b| && MessageBits(a) == MessageBits(b)
    ensures a == b
    decreases |a|
  {
    hide Bits;
    hide Halve;
    hide Widen;
    hide Half;
    if a != [] {
      var y, z := Widen(a[0]), Widen(b[0]);
      BitsAre(y, 8);
      BitsAre(z, 8);
      assert MessageBits(a)[..8] == Bits(y, 8) && MessageBits(b)[..8] == Bits(z, 8);
      assert MessageBits(a)[8..] == MessageBits(a[1..]) && MessageBits(b)[8..] == MessageBits(b[1..]);
      HalveEight(y);
      HalveEight(z);
      HalfEight(a[0]);
      HalfEight(b[0]);
      BitsInjective(y, z, 8);
      SameOctet(a[0], b[0]);
      MessageBitsInjective(a[1..], b[1..]);
      assert a == [a[0]] + a[1..] && b == [b[0]] + b[1..];
    }
  }

  /** In the serial register, up to 32 bits that differ leave different states, whatever follows. */
  lemma SerialBurst(c: bv32, before: seq<bv32>, x: seq<bv32>, y: seq<bv32>, after: seq<bv32>)
    requires AreBits(x) && AreBits(y) && |x| == |y| <= 32 && x != y
    ensures Serial(c, before + x + after) != Serial(c, before + y + after)
  {
    hide Serial;
    hide Steps;
    hide Xor;
    hide Pack;
    hide Bits;
    hide Halve;
    if Serial(c, before + x + after) == Serial(c, before + y + after) {
      var d := Serial(c, before);
      SerialAppend(c, before + x, after);
      SerialAppend(c, before + y, after);
      SerialAppend(c, before, x);
      SerialAppend(c, before, y);
      SerialInjective(Serial(d, x), Serial(d, y), after);
      SerialPack(d, x);
      SerialPack(d, y);
      StepsInjective(Xor(d, Pack(x)), Xor(d, Pack(y)), |x|);
      XorInjective(Pack(x), Pack(y), d);
      PackBits(x);
      PackBits(y);
    }
  }

  lemma InThree(p: seq<bv32>, i: nat, j: nat)
    requires i <= j <= |p|
    ensures p == p[..i] + p[i..j] + p[j..]
  {
  }

  /**
   Two different messages of the same length whose bits differ only within 32 consecutive ones have
   different checksums.
   */
  lemma DetectsBursts(a: seq<byte>, b: seq<byte>, from: nat)
    requires |a| == |b| && a != b
    requires |MessageBits(a)| == |MessageBits(b)| && forall k | 0 <= k < |MessageBits(a)| && !(from <= k < from + 32) ::
      MessageBits(a)[k] == MessageBits(b)[k]
    ensures Crc(a) != Crc(b)
  {
    hide Update;
    hide Serial;
    hide Not;
    hide MessageBits;
    var p, q := MessageBits(a), MessageBits(b);
    var i := if from < |p| then from else |p|;
    var j := if from + 32 < |p| then from + 32 else |p|;
    MessageBitsAre(a);
    MessageBitsAre(b);
    InThree(p, i, j);
    InThree(q, i, j);
    assert q[..i] == p[..i] && q[j..] == p[j..];
    if p[i..j] == q[i..j] {
      MessageBitsInjective(a, b);
    }
    SerialBurst(ONES, p[..i], p[i..j], q[i..j], p[j..]);
    UpdateIsSerial(ONES, a);
    UpdateIsSerial(ONES, b);
    if Crc(a) == Crc(b) {
      NotInjective(Update(ONES, a), Update(ONES, b));
    }
  }

  lemma {:induction false} MessageBitsAppend(a: seq<byte>, b: seq<byte>)
    ensures MessageBits(a + b) == MessageBits(a) + MessageBits(b)
    decreases |a|
  {
    hide Bits;
    hide Widen;
    if a == [] {
      assert a + b == b;
    } else {
      MessageBitsAppend(a[1..], b);
      assert (a + b)[1..] == a[1..] + b;
    }
  }

  /** In particular those that differ only within four consecutive octets. */
  lemma DetectsFourOctets(before: seq<byte>, a: seq<byte>, b: seq<byte>, after: seq<byte>)
    requires |a| == |b| <= 4 && a != b
    ensures Crc(before + a + after) != Crc(before + b + after)
  {
    hide MessageBits;
    var x, y := before + a + after, before + b + after;
    assert x[|before|..|before| + |a|] == a && y[|before|..|before| + |a|] == b;
    MessageBitsAppend(before + a, after);
    MessageBitsAppend(before + b, after);
    MessageBitsAppend(before, a);
    MessageBitsAppend(before, b);
    MessageBitsAre(before);
    MessageBitsAre(a);
    MessageBitsAre(b);
    DetectsBursts(x, y, 8 * |before|);
  }

  // ---------- Which errors go undetected ----------

  function XorByte(x: byte, y: byte): byte { x ^ y }

  function XorBytes(a: seq<byte>, b: seq<byte>): (r: seq<byte>)
    requires |a| == |b|
    ensures |r| == |a|
  {
    seq(|a|, i requires 0 <= i < |a| => XorByte(a[i], b[i]))
  }

  /** What is left of the difference of two messages in a register that starts with zero. */
  function Remainder(a: seq<byte>, b: seq<byte>): bv32
    requires |a| == |b|
  {
    Update(0, XorBytes(a, b))
  }

  lemma XorTwoPairs(a: bv32, b: bv32, c: bv32, d: bv32)
    ensures Xor(Xor(a, b), Xor(c, d)) == Xor(Xor(a, c), Xor(b, d))
  {
    hide Xor;
    XorAssociative(Xor(a, b), c, d);
    XorSwap(a, b, c);
    XorAssociative(Xor(a, c), b, d);
  }

  lemma HalfXor(c: bv32, d: bv32)
    ensures Half(Xor(c, d)) == Xor(Half(c), Half(d)) && Lsb(Xor(c, d)) == Xor(Lsb(c), Lsb(d))
  {
  }

  lemma WidenXor(x: byte, y: byte)
    ensures Widen(XorByte(x, y)) == Xor(Widen(x), Widen(y))
  {
  }

  lemma XorSelf(c: bv32)
    ensures Xor(c, c) == 0
  {
  }

  lemma XorIsZero(c: bv32, d: bv32)
    ensures Xor(c, d) == 0 <==> c == d
  {
    XorSelf(d);
    if Xor(c, d) == 0 { XorInjective(c, d, d); }
  }

  lemma MaskedXor(x: bv32, y: bv32)
    requires (x == 0 || x == 1) && (y == 0 || y == 1)
    ensures Masked(Xor(x, y)) == Xor(Masked(x), Masked(y))
  {
    hide Masked;
    hide Xor;
    XorSelf(x);
    XorZero(x);
    XorZero(y);
    XorCommutes(x, y);
    MaskedZero();
    XorSelf(Masked(x));
    XorZero(Masked(x));
    XorZero(Masked(y));
    XorCommutes(Masked(x), Masked(y));
  }

  lemma StepXorBoth(c: bv32, d: bv32)
    ensures Step(Xor(c, d)) == Xor(Step(c), Step(d))
  {
    hide Xor;
    hide Half;
    hide Lsb;
    hide Masked;
    HalfXor(c, d);
    LowBit(c);
    LowBit(d);
    MaskedXor(Lsb(c), Lsb(d));
    XorTwoPairs(Half(c), Half(d), Masked(Lsb(c)), Masked(Lsb(d)));
  }

  lemma {:induction false} StepsXor(c: bv32, d: bv32, n: nat)
    ensures Steps(Xor(c, d), n) == Xor(Steps(c, n), Steps(d, n))
    decreases n
  {
    hide Step;
    hide Xor;
    if n > 0 {
      StepXorBoth(c, d);
      StepsXor(Step(c), Step(d), n - 1);
    }
  }

  /** The register is linear: its states differ by what the difference of the inputs leaves. */
  lemma {:induction false} UpdateXor(c: bv32, d: bv32, a: seq<byte>, b: seq<byte>)
    requires |a| == |b|
    ensures Xor(Update(c, a), Update(d, b)) == Update(Xor(c, d), XorBytes(a, b))
    decreases |a|
  {
    hide Xor;
    hide XorByte;
    hide Widen;
    hide Steps;
    if a != [] {
      var x, y := Widen(a[0]), Widen(b[0]);
      var rest := XorBytes(a[1..], b[1..]);
      UpdateXor(Steps(Xor(c, x), 8), Steps(Xor(d, y), 8), a[1..], b[1..]);
      StepsXor(Xor(c, x), Xor(d, y), 8);
      XorTwoPairs(c, x, d, y);
      WidenXor(a[0], b[0]);
      assert XorBytes(a, b)[1..] == rest && XorBytes(a, b)[0] == XorByte(a[0], b[0]);
    }
  }

  lemma {:induction false} UpdateAppend(c: bv32, a: seq<byte>, b: seq<byte>)
    ensures Update(c, a + b) == Update(Update(c, a), b)
    decreases |a|
  {
    hide Xor;
    hide Widen;
    hide Steps;
    if a == [] {
      assert a + b == b;
    } else {
      UpdateAppend(Steps(Xor(c, Widen(a[0])), 8), a[1..], b);
      assert (a + b)[1..] == a[1..] + b;
    }
  }

  /** Replacing a part of a message by another goes undetected exactly if their difference leaves no remainder. */
  lemma UndetectedExactlyIf(before: seq<byte>, a: seq<byte>, b: seq<byte>, after: seq<byte>)
    requires |a| == |b|
    ensures Crc(before + a + after) == Crc(before + b + after) <==> Remainder(a, b) == 0
  {
    hide Update;
    hide Serial;
    hide Xor;
    hide Not;
    var c := Update(ONES, before);
    var x, y := Update(c, a), Update(c, b);
    UpdateAppend(ONES, before + a, after);
    UpdateAppend(ONES, before + b, after);
    UpdateAppend(ONES, before, a);
    UpdateAppend(ONES, before, b);
    UpdateXor(c, c, a, b);
    XorSelf(c);
    XorIsZero(x, y);
    if Crc(before + a + after) == Crc(before + b + after) {
      NotInjective(Update(x, after), Update(y, after));
      UpdateIsSerial(x, after);
      UpdateIsSerial(y, after);
      SerialInjective(x, y, MessageBits(after));
    }
  }

  /** The polynomial itself, as octets: 33 consecutive bits, which are one too many. */
  const GENERATOR: seq<byte> := [0x41, 0x06, 0x71, 0xDB, 0x01]

  lemma EightSteps(c: bv32)
    ensures Steps(c, 8) == Step(Step(Step(Step(Step(Step(Step(Step(c))))))))
  {
    hide Step;
    var y := Step(Step(Step(Step(c))));
    assert Steps(y, 4) == Steps(Step(y), 3) == Steps(Step(Step(y)), 2) == Steps(Step(Step(Step(y))), 1);
    assert Steps(c, 8) == Steps(Step(c), 7) == Steps(Step(Step(c)), 6) == Steps(Step(Step(Step(c))), 5) == Steps(y, 4);
  }

  /** The register after each octet of the polynomial. */
  lemma GeneratorSteps()
    ensures Steps(0x41, 8) == 0x1DB_7106 && Steps(0x1DB_7100, 8) == 0x1_DB71 && Steps(0x1_DB00, 8) == 0x1DB
    ensures Steps(0x100, 8) == 1 && Steps(0, 8) == 0
  {
    EightSteps(0x41);
    EightSteps(0x1DB_7100);
    EightSteps(0x1_DB00);
    EightSteps(0x100);
    EightSteps(0);
  }

  /** A whole polynomial is not noticed, so 32 bits are all that is promised. */
  lemma GeneratorUndetected()
    ensures |GENERATOR| == 5 && Remainder(GENERATOR, [0, 0, 0, 0, 0]) == 0
  {
    hide Steps;
    GeneratorSteps();
    var g := GENERATOR;
    assert XorBytes(g, [0, 0, 0, 0, 0]) == g;
  }

  /** The register after each of the nine digits. */
  lemma DigitSteps()
    ensures Steps(0xFFFF_FFCE, 8) == 0x7C23_1048
    ensures Steps(0x7C23_107A, 8) == 0xB0AC_BB32
    ensures Steps(0xB0AC_BB01, 8) == 0x77B7_9C2D
    ensures Steps(0x77B7_9C19, 8) == 0x641C_1F5C
    ensures Steps(0x641C_1F69, 8) == 0x340A_C5E3
    ensures Steps(0x340A_C5D5, 8) == 0xF68D_2C9E
    ensures Steps(0xF68D_2CA9, 8) == 0xAFFC_9660
    ensures Steps(0xAFFC_9658, 8) == 0x651F_2550
    ensures Steps(0x651F_2569, 8) == 0x340B_C6D9
  {
    EightSteps(0xFFFF_FFCE);
    EightSteps(0x7C23_107A);
    EightSteps(0xB0AC_BB01);
    EightSteps(0x77B7_9C19);
    EightSteps(0x641C_1F69);
    EightSteps(0x340A_C5D5);
    EightSteps(0xF68D_2CA9);
    EightSteps(0xAFFC_9658);
    EightSteps(0x651F_2569);
  }

  /** The check value of this CRC: that of the text "123456789". */
  lemma CheckValue()
    ensures Crc([0x31, 0x32, 0x33, 0x34, 0x35, 0x36, 0x37, 0x38, 0x39]) == 0xCBF4_3926
  {
    hide Steps;
    DigitSteps();
    UpdateNext(0x651F_2550, 0x39, [], 0x651F_2569);
    UpdateNext(0xAFFC_9660, 0x38, [0x39], 0xAFFC_9658);
    UpdateNext(0xF68D_2C9E, 0x37, [0x38, 0x39], 0xF68D_2CA9);
    UpdateNext(0x340A_C5E3, 0x36, [0x37, 0x38, 0x39], 0x340A_C5D5);
    UpdateNext(0x641C_1F5C, 0x35, [0x36, 0x37, 0x38, 0x39], 0x641C_1F69);
    UpdateNext(0x77B7_9C2D, 0x34, [0x35, 0x36, 0x37, 0x38, 0x39], 0x77B7_9C19);
    UpdateNext(0xB0AC_BB32, 0x33, [0x34, 0x35, 0x36, 0x37, 0x38, 0x39], 0xB0AC_BB01);
    UpdateNext(0x7C23_1048, 0x32, [0x33, 0x34, 0x35, 0x36, 0x37, 0x38, 0x39], 0x7C23_107A);
    UpdateNext(0xFFFF_FFFF, 0x31, [0x32, 0x33, 0x34, 0x35, 0x36, 0x37, 0x38, 0x39], 0xFFFF_FFCE);
    assert Update(0x340B_C6D9, []) == 0x340B_C6D9;
  }

  lemma UpdateNext(c: bv32, b: byte, rest: seq<byte>, x: bv32)
    requires x == Xor(c, Widen(b))
    ensures Update(c, [b] + rest) == Update(Steps(x, 8), rest)
  {
    hide Steps;
    hide Xor;
    hide Widen;
    assert ([b] + rest)[1..] == rest;
  }
}
