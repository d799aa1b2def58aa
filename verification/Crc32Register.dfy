/** The CRC-32 register of common/crc32.cpp and its algebra over GF(2).

    `Step` shifts one bit out of the register, `Advance` n bits, and `Register` feeds a byte string.
    Every fast form of the checksum rests on two facts proved here: `Advance` distributes over
    exclusive-or, and advancing by a whole byte depends only on the low eight bits. */
module Crc32Register {

  type byte = bv8

  const POLYNOMIAL: bv32 := 0xEDB8_8320

  // Named forms of the bit operations: the solver then reasons about equal arguments instead of single bits.

  function Xor(a: bv32, b: bv32): bv32 {
    a ^ b
  }

  function Complement(x: bv32): bv32 {
    !x
  }

  /** One turn of the inner loop of crc32_bitwise. */
  function Step(crc: bv32): bv32 {
    (crc >> 1) ^ ((0 - (crc & 1)) & POLYNOMIAL)
  }

  /** The register after n zero bits. */
  function Advance(crc: bv32, n: nat): bv32
    decreases n, crc
  {
    if n == 0 then crc else Advance(Step(crc), n - 1)
  }

  function Mix(crc: bv32, b: byte): bv32 {
    crc ^ (b as bv32)
  }

  /** The register after one byte. */
  function Feed(crc: bv32, b: byte): bv32 {
    Advance(Mix(crc, b), 8)
  }

  /** The register after the bytes of data. */
  function Register(crc: bv32, data: seq<byte>): bv32
    decreases |data|
  {
    if data == [] then crc else Register(Feed(crc, data[0]), data[1..])
  }

  /** The checksum of data continued from the checksum of what came before it. */
  function Crc(data: seq<byte>, previous: bv32): bv32 {
    Complement(Register(Complement(previous), data))
  }

  // ----- Laws of exclusive-or, first on bare bits, then with the named form

  lemma XorAssociatesBits(a: bv32, b: bv32, c: bv32)
    ensures (a ^ b) ^ c == a ^ (b ^ c)
  {
  }

  lemma XorAssociates(a: bv32, b: bv32, c: bv32)
    ensures Xor(Xor(a, b), c) == Xor(a, Xor(b, c))
  {
    calc {
      Xor(Xor(a, b), c);
      Xor(a ^ b, c);
      (a ^ b) ^ c;
      { XorAssociatesBits(a, b, c); }
      a ^ (b ^ c);
      Xor(a, b ^ c);
      Xor(a, Xor(b, c));
    }
  }

  lemma XorCommutes(a: bv32, b: bv32)
    ensures Xor(a, b) == Xor(b, a)
  {
  }

  lemma XorSwap(a: bv32, b: bv32, c: bv32)
    ensures Xor(Xor(a, b), c) == Xor(Xor(a, c), b)
  {
    XorAssociates(a, b, c);
    XorCommutes(b, c);
    XorAssociates(a, c, b);
  }

  lemma XorZero(a: bv32)
    ensures Xor(a, 0) == a
  {
  }

  // ----- Zero bits act linearly

  function Half(x: bv32): bv32 {
    x >> 1
  }

  predicate IsOdd(x: bv32) {
    x & 1 == 1
  }

  lemma HalfXor(a: bv32, b: bv32)
    ensures Half(Xor(a, b)) == Xor(Half(a), Half(b))
  {
  }

  lemma OddXor(a: bv32, b: bv32)
    ensures IsOdd(Xor(a, b)) == (IsOdd(a) != IsOdd(b))
  {
  }

  lemma OddMask(a: bv32)
    requires IsOdd(a)
    ensures (0 - (a & 1)) & POLYNOMIAL == POLYNOMIAL
  {
  }

  lemma EvenMask(a: bv32)
    requires !IsOdd(a)
    ensures (0 - (a & 1)) & POLYNOMIAL == 0
  {
  }

  lemma LowBit(a: bv32)
    ensures Step(a) == if IsOdd(a) then Xor(Half(a), POLYNOMIAL) else Half(a)
  {
    if IsOdd(a) {
      OddMask(a);
    } else {
      EvenMask(a);
      XorZero(Half(a));
    }
  }

  lemma XorSelf(a: bv32)
    ensures Xor(a, a) == 0
  {
  }

  lemma XorCancels(a: bv32, b: bv32, c: bv32)
    ensures Xor(Xor(a, c), Xor(b, c)) == Xor(a, b)
  {
    hide Xor;
    XorAssociates(a, c, Xor(b, c));
    XorCommutes(c, Xor(b, c));
    XorAssociates(b, c, c);
    XorSelf(c);
    XorZero(b);
  }

  lemma StepLinear(a: bv32, b: bv32)
    ensures Step(Xor(a, b)) == Xor(Step(a), Step(b))
  {
    hide Step, Xor, Half, IsOdd;
    LowBit(a);
    LowBit(b);
    LowBit(Xor(a, b));
    OddXor(a, b);
    HalfXor(a, b);
    XorCancels(Half(a), Half(b), POLYNOMIAL);
    XorSwap(Half(a), POLYNOMIAL, Half(b));
    XorAssociates(Half(a), Half(b), POLYNOMIAL);
  }

  /** The GF(2)-linearity of the register: zero bits act on each summand separately. */
  lemma {:induction false} AdvanceLinear(a: bv32, b: bv32, n: nat)
    ensures Advance(Xor(a, b), n) == Xor(Advance(a, n), Advance(b, n))
    decreases n
  {
    if n == 0 {
    } else {
      StepLinear(a, b);
      AdvanceLinear(Step(a), Step(b), n - 1);
    }
  }

  lemma {:induction false} AdvanceCompose(crc: bv32, m: nat, n: nat)
    ensures Advance(crc, m + n) == Advance(Advance(crc, m), n)
    decreases m
  {
    if m == 0 {
    } else {
      AdvanceCompose(Step(crc), m - 1, n);
    }
  }

  // ----- One byte at a time

  function Step4(crc: bv32): bv32 {
    Step(Step(Step(Step(crc))))
  }

  lemma AdvanceFour(crc: bv32)
    ensures Advance(crc, 4) == Step4(crc)
  {
    var c1 := Step(crc);
    var c2 := Step(c1);
    var c3 := Step(c2);
    assert Advance(crc, 4) == Advance(c1, 3);
    assert Advance(c1, 3) == Advance(c2, 2);
    assert Advance(c2, 2) == Advance(c3, 1);
    assert Advance(c3, 1) == Advance(Step(c3), 0);
  }

  lemma AdvanceEight(crc: bv32)
    ensures Advance(crc, 8) == Step4(Step4(crc))
  {
    AdvanceCompose(crc, 4, 4);
    AdvanceFour(crc);
    AdvanceFour(Step4(crc));
  }

  /** The register without its low byte, and the low byte alone. */
  function HighPart(crc: bv32): bv32 {
    crc >> 8
  }

  function LowPart(crc: bv32): bv32 {
    crc & 0xFF
  }

  function Double(x: bv32): bv32 {
    x << 1
  }

  /** A zero at the low end just leaves. */
  lemma StepEven(x: bv32)
    requires x <= 0x7FFF_FFFF
    ensures Step(Double(x)) == x
  {
  }

  lemma DoubleFits(x: bv32, m: bv32)
    requires x <= m <= 0x7FFF_FFFF
    ensures Double(x) <= m + m
  {
  }

  lemma AdvanceEven(x: bv32, n: nat)
    requires x <= 0x7FFF_FFFF
    ensures Advance(Double(x), n + 1) == Advance(x, n)
  {
    StepEven(x);
  }

  /** Up to four zeros leave without a trace. */
  lemma FourDown(x: bv32, n: nat)
    requires x <= 0x0FFF_FFFF
    ensures Advance(Double(Double(Double(Double(x)))), n + 4) == Advance(x, n)
  {
    hide Double, Advance;
    DoubleFits(x, 0x0FFF_FFFF);
    DoubleFits(Double(x), 0x1FFF_FFFE);
    DoubleFits(Double(Double(x)), 0x3FFF_FFFC);
    AdvanceEven(x, n);
    AdvanceEven(Double(x), n + 1);
    AdvanceEven(Double(Double(x)), n + 2);
    AdvanceEven(Double(Double(Double(x))), n + 3);
  }

  function UpNibble(x: bv32): bv32 {
    x << 4
  }

  lemma FourDoubles(x: bv32)
    ensures UpNibble(x) == Double(Double(Double(Double(x))))
  {
  }

  lemma NibbleDown(x: bv32, n: nat)
    requires x <= 0x0FFF_FFFF
    ensures Advance(UpNibble(x), n + 4) == Advance(x, n)
  {
    hide UpNibble, Double, Advance;
    FourDoubles(x);
    FourDown(x, n);
  }

  lemma TwoNibblesUp(x: bv32)
    requires x <= 0xFF_FFFF
    ensures x << 8 == UpNibble(UpNibble(x)) && UpNibble(x) <= 0x0FFF_FFFF
  {
  }

  /** A byte that does not reach the low end of the register just moves down. */
  lemma ByteDown(x: bv32)
    requires x <= 0xFF_FFFF
    ensures Advance(x << 8, 8) == x
  {
    TwoNibblesUp(x);
    hide UpNibble;
    NibbleDown(UpNibble(x), 4);
    NibbleDown(x, 0);
  }

  lemma PartsOfRegister(crc: bv32)
    ensures crc == Xor(HighPart(crc) << 8, LowPart(crc)) && HighPart(crc) <= 0xFF_FFFF
  {
  }

  /** Eight zero bits only look at the low byte; the rest moves down. */
  lemma ByteStep(crc: bv32)
    ensures Advance(crc, 8) == Xor(HighPart(crc), Advance(LowPart(crc), 8))
  {
    hide HighPart, LowPart, Xor, Advance;
    PartsOfRegister(crc);
    AdvanceLinear(HighPart(crc) << 8, LowPart(crc), 8);
    ByteDown(HighPart(crc));
  }

  // ----- Feeding bytes

  lemma {:induction false} RegisterConcat(crc: bv32, a: seq<byte>, b: seq<byte>)
    ensures Register(crc, a + b) == Register(Register(crc, a), b)
    decreases |a|
  {
    if a == [] {
      assert a + b == b;
    } else {
      assert (a + b)[1..] == a[1..] + b;
      RegisterConcat(Feed(crc, a[0]), a[1..], b);
    }
  }

  lemma RegisterAt(crc: bv32, data: seq<byte>, i: nat)
    requires i < |data|
    ensures Register(crc, data[i..]) == Register(Feed(crc, data[i]), data[i + 1..])
  {
    assert data[i..][1..] == data[i + 1..];
  }

  lemma ComplementTwice(x: bv32)
    ensures Complement(Complement(x)) == x
  {
  }

  /** Checksums chain: the checksum of a concatenation continues from the checksum of its first part. */
  lemma CrcConcat(a: seq<byte>, b: seq<byte>, previous: bv32)
    ensures Crc(b, Crc(a, previous)) == Crc(a + b, previous)
  {
    RegisterConcat(Complement(previous), a, b);
    ComplementTwice(Register(Complement(previous), a));
  }

  // ----- Single bits

  function Odd(x: bv32): bv32 {
    x & 1
  }

  /** vec has at most k bits, so that `vec >>= 1` reaches zero after k turns. */
  predicate Fits(vec: bv32, k: nat)
    decreases k, vec
  {
    if k == 0 then vec == 0 else Fits(Half(vec), k - 1)
  }

  /** The widest value that is left after j turns of `vec >>= 1`. */
  function Widest(j: nat): bv32
    decreases j
  {
    if j == 0 then 0xFFFF_FFFF else Half(Widest(j - 1))
  }

  lemma DoubleXor(a: bv32, b: bv32)
    ensures Double(Xor(a, b)) == Xor(Double(a), Double(b))
  {
  }

  lemma SplitLowBit(x: bv32)
    ensures x == Xor(Odd(x), Double(Half(x)))
    ensures Odd(x) == 0 || Odd(x) == 1
  {
  }

  predicate AtMost(x: bv32, y: bv32) {
    x <= y
  }

  lemma HalfMonotonic(x: bv32, y: bv32)
    requires AtMost(x, y)
    ensures AtMost(Half(x), Half(y))
  {
  }

  lemma WidestVanishes()
    ensures Widest(32) == 0
  {
    assert Widest(8) == 0xFF_FFFF;
    assert Widest(16) == 0xFFFF;
    assert Widest(24) == 0xFF;
  }

  lemma {:induction false} NarrowFits(vec: bv32, k: nat)
    requires k <= 32 && AtMost(vec, Widest(32 - k))
    ensures Fits(vec, k)
    decreases k
  {
    if k == 0 {
      WidestVanishes();
      AtMostZero(vec);
    } else {
      HalfMonotonic(vec, Widest(32 - k));
      NarrowFits(Half(vec), k - 1);
    }
  }

  lemma AtMostZero(vec: bv32)
    requires AtMost(vec, 0)
    ensures vec == 0
  {
  }
}
