/** A reference for common/crc32.cpp that never mentions the register: the checksum is the remainder
    of long division by the generator polynomial, as section 8 of RFC 1952 and ISO 3309 define it. */
module Crc32Division {
  import opened Crc32Register

  // ----- Long division on coefficients, highest power first

  /** The generator x^32 + x^26 + x^23 + x^22 + x^16 + x^12 + x^11 + x^10 + x^8 + x^7 + x^5 + x^4 + x^2 + x + 1
      without its leading term. */
  const GENERATOR: seq<bool> := [
    false, false, false, false, false, true, false, false,
    true, true, false, false, false, false, false, true,
    false, false, false, true, true, true, false, true,
    true, false, true, true, false, true, true, true
  ]

  function Zeros32(): (zeros: seq<bool>)
    ensures |zeros| == 32 && forall i :: 0 <= i < 32 ==> !zeros[i]
  {
    seq(32, i => false)
  }

  /** Coefficients added modulo 2, the shorter one aligned at the front. */
  function AddFront(a: seq<bool>, b: seq<bool>): (sum: seq<bool>)
    requires |b| <= |a|
    ensures |sum| == |a|
  {
    seq(|a|, i requires 0 <= i < |a| => if i < |b| then a[i] != b[i] else a[i])
  }

  /** Schoolbook division: cancel the leading coefficient until 32 are left. */
  function Remainder(bits: seq<bool>): seq<bool>
    requires |bits| >= 32
    decreases |bits|
  {
    if |bits| == 32 then bits
    else Remainder(if bits[0] then AddFront(bits[1..], GENERATOR) else bits[1..])
  }

  // ----- Registers and bytes as coefficients

  function Drop(x: bv32, i: nat): bv32
    decreases i, x
  {
    if i == 0 then x else Drop(Half(x), i - 1)
  }

  /** Bit i of x; in the register it stands for the power 31 - i. */
  predicate BitAt(x: bv32, i: nat)
    decreases i, x
  {
    if i == 0 then IsOdd(x) else BitAt(Half(x), i - 1)
  }

  lemma {:induction false} BitAtDrop(x: bv32, i: nat)
    ensures BitAt(x, i) == IsOdd(Drop(x, i))
    decreases i
  {
    if i == 0 {
    } else {
      BitAtDrop(Half(x), i - 1);
    }
  }

  function Bits(x: bv32, n: nat): (bits: seq<bool>)
    ensures |bits| == n
  {
    seq(n, i requires 0 <= i => BitAt(x, i))
  }

  /** The message, each byte with its low bit first. */
  function MessageBits(data: seq<byte>): seq<bool>
    decreases |data|
  {
    if data == [] then [] else Bits(Mix(0, data[0]), 8) + MessageBits(data[1..])
  }

  function BoolBit(b: bool): bv32 {
    if b then 1 else 0
  }

  /** The register fed one message bit at a time. */
  function FeedBits(crc: bv32, bits: seq<bool>): bv32
    decreases |bits|
  {
    if bits == [] then crc else FeedBits(Step(Xor(crc, BoolBit(bits[0]))), bits[1..])
  }

  // ----- One bit of division is one step of the register

  lemma {:induction false} DropXor(a: bv32, b: bv32, i: nat)
    ensures Drop(Xor(a, b), i) == Xor(Drop(a, i), Drop(b, i))
    decreases i
  {
    if i == 0 {
    } else {
      HalfXor(a, b);
      DropXor(Half(a), Half(b), i - 1);
    }
  }

  lemma BitAtXor(a: bv32, b: bv32, i: nat)
    ensures BitAt(Xor(a, b), i) == (BitAt(a, i) != BitAt(b, i))
  {
    BitAtDrop(a, i);
    BitAtDrop(b, i);
    BitAtDrop(Xor(a, b), i);
    DropXor(a, b, i);
    OddXor(Drop(a, i), Drop(b, i));
  }

  lemma {:induction false} FitsTop(x: bv32, k: nat)
    requires Fits(x, k)
    ensures !BitAt(x, k)
    decreases k
  {
    if k == 0 {
    } else {
      FitsTop(Half(x), k - 1);
    }
  }

  function Mask(i: nat): bv32 {
    if i == 0 then 0x01 else if i == 1 then 0x02 else if i == 2 then 0x04 else if i == 3 then 0x08
    else if i == 4 then 0x10 else if i == 5 then 0x20 else if i == 6 then 0x40 else 0x80
  }

  lemma DropEight(x: bv32, i: nat)
    ensures BitAt(x, i + 8) == BitAt(HighPart(x), i)
  {
    var x1 := Half(x);
    var x2 := Half(x1);
    var x3 := Half(x2);
    var x4 := Half(x3);
    var x5 := Half(x4);
    var x6 := Half(x5);
    var x7 := Half(x6);
    HalfEight(x);
    calc {
      BitAt(x, i + 8);
      BitAt(x1, i + 7);
      BitAt(x2, i + 6);
      BitAt(x3, i + 5);
      BitAt(x4, i + 4);
      BitAt(x5, i + 3);
      BitAt(x6, i + 2);
      BitAt(x7, i + 1);
      BitAt(Half(x7), i);
    }
  }

  lemma HalfEight(x: bv32)
    ensures Half(Half(Half(Half(Half(Half(Half(Half(x)))))))) == HighPart(x)
  {
  }

  lemma {:induction false} LowEight(x: bv32, i: nat)
    requires i < 8
    ensures BitAt(x, i) == (x & Mask(i) != 0)
    decreases i
  {
    if i == 0 {
    } else {
      LowEight(Half(x), i - 1);
      MaskHalf(x, i);
    }
  }

  lemma MaskHalf(x: bv32, i: nat)
    requires 0 < i < 8
    ensures (x & Mask(i) != 0) == (Half(x) & Mask(i - 1) != 0)
  {
  }

  /** The constant of the source is the generator with its powers in reverse. */
  lemma PolynomialBits(i: nat)
    requires i < 32
    ensures BitAt(POLYNOMIAL, i) == GENERATOR[i]
  {
    if i < 8 {
      PolynomialByte(0xEDB8_8320, 0, i);
    } else if i < 16 {
      DropEight(0xEDB8_8320, i - 8);
      PolynomialByte(0xED_B883, 8, i - 8);
    } else if i < 24 {
      DropEight(0xEDB8_8320, i - 8);
      DropEight(0xED_B883, i - 16);
      PolynomialByte(0xEDB8, 16, i - 16);
    } else {
      DropEight(0xEDB8_8320, i - 8);
      DropEight(0xED_B883, i - 16);
      DropEight(0xEDB8, i - 24);
      PolynomialByte(0xED, 24, i - 24);
    }
  }

  lemma PolynomialByte(x: bv32, start: nat, i: nat)
    requires start in {0, 8, 16, 24} && i < 8
    requires x == if start == 0 then 0xEDB8_8320 else if start == 8 then 0xED_B883 else if start == 16 then 0xEDB8 else 0xED
    ensures BitAt(x, i) == GENERATOR[start + i]
  {
    LowEight(x, i);
    assert i == 0 || i == 1 || i == 2 || i == 3 || i == 4 || i == 5 || i == 6 || i == 7;
  }

  /** The bits of the register after one step: they move one place towards the front, and a bit that
      leaves the register adds the generator. */
  lemma StepBits(crc: bv32, i: nat)
    requires i < 32
    ensures BitAt(Step(crc), i) ==
            ((i < 31 && BitAt(crc, i + 1)) != (BitAt(crc, 0) && GENERATOR[i]))
  {
    NarrowFits(crc, 32);
    FitsTop(crc, 32);
    LowBit(crc);
    if BitAt(crc, 0) {
      BitAtXor(Half(crc), POLYNOMIAL, i);
      PolynomialBits(i);
    }
  }

  // ----- Long division computes the register

  /** The dividend that is left when `crc` has been divided into the bits still to come. */
  function Dividend(crc: bv32, bits: seq<bool>): seq<bool> {
    AddFront(bits + Zeros32(), Bits(crc, 32))
  }

  lemma OddBoolBit(b: bool)
    ensures IsOdd(BoolBit(b)) == b && Half(BoolBit(b)) == 0
  {
  }

  lemma MixBit(crc: bv32, b: bool, i: nat)
    ensures BitAt(Xor(crc, BoolBit(b)), i) == (BitAt(crc, i) != (i == 0 && b))
  {
    BitAtXor(crc, BoolBit(b), i);
    OddBoolBit(b);
    if i > 0 {
      ZeroBits(i - 1);
    }
  }

  lemma {:induction false} ZeroBits(i: nat)
    ensures !BitAt(0, i)
    decreases i
  {
    if i == 0 {
    } else {
      ZeroBits(i - 1);
    }
  }

  lemma BitAtZero(crc: bv32)
    ensures BitAt(crc, 0) == IsOdd(crc)
  {
  }

  lemma MixedStepBits(crc: bv32, b: bool, i: nat)
    requires i < 32
    ensures BitAt(Step(Xor(crc, BoolBit(b))), i) ==
            ((i < 31 && BitAt(crc, i + 1)) != ((BitAt(crc, 0) != b) && GENERATOR[i]))
  {
    if b {
      StepBits(Xor(crc, 1), i);
      MixBit(crc, true, 0);
      MixBit(crc, true, i + 1);
    } else {
      XorZero(crc);
      StepBits(crc, i);
    }
  }

  lemma DividendAt(crc: bv32, bits: seq<bool>, i: nat)
    requires i < |bits| + 32
    ensures |Dividend(crc, bits)| == |bits| + 32
    ensures Dividend(crc, bits)[i] == ((i < |bits| && bits[i]) != (i < 32 && BitAt(crc, i)))
  {
  }

  /** What a turn of the division leaves at place i. */
  lemma DividendStepAt(crc: bv32, bits: seq<bool>, i: nat)
    requires bits != [] && i < |bits| + 31
    ensures |Dividend(crc, bits)| == |bits| + 32
    ensures Dividend(Step(Xor(crc, BoolBit(bits[0]))), bits[1..])[i] ==
            (Dividend(crc, bits)[i + 1] != (i < 32 && Dividend(crc, bits)[0] && GENERATOR[i]))
  {
    hide Dividend, BitAt, Step, Xor, BoolBit;
    DividendAt(Step(Xor(crc, BoolBit(bits[0]))), bits[1..], i);
    DividendAt(crc, bits, i + 1);
    DividendAt(crc, bits, 0);
    if i < 32 {
      MixedStepBits(crc, bits[0], i);
    }
  }

  /** One turn of the division. */
  lemma DividendStep(crc: bv32, bits: seq<bool>)
    requires bits != []
    ensures var d := Dividend(crc, bits);
            Dividend(Step(Xor(crc, BoolBit(bits[0]))), bits[1..]) ==
            if d[0] then AddFront(d[1..], GENERATOR) else d[1..]
  {
    hide BitAt, Step, Xor, BoolBit;
    var d := Dividend(crc, bits);
    var next := Dividend(Step(Xor(crc, BoolBit(bits[0]))), bits[1..]);
    forall i | 0 <= i < |next|
      ensures next[i] == (d[i + 1] != (i < 32 && d[0] && GENERATOR[i]))
    {
      DividendStepAt(crc, bits, i);
    }
  }

  lemma {:induction false} DivisionIsFeeding(crc: bv32, bits: seq<bool>)
    ensures Remainder(Dividend(crc, bits)) == Bits(FeedBits(crc, bits), 32)
    decreases |bits|
  {
    if bits == [] {
      assert Dividend(crc, []) == Bits(crc, 32);
    } else {
      DividendStep(crc, bits);
      DivisionIsFeeding(Step(Xor(crc, BoolBit(bits[0]))), bits[1..]);
    }
  }

  // ----- Feeding a byte is feeding its bits

  lemma StepDouble(x: bv32)
    ensures Step(Double(Half(x))) == Half(x)
  {
  }

  lemma OddIsBoolBit(x: bv32)
    ensures Odd(x) == BoolBit(IsOdd(x))
  {
    SplitLowBit(x);
  }

  lemma StepMixed(crc: bv32, w: bv32)
    ensures Step(Xor(crc, w)) == Xor(Step(Xor(crc, BoolBit(IsOdd(w)))), Half(w))
  {
    SplitLowBit(w);
    OddIsBoolBit(w);
    XorAssociates(crc, Odd(w), Double(Half(w)));
    StepLinear(Xor(crc, Odd(w)), Double(Half(w)));
    StepDouble(w);
  }

  lemma {:induction false} FeedBitsAdvance(crc: bv32, w: bv32, n: nat)
    requires Fits(w, n)
    ensures FeedBits(crc, Bits(w, n)) == Advance(Xor(crc, w), n)
    decreases n
  {
    if n == 0 {
      XorZero(crc);
    } else {
      var bits := Bits(w, n);
      assert bits[1..] == Bits(Half(w), n - 1);
      BitAtZero(w);
      StepMixed(crc, w);
      FeedBitsAdvance(Step(Xor(crc, BoolBit(bits[0]))), Half(w), n - 1);
    }
  }

  lemma {:induction false} FeedBitsConcat(crc: bv32, a: seq<bool>, b: seq<bool>)
    ensures FeedBits(crc, a + b) == FeedBits(FeedBits(crc, a), b)
    decreases |a|
  {
    if a == [] {
      assert a + b == b;
    } else {
      assert (a + b)[1..] == a[1..] + b;
      FeedBitsConcat(Step(Xor(crc, BoolBit(a[0]))), a[1..], b);
    }
  }

  lemma ByteFits(b: byte)
    ensures Fits(Mix(0, b), 8)
  {
    assert AtMost(Mix(0, b), 0xFF);
    assert Widest(8) == 0xFF_FFFF;
    assert Widest(16) == 0xFFFF;
    assert Widest(24) == 0xFF;
    NarrowFits(Mix(0, b), 8);
  }

  lemma MixFromZero(crc: bv32, b: byte)
    ensures Mix(crc, b) == Xor(crc, Mix(0, b))
  {
  }

  lemma {:induction false} RegisterIsFeedBits(crc: bv32, data: seq<byte>)
    ensures Register(crc, data) == FeedBits(crc, MessageBits(data))
    decreases |data|
  {
    if data == [] {
    } else {
      FeedBitsConcat(crc, Bits(Mix(0, data[0]), 8), MessageBits(data[1..]));
      ByteFits(data[0]);
      MixFromZero(crc, data[0]);
      FeedBitsAdvance(crc, Mix(0, data[0]), 8);
      RegisterIsFeedBits(Feed(crc, data[0]), data[1..]);
    }
  }

  /** The checksum, complemented back, is the remainder of the message followed by 32 zeros, with the
      complemented start value added to its first 32 coefficients. */
  lemma CrcIsRemainder(data: seq<byte>, previous: bv32)
    ensures Bits(Complement(Crc(data, previous)), 32) ==
            Remainder(AddFront(MessageBits(data) + Zeros32(), Bits(Complement(previous), 32)))
  {
    RegisterIsFeedBits(Complement(previous), data);
    DivisionIsFeeding(Complement(previous), MessageBits(data));
    ComplementTwice(Register(Complement(previous), data));
  }
}
