/** What a CRC is for: the checksum of common/crc32.cpp notices every change that is confined to 32 consecutive
    bits, wherever they are and whatever surrounds them, and to no more than that. */
module Crc32Detection {
  import opened Crc32Division
  import opened Crc32Register
  import opened Crc32Slicing

  /** Undoing one step: the top bit tells whether the polynomial was added. */
  function Back(crc: bv32): bv32 {
    if crc & 0x8000_0000 != 0 then ((crc ^ POLYNOMIAL) << 1) | 1 else crc << 1
  }

  lemma BackUndoesStep(crc: bv32)
    ensures Back(Step(crc)) == crc
  {
  }

  lemma {:induction false} AdvanceInjective(a: bv32, b: bv32, n: nat)
    requires a != b
    ensures Advance(a, n) != Advance(b, n)
    decreases n
  {
    if n == 0 {
    } else {
      BackUndoesStep(a);
      BackUndoesStep(b);
      AdvanceInjective(Step(a), Step(b), n - 1);
    }
  }

  lemma MixInjectiveBits(a: bv32, b: bv32, x: bv32)
    requires a != b
    ensures a ^ x != b ^ x
  {
  }

  lemma XorInjective(a: bv32, b: bv32, x: bv32)
    requires a != b
    ensures Xor(a, x) != Xor(b, x) && Xor(x, a) != Xor(x, b)
  {
    MixInjectiveBits(a, b, x);
    XorCommutes(a, x);
    XorCommutes(b, x);
  }

  lemma FeedInjective(a: bv32, b: bv32, x: byte)
    requires a != b
    ensures Feed(a, x) != Feed(b, x)
  {
    MixInjectiveBits(a, b, x as bv32);
    AdvanceInjective(Mix(a, x), Mix(b, x), 8);
  }

  /** The same bytes never bring two different registers together. */
  lemma {:induction false} RegisterInjective(a: bv32, b: bv32, data: seq<byte>)
    requires a != b
    ensures Register(a, data) != Register(b, data)
    decreases |data|
  {
    if data == [] {
    } else {
      FeedInjective(a, b, data[0]);
      RegisterInjective(Feed(a, data[0]), Feed(b, data[0]), data[1..]);
    }
  }

  /** A word determines its four bytes. */
  lemma WordInjective(a: seq<byte>, b: seq<byte>)
    requires |a| == |b| == 4 && a != b
    ensures Word(a, 0) != Word(b, 0)
  {
    if Word(a, 0) == Word(b, 0) {
      WordBytesBits(a[0], a[1], a[2], a[3], b[0], b[1], b[2], b[3]);
    }
  }

  lemma WordBytesBits(a0: byte, a1: byte, a2: byte, a3: byte, b0: byte, b1: byte, b2: byte, b3: byte)
    requires LittleEndian(Widen(a0), Widen(a1), Widen(a2), Widen(a3)) ==
             LittleEndian(Widen(b0), Widen(b1), Widen(b2), Widen(b3))
    ensures a0 == b0 && a1 == b1 && a2 == b2 && a3 == b3
  {
  }

  lemma FourBytesDiffer(crc: bv32, a: seq<byte>, b: seq<byte>)
    requires |a| == |b| == 4 && a != b
    ensures Register(crc, a) != Register(crc, b)
  {
    RegisterWord(crc, a, 0);
    RegisterWord(crc, b, 0);
    assert a[0..] == a && b[0..] == b && a[4..] == [] && b[4..] == [];
    WordInjective(a, b);
    XorInjective(Word(a, 0), Word(b, 0), crc);
    AdvanceInjective(Xor(crc, Word(a, 0)), Xor(crc, Word(b, 0)), 32);
  }

  lemma ComplementInjective(a: bv32, b: bv32)
    requires a != b
    ensures Complement(a) != Complement(b)
  {
    ComplementTwice(a);
    ComplementTwice(b);
  }

  /** Changing any of four consecutive bytes changes the checksum. */
  lemma DetectsFourByteBursts(front: seq<byte>, a: seq<byte>, b: seq<byte>, back: seq<byte>, previous: bv32)
    requires |a| == |b| == 4 && a != b
    ensures Crc(front + a + back, previous) != Crc(front + b + back, previous)
  {
    var crc := Register(Complement(previous), front);
    FourBytesDiffer(crc, a, b);
    RegisterInjective(Register(crc, a), Register(crc, b), back);
    RegisterConcat(Complement(previous), front + a, back);
    RegisterConcat(Complement(previous), front, a);
    RegisterConcat(Complement(previous), front + b, back);
    RegisterConcat(Complement(previous), front, b);
    ComplementInjective(Register(Register(crc, a), back), Register(Register(crc, b), back));
  }

  /** So is starting from a different previous checksum. */
  lemma DetectsPrevious(data: seq<byte>, p: bv32, q: bv32)
    requires p != q
    ensures Crc(data, p) != Crc(data, q)
  {
    ComplementInjective(p, q);
    RegisterInjective(Complement(p), Complement(q), data);
    ComplementInjective(Register(Complement(p), data), Register(Complement(q), data));
  }

  // ----- Bursts of bits

  /** The word whose low bits these are. */
  function WordOf(bits: seq<bool>): bv32
    decreases |bits|
  {
    if bits == [] then 0 else Xor(Double(WordOf(bits[1..])), BoolBit(bits[0]))
  }

  lemma JoinLowBit(w: bv32, b: bool)
    requires w <= 0x7FFF_FFFF
    ensures Half(Xor(Double(w), BoolBit(b))) == w && IsOdd(Xor(Double(w), BoolBit(b))) == b
  {
    DoubleHalf(w);
    hide Half, Xor, Double, BoolBit, IsOdd;
    OddBoolBit(b);
    HalfXor(Double(w), BoolBit(b));
    OddXor(Double(w), BoolBit(b));
    XorZero(w);
  }

  lemma DoubleHalf(w: bv32)
    requires w <= 0x7FFF_FFFF
    ensures Half(Double(w)) == w && !IsOdd(Double(w))
  {
  }

  /** The top bit, moved down. */
  function TopBit(j: nat): bv32
    decreases j
  {
    if j == 0 then 0x8000_0000 else Half(TopBit(j - 1))
  }

  lemma TopBitReachesLow()
    ensures TopBit(31) == 1
  {
    assert TopBit(8) == 0x80_0000;
    assert TopBit(16) == 0x8000;
    assert TopBit(24) == 0x80;
  }

  lemma HalfOfZero()
    ensures Half(0) == 0
  {
  }

  lemma {:induction false} FitsMore(x: bv32, k: nat, n: nat)
    requires Fits(x, k) && k <= n
    ensures Fits(x, n)
    decreases n
  {
    HalfOfZero();
    if n == 0 {
    } else if k == 0 {
      FitsMore(0, 0, n - 1);
    } else {
      FitsMore(Half(x), k - 1, n - 1);
    }
  }

  lemma NotZero(x: bv32)
    requires AtMost(1, x)
    ensures x != 0
  {
  }

  lemma {:induction false} TooWide(x: bv32, k: nat)
    requires k <= 31 && AtMost(TopBit(31 - k), x)
    ensures !Fits(x, k)
    decreases k
  {
    if k == 0 {
      TopBitReachesLow();
      NotZero(x);
    } else {
      HalfMonotonic(TopBit(31 - k), x);
      TooWide(Half(x), k - 1);
    }
  }

  /** A word of at most 31 bits has its top bit clear. */
  lemma NarrowIsSmall(x: bv32, k: nat)
    requires k <= 31 && Fits(x, k)
    ensures x <= 0x7FFF_FFFF
  {
    FitsMore(x, k, 31);
    if AtMost(0x8000_0000, x) {
      TooWide(x, 31);
    }
  }

  /** Up to 32 bits are the bits of their word. */
  lemma {:induction false} BitsOfWord(bits: seq<bool>)
    requires |bits| <= 32
    ensures Bits(WordOf(bits), |bits|) == bits && Fits(WordOf(bits), |bits|)
    decreases |bits|
  {
    if bits == [] {
    } else {
      var more := bits[1..];
      BitsOfWord(more);
      NarrowIsSmall(WordOf(more), |more|);
      JoinLowBit(WordOf(more), bits[0]);
      hide WordOf, Xor, Double, BoolBit, Half, IsOdd;
      FirstBit(WordOf(bits), |more|);
      assert bits == [bits[0]] + more;
    }
  }

  lemma FirstBit(w: bv32, n: nat)
    ensures Bits(w, n + 1) == [IsOdd(w)] + Bits(Half(w), n)
    ensures Fits(w, n + 1) == Fits(Half(w), n)
  {
  }

  lemma FeedBitInjective(a: bv32, b: bv32, bit: bool)
    requires a != b
    ensures Step(Xor(a, BoolBit(bit))) != Step(Xor(b, BoolBit(bit)))
  {
    hide Xor, Step, Back;
    XorInjective(a, b, BoolBit(bit));
    BackUndoesStep(Xor(a, BoolBit(bit)));
    BackUndoesStep(Xor(b, BoolBit(bit)));
  }

  lemma {:induction false} FeedBitsInjective(a: bv32, b: bv32, bits: seq<bool>)
    requires a != b
    ensures FeedBits(a, bits) != FeedBits(b, bits)
    decreases |bits|
  {
    if bits == [] {
    } else {
      FeedBitInjective(a, b, bits[0]);
      FeedBitsInjective(Step(Xor(a, BoolBit(bits[0]))), Step(Xor(b, BoolBit(bits[0]))), bits[1..]);
    }
  }

  lemma BurstBitsDiffer(crc: bv32, x: seq<bool>, y: seq<bool>)
    requires |x| == |y| <= 32 && x != y
    ensures FeedBits(crc, x) != FeedBits(crc, y)
  {
    BitsOfWord(x);
    BitsOfWord(y);
    FeedBitsAdvance(crc, WordOf(x), |x|);
    FeedBitsAdvance(crc, WordOf(y), |y|);
    hide Xor, Advance, WordOf, Bits, FeedBits;
    XorInjective(WordOf(x), WordOf(y), crc);
    AdvanceInjective(Xor(crc, WordOf(x)), Xor(crc, WordOf(y)), |x|);
  }

  /** The bits of two messages, that differ in one burst. */
  ghost predicate DifferIn(a: seq<byte>, b: seq<byte>, front: seq<bool>, x: seq<bool>, y: seq<bool>, back: seq<bool>) {
    MessageBits(a) == front + x + back && MessageBits(b) == front + y + back && |x| == |y|
  }

  lemma FeedParts(crc: bv32, front: seq<bool>, x: seq<bool>, back: seq<bool>)
    ensures FeedBits(crc, front + x + back) == FeedBits(FeedBits(FeedBits(crc, front), x), back)
  {
    FeedBitsConcat(crc, front + x, back);
    FeedBitsConcat(crc, front, x);
  }

  lemma CrcOfParts(a: seq<byte>, previous: bv32, front: seq<bool>, x: seq<bool>, back: seq<bool>)
    requires MessageBits(a) == front + x + back
    ensures Crc(a, previous) == Complement(FeedBits(FeedBits(FeedBits(Complement(previous), front), x), back))
  {
    RegisterIsFeedBits(Complement(previous), a);
    FeedParts(Complement(previous), front, x, back);
  }

  /** Changing bits within any 32 consecutive ones of the message changes the checksum, at any alignment. */
  lemma DetectsBursts(a: seq<byte>, b: seq<byte>, previous: bv32, front: seq<bool>, x: seq<bool>, y: seq<bool>,
                      back: seq<bool>)
    requires DifferIn(a, b, front, x, y, back) && |x| <= 32 && a != b
    ensures Crc(a, previous) != Crc(b, previous)
  {
    CrcOfParts(a, previous, front, x, back);
    CrcOfParts(b, previous, front, y, back);
    if x == y {
      MessageBitsInjective(a, b);
    }
    hide FeedBits, Complement, Crc;
    var crc := FeedBits(Complement(previous), front);
    BurstBitsDiffer(crc, x, y);
    FeedBitsInjective(FeedBits(crc, x), FeedBits(crc, y), back);
    ComplementInjective(FeedBits(FeedBits(crc, x), back), FeedBits(FeedBits(crc, y), back));
  }

  /** A message is determined by its bits. */
  lemma {:induction false} MessageBitsInjective(a: seq<byte>, b: seq<byte>)
    requires MessageBits(a) == MessageBits(b)
    ensures a == b
    decreases |a|
  {
    BitsPerByte(a);
    BitsPerByte(b);
    if a == [] {
    } else {
      var u, v := Bits(Mix(0, a[0]), 8), Bits(Mix(0, b[0]), 8);
      assert MessageBits(a)[..8] == u && MessageBits(b)[..8] == v;
      assert MessageBits(a)[8..] == MessageBits(a[1..]) && MessageBits(b)[8..] == MessageBits(b[1..]);
      MessageBitsInjective(a[1..], b[1..]);
      ByteOfBits(a[0], b[0]);
      assert a == [a[0]] + a[1..] && b == [b[0]] + b[1..];
    }
  }

  lemma {:induction false} BitsPerByte(a: seq<byte>)
    ensures |MessageBits(a)| == 8 * |a|
    decreases |a|
  {
    if a == [] {
    } else {
      BitsPerByte(a[1..]);
    }
  }

  lemma ByteOfBits(a: byte, b: byte)
    requires Bits(Mix(0, a), 8) == Bits(Mix(0, b), 8)
    ensures a == b
  {
    FeedBitsAdvance(0, Mix(0, a), 8) by { ByteFits(a); }
    FeedBitsAdvance(0, Mix(0, b), 8) by { ByteFits(b); }
    hide Bits, FeedBits, Advance, Mix, Xor;
    XorZero(Mix(0, a));
    XorZero(Mix(0, b));
    XorCommutes(0, Mix(0, a));
    XorCommutes(0, Mix(0, b));
    if Mix(0, a) != Mix(0, b) {
      AdvanceInjective(Mix(0, a), Mix(0, b), 8);
    }
    MixedByte(a, b);
  }

  lemma MixedByte(a: byte, b: byte)
    requires Mix(0, a) == Mix(0, b)
    ensures a == b
  {
  }

  // ----- One bit more goes unnoticed

  lemma BitOfSum(x: seq<bool>, i: nat)
    requires |x| == 32 && i < 32
    ensures BitAt(Xor(WordOf(x), POLYNOMIAL), i) == (x[i] != GENERATOR[i])
  {
    BitsOfWord(x);
    BitAtXor(WordOf(x), POLYNOMIAL, i);
    PolynomialBits(i);
    hide Xor, WordOf, BitAt, Fits;
    assert Bits(WordOf(x), 32)[i] == x[i];
  }

  lemma BitsOfSum(x: seq<bool>)
    requires |x| == 32
    ensures Bits(Xor(WordOf(x), POLYNOMIAL), 32) == AddFront(x, GENERATOR)
  {
    hide Xor, WordOf, BitAt;
    forall i: nat | i < 32
      ensures BitAt(Xor(WordOf(x), POLYNOMIAL), i) == (x[i] != GENERATOR[i])
    {
      BitOfSum(x, i);
    }
  }

  lemma StepOfFlipped(crc: bv32, bit: bool)
    ensures Step(Xor(crc, BoolBit(!bit))) == Xor(Step(Xor(crc, BoolBit(bit))), POLYNOMIAL)
  {
    assert BoolBit(!bit) == Xor(BoolBit(bit), 1);
    assert Step(1) == POLYNOMIAL;
    hide Xor, Step, BoolBit;
    XorAssociates(crc, BoolBit(bit), 1);
    StepLinear(Xor(crc, BoolBit(bit)), 1);
  }

  lemma FeedFlipped(crc: bv32, bit: bool, x: seq<bool>)
    requires |x| == 32
    ensures FeedBits(crc, [bit] + x) == FeedBits(crc, [!bit] + AddFront(x, GENERATOR))
  {
    var r, w := Step(Xor(crc, BoolBit(bit))), WordOf(x);
    BitsOfWord(x);
    BitsOfSum(x);
    StepOfFlipped(crc, bit);
    NarrowFits(w, 32) by { assert AtMost(w, Widest(0)); }
    NarrowFits(Xor(w, POLYNOMIAL), 32) by { assert AtMost(Xor(w, POLYNOMIAL), Widest(0)); }
    FeedBitsAdvance(r, w, 32);
    FeedBitsAdvance(Xor(r, POLYNOMIAL), Xor(w, POLYNOMIAL), 32);
    XorCancels(r, w, POLYNOMIAL);
    assert ([bit] + x)[1..] == x && ([!bit] + AddFront(x, GENERATOR))[1..] == AddFront(x, GENERATOR);
  }

  /** Adding the 33 coefficients of the generator anywhere leaves the checksum as it was, so 32 is the most. */
  lemma MissesGenerator(a: seq<byte>, b: seq<byte>, previous: bv32, front: seq<bool>, bit: bool, x: seq<bool>,
                        back: seq<bool>)
    requires |x| == 32 && DifferIn(a, b, front, [bit] + x, [!bit] + AddFront(x, GENERATOR), back)
    ensures Crc(a, previous) == Crc(b, previous)
  {
    CrcOfParts(a, previous, front, [bit] + x, back);
    CrcOfParts(b, previous, front, [!bit] + AddFront(x, GENERATOR), back);
    FeedFlipped(FeedBits(Complement(previous), front), bit, x);
  }

  lemma GeneratorWord()
    ensures Advance(0xDB71_0641, 32) == 1
  {
    AdvanceCompose(0xDB71_0641, 4, 28);
    AdvanceFour(0xDB71_0641);
    assert Step4(0xDB71_0641) == 0x1000_0000;
    assert UpNibble(0x100_0000) == 0x1000_0000 && UpNibble(0x10_0000) == 0x100_0000 && UpNibble(0x1_0000) == 0x10_0000;
    assert UpNibble(0x1000) == 0x1_0000 && UpNibble(0x100) == 0x1000 && UpNibble(0x10) == 0x100 && UpNibble(1) == 0x10;
    assert Advance(1, 0) == 1;
    hide Advance, Step4, UpNibble;
    NibbleDown(0x100_0000, 24);
    NibbleDown(0x10_0000, 20);
    NibbleDown(0x1_0000, 16);
    NibbleDown(0x1000, 12);
    NibbleDown(0x100, 8);
    NibbleDown(0x10, 4);
    NibbleDown(1, 0);
  }

  const FIVE_ZEROS: seq<byte> := [0, 0, 0, 0, 0]
  const GENERATOR_BYTES: seq<byte> := [0x41, 0x06, 0x71, 0xDB, 0x01]

  lemma LoadedWords()
    ensures Word(FIVE_ZEROS, 0) == 0 && Word(GENERATOR_BYTES, 0) == 0xDB71_0641
  {
  }

  lemma LastByte(r: bv32)
    ensures Mix(Xor(r, 1), 0x01) == Mix(r, 0)
  {
  }

  lemma FiveBytes(crc: bv32, data: seq<byte>)
    requires |data| == 5
    ensures Register(crc, data) == Advance(Mix(Advance(Xor(crc, Word(data, 0)), 32), data[4]), 8)
  {
    RegisterWord(crc, data, 0);
    assert data[0..] == data && data[4..] == [data[4]];
  }

  /** Five bytes that the checksum cannot tell from zeros, whatever precedes them. */
  lemma FiveBytesCollide(previous: bv32)
    ensures Crc(GENERATOR_BYTES, previous) == Crc(FIVE_ZEROS, previous)
  {
    var crc := Complement(previous);
    FiveBytes(crc, FIVE_ZEROS);
    FiveBytes(crc, GENERATOR_BYTES);
    LoadedWords();
    XorZero(crc);
    AdvanceLinear(crc, 0xDB71_0641, 32);
    GeneratorWord();
    LastByte(Advance(crc, 32));
    hide Register, Advance, Xor, Mix, Word;
  }
}
