/** The byte-at-a-time forms of common/crc32.cpp that need no table, or only a 16-entry one,
    each proved equal to the bit-at-a-time checksum. */
module Crc32Bytewise {
  import opened Crc32Register

  method Bitwise(data: seq<byte>, previousCrc32: bv32) returns (crc: bv32)
    ensures crc == Crc(data, previousCrc32)
  {
    crc := Complement(previousCrc32);
    var current := 0;
    while current < |data|
      invariant current <= |data|
      invariant Register(crc, data[current..]) == Register(Complement(previousCrc32), data)
    {
      RegisterAt(crc, data, current);
      crc := Mix(crc, data[current]);
      ghost var fed := crc;
      for j := 0 to 8
        invariant Advance(crc, 8 - j) == Advance(fed, 8)
      {
        crc := (crc >> 1) ^ ((0 - (crc & 1)) & POLYNOMIAL);
      }
      current := current + 1;
    }
    crc := Complement(crc);
  }

  // ----- Half a byte at a time

  const NIBBLE_LOOKUP: seq<bv32> := [
    0x0000_0000, 0x1DB7_1064, 0x3B6E_20C8, 0x26D9_30AC, 0x76DC_4190, 0x6B6B_51F4, 0x4DB2_6158, 0x5005_713C,
    0xEDB8_8320, 0xF00F_9344, 0xD6D6_A3E8, 0xCB61_B38C, 0x9B64_C2B0, 0x86D3_D2D4, 0xA00A_E278, 0xBDBD_F21C
  ]

  /** The literal table holds the four-step image of every half byte. */
  lemma NibbleCases(i: bv32)
    requires i <= 0xF
    ensures 0 <= i as int < |NIBBLE_LOOKUP|
    ensures NIBBLE_LOOKUP[i as int] == Step4(i)
  {
    assert i == 0 || i == 1 || i == 2 || i == 3 || i == 4 || i == 5 || i == 6 || i == 7 ||
           i == 8 || i == 9 || i == 10 || i == 11 || i == 12 || i == 13 || i == 14 || i == 15;
  }

  function LowNibble(x: bv32): (r: bv32)
    ensures r <= 0x0F
  {
    x & 0x0F
  }

  /** One of the two lookups in the loop body of crc32_halfbyte. */
  function NibbleFeed(crc: bv32, bits: bv32): bv32 {
    NibbleCases(LowNibble(crc ^ bits));
    Xor(NIBBLE_LOOKUP[LowNibble(crc ^ bits) as int], crc >> 4)
  }

  /** The register without its low half byte. */
  function RestOfNibble(x: bv32): bv32 {
    x >> 4
  }

  lemma PartsOfNibble(x: bv32)
    ensures x == Xor(UpNibble(RestOfNibble(x)), LowNibble(x)) && RestOfNibble(x) <= 0x0FFF_FFFF
  {
  }

  /** Four zero bits only look at the low half byte. */
  lemma NibbleStep(x: bv32)
    ensures Step4(x) == Xor(RestOfNibble(x), Step4(LowNibble(x)))
  {
    hide Step4, Step, RestOfNibble, LowNibble, UpNibble, Xor;
    PartsOfNibble(x);
    AdvanceLinear(UpNibble(RestOfNibble(x)), LowNibble(x), 4);
    NibbleDown(RestOfNibble(x), 0);
    AdvanceFour(x);
    AdvanceFour(LowNibble(x));
  }

  lemma RestXor(a: bv32, b: bv32)
    ensures RestOfNibble(Xor(a, b)) == Xor(RestOfNibble(a), RestOfNibble(b))
  {
  }

  lemma NibbleFeedIs(crc: bv32, bits: bv32)
    ensures NibbleFeed(crc, bits) == Xor(Step4(LowNibble(Xor(crc, bits))), RestOfNibble(crc))
  {
    hide Step4;
    NibbleCases(LowNibble(crc ^ bits));
  }

  lemma XorBack(a: bv32, b: bv32, s: bv32)
    ensures Xor(Xor(Xor(a, b), s), b) == Xor(s, a)
  {
  }

  /** The first lookup leaves the high half of the byte still to be mixed in ... */
  lemma FirstNibble(crc: bv32, bits: bv32)
    ensures NibbleFeed(crc, bits) == Xor(Step4(Xor(crc, bits)), RestOfNibble(bits))
  {
    hide NibbleFeed, Step4, LowNibble, RestOfNibble, Xor;
    NibbleFeedIs(crc, bits);
    NibbleStep(Xor(crc, bits));
    RestXor(crc, bits);
    XorBack(RestOfNibble(crc), RestOfNibble(bits), Step4(LowNibble(Xor(crc, bits))));
  }

  lemma MixedTwice(x: bv32, bits: bv32)
    requires bits <= 0x0F
    ensures Xor(Xor(x, bits), bits) == x && RestOfNibble(Xor(x, bits)) == RestOfNibble(x)
  {
  }

  /** ... and the second lookup mixes it in. */
  lemma SecondNibble(x: bv32, bits: bv32)
    requires bits <= 0x0F
    ensures NibbleFeed(Xor(x, bits), bits) == Step4(x)
  {
    hide NibbleFeed, Step4, LowNibble, RestOfNibble, Xor;
    NibbleFeedIs(Xor(x, bits), bits);
    MixedTwice(x, bits);
    NibbleStep(x);
    XorCommutes(RestOfNibble(x), Step4(LowNibble(x)));
  }

  function HighNibble(b: byte): bv32 {
    RestOfNibble(b as bv32)
  }

  /** The loop body of crc32_halfbyte. */
  function HalfByteFeed(crc: bv32, b: byte): bv32 {
    NibbleFeed(NibbleFeed(crc, b as bv32), HighNibble(b))
  }

  lemma TwoNibbles(crc: bv32, b: byte)
    ensures HalfByteFeed(crc, b) == Feed(crc, b)
  {
    FirstNibble(crc, b as bv32);
    SecondNibble(Step4(Mix(crc, b)), HighNibble(b));
    AdvanceEight(Mix(crc, b));
  }

  method HalfByte(data: seq<byte>, previousCrc32: bv32) returns (crc: bv32)
    ensures crc == Crc(data, previousCrc32)
  {
    crc := Complement(previousCrc32);
    var current := 0;
    while current < |data|
      invariant current <= |data|
      invariant Register(crc, data[current..]) == Register(Complement(previousCrc32), data)
    {
      RegisterAt(crc, data, current);
      TwoNibbles(crc, data[current]);
      crc := HalfByteFeed(crc, data[current]);
      current := current + 1;
    }
    crc := Complement(crc);
  }

  // ----- A byte at a time without a table

  /** What the low byte s of the mixed register contributes, by integer multiplication. */
  function CarryLess(s: bv32): bv32 {
    var low: bv32 := (s ^ (s << 6)) & 0xFF;
    var a: bv32 := low * ((1 << 23) + (1 << 14) + (1 << 2));
    (low * ((1 << 24) + (1 << 16) + (1 << 8))) ^
    a ^
    (a >> 1) ^
    (low * ((1 << 20) + (1 << 12))) ^
    (low << 19) ^
    (low << 17) ^
    (low >> 2)
  }

  /** The products have no carries between the bits they combine. */
  lemma CarryLessBits(s: bv32)
    requires s <= 0xFF
    ensures CarryLess(s) == Step4(Step4(s))
  {
  }

  lemma MixedLowByte(crc: bv32, b: byte)
    ensures LowPart(Mix(crc, b)) == Mix(LowPart(crc), b) <= 0xFF
    ensures HighPart(Mix(crc, b)) == HighPart(crc)
  {
  }

  lemma TablelessFeeds(crc: bv32, b: byte)
    ensures Xor(HighPart(crc), CarryLess(Mix(LowPart(crc), b))) == Feed(crc, b)
  {
    MixedLowByte(crc, b);
    CarryLessBits(LowPart(Mix(crc, b)));
    AdvanceEight(LowPart(Mix(crc, b)));
    ByteStep(Mix(crc, b));
  }

  method Tableless(data: seq<byte>, previousCrc32: bv32) returns (crc: bv32)
    ensures crc == Crc(data, previousCrc32)
  {
    crc := Complement(previousCrc32);
    var current := 0;
    while current < |data|
      invariant current <= |data|
      invariant Register(crc, data[current..]) == Register(Complement(previousCrc32), data)
    {
      RegisterAt(crc, data, current);
      TablelessFeeds(crc, data[current]);
      crc := Xor(HighPart(crc), CarryLess(Mix(LowPart(crc), data[current])));
      current := current + 1;
    }
    crc := Complement(crc);
  }

  /** A signed 32-bit shift right by 31 spreads the top bit over the whole word. */
  function SignMask(x: bv32): bv32 {
    if x & 0x8000_0000 != 0 then 0xFFFF_FFFF else 0
  }

  /** What the low byte of crc contributes, by masking shifted polynomials. */
  function MaskedShifts(crc: bv32): bv32 {
    (SignMask(crc << 31) & ((0xEDB8_8320 >> 7) ^ (0xEDB8_8320 >> 1))) ^
    (SignMask(crc << 30) & ((0xEDB8_8320 >> 6) ^ 0xEDB8_8320)) ^
    (SignMask(crc << 29) & (0xEDB8_8320 >> 5)) ^
    (SignMask(crc << 28) & (0xEDB8_8320 >> 4)) ^
    (SignMask(crc << 27) & (0xEDB8_8320 >> 3)) ^
    (SignMask(crc << 26) & (0xEDB8_8320 >> 2)) ^
    (SignMask(crc << 25) & (0xEDB8_8320 >> 1)) ^
    (SignMask(crc << 24) & 0xEDB8_8320)
  }

  lemma MaskedLow(s: bv32)
    requires s <= 0xFF
    ensures MaskedShifts(s) == Step4(Step4(s))
  {
  }

  /** Only the low byte is shifted up to the sign. */
  lemma MaskedShiftsOfLow(crc: bv32)
    ensures MaskedShifts(crc) == MaskedShifts(LowPart(crc)) && LowPart(crc) <= 0xFF
  {
  }

  lemma MaskedShiftsAdvance(crc: bv32)
    ensures Xor(HighPart(crc), MaskedShifts(crc)) == Advance(crc, 8)
  {
    hide MaskedShifts, Step4, Step, Advance, HighPart, LowPart, Xor;
    MaskedShiftsOfLow(crc);
    MaskedLow(LowPart(crc));
    AdvanceEight(LowPart(crc));
    ByteStep(crc);
  }

  method Tableless2(data: seq<byte>, previousCrc32: bv32) returns (crc: bv32)
    ensures crc == Crc(data, previousCrc32)
  {
    crc := Complement(previousCrc32);
    var current := 0;
    while current < |data|
      invariant current <= |data|
      invariant Register(crc, data[current..]) == Register(Complement(previousCrc32), data)
    {
      RegisterAt(crc, data, current);
      crc := Mix(crc, data[current]);
      MaskedShiftsAdvance(crc);
      var c := MaskedShifts(crc);
      crc := Xor(HighPart(crc), c);
      current := current + 1;
    }
    crc := Complement(crc);
  }
}
