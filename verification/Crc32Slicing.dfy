/** The table-driven forms of common/crc32.cpp: the byte table, slicing by 4, 8, 4x8 and 16, the
    prefetching variant and the dispatcher, each proved equal to the bit-at-a-time checksum. */
module Crc32Slicing {
  import opened Crc32Register
  import opened Wrappers

  // ----- The lookup table

  const MAX_SLICE: nat := 16

  function Index(b: bv32): (i: nat)
    requires b <= 0xFF
    ensures i < 256
  {
    b as int
  }

  function FromIndex(i: nat): bv32
    requires i < 256
  {
    i as bv32
  }

  lemma IndexRoundTrip(b: bv32)
    requires b <= 0xFF
    ensures FromIndex(Index(b)) == b
  {
  }

  function LowIndex(x: bv32): (i: nat)
    ensures i < 256
  {
    assert LowPart(x) <= 0xFF;
    Index(LowPart(x))
  }

  ghost predicate TableShape(table: array2<bv32>) {
    table.Length0 == MAX_SLICE && table.Length1 == 256
  }

  /** Crc32Lookup[slice][x & 0xFF] */
  function Lookup(table: array2<bv32>, slice: nat, x: bv32): bv32
    requires table.Length0 == MAX_SLICE && table.Length1 == 256 && slice < MAX_SLICE
    reads table
  {
    table[slice, LowIndex(x)]
  }

  /** Slice k advances a byte by k + 1 whole bytes. */
  ghost predicate IsLookup(table: array2<bv32>)
    reads table
  {
    TableShape(table) &&
    forall slice: nat, x: bv32 :: slice < MAX_SLICE ==>
      Lookup(table, slice, x) == Advance(LowPart(x), 8 * slice + 8)
  }

  /** The first n entries of one row hold what the recurrence promises. */
  ghost predicate RowUpTo(table: array2<bv32>, slice: nat, n: nat)
    requires TableShape(table) && n <= 256 && slice < MAX_SLICE
    reads table
  {
    forall i: nat :: i < n ==> table[slice, i] == Advance(FromIndex(i), 8 * slice + 8)
  }

  /** The generator in the comment above the literal table. */
  method BuildLookup() returns (table: array2<bv32>)
    ensures fresh(table) && IsLookup(table)
  {
    table := new bv32[MAX_SLICE, 256];
    for i := 0 to 256
      invariant RowUpTo(table, 0, i)
    {
      var crc := FromIndex(i);
      for j := 0 to 8
        invariant Advance(crc, 8 - j) == Advance(FromIndex(i), 8)
      {
        crc := (crc >> 1) ^ ((0 - (crc & 1)) & POLYNOMIAL);
      }
      table[0, i] := crc;
    }
    for slice := 1 to MAX_SLICE
      invariant RowsBelow(table, slice)
    {
      FillRow(table, slice);
    }
    RowsMakeLookup(table);
  }

  /** The rows below a slice are complete. */
  ghost predicate RowsBelow(table: array2<bv32>, slice: nat)
    requires TableShape(table) && slice <= MAX_SLICE
    reads table
  {
    forall k: nat :: k < slice ==> RowUpTo(table, k, 256)
  }

  method FillRow(table: array2<bv32>, slice: nat)
    requires TableShape(table) && 0 < slice < MAX_SLICE && RowsBelow(table, slice)
    modifies table
    ensures RowsBelow(table, slice + 1)
  {
    for i := 0 to 256
      invariant RowUpTo(table, slice, i) && RowsBelow(table, slice)
    {
      FillEntry(table, slice, i);
    }
  }

  method FillEntry(table: array2<bv32>, slice: nat, i: nat)
    requires TableShape(table) && 0 < slice < MAX_SLICE && i < 256
    requires RowUpTo(table, slice, i) && RowsBelow(table, slice)
    modifies table
    ensures RowUpTo(table, slice, i + 1) && RowsBelow(table, slice)
  {
    hide Advance, Xor, HighPart, LowIndex;
    var below := table[slice - 1, i];
    EntryBelow(table, slice, i);
    NextEntry(FromIndex(i), 8 * slice, below);
    table[slice, i] := Xor(HighPart(below), table[0, LowIndex(below)]);
    forall k: nat | k < slice
      ensures RowUpTo(table, k, 256)
    {
      assert old(RowUpTo(table, k, 256));
    }
  }

  lemma EntryBelow(table: array2<bv32>, slice: nat, i: nat)
    requires TableShape(table) && 0 < slice < MAX_SLICE && RowsBelow(table, slice) && i < 256
    ensures var below := table[slice - 1, i];
            below == Advance(FromIndex(i), 8 * slice) &&
            table[0, LowIndex(below)] == Advance(FromIndex(LowIndex(below)), 8)
  {
    hide LowIndex, Advance;
    assert RowUpTo(table, slice - 1, 256) && RowUpTo(table, 0, 256);
  }

  lemma NextEntry(start: bv32, n: nat, below: bv32)
    requires below == Advance(start, n)
    ensures Xor(HighPart(below), Advance(FromIndex(LowIndex(below)), 8)) == Advance(start, n + 8)
  {
    IndexRoundTrip(LowPart(below));
    ByteStep(below);
    AdvanceCompose(start, n, 8);
  }

  lemma RowsMakeLookup(table: array2<bv32>)
    requires TableShape(table) && RowsBelow(table, MAX_SLICE)
    ensures IsLookup(table)
  {
    forall slice: nat, x: bv32 | slice < MAX_SLICE
      ensures Lookup(table, slice, x) == Advance(LowPart(x), 8 * slice + 8)
    {
      assert RowUpTo(table, slice, 256);
      IndexRoundTrip(LowPart(x));
    }
  }

  // ----- What four lookups compute

  /** Byte k of a word, and a byte put in place k; the masks of the source are inside `LowPart`. */
  function Down(word: bv32, k: nat): bv32 {
    if k == 0 then word else if k == 1 then word >> 8 else if k == 2 then word >> 16 else word >> 24
  }

  function Up(x: bv32, k: nat): bv32 {
    if k == 0 then x else if k == 1 then x << 8 else if k == 2 then x << 16 else x << 24
  }

  function Xor4(a: bv32, b: bv32, c: bv32, d: bv32): bv32 {
    Xor(Xor(Xor(a, b), c), d)
  }

  /** The four lookups for one 32-bit word, such as `one` in slicing by 4. */
  function WordLookup(table: array2<bv32>, slice: nat, word: bv32): bv32
    requires table.Length0 == MAX_SLICE && table.Length1 == 256 && slice + 3 < MAX_SLICE
    reads table
  {
    Xor4(Lookup(table, slice, Down(word, 3)), Lookup(table, slice + 1, Down(word, 2)),
         Lookup(table, slice + 2, Down(word, 1)), Lookup(table, slice + 3, Down(word, 0)))
  }

  lemma PlacedByte(word: bv32)
    ensures Up(LowPart(Down(word, 3)), 3) == word & 0xFF00_0000
    ensures Up(LowPart(Down(word, 2)), 2) == word & 0x00FF_0000
    ensures Up(LowPart(Down(word, 1)), 1) == word & 0x0000_FF00
    ensures Up(LowPart(Down(word, 0)), 0) == word & 0x0000_00FF
  {
  }

  lemma FourMasks(word: bv32)
    ensures word == Xor4(word & 0xFF00_0000, word & 0x00FF_0000, word & 0x0000_FF00, word & 0x0000_00FF)
  {
  }

  lemma PartsOfWord(word: bv32)
    ensures word == Xor4(Up(LowPart(Down(word, 3)), 3), Up(LowPart(Down(word, 2)), 2),
                         Up(LowPart(Down(word, 1)), 1), Up(LowPart(Down(word, 0)), 0))
  {
    hide Up, Down, LowPart, Xor4;
    PlacedByte(word);
    FourMasks(word);
  }

  lemma UpOnce(x: bv32, k: nat)
    requires x <= 0xFF && 1 <= k <= 3
    ensures Up(x, k - 1) <= 0xFF_FFFF
    ensures Up(x, k) == Up(x, k - 1) << 8
  {
  }

  lemma UpNone(x: bv32)
    ensures Up(x, 0) == x
  {
  }

  lemma OneByteDown(x: bv32, k: nat, n: nat)
    requires x <= 0xFF && 1 <= k <= 3
    ensures Advance(Up(x, k), 8 + n) == Advance(Up(x, k - 1), n)
  {
    UpOnce(x, k);
    hide Up, Advance;
    ByteDown(Up(x, k - 1));
    AdvanceCompose(Up(x, k), 8, n);
  }

  /** A byte in place k takes k bytes of zeros to reach the low end. */
  lemma {:induction false} UpAdvances(x: bv32, k: nat, n: nat)
    requires x <= 0xFF && k <= 3
    ensures Advance(Up(x, k), 8 * k + n) == Advance(x, n)
    decreases k
  {
    UpNone(x);
    hide Up, Advance;
    if k == 0 {
    } else {
      OneByteDown(x, k, 8 * (k - 1) + n);
      UpAdvances(x, k - 1, n);
    }
  }

  lemma AdvanceXor4(a: bv32, b: bv32, c: bv32, d: bv32, n: nat)
    ensures Advance(Xor4(a, b, c, d), n) == Xor4(Advance(a, n), Advance(b, n), Advance(c, n), Advance(d, n))
  {
    AdvanceLinear(a, b, n);
    AdvanceLinear(Xor(a, b), c, n);
    AdvanceLinear(Xor(Xor(a, b), c), d, n);
  }

  lemma LookupInPlace(table: array2<bv32>, slice: nat, word: bv32, k: nat)
    requires IsLookup(table) && slice < MAX_SLICE && k <= 3
    ensures Lookup(table, slice, Down(word, k)) == Advance(Up(LowPart(Down(word, k)), k), 8 * (slice + k) + 8)
  {
    assert LowPart(Down(word, k)) <= 0xFF;
    UpAdvances(LowPart(Down(word, k)), k, 8 * slice + 8);
  }

  lemma Assemble(word: bv32, n: nat, l3: bv32, l2: bv32, l1: bv32, l0: bv32)
    requires l3 == Advance(Up(LowPart(Down(word, 3)), 3), n)
    requires l2 == Advance(Up(LowPart(Down(word, 2)), 2), n)
    requires l1 == Advance(Up(LowPart(Down(word, 1)), 1), n)
    requires l0 == Advance(Up(LowPart(Down(word, 0)), 0), n)
    ensures Xor4(l3, l2, l1, l0) == Advance(word, n)
  {
    AdvanceXor4(Up(LowPart(Down(word, 3)), 3), Up(LowPart(Down(word, 2)), 2),
                Up(LowPart(Down(word, 1)), 1), Up(LowPart(Down(word, 0)), 0), n);
    PartsOfWord(word);
  }

  /** Four lookups advance a word by its own four bytes and by one more byte per slice skipped. */
  lemma WordLookupAdvances(table: array2<bv32>, slice: nat, word: bv32)
    requires IsLookup(table) && slice + 3 < MAX_SLICE
    ensures WordLookup(table, slice, word) == Advance(word, 8 * slice + 32)
  {
    LookupInPlace(table, slice, word, 3);
    LookupInPlace(table, slice + 1, word, 2);
    LookupInPlace(table, slice + 2, word, 1);
    LookupInPlace(table, slice + 3, word, 0);
    Assemble(word, 8 * slice + 32, Lookup(table, slice, Down(word, 3)), Lookup(table, slice + 1, Down(word, 2)),
             Lookup(table, slice + 2, Down(word, 1)), Lookup(table, slice + 3, Down(word, 0)));
  }

  // ----- Loading words

  function Widen(b: byte): (w: bv32)
    ensures w <= 0xFF
  {
    b as bv32
  }

  /** A little-endian 32-bit load. */
  function Word(data: seq<byte>, i: nat): bv32
    requires i + 4 <= |data|
  {
    LittleEndian(Widen(data[i]), Widen(data[i + 1]), Widen(data[i + 2]), Widen(data[i + 3]))
  }

  function LittleEndian(b0: bv32, b1: bv32, b2: bv32, b3: bv32): bv32 {
    b0 | (b1 << 8) | (b2 << 16) | (b3 << 24)
  }

  lemma WordBits(b0: bv32, b1: bv32, b2: bv32, b3: bv32)
    requires b0 <= 0xFF && b1 <= 0xFF && b2 <= 0xFF && b3 <= 0xFF
    ensures var w := b0 | (b1 << 8) | (b2 << 16) | (b3 << 24);
            w & 0xFF == b0 && (w >> 8) & 0xFF == b1 && ((w >> 8) >> 8) & 0xFF == b2 &&
            (((w >> 8) >> 8) >> 8) & 0xFF == b3 && (((w >> 8) >> 8) >> 8) >> 8 == 0
  {
  }

  lemma WordBytes(b0: bv32, b1: bv32, b2: bv32, b3: bv32)
    requires b0 <= 0xFF && b1 <= 0xFF && b2 <= 0xFF && b3 <= 0xFF
    ensures var w := LittleEndian(b0, b1, b2, b3);
            LowPart(w) == b0 && LowPart(HighPart(w)) == b1 && LowPart(HighPart(HighPart(w))) == b2 &&
            LowPart(HighPart(HighPart(HighPart(w)))) == b3 && HighPart(HighPart(HighPart(HighPart(w)))) == 0
  {
    WordBits(b0, b1, b2, b3);
  }

  lemma HighOfXor(a: bv32, b: bv32)
    ensures HighPart(Xor(a, b)) == Xor(HighPart(a), HighPart(b))
  {
  }

  lemma HighOfMix(crc: bv32, b: byte)
    ensures HighPart(Mix(crc, b)) == HighPart(crc)
  {
  }

  lemma LowOfXor(crc: bv32, b: byte, later: bv32)
    requires LowPart(later) == Widen(b)
    ensures LowPart(Xor(crc, later)) == LowPart(Mix(crc, b))
  {
  }

  /** Feeding the low byte of a register that already holds later bytes leaves those bytes to be mixed in. */
  lemma FeedLow(crc: bv32, b: byte, later: bv32)
    requires LowPart(later) == Widen(b)
    ensures Advance(Xor(crc, later), 8) == Xor(Feed(crc, b), HighPart(later))
  {
    ByteStep(Xor(crc, later));
    ByteStep(Mix(crc, b));
    HighOfXor(crc, later);
    HighOfMix(crc, b);
    LowOfXor(crc, b, later);
    XorSwap(HighPart(crc), HighPart(later), Advance(LowPart(Mix(crc, b)), 8));
  }

  /** Mixing a whole word in at once is feeding its four bytes in order. */
  lemma FeedWord(crc: bv32, b0: byte, b1: byte, b2: byte, b3: byte)
    ensures Advance(Xor(crc, LittleEndian(Widen(b0), Widen(b1), Widen(b2), Widen(b3))), 32) ==
            Feed(Feed(Feed(Feed(crc, b0), b1), b2), b3)
  {
    var w0 := LittleEndian(Widen(b0), Widen(b1), Widen(b2), Widen(b3));
    WordBytes(Widen(b0), Widen(b1), Widen(b2), Widen(b3));
    var w1, c1 := HighPart(w0), Feed(crc, b0);
    FeedLow(crc, b0, w0);
    AdvanceCompose(Xor(crc, w0), 8, 24);
    var w2, c2 := HighPart(w1), Feed(c1, b1);
    FeedLow(c1, b1, w1);
    AdvanceCompose(Xor(c1, w1), 8, 16);
    var w3, c3 := HighPart(w2), Feed(c2, b2);
    FeedLow(c2, b2, w2);
    AdvanceCompose(Xor(c2, w2), 8, 8);
    FeedLow(c3, b3, w3);
    XorZero(Feed(c3, b3));
  }

  lemma RegisterWord(crc: bv32, data: seq<byte>, i: nat)
    requires i + 4 <= |data|
    ensures Register(crc, data[i..]) == Register(Advance(Xor(crc, Word(data, i)), 32), data[i + 4..])
  {
    FeedWord(crc, data[i], data[i + 1], data[i + 2], data[i + 3]);
    RegisterAt(crc, data, i);
    var c1 := Feed(crc, data[i]);
    RegisterAt(c1, data, i + 1);
    var c2 := Feed(c1, data[i + 1]);
    RegisterAt(c2, data, i + 2);
    var c3 := Feed(c2, data[i + 2]);
    RegisterAt(c3, data, i + 3);
  }

  // ----- The loops

  /** crc32_1byte, and the loop every slicing form ends with: the bytes from `start` on. */
  method RemainingBytes(table: array2<bv32>, data: seq<byte>, start: nat, register: bv32) returns (crc: bv32)
    requires IsLookup(table) && start <= |data|
    ensures crc == Register(register, data[start..])
  {
    crc := register;
    var current := start;
    while current < |data|
      invariant start <= current <= |data|
      invariant Register(crc, data[current..]) == Register(register, data[start..])
    {
      RegisterAt(crc, data, current);
      ByteStep(Mix(crc, data[current]));
      HighOfMix(crc, data[current]);
      crc := Xor(HighPart(crc), Lookup(table, 0, Mix(crc, data[current])));
      current := current + 1;
    }
  }

  method Bytes(table: array2<bv32>, data: seq<byte>, previousCrc32: bv32) returns (crc: bv32)
    requires IsLookup(table)
    ensures crc == Crc(data, previousCrc32)
  {
    crc := RemainingBytes(table, data, 0, Complement(previousCrc32));
    assert data[0..] == data;
    crc := Complement(crc);
  }

  method SlicingBy4(table: array2<bv32>, data: seq<byte>, previousCrc32: bv32) returns (crc: bv32)
    requires IsLookup(table)
    ensures crc == Crc(data, previousCrc32)
  {
    crc := Complement(previousCrc32);
    var current, length: nat := 0, |data|;
    while length >= 4
      invariant current + length == |data|
      invariant Register(crc, data[current..]) == Register(Complement(previousCrc32), data)
    {
      RegisterWord(crc, data, current);
      var one := Xor(crc, Word(data, current));
      WordLookupAdvances(table, 0, one);
      crc := WordLookup(table, 0, one);
      current := current + 4;
      length := length - 4;
    }
    crc := RemainingBytes(table, data, current, crc);
    crc := Complement(crc);
  }

  /** The loop body of slicing by 8: eight lookups for two words. */
  function TwoWordLookup(table: array2<bv32>, one: bv32, two: bv32): bv32
    requires table.Length0 == MAX_SLICE && table.Length1 == 256
    reads table
  {
    Xor(WordLookup(table, 0, two), WordLookup(table, 4, one))
  }

  lemma TwoWordLookupAdvances(table: array2<bv32>, one: bv32, two: bv32)
    requires IsLookup(table)
    ensures TwoWordLookup(table, one, two) == Advance(Xor(Advance(one, 32), two), 32)
  {
    WordLookupAdvances(table, 0, two);
    WordLookupAdvances(table, 4, one);
    AdvanceLinear(Advance(one, 32), two, 32);
    AdvanceCompose(one, 32, 32);
    XorCommutes(Advance(two, 32), Advance(one, 64));
  }

  /** The loop body of slicing by 8 at a position of the buffer. */
  method EightBytes(table: array2<bv32>, data: seq<byte>, current: nat, register: bv32) returns (crc: bv32)
    requires IsLookup(table) && current + 8 <= |data|
    ensures Register(crc, data[current + 8..]) == Register(register, data[current..])
  {
    RegisterWord(register, data, current);
    var one := Xor(register, Word(data, current));
    var two := Word(data, current + 4);
    RegisterWord(Advance(one, 32), data, current + 4);
    TwoWordLookupAdvances(table, one, two);
    crc := TwoWordLookup(table, one, two);
  }

  method SlicingBy8(table: array2<bv32>, data: seq<byte>, previousCrc32: bv32) returns (crc: bv32)
    requires IsLookup(table)
    ensures crc == Crc(data, previousCrc32)
  {
    crc := Complement(previousCrc32);
    var current, length: nat := 0, |data|;
    while length >= 8
      invariant current + length == |data|
      invariant Register(crc, data[current..]) == Register(Complement(previousCrc32), data)
    {
      crc := EightBytes(table, data, current, crc);
      current := current + 8;
      length := length - 8;
    }
    crc := RemainingBytes(table, data, current, crc);
    crc := Complement(crc);
  }

  method SlicingBy4x8(table: array2<bv32>, data: seq<byte>, previousCrc32: bv32) returns (crc: bv32)
    requires IsLookup(table)
    ensures crc == Crc(data, previousCrc32)
  {
    crc := Complement(previousCrc32);
    var current, length: nat := 0, |data|;
    while length >= 32
      invariant current + length == |data|
      invariant Register(crc, data[current..]) == Register(Complement(previousCrc32), data)
    {
      for unrolling := 0 to 4
        invariant current + 32 - 8 * unrolling + (length - 32) == |data|
        invariant Register(crc, data[current..]) == Register(Complement(previousCrc32), data)
      {
        crc := EightBytes(table, data, current, crc);
        current := current + 8;
      }
      length := length - 32;
    }
    crc := RemainingBytes(table, data, current, crc);
    crc := Complement(crc);
  }

  /** The loop body of slicing by 16: sixteen lookups for four words. */
  function FourWordLookup(table: array2<bv32>, one: bv32, two: bv32, three: bv32, four: bv32): bv32
    requires table.Length0 == MAX_SLICE && table.Length1 == 256
    reads table
  {
    Xor(Xor(WordLookup(table, 0, four), WordLookup(table, 4, three)),
        Xor(WordLookup(table, 8, two), WordLookup(table, 12, one)))
  }

  lemma FourWordLookupAdvances(table: array2<bv32>, one: bv32, two: bv32, three: bv32, four: bv32)
    requires IsLookup(table)
    ensures FourWordLookup(table, one, two, three, four) ==
            Advance(Xor(Advance(Xor(Advance(Xor(Advance(one, 32), two), 32), three), 32), four), 32)
  {
    WordLookupAdvances(table, 0, four);
    WordLookupAdvances(table, 4, three);
    WordLookupAdvances(table, 8, two);
    WordLookupAdvances(table, 12, one);
    hide WordLookup, IsLookup, Xor, Advance;
    TwoWordsSum(one, two, 64);
    LastTwoWords(Advance(Xor(Advance(one, 32), two), 32), three, four);
  }

  lemma LastTwoWords(first: bv32, three: bv32, four: bv32)
    ensures Xor(Xor(Advance(four, 32), Advance(three, 64)), Advance(first, 64)) ==
            Advance(Xor(Advance(Xor(first, three), 32), four), 32)
  {
    AdvanceNone(Advance(Xor(Advance(Xor(first, three), 32), four), 32));
    hide Xor, Advance;
    TwoWordsSum(Xor(first, three), four, 0);
    AdvanceLinear(first, three, 64);
    XorCommutes(Advance(first, 64), Advance(three, 64));
    XorAssociates(Advance(four, 32), Advance(three, 64), Advance(first, 64));
  }

  lemma AdvanceNone(crc: bv32)
    ensures Advance(crc, 0) == crc
  {
  }

  lemma TwoWordsSum(a: bv32, b: bv32, n: nat)
    ensures Advance(Advance(Xor(Advance(a, 32), b), 32), n) == Xor(Advance(b, 32 + n), Advance(a, 64 + n))
  {
    hide Xor, Advance;
    AdvanceCompose(Xor(Advance(a, 32), b), 32, n);
    AdvanceLinear(Advance(a, 32), b, 32 + n);
    AdvanceCompose(a, 32, 32 + n);
    XorCommutes(Advance(a, 64 + n), Advance(b, 32 + n));
  }

  /** The loop body of slicing by 16 at a position of the buffer. */
  method SixteenBytes(table: array2<bv32>, data: seq<byte>, current: nat, register: bv32) returns (crc: bv32)
    requires IsLookup(table) && current + 16 <= |data|
    ensures Register(crc, data[current + 16..]) == Register(register, data[current..])
  {
    var one := Xor(register, Word(data, current));
    var two := Word(data, current + 4);
    var three := Word(data, current + 8);
    var four := Word(data, current + 12);
    RegisterWord(register, data, current);
    ghost var r1 := Advance(one, 32);
    RegisterWord(r1, data, current + 4);
    ghost var r2 := Advance(Xor(r1, two), 32);
    RegisterWord(r2, data, current + 8);
    ghost var r3 := Advance(Xor(r2, three), 32);
    RegisterWord(r3, data, current + 12);
    FourWordLookupAdvances(table, one, two, three, four);
    crc := FourWordLookup(table, one, two, three, four);
  }

  method SlicingBy16(table: array2<bv32>, data: seq<byte>, previousCrc32: bv32) returns (crc: bv32)
    requires IsLookup(table)
    ensures crc == Crc(data, previousCrc32)
  {
    crc := Complement(previousCrc32);
    var current, length: nat := 0, |data|;
    while length >= 64
      invariant current + length == |data|
      invariant Register(crc, data[current..]) == Register(Complement(previousCrc32), data)
    {
      for unrolling := 0 to 4
        invariant current + 64 - 16 * unrolling + (length - 64) == |data|
        invariant Register(crc, data[current..]) == Register(Complement(previousCrc32), data)
      {
        crc := SixteenBytes(table, data, current, crc);
        current := current + 16;
      }
      length := length - 64;
    }
    crc := RemainingBytes(table, data, current, crc);
    crc := Complement(crc);
  }

  const SIZE_LIMIT: nat := 0x1_0000_0000_0000_0000

  /** BytesAtOnce + prefetchAhead, in 64-bit size_t. */
  function PrefetchBound(prefetchAhead: nat): nat {
    (64 + prefetchAhead) % SIZE_LIMIT
  }

  /** The look-ahead distances for which the loop guard keeps every block inside the buffer. */
  predicate StaysInBuffer(length: nat, prefetchAhead: nat) {
    64 + prefetchAhead < SIZE_LIMIT || length % 64 < 64 + prefetchAhead - SIZE_LIMIT
  }

  /** One block does not change that ... */
  lemma BlockKeepsGuard(length: nat, prefetchAhead: nat)
    requires length >= 64
    ensures StaysInBuffer(length - 64, prefetchAhead) == StaysInBuffer(length, prefetchAhead)
  {
  }

  /** ... and with less than a block left it says whether the guard ends the loop. */
  lemma GuardAtEnd(length: nat, prefetchAhead: nat)
    requires prefetchAhead < SIZE_LIMIT
    ensures length < 64 ==> (StaysInBuffer(length, prefetchAhead) <==> length < PrefetchBound(prefetchAhead))
    ensures length < PrefetchBound(prefetchAhead) ==> StaysInBuffer(length, prefetchAhead)
  {
  }

  /** The prefetching variant. `None` stands for a block that is not inside the buffer: when the sum in
      the guard wraps around, the guard no longer implies that 64 bytes are left. */
  method SlicingBy16Prefetch(table: array2<bv32>, data: seq<byte>, previousCrc32: bv32, prefetchAhead: nat)
    returns (result: Option<bv32>)
    requires IsLookup(table)
    requires |data| < SIZE_LIMIT && prefetchAhead < SIZE_LIMIT
    ensures result.Some? <==> StaysInBuffer(|data|, prefetchAhead)
    ensures result.Some? ==> result.value == Crc(data, previousCrc32)
  {
    hide StaysInBuffer, PrefetchBound, IsLookup, Register, Complement;
    var crc := Complement(previousCrc32);
    var current, length: nat := 0, |data|;
    while length >= PrefetchBound(prefetchAhead)
      invariant current + length == |data|
      invariant StaysInBuffer(length, prefetchAhead) == StaysInBuffer(|data|, prefetchAhead)
      invariant Register(crc, data[current..]) == Register(Complement(previousCrc32), data)
    {
      GuardAtEnd(length, prefetchAhead);
      if length < 64 {
        return None;
      }
      for unrolling := 0 to 4
        invariant current + 64 - 16 * unrolling + (length - 64) == |data|
        invariant Register(crc, data[current..]) == Register(Complement(previousCrc32), data)
      {
        crc := SixteenBytes(table, data, current, crc);
        current := current + 16;
      }
      BlockKeepsGuard(length, prefetchAhead);
      length := length - 64;
    }
    GuardAtEnd(length, prefetchAhead);
    crc := RemainingBytes(table, data, current, crc);
    return Some(Complement(crc));
  }

  /** The dispatcher, with every lookup table compiled in as crc32.h does. */
  method Fast(table: array2<bv32>, data: seq<byte>, previousCrc32: bv32) returns (crc: bv32)
    requires IsLookup(table)
    ensures crc == Crc(data, previousCrc32)
  {
    crc := SlicingBy16(table, data, previousCrc32);
  }
}
