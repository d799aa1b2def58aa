/** crc32_combine of common/crc32.cpp: merging two checksums by repeated squaring of the operator
    that appends zero bits, held as 32 columns in two arrays that swap roles. */
module Crc32Combine {
  import opened Crc32Register

  // ----- Operators as columns

  /** x moved up j places. */
  function Up(x: bv32, j: nat): bv32
    decreases j, x
  {
    if j == 0 then x else Up(Double(x), j - 1)
  }

  function Column(columns: seq<bv32>, vec: bv32, j: nat): bv32
    requires j < |columns|
  {
    if Odd(vec) == 1 then columns[j] else 0
  }

  /** The operator with these columns, applied to the bits of vec from column j on. */
  function Times(columns: seq<bv32>, vec: bv32, j: nat): bv32
    requires |columns| == 32 && j <= 32
    decreases 32 - j
  {
    if vec == 0 || j == 32 then 0
    else Xor(Column(columns, vec, j), Times(columns, Half(vec), j + 1))
  }

  /** The columns of the operator that appends n zero bits. */
  ghost predicate Zeros(columns: seq<bv32>, n: nat) {
    |columns| == 32 && forall j: nat :: j < 32 ==> columns[j] == Advance(Up(1, j), n)
  }

  lemma {:induction false} UpXor(a: bv32, b: bv32, j: nat)
    ensures Up(Xor(a, b), j) == Xor(Up(a, j), Up(b, j))
    decreases j
  {
    if j == 0 {
    } else {
      DoubleXor(a, b);
      UpXor(Double(a), Double(b), j - 1);
    }
  }

  lemma {:induction false} UpZero(j: nat)
    ensures Up(0, j) == 0
    decreases j
  {
    if j == 0 {
    } else {
      UpZero(j - 1);
    }
  }

  lemma {:induction false} AdvanceZero(n: nat)
    ensures Advance(0, n) == 0
    decreases n
  {
    if n == 0 {
    } else {
      AdvanceZero(n - 1);
    }
  }

  lemma ColumnAdvances(columns: seq<bv32>, vec: bv32, j: nat, n: nat)
    requires Zeros(columns, n) && j < 32
    ensures Column(columns, vec, j) == Advance(Up(Odd(vec), j), n)
  {
    SplitLowBit(vec);
    UpZero(j);
    AdvanceZero(n);
  }

  lemma AdvanceSplit(vec: bv32, j: nat, n: nat)
    ensures Advance(Up(vec, j), n) == Xor(Advance(Up(Odd(vec), j), n), Advance(Up(Half(vec), j + 1), n))
  {
    SplitLowBit(vec);
    UpXor(Odd(vec), Double(Half(vec)), j);
    AdvanceLinear(Up(Odd(vec), j), Up(Double(Half(vec)), j), n);
  }

  /** An operator given by its columns acts on every vector as appending n zero bits. */
  lemma {:induction false} TimesAdvances(columns: seq<bv32>, vec: bv32, j: nat, n: nat)
    requires Zeros(columns, n) && j <= 32 && Fits(vec, 32 - j)
    ensures Times(columns, vec, j) == Advance(Up(vec, j), n)
    decreases 32 - j
  {
    if vec == 0 {
      UpZero(j);
      AdvanceZero(n);
    } else {
      TimesAdvances(columns, Half(vec), j + 1, n);
      ColumnAdvances(columns, vec, j, n);
      AdvanceSplit(vec, j, n);
    }
  }

  // ----- The inner loops

  method MatrixTimes(mat: array<bv32>, vector: bv32) returns (sum: bv32)
    requires mat.Length == 32
    ensures sum == Times(mat[..], vector, 0)
  {
    var vec, j := vector, 0;
    sum := 0;
    NarrowFits(vec, 32);
    XorZero(Times(mat[..], vector, 0));
    XorCommutes(0, Times(mat[..], vector, 0));
    while vec != 0
      invariant j <= 32 && Fits(vec, 32 - j)
      invariant Xor(sum, Times(mat[..], vec, j)) == Times(mat[..], vector, 0)
      decreases 32 - j
    {
      XorAssociates(sum, Column(mat[..], vec, j), Times(mat[..], Half(vec), j + 1));
      if Odd(vec) == 1 {
        sum := Xor(sum, mat[j]);
      }
      j := j + 1;
      vec := Half(vec);
    }
    XorZero(sum);
  }

  method MatrixSquare(square: array<bv32>, mat: array<bv32>, ghost n: nat)
    requires square.Length == mat.Length == 32 && square != mat
    requires Zeros(mat[..], n)
    modifies square
    ensures Zeros(square[..], 2 * n)
  {
    for i := 0 to 32
      invariant mat[..] == old(mat[..])
      invariant forall j: nat :: j < i ==> square[j] == Advance(Up(1, j), 2 * n)
    {
      NarrowFits(mat[i], 32);
      TimesAdvances(mat[..], mat[i], 0, n);
      AdvanceCompose(Up(1, i), n, n);
      var column := MatrixTimes(mat, mat[i]);
      square[i] := column;
    }
  }

  /** `1 << i` in 32 bits. */
  function Bit(i: nat): bv32
    requires i < 32
  {
    (1 as bv32) << i
  }

  lemma {:induction false} UpOuter(x: bv32, j: nat)
    requires j > 0
    ensures Up(x, j) == Double(Up(x, j - 1))
    decreases j
  {
    if j == 1 {
    } else {
      UpOuter(Double(x), j - 1);
    }
  }

  lemma BitStep(i: nat)
    requires 0 < i < 32
    ensures Bit(i) == Double(Bit(i - 1))
    ensures Step(Bit(i)) == Bit(i - 1)
  {
    BitDoubles(i);
    StepEven(Bit(i - 1));
  }

  lemma BitDoubles(i: nat)
    requires 0 < i < 32
    ensures Bit(i) == Double(Bit(i - 1)) && Bit(i - 1) <= 0x7FFF_FFFF
  {
    if i < 16 {
      LowBitDoubles(i);
    } else {
      HighBitDoubles(i);
    }
  }

  lemma LowBitDoubles(i: nat)
    requires 0 < i < 16
    ensures Bit(i) == Double(Bit(i - 1)) && Bit(i - 1) <= 0x7FFF_FFFF
  {
    assert i == 1 || i == 2 || i == 3 || i == 4 || i == 5 || i == 6 || i == 7 || i == 8 || i == 9 || i == 10 ||
           i == 11 || i == 12 || i == 13 || i == 14 || i == 15;
  }

  lemma HighBitDoubles(i: nat)
    requires 16 <= i < 32
    ensures Bit(i) == Double(Bit(i - 1)) && Bit(i - 1) <= 0x7FFF_FFFF
  {
    assert i == 16 || i == 17 || i == 18 || i == 19 || i == 20 || i == 21 || i == 22 || i == 23 || i == 24 || i == 25 ||
           i == 26 || i == 27 || i == 28 || i == 29 || i == 30 || i == 31;
  }

  lemma {:induction false} BitIsUp(i: nat)
    requires i < 32
    ensures Bit(i) == Up(1, i)
    decreases i
  {
    if i == 0 {
    } else {
      BitIsUp(i - 1);
      BitStep(i);
      UpOuter(1, i);
    }
  }

  lemma OneZeroBit(i: nat)
    requires i < 32
    ensures (if i == 0 then POLYNOMIAL else Bit(i - 1)) == Advance(Up(1, i), 1)
  {
    AdvanceOne(Up(1, i));
    BitIsUp(i);
    if i > 0 {
      BitStep(i);
    }
  }

  lemma AdvanceOne(x: bv32)
    ensures Advance(x, 1) == Step(x)
  {
    assert Advance(x, 1) == Advance(Step(x), 0);
  }

  // ----- Combining

  function Power2(k: nat): nat {
    if k == 0 then 1 else 2 * Power2(k - 1)
  }

  /** What crc32_combine computes from the two checksums. */
  function Combined(crcA: bv32, crcB: bv32, lengthB: nat): bv32 {
    if lengthB == 0 then crcA else Xor(Advance(crcA, 8 * lengthB), crcB)
  }

  lemma HalveLength(n: nat, k: nat)
    ensures 8 * Power2(k) * n == 8 * Power2(k + 1) * (n / 2) + (if n % 2 == 1 then 8 * Power2(k) else 0)
  {
    var p := Power2(k);
    assert n == 2 * (n / 2) + n % 2;
    calc {
      8 * p * n;
      8 * p * (2 * (n / 2) + n % 2);
      8 * (2 * p) * (n / 2) + 8 * p * (n % 2);
    }
  }

  /** The operator for four zero bits, by two squarings of the one for a single zero bit. */
  method FourZeroBits() returns (odd: array<bv32>, even: array<bv32>)
    ensures fresh(odd) && fresh(even) && odd != even && odd.Length == even.Length == 32
    ensures Zeros(odd[..], 4)
  {
    odd, even := new bv32[32], new bv32[32];
    odd[0] := POLYNOMIAL;
    for i := 1 to 32
      invariant odd[0] == POLYNOMIAL
      invariant forall j: nat :: 0 < j < i ==> odd[j] == Bit(j - 1)
    {
      odd[i] := (1 as bv32) << (i - 1);
    }
    forall j: nat | j < 32
      ensures odd[j] == Advance(Up(1, j), 1)
    {
      OneZeroBit(j);
    }
    MatrixSquare(even, odd, 1);
    MatrixSquare(odd, even, 2);
  }

  lemma PowerDoubles(k: nat)
    ensures Power2(k + 1) == 2 * Power2(k)
  {
  }

  /** The bits of the length still to come advance the register by what the length did. */
  lemma TurnAdvances(crc: bv32, length: nat, k: nat)
    requires length > 0
    ensures Advance(crc, 8 * Power2(k) * length) ==
            Advance(if length % 2 == 1 then Advance(crc, 8 * Power2(k)) else crc, 8 * Power2(k + 1) * (length / 2))
  {
    HalveLength(length, k);
    hide Advance;
    if length % 2 == 1 {
      AdvanceCompose(crc, 8 * Power2(k), 8 * Power2(k + 1) * (length / 2));
    }
  }

  method Combine(crcA: bv32, crcB: bv32, lengthB: nat) returns (combined: bv32)
    ensures combined == Combined(crcA, crcB, lengthB)
  {
    if lengthB == 0 {
      return crcA;
    }
    var odd, even := FourZeroBits();
    var a, b := even, odd;
    var crc, length := crcA, lengthB;
    ghost var k := 0;
    while length > 0
      invariant a != b && fresh(a) && fresh(b) && a.Length == b.Length == 32
      invariant Zeros(b[..], 4 * Power2(k))
      invariant Advance(crc, 8 * Power2(k) * length) == Advance(crcA, 8 * lengthB)
    {
      hide Advance, Xor, Zeros, Power2;
      TurnAdvances(crc, length, k);
      MatrixSquare(a, b, 4 * Power2(k));
      PowerDoubles(k);
      if length % 2 == 1 {
        NarrowFits(crc, 32);
        TimesAdvances(a[..], crc, 0, 8 * Power2(k));
        crc := MatrixTimes(a, crc);
      }
      a, b := b, a;
      length := length / 2;
      k := k + 1;
    }
    combined := Xor(crc, crcB);
  }

  // ----- What the combined checksum means

  lemma MixXor(a: bv32, c: bv32, b: byte)
    ensures Mix(Xor(a, c), b) == Xor(a, Mix(c, b))
  {
  }

  /** The register is affine in its start value: an extra summand only sees zero bits. */
  lemma {:induction false} RegisterLinear(a: bv32, c: bv32, data: seq<byte>)
    ensures Register(Xor(a, c), data) == Xor(Advance(a, 8 * |data|), Register(c, data))
    decreases |data|
  {
    if data == [] {
    } else {
      MixXor(a, c, data[0]);
      AdvanceLinear(a, Mix(c, data[0]), 8);
      RegisterLinear(Advance(a, 8), Feed(c, data[0]), data[1..]);
      AdvanceCompose(a, 8, 8 * |data[1..]|);
    }
  }

  lemma ComplementFromZero(a: bv32)
    ensures Complement(a) == Xor(a, Complement(0))
  {
  }

  lemma ComplementXor(a: bv32, b: bv32)
    ensures Complement(Xor(a, b)) == Xor(a, Complement(b))
  {
    hide Xor, Complement;
    ComplementFromZero(Xor(a, b));
    ComplementFromZero(b);
    XorAssociates(a, b, Complement(0));
  }

  /** Merging the checksums of two buffers gives the checksum of the second continued from the first. */
  lemma CombineContinues(crcA: bv32, dataB: seq<byte>)
    ensures Combined(crcA, Crc(dataB, 0), |dataB|) == Crc(dataB, crcA)
  {
    if dataB == [] {
      ComplementTwice(crcA);
    } else {
      ComplementFromZero(crcA);
      RegisterLinear(crcA, Complement(0), dataB);
      ComplementXor(Advance(crcA, 8 * |dataB|), Register(Complement(0), dataB));
    }
  }

  /** For all byte strings A and B: crc32_combine(crc(A), crc(B), |B|) == crc(A ++ B). */
  lemma CombineIsConcat(dataA: seq<byte>, dataB: seq<byte>, previous: bv32)
    ensures Combined(Crc(dataA, previous), Crc(dataB, 0), |dataB|) == Crc(dataA + dataB, previous)
  {
    CombineContinues(Crc(dataA, previous), dataB);
    CrcConcat(dataA, dataB, previous);
  }
}
