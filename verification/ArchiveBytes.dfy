/** The wire formats at the bottom of common/farchive.cpp: big-endian words, variable-length counts
    (unsigned LEB128) and length-prefixed strings, each with the decoder that undoes it. */
module ArchiveBytes {
  import opened Wrappers

  type byte = b: int | 0 <= b < 256

  const DWORD_LIMIT: nat := 0x1_0000_0000

  /** What stops a load: the I_Error calls, and shifts or reads the language leaves undefined. A decoder
      that runs out of input only says how many bytes it asked for and how many were left: which of
      PastEnd and OutsideBuffer that comes to depends on where in the file it was. */
  datatype LoadError =
    | Short(need: nat, left: nat)
    | PastEnd
    | OutsideBuffer
    | ShiftTooFar
    | BadObjectIndex(index: nat, count: nat)
    | BadClassIndex(index: nat, count: nat)
    | TooManyClasses
    | UnknownClass(name: seq<byte>)
    | WrongClass(found: nat, wanted: Option<nat>)
    | UnknownObjectCode(code: byte)

  /** The guard of FLZOFile::Read adds in 32 bits: a sum that wraps around passes it, and the copy then
      leaves the buffer. */
  predicate Refused(size: nat, pos: int, len: nat) {
    (pos + len) % DWORD_LIMIT > size
  }

  /** What an error comes to in a file of the given size. */
  function Actual(size: nat, e: LoadError): LoadError {
    match e
    case Short(need, left) => if Refused(size, size - left, need) then PastEnd else OutsideBuffer
    case _ => e
  }

  /** A decoded value and the bytes that follow it. */
  datatype Decoded<+T> = Decoded(value: T, rest: seq<byte>)

  // ----- Bytes and 32-bit words

  function DecodeByte(s: seq<byte>): Result<Decoded<byte>, LoadError> {
    if s == [] then Failure(Short(1, 0)) else Success(Decoded(s[0], s[1..]))
  }

  function EncodeDword(w: nat): (s: seq<byte>)
    requires w < DWORD_LIMIT
    ensures |s| == 4
  {
    [w / 0x100_0000, w / 0x1_0000 % 0x100, w / 0x100 % 0x100, w % 0x100]
  }

  function DecodeDword(s: seq<byte>): (r: Result<Decoded<nat>, LoadError>)
    ensures r.Success? ==> r.value.value < DWORD_LIMIT && |r.value.rest| < |s|
  {
    if |s| < 4 then Failure(Short(4, |s|))
    else
      var b0: nat, b1: nat, b2: nat, b3: nat := s[0], s[1], s[2], s[3];
      Success(Decoded(b0 * 0x100_0000 + b1 * 0x1_0000 + b2 * 0x100 + b3, s[4..]))
  }

  lemma DwordRoundTrip(w: nat, rest: seq<byte>)
    requires w < DWORD_LIMIT
    ensures DecodeDword(EncodeDword(w) + rest) == Success(Decoded(w, rest))
  {
    var s := EncodeDword(w) + rest;
    assert s[4..] == rest;
    DwordDigits(w);
  }

  lemma DwordDigits(w: nat)
    requires w < DWORD_LIMIT
    ensures w == w / 0x100_0000 * 0x100_0000 + w / 0x1_0000 % 0x100 * 0x1_0000 + w / 0x100 % 0x100 * 0x100 + w % 0x100
  {
    assert w / 0x1_0000 == w / 0x100 / 0x100 && w / 0x100_0000 == w / 0x100 / 0x100 / 0x100;
  }

  // ----- Counts

  /** The bytes of WriteCount: seven bits at a time, low ones first, the top bit set on all but the last. */
  function EncodeCount(count: nat): (s: seq<byte>)
    ensures |s| > 0
  {
    if count < 0x80 then [count] else [count % 0x80 + 0x80] + EncodeCount(count / 0x80)
  }

  /** The loop of ReadCount, with unit == 1 << ofs. Each turn sets bits that no other turn can set, so the
      `|=` of the source is a sum; a shift by 32 or more is undefined there. */
  function DecodeCountFrom(s: seq<byte>, unit: nat): Result<Decoded<nat>, LoadError>
    decreases |s|
  {
    if s == [] then Failure(Short(1, 0))
    else if unit >= DWORD_LIMIT then Failure(ShiftTooFar)
    else
      var bits := (s[0] % 0x80) * unit % DWORD_LIMIT;
      if s[0] < 0x80 then Success(Decoded(bits, s[1..]))
      else
        match DecodeCountFrom(s[1..], unit * 0x80)
        case Failure(e) => Failure(e)
        case Success(more) => Success(Decoded(bits + more.value, more.rest))
  }

  function DecodeCount(s: seq<byte>): Result<Decoded<nat>, LoadError> {
    DecodeCountFrom(s, 1)
  }

  /** The last byte of a count, and a byte in front of others. */
  lemma DecodeLast(b: nat, unit: nat, rest: seq<byte>)
    requires b < 0x80 && unit < DWORD_LIMIT
    ensures DecodeCountFrom([b] + rest, unit) == Success(Decoded(b * unit % DWORD_LIMIT, rest))
  {
    assert ([b] + rest)[1..] == rest;
  }

  lemma DecodeMore(b: nat, unit: nat, s: seq<byte>)
    requires b < 0x80 && unit < DWORD_LIMIT
    ensures DecodeCountFrom([b + 0x80] + s, unit) ==
            match DecodeCountFrom(s, unit * 0x80)
            case Failure(e) => Failure(e)
            case Success(more) => Success(Decoded(b * unit % DWORD_LIMIT + more.value, more.rest))
  {
    assert ([b + 0x80] + s)[1..] == s;
    LowBits(b);
  }

  lemma LowBits(b: nat)
    requires b < 0x80
    ensures (b + 0x80) % 0x80 == b
  {
  }

  lemma EncodeMore(count: nat, rest: seq<byte>)
    requires count >= 0x80
    ensures EncodeCount(count) + rest == [count % 0x80 + 0x80] + (EncodeCount(count / 0x80) + rest)
  {
    ConcatAssociates([count % 0x80 + 0x80], EncodeCount(count / 0x80), rest);
  }

  lemma {:induction false} CountRoundTripFrom(count: nat, unit: nat, rest: seq<byte>)
    requires unit > 0 && count * unit < DWORD_LIMIT
    requires unit < DWORD_LIMIT
    ensures DecodeCountFrom(EncodeCount(count) + rest, unit) == Success(Decoded(count * unit, rest))
    decreases count
  {
    hide DecodeCountFrom;
    if count < 0x80 {
      DecodeLast(count, unit, rest);
    } else {
      hide EncodeCount;
      var high, low := count / 0x80, count % 0x80;
      EncodeMore(count, rest);
      SplitCount(count, high, low, unit);
      CountRoundTripFrom(high, unit * 0x80, rest);
      DecodeMore(low, unit, EncodeCount(high) + rest);
    }
  }

  lemma SplitCount(count: nat, high: nat, low: nat, unit: nat)
    requires count == high * 0x80 + low && low < 0x80 && high > 0 && unit > 0 && count * unit < DWORD_LIMIT
    ensures high * (unit * 0x80) + low * unit == count * unit
    ensures high * (unit * 0x80) < DWORD_LIMIT && low * unit % DWORD_LIMIT == low * unit && unit * 0x80 < DWORD_LIMIT
  {
    calc {
      count * unit;
      (high * 0x80 + low) * unit;
      high * 0x80 * unit + low * unit;
      high * (unit * 0x80) + low * unit;
    }
    assert low * unit >= 0;
    assert high * (unit * 0x80) >= 1 * (unit * 0x80);
  }

  /** Every 32-bit count is read back as written, whatever follows. */
  lemma CountRoundTrip(count: nat, rest: seq<byte>)
    requires count < DWORD_LIMIT
    ensures DecodeCount(EncodeCount(count) + rest) == Success(Decoded(count, rest))
  {
    CountRoundTripFrom(count, 1, rest);
  }

  /** The units of the turns of ReadCount that shift by less than 32. */
  predicate IsUnit(unit: nat) {
    unit == 1 || unit == 0x80 || unit == 0x4000 || unit == 0x20_0000 || unit == 0x1000_0000
  }

  /** What a turn adds, and what can follow it. */
  lemma TurnFits(b: nat, unit: nat)
    requires b < 0x80 && IsUnit(unit)
    ensures b * unit % DWORD_LIMIT + unit <= DWORD_LIMIT
    ensures if unit == 0x1000_0000 then unit * 0x80 >= DWORD_LIMIT
            else IsUnit(unit * 0x80) && b * unit % DWORD_LIMIT + unit <= unit * 0x80
  {
    if unit == 0x1000_0000 {
      assert b * unit == b / 16 * DWORD_LIMIT + b % 16 * 0x1000_0000;
    } else {
      assert b * unit <= 0x7F * unit;
    }
  }

  lemma {:induction false} CountFitsFrom(s: seq<byte>, unit: nat)
    requires IsUnit(unit)
    ensures var r := DecodeCountFrom(s, unit); r.Success? ==> r.value.value + unit <= DWORD_LIMIT
    decreases |s|
  {
    if s == [] {
    } else {
      TurnFits(s[0] % 0x80, unit);
      hide IsUnit;
      if unit != 0x1000_0000 {
        CountFitsFrom(s[1..], unit * 0x80);
      }
    }
  }

  /** ReadCount yields a 32-bit number. */
  lemma CountFits(s: seq<byte>)
    ensures DecodeCount(s).Success? ==> DecodeCount(s).value.value < DWORD_LIMIT
  {
    CountFitsFrom(s, 1);
  }

  // ----- Strings

  predicate NulFree(s: seq<byte>) {
    forall i :: 0 <= i < |s| ==> s[i] != 0
  }

  /** strlen of a C string: everything before the first NUL. */
  function CString(s: seq<byte>): (t: seq<byte>)
    ensures t <= s && NulFree(t)
    ensures NulFree(s) <==> t == s
    decreases |s|
  {
    if s == [] || s[0] == 0 then [] else
      var t := [s[0]] + CString(s[1..]);
      assert s == [s[0]] + s[1..];
      t
  }

  /** A null pointer, or a C string with its length plus one in front. */
  function EncodeString(str: Option<seq<byte>>): (s: seq<byte>)
    requires str.Some? ==> |str.value| + 1 < DWORD_LIMIT
  {
    match str
    case None => EncodeCount(0)
    case Some(text) => EncodeCount(|CString(text)| + 1) + CString(text)
  }

  /** The reader builds a C string from the bytes it read, so an embedded NUL ends it. */
  function DecodeString(s: seq<byte>): Result<Decoded<seq<byte>>, LoadError> {
    match DecodeCount(s)
    case Failure(e) => Failure(e)
    case Success(size) =>
      if size.value == 0 then Success(Decoded([], size.rest))
      else if |size.rest| < size.value - 1 then Failure(Short(size.value - 1, |size.rest|))
      else Success(Decoded(CString(size.rest[..size.value - 1]), size.rest[size.value - 1..]))
  }

  lemma TextRoundTrip(body: seq<byte>, rest: seq<byte>)
    requires |body| + 1 < DWORD_LIMIT && NulFree(body)
    ensures DecodeString(EncodeCount(|body| + 1) + (body + rest)) == Success(Decoded(body, rest))
  {
    CountRoundTrip(|body| + 1, body + rest);
    assert (body + rest)[..|body|] == body;
    assert (body + rest)[|body|..] == rest;
  }

  /** A string comes back as its C string; so it comes back unchanged exactly when it has no NUL. */
  lemma StringRoundTrip(text: seq<byte>, rest: seq<byte>)
    requires |text| + 1 < DWORD_LIMIT
    ensures DecodeString(EncodeString(Some(text)) + rest) == Success(Decoded(CString(text), rest))
    ensures CString(text) == text <==> NulFree(text)
  {
    hide DecodeString, EncodeCount, CString, NulFree;
    var body := CString(text);
    ConcatAssociates(EncodeCount(|body| + 1), body, rest);
    TextRoundTrip(body, rest);
  }

  lemma ConcatAssociates(a: seq<byte>, b: seq<byte>, c: seq<byte>)
    ensures (a + b) + c == a + (b + c)
  {
  }

  /** A load of a string in a file of the given size, of which s is left, leaves the buffer. */
  predicate StringOverrun(size: nat, s: seq<byte>) {
    var r := DecodeString(s);
    r.Failure? && Actual(size, r.error) == OutsideBuffer
  }

  /** That happens exactly when the length, counted from the end of the count, reaches past 2^32 (or, at the
      very end of a file of 2^32 - 1 bytes, when a byte of the count itself is asked for there). */
  lemma StringOverrunIff(size: nat, s: seq<byte>)
    requires |s| <= size < DWORD_LIMIT
    ensures var count := DecodeCount(s);
            StringOverrun(size, s) <==>
            if count.Success? then count.value.value > 0 && size - |count.value.rest| + count.value.value - 1 >= DWORD_LIMIT
            else count.error.Short? && size == DWORD_LIMIT - 1
  {
    CountFits(s);
    CountRunsOut(s, 1);
  }

  /** A count asks for one byte at a time, and not for one behind its end. */
  lemma {:induction false} CountRunsOut(s: seq<byte>, unit: nat)
    ensures match DecodeCountFrom(s, unit)
            case Failure(e) => e == Short(1, 0) || e == ShiftTooFar
            case Success(d) => |d.rest| < |s|
    decreases |s|
  {
    if s == [] {
    } else {
      CountRunsOut(s[1..], unit * 0x80);
    }
  }

  /** The count FF FF FF FF 0F does it wherever it stands. */
  lemma LongestStringOverruns(size: nat, rest: seq<byte>)
    requires |rest| + 5 <= size < DWORD_LIMIT
    ensures DecodeCount([0xFF, 0xFF, 0xFF, 0xFF, 0x0F] + rest) == Success(Decoded(0xFFFF_FFFF, rest))
    ensures StringOverrun(size, [0xFF, 0xFF, 0xFF, 0xFF, 0x0F] + rest)
  {
    var count: seq<byte> := [0xFF, 0xFF, 0xFF, 0xFF, 0x0F];
    assert EncodeCount(0xF) == [0x0F];
    assert EncodeCount(0x7FF) == [0xFF] + EncodeCount(0xF);
    assert EncodeCount(0x3_FFFF) == [0xFF] + EncodeCount(0x7FF);
    assert EncodeCount(0x1FF_FFFF) == [0xFF] + EncodeCount(0x3_FFFF);
    assert EncodeCount(0xFFFF_FFFF) == [0xFF] + EncodeCount(0x1FF_FFFF);
    assert EncodeCount(0xFFFF_FFFF) == count;
    CountRoundTrip(0xFFFF_FFFF, rest);
    StringOverrunIff(size, count + rest);
  }

  /** A null pointer comes back as the empty string. */
  lemma NullStringRoundTrip(rest: seq<byte>)
    ensures DecodeString(EncodeString(None) + rest) == Success(Decoded([], rest))
  {
    CountRoundTrip(0, rest);
  }
}
