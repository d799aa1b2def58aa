/** FLZOFile and FLZOMemFile of common/farchive.cpp: a growing buffer that is compressed when it is
    closed and expanded when it is reopened. LZO itself is a parameter. */
module ArchiveMemFile {
  import opened Wrappers
  import opened ArchiveBytes

  /** The compressor, which may give up, and the decompressor, which is told the expected length. */
  datatype Lzo = Lzo(compress: seq<byte> -> Option<seq<byte>>, expand: (seq<byte>, nat) -> Option<seq<byte>>)

  ghost predicate Inverse(lzo: Lzo) {
    forall x: seq<byte> :: lzo.compress(x).Some? ==> lzo.expand(lzo.compress(x).value, |x|) == Some(x)
  }

  /** Sizes are 32-bit; doubling from 16384 can reach 2^31 but not pass it. */
  const MAX_BUFFER: nat := 0x8000_0000

  // ----- The stored form of a buffer

  /** What Implode keeps: the compressed bytes, unless compression is off, fails, or does not help. */
  function Payload(lzo: Lzo, noCompress: bool, input: seq<byte>): (r: (nat, seq<byte>))
    ensures |r.1| <= |input| && r.0 <= |input|
  {
    if noCompress then (0, input)
    else
      match lzo.compress(input)
      case None => (0, input)
      case Some(c) => if |c| > |input| || |c| == 0 then (0, input) else (|c|, c)
  }

  function Imploded(lzo: Lzo, noCompress: bool, input: seq<byte>): seq<byte>
    requires |input| < DWORD_LIMIT
  {
    var p := Payload(lzo, noCompress, input);
    EncodeDword(p.0) + EncodeDword(|input|) + p.1
  }

  /** What Explode makes of a stored block. */
  function Exploded(lzo: Lzo, block: seq<byte>): Option<seq<byte>>
    requires |block| >= 8
  {
    var packedLen := DecodeDword(block).value.value;
    var expandedLen := DecodeDword(block[4..]).value.value;
    if packedLen != 0 then
      if packedLen > |block| - 8 then None else
        match lzo.expand(block[8..8 + packedLen], expandedLen)
        case None => None
        case Some(x) => if |x| != expandedLen then None else Some(x)
    else if expandedLen > |block| - 8 then None
    else Some(block[8..8 + expandedLen])
  }

  /** The two words of a block's header, and the rest of it. */
  lemma BlockParts(packedLen: nat, expandedLen: nat, body: seq<byte>)
    requires packedLen < DWORD_LIMIT && expandedLen < DWORD_LIMIT
    ensures var block := EncodeDword(packedLen) + EncodeDword(expandedLen) + body;
            |block| == 8 + |body| && DecodeDword(block).Success? && DecodeDword(block).value.value == packedLen &&
            DecodeDword(block[4..]).Success? && DecodeDword(block[4..]).value.value == expandedLen &&
            block[8..] == body
  {
    var block := EncodeDword(packedLen) + EncodeDword(expandedLen) + body;
    assert block == EncodeDword(packedLen) + (EncodeDword(expandedLen) + body);
    DwordRoundTrip(packedLen, EncodeDword(expandedLen) + body);
    assert block[4..] == EncodeDword(expandedLen) + body;
    DwordRoundTrip(expandedLen, body);
  }

  /** Exploding an imploded buffer restores it, compressed or stored as it is. */
  lemma ExplodeImplode(lzo: Lzo, noCompress: bool, input: seq<byte>)
    requires Inverse(lzo) && |input| < DWORD_LIMIT
    ensures |Imploded(lzo, noCompress, input)| >= 8
    ensures Exploded(lzo, Imploded(lzo, noCompress, input)) == Some(input)
  {
    var p := Payload(lzo, noCompress, input);
    var block := Imploded(lzo, noCompress, input);
    BlockParts(p.0, |input|, p.1);
    hide EncodeDword, DecodeDword;
    assert block[8..8 + |p.1|] == block[8..] == p.1;
  }

  // ----- Capacities

  /** The powers of two from 16384 to 2^31. */
  predicate Capacity(n: nat): (r: bool)
    ensures r ==> n <= MAX_BUFFER
  {
    n == 0x4000 || n == 0x8000 || n == 0x1_0000 || n == 0x2_0000 || n == 0x4_0000 || n == 0x8_0000 ||
    n == 0x10_0000 || n == 0x20_0000 || n == 0x40_0000 || n == 0x80_0000 || n == 0x100_0000 || n == 0x200_0000 ||
    n == 0x400_0000 || n == 0x800_0000 || n == 0x1000_0000 || n == 0x2000_0000 || n == 0x4000_0000 ||
    n == 0x8000_0000
  }

  /** The next size the loop of FLZOFile::Write tries; doubling 2^31 gives 0 in 32 bits. */
  function NextSize(size: nat): nat {
    if size != 0 then size * 2 % DWORD_LIMIT else 16384
  }

  function SizeAfter(size: nat, turns: nat): nat
    decreases turns
  {
    if turns == 0 then size else SizeAfter(NextSize(size), turns - 1)
  }

  predicate Tried(size: nat) {
    size == 0 || Capacity(size)
  }

  lemma NextIsTried(size: nat)
    requires Tried(size)
    ensures Tried(NextSize(size))
    ensures size < MAX_BUFFER ==> size < NextSize(size)
  {
  }

  lemma {:induction false} NeverMore(size: nat, turns: nat)
    requires Tried(size)
    ensures SizeAfter(size, turns) <= MAX_BUFFER
    decreases turns
  {
    if turns == 0 {
    } else {
      NextIsTried(size);
      NeverMore(NextSize(size), turns - 1);
    }
  }

  lemma {:induction false} Reaches(size: nat, needed: nat) returns (turns: nat)
    requires Tried(size) && needed <= MAX_BUFFER
    ensures SizeAfter(size, turns) >= needed
    decreases MAX_BUFFER - size
  {
    turns := 0;
    if size >= needed {
    } else {
      NextIsTried(size);
      var more := Reaches(NextSize(size), needed);
      turns := more + 1;
    }
  }

  /** What happens to a write that would leave the file with the given length: up to 2^31 the loop finds a
      size; beyond, no turn of it ever does; and from 2^32 on the sum in the guard wraps around to no more
      than the position, so that the loop is not entered and the copy leaves the buffer. */
  lemma WriteEnds(pos: nat, len: nat, size: nat)
    requires Tried(size) && pos <= size && len < DWORD_LIMIT
    ensures pos + len < DWORD_LIMIT ==>
              ((exists turns: nat :: SizeAfter(size, turns) >= pos + len) <==> pos + len <= MAX_BUFFER)
    ensures !Refused(size, pos, len) <==> pos + len <= size || pos + len >= DWORD_LIMIT
  {
    if pos + len <= MAX_BUFFER {
      var turns := Reaches(size, pos + len);
    }
    forall turns: nat
      ensures SizeAfter(size, turns) <= MAX_BUFFER
    {
      NeverMore(size, turns);
    }
  }

  // ----- The file

  datatype OpenMode = Reading | Writing | NotOpen

  class MemFile {
    const lzo: Lzo
    const m_NoCompress: bool
    var m_Mode: OpenMode
    var m_Pos: nat
    var m_BufferSize: nat
    var m_Buffer: array?<byte>
    var m_ImplodedBuffer: array?<byte>

    ghost var Repr: set<object>

    ghost predicate Owned()
      reads this
    {
      this in Repr && (m_Buffer != null ==> m_Buffer in Repr) && (m_ImplodedBuffer != null ==> m_ImplodedBuffer in Repr)
    }

    /** Open for writing: the bytes before m_Pos are the file. */
    ghost predicate ValidWriting()
      reads this, Repr
    {
      Owned() && m_Mode == Writing && m_Buffer != null && m_Pos <= m_BufferSize <= m_Buffer.Length && Tried(m_BufferSize)
    }

    /** Open for reading: the whole buffer is the file. */
    ghost predicate ValidReading()
      reads this, Repr
    {
      Owned() && m_Mode == Reading && m_Buffer != null && m_Pos <= m_BufferSize == m_Buffer.Length < DWORD_LIMIT
    }

    ghost function Written(): seq<byte>
      requires ValidWriting()
      reads this, Repr
    {
      m_Buffer[..m_Pos]
    }

    ghost function Unread(): seq<byte>
      requires ValidReading()
      reads this, Repr
    {
      m_Buffer[m_Pos..]
    }

    /** FLZOMemFile::Open () on a new file. */
    constructor OpenForWriting(lzo: Lzo, noCompress: bool)
      ensures ValidWriting() && Written() == [] && fresh(Repr)
      ensures this.lzo == lzo && m_NoCompress == noCompress && m_ImplodedBuffer == null
    {
      this.lzo, m_NoCompress := lzo, noCompress;
      m_Mode, m_Pos, m_BufferSize := Writing, 0, 0;
      m_Buffer := new byte[16384];
      m_ImplodedBuffer := null;
      new;
      Repr := {this, m_Buffer};
    }

    /** The size doubles, from 16384, until the bytes fit. */
    method Grow(needed: nat)
      requires ValidWriting() && m_BufferSize < needed <= MAX_BUFFER
      modifies this
      ensures ValidWriting() && m_Pos == old(m_Pos) && Written() == old(Written())
      ensures needed <= m_BufferSize == m_Buffer.Length && fresh(m_Buffer) && m_ImplodedBuffer == old(m_ImplodedBuffer)
      ensures Repr == old(Repr) + {m_Buffer}
    {
      hide Capacity, NextSize;
      NextIsTried(m_BufferSize);
      m_BufferSize := NextSize(m_BufferSize);
      while needed > m_BufferSize
        invariant old(m_BufferSize) < m_BufferSize && Capacity(m_BufferSize)
        invariant m_Mode == Writing && m_Pos == old(m_Pos) && m_Buffer == old(m_Buffer)
        invariant m_ImplodedBuffer == old(m_ImplodedBuffer) && Repr == old(Repr)
        decreases MAX_BUFFER - m_BufferSize
      {
        NextIsTried(m_BufferSize);
        m_BufferSize := NextSize(m_BufferSize);
      }
      var grown := new byte[m_BufferSize];
      forall i | 0 <= i < m_Pos {
        grown[i] := m_Buffer[i];
      }
      assert grown[..m_Pos] == m_Buffer[..m_Pos];
      m_Buffer := grown;
      Repr := Repr + {grown};
    }

    method Write(mem: seq<byte>)
      requires ValidWriting() && m_Pos + |mem| <= MAX_BUFFER
      modifies Repr
      ensures ValidWriting() && Written() == old(Written()) + mem
      ensures fresh(Repr - old(Repr)) && m_ImplodedBuffer == old(m_ImplodedBuffer)
    {
      if Refused(m_BufferSize, m_Pos, |mem|) {
        Grow(m_Pos + |mem|);
      }
      ghost var before := m_Buffer[..m_Pos];
      forall i | 0 <= i < |mem| {
        m_Buffer[m_Pos + i] := mem[i];
      }
      m_Pos := m_Pos + |mem|;
      assert m_Buffer[..m_Pos] == before + mem;
    }

    /** FLZOFile::Implode: the buffer is replaced by its stored form. */
    method Implode()
      requires ValidWriting()
      modifies this
      ensures m_Buffer != null && fresh(m_Buffer) && m_ImplodedBuffer == old(m_ImplodedBuffer)
      ensures m_Buffer[..] == Imploded(lzo, m_NoCompress, old(m_Buffer[..m_BufferSize]))
      ensures m_Mode == Writing && m_Pos == 0
      ensures Repr == old(Repr) + {m_Buffer}
    {
      var input := m_Buffer[..m_BufferSize];
      var packed := Payload(lzo, m_NoCompress, input);
      var block := EncodeDword(packed.0) + EncodeDword(|input|) + packed.1;
      m_BufferSize := |packed.1|;
      m_Buffer := new byte[|block|](i requires 0 <= i < |block| => block[i]);
      assert m_Buffer[..] == block;
      m_Pos := 0;
      Repr := Repr + {m_Buffer};
    }

    /** FLZOMemFile::Close on a file opened for writing. All of the buffer is kept, the unwritten end included. */
    method Close() returns (ghost kept: seq<byte>)
      requires ValidWriting() && m_ImplodedBuffer == null
      modifies this
      ensures Owned() && m_Buffer == null && m_ImplodedBuffer != null && fresh(m_ImplodedBuffer) && m_Pos == 0
      ensures Repr == old(Repr) + {m_ImplodedBuffer}
      ensures old(Written()) <= kept && |kept| <= MAX_BUFFER
      ensures m_ImplodedBuffer[..] == Imploded(lzo, m_NoCompress, kept)
    {
      kept := m_Buffer[..m_BufferSize];
      Implode();
      m_ImplodedBuffer := m_Buffer;
      m_Buffer := null;
    }

    /** Reopening what Close left, for reading. */
    method Reopen() returns (ok: bool)
      requires Owned() && (m_ImplodedBuffer != null ==> m_ImplodedBuffer.Length >= 8)
      requires m_Buffer == null ==> m_Pos == 0
      modifies this
      ensures old(m_Buffer == null && m_ImplodedBuffer != null) && Exploded(lzo, old(m_ImplodedBuffer[..])).Some? ==>
                ok && ValidReading() && m_Pos == 0 && Unread() == Exploded(lzo, old(m_ImplodedBuffer[..])).value
      ensures ok ==> m_Mode == Reading && m_Buffer != null && fresh(m_Buffer)
      ensures m_ImplodedBuffer == old(m_ImplodedBuffer) && fresh(Repr - old(Repr))
    {
      if m_Buffer != null || m_ImplodedBuffer == null {
        return false;
      }
      m_Mode := Reading;
      match Exploded(lzo, m_ImplodedBuffer[..])
      case None => return false;
      case Some(x) =>
        m_Buffer := new byte[|x|](i requires 0 <= i < |x| => x[i]);
        assert m_Buffer[..] == x;
        m_BufferSize := |x|;
        Repr := Repr + {m_Buffer};
        return true;
    }

    /** A read of more than is left is refused, unless the 32-bit sum wraps around: exactly when position
        plus length reaches 2^32. */
    method Read(len: nat) returns (r: Result<seq<byte>, LoadError>)
      requires ValidReading() && len < DWORD_LIMIT
      modifies this`m_Pos
      ensures ValidReading()
      ensures if len <= |old(Unread())| then r == Success(old(Unread())[..len]) && Unread() == old(Unread())[len..]
              else r == Failure(Actual(m_BufferSize, Short(len, |old(Unread())|))) && Unread() == old(Unread())
      ensures r == Failure(OutsideBuffer) <==> old(m_Pos) + len >= DWORD_LIMIT
    {
      if Refused(m_BufferSize, m_Pos, len) {
        return Failure(PastEnd);
      }
      if m_Pos + len > m_BufferSize {
        return Failure(OutsideBuffer);
      }
      var mem := m_Buffer[m_Pos..m_Pos + len];
      assert mem == Unread()[..len] && m_Buffer[m_Pos + len..] == Unread()[len..];
      m_Pos := m_Pos + len;
      return Success(mem);
    }
  }

  // ----- Writing, closing, reopening and reading

  function Flatten(chunks: seq<seq<byte>>): seq<byte> {
    if chunks == [] then [] else chunks[0] + Flatten(chunks[1..])
  }

  lemma {:induction false} FlattenAppend(chunks: seq<seq<byte>>, last: seq<byte>)
    ensures Flatten(chunks + [last]) == Flatten(chunks) + last
    decreases |chunks|
  {
    if chunks == [] {
      assert chunks + [last] == [last];
      assert last + [] == last;
    } else {
      assert (chunks + [last])[1..] == chunks[1..] + [last];
      FlattenAppend(chunks[1..], last);
      ConcatAssociates(chunks[0], Flatten(chunks[1..]), last);
    }
  }

  lemma {:induction false} FlattenSplit(chunks: seq<seq<byte>>, i: nat)
    requires i < |chunks|
    ensures Flatten(chunks[..i + 1]) == Flatten(chunks[..i]) + chunks[i]
    ensures |Flatten(chunks[..i + 1])| <= |Flatten(chunks)|
    decreases |chunks|
  {
    assert chunks[..i + 1] == chunks[..i] + [chunks[i]];
    FlattenAppend(chunks[..i], chunks[i]);
    FlattenPrefix(chunks, i + 1);
  }

  lemma {:induction false} FlattenPrefix(chunks: seq<seq<byte>>, i: nat)
    requires i <= |chunks|
    ensures |Flatten(chunks[..i])| <= |Flatten(chunks)|
    decreases |chunks|
  {
    if i == 0 {
    } else {
      assert chunks[..i][1..] == chunks[1..][..i - 1];
      FlattenPrefix(chunks[1..], i - 1);
    }
  }

  method WriteAll(file: MemFile, chunks: seq<seq<byte>>)
    requires file.ValidWriting() && file.Written() == [] && |Flatten(chunks)| <= MAX_BUFFER
    modifies file.Repr
    ensures file.ValidWriting() && file.Written() == Flatten(chunks) && fresh(file.Repr - old(file.Repr))
    ensures file.m_ImplodedBuffer == old(file.m_ImplodedBuffer)
  {
    for i := 0 to |chunks|
      invariant file.ValidWriting() && file.Written() == Flatten(chunks[..i]) && fresh(file.Repr - old(file.Repr))
      invariant file.m_ImplodedBuffer == old(file.m_ImplodedBuffer)
    {
      FlattenSplit(chunks, i);
      file.Write(chunks[i]);
    }
    assert chunks[..|chunks|] == chunks;
  }

  function Total(lens: seq<nat>): nat {
    if lens == [] then 0 else lens[0] + Total(lens[1..])
  }

  /** The bytes of s cut into pieces of the given lengths. */
  function Pieces(s: seq<byte>, lens: seq<nat>): seq<seq<byte>>
    requires Total(lens) <= |s|
    decreases |lens|
  {
    if lens == [] then [] else [s[..lens[0]]] + Pieces(s[lens[0]..], lens[1..])
  }

  lemma {:induction false} PiecesAreInOrder(s: seq<byte>, lens: seq<nat>)
    requires Total(lens) <= |s|
    ensures Flatten(Pieces(s, lens)) == s[..Total(lens)] && |Pieces(s, lens)| == |lens|
    decreases |lens|
  {
    if lens == [] {
    } else {
      PiecesAreInOrder(s[lens[0]..], lens[1..]);
      assert s[..Total(lens)] == s[..lens[0]] + s[lens[0]..][..Total(lens[1..])];
    }
  }

  /** The pieces read, and those still to come, are all there are. */
  ghost predicate PiecesLeft(all: seq<seq<byte>>, got: seq<seq<byte>>, s: seq<byte>, lens: seq<nat>) {
    Total(lens) <= |s| && all == got + Pieces(s, lens)
  }

  lemma PieceStep(all: seq<seq<byte>>, got: seq<seq<byte>>, s: seq<byte>, lens: seq<nat>)
    requires PiecesLeft(all, got, s, lens)
    ensures lens == [] ==> all == got
    ensures lens != [] ==> lens[0] <= |s| && PiecesLeft(all, got + [s[..lens[0]]], s[lens[0]..], lens[1..])
  {
    if lens != [] {
      var others := Pieces(s[lens[0]..], lens[1..]);
      assert got + ([s[..lens[0]]] + others) == got + [s[..lens[0]]] + others;
    }
  }

  method ReadAll(file: MemFile, lens: seq<nat>) returns (got: seq<seq<byte>>)
    requires file.ValidReading() && Total(lens) <= |file.Unread()|
    modifies file`m_Pos
    ensures got == Pieces(old(file.Unread()), lens)
  {
    got := [];
    ghost var all := Pieces(file.Unread(), lens);
    assert lens[0..] == lens && [] + all == all;
    for i := 0 to |lens|
      invariant file.ValidReading() && PiecesLeft(all, got, file.Unread(), lens[i..])
    {
      PieceStep(all, got, file.Unread(), lens[i..]);
      assert lens[i..][1..] == lens[i + 1..];
      var r := file.Read(lens[i]);
      got := got + [r.value];
    }
    PieceStep(all, got, file.Unread(), lens[|lens|..]);
  }

  lemma {:induction false} PiecesOfPrefix(s: seq<byte>, rest: seq<byte>, lens: seq<nat>)
    requires Total(lens) <= |s|
    ensures Pieces(s + rest, lens) == Pieces(s, lens)
    decreases |lens|
  {
    if lens == [] {
    } else {
      assert (s + rest)[..lens[0]] == s[..lens[0]] && (s + rest)[lens[0]..] == s[lens[0]..] + rest;
      PiecesOfPrefix(s[lens[0]..], rest, lens[1..]);
    }
  }

  /** Whatever is written comes back in order, in whatever pieces it is read, after closing and reopening. */
  method WriteCloseReopenRead(lzo: Lzo, noCompress: bool, chunks: seq<seq<byte>>, lens: seq<nat>)
    returns (got: seq<seq<byte>>)
    requires Inverse(lzo) && Total(lens) <= |Flatten(chunks)| <= MAX_BUFFER
    ensures |got| == |lens| && Flatten(got) == Flatten(chunks)[..Total(lens)]
    ensures got == Pieces(Flatten(chunks), lens)
  {
    hide Flatten, Pieces, Total, Imploded, Exploded, Capacity, Inverse;
    var file := new MemFile.OpenForWriting(lzo, noCompress);
    WriteAll(file, chunks);
    ghost var bytes := Flatten(chunks);
    ghost var kept := file.Close();
    ExplodeImplode(lzo, noCompress, kept);
    var ok := file.Reopen();
    ghost var rest := kept[|bytes|..];
    assert kept == bytes + rest;
    PiecesOfPrefix(bytes, rest, lens);
    PiecesAreInOrder(bytes, lens);
    got := ReadAll(file, lens);
  }
}
