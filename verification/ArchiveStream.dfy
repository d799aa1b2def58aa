/** The primitive operators of FArchive in common/farchive.cpp, which touch nothing but the file. */
module ArchiveStream {
  import opened Wrappers
  import opened ArchiveBytes
  import opened ArchiveMemFile

  // ----- Storing

  method WriteCount(file: MemFile, n: nat)
    requires file.ValidWriting() && |file.Written()| + |EncodeCount(n)| <= MAX_BUFFER
    modifies file.Repr
    ensures file.ValidWriting() && fresh(file.Repr - old(file.Repr))
    ensures file.Written() == old(file.Written()) + EncodeCount(n)
    ensures file.m_ImplodedBuffer == old(file.m_ImplodedBuffer)
  {
    hide EncodeCount, Capacity;
    var count := n;
    ghost var done: seq<byte> := [];
    assert CountLeft(n, done, count);
    while true
      invariant file.ValidWriting() && fresh(file.Repr - old(file.Repr))
      invariant file.Written() == old(file.Written()) + done
      invariant CountLeft(n, done, count)
      invariant file.m_ImplodedBuffer == old(file.m_ImplodedBuffer)
      decreases count
    {
      var out: byte := count % 0x80;
      if count >= 0x80 {
        out := out + 0x80;
      }
      CountStep(n, done, count, out);
      file.Write([out]);
      ConcatAssociates(old(file.Written()), done, [out]);
      done := done + [out];
      count := count / 0x80;
      if count == 0 {
        break;
      }
    }
  }

  /** The bytes of n are those already written and those of what is left of it. */
  ghost predicate CountLeft(n: nat, done: seq<byte>, count: nat) {
    EncodeCount(n) == done + EncodeCount(count)
  }

  lemma CountStep(n: nat, done: seq<byte>, count: nat, out: byte)
    requires CountLeft(n, done, count)
    requires out == if count >= 0x80 then count % 0x80 + 0x80 else count
    ensures |done| + 1 <= |EncodeCount(n)|
    ensures if count / 0x80 == 0 then EncodeCount(n) == done + [out] else CountLeft(n, done + [out], count / 0x80)
  {
    if count >= 0x80 {
      ConcatAssociates(done, [out], EncodeCount(count / 0x80));
    }
  }

  /** operator<< (const char *) of a string that is not null. */
  method WriteString(file: MemFile, text: seq<byte>)
    requires file.ValidWriting() && |text| + 1 < DWORD_LIMIT
    requires |file.Written()| + |EncodeString(Some(text))| <= MAX_BUFFER
    modifies file.Repr
    ensures file.ValidWriting() && fresh(file.Repr - old(file.Repr))
    ensures file.Written() == old(file.Written()) + EncodeString(Some(text))
    ensures file.m_ImplodedBuffer == old(file.m_ImplodedBuffer)
  {
    var str := CString(text);
    WriteCount(file, |str| + 1);
    file.Write(str);
    ConcatAssociates(old(file.Written()), EncodeCount(|str| + 1), str);
  }

  // ----- Loading

  /** What a load must do: decode the value and leave the file at the bytes behind it; or fail as the
      decoder does, which in this file comes to the actual error. */
  twostate predicate Consumed<T>(file: MemFile, new r: Result<T, LoadError>, new spec: Result<Decoded<T>, LoadError>)
    requires old(file.ValidReading())
    reads file, file.Repr
  {
    file.ValidReading() && file.Repr == old(file.Repr) && file.m_BufferSize == old(file.m_BufferSize) &&
    match spec
    case Success(d) => r == Success(d.value) && file.Unread() == d.rest
    case Failure(e) => r == Failure(Actual(file.m_BufferSize, e))
  }

  method ReadByte(file: MemFile) returns (r: Result<byte, LoadError>)
    requires file.ValidReading()
    modifies file`m_Pos
    ensures Consumed(file, r, DecodeByte(old(file.Unread())))
  {
    var read := file.Read(1);
    match read
    case Failure(e) => return Failure(e);
    case Success(mem) => return Success(mem[0]);
  }

  method ReadDword(file: MemFile) returns (r: Result<nat, LoadError>)
    requires file.ValidReading()
    modifies file`m_Pos
    ensures Consumed(file, r, DecodeDword(old(file.Unread())))
  {
    var read := file.Read(4);
    match read
    case Failure(e) => return Failure(e);
    case Success(mem) =>
      return Success(DecodeDword(mem).value.value);
  }

  method ReadCount(file: MemFile) returns (r: Result<nat, LoadError>)
    requires file.ValidReading()
    modifies file`m_Pos
    ensures Consumed(file, r, DecodeCount(old(file.Unread())))
    ensures r.Success? ==> r.value < DWORD_LIMIT
  {
    CountFits(file.Unread());
    var count: nat, unit: nat := 0, 1;
    while true
      invariant file.ValidReading() && file.Repr == old(file.Repr) && file.m_BufferSize == old(file.m_BufferSize)
      invariant PendingCount(DecodeCountFrom(file.Unread(), unit), count) == DecodeCount(old(file.Unread()))
      decreases |file.Unread()|
    {
      var read := ReadByte(file);
      match read {
        case Failure(e) => return Failure(e);
        case Success(b) =>
          if unit >= DWORD_LIMIT {
            return Failure(ShiftTooFar);
          }
          count := count + (b % 0x80) * unit % DWORD_LIMIT;
          unit := unit * 0x80;
          if b < 0x80 {
            return Success(count);
          }
      }
    }
  }

  /** A decoded rest of a count, added to what the loop has collected. */
  function PendingCount(more: Result<Decoded<nat>, LoadError>, count: nat): Result<Decoded<nat>, LoadError> {
    match more
    case Failure(e) => Failure(e)
    case Success(d) => Success(Decoded(count + d.value, d.rest))
  }

  /** operator>> (std::string &) */
  method ReadString(file: MemFile) returns (r: Result<seq<byte>, LoadError>)
    requires file.ValidReading()
    modifies file`m_Pos
    ensures Consumed(file, r, DecodeString(old(file.Unread())))
  {
    hide DecodeCount, Refused;
    var size := ReadCount(file);
    match size
    case Failure(e) => return Failure(e);
    case Success(n) =>
      if n == 0 {
        return Success([]);
      }
      var read := file.Read(n - 1);
      match read
      case Failure(e) => return Failure(e);
      case Success(cstr) => return Success(CString(cstr));
  }
}
