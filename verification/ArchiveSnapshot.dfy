/** The level snapshots of common/g_level.cpp, reduced to their thinkers: DThinker::SerializeAll over an
    FArchive over an FLZOMemFile that is closed and reopened in between. */
module ArchiveSnapshot {
  import opened Wrappers
  import opened ArchiveBytes
  import opened ArchiveGraph
  import opened ArchiveMemFile
  import opened ArchiveObjectTable
  import opened ArchiveRoundTrip
  import opened ArchiveThinkers
  import opened ArchiveFArchive

  // ----- Saving

  /** What is still to be archived continues what has been archived. */
  ghost predicate ThinkersLeft(types: Registry, heap: Heap, players: map<Addr, byte>, t: Tables, left: seq<Addr>,
                               done: seq<byte>, whole: Written)
    requires Storable(types, heap) && Consistent(types, heap, t)
    requires forall a :: a in left ==> a in heap
  {
    var rest := WriteThinkers(types, heap, players, t, left);
    whole == Written(rest.tables, done + rest.bytes)
  }

  lemma ThinkersLeftStep(types: Registry, heap: Heap, players: map<Addr, byte>, t: Tables, left: seq<Addr>,
                         done: seq<byte>, whole: Written)
    requires Storable(types, heap) && Consistent(types, heap, t)
    requires left != [] && forall a :: a in left ==> a in heap
    requires ThinkersLeft(types, heap, players, t, left, done, whole)
    ensures var first := WriteRef(types, heap, players, t, Some(left[0]));
            |done| + |[1] + first.bytes| <= |whole.bytes| &&
            ThinkersLeft(types, heap, players, first.tables, left[1..], done + ([1] + first.bytes), whole)
  {
    var first := WriteRef(types, heap, players, t, Some(left[0]));
    var others := WriteThinkers(types, heap, players, first.tables, left[1..]);
    assert done + ([1] + first.bytes + others.bytes) == done + ([1] + first.bytes) + others.bytes;
  }

  lemma ThinkersLeftEnds(types: Registry, heap: Heap, players: map<Addr, byte>, t: Tables, thinkers: seq<Addr>,
                         done: seq<byte>, whole: Written)
    requires Storable(types, heap) && Consistent(types, heap, t)
    requires forall a :: a in thinkers ==> a in heap
    ensures whole == WriteThinkers(types, heap, players, t, thinkers) ==>
              ThinkersLeft(types, heap, players, t, thinkers, [], whole)
    ensures thinkers == [] && ThinkersLeft(types, heap, players, t, thinkers, done, whole) ==>
              whole == Written(t, done + [0])
  {
    var bytes := WriteThinkers(types, heap, players, t, thinkers).bytes;
    assert [] + bytes == bytes;
  }

  method SaveThinker(arc: FArchive, heap: Heap, players: map<Addr, byte>, a: Addr)
    requires arc.Storing() && Storable(arc.types, heap) && Consistent(arc.types, heap, arc.Mapped()) && a in heap
    requires |arc.m_File.Written()| + |[1] + WriteRef(arc.types, heap, players, arc.Mapped(), Some(a)).bytes| <= MAX_BUFFER
    modifies arc.Repr
    ensures var w := WriteRef(arc.types, heap, players, old(arc.Mapped()), Some(a));
            arc.Stored(Written(w.tables, [1] + w.bytes))
  {
    ghost var start, w := arc.m_File.Written(), WriteRef(arc.types, heap, players, arc.Mapped(), Some(a));
    arc.Write([1]);
    arc.WriteObject(heap, players, Some(a));
    ConcatAssociates(start, [1], w.bytes);
  }

  /** One turn of the loop below, for a thinker that is archived. */
  method SaveNext(arc: FArchive, heap: Heap, players: map<Addr, byte>, a: Addr, ghost left: seq<Addr>,
                  ghost start: seq<byte>, ghost done: seq<byte>, ghost whole: Written)
    returns (ghost written: seq<byte>)
    requires arc.Storing() && Storable(arc.types, heap) && Consistent(arc.types, heap, arc.Mapped())
    requires left != [] && left[0] == a && forall b :: b in left ==> b in heap
    requires arc.m_File.Written() == start + done && |start| + |whole.bytes| <= MAX_BUFFER
    requires ThinkersLeft(arc.types, heap, players, arc.Mapped(), left, done, whole)
    modifies arc.Repr
    ensures arc.Stored(Written(arc.Mapped(), written)) && arc.m_File.Written() == start + (done + written)
    ensures Consistent(arc.types, heap, arc.Mapped())
    ensures ThinkersLeft(arc.types, heap, players, arc.Mapped(), left[1..], done + written, whole)
  {
    hide Chains, TypeMapHolds, Distinct, WriteRef, WriteThinkers;
    ThinkersLeftStep(arc.types, heap, players, arc.Mapped(), left, done, whole);
    written := [1] + WriteRef(arc.types, heap, players, arc.Mapped(), Some(a)).bytes;
    ConcatAssociates(start, done, written);
    SaveThinker(arc, heap, players, a);
  }

  /** What is archived of a list of thinkers continues what has been archived. */
  ghost predicate ListLeft(types: Registry, heap: Heap, players: map<Addr, byte>, t: Tables, reset: bool,
                           playerTypes: set<Addr>, left: seq<Addr>, done: seq<byte>, whole: Written) {
    Storable(types, heap) && Consistent(types, heap, t) && (forall a :: a in left ==> a in heap) &&
    ThinkersLeft(types, heap, players, t, Archived(reset, playerTypes, left), done, whole)
  }

  /** One turn of the loop below. */
  method SaveTurn(arc: FArchive, heap: Heap, players: map<Addr, byte>, playerTypes: set<Addr>, a: Addr,
                  ghost left: seq<Addr>, ghost start: seq<byte>, ghost done: seq<byte>, ghost whole: Written)
    returns (ghost written: seq<byte>)
    requires arc.Storing() && left != [] && left[0] == a
    requires arc.m_File.Written() == start + done && |start| + |whole.bytes| <= MAX_BUFFER
    requires ListLeft(arc.types, heap, players, arc.Mapped(), arc.m_Reset, playerTypes, left, done, whole)
    modifies arc.Repr
    ensures arc.Stored(Written(arc.Mapped(), written)) && arc.m_File.Written() == start + (done + written)
    ensures ListLeft(arc.types, heap, players, arc.Mapped(), arc.m_Reset, playerTypes, left[1..], done + written, whole)
  {
    hide Chains, TypeMapHolds, Distinct, WriteRef, WriteThinkers, ThinkersLeft, Consistent, Storable, Archived;
    ArchivedFirst(arc.m_Reset, playerTypes, left);
    if arc.m_Reset && a in playerTypes {
      written := [];
      assert done + written == done;
    } else {
      written := SaveNext(arc, heap, players, a, Archived(arc.m_Reset, playerTypes, left), start, done, whole);
    }
  }

  /** DThinker::SerializeAll, storing. */
  method SaveThinkers(arc: FArchive, heap: Heap, players: map<Addr, byte>, playerTypes: set<Addr>, thinkers: seq<Addr>)
    requires arc.Storing() && Storable(arc.types, heap) && Consistent(arc.types, heap, arc.Mapped())
    requires forall a :: a in thinkers ==> a in heap
    requires |arc.m_File.Written()| +
             |WriteThinkers(arc.types, heap, players, arc.Mapped(), Archived(arc.m_Reset, playerTypes, thinkers)).bytes|
             <= MAX_BUFFER
    modifies arc.Repr
    ensures arc.Stored(WriteThinkers(arc.types, heap, players, old(arc.Mapped()),
                                     Archived(arc.m_Reset, playerTypes, thinkers)))
  {
    hide Chains, TypeMapHolds, Distinct, WriteRef, WriteThinkers, ThinkersLeft, Consistent, Storable, Archived;
    ghost var start, done: seq<byte> := arc.m_File.Written(), [];
    ghost var whole := WriteThinkers(arc.types, heap, players, arc.Mapped(), Archived(arc.m_Reset, playerTypes, thinkers));
    ThinkersLeftEnds(arc.types, heap, players, arc.Mapped(), Archived(arc.m_Reset, playerTypes, thinkers), done, whole);
    assert thinkers[0..] == thinkers;
    var i := 0;
    while i < |thinkers|
      invariant 0 <= i <= |thinkers| && arc.Stored(Written(arc.Mapped(), done))
      invariant ListLeft(arc.types, heap, players, arc.Mapped(), arc.m_Reset, playerTypes, thinkers[i..], done, whole)
    {
      ghost var written := SaveTurn(arc, heap, players, playerTypes, thinkers[i], thinkers[i..], start, done, whole);
      assert thinkers[i..][1..] == thinkers[i + 1..];
      done := done + written;
      i := i + 1;
    }
    ArchivedNone(arc.m_Reset, playerTypes);
    ThinkersLeftEnds(arc.types, heap, players, arc.Mapped(), [], done, whole);
    arc.Write([0]);
    ConcatAssociates(start, done, [0]);
  }

  // ----- Loading

  /** What the loop of SerializeAll reads after a byte that says whether a thinker follows. */
  function ThinkersAfter(types: Registry, alloc: nat -> Addr, st: Loaded, more: byte, s: seq<byte>, thinkerClass: nat)
    : Result<Read<seq<Option<Addr>>>, LoadError>
    requires KnownClasses(types, st)
  {
    if more == 0 then Success(Read([], st, s)) else
      match ReadRef(types, alloc, st, s, Some(thinkerClass))
      case Failure(e) => Failure(e)
      case Success(first) => Behind([first.value], ReadThinkers(types, alloc, first.state, first.rest, thinkerClass))
  }

  function Behind<T>(images: seq<T>, r: Result<Read<seq<T>>, LoadError>): Result<Read<seq<T>>, LoadError> {
    match r
    case Failure(e) => Failure(e)
    case Success(d) => Success(Read(images + d.value, d.state, d.rest))
  }

  lemma BehindTwice<T>(images: seq<T>, image: T, r: Result<Read<seq<T>>, LoadError>)
    ensures Behind(images, Behind([image], r)) == Behind(images + [image], r)
  {
    if r.Success? {
      assert images + ([image] + r.value.value) == images + [image] + r.value.value;
    }
  }

  /** One turn of that loop: a thinker, and the byte behind it. */
  function ThinkerAndMore(types: Registry, alloc: nat -> Addr, st: Loaded, s: seq<byte>, thinkerClass: nat)
    : (r: Result<Read<(Option<Addr>, byte)>, LoadError>)
    requires KnownClasses(types, st)
    ensures r.Success? ==> KnownClasses(types, r.value.state) && |r.value.rest| < |s|
  {
    match ReadRef(types, alloc, st, s, Some(thinkerClass))
    case Failure(e) => Failure(e)
    case Success(first) =>
      match DecodeByte(first.rest)
      case Failure(e) => Failure(e)
      case Success(more) => Success(Read((first.value, more.value), first.state, more.rest))
  }

  /** The images collected, followed by what the rest of the input gives, is the whole. */
  ghost predicate ThinkersPending(types: Registry, alloc: nat -> Addr, st: Loaded, more: byte, s: seq<byte>,
                                  thinkerClass: nat, images: seq<Option<Addr>>,
                                  whole: Result<Read<seq<Option<Addr>>>, LoadError>)
  {
    KnownClasses(types, st) && Behind(images, ThinkersAfter(types, alloc, st, more, s, thinkerClass)) == whole
  }

  lemma PendingStart(types: Registry, alloc: nat -> Addr, st: Loaded, s: seq<byte>, thinkerClass: nat)
    requires KnownClasses(types, st)
    ensures var whole := ReadThinkers(types, alloc, st, s, thinkerClass);
            match DecodeByte(s)
            case Failure(e) => whole == Failure(e)
            case Success(more) => ThinkersPending(types, alloc, st, more.value, more.rest, thinkerClass, [], whole)
  {
    var whole := ReadThinkers(types, alloc, st, s, thinkerClass);
    if whole.Success? {
      assert [] + whole.value.value == whole.value.value;
    }
  }

  lemma PendingStep(types: Registry, alloc: nat -> Addr, st: Loaded, more: byte, s: seq<byte>, thinkerClass: nat,
                    images: seq<Option<Addr>>, whole: Result<Read<seq<Option<Addr>>>, LoadError>)
    requires ThinkersPending(types, alloc, st, more, s, thinkerClass, images, whole) && more != 0
    ensures match ThinkerAndMore(types, alloc, st, s, thinkerClass)
            case Failure(e) => whole == Failure(e)
            case Success(next) =>
              ThinkersPending(types, alloc, next.state, next.value.1, next.rest, thinkerClass, images + [next.value.0], whole)
  {
    var first := ReadRef(types, alloc, st, s, Some(thinkerClass));
    if first.Success? {
      BehindTwice(images, first.value.value,
                  ReadThinkers(types, alloc, first.value.state, first.value.rest, thinkerClass));
      PendingStart(types, alloc, first.value.state, first.value.rest, thinkerClass);
    }
  }

  method LoadThinker(arc: FArchive, alloc: nat -> Addr, thinkerClass: nat)
    returns (r: Result<(Option<Addr>, byte), LoadError>)
    requires arc.Loading() && KnownClasses(arc.types, arc.State())
    modifies arc.Repr
    ensures arc.LoadedAs(r, ThinkerAndMore(arc.types, alloc, old(arc.State()), old(arc.m_File.Unread()), thinkerClass))
  {
    var thinker :- arc.ReadObject(alloc, Some(thinkerClass));
    var more :- arc.LoadByte();
    return Success((thinker, more));
  }

  /** DThinker::SerializeAll, loading. */
  method LoadThinkers(arc: FArchive, alloc: nat -> Addr, thinkerClass: nat)
    returns (r: Result<seq<Option<Addr>>, LoadError>)
    requires arc.Loading() && KnownClasses(arc.types, arc.State())
    modifies arc.Repr
    ensures arc.LoadedAs(r, ReadThinkers(arc.types, alloc, old(arc.State()), old(arc.m_File.Unread()), thinkerClass))
  {
    hide Chains, TypeMapHolds, ThinkerAndMore, ReadThinkers, ThinkersAfter;
    ghost var whole := ReadThinkers(arc.types, alloc, arc.State(), arc.m_File.Unread(), thinkerClass);
    PendingStart(arc.types, alloc, arc.State(), arc.m_File.Unread(), thinkerClass);
    var images: seq<Option<Addr>> := [];
    var more :- arc.LoadByte();
    while more != 0
      invariant arc.Loading() && fresh(arc.Repr - old(arc.Repr))
      invariant arc.m_File.m_BufferSize == old(arc.m_File.m_BufferSize)
      invariant ThinkersPending(arc.types, alloc, arc.State(), more, arc.m_File.Unread(), thinkerClass, images, whole)
      decreases |arc.m_File.Unread()|
    {
      PendingStep(arc.types, alloc, arc.State(), more, arc.m_File.Unread(), thinkerClass, images, whole);
      var next :- LoadThinker(arc, alloc, thinkerClass);
      images := images + [next.0];
      more := next.1;
    }
    PendingEnd(arc.types, alloc, arc.State(), more, arc.m_File.Unread(), thinkerClass, images, whole);
    return Success(images);
  }

  lemma PendingEnd(types: Registry, alloc: nat -> Addr, st: Loaded, more: byte, s: seq<byte>, thinkerClass: nat,
                   images: seq<Option<Addr>>, whole: Result<Read<seq<Option<Addr>>>, LoadError>)
    requires ThinkersPending(types, alloc, st, more, s, thinkerClass, images, whole) && more == 0
    ensures whole == Success(Read(images, st, s))
  {
    assert images + [] == images;
  }

  // ----- Snapshots

  /** A closed snapshot: what was written, and the unused end of the buffer behind it. */
  ghost predicate Holds(file: MemFile, bytes: seq<byte>)
    reads file, file.Repr
  {
    file.Owned() && file.m_Buffer == null && file.m_Pos == 0 && file.m_ImplodedBuffer != null &&
    exists kept: seq<byte> ::
      bytes <= kept && |kept| <= MAX_BUFFER &&
      file.m_ImplodedBuffer[..] == Imploded(file.lzo, file.m_NoCompress, kept)
  }

  lemma StartsEmpty(types: Registry, heap: Heap)
    requires Storable(types, heap)
    ensures |types| < ALL_ONES && Consistent(types, heap, EMPTY)
  {
  }

  /** The archive that stores the level: G_SerializeLevel, storing. */
  method ArchiveLevel(file: MemFile, types: Registry, heap: Heap, players: map<Addr, byte>, reset: bool,
                      playerTypes: set<Addr>, thinkers: seq<Addr>)
    requires file.ValidWriting() && file.Written() == [] && file.m_ImplodedBuffer == null
    requires Storable(types, heap) && forall a :: a in thinkers ==> a in heap
    requires |WriteThinkers(types, heap, players, EMPTY, Archived(reset, playerTypes, thinkers)).bytes| <= MAX_BUFFER
    modifies file.Repr
    ensures file.ValidWriting() && file.m_ImplodedBuffer == null && fresh(file.Repr - old(file.Repr))
    ensures file.Written() == WriteThinkers(types, heap, players, EMPTY, Archived(reset, playerTypes, thinkers)).bytes
  {
    hide Chains, TypeMapHolds, WriteThinkers, Archived, Storable;
    StartsEmpty(types, heap);
    var arc := new FArchive(types, file, reset);
    SaveThinkers(arc, heap, players, playerTypes, thinkers);
    ghost var bytes := WriteThinkers(types, heap, players, EMPTY, Archived(reset, playerTypes, thinkers)).bytes;
    assert [] + bytes == bytes;
  }

  /** G_SnapshotLevel, and G_DoSaveResetState for a reset: the archive closes the file when it goes out of
      scope. */
  method SnapshotLevel(types: Registry, heap: Heap, players: map<Addr, byte>, reset: bool, playerTypes: set<Addr>,
                       thinkers: seq<Addr>, lzo: Lzo, noCompress: bool) returns (snapshot: MemFile)
    requires Storable(types, heap) && forall a :: a in thinkers ==> a in heap
    requires |WriteThinkers(types, heap, players, EMPTY, Archived(reset, playerTypes, thinkers)).bytes| <= MAX_BUFFER
    ensures Holds(snapshot, WriteThinkers(types, heap, players, EMPTY, Archived(reset, playerTypes, thinkers)).bytes)
    ensures fresh(snapshot.Repr) && snapshot.lzo == lzo
  {
    snapshot := new MemFile.OpenForWriting(lzo, noCompress);
    ArchiveLevel(snapshot, types, heap, players, reset, playerTypes, thinkers);
    ghost var kept := snapshot.Close();
  }

  /** Reopening a snapshot puts what was written in front of whatever the buffer held behind it. */
  method ReopenSnapshot(snapshot: MemFile, ghost bytes: seq<byte>) returns (ghost rest: seq<byte>)
    requires Inverse(snapshot.lzo) && Holds(snapshot, bytes)
    modifies snapshot
    ensures snapshot.ValidReading() && fresh(snapshot.Repr - old(snapshot.Repr))
    ensures snapshot.Unread() == bytes + rest && snapshot.m_BufferSize == |bytes + rest| <= MAX_BUFFER
  {
    hide Imploded, Exploded, Inverse, Capacity;
    ghost var kept: seq<byte> :|
      bytes <= kept && |kept| <= MAX_BUFFER &&
      snapshot.m_ImplodedBuffer[..] == Imploded(snapshot.lzo, snapshot.m_NoCompress, kept);
    rest := kept[|bytes|..];
    assert kept == bytes + rest;
    ExplodeImplode(snapshot.lzo, snapshot.m_NoCompress, kept);
    var reopened := snapshot.Reopen();
  }

  /** The archive that loads the level: G_SerializeLevel, loading. */
  method UnarchiveLevel(file: MemFile, types: Registry, reset: bool, alloc: nat -> Addr, thinkerClass: nat)
    returns (r: Result<seq<Option<Addr>>, LoadError>, loaded: Heap)
    requires |types| < ALL_ONES && file.ValidReading() && |file.Unread()| <= MAX_BUFFER
    modifies file.Repr
    ensures match ReadThinkers(types, alloc, Loaded(EMPTY, map[]), old(file.Unread()), thinkerClass)
            case Failure(e) => r == Failure(Actual(old(file.m_BufferSize), e))
            case Success(d) => r == Success(d.value) && loaded == d.state.heap
  {
    hide Chains, TypeMapHolds;
    var arc := new FArchive(types, file, reset);
    r := LoadThinkers(arc, alloc, thinkerClass);
    loaded := arc.created;
  }

  /** G_UnSnapshotLevel, and the loading in G_DoResetLevel. */
  method UnSnapshotLevel(snapshot: MemFile, types: Registry, reset: bool, alloc: nat -> Addr, thinkerClass: nat,
                         ghost bytes: seq<byte>)
    returns (r: Result<seq<Option<Addr>>, LoadError>, loaded: Heap, ghost rest: seq<byte>)
    requires |types| < ALL_ONES && Inverse(snapshot.lzo) && Holds(snapshot, bytes)
    modifies snapshot.Repr
    ensures match ReadThinkers(types, alloc, Loaded(EMPTY, map[]), bytes + rest, thinkerClass)
            case Failure(e) => r == Failure(Actual(|bytes + rest|, e))
            case Success(d) => r == Success(d.value) && loaded == d.state.heap
  {
    rest := ReopenSnapshot(snapshot, bytes);
    r, loaded := UnarchiveLevel(snapshot, types, reset, alloc, thinkerClass);
  }

  /** Leaving a level and coming back to it restores its thinkers, and resetting it those that are not of
      the player type, up to where they are in memory. */
  method SnapshotRoundTrip(types: Registry, heap: Heap, players: map<Addr, byte>, reset: bool, playerTypes: set<Addr>,
                           thinkers: seq<Addr>, thinkerClass: nat, alloc: nat -> Addr, lzo: Lzo, noCompress: bool)
    returns (images: seq<Option<Addr>>, loaded: Heap)
    requires Storable(types, heap) && AreThinkers(types, heap, thinkers, thinkerClass) && Injective(alloc) && Inverse(lzo)
    requires |WriteThinkers(types, heap, players, EMPTY, Archived(reset, playerTypes, thinkers)).bytes| <= MAX_BUFFER
    ensures exists phi: map<Addr, Addr> ::
              Isomorphic(heap, Archived(reset, playerTypes, thinkers), loaded, images, phi)
  {
    var snapshot := SnapshotLevel(types, heap, players, reset, playerTypes, thinkers, lzo, noCompress);
    ghost var archived := Archived(reset, playerTypes, thinkers);
    ghost var w := WriteThinkers(types, heap, players, EMPTY, archived);
    var r, all, rest := UnSnapshotLevel(snapshot, types, reset, alloc, thinkerClass, w.bytes);
    SaveLoadIsomorphic(types, heap, players, alloc, archived, thinkerClass, rest);
    images, loaded := r.value, all;
    assert Isomorphic(heap, archived, loaded, images, Correspondence(alloc, w.tables));
  }
}
