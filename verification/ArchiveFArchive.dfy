/** FArchive of common/farchive.cpp over an FLZOMemFile: the methods that store and load objects, proved
    to do what the functions of `ArchiveGraph` say. */
module ArchiveFArchive {
  import opened Wrappers
  import opened ArchiveBytes
  import opened ArchiveGraph
  import opened ArchiveMemFile
  import opened ArchiveObjectTable
  import opened ArchiveRoundTrip
  import opened ArchiveStream

  datatype TypeMapEntry = TypeMapEntry(toCurrent: Option<nat>, toArchive: nat)

  /** Both directions of the class table. */
  ghost predicate TypeMapHolds(entries: seq<TypeMapEntry>, classes: seq<nat>) {
    |classes| <= |entries| < ALL_ONES &&
    (forall k :: 0 <= k < |classes| ==> classes[k] < |entries| && entries[k].toCurrent == Some(classes[k])) &&
    (forall c :: 0 <= c < |entries| ==>
       entries[c].toArchive == IndexOrOnes(classes, c))
  }

  lemma TypeMapAdd(entries: seq<TypeMapEntry>, classes: seq<nat>, cls: nat)
    requires TypeMapHolds(entries, classes) && cls < |entries| && |classes| < |entries|
    ensures var e1 := entries[cls := entries[cls].(toArchive := |classes|)];
            var e2 := e1[|classes| := e1[|classes|].(toCurrent := Some(cls))];
            TypeMapHolds(e2, classes + [cls])
  {
    var e1 := entries[cls := entries[cls].(toArchive := |classes|)];
    var e2 := e1[|classes| := e1[|classes|].(toCurrent := Some(cls))];
    forall c | 0 <= c < |entries|
      ensures e2[c].toArchive == IndexOrOnes(classes + [cls], c)
    {
      assert (classes + [cls])[..|classes|] == classes;
    }
  }

  lemma RoomForNew(types: Registry, heap: Heap, t: Tables, a: Addr)
    requires Storable(types, heap) && Consistent(types, heap, t)
    requires a in heap && heap[a].cls.Some? && a !in t.objects
    ensures var cls := heap[a].cls.value;
            cls < |types| && |types[cls].name| + 1 < DWORD_LIMIT && (cls !in t.classes ==> |t.classes| < |types|)
    ensures |t.objects| + 1 < ALL_ONES
  {
    MapNew(types, heap, t, a);
    DistinctInSet(AddObject(heap, t, a).objects, heap.Keys);
    if heap[a].cls.value !in t.classes {
      RoomForClass(types, t.classes, heap[a].cls.value);
    }
  }

  // ----- Pieces of operator<< (DObject *) that touch nothing but the file

  /** The object code, with the number of the player the object is the actor of. */
  method WriteObjectCode(file: MemFile, players: map<Addr, byte>, a: Addr, plain: byte, ofPlayer: byte)
    requires file.ValidWriting() && |file.Written()| + |ObjectCode(players, a, plain, ofPlayer)| <= MAX_BUFFER
    modifies file.Repr
    ensures file.ValidWriting() && fresh(file.Repr - old(file.Repr))
    ensures file.Written() == old(file.Written()) + ObjectCode(players, a, plain, ofPlayer)
    ensures file.m_ImplodedBuffer == old(file.m_ImplodedBuffer)
  {
    if a in players {
      file.Write([ofPlayer]);
      file.Write([players[a]]);
      ConcatAssociates(old(file.Written()), [ofPlayer], [players[a]]);
    } else {
      file.Write([plain]);
    }
  }

  /** A later object of a class carries the archive index of the class. */
  method WriteNextOfClass(file: MemFile, players: map<Addr, byte>, a: Addr, index: nat)
    requires file.ValidWriting() && |file.Written()| + |IndexHeader(players, a, index)| <= MAX_BUFFER
    modifies file.Repr
    ensures file.ValidWriting() && fresh(file.Repr - old(file.Repr))
    ensures file.Written() == old(file.Written()) + IndexHeader(players, a, index)
    ensures file.m_ImplodedBuffer == old(file.m_ImplodedBuffer)
  {
    WriteObjectCode(file, players, a, NEW_OBJ, NEW_PLYR_OBJ);
    WriteCount(file, index);
    ConcatAssociates(old(file.Written()), ObjectCode(players, a, NEW_OBJ, NEW_PLYR_OBJ), EncodeCount(index));
  }

  /** The first object of a class carries its name. */
  method WriteFirstOfClass(file: MemFile, players: map<Addr, byte>, a: Addr, name: seq<byte>)
    requires file.ValidWriting() && |name| + 1 < DWORD_LIMIT
    requires |file.Written()| + |ClassHeader(players, a, name)| <= MAX_BUFFER
    modifies file.Repr
    ensures file.ValidWriting() && fresh(file.Repr - old(file.Repr))
    ensures file.Written() == old(file.Written()) + ClassHeader(players, a, name)
    ensures file.m_ImplodedBuffer == old(file.m_ImplodedBuffer)
  {
    WriteObjectCode(file, players, a, NEW_CLS_OBJ, NEW_PLYR_CLS_OBJ);
    WriteString(file, name);
    ConcatAssociates(old(file.Written()), ObjectCode(players, a, NEW_CLS_OBJ, NEW_PLYR_CLS_OBJ), EncodeString(Some(name)));
  }

  /** An object met before is a reference to its index. */
  method WriteOld(file: MemFile, index: nat)
    requires file.ValidWriting() && |file.Written()| + |[OLD_OBJ] + EncodeCount(index)| <= MAX_BUFFER
    modifies file.Repr
    ensures file.ValidWriting() && fresh(file.Repr - old(file.Repr))
    ensures file.Written() == old(file.Written()) + ([OLD_OBJ] + EncodeCount(index))
    ensures file.m_ImplodedBuffer == old(file.m_ImplodedBuffer)
  {
    file.Write([OLD_OBJ]);
    WriteCount(file, index);
    ConcatAssociates(old(file.Written()), [OLD_OBJ], EncodeCount(index));
  }

  // ----- Loads that touch nothing but the file

  function SameState<T>(st: Loaded, d: Result<Decoded<T>, LoadError>): Result<Read<T>, LoadError> {
    match d
    case Failure(e) => Failure(e)
    case Success(x) => Success(Read(x.value, st, x.rest))
  }

  class FArchive {
    const types: Registry
    const m_File: MemFile
    const m_Reset: bool
    const table: ObjectTable
    const m_TypeMap: array<TypeMapEntry>
    var m_ClassCount: nat
    var created: Heap
    ghost var classes: seq<nat>
    ghost var Repr: set<object>

    ghost predicate Separate()
      reads this, m_File, table
    {
      m_File in m_File.Repr && table in table.Repr && m_File.Repr !! table.Repr && m_TypeMap as object != this &&
      this !in m_File.Repr && this !in table.Repr && m_TypeMap !in m_File.Repr && m_TypeMap !in table.Repr &&
      Repr == {this, m_TypeMap} + m_File.Repr + table.Repr
    }

    ghost predicate ValidTypeMap()
      reads this, m_TypeMap
    {
      m_TypeMap.Length == |types| && m_ClassCount == |classes| && TypeMapHolds(m_TypeMap[..], classes)
    }

    ghost predicate Valid()
      reads this, Repr, m_File, table
    {
      Separate() && ValidTypeMap() && table.Valid()
    }

    ghost predicate Storing()
      reads this, Repr, m_File, table
    {
      Valid() && m_File.ValidWriting()
    }

    ghost predicate Loading()
      reads this, Repr, m_File, table
    {
      Valid() && m_File.ValidReading() && |table.objects| + |m_File.Unread()| + 2 < ALL_ONES
    }

    ghost function Mapped(): Tables
      reads this, table
    {
      Tables(table.objects, classes)
    }

    ghost function State(): Loaded
      reads this, table
    {
      Loaded(Mapped(), created)
    }

    /** What storing something must achieve: the bytes appended, the tables extended. */
    twostate predicate Stored(w: Written)
      requires old(Storing())
      reads this, Repr, m_File, table
    {
      Storing() && fresh(Repr - old(Repr)) && Mapped() == w.tables &&
      m_File.Written() == old(m_File.Written()) + w.bytes && m_File.m_ImplodedBuffer == old(m_File.m_ImplodedBuffer)
    }

    constructor (types: Registry, file: MemFile, reset: bool)
      requires |types| < ALL_ONES && file in file.Repr
      ensures Valid() && this.types == types && m_File == file && m_Reset == reset
      ensures Mapped() == Tables([], []) && created == map[]
      ensures fresh(Repr - file.Repr)
    {
      this.types, m_File, m_Reset := types, file, reset;
      table := new ObjectTable();
      m_TypeMap := new TypeMapEntry[|types|](_ => TypeMapEntry(None, ALL_ONES));
      m_ClassCount, created, classes := 0, map[], [];
      new;
      Repr := {this, m_TypeMap} + m_File.Repr + table.Repr;
    }

    /** The class table answers toArchive for the class of an object. */
    lemma ArchiveIndex(cls: nat)
      requires ValidTypeMap() && cls < |types|
      ensures m_TypeMap[cls].toArchive == IndexOrOnes(classes, cls)
    {
      assert m_TypeMap[..][cls] == m_TypeMap[cls];
    }

    /** The assignments by which WriteClass and ReadClass give a class the next archive index. */
    method AddClass(cls: nat)
      requires ValidTypeMap() && cls < |types| && m_ClassCount < |types|
      modifies this`m_ClassCount, this`classes, m_TypeMap
      ensures ValidTypeMap() && classes == old(classes) + [cls]
    {
      TypeMapAdd(m_TypeMap[..], classes, cls);
      m_TypeMap[cls] := m_TypeMap[cls].(toArchive := m_ClassCount);
      m_TypeMap[m_ClassCount] := m_TypeMap[m_ClassCount].(toCurrent := Some(cls));
      m_ClassCount := m_ClassCount + 1;
      classes := classes + [cls];
    }

    // ----- Storing

    method Write(mem: seq<byte>)
      requires Storing() && |m_File.Written()| + |mem| <= MAX_BUFFER
      modifies Repr
      ensures Stored(Written(old(Mapped()), mem))
    {
      m_File.Write(mem);
      Repr := {this, m_TypeMap} + m_File.Repr + table.Repr;
    }

    method WriteText(text: seq<byte>)
      requires Storing() && |text| + 1 < DWORD_LIMIT
      requires |m_File.Written()| + |EncodeString(Some(text))| <= MAX_BUFFER
      modifies Repr
      ensures Stored(Written(old(Mapped()), EncodeString(Some(text))))
    {
      WriteString(m_File, text);
      Repr := {this, m_TypeMap} + m_File.Repr + table.Repr;
    }

    /** An object met before is a reference to its index. */
    method WriteOldObject(index: nat)
      requires Storing() && |m_File.Written()| + |[OLD_OBJ] + EncodeCount(index)| <= MAX_BUFFER
      modifies Repr
      ensures Stored(Written(old(Mapped()), [OLD_OBJ] + EncodeCount(index)))
    {
      WriteOld(m_File, index);
      Repr := {this, m_TypeMap} + m_File.Repr + table.Repr;
    }

    /** The header of the first object of a class. */
    method WriteClassHeader(players: map<Addr, byte>, a: Addr, cls: nat)
      requires Storing() && cls < |types| && |classes| < |types| && |types[cls].name| + 1 < DWORD_LIMIT
      requires |m_File.Written()| + |ClassHeader(players, a, types[cls].name)| <= MAX_BUFFER
      modifies Repr
      ensures Stored(Written(Tables(old(table.objects), old(classes) + [cls]), ClassHeader(players, a, types[cls].name)))
    {
      WriteFirstOfClass(m_File, players, a, types[cls].name);
      AddClass(cls);
      Repr := {this, m_TypeMap} + m_File.Repr + table.Repr;
    }

    /** The header of a later object of a class. */
    method WriteIndexHeader(players: map<Addr, byte>, a: Addr, index: nat)
      requires Storing() && |m_File.Written()| + |IndexHeader(players, a, index)| <= MAX_BUFFER
      modifies Repr
      ensures Stored(Written(old(Mapped()), IndexHeader(players, a, index)))
    {
      WriteNextOfClass(m_File, players, a, index);
      Repr := {this, m_TypeMap} + m_File.Repr + table.Repr;
    }

    method WriteHeader(heap: Heap, players: map<Addr, byte>, a: Addr)
      requires Storing() && a in heap && heap[a].cls.Some? && heap[a].cls.value < |types|
      requires |types[heap[a].cls.value].name| + 1 < DWORD_LIMIT
      requires heap[a].cls.value !in classes ==> |classes| < |types|
      requires |m_File.Written()| + |NewHeader(types, heap, players, Mapped(), a)| <= MAX_BUFFER
      modifies Repr
      ensures Stored(Written(Tables(old(table.objects), AddObject(heap, old(Mapped()), a).classes),
                             NewHeader(types, heap, players, old(Mapped()), a)))
    {
      var cls := heap[a].cls.value;
      ArchiveIndex(cls);
      if m_TypeMap[cls].toArchive == ALL_ONES {
        WriteClassHeader(players, a, cls);
      } else {
        WriteIndexHeader(players, a, m_TypeMap[cls].toArchive);
      }
    }

    method MapObject(a: Addr)
      requires Valid() && |table.objects| + 1 < ALL_ONES
      modifies Repr
      ensures Valid() && fresh(Repr - old(Repr))
      ensures Mapped() == Tables(old(table.objects) + [a], old(classes))
      ensures m_File.Repr == old(m_File.Repr) && unchanged(m_File.Repr) && created == old(created)
    {
      var index := table.MapObject(a);
      Repr := {this, m_TypeMap} + m_File.Repr + table.Repr;
    }

    /** Class and header of a new object, and its entry in the object table. */
    method WriteHeaderAndMap(heap: Heap, players: map<Addr, byte>, a: Addr)
      requires Storing() && a in heap && heap[a].cls.Some? && heap[a].cls.value < |types|
      requires |types[heap[a].cls.value].name| + 1 < DWORD_LIMIT && |table.objects| + 1 < ALL_ONES
      requires heap[a].cls.value !in classes ==> |classes| < |types|
      requires |m_File.Written()| + |NewHeader(types, heap, players, Mapped(), a)| <= MAX_BUFFER
      modifies Repr
      ensures Stored(Written(AddObject(heap, old(Mapped()), a), NewHeader(types, heap, players, old(Mapped()), a)))
    {
      hide Chains, TypeMapHolds, NewHeader;
      WriteHeader(heap, players, a);
      MapObject(a);
    }

    /** The index under which the object was archived before; all-ones if its class or itself was not. */
    method StoredIndex(cls: nat, a: Addr) returns (index: nat)
      requires Valid() && cls < |types|
      ensures index == if cls in classes then IndexOrOnes(table.objects, a) else ALL_ONES
    {
      ArchiveIndex(cls);
      index := ALL_ONES;
      if m_TypeMap[cls].toArchive != ALL_ONES {
        index := table.FindObjectIndex(a);
      }
    }

    /** operator<< (DObject *) */
    method WriteObject(heap: Heap, players: map<Addr, byte>, ref: Option<Addr>)
      requires Storing() && Storable(types, heap) && Consistent(types, heap, Mapped())
      requires ref.Some? ==> ref.value in heap
      requires |m_File.Written()| + |WriteRef(types, heap, players, Mapped(), ref).bytes| <= MAX_BUFFER
      modifies Repr
      ensures Stored(WriteRef(types, heap, players, old(Mapped()), ref))
      decreases Unmapped(heap, Mapped()), 1, 0
    {
      if ref.None? || heap[ref.value].cls.None? {
        Write([NULL_OBJ]);
      } else {
        var index := StoredIndex(heap[ref.value].cls.value, ref.value);
        if index == ALL_ONES {
          WriteNew(heap, players, ref.value);
        } else {
          WriteOldObject(index);
        }
      }
    }

    /** The end of both "new object" branches: header, MapObject, Serialize. */
    method WriteNew(heap: Heap, players: map<Addr, byte>, a: Addr)
      requires Storing() && Storable(types, heap) && Consistent(types, heap, Mapped())
      requires a in heap && heap[a].cls.Some? && a !in table.objects
      requires |m_File.Written()| + |WriteRef(types, heap, players, Mapped(), Some(a)).bytes| <= MAX_BUFFER
      modifies Repr
      ensures Stored(WriteRef(types, heap, players, old(Mapped()), Some(a)))
      decreases Unmapped(heap, Mapped()), 0, 0
    {
      hide Chains, TypeMapHolds, Distinct, CanWrite, NewHeader;
      ghost var t, start := Mapped(), m_File.Written();
      WriteNewIs(types, heap, players, t, a);
      ghost var header := NewHeader(types, heap, players, t, a);
      ghost var body := WriteFields(types, heap, players, AddObject(heap, t, a), heap[a].fields);
      RoomForNew(types, heap, t, a);
      WriteHeaderAndMap(heap, players, a);
      Serialize(heap, players, heap[a].fields);
      ConcatAssociates(start, header, body.bytes);
    }

    /** Serialize, storing. */
    method Serialize(heap: Heap, players: map<Addr, byte>, fields: seq<Value>)
      requires Storing() && Storable(types, heap) && Consistent(types, heap, Mapped())
      requires forall v :: v in fields ==> CanWrite(heap, v)
      requires |m_File.Written()| + |WriteFields(types, heap, players, Mapped(), fields).bytes| <= MAX_BUFFER
      modifies Repr
      ensures Stored(WriteFields(types, heap, players, old(Mapped()), fields))
      decreases Unmapped(heap, Mapped()), 2, |fields|
    {
      if fields != [] {
        ghost var start := m_File.Written();
        ghost var first := WriteValue(types, heap, players, Mapped(), fields[0]);
        ghost var others := WriteFields(types, heap, players, first.tables, fields[1..]);
        SerializeValue(heap, players, fields[0]);
        Serialize(heap, players, fields[1..]);
        ConcatAssociates(start, first.bytes, others.bytes);
      }
    }

    method SerializeValue(heap: Heap, players: map<Addr, byte>, value: Value)
      requires Storing() && Storable(types, heap) && Consistent(types, heap, Mapped()) && CanWrite(heap, value)
      requires |m_File.Written()| + |WriteValue(types, heap, players, Mapped(), value).bytes| <= MAX_BUFFER
      modifies Repr
      ensures Stored(WriteValue(types, heap, players, old(Mapped()), value))
      decreases Unmapped(heap, Mapped()), 1, 1
    {
      match value
      case ByteValue(b) => Write([b]);
      case DwordValue(w) => Write(EncodeDword(w));
      case StringValue(text) => WriteText(text);
      case RefValue(target) => WriteObject(heap, players, target);
    }

    // ----- Loading

    /** What loading something must achieve: the value decoded, the state reached, the bytes consumed;
        or the error that of the specification comes to in this file. */
    twostate predicate LoadedAs<T>(new r: Result<T, LoadError>, new spec: Result<Read<T>, LoadError>)
      requires old(Loading())
      reads this, Repr, m_File, table
    {
      m_File.m_BufferSize == old(m_File.m_BufferSize) &&
      match spec
      case Failure(e) => r == Failure(Actual(m_File.m_BufferSize, e))
      case Success(d) =>
        r == Success(d.value) && Loading() && fresh(Repr - old(Repr)) && State() == d.state && m_File.Unread() == d.rest
    }

    /** Primitive loads leave the tables as they are. */
    method LoadByte() returns (r: Result<byte, LoadError>)
      requires Loading()
      modifies m_File`m_Pos
      ensures LoadedAs(r, SameState(old(State()), DecodeByte(old(m_File.Unread()))))
    {
      r := ReadByte(m_File);
    }

    method LoadDword() returns (r: Result<nat, LoadError>)
      requires Loading()
      modifies m_File`m_Pos
      ensures LoadedAs(r, SameState(old(State()), DecodeDword(old(m_File.Unread()))))
    {
      r := ReadDword(m_File);
    }

    method LoadCount() returns (r: Result<nat, LoadError>)
      requires Loading()
      modifies m_File`m_Pos
      ensures LoadedAs(r, SameState(old(State()), DecodeCount(old(m_File.Unread()))))
    {
      ghost var s := m_File.Unread();
      r := ReadCount(m_File);
      CountRunsOut(s, 1);
    }

    method LoadText() returns (r: Result<seq<byte>, LoadError>)
      requires Loading()
      modifies m_File`m_Pos
      ensures LoadedAs(r, SameState(old(State()), DecodeString(old(m_File.Unread()))))
    {
      ghost var s := m_File.Unread();
      r := ReadString(m_File);
      StringConsumes(s);
    }

    /** The loop of ReadClass over TypeInfo::m_Types. */
    method SearchClass(name: seq<byte>) returns (found: Option<nat>)
      ensures found == FindClass(types, name, 0)
    {
      var i := 0;
      while i < |types|
        invariant 0 <= i <= |types| && FindClass(types, name, i) == FindClass(types, name, 0)
      {
        if types[i].name == name {
          return Some(i);
        }
        i := i + 1;
      }
      return None;
    }

    method ReadClass() returns (r: Result<nat, LoadError>)
      requires Loading()
      modifies Repr
      ensures LoadedAs(r, ArchiveGraph.ReadClass(types, old(State()), old(m_File.Unread())))
    {
      hide Chains, TypeMapHolds, DecodeString, FindClass, Refused, PaysForObjects;
      if m_ClassCount >= |types| {
        return Failure(TooManyClasses);
      }
      var typeName :- LoadText();
      var found := SearchClass(typeName);
      if found.None? {
        return Failure(UnknownClass(typeName));
      }
      AddClass(found.value);
      return Success(found.value);
    }

    method ReadStoredClass() returns (r: Result<nat, LoadError>)
      requires Loading()
      modifies m_File`m_Pos
      ensures LoadedAs(r, ArchiveGraph.ReadStoredClass(types, old(State()), old(m_File.Unread())))
    {
      var index :- LoadCount();
      if index >= m_ClassCount {
        return Failure(BadClassIndex(index, m_ClassCount));
      }
      assert m_TypeMap[..][index] == m_TypeMap[index];
      return Success(m_TypeMap[index].toCurrent.value);
    }

    /** What the object code says about the class; the player number is read and dropped. */
    method ReadClassOf(code: byte) returns (r: Result<nat, LoadError>)
      requires Loading() && KnownClasses(types, State())
      modifies Repr
      ensures LoadedAs(r, ArchiveGraph.ReadClassOf(types, old(State()), code, old(m_File.Unread())))
    {
      if code == NEW_PLYR_CLS_OBJ || code == NEW_PLYR_OBJ {
        var player :- LoadByte();
      }
      if code == NEW_CLS_OBJ || code == NEW_PLYR_CLS_OBJ {
        r := ReadClass();
      } else if code == NEW_OBJ || code == NEW_PLYR_OBJ {
        r := ReadStoredClass();
      } else {
        r := Failure(UnknownObjectCode(code));
      }
    }

    method ReadOldObject() returns (r: Result<Option<Addr>, LoadError>)
      requires Loading()
      modifies m_File`m_Pos
      ensures LoadedAs(r, ReadOld(old(State()), old(m_File.Unread())))
    {
      var index :- LoadCount();
      if index >= table.m_ObjectCount {
        return Failure(BadObjectIndex(index, table.m_ObjectCount));
      }
      var obj := table.ObjectAt(index);
      return Success(Some(obj));
    }

    /** CreateNew and MapObject. */
    method CreateAndMap(alloc: nat -> Addr, cls: nat) returns (addr: Addr)
      requires Valid() && |table.objects| + 1 < ALL_ONES
      modifies Repr
      ensures Valid() && fresh(Repr - old(Repr))
      ensures State() == Create(alloc, old(State()), cls) && addr == alloc(|old(table.objects)|)
      ensures m_File.Repr == old(m_File.Repr) && unchanged(m_File.Repr)
    {
      addr := alloc(table.m_ObjectCount);
      created := created[addr := Object(Some(cls), [])];
      MapObject(addr);
    }

    /** The fields Serialize has filled in. */
    method SetFields(addr: Addr, cls: nat, values: seq<Value>)
      requires Loading()
      modifies this`created
      ensures Loading() && Repr == old(Repr) && m_File.Unread() == old(m_File.Unread())
      ensures State() == old(State()).(heap := old(created)[addr := Object(Some(cls), values)])
    {
      created := created[addr := Object(Some(cls), values)];
    }

    /** ReadObject */
    method ReadObject(alloc: nat -> Addr, want: Option<nat>) returns (r: Result<Option<Addr>, LoadError>)
      requires Loading() && KnownClasses(types, State())
      modifies Repr
      ensures LoadedAs(r, ReadRef(types, alloc, old(State()), old(m_File.Unread()), want))
      decreases |m_File.Unread()|, 0, 0
    {
      hide Chains, TypeMapHolds, ReadOld, ReadNew, ArchiveGraph.ReadClassOf, Actual, KnownClasses, PaysForObjects;
      var objHead :- LoadByte();
      if objHead == NULL_OBJ {
        r := Success(None);
      } else if objHead == OLD_OBJ {
        r := ReadOldObject();
      } else {
        r := ReadCoded(objHead, alloc, want);
      }
    }

    /** The "new object" cases: the class, then the object. */
    method ReadCoded(code: byte, alloc: nat -> Addr, want: Option<nat>) returns (r: Result<Option<Addr>, LoadError>)
      requires Valid() && m_File.ValidReading() && |table.objects| + |m_File.Unread()| + 3 < ALL_ONES
      requires KnownClasses(types, State())
      modifies Repr
      ensures LoadedAs(r, match ArchiveGraph.ReadClassOf(types, old(State()), code, old(m_File.Unread()))
                          case Failure(e) => Failure(e)
                          case Success(found) => ReadNew(types, alloc, found, want))
      decreases |m_File.Unread()|, 4, 0
    {
      hide Chains, TypeMapHolds, ReadNew, ArchiveGraph.ReadClassOf, Actual, PaysForObjects;
      var cls :- ReadClassOf(code);
      r := ReadNewObject(alloc, cls, want);
    }

    method ReadNewObject(alloc: nat -> Addr, cls: nat, want: Option<nat>) returns (r: Result<Option<Addr>, LoadError>)
      requires Valid() && m_File.ValidReading() && |table.objects| + |m_File.Unread()| + 3 < ALL_ONES
      requires KnownClasses(types, State()) && cls < |types|
      modifies Repr
      ensures LoadedAs(r, ReadNew(types, alloc, Read(cls, old(State()), old(m_File.Unread())), want))
      decreases |m_File.Unread()|, 3, 0
    {
      hide Chains, TypeMapHolds, ArchiveGraph.ReadFields, Refused, PaysForObjects, Descends;
      if !Descends(types, cls, want) {
        return Failure(WrongClass(cls, want));
      }
      var addr := CreateAndMap(alloc, cls);
      var values :- ReadFields(alloc, types[cls].schema);
      SetFields(addr, cls, values);
      return Success(Some(addr));
    }

    /** Serialize, loading. */
    method ReadFields(alloc: nat -> Addr, schema: seq<FieldKind>) returns (r: Result<seq<Value>, LoadError>)
      requires Loading() && KnownClasses(types, State())
      modifies Repr
      ensures LoadedAs(r, ArchiveGraph.ReadFields(types, alloc, old(State()), old(m_File.Unread()), schema))
      decreases |m_File.Unread()|, 2, |schema|
    {
      if schema == [] {
        return Success([]);
      }
      var first :- ReadValue(alloc, schema[0]);
      var others :- ReadFields(alloc, schema[1..]);
      return Success([first] + others);
    }

    method ReadValue(alloc: nat -> Addr, kind: FieldKind) returns (r: Result<Value, LoadError>)
      requires Loading() && KnownClasses(types, State())
      modifies Repr
      ensures LoadedAs(r, ArchiveGraph.ReadValue(types, alloc, old(State()), old(m_File.Unread()), kind))
      decreases |m_File.Unread()|, 1, 0
    {
      match kind
      case ByteField =>
        var b :- LoadByte();
        return Success(ByteValue(b));
      case DwordField =>
        var w :- LoadDword();
        return Success(DwordValue(w));
      case StringField =>
        var text :- LoadText();
        return Success(StringValue(text));
      case RefField(want) =>
        var ref :- ReadObject(alloc, want);
        return Success(RefValue(ref));
    }
  }
}
