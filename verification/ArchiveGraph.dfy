/** The object-graph archive of common/farchive.cpp as a pair of functions: what the depth-first
    writer appends for a reference, and what the reader makes of those bytes. */
module ArchiveGraph {
  import opened Wrappers
  import opened ArchiveBytes

  type Addr = nat
  type Dword = n: nat | n < DWORD_LIMIT

  // ----- Objects and classes

  /** What Serialize does with one field; a reference names the class its target must descend from,
      `None` standing for DObject itself. */
  datatype FieldKind = ByteField | DwordField | StringField | RefField(want: Option<nat>)

  datatype Value =
    | ByteValue(b: byte)
    | DwordValue(w: Dword)
    | StringValue(text: seq<byte>)
    | RefValue(target: Option<Addr>)

  /** An instance; `cls` is its TypeIndex, or `None` for an exact DObject. */
  datatype Object = Object(cls: Option<nat>, fields: seq<Value>)

  type Heap = map<Addr, Object>

  /** A registered class: its name, the indices of itself and its ancestors, and what Serialize archives. */
  datatype TypeInfo = TypeInfo(name: seq<byte>, lineage: set<nat>, schema: seq<FieldKind>)

  type Registry = seq<TypeInfo>

  predicate Descends(types: Registry, cls: nat, want: Option<nat>)
    requires cls < |types|
  {
    want.None? || want.value in types[cls].lineage
  }

  /** Class names are C strings and no two classes share one, so FindClass finds what was written. */
  ghost predicate ValidRegistry(types: Registry) {
    |types| < DWORD_LIMIT - 1 &&
    (forall i :: 0 <= i < |types| ==> NulFree(types[i].name) && |types[i].name| + 1 < DWORD_LIMIT) &&
    (forall i, j :: 0 <= i < j < |types| ==> types[i].name != types[j].name)
  }

  /** A field can be archived as its kind: pointers are null or valid and point to the declared class. */
  ghost predicate FitsKind(types: Registry, heap: Heap, value: Value, kind: FieldKind) {
    match kind
    case ByteField => value.ByteValue?
    case DwordField => value.DwordValue?
    case StringField => value.StringValue? && NulFree(value.text) && |value.text| + 1 < DWORD_LIMIT
    case RefField(want) => value.RefValue? && FitsRef(types, heap, value.target, want)
  }

  ghost predicate FitsRef(types: Registry, heap: Heap, target: Option<Addr>, want: Option<nat>) {
    target.Some? ==>
      target.value in heap &&
      var cls := heap[target.value].cls;
      cls.Some? ==> cls.value < |types| && Descends(types, cls.value, want)
  }

  ghost predicate FitsSchema(types: Registry, heap: Heap, fields: seq<Value>, schema: seq<FieldKind>) {
    |fields| == |schema| &&
    forall i :: 0 <= i < |fields| ==> FitsKind(types, heap, fields[i], schema[i])
  }

  ghost predicate Storable(types: Registry, heap: Heap) {
    ValidRegistry(types) && |heap| < DWORD_LIMIT - 1 &&
    forall a :: a in heap && heap[a].cls.Some? ==>
      heap[a].cls.value < |types| && FitsSchema(types, heap, heap[a].fields, types[heap[a].cls.value].schema)
  }

  // ----- The tables writer and reader keep

  /** m_ObjectMap and the toCurrent half of m_TypeMap, in the order their entries were made. */
  datatype Tables = Tables(objects: seq<Addr>, classes: seq<nat>)

  /** The last index at which x occurs. */
  function Position<T(==)>(s: seq<T>, x: T): (r: Option<nat>)
    ensures r.Some? ==> r.value < |s| && s[r.value] == x
    ensures r.Some? <==> x in s
    decreases |s|
  {
    if s == [] then None
    else if s[|s| - 1] == x then Some(|s| - 1)
    else
      var r := Position(s[..|s| - 1], x);
      assert s == s[..|s| - 1] + [s[|s| - 1]];
      r
  }

  ghost predicate Distinct<T>(s: seq<T>) {
    forall i, j :: 0 <= i < j < |s| ==> s[i] != s[j]
  }

  /** No object or class is in its table twice, and the class of every mapped object is in the class table. */
  ghost predicate Consistent(types: Registry, heap: Heap, t: Tables) {
    Distinct(t.objects) && Distinct(t.classes) &&
    (forall c :: c in t.classes ==> c < |types|) &&
    (forall a :: a in t.objects ==> a in heap && heap[a].cls.Some? && heap[a].cls.value in t.classes)
  }

  ghost predicate Extends(t: Tables, t': Tables) {
    t.objects <= t'.objects && t.classes <= t'.classes
  }

  ghost function Unmapped(heap: Heap, t: Tables): set<Addr> {
    set a | a in heap && a !in t.objects
  }

  // ----- Writing

  const NEW_OBJ: byte := 1
  const NEW_CLS_OBJ: byte := 2
  const OLD_OBJ: byte := 3
  const NULL_OBJ: byte := 4
  const NEW_PLYR_OBJ: byte := 5
  const NEW_PLYR_CLS_OBJ: byte := 6

  /** The object code, followed by the player number when the object is the actor of a player. */
  function ObjectCode(players: map<Addr, byte>, a: Addr, plain: byte, ofPlayer: byte): seq<byte> {
    if a in players then [ofPlayer, players[a]] else [plain]
  }

  /** The table entries of a new object, made before its fields are archived. */
  function AddObject(heap: Heap, t: Tables, a: Addr): Tables
    requires a in heap && heap[a].cls.Some?
  {
    Tables(t.objects + [a], if heap[a].cls.value in t.classes then t.classes else t.classes + [heap[a].cls.value])
  }

  /** What precedes the fields of the first object of a class, which carries the name of the class. */
  function ClassHeader(players: map<Addr, byte>, a: Addr, name: seq<byte>): seq<byte>
    requires |name| + 1 < DWORD_LIMIT
  {
    ObjectCode(players, a, NEW_CLS_OBJ, NEW_PLYR_CLS_OBJ) + EncodeString(Some(name))
  }

  /** A later object carries the archive index of its class instead. */
  function IndexHeader(players: map<Addr, byte>, a: Addr, index: nat): seq<byte> {
    ObjectCode(players, a, NEW_OBJ, NEW_PLYR_OBJ) + EncodeCount(index)
  }

  /** The header of a new object. */
  function NewHeader(types: Registry, heap: Heap, players: map<Addr, byte>, t: Tables, a: Addr): seq<byte>
    requires a in heap && heap[a].cls.Some? && heap[a].cls.value < |types|
    requires |types[heap[a].cls.value].name| + 1 < DWORD_LIMIT
  {
    var cls := heap[a].cls.value;
    if cls !in t.classes then ClassHeader(players, a, types[cls].name)
    else IndexHeader(players, a, Position(t.classes, cls).value)
  }

  /** Mapping an object leaves fewer objects to map; this is why the writer terminates on cyclic graphs. */
  lemma MapNew(types: Registry, heap: Heap, t: Tables, a: Addr)
    requires Storable(types, heap) && Consistent(types, heap, t)
    requires a in heap && heap[a].cls.Some? && a !in t.objects
    ensures var t1 := AddObject(heap, t, a);
            Consistent(types, heap, t1) && Extends(t, t1) && Unmapped(heap, t1) < Unmapped(heap, t)
    ensures forall v :: v in heap[a].fields ==> CanWrite(heap, v)
  {
    assert a in Unmapped(heap, t) && a !in Unmapped(heap, AddObject(heap, t, a));
    var cls := heap[a].cls.value;
    forall v | v in heap[a].fields
      ensures CanWrite(heap, v)
    {
      var i :| 0 <= i < |heap[a].fields| && heap[a].fields[i] == v;
      assert FitsKind(types, heap, heap[a].fields[i], types[cls].schema[i]);
    }
  }

  datatype Written = Written(tables: Tables, bytes: seq<byte>)

  /** operator<< (DObject *) */
  ghost function WriteRef(types: Registry, heap: Heap, players: map<Addr, byte>, t: Tables, ref: Option<Addr>)
    : (w: Written)
    requires Storable(types, heap) && Consistent(types, heap, t)
    requires ref.Some? ==> ref.value in heap
    ensures Consistent(types, heap, w.tables) && Extends(t, w.tables)
    ensures Unmapped(heap, w.tables) <= Unmapped(heap, t)
    decreases Unmapped(heap, t), 1, 0
  {
    if ref.None? || heap[ref.value].cls.None? then Written(t, [NULL_OBJ])
    else if heap[ref.value].cls.value in t.classes && ref.value in t.objects then
      Written(t, [OLD_OBJ] + EncodeCount(Position(t.objects, ref.value).value))
    else
      var t1 := AddObject(heap, t, ref.value);
      MapNew(types, heap, t, ref.value);
      var body := WriteFields(types, heap, players, t1, heap[ref.value].fields);
      Written(body.tables, NewHeader(types, heap, players, t, ref.value) + body.bytes)
  }

  /** The Serialize method of an object, field by field. */
  ghost function WriteFields(types: Registry, heap: Heap, players: map<Addr, byte>, t: Tables, fields: seq<Value>)
    : (w: Written)
    requires Storable(types, heap) && Consistent(types, heap, t)
    requires forall v :: v in fields ==> CanWrite(heap, v)
    ensures Consistent(types, heap, w.tables) && Extends(t, w.tables)
    ensures Unmapped(heap, w.tables) <= Unmapped(heap, t)
    decreases Unmapped(heap, t), 2, |fields|
  {
    if fields == [] then Written(t, []) else
      var first := WriteValue(types, heap, players, t, fields[0]);
      var others := WriteFields(types, heap, players, first.tables, fields[1..]);
      Written(others.tables, first.bytes + others.bytes)
  }

  ghost predicate CanWrite(heap: Heap, value: Value) {
    match value
    case StringValue(text) => |text| + 1 < DWORD_LIMIT
    case RefValue(target) => target.Some? ==> target.value in heap
    case _ => true
  }

  ghost function WriteValue(types: Registry, heap: Heap, players: map<Addr, byte>, t: Tables, value: Value)
    : (w: Written)
    requires Storable(types, heap) && Consistent(types, heap, t) && CanWrite(heap, value)
    ensures Consistent(types, heap, w.tables) && Extends(t, w.tables)
    ensures Unmapped(heap, w.tables) <= Unmapped(heap, t)
    decreases Unmapped(heap, t), 1, 1
  {
    match value
    case ByteValue(b) => Written(t, [b])
    case DwordValue(w) => Written(t, EncodeDword(w))
    case StringValue(text) => Written(t, EncodeString(Some(text)))
    case RefValue(target) => WriteRef(types, heap, players, t, target)
  }

  // ----- Reading

  /** What the reader has built: its tables, and the objects it has created. */
  datatype Loaded = Loaded(tables: Tables, heap: Heap)

  datatype Read<+T> = Read(value: T, state: Loaded, rest: seq<byte>)

  /** TypeInfo::m_Types searched by name. */
  function FindClass(types: Registry, name: seq<byte>, from: nat): (r: Option<nat>)
    requires from <= |types|
    ensures r.Some? ==> from <= r.value < |types| && types[r.value].name == name
    ensures r.None? ==> forall i :: from <= i < |types| ==> types[i].name != name
    decreases |types| - from
  {
    if from == |types| then None
    else if types[from].name == name then Some(from)
    else FindClass(types, name, from + 1)
  }

  /** ReadClass: a class seen for the first time gets the next archive index. */
  function ReadClass(types: Registry, st: Loaded, s: seq<byte>): (r: Result<Read<nat>, LoadError>)
    ensures r.Success? ==> |r.value.rest| <= |s| && r.value.value < |types|
    ensures r.Success? ==> r.value.state.tables.objects == st.tables.objects
  {
    if |st.tables.classes| >= |types| then Failure(TooManyClasses) else
      match DecodeString(s)
      case Failure(e) => Failure(e)
      case Success(name) =>
        StringConsumes(s);
        match FindClass(types, name.value, 0)
        case None => Failure(UnknownClass(name.value))
        case Some(cls) =>
          Success(Read(cls, st.(tables := st.tables.(classes := st.tables.classes + [cls])), name.rest))
  }

  /** ReadStoredClass: a class seen before, by archive index. */
  function ReadStoredClass(types: Registry, st: Loaded, s: seq<byte>): (r: Result<Read<nat>, LoadError>)
    ensures r.Success? ==> |r.value.rest| <= |s| && r.value.value in st.tables.classes && r.value.state == st
  {
    match DecodeCount(s)
    case Failure(e) => Failure(e)
    case Success(index) =>
      CountRunsOut(s, 1);
      if index.value >= |st.tables.classes| then Failure(BadClassIndex(index.value, |st.tables.classes|))
      else Success(Read(st.tables.classes[index.value], st, index.rest))
  }

  lemma StringConsumes(s: seq<byte>)
    ensures var r := DecodeString(s); r.Success? ==> |r.value.rest| < |s|
  {
    CountRunsOut(s, 1);
  }

  /** Mapping an object costs at least one byte of input. */
  ghost predicate PaysForObjects(st: Loaded, s: seq<byte>, after: Loaded, rest: seq<byte>) {
    |after.tables.objects| + |rest| <= |st.tables.objects| + |s|
  }

  ghost predicate KnownClasses(types: Registry, st: Loaded) {
    forall c :: c in st.tables.classes ==> c < |types|
  }

  /** What each "new object" code says about the class. With hub travel off the player number is
      read and ignored. */
  function ReadClassOf(types: Registry, st: Loaded, code: byte, s: seq<byte>): (r: Result<Read<nat>, LoadError>)
    requires KnownClasses(types, st)
    ensures r.Success? ==>
      KnownClasses(types, r.value.state) && r.value.value < |types| && |r.value.rest| <= |s| &&
      r.value.state.tables.objects == st.tables.objects
  {
    if code == NEW_CLS_OBJ then ReadClass(types, st, s)
    else if code == NEW_OBJ then ReadStoredClass(types, st, s)
    else if code == NEW_PLYR_CLS_OBJ || code == NEW_PLYR_OBJ then
      match DecodeByte(s)
      case Failure(e) => Failure(e)
      case Success(player) =>
        if code == NEW_PLYR_CLS_OBJ then ReadClass(types, st, player.rest)
        else ReadStoredClass(types, st, player.rest)
    else Failure(UnknownObjectCode(code))
  }

  /** ReadObject. */
  function ReadRef(types: Registry, alloc: nat -> Addr, st: Loaded, s: seq<byte>, want: Option<nat>)
    : (r: Result<Read<Option<Addr>>, LoadError>)
    requires KnownClasses(types, st)
    ensures r.Success? ==> KnownClasses(types, r.value.state) && |r.value.rest| < |s|
    ensures r.Success? ==> PaysForObjects(st, s, r.value.state, r.value.rest)
    decreases |s|, 0, 0
  {
    match DecodeByte(s)
    case Failure(e) => Failure(e)
    case Success(code) =>
      if code.value == NULL_OBJ then Success(Read(None, st, code.rest))
      else if code.value == OLD_OBJ then ReadOld(st, code.rest)
      else
        match ReadClassOf(types, st, code.value, code.rest)
        case Failure(e) => Failure(e)
        case Success(found) => ReadNew(types, alloc, found, want)
  }

  /** A reference to an object that is already in the table. */
  function ReadOld(st: Loaded, s: seq<byte>): (r: Result<Read<Option<Addr>>, LoadError>)
    ensures r.Success? ==> r.value.state == st && |r.value.rest| < |s|
  {
    match DecodeCount(s)
    case Failure(e) => Failure(e)
    case Success(index) =>
      CountRunsOut(s, 1);
      if index.value >= |st.tables.objects| then Failure(BadObjectIndex(index.value, |st.tables.objects|))
      else Success(Read(Some(st.tables.objects[index.value]), st, index.rest))
  }

  /** CreateNew and MapObject: the k-th object created gets the address alloc(k). */
  function Create(alloc: nat -> Addr, st: Loaded, cls: nat): Loaded {
    var addr := alloc(|st.tables.objects|);
    Loaded(st.tables.(objects := st.tables.objects + [addr]), st.heap[addr := Object(Some(cls), [])])
  }

  /** The class check, CreateNew, MapObject and Serialize at the end of both "new object" cases. */
  function ReadNew(types: Registry, alloc: nat -> Addr, found: Read<nat>, want: Option<nat>)
    : (r: Result<Read<Option<Addr>>, LoadError>)
    requires KnownClasses(types, found.state) && found.value < |types|
    ensures r.Success? ==> KnownClasses(types, r.value.state) && |r.value.rest| <= |found.rest|
    ensures r.Success? ==>
      |r.value.state.tables.objects| + |r.value.rest| <= |found.state.tables.objects| + 1 + |found.rest|
    decreases |found.rest|, 3, 0
  {
    if !Descends(types, found.value, want) then Failure(WrongClass(found.value, want)) else
      var addr := alloc(|found.state.tables.objects|);
      match ReadFields(types, alloc, Create(alloc, found.state, found.value), found.rest, types[found.value].schema)
      case Failure(e) => Failure(e)
      case Success(body) =>
        Success(Read(Some(addr),
                     body.state.(heap := body.state.heap[addr := Object(Some(found.value), body.value)]),
                     body.rest))
  }

  function ReadFields(types: Registry, alloc: nat -> Addr, st: Loaded, s: seq<byte>, schema: seq<FieldKind>)
    : (r: Result<Read<seq<Value>>, LoadError>)
    requires KnownClasses(types, st)
    ensures r.Success? ==> KnownClasses(types, r.value.state) && |r.value.rest| <= |s|
    ensures r.Success? ==> PaysForObjects(st, s, r.value.state, r.value.rest)
    decreases |s|, 2, |schema|
  {
    if schema == [] then Success(Read([], st, s)) else
      match ReadValue(types, alloc, st, s, schema[0])
      case Failure(e) => Failure(e)
      case Success(first) =>
        match ReadFields(types, alloc, first.state, first.rest, schema[1..])
        case Failure(e) => Failure(e)
        case Success(others) => Success(Read([first.value] + others.value, others.state, others.rest))
  }

  function ReadValue(types: Registry, alloc: nat -> Addr, st: Loaded, s: seq<byte>, kind: FieldKind)
    : (r: Result<Read<Value>, LoadError>)
    requires KnownClasses(types, st)
    ensures r.Success? ==> KnownClasses(types, r.value.state) && |r.value.rest| < |s|
    ensures r.Success? ==> PaysForObjects(st, s, r.value.state, r.value.rest)
    decreases |s|, 1, 0
  {
    match kind
    case ByteField =>
      (match DecodeByte(s)
       case Failure(e) => Failure(e)
       case Success(b) => Success(Read(ByteValue(b.value), st, b.rest)))
    case DwordField =>
      (match DecodeDword(s)
       case Failure(e) => Failure(e)
       case Success(w) => Success(Read(DwordValue(w.value), st, w.rest)))
    case StringField =>
      StringConsumes(s);
      (match DecodeString(s)
       case Failure(e) => Failure(e)
       case Success(text) => Success(Read(StringValue(text.value), st, text.rest)))
    case RefField(want) =>
      (match ReadRef(types, alloc, st, s, want)
       case Failure(e) => Failure(e)
       case Success(ref) => Success(Read(RefValue(ref.value), ref.state, ref.rest)))
  }
}
