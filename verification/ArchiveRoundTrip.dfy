/** Reading back what was written gives an isomorphic object graph: common/farchive.cpp assigns the
    same object and class indices on both sides because both map an object before its fields. */
module ArchiveRoundTrip {
  import opened Wrappers
  import opened ArchiveBytes
  import opened ArchiveGraph

  // ----- How loaded objects correspond to stored ones

  /** The loaded counterpart of a pointer: null for null and for exact DObjects. */
  function Image(heap: Heap, alloc: nat -> Addr, t: Tables, ref: Option<Addr>): Option<Addr> {
    if ref.None? || ref.value !in heap || heap[ref.value].cls.None? then None
    else
      match Position(t.objects, ref.value)
      case None => None
      case Some(i) => Some(alloc(i))
  }

  function ImageValue(heap: Heap, alloc: nat -> Addr, t: Tables, v: Value): Value {
    if v.RefValue? then RefValue(Image(heap, alloc, t, v.target)) else v
  }

  function ImageFields(heap: Heap, alloc: nat -> Addr, t: Tables, fields: seq<Value>): (r: seq<Value>)
    ensures |r| == |fields|
    ensures forall i :: 0 <= i < |fields| ==> r[i] == ImageValue(heap, alloc, t, fields[i])
  {
    seq(|fields|, i requires 0 <= i < |fields| => ImageValue(heap, alloc, t, fields[i]))
  }

  function ImageObject(heap: Heap, alloc: nat -> Addr, t: Tables, o: Object): Object {
    Object(o.cls, ImageFields(heap, alloc, t, o.fields))
  }

  /** Everything a value points to is in the table (exact DObjects are never mapped). */
  predicate Resolved(heap: Heap, t: Tables, v: Value) {
    v.RefValue? && v.target.Some? && v.target.value in heap && heap[v.target.value].cls.Some? ==>
      v.target.value in t.objects
  }

  ghost predicate Injective(alloc: nat -> Addr) {
    forall i: nat, j: nat :: alloc(i) == alloc(j) ==> i == j
  }

  /** Writer and reader tables in step. */
  ghost predicate InStep(alloc: nat -> Addr, t: Tables, st: Loaded) {
    st.tables.classes == t.classes && |st.tables.objects| == |t.objects| &&
    forall i :: 0 <= i < |t.objects| ==> st.tables.objects[i] == alloc(i)
  }

  ghost function Created(alloc: nat -> Addr, from: nat, to: nat): set<Addr> {
    set i: nat | from <= i < to :: alloc(i)
  }

  /** Between two heaps exactly the objects with indices from `from` on were built, each as the image of
      its original, and everything they point to is mapped. */
  ghost predicate Built(heap: Heap, alloc: nat -> Addr, t: Tables, before: Heap, after: Heap, from: nat)
    requires forall a :: a in t.objects ==> a in heap
  {
    && after.Keys == before.Keys + Created(alloc, from, |t.objects|)
    && (forall x :: x in before && x !in Created(alloc, from, |t.objects|) ==> after[x] == before[x])
    && (forall i: nat :: from <= i < |t.objects| ==>
          alloc(i) in after && after[alloc(i)] == ImageObject(heap, alloc, t, heap[t.objects[i]]))
    && (forall i: nat, v :: from <= i < |t.objects| && v in heap[t.objects[i]].fields ==> Resolved(heap, t, v))
  }

  // ----- Later objects do not change earlier images

  lemma {:induction false} PositionUnique<T>(s: seq<T>, x: T, i: nat)
    requires Distinct(s) && i < |s| && s[i] == x
    ensures Position(s, x) == Some(i)
  {
    var p := Position(s, x);
    assert x in s;
  }

  lemma ImageStable(types: Registry, heap: Heap, alloc: nat -> Addr, t: Tables, t': Tables, v: Value)
    requires Consistent(types, heap, t) && Consistent(types, heap, t') && Extends(t, t')
    requires Resolved(heap, t, v)
    ensures ImageValue(heap, alloc, t, v) == ImageValue(heap, alloc, t', v)
    ensures Resolved(heap, t', v)
  {
    if v.RefValue? && v.target.Some? && v.target.value in heap && heap[v.target.value].cls.Some? {
      var a := v.target.value;
      var i :| 0 <= i < |t.objects| && t.objects[i] == a;
      PositionUnique(t.objects, a, i);
      PositionUnique(t'.objects, a, i);
    }
  }

  lemma ImageFieldsStable(types: Registry, heap: Heap, alloc: nat -> Addr, t: Tables, t': Tables, fields: seq<Value>)
    requires Consistent(types, heap, t) && Consistent(types, heap, t') && Extends(t, t')
    requires forall v :: v in fields ==> Resolved(heap, t, v)
    ensures ImageFields(heap, alloc, t, fields) == ImageFields(heap, alloc, t', fields)
  {
    forall i | 0 <= i < |fields|
      ensures ImageValue(heap, alloc, t, fields[i]) == ImageValue(heap, alloc, t', fields[i])
    {
      ImageStable(types, heap, alloc, t, t', fields[i]);
    }
  }

  /** Two consecutive building steps are one. */
  lemma BuiltCompose(types: Registry, heap: Heap, alloc: nat -> Addr, t: Tables, t': Tables,
                     h0: Heap, h1: Heap, h2: Heap, from: nat)
    requires Consistent(types, heap, t) && Consistent(types, heap, t') && Extends(t, t')
    requires Injective(alloc) && from <= |t.objects|
    requires Built(heap, alloc, t, h0, h1, from) && Built(heap, alloc, t', h1, h2, |t.objects|)
    ensures Built(heap, alloc, t', h0, h2, from)
  {
    assert Created(alloc, from, |t'.objects|) ==
           Created(alloc, from, |t.objects|) + Created(alloc, |t.objects|, |t'.objects|);
    forall i: nat | from <= i < |t'.objects|
      ensures alloc(i) in h2 && h2[alloc(i)] == ImageObject(heap, alloc, t', heap[t'.objects[i]])
      ensures forall v :: v in heap[t'.objects[i]].fields ==> Resolved(heap, t', v)
    {
      if i < |t.objects| {
        assert alloc(i) !in Created(alloc, |t.objects|, |t'.objects|);
        ImageFieldsStable(types, heap, alloc, t, t', heap[t.objects[i]].fields);
        forall v | v in heap[t'.objects[i]].fields
          ensures Resolved(heap, t', v)
        {
          ImageStable(types, heap, alloc, t, t', v);
        }
      }
    }
  }

  /** Building the fields of a fresh object and then filling it in is one building step. */
  lemma BuiltNew(types: Registry, heap: Heap, alloc: nat -> Addr, t: Tables, t': Tables,
                 h0: Heap, h1: Heap, h2: Heap, a: Addr)
    requires Consistent(types, heap, t') && Injective(alloc)
    requires t.objects + [a] <= t'.objects
    requires a in heap && heap[a].cls.Some?
    requires h1.Keys == h0.Keys + {alloc(|t.objects|)}
    requires forall x :: x in h0 && x != alloc(|t.objects|) ==> h1[x] == h0[x]
    requires Built(heap, alloc, t', h1, h2, |t.objects| + 1)
    requires forall v :: v in heap[a].fields ==> Resolved(heap, t', v)
    ensures Built(heap, alloc, t', h0, h2[alloc(|t.objects|) := ImageObject(heap, alloc, t', heap[a])], |t.objects|)
  {
    var n := |t.objects|;
    assert Created(alloc, n, |t'.objects|) == {alloc(n)} + Created(alloc, n + 1, |t'.objects|);
    assert t'.objects[n] == a;
  }

  // ----- The headers of new objects

  /** Distinct numbers below n are at most n of them, so the class table never overflows. */
  lemma {:induction false} DistinctBelow(s: seq<nat>, n: nat)
    requires Distinct(s) && forall c :: c in s ==> c < n
    ensures |s| <= n
    decreases n
  {
    if s == [] {
    } else {
      assert s[0] in s;
      if n - 1 in s {
        var i :| 0 <= i < |s| && s[i] == n - 1;
        var s' := s[..i] + s[i + 1..];
        forall c | c in s'
          ensures c < n - 1
        {
          var j :| 0 <= j < |s'| && s'[j] == c;
          var k := if j < i then j else j + 1;
          assert c == s[k] && s[k] in s && s[k] != s[i];
        }
        DistinctBelow(s', n - 1);
      } else {
        DistinctBelow(s, n - 1);
      }
    }
  }

  lemma RoomForClass(types: Registry, classes: seq<nat>, cls: nat)
    requires Distinct(classes) && (forall c :: c in classes ==> c < |types|)
    requires cls < |types| && cls !in classes
    ensures |classes| < |types|
  {
    DistinctBelow(classes + [cls], |types|);
  }

  lemma ReadClassRoundTrip(types: Registry, st: Loaded, cls: nat, rest: seq<byte>)
    requires ValidRegistry(types) && KnownClasses(types, st) && Distinct(st.tables.classes)
    requires cls < |types| && cls !in st.tables.classes
    ensures ReadClass(types, st, EncodeString(Some(types[cls].name)) + rest) ==
            Success(Read(cls, st.(tables := st.tables.(classes := st.tables.classes + [cls])), rest))
  {
    RoomForClass(types, st.tables.classes, cls);
    StringRoundTrip(types[cls].name, rest);
    var found := FindClass(types, types[cls].name, 0);
    assert found == Some(cls);
  }

  lemma ReadStoredClassRoundTrip(types: Registry, st: Loaded, cls: nat, rest: seq<byte>)
    requires cls in st.tables.classes && |st.tables.classes| < DWORD_LIMIT
    ensures ReadStoredClass(types, st, EncodeCount(Position(st.tables.classes, cls).value) + rest) ==
            Success(Read(cls, st, rest))
  {
    CountRoundTrip(Position(st.tables.classes, cls).value, rest);
  }

  /** Plain or with a player number in front, a "new object" header names the class. */
  lemma HeaderRoundTrip(types: Registry, players: map<Addr, byte>, st: Loaded, a: Addr, plain: byte, ofPlayer: byte,
                        more: seq<byte>)
    requires KnownClasses(types, st)
    requires (plain == NEW_CLS_OBJ && ofPlayer == NEW_PLYR_CLS_OBJ) || (plain == NEW_OBJ && ofPlayer == NEW_PLYR_OBJ)
    ensures var s := ObjectCode(players, a, plain, ofPlayer) + more;
            s != [] && s[0] != NULL_OBJ && s[0] != OLD_OBJ &&
            ReadClassOf(types, st, s[0], s[1..]) ==
            if plain == NEW_CLS_OBJ then ReadClass(types, st, more) else ReadStoredClass(types, st, more)
  {
    var s := ObjectCode(players, a, plain, ofPlayer) + more;
    if a in players {
      assert s[1..] == [players[a]] + more;
      assert ([players[a]] + more)[1..] == more;
    } else {
      assert s[1..] == more;
    }
  }

  // ----- The simulation

  /** What a load of something written must achieve: the image of it, tables in step, and the objects built. */
  ghost predicate Faithful<T>(heap: Heap, alloc: nat -> Addr, from: nat, st: Loaded, t: Tables,
                              r: Result<Read<T>, LoadError>, value: T, rest: seq<byte>)
    requires forall a :: a in t.objects ==> a in heap
  {
    r.Success? && r.value.value == value && r.value.rest == rest && InStep(alloc, t, r.value.state) &&
    Built(heap, alloc, t, st.heap, r.value.state.heap, from)
  }

  lemma {:induction false} RoundTripRef(types: Registry, heap: Heap, players: map<Addr, byte>, alloc: nat -> Addr,
                                        t: Tables, st: Loaded, ref: Option<Addr>, want: Option<nat>, rest: seq<byte>)
    requires Storable(types, heap) && Consistent(types, heap, t) && Injective(alloc)
    requires KnownClasses(types, st) && InStep(alloc, t, st)
    requires FitsRef(types, heap, ref, want)
    ensures var w := WriteRef(types, heap, players, t, ref);
            Resolved(heap, w.tables, RefValue(ref)) &&
            Faithful(heap, alloc, |t.objects|, st, w.tables, ReadRef(types, alloc, st, w.bytes + rest, want),
                     Image(heap, alloc, w.tables, ref), rest)
    decreases Unmapped(heap, t), 1, 0
  {
    if ref.None? || heap[ref.value].cls.None? {
      RoundTripNull(heap, types, alloc, t, st, want, rest);
    } else if ref.value in t.objects {
      RoundTripOld(types, heap, alloc, t, st, ref.value, want, rest);
    } else {
      RoundTripNew(types, heap, players, alloc, t, st, ref.value, want, rest);
    }
  }

  lemma RoundTripNull(heap: Heap, types: Registry, alloc: nat -> Addr, t: Tables, st: Loaded, want: Option<nat>,
                      rest: seq<byte>)
    requires Storable(types, heap) && Consistent(types, heap, t) && KnownClasses(types, st) && InStep(alloc, t, st)
    ensures Faithful(heap, alloc, |t.objects|, st, t, ReadRef(types, alloc, st, [NULL_OBJ] + rest, want), None, rest)
  {
    assert ([NULL_OBJ] + rest)[1..] == rest;
  }

  /** The bytes of a new object: its header, then its fields with the object already mapped. */
  lemma WriteNewIs(types: Registry, heap: Heap, players: map<Addr, byte>, t: Tables, a: Addr)
    requires Storable(types, heap) && Consistent(types, heap, t)
    requires a in heap && heap[a].cls.Some? && a !in t.objects
    ensures Consistent(types, heap, AddObject(heap, t, a)) && forall v :: v in heap[a].fields ==> CanWrite(heap, v)
    ensures Unmapped(heap, AddObject(heap, t, a)) < Unmapped(heap, t)
    ensures var body := WriteFields(types, heap, players, AddObject(heap, t, a), heap[a].fields);
            WriteRef(types, heap, players, t, Some(a)) ==
            Written(body.tables, NewHeader(types, heap, players, t, a) + body.bytes)
  {
    MapNew(types, heap, t, a);
  }

  lemma RoundTripOld(types: Registry, heap: Heap, alloc: nat -> Addr, t: Tables, st: Loaded, a: Addr,
                     want: Option<nat>, rest: seq<byte>)
    requires Storable(types, heap) && Consistent(types, heap, t) && KnownClasses(types, st) && InStep(alloc, t, st)
    requires a in t.objects
    ensures Faithful(heap, alloc, |t.objects|, st, t,
                     ReadRef(types, alloc, st, [OLD_OBJ] + EncodeCount(Position(t.objects, a).value) + rest, want),
                     Image(heap, alloc, t, Some(a)), rest)
  {
    var index := Position(t.objects, a).value;
    var s := [OLD_OBJ] + EncodeCount(index) + rest;
    ObjectCountFits(types, heap, t);
    assert s[1..] == EncodeCount(index) + rest;
    CountRoundTrip(index, rest);
  }

  /** There are fewer mapped objects than 2^32. */
  lemma ObjectCountFits(types: Registry, heap: Heap, t: Tables)
    requires Storable(types, heap) && Consistent(types, heap, t)
    ensures |t.objects| < DWORD_LIMIT
  {
    DistinctInSet(t.objects, heap.Keys);
  }

  lemma {:induction false} DistinctInSet(s: seq<Addr>, all: set<Addr>)
    requires Distinct(s) && forall a :: a in s ==> a in all
    ensures |s| <= |all|
    decreases |s|
  {
    if s == [] {
    } else {
      var last := s[|s| - 1];
      assert forall a :: a in s[..|s| - 1] ==> a in s && a != last;
      DistinctInSet(s[..|s| - 1], all - {last});
    }
  }

  /** The header of a new object leads the reader to the right class, with the class tables in step. */
  lemma NewHeaderRoundTrip(types: Registry, heap: Heap, players: map<Addr, byte>, alloc: nat -> Addr, t: Tables,
                           st: Loaded, a: Addr, want: Option<nat>, more: seq<byte>)
    requires Storable(types, heap) && Consistent(types, heap, t) && KnownClasses(types, st) && InStep(alloc, t, st)
    requires a in heap && heap[a].cls.Some? && a !in t.objects
    ensures var st' := st.(tables := st.tables.(classes := AddObject(heap, t, a).classes));
            KnownClasses(types, st') &&
            ReadRef(types, alloc, st, NewHeader(types, heap, players, t, a) + more, want) ==
            ReadNew(types, alloc, Read(heap[a].cls.value, st', more), want)
  {
    var cls := heap[a].cls.value;
    DistinctBelow(t.classes, |types|);
    if cls !in t.classes {
      var code, name := ObjectCode(players, a, NEW_CLS_OBJ, NEW_PLYR_CLS_OBJ), EncodeString(Some(types[cls].name));
      ConcatAssociates(code, name, more);
      HeaderRoundTrip(types, players, st, a, NEW_CLS_OBJ, NEW_PLYR_CLS_OBJ, name + more);
      ReadClassRoundTrip(types, st, cls, more);
    } else {
      var code, index := ObjectCode(players, a, NEW_OBJ, NEW_PLYR_OBJ), EncodeCount(Position(t.classes, cls).value);
      ConcatAssociates(code, index, more);
      HeaderRoundTrip(types, players, st, a, NEW_OBJ, NEW_PLYR_OBJ, index + more);
      ReadStoredClassRoundTrip(types, st, cls, more);
    }
  }

  /** Filling in a created object whose fields were loaded faithfully is faithful. */
  lemma FinishNew(types: Registry, heap: Heap, alloc: nat -> Addr, t: Tables, t': Tables, st: Loaded,
                  found: Read<nat>, a: Addr, want: Option<nat>, rest: seq<byte>)
    requires Consistent(types, heap, t') && Injective(alloc) && KnownClasses(types, found.state)
    requires InStep(alloc, t, st) && found.state.heap == st.heap && found.state.tables.objects == st.tables.objects
    requires a in heap && heap[a].cls == Some(found.value) && found.value < |types|
    requires Descends(types, found.value, want)
    requires t.objects + [a] <= t'.objects
    requires forall v :: v in heap[a].fields ==> Resolved(heap, t', v)
    requires var created := Create(alloc, found.state, found.value);
             Faithful(heap, alloc, |t.objects| + 1, created, t',
                      ReadFields(types, alloc, created, found.rest, types[found.value].schema),
                      ImageFields(heap, alloc, t', heap[a].fields), rest)
    ensures Faithful(heap, alloc, |t.objects|, st, t', ReadNew(types, alloc, found, want),
                     Image(heap, alloc, t', Some(a)), rest)
  {
    var created := Create(alloc, found.state, found.value);
    var after := ReadFields(types, alloc, created, found.rest, types[found.value].schema).value;
    PositionUnique(t'.objects, a, |t.objects|);
    BuiltNew(types, heap, alloc, t, t', st.heap, created.heap, after.state.heap, a);
  }

  /** A new object: its fields are written and read with the object already mapped. */
  lemma {:induction false} RoundTripNew(types: Registry, heap: Heap, players: map<Addr, byte>, alloc: nat -> Addr,
                                        t: Tables, st: Loaded, a: Addr, want: Option<nat>, rest: seq<byte>)
    requires Storable(types, heap) && Consistent(types, heap, t) && Injective(alloc)
    requires KnownClasses(types, st) && InStep(alloc, t, st)
    requires a in heap && heap[a].cls.Some? && a !in t.objects && FitsRef(types, heap, Some(a), want)
    ensures var w := WriteRef(types, heap, players, t, Some(a));
            Resolved(heap, w.tables, RefValue(Some(a))) &&
            Faithful(heap, alloc, |t.objects|, st, w.tables, ReadRef(types, alloc, st, w.bytes + rest, want),
                     Image(heap, alloc, w.tables, Some(a)), rest)
    decreases Unmapped(heap, t), 0, 0
  {
    var cls := heap[a].cls.value;
    var t1 := AddObject(heap, t, a);
    MapNew(types, heap, t, a);
    WriteNewIs(types, heap, players, t, a);
    hide WriteRef, NewHeader, Consistent, Built, ImageFields, Injective;
    var body := WriteFields(types, heap, players, t1, heap[a].fields);
    var st' := st.(tables := st.tables.(classes := t1.classes));
    ConcatAssociates(NewHeader(types, heap, players, t, a), body.bytes, rest);
    NewHeaderRoundTrip(types, heap, players, alloc, t, st, a, want, body.bytes + rest);
    RoundTripFields(types, heap, players, alloc, t1, Create(alloc, st', cls), heap[a].fields, types[cls].schema, rest);
    FinishNew(types, heap, alloc, t, body.tables, st, Read(cls, st', body.bytes + rest), a, want, rest);
  }

  lemma ReadFieldsCons(types: Registry, alloc: nat -> Addr, st: Loaded, s: seq<byte>, schema: seq<FieldKind>,
                       first: Read<Value>, others: Read<seq<Value>>)
    requires KnownClasses(types, st) && schema != []
    requires ReadValue(types, alloc, st, s, schema[0]) == Success(first)
    requires ReadFields(types, alloc, first.state, first.rest, schema[1..]) == Success(others)
    ensures ReadFields(types, alloc, st, s, schema) ==
            Success(Read([first.value] + others.value, others.state, others.rest))
  {
  }

  /** Loading a first field and then the others faithfully is loading all of them faithfully. */
  lemma FieldsCompose(types: Registry, heap: Heap, alloc: nat -> Addr, t: Tables, t1: Tables, t2: Tables, st: Loaded,
                      fields: seq<Value>, r1: Result<Read<Value>, LoadError>, r2: Result<Read<seq<Value>>, LoadError>,
                      middle: seq<byte>, rest: seq<byte>)
    requires Consistent(types, heap, t1) && Consistent(types, heap, t2) && Injective(alloc)
    requires Extends(t, t1) && Extends(t1, t2) && fields != [] && Resolved(heap, t1, fields[0])
    requires Faithful(heap, alloc, |t.objects|, st, t1, r1, ImageValue(heap, alloc, t1, fields[0]), middle)
    requires Faithful(heap, alloc, |t1.objects|, r1.value.state, t2, r2, ImageFields(heap, alloc, t2, fields[1..]), rest)
    ensures Faithful(heap, alloc, |t.objects|, st, t2,
                     Success(Read([r1.value.value] + r2.value.value, r2.value.state, r2.value.rest)),
                     ImageFields(heap, alloc, t2, fields), rest)
    ensures Resolved(heap, t2, fields[0])
  {
    hide Injective, Built, Resolved, ImageValue, InStep;
    BuiltCompose(types, heap, alloc, t1, t2, st.heap, r1.value.state.heap, r2.value.state.heap, |t.objects|);
    ImageStable(types, heap, alloc, t1, t2, fields[0]);
    assert ImageFields(heap, alloc, t2, fields) ==
           [ImageValue(heap, alloc, t2, fields[0])] + ImageFields(heap, alloc, t2, fields[1..]);
  }

  lemma TailFits(types: Registry, heap: Heap, fields: seq<Value>, schema: seq<FieldKind>)
    requires FitsSchema(types, heap, fields, schema) && fields != []
    requires forall v :: v in fields ==> CanWrite(heap, v)
    ensures FitsSchema(types, heap, fields[1..], schema[1..]) && FitsKind(types, heap, fields[0], schema[0])
    ensures CanWrite(heap, fields[0]) && forall v :: v in fields[1..] ==> CanWrite(heap, v)
  {
  }

  lemma {:induction false} RoundTripFields(types: Registry, heap: Heap, players: map<Addr, byte>, alloc: nat -> Addr,
                                           t: Tables, st: Loaded, fields: seq<Value>, schema: seq<FieldKind>,
                                           rest: seq<byte>)
    requires Storable(types, heap) && Consistent(types, heap, t) && Injective(alloc)
    requires KnownClasses(types, st) && InStep(alloc, t, st)
    requires FitsSchema(types, heap, fields, schema)
    requires forall v :: v in fields ==> CanWrite(heap, v)
    ensures var w := WriteFields(types, heap, players, t, fields);
            (forall v :: v in fields ==> Resolved(heap, w.tables, v)) &&
            Faithful(heap, alloc, |t.objects|, st, w.tables, ReadFields(types, alloc, st, w.bytes + rest, schema),
                     ImageFields(heap, alloc, w.tables, fields), rest)
    decreases Unmapped(heap, t), 2, |fields|
  {
    if fields == [] {
      assert [] + rest == rest;
    } else {
      TailFits(types, heap, fields, schema);
      var first := WriteValue(types, heap, players, t, fields[0]);
      var others := WriteFields(types, heap, players, first.tables, fields[1..]);
      RoundTripValue(types, heap, players, alloc, t, st, fields[0], schema[0], others.bytes + rest);
      var r1 := ReadValue(types, alloc, st, first.bytes + (others.bytes + rest), schema[0]);
      RoundTripFields(types, heap, players, alloc, first.tables, r1.value.state, fields[1..], schema[1..], rest);
      RoundTripCons(types, heap, players, alloc, t, st, fields, schema, rest);
    }
  }

  lemma RoundTripCons(types: Registry, heap: Heap, players: map<Addr, byte>, alloc: nat -> Addr,
                      t: Tables, st: Loaded, fields: seq<Value>, schema: seq<FieldKind>, rest: seq<byte>)
    requires Storable(types, heap) && Consistent(types, heap, t) && Injective(alloc) && KnownClasses(types, st)
    requires fields != [] && schema != [] && forall v :: v in fields ==> CanWrite(heap, v)
    requires var first := WriteValue(types, heap, players, t, fields[0]);
             var others := WriteFields(types, heap, players, first.tables, fields[1..]);
             var r1 := ReadValue(types, alloc, st, first.bytes + (others.bytes + rest), schema[0]);
             Resolved(heap, first.tables, fields[0]) &&
             (forall v :: v in fields[1..] ==> Resolved(heap, others.tables, v)) &&
             Faithful(heap, alloc, |t.objects|, st, first.tables, r1,
                      ImageValue(heap, alloc, first.tables, fields[0]), others.bytes + rest) &&
             Faithful(heap, alloc, |first.tables.objects|, r1.value.state, others.tables,
                      ReadFields(types, alloc, r1.value.state, others.bytes + rest, schema[1..]),
                      ImageFields(heap, alloc, others.tables, fields[1..]), rest)
    ensures var w := WriteFields(types, heap, players, t, fields);
            (forall v :: v in fields ==> Resolved(heap, w.tables, v)) &&
            Faithful(heap, alloc, |t.objects|, st, w.tables, ReadFields(types, alloc, st, w.bytes + rest, schema),
                     ImageFields(heap, alloc, w.tables, fields), rest)
  {
    var first := WriteValue(types, heap, players, t, fields[0]);
    var others := WriteFields(types, heap, players, first.tables, fields[1..]);
    var s := first.bytes + (others.bytes + rest);
    var r1 := ReadValue(types, alloc, st, s, schema[0]);
    var r2 := ReadFields(types, alloc, r1.value.state, others.bytes + rest, schema[1..]);
    ReadFieldsCons(types, alloc, st, s, schema, r1.value, r2.value);
    FieldsCompose(types, heap, alloc, t, first.tables, others.tables, st, fields, r1, r2, others.bytes + rest, rest);
    ConcatAssociates(first.bytes, others.bytes, rest);
    assert WriteFields(types, heap, players, t, fields).bytes + rest == s;
  }

  lemma {:induction false} RoundTripValue(types: Registry, heap: Heap, players: map<Addr, byte>, alloc: nat -> Addr,
                                          t: Tables, st: Loaded, value: Value, kind: FieldKind, rest: seq<byte>)
    requires Storable(types, heap) && Consistent(types, heap, t) && Injective(alloc)
    requires KnownClasses(types, st) && InStep(alloc, t, st)
    requires FitsKind(types, heap, value, kind) && CanWrite(heap, value)
    ensures var w := WriteValue(types, heap, players, t, value);
            Resolved(heap, w.tables, value) &&
            Faithful(heap, alloc, |t.objects|, st, w.tables, ReadValue(types, alloc, st, w.bytes + rest, kind),
                     ImageValue(heap, alloc, w.tables, value), rest)
    decreases Unmapped(heap, t), 1, 1
  {
    match value
    case ByteValue(b) =>
      assert ([b] + rest)[1..] == rest;
    case DwordValue(w) =>
      DwordRoundTrip(w, rest);
    case StringValue(text) =>
      StringRoundTrip(text, rest);
    case RefValue(target) =>
      RoundTripRef(types, heap, players, alloc, t, st, target, kind.want, rest);
  }
}
