/** DThinker::SerializeAll over the archive: saving a level and loading it back yields an isomorphic
    set of objects. */
module ArchiveThinkers {
  import opened Wrappers
  import opened ArchiveBytes
  import opened ArchiveGraph
  import opened ArchiveRoundTrip

  // ----- Saving and loading the thinker list

  /** The thinkers that are archived in their turn: all of them, or for a reset those that are not of the
      player type. */
  function Archived(reset: bool, playerTypes: set<Addr>, thinkers: seq<Addr>): (r: seq<Addr>)
    ensures !reset ==> r == thinkers
    ensures forall a :: a in r <==> a in thinkers && !(reset && a in playerTypes)
  {
    if thinkers == [] then [] else
      assert thinkers == [thinkers[0]] + thinkers[1..];
      (if reset && thinkers[0] in playerTypes then [] else [thinkers[0]]) + Archived(reset, playerTypes, thinkers[1..])
  }

  lemma ArchivedFirst(reset: bool, playerTypes: set<Addr>, thinkers: seq<Addr>)
    requires thinkers != []
    ensures var rest := Archived(reset, playerTypes, thinkers[1..]);
            Archived(reset, playerTypes, thinkers) == if reset && thinkers[0] in playerTypes then rest else [thinkers[0]] + rest
  {
  }

  lemma ArchivedNone(reset: bool, playerTypes: set<Addr>)
    ensures Archived(reset, playerTypes, []) == []
  {
  }

  /** A byte 1 before each thinker and a byte 0 after the last. */
  ghost function WriteThinkers(types: Registry, heap: Heap, players: map<Addr, byte>, t: Tables, thinkers: seq<Addr>)
    : (w: Written)
    requires Storable(types, heap) && Consistent(types, heap, t)
    requires forall a :: a in thinkers ==> a in heap
    ensures Consistent(types, heap, w.tables) && Extends(t, w.tables)
    decreases |thinkers|
  {
    if thinkers == [] then Written(t, [0]) else
      var first := WriteRef(types, heap, players, t, Some(thinkers[0]));
      var others := WriteThinkers(types, heap, players, first.tables, thinkers[1..]);
      Written(others.tables, [1] + first.bytes + others.bytes)
  }

  function ReadThinkers(types: Registry, alloc: nat -> Addr, st: Loaded, s: seq<byte>, thinkerClass: nat)
    : (r: Result<Read<seq<Option<Addr>>>, LoadError>)
    requires KnownClasses(types, st)
    decreases |s|
  {
    match DecodeByte(s)
    case Failure(e) => Failure(e)
    case Success(more) =>
      if more.value == 0 then Success(Read([], st, more.rest)) else
        match ReadRef(types, alloc, st, more.rest, Some(thinkerClass))
        case Failure(e) => Failure(e)
        case Success(first) =>
          match ReadThinkers(types, alloc, first.state, first.rest, thinkerClass)
          case Failure(e) => Failure(e)
          case Success(others) => Success(Read([first.value] + others.value, others.state, others.rest))
  }

  /** Pointers to live thinkers: instances of registered classes derived from DThinker. */
  ghost predicate AreThinkers(types: Registry, heap: Heap, thinkers: seq<Addr>, thinkerClass: nat) {
    forall a :: a in thinkers ==> a in heap && heap[a].cls.Some? && FitsRef(types, heap, Some(a), Some(thinkerClass))
  }

  function Images(heap: Heap, alloc: nat -> Addr, t: Tables, thinkers: seq<Addr>): (r: seq<Option<Addr>>)
    ensures |r| == |thinkers|
    ensures forall i :: 0 <= i < |thinkers| ==> r[i] == Image(heap, alloc, t, Some(thinkers[i]))
  {
    seq(|thinkers|, i requires 0 <= i < |thinkers| => Image(heap, alloc, t, Some(thinkers[i])))
  }

  lemma {:induction false} ThinkersRoundTrip(types: Registry, heap: Heap, players: map<Addr, byte>, alloc: nat -> Addr,
                                             t: Tables, st: Loaded, thinkers: seq<Addr>, thinkerClass: nat,
                                             rest: seq<byte>)
    requires Storable(types, heap) && Consistent(types, heap, t) && Injective(alloc)
    requires KnownClasses(types, st) && InStep(alloc, t, st)
    requires AreThinkers(types, heap, thinkers, thinkerClass)
    ensures var w := WriteThinkers(types, heap, players, t, thinkers);
            (forall a :: a in thinkers ==> a in w.tables.objects) &&
            Faithful(heap, alloc, |t.objects|, st, w.tables,
                     ReadThinkers(types, alloc, st, w.bytes + rest, thinkerClass),
                     Images(heap, alloc, w.tables, thinkers), rest)
    decreases |thinkers|
  {
    if thinkers == [] {
      assert ([0] + rest)[1..] == rest;
    } else {
      var a := thinkers[0];
      var first := WriteRef(types, heap, players, t, Some(a));
      var others := WriteThinkers(types, heap, players, first.tables, thinkers[1..]);
      RoundTripRef(types, heap, players, alloc, t, st, Some(a), Some(thinkerClass), others.bytes + rest);
      var r1 := ReadRef(types, alloc, st, first.bytes + (others.bytes + rest), Some(thinkerClass));
      ThinkersRoundTrip(types, heap, players, alloc, first.tables, r1.value.state, thinkers[1..], thinkerClass, rest);
      var r2 := ReadThinkers(types, alloc, r1.value.state, others.bytes + rest, thinkerClass);
      MoreToRead(first.bytes, others.bytes, rest);
      ThinkersCompose(types, heap, alloc, t, first.tables, others.tables, st, thinkers, r1, r2, others.bytes + rest, rest);
    }
  }

  /** Loading a first thinker and then the others faithfully is loading all of them faithfully. */
  lemma ThinkersCompose(types: Registry, heap: Heap, alloc: nat -> Addr, t: Tables, t1: Tables, t2: Tables,
                        st: Loaded, thinkers: seq<Addr>, r1: Result<Read<Option<Addr>>, LoadError>,
                        r2: Result<Read<seq<Option<Addr>>>, LoadError>, middle: seq<byte>, rest: seq<byte>)
    requires Consistent(types, heap, t1) && Consistent(types, heap, t2) && Injective(alloc)
    requires Extends(t, t1) && Extends(t1, t2)
    requires thinkers != [] && thinkers[0] in heap && heap[thinkers[0]].cls.Some?
    requires Resolved(heap, t1, RefValue(Some(thinkers[0])))
    requires Faithful(heap, alloc, |t.objects|, st, t1, r1, Image(heap, alloc, t1, Some(thinkers[0])), middle)
    requires Faithful(heap, alloc, |t1.objects|, r1.value.state, t2, r2, Images(heap, alloc, t2, thinkers[1..]), rest)
    ensures thinkers[0] in t2.objects
    ensures Faithful(heap, alloc, |t.objects|, st, t2,
                     Success(Read([r1.value.value] + r2.value.value, r2.value.state, r2.value.rest)),
                     Images(heap, alloc, t2, thinkers), rest)
  {
    hide Built, InStep, Injective, Consistent;
    BuiltCompose(types, heap, alloc, t1, t2, st.heap, r1.value.state.heap, r2.value.state.heap, |t.objects|);
    ImageStable(types, heap, alloc, t1, t2, RefValue(Some(thinkers[0])));
    assert Images(heap, alloc, t2, thinkers) ==
           [Image(heap, alloc, t2, Some(thinkers[0]))] + Images(heap, alloc, t2, thinkers[1..]);
    assert thinkers[0] in t1.objects;
  }

  lemma MoreToRead(first: seq<byte>, others: seq<byte>, rest: seq<byte>)
    ensures DecodeByte([1] + first + others + rest) == Success(Decoded(1, first + (others + rest)))
  {
    assert ([1] + first + others + rest)[1..] == first + (others + rest);
  }

  // ----- Isomorphic graphs

  /** Where phi sends a pointer of the stored graph; null and exact DObjects go to null. */
  function Via(heap: Heap, phi: map<Addr, Addr>, ref: Option<Addr>): Option<Addr> {
    if ref.Some? && ref.value in heap && heap[ref.value].cls.Some? && ref.value in phi then Some(phi[ref.value]) else None
  }

  predicate StaysIn(heap: Heap, v: Value, all: set<Addr>) {
    v.RefValue? && v.target.Some? && v.target.value in heap && heap[v.target.value].cls.Some? ==> v.target.value in all
  }

  /** A set of objects that no pointer leaves. */
  ghost predicate Closed(heap: Heap, all: set<Addr>) {
    forall a, v :: a in all && a in heap && v in heap[a].fields ==> StaysIn(heap, v, all)
  }

  /** The objects reachable from the thinkers: the smallest closed set that holds them. */
  ghost predicate IsReachableSet(heap: Heap, thinkers: seq<Addr>, reached: set<Addr>) {
    (forall a :: a in reached ==> a in heap && heap[a].cls.Some?) &&
    (forall a :: a in thinkers ==> a in reached) && Closed(heap, reached) && Smallest(heap, thinkers, reached)
  }

  ghost predicate Smallest(heap: Heap, thinkers: seq<Addr>, reached: set<Addr>) {
    forall all: set<Addr> :: Closed(heap, all) && (forall a :: a in thinkers ==> a in all) ==> reached <= all
  }

  ghost predicate Bijection(phi: map<Addr, Addr>, range: set<Addr>) {
    phi.Values == range && forall a, b :: a in phi && b in phi && phi[a] == phi[b] ==> a == b
  }

  /** phi maps exactly the objects reachable from the thinkers one-to-one onto the loaded heap, and keeps
      the class, the data and every pointer of each of them: sharing and cycles included. */
  ghost predicate Isomorphic(heap: Heap, thinkers: seq<Addr>, loaded: Heap, images: seq<Option<Addr>>,
                             phi: map<Addr, Addr>) {
    && IsReachableSet(heap, thinkers, phi.Keys)
    && Bijection(phi, loaded.Keys)
    && |images| == |thinkers| && (forall i :: 0 <= i < |thinkers| ==> images[i] == Some(phi[thinkers[i]]))
    && (forall a :: a in phi ==> SameObject(heap, phi, heap[a], loaded[phi[a]]))
  }

  ghost predicate SameObject(heap: Heap, phi: map<Addr, Addr>, stored: Object, loaded: Object) {
    loaded.cls == stored.cls && |loaded.fields| == |stored.fields| &&
    forall i :: 0 <= i < |stored.fields| ==>
      loaded.fields[i] ==
      if stored.fields[i].RefValue? then RefValue(Via(heap, phi, stored.fields[i].target)) else stored.fields[i]
  }

  const EMPTY: Tables := Tables([], [])

  function Correspondence(alloc: nat -> Addr, t: Tables): map<Addr, Addr> {
    map a | a in t.objects :: alloc(Position(t.objects, a).value)
  }

  lemma CorrespondenceAt(alloc: nat -> Addr, t: Tables, i: nat)
    requires Distinct(t.objects) && i < |t.objects|
    ensures t.objects[i] in Correspondence(alloc, t) && Correspondence(alloc, t)[t.objects[i]] == alloc(i)
  {
    PositionUnique(t.objects, t.objects[i], i);
  }

  // ----- Only reachable objects are written

  lemma {:induction false} WritesOnlyReachable(types: Registry, heap: Heap, players: map<Addr, byte>, t: Tables,
                                               ref: Option<Addr>, all: set<Addr>)
    requires Storable(types, heap) && Consistent(types, heap, t) && Closed(heap, all)
    requires ref.Some? ==> ref.value in heap && (heap[ref.value].cls.Some? ==> ref.value in all)
    requires forall a :: a in t.objects ==> a in all
    ensures forall a :: a in WriteRef(types, heap, players, t, ref).tables.objects ==> a in all
    decreases Unmapped(heap, t), 1, 0
  {
    if ref.Some? && heap[ref.value].cls.Some? && ref.value !in t.objects {
      var a := ref.value;
      MapNew(types, heap, t, a);
      WritesOnlyReachableFields(types, heap, players, AddObject(heap, t, a), heap[a].fields, all);
    }
  }

  lemma {:induction false} WritesOnlyReachableFields(types: Registry, heap: Heap, players: map<Addr, byte>, t: Tables,
                                                     fields: seq<Value>, all: set<Addr>)
    requires Storable(types, heap) && Consistent(types, heap, t) && Closed(heap, all)
    requires forall v :: v in fields ==> CanWrite(heap, v)
    requires forall v :: v in fields ==> StaysIn(heap, v, all)
    requires forall a :: a in t.objects ==> a in all
    ensures forall a :: a in WriteFields(types, heap, players, t, fields).tables.objects ==> a in all
    decreases Unmapped(heap, t), 2, |fields|
  {
    if fields == [] {
    } else {
      var first := WriteValue(types, heap, players, t, fields[0]);
      assert StaysIn(heap, fields[0], all);
      if fields[0].RefValue? {
        WritesOnlyReachable(types, heap, players, t, fields[0].target, all);
      }
      WritesOnlyReachableFields(types, heap, players, first.tables, fields[1..], all);
    }
  }

  lemma {:induction false} WritesOnlyReachableThinkers(types: Registry, heap: Heap, players: map<Addr, byte>, t: Tables,
                                                       thinkers: seq<Addr>, all: set<Addr>)
    requires Storable(types, heap) && Consistent(types, heap, t) && Closed(heap, all)
    requires forall a :: a in thinkers ==> a in heap && a in all
    requires forall a :: a in t.objects ==> a in all
    ensures forall a :: a in WriteThinkers(types, heap, players, t, thinkers).tables.objects ==> a in all
    decreases |thinkers|
  {
    if thinkers == [] {
    } else {
      WritesOnlyReachable(types, heap, players, t, Some(thinkers[0]), all);
      WritesOnlyReachableThinkers(types, heap, players,
                                  WriteRef(types, heap, players, t, Some(thinkers[0])).tables, thinkers[1..], all);
    }
  }

  // ----- The theorem

  lemma BuiltIsOnto(alloc: nat -> Addr, t: Tables, loaded: set<Addr>)
    requires Distinct(t.objects) && Injective(alloc) && loaded == Created(alloc, 0, |t.objects|)
    ensures Bijection(Correspondence(alloc, t), loaded)
  {
    var phi := Correspondence(alloc, t);
    forall x | x in loaded
      ensures x in phi.Values
    {
      var i: nat :| 0 <= i < |t.objects| && x == alloc(i);
      CorrespondenceAt(alloc, t, i);
    }
  }

  /** The image of a value is where the correspondence sends it. */
  lemma ImageIsVia(heap: Heap, alloc: nat -> Addr, t: Tables, v: Value)
    ensures ImageValue(heap, alloc, t, v) ==
            if v.RefValue? then RefValue(Via(heap, Correspondence(alloc, t), v.target)) else v
  {
  }

  lemma BuiltAt(heap: Heap, alloc: nat -> Addr, t: Tables, loaded: Heap, a: Addr)
    requires forall b :: b in t.objects ==> b in heap
    requires Built(heap, alloc, t, map[], loaded, 0) && a in t.objects
    ensures a in heap && a in Correspondence(alloc, t) && Correspondence(alloc, t)[a] in loaded
    ensures loaded[Correspondence(alloc, t)[a]] == ImageObject(heap, alloc, t, heap[a])
  {
    var i := Position(t.objects, a).value;
    assert loaded[alloc(i)] == ImageObject(heap, alloc, t, heap[t.objects[i]]);
  }

  lemma BuiltIsSame(types: Registry, heap: Heap, alloc: nat -> Addr, t: Tables, loaded: Heap, a: Addr)
    requires Consistent(types, heap, t) && Built(heap, alloc, t, map[], loaded, 0) && a in t.objects
    ensures var phi := Correspondence(alloc, t); phi[a] in loaded && SameObject(heap, phi, heap[a], loaded[phi[a]])
  {
    BuiltAt(heap, alloc, t, loaded, a);
    hide Consistent, Built, Correspondence, ImageValue, Via, ImageFields;
    var phi, fields := Correspondence(alloc, t), heap[a].fields;
    forall k | 0 <= k < |fields|
      ensures ImageFields(heap, alloc, t, fields)[k] ==
              if fields[k].RefValue? then RefValue(Via(heap, phi, fields[k].target)) else fields[k]
    {
      ImageIsVia(heap, alloc, t, fields[k]);
    }
  }

  lemma BuiltIsReached(types: Registry, heap: Heap, alloc: nat -> Addr, t: Tables, loaded: Heap, thinkers: seq<Addr>)
    requires Consistent(types, heap, t) && Built(heap, alloc, t, map[], loaded, 0)
    requires forall a :: a in thinkers ==> a in t.objects
    requires Smallest(heap, thinkers, Correspondence(alloc, t).Keys)
    ensures IsReachableSet(heap, thinkers, Correspondence(alloc, t).Keys)
  {
    BuiltIsClosed(types, heap, alloc, t, loaded);
  }

  lemma BuiltIsClosed(types: Registry, heap: Heap, alloc: nat -> Addr, t: Tables, loaded: Heap)
    requires Consistent(types, heap, t) && Built(heap, alloc, t, map[], loaded, 0)
    ensures Closed(heap, Correspondence(alloc, t).Keys)
  {
    var reached := Correspondence(alloc, t).Keys;
    forall a, v | a in reached && a in heap && v in heap[a].fields
      ensures StaysIn(heap, v, reached)
    {
      var i := Position(t.objects, a).value;
      assert v in heap[t.objects[i]].fields;
      assert Resolved(heap, t, v);
    }
  }

  lemma ImagesCorrespond(types: Registry, heap: Heap, alloc: nat -> Addr, t: Tables, thinkers: seq<Addr>)
    requires Consistent(types, heap, t) && forall a :: a in thinkers ==> a in t.objects
    ensures var phi, images := Correspondence(alloc, t), Images(heap, alloc, t, thinkers);
            |images| == |thinkers| &&
            forall i :: 0 <= i < |thinkers| ==> thinkers[i] in phi && images[i] == Some(phi[thinkers[i]])
  {
    forall i | 0 <= i < |thinkers|
      ensures Image(heap, alloc, t, Some(thinkers[i])) == Some(Correspondence(alloc, t)[thinkers[i]])
    {
      assert thinkers[i] in thinkers;
    }
  }

  lemma BuiltIsIsomorphic(types: Registry, heap: Heap, alloc: nat -> Addr, t: Tables, thinkers: seq<Addr>, loaded: Heap)
    requires Consistent(types, heap, t) && Injective(alloc) && Built(heap, alloc, t, map[], loaded, 0)
    requires forall a :: a in thinkers ==> a in t.objects
    requires Smallest(heap, thinkers, Correspondence(alloc, t).Keys)
    ensures Isomorphic(heap, thinkers, loaded, Images(heap, alloc, t, thinkers), Correspondence(alloc, t))
  {
    var phi := Correspondence(alloc, t);
    assert forall a :: a in t.objects <==> a in phi;
    ImagesCorrespond(types, heap, alloc, t, thinkers);
    hide Closed, Correspondence, SameObject, Smallest, Consistent, Images, Injective, IsReachableSet, Bijection, Built;
    BuiltIsReached(types, heap, alloc, t, loaded, thinkers);
    BuiltIsOnto(alloc, t, loaded.Keys);
    forall a | a in phi
      ensures phi[a] in loaded && SameObject(heap, phi, heap[a], loaded[phi[a]])
    {
      BuiltIsSame(types, heap, alloc, t, loaded, a);
    }
  }

  /** Loading a saved level, whatever bytes follow it, gives an isomorphic graph of thinkers. */
  lemma SaveLoadIsomorphic(types: Registry, heap: Heap, players: map<Addr, byte>, alloc: nat -> Addr,
                           thinkers: seq<Addr>, thinkerClass: nat, rest: seq<byte>)
    requires Storable(types, heap) && Injective(alloc) && AreThinkers(types, heap, thinkers, thinkerClass)
    ensures var w := WriteThinkers(types, heap, players, EMPTY, thinkers);
            var r := ReadThinkers(types, alloc, Loaded(EMPTY, map[]), w.bytes + rest, thinkerClass);
            r.Success? && r.value.rest == rest &&
            Isomorphic(heap, thinkers, r.value.state.heap, r.value.value, Correspondence(alloc, w.tables))
  {
    var w := WriteThinkers(types, heap, players, EMPTY, thinkers);
    ThinkersRoundTrip(types, heap, players, alloc, EMPTY, Loaded(EMPTY, map[]), thinkers, thinkerClass, rest);
    forall all: set<Addr> | Closed(heap, all) && forall a :: a in thinkers ==> a in all
      ensures Correspondence(alloc, w.tables).Keys <= all
    {
      WritesOnlyReachableThinkers(types, heap, players, EMPTY, thinkers, all);
    }
    var r := ReadThinkers(types, alloc, Loaded(EMPTY, map[]), w.bytes + rest, thinkerClass);
    BuiltIsIsomorphic(types, heap, alloc, w.tables, thinkers, r.value.state.heap);
  }
}
