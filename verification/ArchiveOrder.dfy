/** The list of thinkers after a load. The DThinker constructor links every thinker in when it is created
    (common/dthinker.cpp), and common/farchive.cpp creates an object when a reference to it is first met: so
    the loaded list follows the order of creation, not the saved list. */
module ArchiveOrder {
  import opened Wrappers
  import opened ArchiveBytes
  import opened ArchiveGraph
  import opened ArchiveRoundTrip
  import opened ArchiveThinkers

  /** Whether the constructor of an object links it into the list. */
  predicate IsThinker(types: Registry, heap: Heap, a: Addr, thinkerClass: nat) {
    a in heap && heap[a].cls.Some? && heap[a].cls.value < |types| && Descends(types, heap[a].cls.value, Some(thinkerClass))
  }

  /** The list that creating the objects in this order builds, from an empty one. */
  function Linked(types: Registry, heap: Heap, objects: seq<Addr>, thinkerClass: nat): (r: seq<Addr>)
    ensures forall a :: a in r <==> a in objects && IsThinker(types, heap, a, thinkerClass)
    decreases |objects|
  {
    if objects == [] then [] else
      var last := objects[|objects| - 1];
      var before := Linked(types, heap, objects[..|objects| - 1], thinkerClass);
      assert objects == objects[..|objects| - 1] + [last];
      if IsThinker(types, heap, last, thinkerClass) then before + [last] else before
  }

  /** The list of thinkers when a load has come this far. */
  function LoadedList(types: Registry, st: Loaded, thinkerClass: nat): seq<Addr> {
    Linked(types, st.heap, st.tables.objects, thinkerClass)
  }

  lemma {:induction false} LinkedAgrees(types: Registry, heap: Heap, heap': Heap, objects: seq<Addr>, thinkerClass: nat)
    requires forall a :: a in objects ==> a in heap && a in heap' && heap[a].cls == heap'[a].cls
    ensures Linked(types, heap, objects, thinkerClass) == Linked(types, heap', objects, thinkerClass)
    decreases |objects|
  {
    if objects == [] {
    } else {
      assert objects[|objects| - 1] in objects;
      LinkedAgrees(types, heap, heap', objects[..|objects| - 1], thinkerClass);
    }
  }

  /** CreateNew links a thinker in at the end of the list; any other object leaves it alone. */
  lemma CreateLinks(types: Registry, alloc: nat -> Addr, st: Loaded, cls: nat, thinkerClass: nat)
    requires cls < |types| && forall a :: a in st.tables.objects ==> a in st.heap && a != alloc(|st.tables.objects|)
    ensures LoadedList(types, Create(alloc, st, cls), thinkerClass) ==
            LoadedList(types, st, thinkerClass) +
            if Descends(types, cls, Some(thinkerClass)) then [alloc(|st.tables.objects|)] else []
  {
    var st' := Create(alloc, st, cls);
    assert st'.tables.objects[..|st.tables.objects|] == st.tables.objects;
    LinkedAgrees(types, st.heap, st'.heap, st.tables.objects, thinkerClass);
  }

  // ----- Which list that is

  /** A list under a correspondence of addresses. */
  function Renamed(phi: map<Addr, Addr>, s: seq<Addr>): (r: seq<Addr>)
    requires forall a :: a in s ==> a in phi
    ensures |r| == |s| && forall i :: 0 <= i < |s| ==> r[i] == phi[s[i]]
  {
    seq(|s|, i requires 0 <= i < |s| => phi[s[i]])
  }

  lemma RenamedAppend(phi: map<Addr, Addr>, s: seq<Addr>, a: Addr)
    requires a in phi && forall b :: b in s ==> b in phi
    ensures forall b :: b in s + [a] ==> b in phi
    ensures Renamed(phi, s + [a]) == Renamed(phi, s) + [phi[a]]
  {
  }

  lemma {:induction false} RenamedInjective(phi: map<Addr, Addr>, s: seq<Addr>, t: seq<Addr>)
    requires forall a, b :: a in phi && b in phi && phi[a] == phi[b] ==> a == b
    requires (forall a :: a in s ==> a in phi) && (forall a :: a in t ==> a in phi)
    ensures Renamed(phi, s) == Renamed(phi, t) <==> s == t
  {
    if Renamed(phi, s) == Renamed(phi, t) {
      forall i | 0 <= i < |s|
        ensures s[i] == t[i]
      {
        assert Renamed(phi, s)[i] == Renamed(phi, t)[i];
        assert s[i] in s && t[i] in t;
      }
    }
  }

  /** The objects ys of one heap are those of another under phi, thinkers for thinkers. */
  ghost predicate Matches(types: Registry, h: Heap, h': Heap, phi: map<Addr, Addr>, xs: seq<Addr>, ys: seq<Addr>,
                          thinkerClass: nat) {
    |xs| == |ys| && (forall a :: a in xs ==> a in phi) &&
    forall i :: 0 <= i < |xs| ==>
      ys[i] == phi[xs[i]] && IsThinker(types, h', ys[i], thinkerClass) == IsThinker(types, h, xs[i], thinkerClass)
  }

  lemma {:induction false} LinkedRenamed(types: Registry, h: Heap, h': Heap, phi: map<Addr, Addr>, xs: seq<Addr>,
                                         ys: seq<Addr>, thinkerClass: nat)
    requires Matches(types, h, h', phi, xs, ys, thinkerClass)
    ensures forall a :: a in Linked(types, h, xs, thinkerClass) ==> a in phi
    ensures Linked(types, h', ys, thinkerClass) == Renamed(phi, Linked(types, h, xs, thinkerClass))
    decreases |xs|
  {
    if xs == [] {
    } else {
      var n := |xs| - 1;
      assert xs[n] in xs;
      hide IsThinker;
      LinkedRenamed(types, h, h', phi, xs[..n], ys[..n], thinkerClass);
      RenamedAppend(phi, Linked(types, h, xs[..n], thinkerClass), xs[n]);
    }
  }

  /** The objects created are the images of those mapped. */
  lemma BuiltMatches(types: Registry, heap: Heap, alloc: nat -> Addr, t: Tables, st: Loaded, thinkerClass: nat)
    requires Consistent(types, heap, t) && InStep(alloc, t, st) && Built(heap, alloc, t, map[], st.heap, 0)
    ensures Matches(types, heap, st.heap, Correspondence(alloc, t), t.objects, st.tables.objects, thinkerClass)
  {
    var phi := Correspondence(alloc, t);
    forall i | 0 <= i < |t.objects|
      ensures st.tables.objects[i] == phi[t.objects[i]]
      ensures IsThinker(types, st.heap, st.tables.objects[i], thinkerClass) ==
              IsThinker(types, heap, t.objects[i], thinkerClass)
    {
      CorrespondenceAt(alloc, t, i);
      assert t.objects[i] in t.objects;
      assert st.heap[alloc(i)] == ImageObject(heap, alloc, t, heap[t.objects[i]]);
    }
  }

  /** The thinkers in the order in which saving the list first meets them. */
  ghost function FirstMet(types: Registry, heap: Heap, players: map<Addr, byte>, thinkers: seq<Addr>, thinkerClass: nat)
    : seq<Addr>
    requires Storable(types, heap) && forall a :: a in thinkers ==> a in heap
  {
    Linked(types, heap, WriteThinkers(types, heap, players, EMPTY, thinkers).tables.objects, thinkerClass)
  }

  /** After a load the list of thinkers is the image of the thinkers in the order in which saving met them:
      so it is the image of the saved list exactly when saving met them in the order of that list, and it
      has no thinker that was not in that list exactly when no such thinker was reachable from it. */
  lemma LoadedListIsFirstMet(types: Registry, heap: Heap, players: map<Addr, byte>, alloc: nat -> Addr,
                             thinkers: seq<Addr>, thinkerClass: nat, rest: seq<byte>)
    requires Storable(types, heap) && Injective(alloc) && AreThinkers(types, heap, thinkers, thinkerClass)
    ensures var w := WriteThinkers(types, heap, players, EMPTY, thinkers);
            var r := ReadThinkers(types, alloc, Loaded(EMPTY, map[]), w.bytes + rest, thinkerClass);
            var phi, met := Correspondence(alloc, w.tables), FirstMet(types, heap, players, thinkers, thinkerClass);
            r.Success? && (forall a :: a in met || a in thinkers ==> a in phi) &&
            var list := LoadedList(types, r.value.state, thinkerClass);
            list == Renamed(phi, met) &&
            (list == Renamed(phi, thinkers) <==> met == thinkers)
  {
    var w := WriteThinkers(types, heap, players, EMPTY, thinkers);
    var st := Loaded(EMPTY, map[]);
    ThinkersRoundTrip(types, heap, players, alloc, EMPTY, st, thinkers, thinkerClass, rest);
    var r := ReadThinkers(types, alloc, st, w.bytes + rest, thinkerClass);
    BuiltMatches(types, heap, alloc, w.tables, r.value.state, thinkerClass);
    LinkedRenamed(types, heap, r.value.state.heap, Correspondence(alloc, w.tables), w.tables.objects,
                  r.value.state.tables.objects, thinkerClass);
    BuiltIsOnto(alloc, w.tables, r.value.state.heap.Keys);
    RenamedInjective(Correspondence(alloc, w.tables), FirstMet(types, heap, players, thinkers, thinkerClass), thinkers);
  }

  /** No thinker in the loaded list but images of those saved: exactly when every thinker that can be reached
      from them, and SaveLoadIsomorphic says that these are the keys of the correspondence, was one of them.
      Otherwise, as for one that lingers destroyed until nothing refers to it, it comes back alive. */
  lemma NothingElseLinked(types: Registry, heap: Heap, players: map<Addr, byte>, alloc: nat -> Addr,
                          thinkers: seq<Addr>, thinkerClass: nat, rest: seq<byte>)
    requires Storable(types, heap) && Injective(alloc) && AreThinkers(types, heap, thinkers, thinkerClass)
    ensures var w := WriteThinkers(types, heap, players, EMPTY, thinkers);
            var r := ReadThinkers(types, alloc, Loaded(EMPTY, map[]), w.bytes + rest, thinkerClass);
            var phi := Correspondence(alloc, w.tables);
            IsReachableSet(heap, thinkers, phi.Keys) && r.Success? && (forall a :: a in thinkers ==> a in phi) &&
            ((forall x :: x in LoadedList(types, r.value.state, thinkerClass) ==> x in Renamed(phi, thinkers)) <==>
             (forall a :: a in phi && IsThinker(types, heap, a, thinkerClass) ==> a in thinkers))
  {
    var w := WriteThinkers(types, heap, players, EMPTY, thinkers);
    SaveLoadIsomorphic(types, heap, players, alloc, thinkers, thinkerClass, rest);
    LoadedListIsFirstMet(types, heap, players, alloc, thinkers, thinkerClass, rest);
    SameElements(Correspondence(alloc, w.tables), FirstMet(types, heap, players, thinkers, thinkerClass), thinkers);
  }

  lemma SameElements(phi: map<Addr, Addr>, s: seq<Addr>, t: seq<Addr>)
    requires forall a, b :: a in phi && b in phi && phi[a] == phi[b] ==> a == b
    requires (forall a :: a in s ==> a in phi) && (forall a :: a in t ==> a in phi)
    ensures (forall x :: x in Renamed(phi, s) ==> x in Renamed(phi, t)) <==> (forall a :: a in s ==> a in t)
  {
    RenamedElements(phi, s);
    RenamedElements(phi, t);
  }

  lemma RenamedElements(phi: map<Addr, Addr>, s: seq<Addr>)
    requires forall a, b :: a in phi && b in phi && phi[a] == phi[b] ==> a == b
    requires forall a :: a in s ==> a in phi
    ensures forall a :: a in phi ==> (phi[a] in Renamed(phi, s) <==> a in s)
    ensures forall x :: x in Renamed(phi, s) ==> exists a :: a in s && phi[a] == x
  {
    forall a | a in phi
      ensures phi[a] in Renamed(phi, s) <==> a in s
    {
      if a in s {
        var i :| 0 <= i < |s| && s[i] == a;
        assert Renamed(phi, s)[i] == phi[a];
      }
      assert forall i :: 0 <= i < |s| ==> s[i] in s && Renamed(phi, s)[i] == phi[s[i]];
    }
    forall x | x in Renamed(phi, s)
      ensures exists a :: a in s && phi[a] == x
    {
      var i :| 0 <= i < |s| && Renamed(phi, s)[i] == x;
      assert s[i] in s && phi[s[i]] == x;
    }
  }

  // ----- When the order is that of the saved list

  /** Some set that no pointer leaves holds the first n thinkers of the list and no other thinker: nothing
      that can be reached from them is a thinker further down the list, or outside it. */
  ghost predicate NoneAhead(types: Registry, heap: Heap, thinkers: seq<Addr>, thinkerClass: nat, n: nat)
    requires n <= |thinkers|
  {
    exists all: set<Addr> :: Fence(types, heap, thinkers[..n], thinkerClass, all)
  }

  ghost predicate Fence(types: Registry, heap: Heap, first: seq<Addr>, thinkerClass: nat, all: set<Addr>) {
    Closed(heap, all) && forall a :: a in heap && IsThinker(types, heap, a, thinkerClass) ==> (a in all <==> a in first)
  }

  lemma {:induction false} LinkedAppend(types: Registry, heap: Heap, s: seq<Addr>, t: seq<Addr>, thinkerClass: nat)
    ensures Linked(types, heap, s + t, thinkerClass) ==
            Linked(types, heap, s, thinkerClass) + Linked(types, heap, t, thinkerClass)
    decreases |t|
  {
    if t == [] {
      assert s + t == s;
    } else {
      LinkedAppend(types, heap, s, t[..|t| - 1], thinkerClass);
      assert (s + t)[..|s + t| - 1] == s + t[..|t| - 1];
    }
  }

  lemma {:induction false} WriteThinkersNext(types: Registry, heap: Heap, players: map<Addr, byte>, t: Tables,
                                             first: seq<Addr>, a: Addr)
    requires Storable(types, heap) && Consistent(types, heap, t) && a in heap && forall b :: b in first ==> b in heap
    ensures WriteThinkers(types, heap, players, t, first + [a]).tables ==
            WriteRef(types, heap, players, WriteThinkers(types, heap, players, t, first).tables, Some(a)).tables
    decreases |first|
  {
    if first == [] {
      assert first + [a] == [a];
      var t' := WriteRef(types, heap, players, t, Some(a)).tables;
      assert WriteThinkers(types, heap, players, t', []).tables == t';
    } else {
      assert (first + [a])[1..] == first[1..] + [a];
      WriteThinkersNext(types, heap, players, WriteRef(types, heap, players, t, Some(first[0])).tables, first[1..], a);
    }
  }

  /** Archiving a thinker maps it first, and behind it only objects inside every fence around it. */
  lemma MapsNext(types: Registry, heap: Heap, players: map<Addr, byte>, t: Tables, a: Addr)
    returns (more: seq<Addr>)
    requires Storable(types, heap) && Consistent(types, heap, t)
    requires a in heap && heap[a].cls.Some? && a !in t.objects
    ensures WriteRef(types, heap, players, t, Some(a)).tables.objects == t.objects + [a] + more
  {
    WriteNewIs(types, heap, players, t, a);
    hide WriteRef, WriteFields, Consistent, Storable, CanWrite, NewHeader, Unmapped;
    var t1 := AddObject(heap, t, a);
    var body := WriteFields(types, heap, players, t1, heap[a].fields);
    more := SplitOff(t1.objects, body.tables.objects);
  }

  lemma SplitOff(first: seq<Addr>, s: seq<Addr>) returns (more: seq<Addr>)
    requires first <= s
    ensures s == first + more
  {
    more := s[|first|..];
  }

  lemma NotBefore(first: seq<Addr>, more: seq<Addr>, b: Addr)
    requires Distinct(first + more) && b in more
    ensures b !in first
  {
    var i :| 0 <= i < |more| && more[i] == b;
    assert (first + more)[|first| + i] == b;
    assert forall j :: 0 <= j < |first| ==> (first + more)[j] == first[j];
  }

  lemma {:induction false} NoneLinked(types: Registry, heap: Heap, objects: seq<Addr>, thinkerClass: nat)
    requires forall b :: b in objects ==> !IsThinker(types, heap, b, thinkerClass)
    ensures Linked(types, heap, objects, thinkerClass) == []
    decreases |objects|
  {
    if objects == [] {
    } else {
      assert objects[|objects| - 1] in objects;
      NoneLinked(types, heap, objects[..|objects| - 1], thinkerClass);
    }
  }

  lemma {:induction false} AllLinked(types: Registry, heap: Heap, objects: seq<Addr>, thinkerClass: nat)
    requires forall b :: b in objects ==> IsThinker(types, heap, b, thinkerClass)
    ensures Linked(types, heap, objects, thinkerClass) == objects
    decreases |objects|
  {
    if objects == [] {
    } else {
      assert objects[|objects| - 1] in objects;
      AllLinked(types, heap, objects[..|objects| - 1], thinkerClass);
    }
  }

  lemma NoMoreThinkers(types: Registry, heap: Heap, first: seq<Addr>, a: Addr, objects: seq<Addr>, more: seq<Addr>,
                       thinkerClass: nat, all: set<Addr>)
    requires Distinct(objects + [a] + more) && Linked(types, heap, objects, thinkerClass) == first
    requires Fence(types, heap, first + [a], thinkerClass, all) && IsThinker(types, heap, a, thinkerClass)
    requires forall b :: b in objects + [a] + more ==> b in all && b in heap
    ensures Linked(types, heap, objects + [a] + more, thinkerClass) == first + [a]
  {
    LinkedAppend(types, heap, objects + [a], more, thinkerClass);
    LinkedAppend(types, heap, objects, [a], thinkerClass);
    assert Linked(types, heap, [a], thinkerClass) == [a];
    forall b | b in more
      ensures !IsThinker(types, heap, b, thinkerClass)
    {
      NotBefore(objects + [a], more, b);
      assert b in objects + [a] + more;
    }
    NoneLinked(types, heap, more, thinkerClass);
  }

  /** One more thinker of the list. */
  lemma FirstMetNext(types: Registry, heap: Heap, players: map<Addr, byte>, first: seq<Addr>, a: Addr, thinkerClass: nat,
                     all: set<Addr>)
    requires Storable(types, heap) && AreThinkers(types, heap, first + [a], thinkerClass) && a !in first
    requires FirstMet(types, heap, players, first, thinkerClass) == first
    requires Fence(types, heap, first + [a], thinkerClass, all)
    ensures FirstMet(types, heap, players, first + [a], thinkerClass) == first + [a]
  {
    var t := WriteThinkers(types, heap, players, EMPTY, first).tables;
    assert forall b :: b in first + [a] ==> IsThinker(types, heap, b, thinkerClass);
    assert a in first + [a] && IsThinker(types, heap, a, thinkerClass);
    WriteThinkersNext(types, heap, players, EMPTY, first, a);
    WritesOnlyReachableThinkers(types, heap, players, EMPTY, first + [a], all);
    var more := MapsNext(types, heap, players, t, a);
    NoMoreThinkers(types, heap, first, a, t.objects, more, thinkerClass, all);
  }

  lemma SomeAreThinkers(types: Registry, heap: Heap, thinkers: seq<Addr>, thinkerClass: nat, n: nat)
    requires AreThinkers(types, heap, thinkers, thinkerClass) && n <= |thinkers|
    ensures AreThinkers(types, heap, thinkers[..n], thinkerClass)
    ensures forall a :: a in thinkers[..n] ==> a in heap
  {
  }

  lemma LastIsNew(s: seq<Addr>, n: nat)
    requires Distinct(s) && 0 < n <= |s|
    ensures s[n - 1] !in s[..n - 1] && s[..n] == s[..n - 1] + [s[n - 1]]
  {
  }

  lemma OneMoreInOrder(types: Registry, heap: Heap, players: map<Addr, byte>, thinkers: seq<Addr>, thinkerClass: nat,
                       n: nat)
    requires Storable(types, heap) && AreThinkers(types, heap, thinkers, thinkerClass) && Distinct(thinkers)
    requires 0 < n <= |thinkers| && NoneAhead(types, heap, thinkers, thinkerClass, n)
    requires FirstMet(types, heap, players, thinkers[..n - 1], thinkerClass) == thinkers[..n - 1]
    ensures FirstMet(types, heap, players, thinkers[..n], thinkerClass) == thinkers[..n]
  {
    var all: set<Addr> :| Fence(types, heap, thinkers[..n], thinkerClass, all);
    SomeAreThinkers(types, heap, thinkers, thinkerClass, n);
    LastIsNew(thinkers, n);
    hide Storable, AreThinkers, FirstMet, NoneAhead, Distinct, Fence;
    FirstMetNext(types, heap, players, thinkers[..n - 1], thinkers[n - 1], thinkerClass, all);
  }

  /** When no thinker of the list leads to one further down, or to one that is not in it, the loaded list is
      the image of the saved one. */
  lemma {:induction false} InOrderUnlessAhead(types: Registry, heap: Heap, players: map<Addr, byte>,
                                              thinkers: seq<Addr>, thinkerClass: nat, n: nat)
    requires Storable(types, heap) && AreThinkers(types, heap, thinkers, thinkerClass) && Distinct(thinkers)
    requires n <= |thinkers| && forall i :: 0 <= i <= |thinkers| ==> NoneAhead(types, heap, thinkers, thinkerClass, i)
    ensures FirstMet(types, heap, players, thinkers[..n], thinkerClass) == thinkers[..n]
    decreases n
  {
    if n == 0 {
    } else {
      SomeAreThinkers(types, heap, thinkers, thinkerClass, n - 1);
      hide Storable, AreThinkers, FirstMet, NoneAhead, Distinct;
      InOrderUnlessAhead(types, heap, players, thinkers, thinkerClass, n - 1);
      OneMoreInOrder(types, heap, players, thinkers, thinkerClass, n);
    }
  }

  // ----- And only when nothing met early is out of order

  lemma {:induction false} WriteThinkersExtends(types: Registry, heap: Heap, players: map<Addr, byte>, t: Tables,
                                                first: seq<Addr>, more: seq<Addr>)
    requires Storable(types, heap) && Consistent(types, heap, t) && forall a :: a in first + more ==> a in heap
    ensures forall a :: a in first ==> a in heap
    ensures Extends(WriteThinkers(types, heap, players, t, first).tables,
                    WriteThinkers(types, heap, players, t, first + more).tables)
    decreases |more|
  {
    assert forall a :: a in first ==> a in first + more;
    if more == [] {
      assert first + more == first;
    } else {
      var most, last := more[..|more| - 1], more[|more| - 1];
      assert first + more == (first + most) + [last];
      assert forall a :: a in first + most ==> a in first + more;
      assert last in first + more;
      WriteThinkersExtends(types, heap, players, t, first, most);
      WriteThinkersNext(types, heap, players, t, first + most, last);
    }
  }

  /** The thinkers met after the first n of a list are the first of those met after all of it. */
  lemma MetPrefix(types: Registry, heap: Heap, players: map<Addr, byte>, thinkers: seq<Addr>, thinkerClass: nat, n: nat)
    requires Storable(types, heap) && (forall a :: a in thinkers ==> a in heap) && n <= |thinkers|
    ensures FirstMet(types, heap, players, thinkers[..n], thinkerClass) <=
            FirstMet(types, heap, players, thinkers, thinkerClass)
  {
    assert thinkers == thinkers[..n] + thinkers[n..];
    hide Storable, WriteThinkers, Linked;
    WriteThinkersExtends(types, heap, players, EMPTY, thinkers[..n], thinkers[n..]);
    var early := WriteThinkers(types, heap, players, EMPTY, thinkers[..n]).tables.objects;
    var late := WriteThinkers(types, heap, players, EMPTY, thinkers).tables.objects;
    var more := SplitOff(early, late);
    LinkedAppend(types, heap, early, more, thinkerClass);
  }

  /** Two smallest closed sets around the same thinkers are one. */
  lemma ReachedOnce(heap: Heap, thinkers: seq<Addr>, all: set<Addr>, reached: set<Addr>)
    requires IsReachableSet(heap, thinkers, all) && IsReachableSet(heap, thinkers, reached)
    ensures all == reached
  {
  }

  /** The objects that can be reached from a list of thinkers are those that saving it maps. */
  lemma ReachedAreMapped(types: Registry, heap: Heap, players: map<Addr, byte>, thinkers: seq<Addr>, thinkerClass: nat,
                         all: set<Addr>)
    requires Storable(types, heap) && AreThinkers(types, heap, thinkers, thinkerClass)
    requires IsReachableSet(heap, thinkers, all)
    ensures forall a :: a in all <==> a in WriteThinkers(types, heap, players, EMPTY, thinkers).tables.objects
    ensures forall a :: a in thinkers ==> a in all
  {
    var alloc: nat -> Addr := i => i;
    SaveLoadIsomorphic(types, heap, players, alloc, thinkers, thinkerClass, []);
    hide WriteThinkers, Closed, Smallest;
    var phi := Correspondence(alloc, WriteThinkers(types, heap, players, EMPTY, thinkers).tables);
    ReachedOnce(heap, thinkers, all, phi.Keys);
  }

  /** The thinkers that can be reached from the first n of a list are the first of those met. */
  lemma ReachedFence(types: Registry, heap: Heap, players: map<Addr, byte>, thinkers: seq<Addr>, thinkerClass: nat,
                     n: nat, all: set<Addr>)
    requires Storable(types, heap) && AreThinkers(types, heap, thinkers, thinkerClass) && n <= |thinkers|
    requires IsReachableSet(heap, thinkers[..n], all)
    ensures Fence(types, heap, FirstMet(types, heap, players, thinkers[..n], thinkerClass), thinkerClass, all)
    ensures forall a :: a in thinkers[..n] ==> a in FirstMet(types, heap, players, thinkers[..n], thinkerClass)
  {
    ReachedAreMapped(types, heap, players, thinkers[..n], thinkerClass, all);
    assert forall a :: a in thinkers[..n] ==> IsThinker(types, heap, a, thinkerClass);
  }

  /** A prefix that holds the first n elements of a list without repetitions has at least n. */
  lemma PrefixHolds(s: seq<Addr>, first: seq<Addr>, n: nat)
    requires Distinct(s) && first <= s && n <= |s| && forall a :: a in s[..n] ==> a in first
    ensures n <= |first| <= |s| && first == s[..|first|]
  {
    if |first| < n {
      NextIsNew(s, |first|, n);
    }
  }

  lemma NextIsNew(s: seq<Addr>, m: nat, n: nat)
    requires Distinct(s) && m < n <= |s|
    ensures s[m] in s[..n] && s[m] !in s[..m]
  {
    assert s[..n][m] == s[m];
  }

  lemma {:induction false} LinkedDistinct(types: Registry, heap: Heap, objects: seq<Addr>, thinkerClass: nat)
    requires Distinct(objects)
    ensures Distinct(Linked(types, heap, objects, thinkerClass))
    decreases |objects|
  {
    if objects == [] {
    } else {
      var front, last := objects[..|objects| - 1], objects[|objects| - 1];
      LinkedDistinct(types, heap, front, thinkerClass);
      assert last !in front;
    }
  }

  lemma MetOnce(types: Registry, heap: Heap, players: map<Addr, byte>, thinkers: seq<Addr>, thinkerClass: nat)
    requires Storable(types, heap) && forall a :: a in thinkers ==> a in heap
    ensures Distinct(FirstMet(types, heap, players, thinkers, thinkerClass))
  {
    LinkedDistinct(types, heap, WriteThinkers(types, heap, players, EMPTY, thinkers).tables.objects, thinkerClass);
  }

  /** If the loaded list is the image of the saved one, then what can be reached from the first n of its thinkers
      are, as far as they are thinkers, the first m of the list for some m: nothing outside the list, and nothing
      further down without all that stands in between. */
  lemma InOrderFences(types: Registry, heap: Heap, players: map<Addr, byte>, thinkers: seq<Addr>, thinkerClass: nat,
                      n: nat, all: set<Addr>) returns (m: nat)
    requires Storable(types, heap) && AreThinkers(types, heap, thinkers, thinkerClass) && n <= |thinkers|
    requires FirstMet(types, heap, players, thinkers, thinkerClass) == thinkers
    requires IsReachableSet(heap, thinkers[..n], all)
    ensures n <= m <= |thinkers| && Fence(types, heap, thinkers[..m], thinkerClass, all)
  {
    assert forall a :: a in thinkers ==> a in heap;
    hide FirstMet, Storable, IsReachableSet, Fence, AreThinkers, Distinct;
    MetPrefix(types, heap, players, thinkers, thinkerClass, n);
    ReachedFence(types, heap, players, thinkers, thinkerClass, n, all);
    MetOnce(types, heap, players, thinkers, thinkerClass);
    m := |FirstMet(types, heap, players, thinkers[..n], thinkerClass)|;
    PrefixHolds(thinkers, FirstMet(types, heap, players, thinkers[..n], thinkerClass), n);
  }

  // ----- When it is not

  /** An object with a single pointer. */
  function Pointer(cls: nat, target: Option<Addr>): Object {
    Object(Some(cls), [RefValue(target)])
  }

  /** An object without a target adds itself. */
  lemma WritePlain(types: Registry, heap: Heap, players: map<Addr, byte>, t: Tables, a: Addr, cls: nat)
    requires Storable(types, heap) && Consistent(types, heap, t) && a in heap && heap[a] == Pointer(cls, None)
    requires a !in t.objects
    ensures WriteRef(types, heap, players, t, Some(a)).tables == AddObject(heap, t, a)
  {
    var t1 := AddObject(heap, t, a);
    MapNew(types, heap, t, a);
    var fields := heap[a].fields;
    assert fields[1..] == [];
    assert WriteValue(types, heap, players, t1, fields[0]).tables == t1;
    assert WriteFields(types, heap, players, t1, fields).tables == t1;
  }

  /** One with a target adds itself and what its target adds. */
  lemma WritePointer(types: Registry, heap: Heap, players: map<Addr, byte>, t: Tables, a: Addr, cls: nat, target: Addr)
    requires Storable(types, heap) && Consistent(types, heap, t) && a in heap && heap[a] == Pointer(cls, Some(target))
    requires a !in t.objects && target in heap
    ensures Consistent(types, heap, AddObject(heap, t, a))
    ensures WriteRef(types, heap, players, t, Some(a)).tables ==
            WriteRef(types, heap, players, AddObject(heap, t, a), Some(target)).tables
  {
    var t1 := AddObject(heap, t, a);
    MapNew(types, heap, t, a);
    var fields := heap[a].fields;
    assert fields[1..] == [];
    var first := WriteValue(types, heap, players, t1, fields[0]);
    assert WriteFields(types, heap, players, t1, fields).tables == first.tables;
  }

  /** Three thinkers, of which the first points to the third. */
  ghost predicate PointsAhead(types: Registry, heap: Heap, a: Addr, b: Addr, c: Addr, cls: nat) {
    a in heap && b in heap && c in heap && a != b && b != c && a != c && cls < |types| &&
    heap[a] == Pointer(cls, Some(c)) && heap[b] == Pointer(cls, None) && heap[c] == Pointer(cls, None)
  }

  /** A further object of a class that is in the table. */
  lemma AddNext(types: Registry, heap: Heap, objects: seq<Addr>, a: Addr, cls: nat)
    requires Storable(types, heap) && Consistent(types, heap, Tables(objects, [cls]))
    requires a in heap && heap[a].cls == Some(cls) && a !in objects
    ensures AddObject(heap, Tables(objects, [cls]), a) == Tables(objects + [a], [cls])
    ensures Consistent(types, heap, Tables(objects + [a], [cls]))
  {
    MapNew(types, heap, Tables(objects, [cls]), a);
  }

  lemma FirstMaps(types: Registry, heap: Heap, players: map<Addr, byte>, a: Addr, b: Addr, c: Addr, cls: nat)
    requires Storable(types, heap) && PointsAhead(types, heap, a, b, c, cls)
    ensures Consistent(types, heap, EMPTY) && Consistent(types, heap, Tables([a, c], [cls]))
    ensures WriteRef(types, heap, players, EMPTY, Some(a)).tables == Tables([a, c], [cls])
  {
    WritePointer(types, heap, players, EMPTY, a, cls, c);
    var t1 := AddObject(heap, EMPTY, a);
    assert t1 == Tables([a], [cls]) && [a] + [c] == [a, c];
    hide Storable, Consistent, WriteRef, AddObject;
    AddNext(types, heap, [a], c, cls);
    WritePlain(types, heap, players, t1, c, cls);
  }

  lemma SecondMaps(types: Registry, heap: Heap, players: map<Addr, byte>, a: Addr, b: Addr, c: Addr, cls: nat)
    requires Storable(types, heap) && PointsAhead(types, heap, a, b, c, cls)
    requires Consistent(types, heap, Tables([a, c], [cls]))
    ensures Consistent(types, heap, Tables([a, c, b], [cls]))
    ensures WriteRef(types, heap, players, Tables([a, c], [cls]), Some(b)).tables == Tables([a, c, b], [cls])
  {
    hide Storable, Consistent, WriteRef, AddObject;
    AddNext(types, heap, [a, c], b, cls);
    WritePlain(types, heap, players, Tables([a, c], [cls]), b, cls);
    assert [a, c] + [b] == [a, c, b];
  }

  lemma ThirdIsMapped(types: Registry, heap: Heap, players: map<Addr, byte>, a: Addr, b: Addr, c: Addr, cls: nat)
    requires Storable(types, heap) && PointsAhead(types, heap, a, b, c, cls)
    requires Consistent(types, heap, Tables([a, c, b], [cls]))
    ensures WriteRef(types, heap, players, Tables([a, c, b], [cls]), Some(c)).tables == Tables([a, c, b], [cls])
  {
    hide Storable, Consistent;
    var t := Tables([a, c, b], [cls]);
    assert t.objects[1] == c && t.classes[0] == cls;
  }

  lemma MapsAhead(types: Registry, heap: Heap, players: map<Addr, byte>, a: Addr, b: Addr, c: Addr, cls: nat)
    requires Storable(types, heap) && PointsAhead(types, heap, a, b, c, cls)
    ensures forall x :: x in [a, b, c] ==> x in heap
    ensures WriteThinkers(types, heap, players, EMPTY, [a, b, c]).tables == Tables([a, c, b], [cls])
  {
    hide Storable, Consistent, WriteRef, WriteThinkers;
    FirstMaps(types, heap, players, a, b, c, cls);
    SecondMaps(types, heap, players, a, b, c, cls);
    ThirdIsMapped(types, heap, players, a, b, c, cls);
    hide PointsAhead;
    WriteTwo(types, heap, players, [a, b, c], Tables([a, c], [cls]), Tables([a, c, b], [cls]));
  }

  lemma WriteTwo(types: Registry, heap: Heap, players: map<Addr, byte>, s: seq<Addr>, t2: Tables, t3: Tables)
    requires Storable(types, heap) && Consistent(types, heap, EMPTY)
    requires |s| == 3 && forall a :: a in s ==> a in heap
    requires WriteRef(types, heap, players, EMPTY, Some(s[0])).tables == t2
    requires Consistent(types, heap, t2) && WriteRef(types, heap, players, t2, Some(s[1])).tables == t3
    requires Consistent(types, heap, t3) && WriteRef(types, heap, players, t3, Some(s[2])).tables == t3
    ensures WriteThinkers(types, heap, players, EMPTY, s).tables == t3
  {
    hide Storable, Consistent, WriteRef;
    var s1, s2 := s[1..], s[1..][1..];
    assert s2 == [s[2]] && s2[1..] == [];
    assert WriteThinkers(types, heap, players, t3, []).tables == t3;
    assert WriteThinkers(types, heap, players, t3, s2).tables == t3;
    assert WriteThinkers(types, heap, players, t2, s1).tables == t3;
  }

  /** The third is met before the second, so it comes before it in the loaded list. */
  lemma ReferenceAheadReorders(types: Registry, heap: Heap, players: map<Addr, byte>, a: Addr, b: Addr, c: Addr,
                               cls: nat, thinkerClass: nat)
    requires Storable(types, heap) && PointsAhead(types, heap, a, b, c, cls)
    requires Descends(types, cls, Some(thinkerClass))
    ensures (forall x :: x in [a, b, c] ==> x in heap)
    ensures FirstMet(types, heap, players, [a, b, c], thinkerClass) == [a, c, b] != [a, b, c]
  {
    MapsAhead(types, heap, players, a, b, c, cls);
    AllLinked(types, heap, [a, c, b], thinkerClass);
    hide Storable, WriteThinkers, Linked;
    assert [a, c, b][1] != [a, b, c][1];
  }

  const ONE_CLASS: Registry := [TypeInfo([65], {0}, [RefField(Some(0))])]
  const THREE: Heap := map[0 := Pointer(0, Some(2)), 1 := Pointer(0, None), 2 := Pointer(0, None)]

  /** Such thinkers, with valid pointers to a registered class. */
  lemma PointersAheadExist()
    ensures Storable(ONE_CLASS, THREE) && PointsAhead(ONE_CLASS, THREE, 0, 1, 2, 0)
    ensures AreThinkers(ONE_CLASS, THREE, [0, 1, 2], 0) && Descends(ONE_CLASS, 0, Some(0))
  {
  }

  /** Saving three thinkers in the order 0, 1, 2 brings them back in the order 0, 2, 1. */
  lemma ThreeReordered(players: map<Addr, byte>)
    ensures Storable(ONE_CLASS, THREE) && AreThinkers(ONE_CLASS, THREE, [0, 1, 2], 0)
    ensures FirstMet(ONE_CLASS, THREE, players, [0, 1, 2], 0) == [0, 2, 1]
  {
    PointersAheadExist();
    ReferenceAheadReorders(ONE_CLASS, THREE, players, 0, 1, 2, 0, 0);
  }
}
