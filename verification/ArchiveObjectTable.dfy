/** The object table of FArchive in common/farchive.cpp: a growing array of objects threaded into 137
    hash chains. Looking an object up agrees with searching the table from its end. */
module ArchiveObjectTable {
  import opened Wrappers
  import opened ArchiveBytes
  import opened ArchiveGraph

  const HASH_SIZE: nat := 137
  const ALL_ONES: nat := DWORD_LIMIT - 1

  /** m_ObjectHash is filled with ~0 widened to 64 bits; loading a link into a DWORD cuts it back to 32. */
  const EMPTY_LINK: nat := 0xFFFF_FFFF_FFFF_FFFF

  function ToDword(link: nat): nat {
    link % DWORD_LIMIT
  }

  datatype Entry = Entry(mapped: Option<Addr>, hashNext: nat)

  function HashObject(obj: Addr): (h: nat)
    ensures h < HASH_SIZE
  {
    obj % HASH_SIZE
  }

  // ----- Hash chains over a table

  /** The last of the first n objects that hashes to h, or all-ones. */
  function LastInBucket(objects: seq<Addr>, n: nat, h: nat): nat
    requires n <= |objects|
    decreases n
  {
    if n == 0 then ALL_ONES
    else if HashObject(objects[n - 1]) == h then n - 1
    else LastInBucket(objects, n - 1, h)
  }

  /** The links form, for every bucket, the chain of its objects from the newest to the oldest. */
  ghost predicate Chains(objects: seq<Addr>, entries: seq<Entry>, heads: seq<nat>) {
    |entries| == |objects| < ALL_ONES && |heads| == HASH_SIZE &&
    (forall h :: 0 <= h < HASH_SIZE ==> ToDword(heads[h]) == LastInBucket(objects, |objects|, h)) &&
    forall i :: 0 <= i < |objects| ==>
      entries[i].mapped == Some(objects[i]) &&
      ToDword(entries[i].hashNext) == LastInBucket(objects, i, HashObject(objects[i]))
  }

  lemma {:induction false} LastInBucketPrefix(objects: seq<Addr>, obj: Addr, n: nat, h: nat)
    requires n <= |objects|
    ensures LastInBucket(objects + [obj], n, h) == LastInBucket(objects, n, h)
    decreases n
  {
    if n == 0 {
    } else {
      LastInBucketPrefix(objects, obj, n - 1, h);
    }
  }

  lemma LastInBucketNext(objects: seq<Addr>, obj: Addr, h: nat)
    ensures LastInBucket(objects + [obj], |objects| + 1, h) ==
            if HashObject(obj) == h then |objects| else LastInBucket(objects, |objects|, h)
  {
    LastInBucketPrefix(objects, obj, |objects|, h);
  }

  lemma {:induction false} LastInBucketIsLast(objects: seq<Addr>, n: nat, h: nat)
    requires n <= |objects| < ALL_ONES
    ensures var r := LastInBucket(objects, n, h); r == ALL_ONES || (r < n && HashObject(objects[r]) == h)
    ensures var r := LastInBucket(objects, n, h);
            forall i :: 0 <= i < n && (r == ALL_ONES || r < i) ==> HashObject(objects[i]) != h
    decreases n
  {
    if n == 0 {
    } else {
      LastInBucketIsLast(objects, n - 1, h);
    }
  }

  /** Threading a new object in front of its chain. */
  lemma ChainsAppend(objects: seq<Addr>, entries: seq<Entry>, heads: seq<nat>, obj: Addr)
    requires Chains(objects, entries, heads) && |objects| + 1 < ALL_ONES
    ensures var hash := HashObject(obj);
            Chains(objects + [obj], entries + [Entry(Some(obj), heads[hash])], heads[hash := |objects|])
  {
    hide LastInBucket, HashObject;
    var n, objects' := |objects|, objects + [obj];
    forall h | 0 <= h < HASH_SIZE
      ensures LastInBucket(objects', n + 1, h) == if HashObject(obj) == h then n else LastInBucket(objects, n, h)
    {
      LastInBucketNext(objects, obj, h);
    }
    forall i | 0 <= i <= n
      ensures LastInBucket(objects', i, HashObject(objects'[i])) == LastInBucket(objects, i, HashObject(objects'[i]))
    {
      LastInBucketPrefix(objects, obj, i, HashObject(objects'[i]));
    }
  }

  lemma {:induction false} PositionIsLast(objects: seq<Addr>, index: nat, obj: Addr)
    requires index < |objects| && objects[index] == obj
    requires forall i :: index < i < |objects| ==> objects[i] != obj
    ensures Position(objects, obj) == Some(index)
    decreases |objects|
  {
    if index == |objects| - 1 {
    } else {
      PositionIsLast(objects[..|objects| - 1], index, obj);
    }
  }

  /** A search has reached `index` in the chain of its bucket and found only other objects on the way. */
  ghost predicate Searching(objects: seq<Addr>, obj: Addr, bound: nat, index: nat) {
    bound <= |objects| && index == LastInBucket(objects, bound, HashObject(obj)) &&
    (index == ALL_ONES || index < bound) &&
    forall i :: 0 <= i < |objects| && (index == ALL_ONES || index < i) ==> objects[i] != obj
  }

  lemma SearchStart(objects: seq<Addr>, entries: seq<Entry>, heads: seq<nat>, obj: Addr)
    requires Chains(objects, entries, heads)
    ensures Searching(objects, obj, |objects|, ToDword(heads[HashObject(obj)]))
  {
    LastInBucketIsLast(objects, |objects|, HashObject(obj));
  }

  lemma SearchStep(objects: seq<Addr>, entries: seq<Entry>, heads: seq<nat>, obj: Addr, bound: nat, index: nat)
    requires Chains(objects, entries, heads) && Searching(objects, obj, bound, index)
    requires index != ALL_ONES && entries[index].mapped != Some(obj)
    ensures Searching(objects, obj, index, ToDword(entries[index].hashNext))
  {
    LastInBucketIsLast(objects, bound, HashObject(obj));
    LastInBucketIsLast(objects, index, HashObject(obj));
  }

  lemma SearchEnd(objects: seq<Addr>, entries: seq<Entry>, heads: seq<nat>, obj: Addr, bound: nat, index: nat)
    requires Chains(objects, entries, heads) && Searching(objects, obj, bound, index)
    requires index == ALL_ONES || entries[index].mapped == Some(obj)
    ensures index == IndexOrOnes(objects, obj)
  {
    if index != ALL_ONES {
      PositionIsLast(objects, index, obj);
    }
  }

  /** FindObjectIndex in one word: the position of the object, or all-ones. */
  function IndexOrOnes(objects: seq<Addr>, obj: Addr): nat {
    match Position(objects, obj)
    case None => ALL_ONES
    case Some(i) => i
  }

  // ----- The table

  class ObjectTable {
    var m_ObjectCount: nat
    var m_MaxObjectCount: nat
    var m_ObjectMap: array?<Entry>
    const m_ObjectHash: array<nat>
    ghost var objects: seq<Addr>

    ghost var Repr: set<object>

    ghost predicate Valid()
      reads this, Repr
    {
      && this in Repr && m_ObjectHash in Repr && (m_ObjectMap != null ==> m_ObjectMap in Repr)
      && m_ObjectHash.Length == HASH_SIZE
      && m_ObjectCount == |objects| <= m_MaxObjectCount
      && (m_ObjectMap == null <==> m_MaxObjectCount == 0)
      && (m_ObjectMap != null ==> m_ObjectMap.Length == m_MaxObjectCount && m_ObjectMap as object != m_ObjectHash)
      && Chains(objects, if m_ObjectMap == null then [] else m_ObjectMap[..m_ObjectCount], m_ObjectHash[..])
    }

    constructor ()
      ensures Valid() && fresh(Repr) && objects == []
    {
      m_ObjectCount, m_MaxObjectCount, m_ObjectMap := 0, 0, null;
      m_ObjectHash := new nat[HASH_SIZE](_ => EMPTY_LINK);
      objects := [];
      new;
      Repr := {this, m_ObjectHash};
    }

    /** The capacity doubles from 1024; growing keeps every earlier entry. */
    method Grow()
      requires Valid() && m_ObjectCount == m_MaxObjectCount
      modifies this
      ensures Valid() && objects == old(objects) && m_ObjectCount < m_MaxObjectCount
      ensures fresh(Repr - old(Repr))
    {
      m_MaxObjectCount := if m_MaxObjectCount != 0 then m_MaxObjectCount * 2 else 1024;
      var grown := new Entry[m_MaxObjectCount](_ => Entry(None, ALL_ONES));
      if m_ObjectMap != null {
        forall i | 0 <= i < m_ObjectCount {
          grown[i] := m_ObjectMap[i];
        }
        assert grown[..m_ObjectCount] == m_ObjectMap[..m_ObjectCount];
      }
      m_ObjectMap := grown;
      Repr := Repr + {grown};
    }

    method MapObject(obj: Addr) returns (index: nat)
      requires Valid() && |objects| + 1 < ALL_ONES
      modifies Repr
      ensures Valid() && fresh(Repr - old(Repr))
      ensures objects == old(objects) + [obj] && index == |old(objects)|
    {
      if m_ObjectCount >= m_MaxObjectCount {
        Grow();
      }
      ghost var entries, heads := m_ObjectMap[..m_ObjectCount], m_ObjectHash[..];
      ChainsAppend(objects, entries, heads, obj);
      index := m_ObjectCount;
      m_ObjectCount := m_ObjectCount + 1;
      var hash := HashObject(obj);
      m_ObjectMap[index] := Entry(Some(obj), m_ObjectHash[hash]);
      m_ObjectHash[hash] := index;
      objects := objects + [obj];
      assert m_ObjectMap[..m_ObjectCount] == entries + [Entry(Some(obj), heads[hash])];
      assert m_ObjectHash[..] == heads[hash := index];
    }

    /** The object at an index, as m_ObjectMap[index].object. */
    method ObjectAt(index: nat) returns (obj: Addr)
      requires Valid() && index < |objects|
      ensures obj == objects[index]
    {
      ghost var entries := m_ObjectMap[..m_ObjectCount];
      assert m_ObjectMap[index] == entries[index];
      obj := m_ObjectMap[index].mapped.value;
    }

    /** Following a chain skips only other objects, and its links strictly decrease. */
    method FindObjectIndex(obj: Addr) returns (index: nat)
      requires Valid()
      ensures index == IndexOrOnes(objects, obj)
    {
      if m_ObjectMap == null {
        return ALL_ONES;
      }
      ghost var entries, heads := m_ObjectMap[..m_ObjectCount], m_ObjectHash[..];
      SearchStart(objects, entries, heads, obj);
      index := ToDword(m_ObjectHash[HashObject(obj)]);
      ghost var bound: nat := |objects|;
      while index != ALL_ONES && m_ObjectMap[index].mapped != Some(obj)
        invariant Searching(objects, obj, bound, index)
        decreases bound
      {
        assert m_ObjectMap[index] == entries[index];
        SearchStep(objects, entries, heads, obj, bound, index);
        bound := index;
        index := ToDword(m_ObjectMap[index].hashNext);
      }
      assert index != ALL_ONES ==> m_ObjectMap[index] == entries[index];
      SearchEnd(objects, entries, heads, obj, bound, index);
    }
  }
}
