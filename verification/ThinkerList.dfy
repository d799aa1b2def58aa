/** The intrusive list of thinkers of common/dthinker.cpp and the deletion queue of common/dobject.cpp, updated
    in place. Its methods do what the steps of `ThinkerRuns` say, and the list holds exactly the live thinkers. */
module ThinkerList {
  import opened Wrappers
  import opened ThinkerRuns

  // ----- Chains of links

  ghost function Nth(live: seq<Thinker>, i: int): Thinker? {
    if 0 <= i < |live| then live[i] else null
  }

  ghost predicate LinkedAt(live: seq<Thinker>, i: nat)
    requires i < |live|
    reads live[i]
  {
    live[i].m_Next == Nth(live, i + 1) && live[i].m_Prev == Nth(live, i - 1)
  }

  /** The links run through the thinkers of a sequence in both directions, and end at its ends. */
  ghost predicate Linked(live: seq<Thinker>, first: Thinker?, last: Thinker?)
    reads live
  {
    first == Nth(live, 0) && last == Nth(live, |live| - 1) && forall i :: 0 <= i < |live| ==> LinkedAt(live, i)
  }

  ghost predicate AllDistinct(live: seq<Thinker>) {
    forall i, j :: 0 <= i < j < |live| ==> live[i] != live[j]
  }

  /** The neighbours of a thinker when the k-th one is taken out. */
  lemma Neighbours(live: seq<Thinker>, k: nat, i: nat)
    requires AllDistinct(live) && k < |live| && i < |live| - 1
    ensures var shorter, j := live[..k] + live[k + 1..], if i < k then i else i + 1;
            shorter[i] == live[j] && shorter[i] in live &&
            Nth(shorter, i + 1) == (if live[j] == Nth(live, k - 1) then Nth(live, k + 1) else Nth(live, j + 1)) &&
            Nth(shorter, i - 1) == (if live[j] == Nth(live, k + 1) then Nth(live, k - 1) else Nth(live, j - 1))
  {
  }

  // ----- Distinct elements

  lemma {:induction false} DistinctElements(s: seq<Thinker>)
    requires NoDuplicates(s)
    ensures AllDistinct(s)
  {
    forall i, j | 0 <= i < j < |s|
      ensures s[i] != s[j]
    {
      assert s == s[..j] + [s[j]] + s[j + 1..];
      assert s[i] in s[..j];
      assert multiset(s)[s[j]] == multiset(s[..j])[s[j]] + multiset([s[j]])[s[j]] + multiset(s[j + 1..])[s[j]];
    }
  }

  lemma LiveDistinct(s: State)
    requires s.Accounted()
    ensures AllDistinct(s.Live())
    ensures forall t :: t in s.Live() ==> t in s.made && t !in s.dead && t !in s.freed && t !in Queued(s.queue) && t !in s.linger
  {
    NoDuplicatesDrop(s.made, s.dead);
    DistinctElements(s.Live());
    forall t | t in s.Live()
      ensures t in s.made && t !in s.dead && t !in s.freed && t !in Queued(s.queue) && t !in s.linger
    {
      Members(s.made, s.dead, t);
      OnePlace(s, t);
    }
  }

  lemma NotYetAnywhere(s: State, t: Thinker)
    requires s.Accounted() && t !in s.made
    ensures t !in s.dead && t !in s.held && t !in Queued(s.queue) && t !in s.linger && t !in s.freed && t !in s.Live()
  {
    hide NoDuplicates;
    assert multiset(s.made)[t] == 0;
  }

  /** Destroy up to the sweep. */
  ghost function RetireStep(s: State, t: Thinker): State {
    if t in s.held then s.(dead := s.dead + {t}, linger := s.linger + [t])
    else s.(dead := s.dead + {t}, queue := s.queue + [Some(t)])
  }

  /** A new thinker, in the list of those alive. */
  lemma ConstructRight(s: State, t: Thinker)
    requires s.Accounted() && t !in s.made
    ensures t !in s.dead && t !in s.held && t !in Queued(s.queue) && t !in s.Live()
    ensures var s' := Step(s, Op.Construct(t)); s'.Accounted() && s'.Live() == s.Live() + [t] && AllDistinct(s'.Live())
  {
    NotYetAnywhere(s, t);
    ConstructAccounted(s, t);
    LiveAfter(s, Op.Construct(t));
    LiveDistinct(Step(s, Op.Construct(t)));
  }

  lemma RetireAccounted(s: State, t: Thinker)
    requires s.Accounted() && t in s.made && t !in s.dead
    ensures RetireStep(s, t).Accounted()
    ensures Queued(s.queue + [Some(t)]) == Queued(s.queue) + [t]
    ensures t !in Queued(s.queue)
  {
    NotQueued(s, t);
    QueuedOneMore(s.queue, t);
    RetiredCounts(s, t);
    RetiredMade(s, t);
    hide Keep, Queued, Drop, NoDuplicates, State.Live, RetireStep;
  }

  lemma RetiredMade(s: State, t: Thinker)
    requires s.Accounted() && t in s.made
    ensures var s' := RetireStep(s, t); NoDuplicates(s'.made) && forall x :: x in s'.dead + s'.held ==> x in s'.made
  {
    hide Queued, Drop, NoDuplicates;
  }

  lemma RetiredCounts(s: State, t: Thinker)
    requires s.Accounted() && t in s.made && t !in s.dead
    ensures var s' := RetireStep(s, t);
            multiset(s'.made) == multiset(s'.Live()) + multiset(Queued(s'.queue)) + multiset(s'.linger) + multiset(s'.freed)
  {
    QueuedOneMore(s.queue, t);
    DropOneMore(s.made, s.dead, t);
    hide Keep, Queued, Drop, NoDuplicates;
    MovesOne(s.made, Drop(s.made, s.dead), Drop(s.made, s.dead + {t}), Queued(s.queue), s.linger, s.freed, t);
  }

  /** What leaves one part of a whole for another is still in it once. */
  lemma MovesOne(whole: seq<Thinker>, live: seq<Thinker>, live': seq<Thinker>, queued: seq<Thinker>, linger: seq<Thinker>,
                 freed: seq<Thinker>, t: Thinker)
    requires multiset(whole) == multiset(live) + multiset(queued) + multiset(linger) + multiset(freed)
    requires multiset(live') + multiset{t} == multiset(live)
    ensures multiset(whole) == multiset(live') + multiset(queued + [t]) + multiset(linger) + multiset(freed)
    ensures multiset(whole) == multiset(live') + multiset(queued) + multiset(linger + [t]) + multiset(freed)
  {
  }

  lemma NotQueued(s: State, t: Thinker)
    requires s.Accounted() && t in s.made && t !in s.dead
    ensures t !in Queued(s.queue)
  {
    OnePlace(s, t);
    hide State.Accounted, Queued, Keep;
    assert multiset(s.Live())[t] > 0;
  }

  lemma QueuedOneMore(queue: seq<Option<Thinker>>, t: Thinker)
    ensures Queued(queue + [Some(t)]) == Queued(queue) + [t]
  {
    QueuedConcat(queue, [Some(t)]);
    assert Queued([Some(t)]) == [t];
  }

  lemma LingeringAreMade(s: State)
    requires s.Accounted()
    ensures forall t :: t in s.linger ==> t in s.made && t !in s.freed
  {
    forall t | t in s.linger
      ensures t in s.made && t !in s.freed
    {
      OnlyLingers(s, t);
    }
  }

  lemma SameLive(s: State, s': State)
    requires s'.made == s.made && s'.dead == s.dead
    ensures s'.Live() == s.Live()
  {
  }

  lemma QueuedAreMade(s: State)
    requires s.Accounted()
    ensures forall i :: 0 <= i < |s.queue| && s.queue[i].Some? ==> s.queue[i].value in Queued(s.queue)
    ensures forall t :: t in Queued(s.queue) ==> t in s.made
    ensures Queued([]) == []
  {
    forall i | 0 <= i < |s.queue| && s.queue[i].Some?
      ensures s.queue[i].value in Queued(s.queue)
    {
      InQueue(s.queue, i);
    }
    forall t | t in Queued(s.queue)
      ensures t in s.made
    {
      assert multiset(s.made)[t] >= multiset(Queued(s.queue))[t];
    }
  }

  lemma {:induction false} InQueue(queue: seq<Option<Thinker>>, i: nat)
    requires i < |queue| && queue[i].Some?
    ensures queue[i].value in Queued(queue)
    decreases |queue|
  {
    if i == 0 {
    } else {
      InQueue(queue[1..], i - 1);
    }
  }

  lemma {:induction false} DestroyEachAppend(s: State, ts: seq<Thinker>, t: Thinker)
    ensures DestroyEach(s, ts + [t]) == DestroyStep(DestroyEach(s, ts), t)
    decreases |ts|
  {
    if ts == [] {
      assert ts + [t] == [t];
    } else {
      assert (ts + [t])[1..] == ts[1..] + [t];
      DestroyEachAppend(DestroyStep(s, ts[0]), ts[1..], t);
    }
  }

  lemma NullLastStep(queue: seq<Option<Thinker>>, t: Thinker, i: nat)
    requires i < |queue|
    ensures NullLast(queue[..i + 1], t) + queue[i + 1..] ==
            if queue[i] == Some(t) then queue[i := None] else NullLast(queue[..i], t) + queue[i..]
  {
    assert queue[..i + 1][..i] == queue[..i];
    if queue[i] == Some(t) {
      assert queue[i := None] == queue[..i] + [None] + queue[i + 1..];
    } else {
      assert NullLast(queue[..i], t) + [queue[i]] + queue[i + 1..] == NullLast(queue[..i], t) + ([queue[i]] + queue[i + 1..]);
      assert queue[i..] == [queue[i]] + queue[i + 1..];
    }
  }

  lemma StillQueued(s: State, t: Thinker)
    requires s.Accounted() && t in Queued(s.queue)
    ensures forall x :: x != t ==> (x in Queued(NullLast(s.queue, t)) <==> x in Queued(s.queue))
  {
    NullLastRemoves(s.queue, t);
    forall x | x != t
      ensures x in Queued(NullLast(s.queue, t)) <==> x in Queued(s.queue)
    {
      assert multiset(Queued(s.queue))[x] == multiset(Queued(NullLast(s.queue, t)))[x];
    }
  }

  lemma LiveIndex(s: State, t: Thinker) returns (k: nat)
    requires t in s.made && t !in s.dead
    ensures k < |s.Live()| && s.Live()[k] == t
  {
    Members(s.made, s.dead, t);
    assert t in s.Live();
    k :| k < |s.Live()| && s.Live()[k] == t;
  }

  lemma LiveRetired(s: State, t: Thinker, k: nat)
    requires AllDistinct(s.Live()) && k < |s.Live()| && s.Live()[k] == t
    ensures RetireStep(s, t).Live() == s.Live()[..k] + s.Live()[k + 1..]
    ensures AllDistinct(RetireStep(s, t).Live()) && t !in RetireStep(s, t).Live()
    ensures forall x :: x in RetireStep(s, t).Live() ==> x in s.Live()
  {
    DropTwice(s.made, s.dead, {t});
    DropAt(s.Live(), k);
  }

  /** A thinker that leaves the list of those alive. */
  lemma RetireRight(s: State, t: Thinker) returns (k: nat)
    requires s.Accounted() && t in s.made && t !in s.dead
    ensures k < |s.Live()| && s.Live()[k] == t && t !in s.freed
    ensures t !in Queued(s.queue) && Queued(s.queue + [Some(t)]) == Queued(s.queue) + [t]
    ensures var s' := RetireStep(s, t);
            s'.Accounted() && s'.Live() == s.Live()[..k] + s.Live()[k + 1..] && AllDistinct(s'.Live())
    ensures t !in s.Live()[..k] + s.Live()[k + 1..]
    ensures forall x :: x in s.Live()[..k] + s.Live()[k + 1..] ==> x in s.Live()
  {
    LiveDistinct(s);
    k := LiveIndex(s, t);
    RetireAccounted(s, t);
    LiveRetired(s, t, k);
  }

  lemma NoDuplicatesDrop(s: seq<Thinker>, which: set<Thinker>)
    requires NoDuplicates(s)
    ensures NoDuplicates(Drop(s, which))
  {
    KeepAndDrop(s, which);
    forall x | x in Drop(s, which)
      ensures multiset(Drop(s, which))[x] == 1
    {
      Members(s, which, x);
    }
  }

  lemma {:induction false} DropAt(live: seq<Thinker>, k: nat)
    requires AllDistinct(live) && k < |live|
    ensures Drop(live, {live[k]}) == live[..k] + live[k + 1..]
  {
    var front, back := live[..k], live[k + 1..];
    assert live == front + ([live[k]] + back);
    KeepConcat(front, [live[k]] + back, {live[k]});
    KeepConcat([live[k]], back, {live[k]});
    DropNone(front, {live[k]});
    DropNone(back, {live[k]});
  }

  lemma {:induction false} DropNone(s: seq<Thinker>, which: set<Thinker>)
    requires forall x :: x in s ==> x !in which
    ensures Drop(s, which) == s
  {
    if s == [] {
    } else {
      DropNone(s[1..], which);
    }
  }

  /** The first k entries of s have been looked at; those of them that are kept are the first i of the rest. */
  ghost predicate Sweeping(s: seq<Thinker>, held: set<Thinker>, linger: seq<Thinker>, gone: seq<Thinker>, i: int, k: nat) {
    k <= |s| && linger == Keep(s[..k], held) + s[k..] && gone == Drop(s[..k], held) && i == |Keep(s[..k], held)|
  }

  lemma SweepNext(s: seq<Thinker>, held: set<Thinker>, linger: seq<Thinker>, gone: seq<Thinker>, i: int, k: nat)
    requires Sweeping(s, held, linger, gone, i, k) && i < |linger|
    ensures 0 <= i && k < |s| && linger[i] == s[k]
    ensures if s[k] in held then Sweeping(s, held, linger, gone, i + 1, k + 1)
            else Sweeping(s, held, linger[..i] + linger[i + 1..], gone + [s[k]], i, k + 1)
  {
    assert s[..k + 1] == s[..k] + [s[k]];
    assert s[k..] == [s[k]] + s[k + 1..];
    KeepConcat(s[..k], [s[k]], held);
  }

  lemma NotYetSwept(s: seq<Thinker>, held: set<Thinker>, linger: seq<Thinker>, gone: seq<Thinker>, i: int, k: nat)
    requires Sweeping(s, held, linger, gone, i, k) && AllDistinct(s) && k < |s|
    ensures s[k] !in gone
  {
    Members(s[..k], held, s[k]);
  }

  lemma SweepBounds(s: seq<Thinker>, held: set<Thinker>, linger: seq<Thinker>, gone: seq<Thinker>, i: int, k: nat)
    ensures Sweeping(s, held, s, [], 0, 0)
    ensures Sweeping(s, held, linger, gone, i, k) ==> 0 <= i <= |linger| && k <= |s|
    ensures Sweeping(s, held, linger, gone, i, k) && i >= |linger| ==> linger == Keep(s, held) && gone == Drop(s, held)
  {
    if Sweeping(s, held, linger, gone, i, k) && i >= |linger| {
      assert s[..k] == s;
    }
  }

  lemma Regroup(a: seq<Thinker>, b: seq<Thinker>, c: seq<Thinker>)
    ensures a + b + c == a + (b + c)
  {
  }

  /** No object in the queue has been deleted, and none is in it twice. */
  ghost predicate QueueIntact(queue: seq<Option<Thinker>>, deleted: seq<Thinker>) {
    forall i :: 0 <= i < |queue| && queue[i].Some? ==>
      queue[i].value !in deleted && queue[i].value !in Queued(queue[..i])
  }

  lemma QueuedSteps(queue: seq<Option<Thinker>>, i: nat)
    requires i <= |queue|
    ensures Queued(queue[..0]) == []
    ensures i < |queue| ==>
              Queued(queue[..i + 1]) == Queued(queue[..i]) + if queue[i].Some? then [queue[i].value] else []
  {
    if i < |queue| {
      assert queue[..i + 1] == queue[..i] + [queue[i]];
      QueuedConcat(queue[..i], [queue[i]]);
    }
  }

  lemma IntactQueue(s: State)
    requires s.Accounted()
    ensures QueueIntact(s.queue, s.freed)
  {
    forall i | 0 <= i < |s.queue| && s.queue[i].Some?
      ensures s.queue[i].value !in s.freed && s.queue[i].value !in Queued(s.queue[..i])
    {
      var t, rest := s.queue[i].value, s.queue[i + 1..];
      QueuedSteps(s.queue, i);
      assert s.queue == s.queue[..i + 1] + rest;
      QueuedConcat(s.queue[..i + 1], rest);
      assert multiset(Queued(s.queue))[t] ==
             multiset(Queued(s.queue[..i]))[t] + multiset([t])[t] + multiset(Queued(rest))[t];
      QueuedAreMade(s);
      OnePlace(s, t);
    }
  }

  lemma OneOfFreed(s: State, t: Thinker)
    requires s.Accounted() && t in s.freed
    ensures t !in s.Live() && t !in s.linger && t !in Queued(s.queue) && multiset(s.freed)[t] == 1
  {
    hide Drop;
    assert multiset(s.made)[t] >= multiset(s.freed)[t] >= 1;
    OnePlace(s, t);
  }

  lemma LingeringDistinct(s: State)
    requires s.Accounted()
    ensures AllDistinct(s.linger)
  {
    forall t | t in s.linger
      ensures multiset(s.linger)[t] == 1
    {
      OnlyLingers(s, t);
      OnePlace(s, t);
    }
    DistinctElements(s.linger);
  }

  /** The flags and counts tell the truth about every object that is still in memory. */
  ghost predicate FlagsRight(objects: set<Thinker>, s: State)
    reads objects
  {
    (forall t :: t in objects ==> t.destroyed == (t in s.dead)) &&
    (forall t :: t in objects ==> (t.refCount != 0) == (t in s.held)) &&
    (forall t :: t in objects && t !in s.freed ==> t.ofDestroyed == (t in Queued(s.queue)) && !t.ofCleanup)
  }

  class ThinkerSystem {
    var FirstThinker: Thinker?
    var LastThinker: Thinker?
    var LingerDestroy: seq<Thinker>
    var ToDestroy: seq<Option<Thinker>>
    /** The objects that `delete` has been applied to. */
    var deleted: seq<Thinker>
    ghost var state: State
    ghost var live: seq<Thinker>
    ghost var Repr: set<Thinker>

    /** The list is exactly the live thinkers, in the order of construction. */
    ghost predicate ListRight()
      reads this, Repr
    {
      live == state.Live() && AllDistinct(live) && (forall t :: t in live ==> t in Repr) &&
      Linked(live, FirstThinker, LastThinker)
    }

    ghost predicate Valid()
      reads this, Repr
    {
      (forall t :: t in Repr ==> t in state.made) && (forall t :: t in state.made ==> t in Repr) && state.Accounted() &&
      state.queue == ToDestroy && state.linger == LingerDestroy && state.freed == deleted && FlagsRight(Repr, state) &&
      ListRight()
    }

    /** What has been deleted is on no list that the source still reads, and was deleted once. */
    lemma DeletedIsGone(t: Thinker)
      requires Valid() && t in deleted
      ensures t !in live && t !in LingerDestroy && Some(t) !in ToDestroy && multiset(deleted)[t] == 1
    {
      QueuedAreMade(state);
      OneOfFreed(state, t);
    }

    constructor ()
      ensures Valid() && state == Initially()
    {
      FirstThinker, LastThinker, LingerDestroy, ToDestroy, deleted := null, null, [], [], [];
      state, live, Repr := Initially(), [], {};
    }

    /** The constructor of DThinker puts the new thinker at the end of the list. */
    method Append(t: Thinker, ghost live: seq<Thinker>)
      requires Linked(live, FirstThinker, LastThinker) && AllDistinct(live) && t !in live
      modifies this`FirstThinker, this`LastThinker, t`m_Next, t`m_Prev, (set x | x in live)`m_Next
      ensures Linked(live + [t], FirstThinker, LastThinker)
    {
      ghost var longer := live + [t];
      assert LastThinker != null ==> LinkedAt(live, |live| - 1);
      t.m_Prev := LastThinker;
      t.m_Next := null;
      if LastThinker != null {
        LastThinker.m_Next := t;
      }
      if FirstThinker == null {
        FirstThinker := t;
      }
      LastThinker := t;
      forall i | 0 <= i < |longer|
        ensures LinkedAt(longer, i)
      {
        assert i < |live| ==> old(LinkedAt(live, i));
      }
    }

    /** The relinking in Destroy. The thinker keeps its own links. */
    method Unlink(t: Thinker, ghost live: seq<Thinker>, ghost k: nat)
      requires Linked(live, FirstThinker, LastThinker) && AllDistinct(live) && k < |live| && live[k] == t
      modifies this`FirstThinker, this`LastThinker, (set x | x in live)`m_Next, (set x | x in live)`m_Prev
      ensures Linked(live[..k] + live[k + 1..], FirstThinker, LastThinker)
      ensures t.m_Next == old(t.m_Next)
    {
      ghost var shorter := live[..k] + live[k + 1..];
      assert LinkedAt(live, k);
      assert t.m_Next == Nth(live, k + 1) && t.m_Prev == Nth(live, k - 1);
      assert Nth(live, k + 1) != null ==> Nth(live, k + 1) in live;
      assert Nth(live, k - 1) != null ==> Nth(live, k - 1) in live;
      ghost var before, behind := Nth(live, k - 1), Nth(live, k + 1);
      if FirstThinker == t {
        FirstThinker := t.m_Next;
      }
      if LastThinker == t {
        LastThinker := t.m_Prev;
      }
      if t.m_Next != null {
        t.m_Next.m_Prev := t.m_Prev;
      }
      if t.m_Prev != null {
        t.m_Prev.m_Next := t.m_Next;
      }
      assert forall x :: x in live ==> x.m_Next == if x == before then behind else old(x.m_Next);
      assert forall x :: x in live ==> x.m_Prev == if x == behind then before else old(x.m_Prev);
      forall i | 0 <= i < |shorter|
        ensures LinkedAt(shorter, i)
      {
        var j := if i < k then i else i + 1;
        assert old(LinkedAt(live, j));
        Neighbours(live, k, i);
      }
    }

    // ----- Deleting

    /** The search in ~DObject, from the end of ToDestroy. */
    method NullEntry(t: Thinker)
      modifies this`ToDestroy
      ensures ToDestroy == NullLast(old(ToDestroy), t)
    {
      ghost var queue := ToDestroy;
      var i := |ToDestroy|;
      assert queue[..i] == queue;
      while i > 0
        invariant 0 <= i <= |queue| && ToDestroy == queue
        invariant NullLast(queue, t) == NullLast(queue[..i], t) + queue[i..]
      {
        i := i - 1;
        NullLastStep(queue, t, i);
        if ToDestroy[i] == Some(t) {
          ToDestroy := ToDestroy[i := None];
          return;
        }
      }
    }

    /** `delete` runs ~DObject, which takes the object out of the queue unless it is deleted by a clean-up.
        Deleting an object twice is an error. */
    method Delete(t: Thinker)
      requires t !in deleted
      modifies this`ToDestroy, this`deleted
      ensures deleted == old(deleted) + [t]
      ensures ToDestroy == if !t.ofCleanup && t.ofDestroyed then NullLast(old(ToDestroy), t) else old(ToDestroy)
    {
      if !t.ofCleanup && t.ofDestroyed {
        NullEntry(t);
      }
      deleted := deleted + [t];
    }

    /** An unreferenced thinker is erased from the lingering ones and deleted. */
    method EraseAndDelete(obj: Thinker, i: nat, ghost before: seq<Thinker>, ghost gone: seq<Thinker>)
      requires i < |LingerDestroy| && LingerDestroy[i] == obj && deleted == before + gone && obj !in deleted
      modifies this`LingerDestroy, this`ToDestroy, this`deleted, obj`ofCleanup
      ensures LingerDestroy == old(LingerDestroy)[..i] + old(LingerDestroy)[i + 1..] && ToDestroy == old(ToDestroy)
      ensures deleted == before + (gone + [obj])
    {
      Regroup(before, gone, [obj]);
      obj.ofCleanup := true;
      LingerDestroy := LingerDestroy[..i] + LingerDestroy[i + 1..];
      Delete(obj);
    }

    /** The body of the loop below; erasing an entry moves the next one to its place. */
    method SweepOne(at: int, length: int, ghost s: seq<Thinker>, ghost held: set<Thinker>, ghost before: seq<Thinker>,
                    ghost freed: seq<Thinker>, ghost k: nat)
      returns (i: int, l: int, ghost gone: seq<Thinker>)
      requires 0 <= at < length == |LingerDestroy| && Sweeping(s, held, LingerDestroy, freed, at, k)
      requires forall t :: t in s ==> (t.refCount != 0) == (t in held)
      requires AllDistinct(s) && deleted == before + freed && forall t :: t in s ==> t !in before
      modifies this`LingerDestroy, this`ToDestroy, this`deleted, (set t | t in s)`ofCleanup
      ensures Sweeping(s, held, LingerDestroy, gone, i + 1, k + 1) && l == |LingerDestroy| && freed <= gone
      ensures deleted == before + gone && ToDestroy == old(ToDestroy)
      ensures forall t :: t in s && t !in gone ==> t.ofCleanup == old(t.ofCleanup)
    {
      i, l, gone := at, length, freed;
      var obj := LingerDestroy[i];
      SweepNext(s, held, LingerDestroy, gone, i, k);
      NotYetSwept(s, held, LingerDestroy, gone, i, k);
      hide Keep, Drop, Sweeping, AllDistinct;
      if obj.refCount == 0 {
        EraseAndDelete(obj, i, before, gone);
        gone := gone + [obj];
        l := l - 1;
        i := i - 1;
      }
    }

    /** The loop at the end of Destroy. The index runs behind an erased entry: i steps back before it steps on. */
    method SweepLingering(ghost held: set<Thinker>)
      requires forall t :: t in LingerDestroy ==> (t.refCount != 0) == (t in held)
      requires AllDistinct(LingerDestroy) && forall t :: t in LingerDestroy ==> t !in deleted
      modifies this`LingerDestroy, this`ToDestroy, this`deleted, (set t | t in LingerDestroy)`ofCleanup
      ensures LingerDestroy == Keep(old(LingerDestroy), held) && ToDestroy == old(ToDestroy)
      ensures deleted == old(deleted) + Drop(old(LingerDestroy), held)
      ensures forall t :: t in old(LingerDestroy) && t !in deleted ==> t.ofCleanup == old(t.ofCleanup)
    {
      hide Keep, Drop, Sweeping, AllDistinct;
      ghost var s, before, gone, k: nat := LingerDestroy, deleted, [], 0;
      var l: int := |LingerDestroy|;
      var i: int := 0;
      SweepBounds(s, held, LingerDestroy, gone, i, k);
      while i < l
        invariant 0 <= i <= l && Sweeping(s, held, LingerDestroy, gone, i, k) && l == |LingerDestroy|
        invariant deleted == before + gone && ToDestroy == old(ToDestroy)
        invariant forall t :: t in s && t !in gone ==> t.ofCleanup == old(t.ofCleanup)
        decreases |s| - k
      {
        SweepBounds(s, held, LingerDestroy, gone, i, k);
        i, l, gone := SweepOne(i, l, s, held, before, gone, k);
        i := i + 1;
        k := k + 1;
        SweepBounds(s, held, LingerDestroy, gone, i, k);
      }
      SweepBounds(s, held, LingerDestroy, gone, i, k);
    }

    /** The loop of EndFrame over ToDestroy; nulled entries are skipped. */
    method DeleteQueue()
      requires QueueIntact(ToDestroy, deleted)
      modifies this`ToDestroy, this`deleted, (set t | Some(t) in ToDestroy)`ofCleanup
      ensures ToDestroy == old(ToDestroy) && deleted == old(deleted) + Queued(ToDestroy)
    {
      hide Queued, NullLast;
      ghost var queue, before := ToDestroy, deleted;
      var i := 0;
      QueuedSteps(queue, 0);
      while i < |ToDestroy|
        invariant 0 <= i <= |queue| && ToDestroy == queue && deleted == before + Queued(queue[..i])
      {
        QueuedSteps(queue, i);
        if ToDestroy[i].Some? {
          var obj := ToDestroy[i].value;
          assert Some(obj) in queue;
          obj.ofCleanup := true;
          Delete(obj);
          Regroup(before, Queued(queue[..i]), [obj]);
        }
        i := i + 1;
      }
      assert queue[..|queue|] == queue;
    }

    /** The loop at the end of DestroyAllThinkers. */
    method DeleteLingering()
      requires AllDistinct(LingerDestroy) && forall t :: t in LingerDestroy ==> t !in deleted
      modifies this`ToDestroy, this`deleted, (set t | t in LingerDestroy)`ofCleanup
      ensures ToDestroy == old(ToDestroy) && deleted == old(deleted) + LingerDestroy
    {
      hide NullLast;
      ghost var before := deleted;
      var i := 0;
      while i < |LingerDestroy|
        invariant 0 <= i <= |LingerDestroy| && ToDestroy == old(ToDestroy) && deleted == before + LingerDestroy[..i]
      {
        var obj := LingerDestroy[i];
        obj.ofCleanup := true;
        Delete(obj);
        Regroup(before, LingerDestroy[..i], [obj]);
        assert LingerDestroy[..i + 1] == LingerDestroy[..i] + [obj];
        i := i + 1;
      }
      assert LingerDestroy[..|LingerDestroy|] == LingerDestroy;
    }

    // ----- Operations

    /** Joining the list changes links only. */
    method Attach(t: Thinker)
      requires ListRight() && FlagsRight(Repr, state) && t !in live && t !in Repr
      modifies this`FirstThinker, this`LastThinker, Repr`m_Next, t`m_Next, t`m_Prev
      ensures Linked(live + [t], FirstThinker, LastThinker) && FlagsRight(Repr, state)
    {
      hide State.Live, Drop, Linked, LinkedAt, AllDistinct;
      Append(t, live);
    }

    lemma FlagsExtend(t: Thinker)
      requires FlagsRight(Repr, state) && !t.destroyed && t.refCount == 0 && !t.ofDestroyed && !t.ofCleanup
      requires t !in state.dead && t !in state.held && t !in Queued(state.queue)
      ensures FlagsRight(Repr + {t}, Step(state, Op.Construct(t)))
    {
      hide Queued;
    }

    /** What joining the list leaves to be said about a thinker that was just allocated. */
    method AttachNew(t: Thinker)
      requires ListRight() && FlagsRight(Repr, state) && t !in live && t !in Repr
      requires !t.destroyed && t.refCount == 0 && !t.ofDestroyed && !t.ofCleanup
      requires t !in state.dead && t !in state.held && t !in Queued(state.queue)
      modifies this`FirstThinker, this`LastThinker, Repr`m_Next, t`m_Next, t`m_Prev
      ensures Linked(live + [t], FirstThinker, LastThinker)
      ensures FlagsRight(Repr + {t}, Step(state, Op.Construct(t)))
    {
      hide State.Live, Drop, Queued, Linked, AllDistinct, FlagsRight;
      Attach(t);
      FlagsExtend(t);
    }

    method Construct() returns (t: Thinker)
      requires Valid()
      modifies this, Repr
      ensures Valid() && fresh(t) && state == Step(old(state), Op.Construct(t))
    {
      hide State.Accounted, State.Live, Drop, Keep, Queued, Linked, NoDuplicates, AllDistinct, FlagsRight;
      t := new Thinker();
      ConstructRight(state, t);
      AttachNew(t);
      state := Step(state, Op.Construct(t));
      live, Repr := live + [t], Repr + {t};
    }

    /** DObject::Destroy */
    method QueueForDeletion(t: Thinker)
      requires !t.ofDestroyed
      modifies this`ToDestroy, t`ofDestroyed
      ensures t.ofDestroyed && ToDestroy == old(ToDestroy) + [Some(t)]
    {
      if !t.ofDestroyed {
        t.ofDestroyed := true;
        ToDestroy := ToDestroy + [Some(t)];
      }
    }

    /** Where a destroyed thinker goes. */
    method Bury(t: Thinker)
      requires !t.ofDestroyed
      modifies this`LingerDestroy, this`ToDestroy, t`destroyed, t`ofDestroyed
      ensures t.destroyed && t.ofDestroyed == (t.refCount == 0)
      ensures LingerDestroy == if t.refCount == 0 then old(LingerDestroy) else old(LingerDestroy) + [t]
      ensures ToDestroy == if t.refCount == 0 then old(ToDestroy) + [Some(t)] else old(ToDestroy)
    {
      t.destroyed := true;
      if t.refCount != 0 {
        LingerDestroy := LingerDestroy + [t];
      } else {
        QueueForDeletion(t);
      }
    }

    method BuryRight(t: Thinker)
      requires FlagsRight(Repr, state) && t in Repr && t !in state.freed
      requires t !in Queued(state.queue) && Queued(state.queue + [Some(t)]) == Queued(state.queue) + [t]
      modifies this`LingerDestroy, this`ToDestroy, t`destroyed, t`ofDestroyed
      ensures FlagsRight(Repr, RetireStep(state, t))
      ensures LingerDestroy == if t in state.held then old(LingerDestroy) + [t] else old(LingerDestroy)
      ensures ToDestroy == if t in state.held then old(ToDestroy) else old(ToDestroy) + [Some(t)]
    {
      hide Queued;
      Bury(t);
    }

    /** Leaving the list changes links only. */
    method Detach(t: Thinker, ghost k: nat)
      requires ListRight() && FlagsRight(Repr, state) && k < |live| && live[k] == t
      modifies this`FirstThinker, this`LastThinker, Repr`m_Next, Repr`m_Prev
      ensures Linked(live[..k] + live[k + 1..], FirstThinker, LastThinker) && FlagsRight(Repr, state)
    {
      hide State.Live, Drop, Linked, LinkedAt, AllDistinct;
      Unlink(t, live, k);
    }

    method DetachAndBury(t: Thinker, ghost k: nat)
      requires ListRight() && FlagsRight(Repr, state) && k < |live| && live[k] == t && t !in state.freed
      requires t !in live[..k] + live[k + 1..]
      requires t !in Queued(state.queue) && Queued(state.queue + [Some(t)]) == Queued(state.queue) + [t]
      modifies this`FirstThinker, this`LastThinker, this`LingerDestroy, this`ToDestroy
      modifies Repr`m_Next, Repr`m_Prev, t`destroyed, t`ofDestroyed
      ensures Linked(live[..k] + live[k + 1..], FirstThinker, LastThinker) && FlagsRight(Repr, RetireStep(state, t))
      ensures LingerDestroy == if t in state.held then old(LingerDestroy) + [t] else old(LingerDestroy)
      ensures ToDestroy == if t in state.held then old(ToDestroy) else old(ToDestroy) + [Some(t)]
    {
      hide State.Live, Drop, Queued, Linked, AllDistinct, FlagsRight;
      Detach(t, k);
      BuryRight(t);
    }

    /** DThinker::Destroy up to the sweep. */
    method Retire(t: Thinker)
      requires Valid() && t in Repr && t !in state.freed && t !in state.dead
      modifies this, Repr
      ensures Valid() && Repr == old(Repr) && state == RetireStep(old(state), t)
    {
      hide State.Accounted, State.Live, Drop, Keep, Queued, Linked, NoDuplicates, AllDistinct, FlagsRight;
      ghost var k := RetireRight(state, t);
      DetachAndBury(t, k);
      state := RetireStep(state, t);
      live := live[..k] + live[k + 1..];
    }

    /** DThinker::Destroy */
    method Destroy(t: Thinker)
      requires Valid() && t in Repr && t !in state.freed
      modifies this, Repr
      ensures Valid() && Repr == old(Repr) && state == Step(old(state), Op.Destroy(t))
    {
      if t.destroyed {
        return;
      }
      Retire(t);
      Sweep();
    }

    method Sweep()
      requires Valid()
      modifies this, Repr
      ensures Valid() && Repr == old(Repr) && state == ThinkerRuns.Sweep(old(state))
    {
      hide State.Accounted, State.Live, Drop, Keep, Queued, NoDuplicates, Linked, AllDistinct;
      SweepAccounted(state);
      SameLive(state, ThinkerRuns.Sweep(state));
      LingeringAreMade(state);
      LingeringDistinct(state);
      LiveDistinct(state);
      SweepLingering(state.held);
      state := ThinkerRuns.Sweep(state);
    }

    /** DObject::EndFrame */
    method EndFrame()
      requires Valid()
      modifies this, Repr
      ensures Valid() && Repr == old(Repr) && state == Step(old(state), Op.EndFrame)
    {
      hide State.Accounted, State.Live, Drop, Keep, Queued, NoDuplicates, Linked, AllDistinct;
      EndFrameAccounted(state);
      QueuedAreMade(state);
      IntactQueue(state);
      LiveDistinct(state);
      DeleteQueue();
      ToDestroy := [];
      state := EndFrameStep(state);
    }

    /** One turn of the loop in DestroyAllThinkers: the link is read before the thinker is destroyed. */
    method DestroyFirst(t: Thinker) returns (next: Thinker?)
      requires Valid() && live != [] && t == live[0]
      modifies this, Repr
      ensures Valid() && Repr == old(Repr) && state == DestroyStep(old(state), t)
      ensures live == old(live)[1..] && next == Nth(live, 0)
    {
      hide State.Accounted, State.Live, Drop, Keep, Queued, NoDuplicates, AllDistinct, FlagsRight;
      assert LinkedAt(live, 0);
      next := t.m_Next;
      LiveDistinct(state);
      assert t in live;
      LiveAfter(state, Op.Destroy(t));
      DropAt(live, 0);
      assert live[..0] + live[1..] == live[1..];
      Destroy(t);
    }

    /** The end of DestroyAllThinkers: whatever lingers is freed. */
    method FreeLingerers()
      requires Valid()
      modifies this, Repr
      ensures Valid() && Repr == old(Repr)
      ensures state == old(state).(linger := [], freed := old(state).freed + old(state).linger)
    {
      hide State.Accounted, State.Live, Drop, Keep, Queued, NoDuplicates, Linked, AllDistinct;
      FreeLingering(state);
      LingeringAreMade(state);
      LingeringDistinct(state);
      LiveDistinct(state);
      DeleteLingering();
      LingerDestroy := [];
      state := state.(linger := [], freed := state.freed + state.linger);
      SameLive(old(state), state);
    }

    /** DThinker::DestroyAllThinkers */
    method DestroyAllThinkers()
      requires Valid()
      modifies this, Repr
      ensures Valid() && Repr == old(Repr) && state == Step(old(state), Op.DestroyAll)
    {
      hide State.Accounted, Drop, Keep, Queued, NoDuplicates, Linked, AllDistinct, FlagsRight, DestroyStep;
      ghost var s, ts, i: nat := state, live, 0;
      var currentthinker := FirstThinker;
      FirstIsFirst();
      while currentthinker != null
        invariant Valid() && Repr == old(Repr) && i <= |ts| && live == ts[i..] && currentthinker == Nth(live, 0)
        invariant state == DestroyEach(s, ts[..i])
        decreases |ts| - i
      {
        DestroyEachAppend(s, ts[..i], ts[i]);
        assert ts[..i + 1] == ts[..i] + [ts[i]];
        currentthinker := DestroyFirst(currentthinker);
        i := i + 1;
      }
      assert ts[..i] == ts;
      EndFrame();
      FreeLingerers();
    }

    lemma FirstIsFirst()
      requires Valid()
      ensures FirstThinker == Nth(live, 0) && live == state.Live()
    {
    }

    twostate lemma LinksKept(t: Thinker)
      requires old(Linked(live, FirstThinker, LastThinker)) && unchanged(this)
      requires forall x :: x in live ==> x.m_Next == old(x.m_Next) && x.m_Prev == old(x.m_Prev)
      ensures Linked(live, FirstThinker, LastThinker)
    {
      forall i | 0 <= i < |live|
        ensures LinkedAt(live, i)
      {
        assert old(LinkedAt(live, i));
      }
    }

    /** refCount counts the references that keep a destroyed thinker from being freed. */
    method SetRefCount(t: Thinker, refCount: nat)
      requires Valid() && t in Repr && t !in state.freed
      modifies this, Repr
      ensures Valid() && Repr == old(Repr) && state == Step(old(state), Op.SetReferenced(t, refCount != 0))
    {
      hide State.Accounted, State.Live, Drop, Keep, Queued, NoDuplicates, AllDistinct;
      StepAccounted(state, Op.SetReferenced(t, refCount != 0));
      t.refCount := refCount;
      LinksKept(t);
      state := Step(state, Op.SetReferenced(t, refCount != 0));
      SameLive(old(state), state);
    }

    /** Deleting an object that waits in ToDestroy takes it out of there. */
    method DeleteQueued(t: Thinker)
      requires Valid() && t in Repr && t !in state.freed && t.ofDestroyed
      modifies this, Repr
      ensures Valid() && Repr == old(Repr) && state == Step(old(state), Op.DeleteQueued(t))
    {
      hide State.Accounted, State.Live, Drop, Keep, Queued, NoDuplicates, Linked, AllDistinct;
      DeleteAccounted(state, t);
      StillQueued(state, t);
      Delete(t);
      state := Step(state, Op.DeleteQueued(t));
      SameLive(old(state), state);
    }
  }
}