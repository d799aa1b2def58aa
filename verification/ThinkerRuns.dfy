/** The lifetimes of thinkers (common/dthinker.cpp, common/dobject.cpp) as a state machine on values: who is
    alive, queued for deletion, lingering or freed after any run of the operations. */
module ThinkerRuns {
  import opened Wrappers

  // ----- Splitting a sequence by membership

  /** The members of s that are in `which`, in order. */
  function Keep<T(==)>(s: seq<T>, which: set<T>): (r: seq<T>) {
    if s == [] then []
    else if s[0] in which then [s[0]] + Keep(s[1..], which)
    else Keep(s[1..], which)
  }

  /** The members of s that are not, in order. */
  function Drop<T(==)>(s: seq<T>, which: set<T>): (r: seq<T>) {
    if s == [] then []
    else if s[0] in which then Drop(s[1..], which)
    else [s[0]] + Drop(s[1..], which)
  }

  lemma Prepend<T>(x: T, a: seq<T>, b: seq<T>)
    ensures [x] + (a + b) == [x] + a + b
  {
  }

  lemma {:induction false} KeepConcat<T>(a: seq<T>, b: seq<T>, which: set<T>)
    ensures Keep(a + b, which) == Keep(a, which) + Keep(b, which)
    ensures Drop(a + b, which) == Drop(a, which) + Drop(b, which)
    decreases |a|
  {
    if a == [] {
      assert a + b == b;
    } else {
      assert (a + b)[1..] == a[1..] + b;
      KeepConcat(a[1..], b, which);
      Prepend(a[0], Keep(a[1..], which), Keep(b, which));
      Prepend(a[0], Drop(a[1..], which), Drop(b, which));
    }
  }

  lemma {:induction false} KeepAndDrop<T>(s: seq<T>, which: set<T>)
    ensures multiset(Keep(s, which)) + multiset(Drop(s, which)) == multiset(s)
  {
    if s == [] {
    } else {
      assert s == [s[0]] + s[1..];
      KeepAndDrop(s[1..], which);
    }
  }

  lemma {:induction false} Members<T>(s: seq<T>, which: set<T>, x: T)
    ensures x in Keep(s, which) <==> x in s && x in which
    ensures x in Drop(s, which) <==> x in s && x !in which
  {
    if s == [] {
    } else {
      Members(s[1..], which, x);
    }
  }

  ghost predicate NoDuplicates<T>(s: seq<T>) {
    forall x :: x in s ==> multiset(s)[x] == 1
  }

  /** Dropping one more element removes its one occurrence. */
  lemma {:induction false} DropOneMore<T>(s: seq<T>, which: set<T>, x: T)
    requires x in s && x !in which && NoDuplicates(s)
    ensures multiset(Drop(s, which + {x})) + multiset{x} == multiset(Drop(s, which))
    decreases |s|
  {
    assert s == [s[0]] + s[1..];
    if s[0] == x {
      assert multiset(s)[x] == 1 + multiset(s[1..])[x];
      DropAbsent(s[1..], which, x);
    } else {
      forall y | y in s[1..]
        ensures multiset(s[1..])[y] == 1
      {
        assert multiset(s)[y] == multiset([s[0]])[y] + multiset(s[1..])[y];
      }
      DropOneMore(s[1..], which, x);
    }
  }

  lemma {:induction false} DropAbsent<T>(s: seq<T>, which: set<T>, x: T)
    requires x !in s
    ensures Drop(s, which + {x}) == Drop(s, which)
  {
    if s == [] {
    } else {
      assert s[0] != x;
      DropAbsent(s[1..], which, x);
    }
  }

  // ----- States

  class Thinker {
    var m_Next: Thinker?
    var m_Prev: Thinker?
    var refCount: nat
    var destroyed: bool
    /** OF_Destroyed and OF_Cleanup of ObjectFlags. */
    var ofDestroyed: bool
    var ofCleanup: bool

    constructor ()
      ensures refCount == 0 && !destroyed && !ofDestroyed && !ofCleanup && m_Next == null && m_Prev == null
    {
      m_Next, m_Prev, refCount, destroyed, ofDestroyed, ofCleanup := null, null, 0, false, false, false;
    }
  }

  /** ToDestroy, whose entries are nulled when an object in it is deleted early. */
  function Queued(queue: seq<Option<Thinker>>): seq<Thinker> {
    if queue == [] then []
    else if queue[0].Some? then [queue[0].value] + Queued(queue[1..])
    else Queued(queue[1..])
  }

  /** `made` in the order of construction, `dead` what has been destroyed, `held` what has references. */
  datatype State = State(made: seq<Thinker>, dead: set<Thinker>, held: set<Thinker>, queue: seq<Option<Thinker>>,
                         linger: seq<Thinker>, freed: seq<Thinker>) {
    function Live(): seq<Thinker> {
      Drop(made, dead)
    }

    /** Every thinker ever made is alive, queued, lingering or freed: exactly one of these, and once. */
    ghost predicate Accounted() {
      NoDuplicates(made) && (forall t :: t in dead + held ==> t in made) &&
      multiset(made) == multiset(Live()) + multiset(Queued(queue)) + multiset(linger) + multiset(freed)
    }
  }

  datatype Op =
    | Construct(t: Thinker)
    | Destroy(t: Thinker)
    | SetReferenced(t: Thinker, held: bool)
    | EndFrame
    | DestroyAll
    | DeleteQueued(t: Thinker)

  /** Operations take a new address, or a pointer to an object that has not been freed. */
  ghost predicate Enabled(s: State, op: Op) {
    match op
    case Construct(t) => t !in s.made
    case Destroy(t) => t in s.made && t !in s.freed
    case SetReferenced(t, _) => t in s.made && t !in s.freed
    case DeleteQueued(t) => t in Queued(s.queue)
    case _ => true
  }

  /** DThinker::Destroy */
  function DestroyStep(s: State, t: Thinker): State {
    if t in s.dead then s
    else if t in s.held then Sweep(s.(dead := s.dead + {t}, linger := s.linger + [t]))
    else Sweep(s.(dead := s.dead + {t}, queue := s.queue + [Some(t)]))
  }

  /** The loop over LingerDestroy: what nothing refers to any more is freed. */
  function Sweep(s: State): State {
    s.(linger := Keep(s.linger, s.held), freed := s.freed + Drop(s.linger, s.held))
  }

  /** DObject::EndFrame */
  function EndFrameStep(s: State): State {
    s.(queue := [], freed := s.freed + Queued(s.queue))
  }

  function DestroyEach(s: State, ts: seq<Thinker>): State
    decreases |ts|
  {
    if ts == [] then s else DestroyEach(DestroyStep(s, ts[0]), ts[1..])
  }

  /** DThinker::DestroyAllThinkers: lingering thinkers are freed whether or not something refers to them. */
  function DestroyAllStep(s: State): State {
    var s1 := EndFrameStep(DestroyEach(s, s.Live()));
    s1.(linger := [], freed := s1.freed + s1.linger)
  }

  /** The destructor of an object in the queue: its last entry is nulled. */
  function NullLast(queue: seq<Option<Thinker>>, t: Thinker): seq<Option<Thinker>>
    decreases |queue|
  {
    if queue == [] then []
    else if queue[|queue| - 1] == Some(t) then queue[..|queue| - 1] + [None]
    else NullLast(queue[..|queue| - 1], t) + [queue[|queue| - 1]]
  }

  function Step(s: State, op: Op): State {
    match op
    case Construct(t) => s.(made := s.made + [t])
    case Destroy(t) => DestroyStep(s, t)
    case SetReferenced(t, held) => s.(held := if held then s.held + {t} else s.held - {t})
    case EndFrame => EndFrameStep(s)
    case DestroyAll => DestroyAllStep(s)
    case DeleteQueued(t) => s.(queue := NullLast(s.queue, t), freed := s.freed + [t])
  }

  // ----- What every step keeps

  lemma {:induction false} QueuedConcat(a: seq<Option<Thinker>>, b: seq<Option<Thinker>>)
    ensures Queued(a + b) == Queued(a) + Queued(b)
    decreases |a|
  {
    if a == [] {
      assert a + b == b;
    } else {
      assert (a + b)[1..] == a[1..] + b;
      QueuedConcat(a[1..], b);
      if a[0].Some? {
        Prepend(a[0].value, Queued(a[1..]), Queued(b));
      }
    }
  }

  lemma {:induction false} NullLastRemoves(queue: seq<Option<Thinker>>, t: Thinker)
    requires t in Queued(queue)
    ensures multiset(Queued(NullLast(queue, t))) + multiset{t} == multiset(Queued(queue))
    decreases |queue|
  {
    var front, last := queue[..|queue| - 1], queue[|queue| - 1];
    assert queue == front + [last];
    QueuedConcat(front, [last]);
    if last == Some(t) {
      QueuedConcat(front, [None]);
    } else {
      NullLastRemoves(front, t);
      QueuedConcat(NullLast(front, t), [last]);
    }
  }

  lemma SweepAccounted(s: State)
    requires s.Accounted()
    ensures Sweep(s).Accounted()
  {
    KeepAndDrop(s.linger, s.held);
  }

  lemma DestroyAccounted(s: State, t: Thinker)
    requires s.Accounted() && t in s.made
    ensures DestroyStep(s, t).Accounted()
  {
    if t !in s.dead {
      DropOneMore(s.made, s.dead, t);
      QueuedConcat(s.queue, [Some(t)]);
      assert Queued([Some(t)]) == [t];
      if t in s.held {
        SweepAccounted(s.(dead := s.dead + {t}, linger := s.linger + [t]));
      } else {
        SweepAccounted(s.(dead := s.dead + {t}, queue := s.queue + [Some(t)]));
      }
    }
  }

  lemma ConstructAccounted(s: State, t: Thinker)
    requires s.Accounted() && t !in s.made
    ensures s.(made := s.made + [t]).Accounted()
  {
    KeepConcat(s.made, [t], s.dead);
    NoDuplicatesAppend(s.made, t);
    assert t !in s.dead;
  }

  lemma NoDuplicatesAppend(s: seq<Thinker>, x: Thinker)
    requires NoDuplicates(s) && x !in s
    ensures NoDuplicates(s + [x])
  {
  }

  lemma DeleteAccounted(s: State, t: Thinker)
    requires s.Accounted() && t in Queued(s.queue)
    ensures s.(queue := NullLast(s.queue, t), freed := s.freed + [t]).Accounted()
  {
    hide Drop;
    NullLastRemoves(s.queue, t);
  }

  lemma EndFrameAccounted(s: State)
    requires s.Accounted()
    ensures EndFrameStep(s).Accounted() && EndFrameStep(s).Live() == s.Live()
  {
    hide Drop;
  }

  lemma {:induction false} DestroyEachAccounted(s: State, ts: seq<Thinker>)
    requires s.Accounted() && forall t :: t in ts ==> t in s.made
    ensures DestroyEach(s, ts).Accounted() && DestroyEach(s, ts).made == s.made
    ensures DestroyEach(s, ts).dead == s.dead + set t | t in ts
    decreases |ts|
  {
    hide State.Accounted, Keep, Drop;
    if ts == [] {
    } else {
      DestroyAccounted(s, ts[0]);
      DestroyEachAccounted(DestroyStep(s, ts[0]), ts[1..]);
      assert ts == [ts[0]] + ts[1..];
    }
  }

  lemma {:induction false} DropAll(s: seq<Thinker>, which: set<Thinker>)
    requires forall x :: x in s ==> x in which
    ensures Drop(s, which) == []
  {
    if s == [] {
    } else {
      DropAll(s[1..], which);
    }
  }

  /** Freeing what lingers, referenced or not. */
  lemma FreeLingering(s: State)
    requires s.Accounted()
    ensures s.(linger := [], freed := s.freed + s.linger).Accounted()
  {
    hide Drop;
  }

  /** Destroying everything leaves nothing alive, queued or lingering: every thinker has been freed, once. */
  lemma DestroyAllFrees(s: State)
    requires s.Accounted()
    ensures var after := DestroyAllStep(s);
            after.Accounted() && after.made == s.made && after.Live() == [] && after.queue == [] && after.linger == [] &&
            multiset(after.freed) == multiset(s.made)
  {
    forall t | t in s.Live()
      ensures t in s.made
    {
      Members(s.made, s.dead, t);
    }
    DestroyEachAccounted(s, s.Live());
    var s1 := DestroyEach(s, s.Live());
    forall t | t in s.made
      ensures t in s1.dead
    {
      Members(s.made, s.dead, t);
    }
    DropAll(s1.made, s1.dead);
    EndFrameAccounted(s1);
    FreeLingering(EndFrameStep(s1));
    AllFreed(DestroyAllStep(s));
  }

  lemma AllFreed(s: State)
    requires s.Accounted() && s.Live() == [] && s.queue == [] && s.linger == []
    ensures multiset(s.freed) == multiset(s.made)
  {
    hide Drop;
  }

  lemma StepAccounted(s: State, op: Op)
    requires s.Accounted() && Enabled(s, op)
    ensures Step(s, op).Accounted()
  {
    hide Drop, DestroyStep, EndFrameStep, DestroyAllStep, NullLast, NoDuplicates;
    match op
    case Construct(t) => ConstructAccounted(s, t);
    case Destroy(t) => DestroyAccounted(s, t);
    case SetReferenced(t, held) =>
    case EndFrame => EndFrameAccounted(s);
    case DestroyAll => DestroyAllFrees(s);
    case DeleteQueued(t) => DeleteAccounted(s, t);
  }

  ghost predicate AllEnabled(s: State, ops: seq<Op>)
    decreases |ops|
  {
    ops == [] || (Enabled(s, ops[0]) && AllEnabled(Step(s, ops[0]), ops[1..]))
  }

  function After(s: State, ops: seq<Op>): State
    decreases |ops|
  {
    if ops == [] then s else After(Step(s, ops[0]), ops[1..])
  }

  function Initially(): State {
    State([], {}, {}, [], [], [])
  }

  lemma {:induction false} RunAccounted(s: State, ops: seq<Op>)
    requires s.Accounted() && AllEnabled(s, ops)
    ensures After(s, ops).Accounted()
    decreases |ops|
  {
    if ops == [] {
    } else {
      StepAccounted(s, ops[0]);
      RunAccounted(Step(s, ops[0]), ops[1..]);
    }
  }

  lemma OnePlace(s: State, t: Thinker)
    requires s.Accounted() && t in s.made
    ensures multiset(s.Live())[t] + multiset(Queued(s.queue))[t] + multiset(s.linger)[t] + multiset(s.freed)[t] == 1
    ensures t in s.Live() <==> t !in s.dead
  {
    Members(s.made, s.dead, t);
  }

  /** In every run each thinker is in exactly one of the four places, and was freed at most once. */
  lemma AlwaysOnePlace(ops: seq<Op>, t: Thinker)
    requires AllEnabled(Initially(), ops) && t in After(Initially(), ops).made
    ensures var s := After(Initially(), ops);
            multiset(s.Live())[t] + multiset(Queued(s.queue))[t] + multiset(s.linger)[t] + multiset(s.freed)[t] == 1 &&
            (t in s.Live() <==> t !in s.dead)
  {
    RunAccounted(Initially(), ops);
    OnePlace(After(Initially(), ops), t);
  }

  // ----- What the operations do

  /** A second Destroy changes nothing, as long as the object has not been freed. */
  lemma DestroyTwice(s: State, t: Thinker)
    requires s.Accounted() && Enabled(s, Destroy(t))
    ensures var once := Step(s, Destroy(t)); t !in once.freed && Step(once, Destroy(t)) == once
  {
    var once := Step(s, Destroy(t));
    DestroyAccounted(s, t);
    if t !in s.dead {
      KeepConcat(s.linger, [t], s.held);
      Members(s.linger, s.held, t);
      Members(s.made, s.dead, t);
      assert multiset(s.made)[t] == 1;
      assert t !in s.linger && t !in s.freed;
    }
  }

  /** The list of live thinkers keeps the order of construction: new ones come last, others leave. */
  lemma LiveAfter(s: State, op: Op)
    requires s.Accounted() && Enabled(s, op)
    ensures Step(s, op).Live() ==
            match op
            case Construct(t) => s.Live() + [t]
            case Destroy(t) => Drop(s.Live(), {t})
            case DestroyAll => []
            case _ => s.Live()
  {
    hide Keep, NullLast, Queued, NoDuplicates;
    match op
    case Construct(t) =>
      KeepConcat(s.made, [t], s.dead);
    case Destroy(t) =>
      DropTwice(s.made, s.dead, {t});
      if t in s.dead {
        assert s.dead + {t} == s.dead;
      }
    case DestroyAll => DestroyAllFrees(s);
    case _ =>
  }

  lemma {:induction false} DropTwice(s: seq<Thinker>, a: set<Thinker>, b: set<Thinker>)
    ensures Drop(Drop(s, a), b) == Drop(s, a + b)
  {
    if s == [] {
    } else {
      DropTwice(s[1..], a, b);
      KeepConcat(if s[0] in a then [] else [s[0]], Drop(s[1..], a), b);
    }
  }

  /** What lingers stays until a thinker is destroyed while nothing refers to it; then it is freed. Only
      destroying all thinkers frees it regardless. */
  lemma LingersWhileReferenced(s: State, op: Op, t: Thinker)
    requires s.Accounted() && Enabled(s, op) && t in s.linger && !op.DestroyAll?
    ensures var swept := op.Destroy? && op.t !in s.dead && t !in s.held;
            (t in Step(s, op).linger <==> !swept) && (t in Step(s, op).freed <==> swept)
  {
    OnlyLingers(s, t);
    match op
    case Destroy(u) =>
      if u !in s.dead {
        KeepConcat(s.linger, [u], s.held);
        Members(s.linger, s.held, t);
      }
    case _ =>
  }

  lemma OnlyLingers(s: State, t: Thinker)
    requires s.Accounted() && t in s.linger
    ensures t in s.made && t !in s.freed && t !in Queued(s.queue)
  {
    hide Drop;
    assert multiset(s.linger)[t] >= 1;
    assert multiset(s.made)[t] >= 1;
    assert t in s.made;
    assert multiset(s.made)[t] == 1;
  }

  /** Nothing that was freed comes back. */
  lemma FreedForGood(s: State, op: Op)
    ensures s.freed <= Step(s, op).freed
  {
    if op.DestroyAll? {
      EachFreesMore(s, s.Live());
    }
  }

  lemma {:induction false} EachFreesMore(s: State, ts: seq<Thinker>)
    ensures s.freed <= DestroyEach(s, ts).freed
    decreases |ts|
  {
    if ts == [] {
    } else {
      EachFreesMore(DestroyStep(s, ts[0]), ts[1..]);
    }
  }
}
