/** The particles of common/c_effect.cpp and common/r_things.h: two lists, linked by index, that share an array. */
module Particles {
  import opened Wrappers

  type byte = b: int | 0 <= b < 256

  const NO_PARTICLE: nat := 0xffff

  /** What decides how long a particle lasts. */
  datatype Life = Life(ttl: byte, trans: byte, fade: byte)

  datatype Particle = Particle(life: Life, next: nat)

  const CLEARED: Life := Life(0, 0, 0)

  function ToByte(x: int): byte {
    x % 256
  }

  // ----- One call of P_ThinkParticles, for one particle

  /** It fades and grows older, both modulo 256. */
  function Aged(life: Life): Life {
    Life(ToByte(life.ttl - 1), ToByte(life.trans - life.fade), life.fade)
  }

  /** It goes when the fading wraps around, or else when its time is up. */
  predicate Survives(life: Life) {
    !(life.trans < Aged(life).trans) && Aged(life).ttl != 0
  }

  // ----- Chains of indices

  ghost function Nth(s: seq<nat>, k: nat): nat {
    if k < |s| then s[k] else NO_PARTICLE
  }

  ghost predicate LinkedAt(ps: seq<Particle>, s: seq<nat>, k: nat)
    requires k < |s|
  {
    s[k] < |ps| && ps[s[k]].next == Nth(s, k + 1)
  }

  ghost predicate Linked(ps: seq<Particle>, head: nat, s: seq<nat>) {
    head == Nth(s, 0) && forall k :: 0 <= k < |s| ==> LinkedAt(ps, s, k)
  }

  ghost predicate InRange(n: nat, s: seq<nat>) {
    forall k :: 0 <= k < |s| ==> s[k] < n
  }

  ghost predicate Distinct(s: seq<nat>) {
    forall i, j :: 0 <= i < j < |s| ==> s[i] != s[j]
  }

  /** Every index is in one of the lists, and in no place twice. */
  ghost predicate Partition(n: nat, active: seq<nat>, inactive: seq<nat>) {
    Distinct(active) && Distinct(inactive) && (forall i :: i in active ==> i !in inactive) &&
    forall i: nat :: i in active || i in inactive <==> i < n
  }

  // ----- What a call does to the lists

  ghost function Survivors(ps: seq<Particle>, s: seq<nat>): (r: seq<nat>)
    requires InRange(|ps|, s)
    ensures forall i :: i in r <==> i in s && Survives(ps[i].life)
  {
    if s == [] then []
    else
      assert s == s[..|s| - 1] + [s[|s| - 1]] && s[|s| - 1] in s;
      var front := Survivors(ps, s[..|s| - 1]);
      if Survives(ps[s[|s| - 1]].life) then front + [s[|s| - 1]] else front
  }

  /** The latest to be removed comes first. */
  ghost function Removed(ps: seq<Particle>, s: seq<nat>): (r: seq<nat>)
    requires InRange(|ps|, s)
    ensures forall i :: i in r <==> i in s && !Survives(ps[i].life)
  {
    if s == [] then []
    else
      assert s == s[..|s| - 1] + [s[|s| - 1]] && s[|s| - 1] in s;
      var front := Removed(ps, s[..|s| - 1]);
      if Survives(ps[s[|s| - 1]].life) then front else [s[|s| - 1]] + front
  }

  /** What survives is in the order it was in. */
  lemma {:induction false} SurvivorsInOrder(ps: seq<Particle>, s: seq<nat>, i: nat, j: nat) returns (p: nat, q: nat)
    requires InRange(|ps|, s) && i < j < |Survivors(ps, s)|
    ensures p < q < |s| && s[p] == Survivors(ps, s)[i] && s[q] == Survivors(ps, s)[j]
    decreases |s|
  {
    var front := s[..|s| - 1];
    if j < |Survivors(ps, front)| {
      p, q := SurvivorsInOrder(ps, front, i, j);
    } else {
      assert Survivors(ps, front)[i] in front;
      q := |s| - 1;
      p :| p < |front| && front[p] == Survivors(ps, front)[i];
    }
  }

  ghost function LifeAfter(ps: seq<Particle>, active: seq<nat>, i: nat): Life
    requires i < |ps|
  {
    if i !in active then ps[i].life
    else if Survives(ps[i].life) then Aged(ps[i].life)
    else CLEARED
  }

  // ----- Changing chains

  function WithLife(ps: seq<Particle>, i: nat, life: Life): seq<Particle>
    requires i < |ps|
  {
    ps[i := Particle(life, ps[i].next)]
  }

  function WithNext(ps: seq<Particle>, i: nat, next: nat): seq<Particle>
    requires i < |ps|
  {
    ps[i := Particle(ps[i].life, next)]
  }

  /** Storing a life without touching the link keeps every chain. */
  lemma SetLife(ps: seq<Particle>, head: nat, s: seq<nat>, i: nat, life: Life)
    requires Linked(ps, head, s) && i < |ps|
    ensures Linked(WithLife(ps, i, life), head, s)
  {
    forall k | 0 <= k < |s|
      ensures LinkedAt(WithLife(ps, i, life), s, k)
    {
      assert LinkedAt(ps, s, k);
    }
  }

  /** A particle that is in no chain may be overwritten. */
  lemma SetOther(ps: seq<Particle>, head: nat, s: seq<nat>, i: nat, p: Particle)
    requires Linked(ps, head, s) && i < |ps| && i !in s
    ensures Linked(ps[i := p], head, s)
  {
    var ps' := ps[i := p];
    forall k | 0 <= k < |s|
      ensures LinkedAt(ps', s, k)
    {
      assert LinkedAt(ps, s, k) && s[k] in s;
    }
  }

  lemma PushFront(ps: seq<Particle>, head: nat, s: seq<nat>, i: nat, life: Life)
    requires Linked(ps, head, s) && i < |ps| && i !in s
    ensures Linked(ps[i := Particle(life, head)], i, [i] + s)
  {
    var ps' := ps[i := Particle(life, head)];
    SetOther(ps, head, s, i, Particle(life, head));
    forall k | 0 <= k < |s| + 1
      ensures LinkedAt(ps', [i] + s, k)
    {
      assert k > 0 ==> LinkedAt(ps', s, k - 1);
    }
  }

  lemma PopFront(ps: seq<Particle>, head: nat, s: seq<nat>)
    requires Linked(ps, head, s) && s != []
    ensures head == s[0] && head < |ps| && Linked(ps, ps[head].next, s[1..])
  {
    assert LinkedAt(ps, s, 0);
    forall k | 0 <= k < |s| - 1
      ensures LinkedAt(ps, s[1..], k)
    {
      assert LinkedAt(ps, s, k + 1);
    }
  }

  /** Taking out the entry behind a nonempty front. */
  lemma Bypass(ps: seq<Particle>, head: nat, front: seq<nat>, i: nat, back: seq<nat>)
    requires Linked(ps, head, front + [i] + back) && front != [] && Distinct(front + [i] + back)
    ensures i < |ps| && front[|front| - 1] < |ps|
    ensures Linked(WithNext(ps, front[|front| - 1], ps[i].next), head, front + back)
  {
    var s, m := front + [i] + back, |front|;
    var p := front[m - 1];
    assert LinkedAt(ps, s, m) && LinkedAt(ps, s, m - 1) && s[m - 1] == p;
    forall k | 0 <= k < |front + back|
      ensures LinkedAt(WithNext(ps, p, ps[i].next), front + back, k)
    {
      var j := if k < m then k else k + 1;
      assert LinkedAt(ps, s, j) && (front + back)[k] == s[j];
      assert j != m - 1 ==> s[j] != s[m - 1];
    }
  }

  // ----- The loop of P_ThinkParticles

  ghost function Kept(ps0: seq<Particle>, active0: seq<nat>, k: nat): seq<nat>
    requires InRange(|ps0|, active0) && k <= |active0|
  {
    Survivors(ps0, active0[..k])
  }

  ghost function Gone(ps0: seq<Particle>, active0: seq<nat>, inactive0: seq<nat>, k: nat): seq<nat>
    requires InRange(|ps0|, active0) && k <= |active0|
  {
    Removed(ps0, active0[..k]) + inactive0
  }

  ghost function Last(s: seq<nat>): Option<nat> {
    if s == [] then None else Some(s[|s| - 1])
  }

  /** The first k active particles have been dealt with. */
  ghost predicate Thinking(ps0: seq<Particle>, active0: seq<nat>, inactive0: seq<nat>, k: nat,
                           ps: seq<Particle>, activeHead: nat, inactiveHead: nat, prev: Option<nat>)
  {
    InRange(|ps0|, active0) && |ps| == |ps0| && k <= |active0| &&
    var kept, gone := Kept(ps0, active0, k), Gone(ps0, active0, inactive0, k);
    Linked(ps, activeHead, kept + active0[k..]) && Linked(ps, inactiveHead, gone) &&
    Partition(|ps0|, kept + active0[k..], gone) && prev == Last(kept) &&
    forall i :: 0 <= i < |ps0| ==>
      ps[i].life == if i in active0[k..] then ps0[i].life else LifeAfter(ps0, active0, i)
  }

  lemma ThinkingStart(ps0: seq<Particle>, active0: seq<nat>, inactive0: seq<nat>, activeHead: nat, inactiveHead: nat)
    requires Linked(ps0, activeHead, active0) && Linked(ps0, inactiveHead, inactive0)
    requires Partition(|ps0|, active0, inactive0)
    ensures Thinking(ps0, active0, inactive0, 0, ps0, activeHead, inactiveHead, None)
  {
    forall k | 0 <= k < |active0|
      ensures active0[k] < |ps0|
    {
      assert LinkedAt(ps0, active0, k);
    }
    assert [] + active0 == active0 && [] + inactive0 == inactive0 && active0[0..] == active0;
  }

  lemma NextActive(ps0: seq<Particle>, active0: seq<nat>, inactive0: seq<nat>, k: nat,
                   ps: seq<Particle>, activeHead: nat, inactiveHead: nat, prev: Option<nat>)
    requires Thinking(ps0, active0, inactive0, k, ps, activeHead, inactiveHead, prev) && k < |active0|
    ensures var i := active0[k];
            i < |ps| && ps[i].life == ps0[i].life && ps[i].next == Nth(active0, k + 1) && active0[k..] == [i] + active0[k + 1..]
    ensures active0[k] !in active0[k + 1..] && active0[k] in active0
  {
    var kept := Kept(ps0, active0, k);
    var s := kept + active0[k..];
    assert LinkedAt(ps, s, |kept|) && s[|kept|] == active0[k];
    assert active0[k] in active0[k..];
    assert Nth(s, |kept| + 1) == Nth(active0, k + 1);
    forall j | k + 1 <= j < |active0|
      ensures active0[j] != active0[k]
    {
      assert s[|kept| + (j - k)] == active0[j];
    }
  }

  lemma TakeMore(ps0: seq<Particle>, active0: seq<nat>, inactive0: seq<nat>, k: nat)
    requires InRange(|ps0|, active0) && k < |active0|
    ensures var i := active0[k]; var kept, gone := Kept(ps0, active0, k), Gone(ps0, active0, inactive0, k);
            if Survives(ps0[i].life)
            then Kept(ps0, active0, k + 1) == kept + [i] && Gone(ps0, active0, inactive0, k + 1) == gone
            else Kept(ps0, active0, k + 1) == kept && Gone(ps0, active0, inactive0, k + 1) == [i] + gone
  {
    assert active0[..k + 1][..k] == active0[..k];
  }

  lemma KeepStep(ps0: seq<Particle>, active0: seq<nat>, inactive0: seq<nat>, k: nat,
                 ps: seq<Particle>, activeHead: nat, inactiveHead: nat, prev: Option<nat>)
    requires Thinking(ps0, active0, inactive0, k, ps, activeHead, inactiveHead, prev) && k < |active0|
    requires Survives(ps0[active0[k]].life) && active0[k] < |ps|
    ensures Thinking(ps0, active0, inactive0, k + 1, WithLife(ps, active0[k], Aged(ps0[active0[k]].life)),
                     activeHead, inactiveHead, Some(active0[k]))
  {
    var i := active0[k];
    NextActive(ps0, active0, inactive0, k, ps, activeHead, inactiveHead, prev);
    TakeMore(ps0, active0, inactive0, k);
    var kept, gone := Kept(ps0, active0, k), Gone(ps0, active0, inactive0, k);
    assert kept + active0[k..] == kept + [i] + active0[k + 1..];
    SetLife(ps, activeHead, kept + active0[k..], i, Aged(ps0[i].life));
    SetLife(ps, inactiveHead, gone, i, Aged(ps0[i].life));
  }

  /** The stores of the branch that removes particle i. */
  function Remove(ps: seq<Particle>, i: nat, prev: Option<nat>, inactiveHead: nat): seq<Particle>
    requires i < |ps| && (prev.Some? ==> prev.value < |ps|)
  {
    (if prev.Some? then WithNext(ps, prev.value, ps[i].next) else ps)[i := Particle(CLEARED, inactiveHead)]
  }

  /** Unlinking particle i from between kept and back, and pushing it onto the other list. */
  lemma RemoveLinks(ps: seq<Particle>, activeHead: nat, inactiveHead: nat, kept: seq<nat>, i: nat, back: seq<nat>,
                    gone: seq<nat>)
    requires Linked(ps, activeHead, kept + [i] + back) && Linked(ps, inactiveHead, gone)
    requires Partition(|ps|, kept + [i] + back, gone) && i < |ps|
    ensures kept != [] ==> Last(kept).value < |ps| && Last(kept).value != i
    ensures Partition(|ps|, kept + back, [i] + gone)
    ensures var ps' := Remove(ps, i, Last(kept), inactiveHead);
            Linked(ps', if kept != [] then activeHead else ps[i].next, kept + back) && Linked(ps', i, [i] + gone)
  {
    hide Linked, Partition;
    RemovePartition(|ps|, kept, i, back, gone);
    var ps1, head1 := ps, ps[i].next;
    if kept != [] {
      var p := kept[|kept| - 1];
      BeforeRemoved(|ps|, kept, i, back, gone);
      Bypass(ps, activeHead, kept, i, back);
      ps1, head1 := WithNext(ps, p, ps[i].next), activeHead;
      SetOther(ps, inactiveHead, gone, p, ps1[p]);
    } else {
      assert [] + [i] + back == [i] + back && [] + back == back;
      PopFront(ps, activeHead, [i] + back);
      assert ([i] + back)[1..] == back;
    }
    SetOther(ps1, head1, kept + back, i, Particle(CLEARED, inactiveHead));
    PushFront(ps1, inactiveHead, gone, i, CLEARED);
  }

  lemma BeforeRemoved(n: nat, kept: seq<nat>, i: nat, back: seq<nat>, gone: seq<nat>)
    requires Partition(n, kept + [i] + back, gone) && kept != []
    ensures Distinct(kept + [i] + back)
    ensures var p := kept[|kept| - 1]; p < n && p != i && p !in gone
  {
    var s := kept + [i] + back;
    assert s[|kept| - 1] == kept[|kept| - 1] && s[|kept|] == i;
    assert kept[|kept| - 1] in s;
  }

  /** The lives after a removal. */
  lemma RemoveLives(ps0: seq<Particle>, active0: seq<nat>, k: nat, ps: seq<Particle>, inactiveHead: nat, prev: Option<nat>)
    requires InRange(|ps0|, active0) && |ps| == |ps0| && k < |active0| && active0[k] < |ps|
    requires active0[k] !in active0[k + 1..] && active0[k..] == [active0[k]] + active0[k + 1..] && active0[k] in active0
    requires !Survives(ps0[active0[k]].life) && (prev.Some? ==> prev.value < |ps|)
    requires forall i :: 0 <= i < |ps0| ==>
               ps[i].life == if i in active0[k..] then ps0[i].life else LifeAfter(ps0, active0, i)
    ensures forall i :: 0 <= i < |ps0| ==>
              Remove(ps, active0[k], prev, inactiveHead)[i].life ==
              if i in active0[k + 1..] then ps0[i].life else LifeAfter(ps0, active0, i)
  {
  }

  lemma RemoveStep(ps0: seq<Particle>, active0: seq<nat>, inactive0: seq<nat>, k: nat,
                   ps: seq<Particle>, activeHead: nat, inactiveHead: nat, prev: Option<nat>)
    requires Thinking(ps0, active0, inactive0, k, ps, activeHead, inactiveHead, prev) && k < |active0|
    requires !Survives(ps0[active0[k]].life) && active0[k] < |ps|
    ensures prev.Some? ==> prev.value < |ps| && prev.value != active0[k]
    ensures Thinking(ps0, active0, inactive0, k + 1, Remove(ps, active0[k], prev, inactiveHead),
                     if prev.Some? then activeHead else ps[active0[k]].next, active0[k], prev)
  {
    hide Linked, Partition, Kept, Gone, Survivors, Removed, LifeAfter, InRange;
    var i := active0[k];
    NextActive(ps0, active0, inactive0, k, ps, activeHead, inactiveHead, prev);
    TakeMore(ps0, active0, inactive0, k);
    var kept, gone, back := Kept(ps0, active0, k), Gone(ps0, active0, inactive0, k), active0[k + 1..];
    assert kept + active0[k..] == kept + [i] + back;
    RemoveLinks(ps, activeHead, inactiveHead, kept, i, back, gone);
    RemoveLives(ps0, active0, k, ps, inactiveHead, prev);
  }

  lemma ThinkOne(ps0: seq<Particle>, active0: seq<nat>, inactive0: seq<nat>, k: nat,
                 ps: seq<Particle>, activeHead: nat, inactiveHead: nat, prev: Option<nat>)
    requires Thinking(ps0, active0, inactive0, k, ps, activeHead, inactiveHead, prev)
    requires Nth(active0, k) != NO_PARTICLE
    ensures k < |active0| && active0[k] < |ps|
    ensures var i := active0[k];
            ps[i].life == ps0[i].life && ps[i].next == Nth(active0, k + 1) &&
            (prev.Some? ==> prev.value < |ps| && (!Survives(ps[i].life) ==> prev.value != i))
    ensures var i := active0[k];
            if Survives(ps[i].life)
            then Thinking(ps0, active0, inactive0, k + 1, WithLife(ps, i, Aged(ps[i].life)), activeHead, inactiveHead, Some(i))
            else Thinking(ps0, active0, inactive0, k + 1, Remove(ps, i, prev, inactiveHead),
                          if prev.Some? then activeHead else ps[i].next, i, prev)
  {
    hide Thinking, Linked, Partition;
    NextActive(ps0, active0, inactive0, k, ps, activeHead, inactiveHead, prev);
    PrevInRange(ps0, active0, inactive0, k, ps, activeHead, inactiveHead, prev);
    if Survives(ps[active0[k]].life) {
      KeepStep(ps0, active0, inactive0, k, ps, activeHead, inactiveHead, prev);
    } else {
      RemoveStep(ps0, active0, inactive0, k, ps, activeHead, inactiveHead, prev);
    }
  }

  lemma PrevInRange(ps0: seq<Particle>, active0: seq<nat>, inactive0: seq<nat>, k: nat,
                    ps: seq<Particle>, activeHead: nat, inactiveHead: nat, prev: Option<nat>)
    requires Thinking(ps0, active0, inactive0, k, ps, activeHead, inactiveHead, prev)
    ensures prev.Some? ==> prev.value < |ps|
  {
    var kept := Kept(ps0, active0, k);
    if kept != [] {
      assert (kept + active0[k..])[|kept| - 1] == prev.value;
      assert LinkedAt(ps, kept + active0[k..], |kept| - 1);
    }
  }

  lemma HeadIsFirst(ps: seq<Particle>, head: nat, s: seq<nat>)
    requires Linked(ps, head, s)
    ensures head == Nth(s, 0)
  {
  }

  lemma ThinkingEnd(ps0: seq<Particle>, active0: seq<nat>, inactive0: seq<nat>, k: nat,
                    ps: seq<Particle>, activeHead: nat, inactiveHead: nat, prev: Option<nat>)
    requires Thinking(ps0, active0, inactive0, k, ps, activeHead, inactiveHead, prev)
    requires Nth(active0, k) == NO_PARTICLE && |ps0| <= NO_PARTICLE
    ensures InRange(|ps0|, active0)
    ensures var active, inactive := Survivors(ps0, active0), Removed(ps0, active0) + inactive0;
            Linked(ps, activeHead, active) && Linked(ps, inactiveHead, inactive) && Partition(|ps|, active, inactive)
    ensures forall i :: 0 <= i < |ps0| ==> ps[i].life == LifeAfter(ps0, active0, i)
  {
    assert active0[..k] == active0 && active0[k..] == [];
    assert Kept(ps0, active0, k) + [] == Kept(ps0, active0, k);
  }

  lemma InActive(n: nat, active: seq<nat>, inactive: seq<nat>, i: nat)
    requires Partition(n, active, inactive) && active != [] && active[0] == i
    ensures i < n
  {
    assert i in active;
  }

  lemma RemovePartition(n: nat, front: seq<nat>, i: nat, back: seq<nat>, inactive: seq<nat>)
    requires Partition(n, front + [i] + back, inactive)
    ensures Partition(n, front + back, [i] + inactive) && i !in front + back && i !in inactive && i < n
  {
    var s := front + [i] + back;
    assert s[|front|] == i && i in s;
    forall k | 0 <= k < |front + back|
      ensures (front + back)[k] != i && (front + back)[k] in s
    {
      var j := if k < |front| then k else k + 1;
      assert (front + back)[k] == s[j];
    }
    forall j, k | 0 <= j < k < |front + back|
      ensures (front + back)[j] != (front + back)[k]
    {
      assert (front + back)[j] == s[if j < |front| then j else j + 1];
      assert (front + back)[k] == s[if k < |front| then k else k + 1];
    }
    forall x: nat
      ensures x in front + back || x in [i] + inactive <==> x < n
    {
      assert x in s <==> x in front || x == i || x in back;
    }
  }

  lemma Activate(n: nat, active: seq<nat>, inactive: seq<nat>)
    requires Partition(n, active, inactive) && inactive != []
    ensures Partition(n, [inactive[0]] + active, inactive[1..])
    ensures inactive[0] !in active && inactive[0] !in inactive[1..]
  {
    var i := inactive[0];
    assert i in inactive && inactive == [i] + inactive[1..];
    forall x: nat
      ensures x in [i] + active || x in inactive[1..] <==> x < n
    {
      assert x in inactive <==> x == i || x in inactive[1..];
    }
  }

  ghost function Indices(n: nat): (r: seq<nat>)
    ensures |r| == n && forall i :: 0 <= i < n ==> r[i] == i
  {
    if n == 0 then [] else Indices(n - 1) + [n - 1]
  }

  // ----- The system

  /** A byte holds what C converts to it; 255 / ttl is the same in C for either sign of ttl. */
  function JitterLife(ttl: int): Life
    requires ttl != 0
  {
    Life(ToByte(ttl), 255, ToByte(255 / ttl))
  }

  // ----- Any sequence of calls

  datatype Call = Think | Jitter(ttl: int)

  /** A call of P_ThinkParticles for a particle in use, if it is. */
  function Older(life: Option<Life>): Option<Life> {
    if life.Some? && Survives(life.value) then Some(Aged(life.value)) else None
  }

  /** The lives of the particles in use after a call that returned result. */
  function AfterCall(pool: seq<Option<Life>>, call: Call, result: Option<nat>): (r: seq<Option<Life>>)
    requires call.Jitter? ==> call.ttl != 0
    ensures |r| == |pool|
  {
    seq(|pool|, i requires 0 <= i < |pool| =>
      if call.Think? then Older(pool[i]) else if result == Some(i) then Some(JitterLife(call.ttl)) else pool[i])
  }

  /** A particle is handed out only while it is not in use, and none only when all are. */
  predicate HandsOut(pool: seq<Option<Life>>, call: Call, result: Option<nat>) {
    match call
    case Think => result == None
    case Jitter(_) =>
      match result
      case Some(i) => i < |pool| && pool[i].None?
      case None => forall i :: 0 <= i < |pool| ==> pool[i].Some?
  }

  /** The life of every particle that is in use. */
  function InUse(ps: seq<Particle>, active: seq<nat>): (r: seq<Option<Life>>)
    ensures |r| == |ps|
  {
    seq(|ps|, i requires 0 <= i < |ps| => if i in active then Some(ps[i].life) else None)
  }

  lemma JitterInUse(ps: seq<Particle>, active: seq<nat>, inactive: seq<nat>, ps': seq<Particle>, active': seq<nat>,
                    ttl: int, result: Option<nat>)
    requires Partition(|ps|, active, inactive) && |ps'| == |ps| && ttl != 0
    requires if inactive == [] then result == None && active' == active
             else result == Some(inactive[0]) && active' == [inactive[0]] + active
    requires forall i :: 0 <= i < |ps| ==> ps'[i].life == if result == Some(i) then JitterLife(ttl) else ps[i].life
    ensures InUse(ps', active') == AfterCall(InUse(ps, active), Jitter(ttl), result)
    ensures HandsOut(InUse(ps, active), Jitter(ttl), result)
  {
    hide JitterLife, Distinct;
    assert inactive == [] || inactive[0] in inactive;
  }

  predicate Proper(calls: seq<Call>) {
    forall c :: c in calls ==> c.Jitter? ==> c.ttl != 0
  }

  lemma ProperParts(calls: seq<Call>, k: nat)
    requires Proper(calls) && k < |calls|
    ensures Proper(calls[..k]) && (calls[k].Jitter? ==> calls[k].ttl != 0)
  {
    assert calls[k] in calls;
  }

  function AfterCalls(pool: seq<Option<Life>>, calls: seq<Call>, results: seq<Option<nat>>): (r: seq<Option<Life>>)
    requires |results| == |calls| && Proper(calls)
    ensures |r| == |pool|
    decreases |calls|
  {
    if calls == [] then pool else
      var n := |calls| - 1;
      ProperParts(calls, n);
      AfterCall(AfterCalls(pool, calls[..n], results[..n]), calls[n], results[n])
  }

  predicate AllHandedOut(pool: seq<Option<Life>>, calls: seq<Call>, results: seq<Option<nat>>)
    requires |results| == |calls| && Proper(calls)
    decreases |calls|
  {
    calls == [] ||
    var n := |calls| - 1;
    ProperParts(calls, n);
    AllHandedOut(pool, calls[..n], results[..n]) && HandsOut(AfterCalls(pool, calls[..n], results[..n]), calls[n], results[n])
  }

  lemma CallsNext(pool: seq<Option<Life>>, calls: seq<Call>, results: seq<Option<nat>>, k: nat, result: Option<nat>)
    requires Proper(calls) && k < |calls| && |results| == k
    ensures Proper(calls[..k]) && Proper(calls[..k + 1]) && (calls[k].Jitter? ==> calls[k].ttl != 0)
    ensures AfterCalls(pool, calls[..k + 1], results + [result]) ==
            AfterCall(AfterCalls(pool, calls[..k], results), calls[k], result)
    ensures AllHandedOut(pool, calls[..k + 1], results + [result]) <==>
            AllHandedOut(pool, calls[..k], results) && HandsOut(AfterCalls(pool, calls[..k], results), calls[k], result)
  {
    ProperParts(calls, k);
    assert Proper(calls[..k + 1]);
    assert calls[..k + 1][..k] == calls[..k] && (results + [result])[..k] == results;
  }

  /** How many particles of an array 16-bit links can name. */
  function Linkable(n: nat): nat {
    if n <= NO_PARTICLE then n else NO_PARTICLE
  }

  /** What a link holds. */
  function ToWord(x: nat): nat {
    x % 0x1_0000
  }

  /** Particles that each link to the next one are a list, which ends where a link is all ones. */
  lemma IndicesLinked(ps: seq<Particle>)
    requires 0 < |ps| <= NO_PARTICLE
    requires forall k :: 0 <= k < |ps| - 1 ==> ps[k].next == k + 1
    requires ps[|ps| - 1].next == NO_PARTICLE
    ensures Linked(ps, 0, Indices(|ps|)) && Linked(ps, NO_PARTICLE, []) && Partition(|ps|, [], Indices(|ps|))
  {
    var s := Indices(|ps|);
    forall k | 0 <= k < |s|
      ensures LinkedAt(ps, s, k)
    {
    }
    forall x: nat
      ensures x in s <==> x < |ps|
    {
      assert x < |ps| ==> s[x] == x;
    }
  }

  /** The list holds all of n particles. */
  ghost predicate Covers(s: seq<nat>, n: nat) {
    forall i: nat :: i in s <==> i < n
  }

  lemma IndicesCover(n: nat)
    ensures Covers(Indices(Linkable(n)), n) <==> n <= NO_PARTICLE
  {
    var s, first: nat := Indices(Linkable(n)), Linkable(n);
    forall i: nat
      ensures i in s <==> i < Linkable(n)
    {
      assert i < Linkable(n) ==> s[i] == i;
    }
    assert first !in s;
    assert Covers(s, n) && first < n ==> first in s;
  }

  class ParticleSystem {
    const particles: array<Particle>
    var ActiveParticles: nat
    var InactiveParticles: nat
    ghost var active: seq<nat>
    ghost var inactive: seq<nat>

    /** The particles that a 16-bit link can name. */
    ghost function Usable(): (ps: seq<Particle>)
      reads particles
      ensures |ps| == Linkable(particles.Length)
    {
      particles[..Linkable(particles.Length)]
    }

    /** The others are never looked at. */
    ghost function Beyond(): seq<Particle>
      reads particles
    {
      particles[Linkable(particles.Length)..]
    }

    ghost predicate Valid()
      reads this, particles
    {
      Linked(Usable(), ActiveParticles, active) &&
      Linked(Usable(), InactiveParticles, inactive) && Partition(|Usable()|, active, inactive)
    }

    /** R_InitParticles and R_ClearParticles. The inactive list holds every particle if and only if there are no
        more than 65535: links are cut to 16 bits, so that in a longer array the link behind index 65534 ends it. */
    constructor (numParticles: nat)
      requires 0 < numParticles
      ensures Valid() && particles.Length == numParticles && fresh(particles)
      ensures active == [] && inactive == Indices(Linkable(numParticles))
      ensures Covers(inactive, numParticles) <==> numParticles <= NO_PARTICLE
    {
      particles := new Particle[numParticles](_ => Particle(CLEARED, 0));
      ActiveParticles, InactiveParticles := NO_PARTICLE, 0;
      active, inactive := [], Indices(Linkable(numParticles));
      new;
      var i := 0;
      while i < numParticles - 1
        invariant 0 <= i <= numParticles - 1
        invariant active == [] && inactive == Indices(Linkable(numParticles))
        invariant ActiveParticles == NO_PARTICLE && InactiveParticles == 0
        invariant forall k :: 0 <= k < i ==> particles[k].next == ToWord(k + 1)
      {
        particles[i] := particles[i].(next := ToWord(i + 1));
        i := i + 1;
      }
      particles[i] := particles[i].(next := NO_PARTICLE);
      IndicesLinked(Usable());
      IndicesCover(numParticles);
    }

    /** The head of the inactive list becomes the head of the active one. */
    method NewParticle(clientside: bool) returns (result: Option<nat>)
      requires Valid()
      modifies this, particles
      ensures Valid()
      ensures if clientside && old(inactive) != []
              then result == Some(old(inactive)[0]) && active == [old(inactive)[0]] + old(active) &&
                   inactive == old(inactive)[1..]
              else result == None && active == old(active) && inactive == old(inactive)
      ensures forall i :: 0 <= i < |Usable()| ==> Usable()[i].life == old(Usable()[i].life)
      ensures Beyond() == old(Beyond())
    {
      result := None;
      if inactive != [] {
        assert LinkedAt(Usable(), inactive, 0);
      }
      if clientside && InactiveParticles != NO_PARTICLE {
        ghost var ps := Usable();
        PopFront(ps, InactiveParticles, inactive);
        var i := InactiveParticles;
        Activate(|Usable()|, active, inactive);
        PushFront(ps, ActiveParticles, active, i, ps[i].life);
        SetOther(ps, ps[i].next, inactive[1..], i, Particle(ps[i].life, ActiveParticles));
        InactiveParticles := particles[i].next;
        particles[i] := particles[i].(next := ActiveParticles);
        ActiveParticles := i;
        active, inactive := [i] + active, inactive[1..];
        result := Some(i);
      }
    }

    /** A new particle that is to last ttl tics. */
    method JitterParticle(clientside: bool, ttl: int) returns (result: Option<nat>)
      requires Valid() && ttl != 0
      modifies this, particles
      ensures Valid()
      ensures if clientside && old(inactive) != []
              then result == Some(old(inactive)[0]) && active == [old(inactive)[0]] + old(active) &&
                   inactive == old(inactive)[1..]
              else result == None && active == old(active) && inactive == old(inactive)
      ensures forall i :: 0 <= i < |Usable()| ==>
                Usable()[i].life == if result == Some(i) then JitterLife(ttl) else old(Usable()[i].life)
      ensures Beyond() == old(Beyond())
    {
      result := NewParticle(clientside);
      if result.Some? {
        var i := result.value;
        InActive(|Usable()|, active, inactive, i);
        SetLife(Usable(), ActiveParticles, active, i, JitterLife(ttl));
        SetLife(Usable(), InactiveParticles, inactive, i, JitterLife(ttl));
        particles[i] := particles[i].(life := JitterLife(ttl));
      }
    }

    /** The body of the loop: the particle fades and grows older, and is unlinked when it is done. */
    method Age(particle: nat, prev: Option<nat>) returns (next: nat, last: Option<nat>)
      requires particle < |Usable()|
      requires prev.Some? ==> prev.value < |Usable()|
      requires !Survives(particles[particle].life) ==> prev != Some(particle)
      modifies this`ActiveParticles, this`InactiveParticles, particles
      ensures next == old(particles[particle].next)
      ensures if Survives(old(particles[particle].life))
              then Usable() == WithLife(old(Usable()), particle, Aged(old(particles[particle].life))) &&
                   last == Some(particle) && ActiveParticles == old(ActiveParticles) &&
                   InactiveParticles == old(InactiveParticles)
              else Usable() == Remove(old(Usable()), particle, prev, old(InactiveParticles)) &&
                   last == prev && ActiveParticles == (if prev.Some? then old(ActiveParticles) else next) &&
                   InactiveParticles == particle
      ensures Beyond() == old(Beyond())
    {
      next, last := particles[particle].next, prev;
      var life := particles[particle].life;
      var trans := ToByte(life.trans - life.fade);
      if life.trans < trans || ToByte(life.ttl - 1) == 0 {
        particles[particle] := Particle(CLEARED, 0);
        if prev.Some? {
          particles[prev.value] := particles[prev.value].(next := next);
        } else {
          ActiveParticles := next;
        }
        particles[particle] := particles[particle].(next := InactiveParticles);
        InactiveParticles := particle;
      } else {
        particles[particle] := particles[particle].(life := Life(ToByte(life.ttl - 1), trans, life.fade));
        last := Some(particle);
      }
    }

    /** The loop of P_ThinkParticles. */
    method ThinkActive() returns (ghost k: nat, ghost last: Option<nat>)
      requires Valid()
      modifies this`ActiveParticles, this`InactiveParticles, particles
      ensures Thinking(old(Usable()), active, inactive, k, Usable(), ActiveParticles, InactiveParticles, last)
      ensures Nth(active, k) == NO_PARTICLE && Beyond() == old(Beyond())
    {
      hide Thinking, Linked, Partition, WithLife, Remove, Survives, Aged;
      ghost var ps0 := Usable();
      k := 0;
      ThinkingStart(ps0, active, inactive, ActiveParticles, InactiveParticles);
      HeadIsFirst(ps0, ActiveParticles, active);
      var i: nat, prev: Option<nat> := ActiveParticles, None;
      while i != NO_PARTICLE
        invariant Thinking(ps0, active, inactive, k, Usable(), ActiveParticles, InactiveParticles, prev)
        invariant i == Nth(active, k) && Beyond() == old(Beyond())
        decreases |active| - k
      {
        ThinkOne(ps0, active, inactive, k, Usable(), ActiveParticles, InactiveParticles, prev);
        i, prev := Age(i, prev);
        k := k + 1;
      }
      last := prev;
    }

    /** P_ThinkParticles. Survivors keep their order, and what is removed goes in front of the inactive list. */
    method ThinkParticles(clientside: bool)
      requires Valid()
      modifies this, particles
      ensures Valid()
      ensures !clientside ==> active == old(active) && inactive == old(inactive) && Usable() == old(Usable())
      ensures clientside ==>
                InRange(|old(Usable())|, old(active)) &&
                active == Survivors(old(Usable()), old(active)) &&
                inactive == Removed(old(Usable()), old(active)) + old(inactive) &&
                forall i :: 0 <= i < |Usable()| ==>
                  Usable()[i].life == LifeAfter(old(Usable()), old(active), i)
      ensures Beyond() == old(Beyond())
    {
      hide Thinking, Linked, Partition, Survivors, Removed, LifeAfter, InRange, WithLife, Remove, Survives, Aged;
      if clientside {
        ghost var ps0 := Usable();
        ghost var k, last := ThinkActive();
        ThinkingEnd(ps0, active, inactive, k, Usable(), ActiveParticles, InactiveParticles, last);
        active, inactive := Survivors(ps0, active), Removed(ps0, active) + inactive;
      }
    }

    /** The life of every particle in use. */
    ghost function Pool(): (r: seq<Option<Life>>)
      reads this, particles
      ensures |r| == |Usable()|
    {
      InUse(Usable(), active)
    }

    method PerformThink()
      requires Valid()
      modifies this, particles
      ensures Valid() && Pool() == AfterCall(old(Pool()), Think, None)
    {
      hide Linked, Distinct, Partition, Survives, Aged, Survivors, Removed;
      ThinkParticles(true);
    }

    method PerformJitter(ttl: int) returns (result: Option<nat>)
      requires Valid() && ttl != 0
      modifies this, particles
      ensures Valid() && Pool() == AfterCall(old(Pool()), Jitter(ttl), result)
      ensures HandsOut(old(Pool()), Jitter(ttl), result)
    {
      hide Linked, Partition, InUse, AfterCall, HandsOut, JitterLife;
      ghost var ps, active0, inactive0 := Usable(), active, inactive;
      result := JitterParticle(true, ttl);
      JitterInUse(ps, active0, inactive0, Usable(), active, ttl, result);
    }

    method Perform(call: Call) returns (result: Option<nat>)
      requires Valid() && (call.Jitter? ==> call.ttl != 0)
      modifies this, particles
      ensures Valid() && Pool() == AfterCall(old(Pool()), call, result) && HandsOut(old(Pool()), call, result)
    {
      match call
      case Think =>
        PerformThink();
        return None;
      case Jitter(ttl) =>
        result := PerformJitter(ttl);
    }

    /** Any calls, one after the other, on the client. */
    method PerformAll(calls: seq<Call>) returns (results: seq<Option<nat>>)
      requires Valid() && Proper(calls)
      modifies this, particles
      ensures Valid() && |results| == |calls|
      ensures Pool() == AfterCalls(old(Pool()), calls, results) && AllHandedOut(old(Pool()), calls, results)
    {
      hide AfterCall, HandsOut, Linked, Partition, Distinct;
      results := [];
      for k := 0 to |calls|
        invariant Valid() && |results| == k && Proper(calls[..k])
        invariant Pool() == AfterCalls(old(Pool()), calls[..k], results) && AllHandedOut(old(Pool()), calls[..k], results)
      {
        ProperParts(calls, k);
        var result := Perform(calls[k]);
        CallsNext(old(Pool()), calls, results, k, result);
        results := results + [result];
      }
      assert calls[..|calls|] == calls;
    }
  }

  // ----- How long a particle lasts

  /** Whether it outlives n calls, and what it has become. */
  function LifeAfterCalls(life: Life, n: nat): Option<Life> {
    if n == 0 then Some(life)
    else
      match LifeAfterCalls(life, n - 1)
      case None => None
      case Some(l) => if Survives(l) then Some(Aged(l)) else None
  }

  predicate RemovedOn(life: Life, n: nat) {
    n > 0 && LifeAfterCalls(life, n - 1).Some? && LifeAfterCalls(life, n).None?
  }

  /** The time to live counts down through 256 values. */
  function TimeLeft(life: Life): nat {
    if life.ttl == 0 then 256 else life.ttl
  }

  /** The call that removes a particle: when its time is up, or when fading wraps around before that. */
  function Lifetime(life: Life): nat {
    if life.fade == 0 || TimeLeft(life) <= life.trans / life.fade then TimeLeft(life) else life.trans / life.fade + 1
  }

  lemma ByteBelow(x: int)
    ensures ToByte(ToByte(x) - 1) == ToByte(x - 1)
  {
  }

  lemma AgedOnce(ttl: int, trans: byte, fade: byte)
    requires fade <= trans && ToByte(ttl) != 1
    ensures var life := Life(ToByte(ttl), trans, fade);
            Survives(life) && Aged(life) == Life(ToByte(ttl - 1), trans - fade, fade)
  {
    ByteBelow(ttl);
  }

  lemma NotYetOne(life: Life, n: nat)
    requires n + 1 < TimeLeft(life)
    ensures ToByte(life.ttl - n) != 1
  {
  }

  lemma {:induction false} AgedBy(life: Life, n: nat)
    requires n < TimeLeft(life) && n * life.fade <= life.trans
    ensures LifeAfterCalls(life, n) == Some(Life(ToByte(life.ttl - n), life.trans - n * life.fade, life.fade))
    decreases n
  {
    if n == 0 {
    } else {
      MoreMultiples(n, n, life.fade);
      NotYetOne(life, n - 1);
      hide TimeLeft, Survives, Aged, ToByte;
      AgedBy(life, n - 1);
      AgedOnce(life.ttl - (n - 1), life.trans - (n - 1) * life.fade, life.fade);
    }
  }

  /** A call that does not fade too far and does not use up the time is survived. */
  lemma OneMore(life: Life)
    ensures Survives(life) <==> life.fade <= life.trans && life.ttl != 1
    ensures life.fade <= life.trans ==> Aged(life).trans == life.trans - life.fade
  {
  }

  lemma FadesFor(trans: nat, fade: nat, n: nat)
    requires fade > 0
    ensures n <= trans / fade <==> n * fade <= trans
  {
    WithinQuotient(trans, fade, trans / fade, trans % fade, n);
  }

  lemma WithinQuotient(trans: nat, fade: nat, q: nat, r: nat, n: nat)
    requires trans == q * fade + r && r < fade
    ensures n <= q <==> n * fade <= trans
  {
    if n <= q {
      MoreMultiples(n, q, fade);
    } else {
      MoreMultiples(q + 1, n, fade);
    }
  }

  lemma MoreMultiples(m: nat, n: nat, fade: nat)
    requires m <= n
    ensures m * fade <= n * fade && (m > 0 ==> m * fade == (m - 1) * fade + fade)
  {
    assert n * fade == m * fade + (n - m) * fade && (n - m) * fade >= 0;
  }

  lemma LifetimeFits(life: Life)
    ensures Lifetime(life) > 0
    ensures var n := Lifetime(life) - 1;
            n < TimeLeft(life) && n * life.fade <= life.trans &&
            (n + 1 == TimeLeft(life) || life.trans - n * life.fade < life.fade)
  {
    var n := Lifetime(life) - 1;
    if life.fade > 0 {
      FadesFor(life.trans, life.fade, n);
      FadesFor(life.trans, life.fade, n + 1);
      assert (n + 1) * life.fade == n * life.fade + life.fade;
    }
  }

  /** Every particle is removed on exactly the call that Lifetime says. */
  lemma LastsLifetime(life: Life)
    ensures RemovedOn(life, Lifetime(life))
  {
    LifetimeFits(life);
    hide Lifetime, TimeLeft, Survives, Aged;
    var n := Lifetime(life) - 1;
    AgedBy(life, n);
    OneMore(Life(ToByte(life.ttl - n), life.trans - n * life.fade, life.fade));
    TimeIsUp(life, n);
  }

  lemma TimeIsUp(life: Life, n: nat)
    ensures n + 1 == TimeLeft(life) ==> ToByte(life.ttl - n) == 1
  {
  }

  /** What a byte keeps of a time, counting down through 256 values. */
  function TimeKept(ttl: nat): nat {
    if ttl % 256 == 0 then 256 else ttl % 256
  }

  lemma KeptTime(ttl: nat)
    requires ttl > 0
    ensures if ttl <= 256 then TimeKept(ttl) == ttl else TimeKept(ttl) < ttl
  {
  }

  /** Set up to last ttl tics, a particle is removed on exactly that call as long as ttl is at most 256. A longer
      time is cut to a byte, and runs out with what is left of it. */
  lemma LastsForItsTime(ttl: nat)
    requires ttl > 0
    ensures RemovedOn(JitterLife(ttl), ttl) <==> ttl <= 256
    ensures ttl > 256 ==> RemovedOn(JitterLife(ttl), TimeKept(ttl))
  {
    LastsLifetime(JitterLife(ttl));
    JitterLifetime(ttl);
    KeptTime(ttl);
    hide JitterLife, Lifetime, RemovedOn, LifeAfterCalls, TimeKept;
    if ttl > 256 {
      RemovedOnce(JitterLife(ttl), TimeKept(ttl), ttl);
    }
  }

  lemma JitterLifetime(ttl: nat)
    requires ttl > 0
    ensures Lifetime(JitterLife(ttl)) == TimeKept(ttl)
  {
    FadeOf(ttl);
    if ttl <= 255 {
      FadesFor(255, 255 / ttl, ttl);
      assert JitterLife(ttl) == Life(ttl, 255, 255 / ttl);
    } else {
      assert JitterLife(ttl) == Life(ToByte(ttl), 255, 0);
    }
  }

  lemma FadeOf(ttl: nat)
    requires ttl > 0
    ensures ttl <= 255 ==> 1 <= 255 / ttl <= 255 && ttl * (255 / ttl) <= 255
    ensures ttl > 255 ==> 255 / ttl == 0
  {
    var fade := 255 / ttl;
    assert ttl * fade <= 255 < ttl * (fade + 1);
  }

  lemma {:induction false} RemovedOnce(life: Life, m: nat, n: nat)
    requires RemovedOn(life, m) && m < n
    ensures !RemovedOn(life, n) && LifeAfterCalls(life, n - 1).None?
    decreases n
  {
    if m == n - 1 {
    } else {
      RemovedOnce(life, m, n - 1);
    }
  }

  // ----- How long a particle lasts through a sequence of calls

  function Thinks(calls: seq<Call>): nat
    decreases |calls|
  {
    if calls == [] then 0 else Thinks(calls[..|calls| - 1]) + if calls[|calls| - 1].Think? then 1 else 0
  }

  lemma CallsLast(pool: seq<Option<Life>>, calls: seq<Call>, results: seq<Option<nat>>)
    requires |results| == |calls| && Proper(calls) && calls != []
    ensures var n := |calls| - 1; Proper(calls[..n]) && (calls[n].Jitter? ==> calls[n].ttl != 0)
    ensures var n := |calls| - 1; var before := AfterCalls(pool, calls[..n], results[..n]);
            AfterCalls(pool, calls, results) == AfterCall(before, calls[n], results[n]) &&
            (AllHandedOut(pool, calls, results) ==>
               AllHandedOut(pool, calls[..n], results[..n]) && HandsOut(before, calls[n], results[n]))
    ensures var n := |calls| - 1; Thinks(calls) == Thinks(calls[..n]) + if calls[n].Think? then 1 else 0
  {
    hide AfterCall, HandsOut;
    ProperParts(calls, |calls| - 1);
  }

  lemma AfterCallAt(pool: seq<Option<Life>>, call: Call, result: Option<nat>, i: nat)
    requires (call.Jitter? ==> call.ttl != 0) && i < |pool| && result != Some(i)
    ensures AfterCall(pool, call, result)[i] == if call.Think? then Older(pool[i]) else pool[i]
  {
  }

  lemma StillOlder(life: Life, n: nat)
    requires LifeAfterCalls(life, n + 1).Some?
    ensures LifeAfterCalls(life, n).Some?
  {
  }

  lemma OlderIs(life: Life, n: nat)
    ensures LifeAfterCalls(life, n + 1) == Older(LifeAfterCalls(life, n))
  {
  }

  /** As long as it has not been handed out again, a particle is in use after any calls exactly when it
      outlives as many calls of P_ThinkParticles as there are among them, with the life it has then. */
  lemma {:induction false} LifeInUse(pool: seq<Option<Life>>, calls: seq<Call>, results: seq<Option<nat>>, i: nat,
                                     life: Life)
    requires |results| == |calls| && Proper(calls) && i < |pool| && pool[i] == Some(life)
    requires Some(i) !in results
    ensures AfterCalls(pool, calls, results)[i] == LifeAfterCalls(life, Thinks(calls))
    decreases |calls|
  {
    if calls == [] {
    } else {
      var n := |calls| - 1;
      CallsLast(pool, calls, results);
      assert results[n] in results && Some(i) !in results[..n];
      hide LifeAfterCalls, AfterCalls, AllHandedOut, AfterCall, Older, HandsOut, Proper, Thinks;
      LifeInUse(pool, calls[..n], results[..n], i, life);
      OlderIs(life, Thinks(calls[..n]));
      AfterCallAt(AfterCalls(pool, calls[..n], results[..n]), calls[n], results[n], i);
    }
  }

  lemma NotTaken(pool: seq<Option<Life>>, call: Call, result: Option<nat>, i: nat)
    requires HandsOut(pool, call, result) && i < |pool| && pool[i].Some?
    ensures result != Some(i)
  {
  }

  lemma NotInWhole(s: seq<Option<nat>>, x: Option<nat>)
    requires s != [] && x !in s[..|s| - 1] && s[|s| - 1] != x
    ensures x !in s
  {
    assert s == s[..|s| - 1] + [s[|s| - 1]];
  }

  /** The last call does not hand it out either. */
  lemma NotTakenLast(pool: seq<Option<Life>>, calls: seq<Call>, results: seq<Option<nat>>, i: nat, life: Life)
    requires |results| == |calls| && Proper(calls) && calls != [] && i < |pool| && pool[i] == Some(life)
    requires AllHandedOut(pool, calls, results) && LifeAfterCalls(life, Thinks(calls)).Some?
    requires Some(i) !in results[..|calls| - 1]
    ensures results[|calls| - 1] != Some(i)
  {
    var n := |calls| - 1;
    CallsLast(pool, calls, results);
    FewerThinks(life, calls);
    hide LifeAfterCalls, AfterCalls, AllHandedOut, AfterCall, HandsOut, Proper, Thinks;
    LifeInUse(pool, calls[..n], results[..n], i, life);
    NotTaken(AfterCalls(pool, calls[..n], results[..n]), calls[n], results[n], i);
  }

  lemma FewerThinks(life: Life, calls: seq<Call>)
    requires calls != [] && LifeAfterCalls(life, Thinks(calls)).Some?
    ensures LifeAfterCalls(life, Thinks(calls[..|calls| - 1])).Some?
  {
    if calls[|calls| - 1].Think? {
      StillOlder(life, Thinks(calls[..|calls| - 1]));
    }
  }

  /** And while it lasts it is not handed out again. */
  lemma {:induction false} NotHandedOutInUse(pool: seq<Option<Life>>, calls: seq<Call>, results: seq<Option<nat>>,
                                             i: nat, life: Life)
    requires |results| == |calls| && Proper(calls) && i < |pool| && pool[i] == Some(life)
    requires AllHandedOut(pool, calls, results) && LifeAfterCalls(life, Thinks(calls)).Some?
    ensures Some(i) !in results
    decreases |calls|
  {
    if calls == [] {
    } else {
      CallsLast(pool, calls, results);
      FewerThinks(life, calls);
      hide LifeAfterCalls, AfterCalls, AllHandedOut, AfterCall, HandsOut, Proper, Thinks;
      NotHandedOutInUse(pool, calls[..|calls| - 1], results[..|calls| - 1], i, life);
      NotTakenLast(pool, calls, results, i, life);
      NotInWhole(results, Some(i));
    }
  }

  /** Whatever else is called: a particle in use stays in use, aging once with each call of P_ThinkParticles,
      up to the call that LifeAfterCalls says. */
  lemma StaysInUse(pool: seq<Option<Life>>, calls: seq<Call>, results: seq<Option<nat>>, i: nat, life: Life)
    requires |results| == |calls| && Proper(calls) && i < |pool| && pool[i] == Some(life)
    requires AllHandedOut(pool, calls, results) && LifeAfterCalls(life, Thinks(calls)).Some?
    ensures AfterCalls(pool, calls, results)[i] == LifeAfterCalls(life, Thinks(calls))
  {
    NotHandedOutInUse(pool, calls, results, i, life);
    LifeInUse(pool, calls, results, i, life);
  }

  lemma {:induction false} LastsBefore(life: Life, n: nat, m: nat)
    requires n <= m && LifeAfterCalls(life, m).Some?
    ensures LifeAfterCalls(life, n).Some?
    decreases m
  {
    if n == m {
    } else {
      LastsBefore(life, n, m - 1);
    }
  }

  lemma InUseUntil(life: Life, n: nat)
    ensures LifeAfterCalls(life, n).Some? <==> n < Lifetime(life)
  {
    LastsLifetime(life);
    if n < Lifetime(life) {
      LastsBefore(life, n, Lifetime(life) - 1);
    } else if LifeAfterCalls(life, n).Some? {
      LastsBefore(life, Lifetime(life), n);
    }
  }

  /** A new particle is in use until the call of P_ThinkParticles that its time to live says, whatever else is
      called, unless it is handed out again behind that: it is removed on exactly its ttl-th call for a time of
      up to 256. */
  lemma JitterLasts(pool: seq<Option<Life>>, ttl: nat, i: nat, calls: seq<Call>, results: seq<Option<nat>>)
    requires ttl > 0 && i < |pool| && |results| == |calls| && Proper(calls)
    requires var pool' := AfterCall(pool, Jitter(ttl), Some(i)); AllHandedOut(pool', calls, results)
    ensures var pool' := AfterCall(pool, Jitter(ttl), Some(i));
            Thinks(calls) < TimeKept(ttl) ==> AfterCalls(pool', calls, results)[i].Some? && Some(i) !in results
    ensures var pool' := AfterCall(pool, Jitter(ttl), Some(i));
            Thinks(calls) >= TimeKept(ttl) && Some(i) !in results ==> AfterCalls(pool', calls, results)[i].None?
    ensures ttl <= 256 ==> TimeKept(ttl) == ttl
  {
    var pool', life := AfterCall(pool, Jitter(ttl), Some(i)), JitterLife(ttl);
    assert pool'[i] == Some(life);
    KeptTime(ttl);
    JitterLifetime(ttl);
    hide AfterCall, AfterCalls, AllHandedOut, JitterLife, Lifetime, LifeAfterCalls, TimeKept, Proper;
    InUseUntil(life, Thinks(calls));
    if Thinks(calls) < TimeKept(ttl) {
      NotHandedOutInUse(pool', calls, results, i, life);
      LifeInUse(pool', calls, results, i, life);
    } else if Some(i) !in results {
      LifeInUse(pool', calls, results, i, life);
    }
  }
}
