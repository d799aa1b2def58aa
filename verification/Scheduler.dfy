/** CappedTaskScheduler of common/d_main.cpp: a callback run at a fixed rate, catching up a limited number of times. */
module Scheduler {

  /** Time owed to the callback, when the last run was, and how often the callback has run. */
  datatype Clock = Clock(accumulator: nat, previous: nat, tasks: nat)

  function Start(duration: nat, now: nat): Clock {
    Clock(duration, now, 0)
  }

  /** How often the callback runs when so much time is owed: once for each duration, up to the limit. */
  function Due(duration: nat, owed: nat, limit: nat): nat
    decreases limit
  {
    if limit == 0 || owed < duration then 0 else 1 + Due(duration, owed - duration, limit - 1)
  }

  /** What is left then; it is less than a duration unless the limit was reached. */
  lemma {:induction false} DueFits(duration: nat, owed: nat, limit: nat)
    ensures var due := Due(duration, owed, limit);
            due <= limit && due * duration <= owed && (due < limit ==> owed - due * duration < duration)
    decreases limit
  {
    if limit == 0 || owed < duration {
    } else {
      DueFits(duration, owed - duration, limit - 1);
      OneMore(Due(duration, owed - duration, limit - 1), duration);
    }
  }

  lemma OneMore(n: nat, duration: nat)
    ensures (n + 1) * duration == n * duration + duration
  {
  }

  function AfterRun(duration: nat, limit: nat, c: Clock, now: nat): Clock
    requires now >= c.previous
  {
    var owed := c.accumulator + (now - c.previous);
    var due := Due(duration, owed, limit);
    DueFits(duration, owed, limit);
    Clock(owed - due * duration, now, c.tasks + due)
  }

  /** The time getNextTime gives is exact: run before it and nothing happens, run then and the callback does. */
  lemma NextTimeIsExact(duration: nat, limit: nat, c: Clock, now: nat)
    requires duration > 0 && limit > 0 && now >= c.previous
    ensures AfterRun(duration, limit, c, now).tasks > c.tasks <==> now >= c.previous + duration - c.accumulator
  {
    var owed := c.accumulator + (now - c.previous);
    if owed >= duration {
      assert owed / duration >= 1;
    }
  }

  class CappedTaskScheduler {
    const mMaxCount: nat
    const mFrameDuration: nat
    var mAccumulator: nat
    var mFrameStartTime: nat
    var mPreviousFrameStartTime: nat
    /** How often mTask has been called. */
    var tasks: nat

    ghost function View(): Clock
      reads this
    {
      Clock(mAccumulator, mPreviousFrameStartTime, tasks)
    }

    constructor (maxCount: nat, duration: nat, now: nat)
      ensures View() == Start(duration, now) && mMaxCount == maxCount && mFrameDuration == duration
    {
      mMaxCount, mFrameDuration := maxCount, duration;
      mAccumulator, mFrameStartTime, mPreviousFrameStartTime, tasks := duration, 0, now, 0;
    }

    method Run(now: nat)
      requires now >= mPreviousFrameStartTime
      modifies this
      ensures View() == AfterRun(mFrameDuration, mMaxCount, old(View()), now) && mFrameStartTime == now
    {
      mFrameStartTime := now;
      mAccumulator := mAccumulator + (mFrameStartTime - mPreviousFrameStartTime);
      mPreviousFrameStartTime := mFrameStartTime;
      var count: nat := mMaxCount;
      assert mAccumulator == old(mAccumulator) + (now - old(mPreviousFrameStartTime));
      ghost var owed, done: nat := mAccumulator, 0;
      while mAccumulator >= mFrameDuration && count > 0
        invariant count + done == mMaxCount && mAccumulator + done * mFrameDuration == owed
        invariant done + Due(mFrameDuration, mAccumulator, count) == Due(mFrameDuration, owed, mMaxCount)
        invariant tasks == old(tasks) + done && mFrameStartTime == now == mPreviousFrameStartTime
        decreases count
      {
        OneMore(done, mFrameDuration);
        count := count - 1;
        tasks := tasks + 1;
        mAccumulator := mAccumulator - mFrameDuration;
        done := done + 1;
      }
    }

    /** When the callback is next due; behind schedule this is the time of the last run or before. After any run, a
        run at that time or later makes the callback run, and one before it does not. */
    method GetNextTime() returns (t: int)
      ensures t == mFrameStartTime + mFrameDuration - mAccumulator
      ensures mFrameDuration > 0 && mMaxCount > 0 && mFrameStartTime == mPreviousFrameStartTime ==>
                forall now: nat :: now >= mPreviousFrameStartTime ==>
                  (AfterRun(mFrameDuration, mMaxCount, View(), now).tasks > tasks <==> now >= t)
    {
      t := mFrameStartTime + mFrameDuration - mAccumulator;
      if mFrameDuration > 0 && mMaxCount > 0 && mFrameStartTime == mPreviousFrameStartTime {
        forall now: nat | now >= mPreviousFrameStartTime
          ensures AfterRun(mFrameDuration, mMaxCount, View(), now).tasks > tasks <==> now >= t
        {
          NextTimeIsExact(mFrameDuration, mMaxCount, View(), now);
        }
      }
    }
  }

  // ----- Whole runs

  /** The times at which run is called. */
  ghost predicate Ascending(from: nat, times: seq<nat>)
    decreases |times|
  {
    times == [] || (times[0] >= from && Ascending(times[0], times[1..]))
  }

  function RunAll(duration: nat, limit: nat, c: Clock, times: seq<nat>): Clock
    requires Ascending(c.previous, times)
    decreases |times|
  {
    if times == [] then c else RunAll(duration, limit, AfterRun(duration, limit, c, times[0]), times[1..])
  }

  /** No time is lost: it is in the accumulator or has been spent on callbacks. */
  ghost predicate Conserved(duration: nat, start: nat, c: Clock) {
    c.previous >= start && c.accumulator + duration * c.tasks == duration + (c.previous - start)
  }

  lemma RunConserves(duration: nat, limit: nat, start: nat, c: Clock, now: nat)
    requires Conserved(duration, start, c) && now >= c.previous
    ensures Conserved(duration, start, AfterRun(duration, limit, c, now))
    ensures AfterRun(duration, limit, c, now).tasks <= c.tasks + limit
  {
    var owed := c.accumulator + (now - c.previous);
    var due := Due(duration, owed, limit);
    DueFits(duration, owed, limit);
    Distribute(duration, c.tasks, due);
  }

  /** However many runs there were and however late, the next time is that of the schedule: one duration after
      the start for each callback so far. So the unsigned subtraction of the source never goes below zero. */
  lemma NextTimeIsScheduled(duration: nat, limit: nat, start: nat, times: seq<nat>)
    requires Ascending(start, times)
    ensures var c := RunAll(duration, limit, Start(duration, start), times);
            c.previous + duration - c.accumulator == start + duration * c.tasks
  {
    AlwaysConserved(duration, limit, start, Start(duration, start), times);
  }

  lemma Distribute(d: nat, a: nat, b: nat)
    ensures d * (a + b) == d * a + b * d
  {
  }

  lemma {:induction false} AlwaysConserved(duration: nat, limit: nat, start: nat, c: Clock, times: seq<nat>)
    requires Conserved(duration, start, c) && Ascending(c.previous, times)
    ensures Conserved(duration, start, RunAll(duration, limit, c, times))
    decreases |times|
  {
    if times == [] {
    } else {
      RunConserves(duration, limit, start, c, times[0]);
      AlwaysConserved(duration, limit, start, AfterRun(duration, limit, c, times[0]), times[1..]);
    }
  }

  // ----- No drift

  /** A run catches up exactly when no more than the limit was owed. */
  lemma CatchesUp(duration: nat, limit: nat, c: Clock, now: nat)
    requires duration > 0 && now >= c.previous
    ensures AfterRun(duration, limit, c, now).accumulator < duration <==>
            c.accumulator + (now - c.previous) < (limit + 1) * duration
  {
    DueSuffices(duration, c.accumulator + (now - c.previous), limit);
  }

  lemma {:induction false} DueSuffices(duration: nat, owed: nat, limit: nat)
    requires duration > 0
    ensures owed - Due(duration, owed, limit) * duration < duration <==> owed < (limit + 1) * duration
    decreases limit
  {
    OneMore(limit, duration);
    if limit > 0 && owed >= duration {
      DueSuffices(duration, owed - duration, limit - 1);
      OneMore(Due(duration, owed - duration, limit - 1), duration);
    } else if limit > 0 {
      OneMore(limit - 1, duration);
    }
  }

  /** Successive runs are less than limit durations apart. */
  ghost predicate Frequent(duration: nat, limit: nat, from: nat, times: seq<nat>)
    decreases |times|
  {
    times == [] || (from <= times[0] < from + limit * duration && Frequent(duration, limit, times[0], times[1..]))
  }

  lemma {:induction false} FrequentAscends(duration: nat, limit: nat, from: nat, times: seq<nat>)
    requires Frequent(duration, limit, from, times)
    ensures Ascending(from, times)
    decreases |times|
  {
    if times == [] {
    } else {
      FrequentAscends(duration, limit, times[0], times[1..]);
    }
  }

  /** The callback has run once at the start and once for each duration that has passed since. */
  ghost predicate OnTime(duration: nat, start: nat, c: Clock)
    requires duration > 0
  {
    c.previous >= start && c.tasks == (c.previous - start) / duration + 1
  }

  lemma CaughtUpIsOnTime(duration: nat, start: nat, c: Clock)
    requires duration > 0 && Conserved(duration, start, c)
    ensures OnTime(duration, start, c) <==> c.accumulator < duration
  {
    var passed := c.previous - start;
    assert (c.tasks - 1) * duration + c.accumulator == passed;
    Quotient(passed, duration, c.tasks - 1, c.accumulator);
  }

  lemma Quotient(x: nat, d: nat, q: int, r: nat)
    requires d > 0 && x == q * d + r
    ensures q == x / d <==> r < d
  {
    var k := q - x / d;
    assert x == x / d * d + x % d;
    assert k * d == x % d - r;
    if k <= -1 {
      assert (-k - 1) * d >= 0;
    }
  }

  /** With runs that are frequent enough the callback is on time after each of them: timing never drifts. */
  lemma {:induction false} NeverDrifts(duration: nat, limit: nat, start: nat, c: Clock, times: seq<nat>)
    requires duration > 0 && Conserved(duration, start, c) && c.accumulator <= duration
    requires times != [] && Frequent(duration, limit, c.previous, times)
    ensures Ascending(c.previous, times)
    ensures OnTime(duration, start, RunAll(duration, limit, c, times))
    decreases |times|
  {
    FrequentAscends(duration, limit, c.previous, times);
    var next := AfterRun(duration, limit, c, times[0]);
    assert (limit + 1) * duration == limit * duration + duration;
    CatchesUp(duration, limit, c, times[0]);
    RunConserves(duration, limit, start, c, times[0]);
    if |times| == 1 {
      assert times[1..] == [];
      CaughtUpIsOnTime(duration, start, next);
    } else {
      NeverDrifts(duration, limit, start, next, times[1..]);
    }
  }
}
