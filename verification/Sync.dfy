/** sync.h: condition variables, latches and fifos over the runtime.  Each method is the stretch of
    code up to the next switch; a blocking call ends in the caller's yield. */
module Sync {
  import opened Options
  import opened Scheduling
  import opened CoroRuntime
  import Stack = SharedStack

  class ConditionVariable {
    var waiting: seq<Id>

    constructor ()
      ensures waiting == []
    {
      waiting := [];
    }

    /** wait(), up to the switch.  A running coroutine joins the queue and yields.  The guard against
        main looks at current(): it refuses main exactly until something has been resumed, and
        after that enlists the coroutine resumed last and gives it main's context. */
    method Wait(rt: Runtime, ret: Word) returns (thrown: bool)
      requires rt.Sound() && !rt.phase.Returned?
      modifies this`waiting, rt`cpu, rt`phase, rt`history, rt`trace, rt.mem, rt.coros.Values
      ensures thrown <==> rt.current.None?
      ensures thrown ==> waiting == old(waiting) && rt.View() == old(rt.View()) && rt.trace == old(rt.trace)
      ensures !thrown ==> waiting == old(waiting) + [rt.current.value]
      ensures old(rt.phase).Running? ==>
        && !thrown && rt.Sound() && rt.current == Some(old(rt.phase).c)
        && rt.phase == Stack.Returned(old(rt.phase).c) && rt.trace == old(rt.trace) + [Stack.Yield(0, ret)]
      ensures old(rt.phase).Main? && !thrown ==>
        && rt.current.value in rt.coros && rt.trace == old(rt.trace)
        && var c := rt.coros[rt.current.value];
        && c.state == old(rt.cpu).(sp := old(rt.cpu.sp) - 1, ip := ret) && c.state.sp >= TOP
        && (!c.dead ==> !Stack.Inv(rt.View()))
    {
      Refinement.RunInv(rt.history, rt.trace, |rt.trace|);
      if rt.current.None? {
        return true;
      } else {
        var me := rt.coros[rt.current.value];
        waiting := waiting + [me.id];
        rt.Yield(me, 0, ret);
        return false;
      }
    }

    /** wake_one() */
    method WakeOne(rt: Runtime, arg: Arg) returns (woke: bool, thrown: bool)
      requires rt.Valid() && forall c <- waiting :: c in rt.coros
      modifies this`waiting, rt`pending, rt`scheduled
      ensures WakeResult(waiting, rt.Lists(), thrown) == WakeFront(old(waiting), old(rt.Lists()), rt.DeadIds(), arg)
      ensures woke == (old(waiting) != [] && !thrown)
    {
      if |waiting| > 0 {
        var co := waiting[0];
        waiting := waiting[1..];
        thrown := rt.Schedule(co, arg);
        return !thrown, thrown;
      } else {
        return false, false;
      }
    }

    /** wake_all(): the return statement stands inside the loop, so this too wakes one. */
    method WakeAll(rt: Runtime, arg: Arg) returns (woke: bool, thrown: bool)
      requires rt.Valid() && forall c <- waiting :: c in rt.coros
      modifies this`waiting, rt`pending, rt`scheduled
      ensures WakeResult(waiting, rt.Lists(), thrown) == WakeFront(old(waiting), old(rt.Lists()), rt.DeadIds(), arg)
      ensures woke == (old(waiting) != [] && !thrown)
    {
      woke, thrown := false, false;
      var returned := false;
      while !returned && |waiting| > 0
        invariant if returned then
            && old(waiting) != [] && woke == !thrown
            && WakeResult(waiting, rt.Lists(), thrown) == WakeFront(old(waiting), old(rt.Lists()), rt.DeadIds(), arg)
          else !woke && !thrown && waiting == old(waiting) && rt.Lists() == old(rt.Lists())
        decreases !returned
      {
        var co := waiting[0];
        waiting := waiting[1..];
        thrown := rt.Schedule(co, arg);
        woke, returned := !thrown, true;
      }
    }
  }

  class Latch {
    const cv: ConditionVariable
    var done: bool

    constructor ()
      ensures !done && cv.waiting == [] && fresh(cv)
    {
      cv := new ConditionVariable();
      done := false;
    }

    /** wait(), up to the switch if it blocks. */
    method Wait(rt: Runtime, ret: Word) returns (blocked: bool, thrown: bool)
      requires rt.Sound() && !rt.phase.Returned?
      modifies cv`waiting, rt`cpu, rt`phase, rt`history, rt`trace, rt.mem, rt.coros.Values
      ensures thrown <==> !done && rt.current.None?
      ensures blocked <==> !done && rt.current.Some?
      ensures blocked ==> cv.waiting == old(cv.waiting) + [rt.current.value]
      ensures blocked && old(rt.phase).Running? ==> rt.Sound() && rt.phase == Stack.Returned(old(rt.phase).c)
      ensures old(rt.phase).Running? ==> rt.current == Some(old(rt.phase).c)
      ensures !blocked ==> cv.waiting == old(cv.waiting) && rt.View() == old(rt.View()) && rt.trace == old(rt.trace)
    {
      Refinement.RunInv(rt.history, rt.trace, |rt.trace|);
      if !done {
        thrown := cv.Wait(rt, ret);
        return !thrown, thrown;
      }
      return false, false;
    }

    /** wake_all() */
    method WakeAll(rt: Runtime) returns (thrown: bool)
      requires rt.Valid() && forall c <- cv.waiting :: c in rt.coros
      modifies this`done, cv`waiting, rt`pending, rt`scheduled
      ensures done
      ensures WakeResult(cv.waiting, rt.Lists(), thrown) == WakeFront(old(cv.waiting), old(rt.Lists()), rt.DeadIds(), 0)
    {
      done := true;
      var woke;
      woke, thrown := cv.WakeAll(rt, 0);
    }
  }

  class Fifo<T> {
    const cv: ConditionVariable
    var q: seq<T>

    constructor ()
      ensures q == [] && cv.waiting == [] && fresh(cv)
    {
      cv := new ConditionVariable();
      q := [];
    }

    /** push() */
    method Push(rt: Runtime, x: T) returns (thrown: bool)
      requires rt.Valid() && forall c <- cv.waiting :: c in rt.coros
      modifies this`q, cv`waiting, rt`pending, rt`scheduled
      ensures q == old(q) + [x]
      ensures WakeResult(cv.waiting, rt.Lists(), thrown) == WakeFront(old(cv.waiting), old(rt.Lists()), rt.DeadIds(), 0)
    {
      q := q + [x];
      var woke;
      woke, thrown := cv.WakeOne(rt, 0);
    }

    /** One round of pop()'s loop: the test, and then either the wait or the rest of the method. */
    method PopRound(rt: Runtime, ret: Word) returns (result: Option<T>, thrown: bool)
      requires rt.Sound() && !rt.phase.Returned?
      modifies this`q, cv`waiting, rt`cpu, rt`phase, rt`history, rt`trace, rt.mem, rt.coros.Values
      ensures result.Some? <==> old(q) != []
      ensures thrown <==> old(q) == [] && rt.current.None?
      ensures result.Some? ==> old(q) == [result.value] + q
      ensures result.None? ==> q == []
      ensures result.Some? || thrown ==>
        cv.waiting == old(cv.waiting) && rt.View() == old(rt.View()) && rt.trace == old(rt.trace)
      ensures result.None? && !thrown ==> cv.waiting == old(cv.waiting) + [rt.current.value]
      ensures result.None? && old(rt.phase).Running? ==>
        && rt.Sound() && !thrown && rt.current == Some(old(rt.phase).c)
        && rt.phase == Stack.Returned(old(rt.phase).c)
    {
      if |q| == 0 {
        thrown := cv.Wait(rt, ret);
        return None, thrown;
      }
      var front := q[0];
      q := q[1..];
      return Some(front), false;
    }
  }

  /** The state machine's wake is the same operation, on the same queue and lists. */
  lemma WakeIsWakeFront(q: System, cv: CvId, arg: Arg)
    ensures var w := WakeFront(Queue(q, cv), q.ready, q.status.dead, arg);
      && (w.thrown <==> Wake(q, cv, arg).DeadCoro?)
      && (!w.thrown ==> Queue(Wake(q, cv, arg).q, cv) == w.waiting && Wake(q, cv, arg).q.ready == w.lists)
  {
  }
}
