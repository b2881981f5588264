/** Nothing is ever stuck: what each kind of code can do, in every reachable state. */
module Progress {
  import opened Timevals
  import opened Scheduling
  import opened WakeUniqueness
  import opened RunProperties
  import opened CoroRuntime

  /** The step can be taken, and does not throw. */
  predicate Can(q: System, l: Label) {
    Enabled(q, l) && Step(q, l).Next?
  }

  /** If some event is due, so is one on top of the queue. */
  lemma DueOnTop(q: System, j: nat) returns (k: nat)
    requires j < |q.blocked.events| && Less(q.blocked.events[j].t, q.now)
    ensures IsTop(q.blocked.events, k) && Less(q.blocked.events[k].t, q.now)
  {
    TopExists(q.blocked.events);
    k :| k < |q.blocked.events| && IsTop(q.blocked.events, k);
  }

  /** In every reachable state some step can be taken. */
  lemma NeverStuck(qs: seq<System>, ls: seq<Label>, i: nat) returns (l: Label)
    requires IsRun(qs, ls) && i <= |ls|
    ensures Can(qs[i], l)
  {
    hide Step;
    var q := qs[i];
    RunClockNormal(qs, ls, i);
    match q.phase {
    case Outside => l := Sample(q.now);
    case Firing =>
      if j: nat :| j < |q.blocked.events| && Less(q.blocked.events[j].t, q.now) {
        var k := DueOnTop(q, j);
        l := Fire(k);
      } else {
        l := FireEnd;
      }
    case Draining => l := if q.ready.staging == [] then Sample(q.now) else Resume;
    case Running(c) => l := if c in q.shared.popping then Pop(q.shared.popping[c]) else Exit;
    }
    NeverDeadCoro(qs, ls, i, l);
  }

  /** A running coroutine that is inside pop, woken in vain or not, can test again, whatever the fifo
      holds, and can do nothing else. */
  lemma PopperCanOnlyTestAgain(qs: seq<System>, ls: seq<Label>, i: nat, c: Id, l: Label)
    requires IsRun(qs, ls) && i <= |ls| && qs[i].phase == Running(c) && c in qs[i].shared.popping
    ensures Can(qs[i], l) <==> l == Pop(qs[i].shared.popping[c])
  {
    hide Step;
    if Enabled(qs[i], l) { NeverDeadCoro(qs, ls, i, l); }
  }

  /** A running coroutine that is not inside pop can make every call there is. */
  lemma CoroutineCanDoAnything(qs: seq<System>, ls: seq<Label>, i: nat, c: Id, n: nat, x: int, fd: int, t0: Timeval)
    requires IsRun(qs, ls) && i <= |ls| && qs[i].phase == Running(c) && c !in qs[i].shared.popping
    requires t0.Normal() && qs[i].now.Micros() <= t0.Micros()
    ensures var q := qs[i];
      && Can(q, CvWait(n)) && Can(q, CvWake(n, x)) && Can(q, LatchWait(n)) && Can(q, LatchWake(n))
      && Can(q, Push(n, x)) && Can(q, Pop(n)) && Can(q, WaitRead(fd)) && Can(q, WaitWrite(fd))
      && Can(q, Sleep(t0, x)) && Can(q, Exit) && (n !in q.status.spawned ==> Can(q, Spawn(n, x)))
  {
    hide Step;
    forall l | Enabled(qs[i], l) ensures Step(qs[i], l).Next? { NeverDeadCoro(qs, ls, i, l); }
  }

  /** Main, outside run_pending, can do all that does not block, and poll can serve every
      registration. */
  lemma MainCanDoWhatDoesNotBlock(qs: seq<System>, ls: seq<Label>, i: nat, n: nat, x: int, fd: int, now: Timeval)
    requires IsRun(qs, ls) && i <= |ls| && qs[i].phase == Outside
    requires now.Normal() && qs[i].now.Micros() <= now.Micros()
    ensures var q := qs[i];
      && Can(q, CvWake(n, x)) && Can(q, LatchWake(n)) && Can(q, Push(n, x)) && Can(q, Sample(now))
      && (n !in q.status.spawned ==> Can(q, Spawn(n, x)))
      && (fd in q.blocked.readers ==> Can(q, WakeRead(fd))) && (fd in q.blocked.writers ==> Can(q, WakeWrite(fd)))
  {
    hide Step;
    forall l | Enabled(qs[i], l) ensures Step(qs[i], l).Next? { NeverDeadCoro(qs, ls, i, l); }
  }

  /** schedule_events can fire exactly the due events on top of the queue, and can end exactly when
      none is due; the loop over staging goes on exactly while there is an entry. */
  lemma SchedulerGoesOn(qs: seq<System>, ls: seq<Label>, i: nat, k: nat)
    requires IsRun(qs, ls) && i <= |ls|
    ensures qs[i].phase == Firing && k < |qs[i].blocked.events| ==>
      var es := qs[i].blocked.events;
      Can(qs[i], Fire(k)) <==> Less(es[k].t, qs[i].now) && forall j | 0 <= j < |es| :: !Less(es[j].t, es[k].t)
    ensures qs[i].phase == Firing ==>
      var es := qs[i].blocked.events;
      Can(qs[i], FireEnd) <==> forall j | 0 <= j < |es| :: !Less(es[j].t, qs[i].now)
    ensures qs[i].phase == Draining ==> (Can(qs[i], Resume) <==> qs[i].ready.staging != [])
  {
    hide Step;
    forall l | Enabled(qs[i], l) ensures Step(qs[i], l).Next? { NeverDeadCoro(qs, ls, i, l); }
  }
}
