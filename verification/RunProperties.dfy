/** What holds over whole runs of the scheduler: fairness, delivery of values, timers, latches. */
module RunProperties {
  import opened Options
  import opened Timevals
  import opened Scheduling
  import opened WakeUniqueness

  // ---------------------------------------------------------------- global FIFO order

  /** Every schedule call is, in order, either resumed, or next in staging, or in pending. */
  predicate InOrder(r: Ready) {
    r.resumed + r.staging + r.pending == r.scheduled
  }

  /** What any step can do to the lists: nothing, one schedule call, one swap, one resume. */
  ghost predicate ReadyStep(r: Ready, r': Ready) {
    || r' == r
    || (exists e :: r' == Append(r, e))
    || (r.staging == [] && r' == SwapLists(r))
    || (r.staging != [] && r' == Advance(r))
  }

  lemma WakeReady(q: System, cv: CvId, arg: Arg, q': System)
    requires Wake(q, cv, arg) == Next(q')
    ensures ReadyStep(q.ready, q'.ready)
    ensures q'.phase == q.phase && q'.shared == q.shared && q'.status == q.status && q'.now == q.now
    ensures q'.ready.staging == q.ready.staging && q'.ready.resumed == q.ready.resumed
    ensures Queue(q, cv) == [] ==> q' == q
    ensures Queue(q, cv) != [] ==>
      && q'.ready == Append(q.ready, Entry(Queue(q, cv)[0], arg)) && Queue(q', cv) == Queue(q, cv)[1..]
  {
  }

  lemma StepReady(q: System, l: Label, q': System)
    requires StagingInv(q) && Enabled(q, l) && Step(q, l) == Next(q')
    ensures ReadyStep(q.ready, q'.ready)
    ensures q'.ready.resumed == (if l.Resume? then q.ready.resumed + [q.ready.staging[0]] else q.ready.resumed)
  {
    match l
    case CvWake(n, arg) => WakeReady(q, Cond(n), arg, q');
    case LatchWake(n) => WakeReady(q.(shared := q.shared.(done := q.shared.done + {n})), LatchCv(n), 0, q');
    case Push(f, x) => WakeReady(q.(shared := Stored(q.shared, f, x)), FifoCv(f), 0, q');
    case Fire(k) => assert q'.ready == Append(q.ready, Entry(q.blocked.events[k].id, q.blocked.events[k].arg));
    case WakeRead(fd) => assert q'.ready == Append(q.ready, Entry(q.blocked.readers[fd], 0));
    case WakeWrite(fd) => assert q'.ready == Append(q.ready, Entry(q.blocked.writers[fd], 0));
    case Spawn(c, arg) => assert q'.ready == Append(q.ready, Entry(c, arg));
    case _ =>
  }

  /** Who is scheduled by a step, and with what argument: the holder of the event fired or of the
      registration served, the new coroutine, the oldest waiter; by any other step, nobody. */
  lemma StepSchedules(q: System, l: Label, q': System)
    requires Enabled(q, l) && Step(q, l) == Next(q')
    ensures
      var es := match l
        case Fire(k) => [Entry(q.blocked.events[k].id, q.blocked.events[k].arg)]
        case WakeRead(fd) => [Entry(q.blocked.readers[fd], 0)]
        case WakeWrite(fd) => [Entry(q.blocked.writers[fd], 0)]
        case Spawn(c, arg) => [Entry(c, arg)]
        case CvWake(n, arg) => if Queue(q, Cond(n)) == [] then [] else [Entry(Queue(q, Cond(n))[0], arg)]
        case LatchWake(n) => if Queue(q, LatchCv(n)) == [] then [] else [Entry(Queue(q, LatchCv(n))[0], 0)]
        case Push(f, _) => if Queue(q, FifoCv(f)) == [] then [] else [Entry(Queue(q, FifoCv(f))[0], 0)]
        case _ => [];
      q'.ready.scheduled == q.ready.scheduled + es
  {
    match l
    case CvWake(n, arg) => WakeReady(q, Cond(n), arg, q');
    case LatchWake(n) => WakeReady(q.(shared := q.shared.(done := q.shared.done + {n})), LatchCv(n), 0, q');
    case Push(f, x) => WakeReady(q.(shared := Stored(q.shared, f, x)), FifoCv(f), 0, q');
    case _ =>
  }

  lemma ReadyStepInOrder(r: Ready, r': Ready)
    requires InOrder(r) && ReadyStep(r, r')
    ensures InOrder(r') && r.scheduled <= r'.scheduled && r.resumed <= r'.resumed
  {
  }

  lemma {:induction false} RunInOrder(qs: seq<System>, ls: seq<Label>, a: nat, b: nat)
    requires IsRun(qs, ls) && a <= b <= |ls|
    ensures InOrder(qs[a].ready) && InOrder(qs[b].ready)
    ensures qs[a].ready.scheduled <= qs[b].ready.scheduled
    ensures qs[a].ready.resumed <= qs[b].ready.resumed
    decreases b
  {
    if b > 0 {
      hide Step, Enabled, InOrder, ReadyStep;
      RunInOrder(qs, ls, if a == b then b - 1 else a, b - 1);
      RunKeepsPlaces(qs, ls, b - 1);
      RunStep(qs, ls, b - 1);
      StepReady(qs[b - 1], ls[b - 1], qs[b]);
      ReadyStepInOrder(qs[b - 1].ready, qs[b].ready);
    } else {
      hide Step, Enabled;
    }
  }

  /** Fairness: an entry with k entries ahead of it in staging and pending is the one resumed
      after exactly k other resumes, whatever is scheduled meanwhile. */
  lemma ResumedAfterThoseAhead(qs: seq<System>, ls: seq<Label>, a: nat, b: nat, k: nat)
    requires IsRun(qs, ls) && a <= b <= |ls|
    requires k < |qs[a].ready.staging + qs[a].ready.pending|
    requires |qs[b].ready.resumed| > |qs[a].ready.resumed| + k
    ensures qs[b].ready.resumed[|qs[a].ready.resumed| + k] == (qs[a].ready.staging + qs[a].ready.pending)[k]
  {
    hide Step, Enabled;
    RunInOrder(qs, ls, a, b);
    var r, r' := qs[a].ready, qs[b].ready;
    var i := |r.resumed| + k;
    assert r.scheduled == r.resumed + (r.staging + r.pending);
    assert r'.resumed[i] == r'.scheduled[i] == r.scheduled[i];
  }

  // ---------------------------------------------------------------- delivery of values

  lemma BlockKeepsReady(q: System, l: Label, q': System)
    requires Enabled(q, l) && Step(q, l) == Next(q') && q.phase.Running? && q'.phase != q.phase
    ensures q'.ready == q.ready
  {
  }

  lemma ResumeGives(q: System, q': System)
    requires Enabled(q, Resume) && Step(q, Resume) == Next(q')
    ensures var e := q.ready.staging[0];
      && q'.phase == Running(e.id) && q'.status.current == Some(e.id)
      && e.id in q'.status.values && YieldResult(q') == e.arg
      && q'.ready.resumed == q.ready.resumed + [e]
  {
  }

  /** No entry of c enters the log of resumes before c is resumed. */
  lemma {:induction false} NotResumedMeanwhile(qs: seq<System>, ls: seq<Label>, a: nat, b: nat, c: Id)
    requires IsRun(qs, ls) && a <= b <= |ls|
    requires forall i | a <= i < b :: !Resumes(qs, ls, i, c)
    ensures |qs[a].ready.resumed| <= |qs[b].ready.resumed|
    ensures forall k | |qs[a].ready.resumed| <= k < |qs[b].ready.resumed| :: qs[b].ready.resumed[k].id != c
    decreases b
  {
    hide Step, Enabled;
    if a < b {
      NotResumedMeanwhile(qs, ls, a, b - 1, c);
      RunKeepsPlaces(qs, ls, b - 1);
      RunStep(qs, ls, b - 1);
      StepReady(qs[b - 1], ls[b - 1], qs[b]);
      assert !Resumes(qs, ls, b - 1, c);
    }
  }

  /** Position k of the log of schedule calls holds c, and no later position from m on does. */
  predicate OnlyCall(r: Ready, m: nat, k: nat, c: Id) {
    && m <= k < |r.scheduled| && r.scheduled[k].id == c
    && forall i | m <= i < |r.scheduled| :: r.scheduled[i].id == c ==> i == k
  }

  /** Where the entry at position i of the log of schedule calls, not yet resumed, is to be found. */
  function PlaceOf(r: Ready, i: nat): Place {
    var n := |r.resumed|;
    if i < n then OnCpu else if i < n + |r.staging| then InStaging(i - n) else InPending(i - n - |r.staging|)
  }

  lemma EntryIsThere(q: System, i: nat)
    requires InOrder(q.ready) && |q.ready.resumed| <= i < |q.ready.scheduled|
    ensures At(q, PlaceOf(q.ready, i), q.ready.scheduled[i].id)
  {
  }

  lemma OnlyReadyEntry(q: System, c: Id)
    requires PlaceInv(q) && InOrder(q.ready) && q.ready.staging != [] && q.ready.staging[0].id == c
    ensures OnlyCall(q.ready, |q.ready.resumed|, |q.ready.resumed|, c)
  {
    var r := q.ready;
    var n := |r.resumed|;
    EntryIsThere(q, n);
    forall i | n <= i < |r.scheduled| && r.scheduled[i].id == c ensures i == n { EntryIsThere(q, i); }
  }

  lemma NotReadyWhileRunning(q: System, c: Id)
    requires PlaceInv(q) && InOrder(q.ready) && q.phase == Running(c)
    ensures forall i | |q.ready.resumed| <= i < |q.ready.scheduled| :: q.ready.scheduled[i].id != c
  {
    assert At(q, OnCpu, c);
    forall i | |q.ready.resumed| <= i < |q.ready.scheduled| ensures q.ready.scheduled[i].id != c {
      EntryIsThere(q, i);
    }
  }

  /** Whatever others do in between, a coroutine that blocks at step a and is next resumed at step
      b has been scheduled exactly once meanwhile, and its yield returns that call's argument. */
  lemma YieldReturnsTheArgument(qs: seq<System>, ls: seq<Label>, a: nat, b: nat, c: Id)
    requires IsRun(qs, ls) && a < b < |ls|
    requires qs[a].phase == Running(c) != qs[a + 1].phase
    requires Resumes(qs, ls, b, c) && forall i | a < i < b :: !Resumes(qs, ls, i, c)
    ensures var r, k, st := qs[b].ready, |qs[b].ready.resumed|, qs[b + 1].status;
      && OnlyCall(r, |qs[a].ready.scheduled|, k, c)
      && qs[b + 1].phase == Running(c) && st.current == Some(c) && c in st.values
      && YieldResult(qs[b + 1]) == r.scheduled[k].arg
  {
    hide Step, Enabled;
    RunInOrder(qs, ls, a + 1, b);
    RunInOrder(qs, ls, a, b);
    RunKeepsPlaces(qs, ls, a);
    RunKeepsPlaces(qs, ls, b);
    RunStep(qs, ls, a);
    BlockKeepsReady(qs[a], ls[a], qs[a + 1]);
    NotReadyWhileRunning(qs[a], c);
    NotResumedMeanwhile(qs, ls, a + 1, b, c);
    ResumesTheFirst(qs, ls, b, c);
    OnlyReadyEntry(qs[b], c);
    LaterCalls(qs[a].ready, qs[b].ready, c);
    RunStep(qs, ls, b);
    ResumeGives(qs[b], qs[b + 1]);
  }

  /** If c is not ready in r, and up to r' it has not been resumed, its only call in r' is new. */
  lemma LaterCalls(r: Ready, r': Ready, c: Id)
    requires InOrder(r) && InOrder(r') && r.scheduled <= r'.scheduled && r.resumed <= r'.resumed
    requires forall i | |r.resumed| <= i < |r.scheduled| :: r.scheduled[i].id != c
    requires forall i | |r.resumed| <= i < |r'.resumed| :: r'.resumed[i].id != c
    requires OnlyCall(r', |r'.resumed|, |r'.resumed|, c)
    ensures OnlyCall(r', |r.scheduled|, |r'.resumed|, c)
  {
    forall i | |r.scheduled| <= i < |r'.resumed| ensures r'.scheduled[i].id != c {
      assert r'.scheduled[i] == r'.resumed[i];
    }
    assert forall i | 0 <= i < |r.scheduled| :: r.scheduled[i] == r'.scheduled[i];
  }

  /** _current is never cleared, so the guard "current() == 0" of condition_variable::wait and of
      coro_file::wait_for_read recognises main exactly until the first resume of the program. */
  lemma {:induction false} MainIsRecognisedOnlyBeforeTheFirstResume(qs: seq<System>, ls: seq<Label>, i: nat)
    requires IsRun(qs, ls) && i <= |ls|
    ensures qs[i].status.current.None? <==> qs[i].ready.resumed == []
  {
    if i > 0 {
      hide Step, Enabled;
      MainIsRecognisedOnlyBeforeTheFirstResume(qs, ls, i - 1);
      RunKeepsPlaces(qs, ls, i - 1);
      RunStep(qs, ls, i - 1);
      StepReady(qs[i - 1], ls[i - 1], qs[i]);
      StepStatus(qs[i - 1], ls[i - 1], qs[i]);
    }
  }

  lemma StepStatus(q: System, l: Label, q': System)
    requires Enabled(q, l) && Step(q, l) == Next(q')
    ensures q'.status.current == if l.Resume? then Some(q.ready.staging[0].id) else q.status.current
  {
  }

  /** Coroutine c will be resumed by the entry (c, arg), which is queued and its only place. */
  ghost predicate Due(q: System, c: Id, arg: Arg) {
    PlaceInv(q) && (InList(q.ready.pending, Entry(c, arg)) || InList(q.ready.staging, Entry(c, arg)))
  }

  ghost predicate InList(s: seq<Entry>, e: Entry) {
    exists k: nat :: k < |s| && s[k] == e
  }

  lemma DueStays(q: System, l: Label, q': System, c: Id, arg: Arg)
    requires Due(q, c, arg) && Enabled(q, l) && Step(q, l) == Next(q') && PlaceInv(q')
    requires !(l.Resume? && q.ready.staging[0].id == c)
    ensures Due(q', c, arg)
  {
    StepReady(q, l, q');
    var e := Entry(c, arg);
    if InList(q.ready.pending, e) {
      var k: nat :| k < |q.ready.pending| && q.ready.pending[k] == e;
      if q'.ready == SwapLists(q.ready) { assert q'.ready.staging[k] == e; }
      else { assert q'.ready.pending[k] == e; }
    } else {
      var k: nat :| k < |q.ready.staging| && q.ready.staging[k] == e;
      if l.Resume? { assert q'.ready.staging[k - 1] == e; }
      else { assert q'.ready.staging[k] == e; }
    }
  }

  lemma DueDelivers(q: System, c: Id, arg: Arg)
    requires Due(q, c, arg) && q.ready.staging != [] && q.ready.staging[0].id == c
    ensures q.ready.staging[0].arg == arg
  {
    assert At(q, InStaging(0), c);
    var e := Entry(c, arg);
    if InList(q.ready.pending, e) {
      var k: nat :| k < |q.ready.pending| && q.ready.pending[k] == e;
      assert At(q, InPending(k), c);
    } else {
      var k: nat :| k < |q.ready.staging| && q.ready.staging[k] == e;
      assert At(q, InStaging(k), c);
    }
  }

  lemma {:induction false} RunStaysDue(qs: seq<System>, ls: seq<Label>, a: nat, b: nat, c: Id, arg: Arg)
    requires IsRun(qs, ls) && a <= b <= |ls| && Due(qs[a], c, arg)
    requires forall i | a <= i < b :: !Resumes(qs, ls, i, c)
    ensures Due(qs[b], c, arg)
    decreases b
  {
    hide Step, Enabled, Due, PlaceInv;
    if a < b {
      RunStaysDue(qs, ls, a, b - 1, c, arg);
      RunKeepsPlaces(qs, ls, b);
      RunStep(qs, ls, b - 1);
      assert !Resumes(qs, ls, b - 1, c);
      DueStays(qs[b - 1], ls[b - 1], qs[b], c, arg);
    }
  }

  lemma WakeCall(q: System, l: Label, q': System)
    requires l.CvWake? && Enabled(q, l) && Step(q, l) == Next(q') && Queue(q, Cond(l.n)) != []
    ensures q'.ready == Append(q.ready, Entry(Queue(q, Cond(l.n))[0], l.arg))
    ensures Queue(q', Cond(l.n)) == Queue(q, Cond(l.n))[1..]
  {
    WakeReady(q, Cond(l.n), l.arg, q');
  }

  /** condition_variable::wait returns exactly the argument of the wake that dequeued the caller,
      and that wake serves the coroutine waiting longest. */
  lemma WaitReturnsTheWakeArgument(qs: seq<System>, ls: seq<Label>, a: nat, b: nat, c: Id)
    requires IsRun(qs, ls) && a < b < |ls|
    requires ls[a].CvWake? && Queue(qs[a], Cond(ls[a].n)) != [] && Queue(qs[a], Cond(ls[a].n))[0] == c
    requires Resumes(qs, ls, b, c) && forall i | a < i < b :: !Resumes(qs, ls, i, c)
    ensures Queue(qs[a + 1], Cond(ls[a].n)) == Queue(qs[a], Cond(ls[a].n))[1..]
    ensures qs[b + 1].phase == Running(c)
    ensures qs[b + 1].status.current == Some(c) && c in qs[b + 1].status.values && YieldResult(qs[b + 1]) == ls[a].arg
  {
    hide Step, Enabled;
    RunStep(qs, ls, a);
    WakeCall(qs[a], ls[a], qs[a + 1]);
    RunKeepsPlaces(qs, ls, a + 1);
    var p := qs[a + 1].ready.pending;
    assert p[|p| - 1] == Entry(c, ls[a].arg);
    RunStaysDue(qs, ls, a + 1, b, c, ls[a].arg);
    ResumesTheFirst(qs, ls, b, c);
    DueDelivers(qs[b], c, ls[a].arg);
    RunStep(qs, ls, b);
    ResumeGives(qs[b], qs[b + 1]);
  }

  // ---------------------------------------------------------------- timers

  /** c sleeps until at least the instant `until`, or has been made ready after it. */
  ghost predicate Asleep(q: System, c: Id, until: int) {
    && PlaceInv(q)
    && (|| (q.now.Micros() > until && exists k: nat :: At(q, InPending(k), c) || At(q, InStaging(k), c))
        || (exists k: nat :: At(q, InEvents(k), c) && SoundDeadline(q.blocked.events[k].t, until)))
  }

  predicate SoundDeadline(t: Timeval, until: int) {
    t.usec < MICROS_PER_SEC && t.Micros() == until
  }

  lemma ClockAdvances(q: System, l: Label, q': System)
    requires q.now.Normal() && Enabled(q, l) && Step(q, l) == Next(q')
    ensures q'.now.Normal() && q.now.Micros() <= q'.now.Micros()
    ensures q'.now == (if l.Sample? then l.now else if l.Sleep? then l.t0 else q.now)
  {
  }

  /** Steps other than Fire only add to the timers. */
  lemma EventsStay(q: System, l: Label, q': System)
    requires Enabled(q, l) && Step(q, l) == Next(q') && !l.Fire?
    ensures q.blocked.events <= q'.blocked.events
  {
  }

  lemma ReadyStays(q: System, l: Label, q': System, c: Id)
    requires PlaceInv(q) && Enabled(q, l) && Step(q, l) == Next(q')
    requires exists k: nat :: At(q, InPending(k), c) || At(q, InStaging(k), c)
    requires !(l.Resume? && q.ready.staging[0].id == c)
    ensures exists k: nat :: At(q', InPending(k), c) || At(q', InStaging(k), c)
  {
    StepReady(q, l, q');
    var k: nat :| At(q, InPending(k), c) || At(q, InStaging(k), c);
    if At(q, InPending(k), c) {
      if q'.ready == SwapLists(q.ready) { assert At(q', InStaging(k), c); }
      else { assert At(q', InPending(k), c); }
    } else {
      if l.Resume? { assert At(q', InStaging(k - 1), c); }
      else { assert At(q', InStaging(k), c); }
    }
  }

  lemma TimerStays(q: System, l: Label, q': System, c: Id, k: nat, until: int)
    requires At(q, InEvents(k), c) && SoundDeadline(q.blocked.events[k].t, until)
    requires q.now.Normal() && Enabled(q, l) && Step(q, l) == Next(q')
    ensures if l == Fire(k) then At(q', InPending(|q.ready.pending|), c) && q'.now.Micros() > until
            else var j: nat := if l.Fire? && k > l.k then k - 1 else k;
              At(q', InEvents(j), c) && q'.blocked.events[j] == q.blocked.events[k]
  {
    if l == Fire(k) {
      FiredIsPast(q.blocked.events[k].t, q.now);
    } else if !l.Fire? {
      EventsStay(q, l, q');
    }
  }

  lemma AsleepStays(q: System, l: Label, q': System, c: Id, until: int)
    requires Asleep(q, c, until) && q.now.Normal() && Enabled(q, l) && Step(q, l) == Next(q') && PlaceInv(q')
    requires !(l.Resume? && q.ready.staging[0].id == c)
    ensures Asleep(q', c, until)
  {
    hide Step, Enabled;
    ClockAdvances(q, l, q');
    if k: nat :| At(q, InEvents(k), c) && SoundDeadline(q.blocked.events[k].t, until) {
      TimerStays(q, l, q', c, k, until);
    } else {
      ReadyStays(q, l, q', c);
    }
  }

  lemma {:induction false} RunStaysAsleep(qs: seq<System>, ls: seq<Label>, a: nat, b: nat, c: Id, until: int)
    requires IsRun(qs, ls) && a <= b <= |ls| && Asleep(qs[a], c, until) && qs[a].now.Normal()
    requires forall i | a <= i < b :: !Resumes(qs, ls, i, c)
    ensures Asleep(qs[b], c, until) && qs[b].now.Normal()
    decreases b
  {
    hide Step, Enabled, Asleep, PlaceInv;
    if a < b {
      RunStaysAsleep(qs, ls, a, b - 1, c, until);
      RunKeepsPlaces(qs, ls, b);
      RunStep(qs, ls, b - 1);
      assert !Resumes(qs, ls, b - 1, c);
      AsleepStays(qs[b - 1], ls[b - 1], qs[b], c, until);
      ClockAdvances(qs[b - 1], ls[b - 1], qs[b]);
    }
  }

  lemma {:induction false} RunClockNormal(qs: seq<System>, ls: seq<Label>, i: nat)
    requires IsRun(qs, ls) && i <= |ls|
    ensures qs[i].now.Normal()
  {
    if i > 0 {
      hide Step, Enabled;
      RunClockNormal(qs, ls, i - 1);
      RunStep(qs, ls, i - 1);
      ClockAdvances(qs[i - 1], ls[i - 1], qs[i]);
    }
  }

  lemma SleepShape(q: System, l: Label, q': System)
    requires l.Sleep? && Enabled(q, l) && Step(q, l) == Next(q')
    ensures q.phase.Running? && l.t0.Normal()
    ensures q'.blocked.events == q.blocked.events + [Event(SleepDeadline(l.t0, l.msec), q.phase.c, 0)]
  {
  }

  /** A coroutine that calls sleep(msec) at t0 is not resumed before the clock has passed
      t0 + msec milliseconds, for any msec, whatever else happens. */
  lemma SleepNeverEndsEarly(qs: seq<System>, ls: seq<Label>, a: nat, b: nat, c: Id)
    requires IsRun(qs, ls) && a < b < |ls|
    requires ls[a].Sleep? && qs[a].phase == Running(c)
    requires Resumes(qs, ls, b, c) && forall i | a < i < b :: !Resumes(qs, ls, i, c)
    ensures qs[b].now.Micros() > ls[a].t0.Micros() + ls[a].msec * 1000
  {
    hide Step, Enabled;
    RunStep(qs, ls, a);
    SleepShape(qs[a], ls[a], qs[a + 1]);
    var until := ls[a].t0.Micros() + ls[a].msec * 1000;
    RunKeepsPlaces(qs, ls, a + 1);
    RunClockNormal(qs, ls, a + 1);
    SleepDeadlineDenotes(ls[a].t0, ls[a].msec);
    assert At(qs[a + 1], InEvents(|qs[a].blocked.events|), c);
    RunStaysAsleep(qs, ls, a + 1, b, c, until);
    ResumesTheFirst(qs, ls, b, c);
    assert At(qs[b], InStaging(0), c);
  }

  // ---------------------------------------------------------------- latch

  lemma DoneIsKept(q: System, l: Label, q': System)
    requires Enabled(q, l) && Step(q, l) == Next(q')
    ensures q.shared.done <= q'.shared.done
    ensures l.LatchWake? ==> l.n in q'.shared.done
  {
  }

  /** Once the latch is set nobody joins its queue, and each wake_all takes one from the front. */
  lemma LatchQueueStep(q: System, l: Label, q': System, n: nat)
    requires Enabled(q, l) && Step(q, l) == Next(q')
    requires n in q.shared.done || l == LatchWake(n)
    ensures Queue(q', LatchCv(n)) ==
            if l == LatchWake(n) && Queue(q, LatchCv(n)) != [] then Queue(q, LatchCv(n))[1..] else Queue(q, LatchCv(n))
  {
  }

  /** The number of LatchWake(n) among labels a, ..., b - 1. */
  function WakeCalls(ls: seq<Label>, n: nat, a: nat, b: nat): nat
    requires a <= b <= |ls|
    decreases b
  {
    if a == b then 0 else WakeCalls(ls, n, a, b - 1) + if ls[b - 1] == LatchWake(n) then 1 else 0
  }

  /** The queue w after its k oldest members have left. */
  function AfterReleasing(w: seq<Id>, k: nat): seq<Id> {
    w[if k < |w| then k else |w|..]
  }

  lemma ReleaseOneMore(w: seq<Id>, k: nat)
    ensures AfterReleasing(w, 0) == w
    ensures AfterReleasing(w, k + 1) == var v := AfterReleasing(w, k); if v == [] then v else v[1..]
  {
  }

  lemma LatchReleaseStep(q: System, l: Label, q': System, n: nat, w: seq<Id>, k: nat)
    requires Enabled(q, l) && Step(q, l) == Next(q')
    requires n in q.shared.done || l == LatchWake(n)
    requires Queue(q, LatchCv(n)) == AfterReleasing(w, k)
    ensures n in q'.shared.done
    ensures Queue(q', LatchCv(n)) == AfterReleasing(w, if l == LatchWake(n) then k + 1 else k)
  {
    DoneIsKept(q, l, q');
    LatchQueueStep(q, l, q', n);
    ReleaseOneMore(w, k);
  }

  /** From the first wake_all on, the latch stays set, and after k calls the oldest min(k, |w|)
      of the |w| coroutines then waiting have been released, the rest still wait in order. */
  lemma {:induction false} LatchReleasesOnePerCall(qs: seq<System>, ls: seq<Label>, n: nat, a: nat, b: nat)
    requires IsRun(qs, ls) && a < b <= |ls| && ls[a] == LatchWake(n)
    ensures n in qs[b].shared.done
    ensures Queue(qs[b], LatchCv(n)) == AfterReleasing(Queue(qs[a], LatchCv(n)), WakeCalls(ls, n, a, b))
    decreases b
  {
    hide Step, Enabled;
    var w := Queue(qs[a], LatchCv(n));
    if a + 1 == b {
      ReleaseOneMore(w, 0);
      RunStep(qs, ls, a);
      LatchReleaseStep(qs[a], ls[a], qs[b], n, w, 0);
    } else {
      LatchReleasesOnePerCall(qs, ls, n, a, b - 1);
      RunStep(qs, ls, b - 1);
      LatchReleaseStep(qs[b - 1], ls[b - 1], qs[b], n, w, WakeCalls(ls, n, a, b - 1));
    }
  }

  /** wake_all is meant to release every waiter at once; called on any queue it does so exactly
      when there is at most one. */
  lemma WakeAllReleasesAllIffAtMostOne(q: System, cv: CvId, arg: Arg, q': System)
    requires Wake(q, cv, arg) == Next(q')
    ensures Queue(q', cv) == [] <==> |Queue(q, cv)| <= 1
  {
  }
}
