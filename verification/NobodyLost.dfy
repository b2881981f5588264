/** Is a living coroutine always somewhere?  Yes, exactly as long as nobody registers with the
    poller for a descriptor that is already taken in that direction. */
module NobodyLost {
  import opened Scheduling
  import opened WakeUniqueness

  /** Spawned, and its thread function has not returned. */
  predicate Living(q: System, c: Id) {
    c in q.status.spawned && c !in q.status.dead
  }

  ghost predicate Somewhere(q: System, c: Id) {
    exists p :: At(q, p, c)
  }

  ghost predicate AllPlaced(q: System) {
    forall c | Living(q, c) :: Somewhere(q, c)
  }

  /** The registration that step l overwrites, if any. */
  predicate Displaces(q: System, l: Label) {
    || (l.WaitRead? && l.fd in q.blocked.readers)
    || (l.WaitWrite? && l.fd in q.blocked.writers)
  }

  // ---------------------------------------------------------------- where a step takes a coroutine

  function GoesWoken(q: System, cv: CvId, p: Place): Place {
    if p == InQueue(cv, 0) then InPending(|q.ready.pending|)
    else if p.InQueue? && p.cv == cv && p.k > 0 then InQueue(cv, p.k - 1)
    else p
  }

  function GoesJoined(q: System, cv: CvId, p: Place): Place {
    if p == OnCpu then InQueue(cv, |Queue(q, cv)|) else p
  }

  /** Where the occupant of place p is after step l. */
  function Goes(q: System, l: Label, p: Place): Place {
    match l
    case Sample(_) => p
    case Fire(k) =>
      if p == InEvents(k) then InPending(|q.ready.pending|)
      else if p.InEvents? && p.k > k then InEvents(p.k - 1) else p
    case FireEnd => if p.InPending? then InStaging(p.k) else p
    case Resume => if p == InStaging(0) then OnCpu else if p.InStaging? && p.k > 0 then InStaging(p.k - 1) else p
    case WakeRead(fd) => if p == InReaders(fd) then InPending(|q.ready.pending|) else p
    case WakeWrite(fd) => if p == InWriters(fd) then InPending(|q.ready.pending|) else p
    case Spawn(_, _) => p
    case Sleep(_, _) => if p == OnCpu then InEvents(|q.blocked.events|) else p
    case WaitRead(fd) => if p == OnCpu then InReaders(fd) else p
    case WaitWrite(fd) => if p == OnCpu then InWriters(fd) else p
    case CvWait(n) => GoesJoined(q, Cond(n), p)
    case CvWake(n, _) => GoesWoken(q, Cond(n), p)
    case LatchWait(n) => if n in q.shared.done then p else GoesJoined(q, LatchCv(n), p)
    case LatchWake(n) => GoesWoken(q, LatchCv(n), p)
    case Push(f, _) => GoesWoken(q, FifoCv(f), p)
    case Pop(f) => if Items(q, f) == [] then GoesJoined(q, FifoCv(f), p) else p
    case Exit => p
  }

  lemma WokenGoes(q: System, q1: System, cv: CvId, arg: Arg, q': System, p: Place, c: Id)
    requires q1 == q.(shared := q1.shared) && Wake(q1, cv, arg) == Next(q') && At(q, p, c)
    ensures At(q', GoesWoken(q, cv, p), c)
  {
  }

  lemma JoinedGoes(q: System, q1: System, cv: CvId, p: Place, c: Id)
    requires q1 == q.(shared := q1.shared) && q.phase.Running? && At(q, p, c)
    ensures At(Join(q1, cv), GoesJoined(q, cv, p), c)
  {
  }

  lemma WakeGoes(q: System, l: Label, q': System, p: Place, c: Id)
    requires (WakesQueue(l) || l.Push?) && Enabled(q, l) && Step(q, l) == Next(q') && At(q, p, c)
    ensures At(q', Goes(q, l, p), c)
  {
    hide At, GoesWoken, Wake;
    match l
    case CvWake(n, arg) => WokenGoes(q, q, Cond(n), arg, q', p, c);
    case LatchWake(n) =>
      WokenGoes(q, q.(shared := q.shared.(done := q.shared.done + {n})), LatchCv(n), 0, q', p, c);
    case Push(f, x) => WokenGoes(q, q.(shared := Stored(q.shared, f, x)), FifoCv(f), 0, q', p, c);
  }

  lemma JoinGoes(q: System, l: Label, q': System, p: Place, c: Id)
    requires (JoinsQueue(l) || l.Pop?) && Enabled(q, l) && Step(q, l) == Next(q') && At(q, p, c)
    ensures At(q', Goes(q, l, p), c)
  {
    hide Join;
    match l
    case CvWait(n) => JoinedGoes(q, q, Cond(n), p, c);
    case LatchWait(n) => if n !in q.shared.done { JoinedGoes(q, q, LatchCv(n), p, c); }
    case Pop(f) =>
      if Items(q, f) == [] { JoinedGoes(q, q.(shared := Failed(q.shared, f, q.phase.c)), FifoCv(f), p, c); }
  }

  lemma SchedulerGoes(q: System, l: Label, q': System, p: Place, c: Id)
    requires Dispatches(l) || Drains(l) || l.Fire?
    requires StagingInv(q) && Enabled(q, l) && Step(q, l) == Next(q') && At(q, p, c)
    ensures At(q', Goes(q, l, p), c)
  {
  }

  lemma CoroGoes(q: System, l: Label, q': System, p: Place, c: Id)
    requires l.Spawn? || l.Sleep? || l.WaitRead? || l.WaitWrite? || l.Exit?
    requires Enabled(q, l) && Step(q, l) == Next(q') && At(q, p, c)
    requires !Displaces(q, l) && !(l.Exit? && p == OnCpu)
    ensures At(q', Goes(q, l, p), c)
  {
  }

  lemma StepGoes(q: System, l: Label, q': System, p: Place, c: Id)
    requires StagingInv(q) && Enabled(q, l) && Step(q, l) == Next(q') && At(q, p, c)
    requires !Displaces(q, l) && !(l.Exit? && p == OnCpu)
    ensures At(q', Goes(q, l, p), c)
  {
    hide Step, Enabled, At, Goes;
    if WakesQueue(l) || l.Push? { WakeGoes(q, l, q', p, c); }
    else if JoinsQueue(l) || l.Pop? { JoinGoes(q, l, q', p, c); }
    else if Dispatches(l) || Drains(l) || l.Fire? { SchedulerGoes(q, l, q', p, c); }
    else { CoroGoes(q, l, q', p, c); }
  }

  lemma SpawnedIsPending(q: System, l: Label, q': System)
    requires l.Spawn? && Enabled(q, l) && Step(q, l) == Next(q')
    ensures At(q', InPending(|q.ready.pending|), l.c)
  {
  }

  /** A step that displaces nobody keeps every living coroutine somewhere. */
  lemma StepKeepsPlaced(q: System, l: Label, q': System)
    requires PlaceInv(q) && AllPlaced(q) && Enabled(q, l) && Step(q, l) == Next(q') && !Displaces(q, l)
    ensures AllPlaced(q')
  {
    hide Step, Enabled, Goes;
    StepKeepsStaging(q, l, q');
    forall c | Living(q', c) ensures Somewhere(q', c) {
      if l.Spawn? && c == l.c {
        SpawnedIsPending(q, l, q');
      } else {
        assert Somewhere(q, c);
        var p :| At(q, p, c);
        StepGoes(q, l, q', p, c);
      }
    }
  }

  /** Whoever held the registration that a step overwrites. */
  function Displaced(q: System, l: Label): Id
    requires Displaces(q, l)
  {
    if l.WaitRead? then q.blocked.readers[l.fd] else q.blocked.writers[l.fd]
  }

  function Slot(l: Label): Place
    requires l.WaitRead? || l.WaitWrite?
  {
    if l.WaitRead? then InReaders(l.fd) else InWriters(l.fd)
  }

  lemma DisplacedShape(q: System, l: Label)
    requires Enabled(q, l) && Displaces(q, l)
    ensures At(q, Slot(l), Displaced(q, l)) && Was(q, l, Slot(l)) == OnCpu && q.phase.Running?
    ensures forall p | Was(q, l, p) == Slot(l) :: p == Slot(l)
  {
  }

  /** ... is alive, and afterwards nowhere. */
  lemma DisplacedIsLost(q: System, l: Label, q': System)
    requires PlaceInv(q) && Enabled(q, l) && Step(q, l) == Next(q') && Displaces(q, l)
    ensures Living(q', Displaced(q, l)) && !Somewhere(q', Displaced(q, l))
  {
    hide Step, Enabled, Was;
    var c := Displaced(q, l);
    DisplacedShape(q, l);
    StepKeepsStaging(q, l, q');
    forall p ensures !At(q', p, c) {
      if At(q', p, c) { Moves(q, l, q', p, p, c); }
    }
  }

  // ---------------------------------------------------------------- whole runs

  /** A living coroutine that is nowhere stays alive and nowhere: it is never resumed again. */
  lemma {:induction false} LostForever(qs: seq<System>, ls: seq<Label>, a: nat, b: nat, c: Id)
    requires IsRun(qs, ls) && a <= b <= |ls| && Living(qs[a], c) && !Somewhere(qs[a], c)
    ensures Living(qs[b], c) && !Somewhere(qs[b], c)
    ensures forall i | a <= i < b :: !Resumes(qs, ls, i, c)
    decreases b
  {
    hide Step, Enabled, Was;
    if a < b {
      LostForever(qs, ls, a, b - 1, c);
      RunKeepsPlaces(qs, ls, b - 1);
      RunStep(qs, ls, b - 1);
      LostStep(qs[b - 1], ls[b - 1], qs[b], c);
      if Resumes(qs, ls, b - 1, c) {
        ResumesTheFirst(qs, ls, b - 1, c);
        FirstIsSomewhere(qs[b - 1]);
      }
    }
  }

  lemma FirstIsSomewhere(q: System)
    requires q.ready.staging != []
    ensures Somewhere(q, q.ready.staging[0].id)
  {
    assert At(q, InStaging(0), q.ready.staging[0].id);
  }

  lemma LostStep(q: System, l: Label, q': System, c: Id)
    requires PlaceInv(q) && Enabled(q, l) && Step(q, l) == Next(q') && Living(q, c) && !Somewhere(q, c)
    ensures Living(q', c) && !Somewhere(q', c)
  {
    hide Step, Was;
    StepKeepsStaging(q, l, q');
    if l.Exit? { assert At(q, OnCpu, q.phase.c); }
    if p :| At(q', p, c) {
      if l.Spawn? && p == InPending(|q.ready.pending|) {
        SpawnedIsPending(q, l, q');
      } else {
        Moves(q, l, q', p, p, c);
      }
    }
  }

  /** Up to step n everybody alive has been somewhere all the time, if and only if nobody has
      registered for a descriptor already taken in that direction. */
  lemma {:induction false} EveryoneSomewhereIff(qs: seq<System>, ls: seq<Label>, n: nat)
    requires IsRun(qs, ls) && n <= |ls|
    ensures (forall i | 0 <= i <= n :: AllPlaced(qs[i])) <==> (forall i | 0 <= i < n :: !Displaces(qs[i], ls[i]))
  {
    hide Step, Enabled, AllPlaced, Displaces;
    if n == 0 {
      NobodyYet(qs[0]);
    } else {
      EveryoneSomewhereIff(qs, ls, n - 1);
      RunKeepsPlaces(qs, ls, n - 1);
      RunStep(qs, ls, n - 1);
      if Displaces(qs[n - 1], ls[n - 1]) {
        SomeoneLost(qs[n - 1], ls[n - 1], qs[n]);
      } else if AllPlaced(qs[n - 1]) {
        StepKeepsPlaced(qs[n - 1], ls[n - 1], qs[n]);
      }
    }
  }

  lemma NobodyYet(q: System)
    requires Initial(q)
    ensures AllPlaced(q)
  {
  }

  lemma SomeoneLost(q: System, l: Label, q': System)
    requires PlaceInv(q) && Enabled(q, l) && Step(q, l) == Next(q') && Displaces(q, l)
    ensures !AllPlaced(q')
  {
    hide Step;
    DisplacedIsLost(q, l, q');
  }
}
