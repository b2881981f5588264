/** In every reachable state a coroutine is in at most one place, so none is woken twice and
    neither schedule() nor resume() ever meets a dead coroutine. */
module WakeUniqueness {
  import opened Scheduling

  /** Where the occupant of place p after a wake-up of cv was before it. */
  function WasWoken(q: System, cv: CvId, p: Place): Place {
    if Queue(q, cv) == [] then p
    else match p
      case InPending(k) => if k == |q.ready.pending| then InQueue(cv, 0) else p
      case InQueue(cv', k) => if cv' == cv then InQueue(cv, k + 1) else p
      case _ => p
  }

  function WasJoined(q: System, cv: CvId, p: Place): Place {
    if p == InQueue(cv, |Queue(q, cv)|) then OnCpu else p
  }

  /** Where the occupant of place p after step l was before it. */
  function Was(q: System, l: Label, p: Place): Place {
    match l
    case Sample(_) => p
    case Fire(k) =>
      (match p
       case InPending(j) => if j == |q.ready.pending| then InEvents(k) else p
       case InEvents(j) => InEvents(if j < k then j else j + 1)
       case _ => p)
    case FireEnd => if p.InStaging? then InPending(p.k) else p
    case Resume =>
      (match p
       case InStaging(j) => InStaging(j + 1)
       case OnCpu => InStaging(0)
       case _ => p)
    case WakeRead(fd) => if p == InPending(|q.ready.pending|) then InReaders(fd) else p
    case WakeWrite(fd) => if p == InPending(|q.ready.pending|) then InWriters(fd) else p
    case Spawn(_, _) => p
    case Sleep(_, _) => if p == InEvents(|q.blocked.events|) then OnCpu else p
    case WaitRead(fd) => if p == InReaders(fd) then OnCpu else p
    case WaitWrite(fd) => if p == InWriters(fd) then OnCpu else p
    case CvWait(n) => WasJoined(q, Cond(n), p)
    case CvWake(n, _) => WasWoken(q, Cond(n), p)
    case LatchWait(n) => if n in q.shared.done then p else WasJoined(q, LatchCv(n), p)
    case LatchWake(n) => WasWoken(q, LatchCv(n), p)
    case Push(f, _) => WasWoken(q, FifoCv(f), p)
    case Pop(f) => if Items(q, f) == [] then WasJoined(q, FifoCv(f), p) else p
    case Exit => p
  }

  /** staging is non-empty only while run_pending is inside its loop. */
  predicate StagingInv(q: System) {
    q.ready.staging != [] ==> q.phase.Draining? || q.phase.Running?
  }

  ghost predicate PlaceInv(q: System) {
    Unique(q) && Alive(q) && StagingInv(q) && q.status.dead <= q.status.spawned
  }

  predicate WakesQueue(l: Label) { l.CvWake? || l.LatchWake? }
  predicate JoinsQueue(l: Label) { l.CvWait? || l.LatchWait? }
  predicate Dispatches(l: Label) { l.Sample? || l.WakeRead? || l.WakeWrite? }
  predicate Drains(l: Label) { l.FireEnd? || l.Resume? }

  /** q1 is q with its latches and fifos brought up to date. */
  lemma WokenMoves(q: System, q1: System, cv: CvId, arg: Arg, q': System, p: Place, p': Place, c: Id)
    requires q1 == q.(shared := q1.shared) && Wake(q1, cv, arg) == Next(q') && At(q', p, c) && At(q', p', c)
    ensures At(q, WasWoken(q, cv, p), c)
    ensures WasWoken(q, cv, p) == WasWoken(q, cv, p') ==> p == p'
  {
  }

  lemma JoinedMoves(q: System, q1: System, cv: CvId, p: Place, p': Place, c: Id)
    requires q1 == q.(shared := q1.shared) && q.phase.Running?
    requires At(Join(q1, cv), p, c) && At(Join(q1, cv), p', c)
    ensures At(q, WasJoined(q, cv, p), c)
    ensures WasJoined(q, cv, p) == WasJoined(q, cv, p') ==> p == p'
  {
  }

  lemma WakeMoves(q: System, l: Label, q': System, p: Place, p': Place, c: Id)
    requires WakesQueue(l)
    requires Enabled(q, l) && Step(q, l) == Next(q') && At(q', p, c) && At(q', p', c)
    ensures At(q, Was(q, l, p), c)
    ensures Was(q, l, p) == Was(q, l, p') ==> p == p'
  {
    hide At, WasWoken, Wake;
    match l
    case CvWake(n, arg) => WokenMoves(q, q, Cond(n), arg, q', p, p', c);
    case LatchWake(n) =>
      var q1 := q.(shared := q.shared.(done := q.shared.done + {n}));
      WokenMoves(q, q1, LatchCv(n), 0, q', p, p', c);
  }

  lemma PushMoves(q: System, l: Label, q': System, p: Place, p': Place, c: Id)
    requires l.Push?
    requires Enabled(q, l) && Step(q, l) == Next(q') && At(q', p, c) && At(q', p', c)
    ensures At(q, Was(q, l, p), c)
    ensures Was(q, l, p) == Was(q, l, p') ==> p == p'
  {
    hide At, WasWoken, Wake;
    WokenMoves(q, q.(shared := Stored(q.shared, l.f, l.x)), FifoCv(l.f), 0, q', p, p', c);
  }

  lemma JoinMoves(q: System, l: Label, q': System, p: Place, p': Place, c: Id)
    requires JoinsQueue(l)
    requires Enabled(q, l) && Step(q, l) == Next(q') && At(q', p, c) && At(q', p', c)
    ensures At(q, Was(q, l, p), c)
    ensures Was(q, l, p) == Was(q, l, p') ==> p == p'
  {
    hide At, WasJoined, Join;
    match l
    case CvWait(n) => JoinedMoves(q, q, Cond(n), p, p', c);
    case LatchWait(n) => if n !in q.shared.done { JoinedMoves(q, q, LatchCv(n), p, p', c); }
  }

  lemma PopMoves(q: System, l: Label, q': System, p: Place, p': Place, c: Id)
    requires l.Pop?
    requires Enabled(q, l) && Step(q, l) == Next(q') && At(q', p, c) && At(q', p', c)
    ensures At(q, Was(q, l, p), c)
    ensures Was(q, l, p) == Was(q, l, p') ==> p == p'
  {
    hide Join;
    if Items(q, l.f) == [] {
      JoinedMoves(q, q.(shared := Failed(q.shared, l.f, q.phase.c)), FifoCv(l.f), p, p', c);
    }
  }

  lemma FireMoves(q: System, l: Label, q': System, p: Place, p': Place, c: Id)
    requires l.Fire?
    requires Enabled(q, l) && Step(q, l) == Next(q') && At(q', p, c) && At(q', p', c)
    ensures At(q, Was(q, l, p), c)
    ensures Was(q, l, p) == Was(q, l, p') ==> p == p'
  {
    if p.InEvents? { assert q'.blocked.events[p.k] == q.blocked.events[if p.k < l.k then p.k else p.k + 1]; }
  }

  lemma DispatchMoves(q: System, l: Label, q': System, p: Place, p': Place, c: Id)
    requires Dispatches(l)
    requires Enabled(q, l) && Step(q, l) == Next(q') && At(q', p, c) && At(q', p', c)
    ensures At(q, Was(q, l, p), c)
    ensures Was(q, l, p) == Was(q, l, p') ==> p == p'
  {
  }

  lemma DrainMoves(q: System, l: Label, q': System, p: Place, p': Place, c: Id)
    requires Drains(l) && StagingInv(q)
    requires Enabled(q, l) && Step(q, l) == Next(q') && At(q', p, c) && At(q', p', c)
    ensures At(q, Was(q, l, p), c)
    ensures Was(q, l, p) == Was(q, l, p') ==> p == p'
  {
  }

  lemma PlainMoves(q: System, l: Label, q': System, p: Place, p': Place, c: Id)
    requires !WakesQueue(l) && !l.Push? && !JoinsQueue(l) && !l.Pop? && !l.Fire? && !Dispatches(l) && !Drains(l)
    requires Enabled(q, l) && Step(q, l) == Next(q') && At(q', p, c) && At(q', p', c)
    requires !(l.Spawn? && p == InPending(|q.ready.pending|))
    ensures At(q, Was(q, l, p), c)
    ensures Was(q, l, p) == Was(q, l, p') ==> p == p'
  {
  }

  /** A step only moves coroutines: whoever is at p afterwards was at Was(p) before, and no two
      places go back to the same one. */
  lemma Moves(q: System, l: Label, q': System, p: Place, p': Place, c: Id)
    requires StagingInv(q) && Enabled(q, l) && Step(q, l) == Next(q') && At(q', p, c) && At(q', p', c)
    requires !(l.Spawn? && p == InPending(|q.ready.pending|))
    ensures At(q, Was(q, l, p), c)
    ensures Was(q, l, p) == Was(q, l, p') ==> p == p'
  {
    hide Step, Enabled, At, Was;
    if WakesQueue(l) { WakeMoves(q, l, q', p, p', c); }
    else if l.Push? { PushMoves(q, l, q', p, p', c); }
    else if JoinsQueue(l) { JoinMoves(q, l, q', p, p', c); }
    else if l.Pop? { PopMoves(q, l, q', p, p', c); }
    else if l.Fire? { FireMoves(q, l, q', p, p', c); }
    else if Dispatches(l) { DispatchMoves(q, l, q', p, p', c); }
    else if Drains(l) { DrainMoves(q, l, q', p, p', c); }
    else { PlainMoves(q, l, q', p, p', c); }
  }

  lemma StepKeepsStaging(q: System, l: Label, q': System)
    requires PlaceInv(q) && Enabled(q, l) && Step(q, l) == Next(q')
    ensures StagingInv(q')
    ensures q'.status.spawned == q.status.spawned + (if l.Spawn? then {l.c} else {})
    ensures q'.status.dead == q.status.dead + (if l.Exit? then {q.phase.c} else {})
  {
  }

  lemma StepKeepsAlive(q: System, l: Label, q': System)
    requires PlaceInv(q) && Enabled(q, l) && Step(q, l) == Next(q')
    ensures Alive(q') && q'.status.dead <= q'.status.spawned
  {
    StepKeepsStaging(q, l, q');
    if q.phase.Running? { assert At(q, OnCpu, q.phase.c); }
    forall c, p | At(q', p, c) ensures c in q'.status.spawned && c !in q'.status.dead {
      if l.Spawn? && p == InPending(|q.ready.pending|) {
        assert c == l.c;
      } else {
        Moves(q, l, q', p, p, c);
        if l.Exit? { assert At(q, p, c); }
      }
    }
  }

  lemma StepKeepsUnique(q: System, l: Label, q': System)
    requires PlaceInv(q) && Enabled(q, l) && Step(q, l) == Next(q')
    ensures Unique(q')
  {
    forall c, p, p' | At(q', p, c) && At(q', p', c) ensures p == p' {
      if p != InPending(|q.ready.pending|) || !l.Spawn? { Moves(q, l, q', p, p', c); }
      if p' != InPending(|q.ready.pending|) || !l.Spawn? { Moves(q, l, q', p', p, c); }
    }
  }

  /** No step of a state satisfying the invariant throws Dead_Coro. */
  lemma StepNeverThrows(q: System, l: Label)
    requires PlaceInv(q) && Enabled(q, l)
    ensures Step(q, l).Next?
  {
    match l
    case Fire(k) => assert At(q, InEvents(k), q.blocked.events[k].id);
    case Resume => assert At(q, InStaging(0), q.ready.staging[0].id);
    case WakeRead(fd) => assert At(q, InReaders(fd), q.blocked.readers[fd]);
    case WakeWrite(fd) => assert At(q, InWriters(fd), q.blocked.writers[fd]);
    case CvWake(n, _) => if Queue(q, Cond(n)) != [] { assert At(q, InQueue(Cond(n), 0), Queue(q, Cond(n))[0]); }
    case LatchWake(n) =>
      if Queue(q, LatchCv(n)) != [] { assert At(q, InQueue(LatchCv(n), 0), Queue(q, LatchCv(n))[0]); }
    case Push(f, _) => if Queue(q, FifoCv(f)) != [] { assert At(q, InQueue(FifoCv(f), 0), Queue(q, FifoCv(f))[0]); }
    case _ =>
  }

  // ---------------------------------------------------------------- whole runs

  lemma NobodyAnywhere(q: System)
    requires Initial(q)
    ensures PlaceInv(q)
  {
  }

  lemma {:induction false} RunKeepsPlaces(qs: seq<System>, ls: seq<Label>, i: nat)
    requires IsRun(qs, ls) && i <= |ls|
    ensures PlaceInv(qs[i])
  {
    hide Step, Enabled, Unique, Alive;
    if i > 0 {
      RunKeepsPlaces(qs, ls, i - 1);
      RunStep(qs, ls, i - 1);
      StepKeepsStaging(qs[i - 1], ls[i - 1], qs[i]);
      StepKeepsAlive(qs[i - 1], ls[i - 1], qs[i]);
      StepKeepsUnique(qs[i - 1], ls[i - 1], qs[i]);
    } else {
      NobodyAnywhere(qs[0]);
    }
  }

  /** Wake uniqueness: in every reachable state each coroutine is in at most one of the pending
      list, the rest of the staging list, the timer queue, the poller maps, the condition queues
      and the processor; and no step from there throws Dead_Coro. */
  lemma AtMostOnePlace(qs: seq<System>, ls: seq<Label>, i: nat, c: Id, p: Place, p': Place)
    requires IsRun(qs, ls) && i <= |ls|
    requires At(qs[i], p, c) && At(qs[i], p', c)
    ensures p == p' && c in qs[i].status.spawned && c !in qs[i].status.dead
  {
    hide Step, Enabled;
    RunKeepsPlaces(qs, ls, i);
  }

  lemma NeverDeadCoro(qs: seq<System>, ls: seq<Label>, i: nat, l: Label)
    requires IsRun(qs, ls) && i <= |ls| && Enabled(qs[i], l)
    ensures Step(qs[i], l).Next?
  {
    hide Step, Enabled;
    RunKeepsPlaces(qs, ls, i);
    StepNeverThrows(qs[i], l);
  }
}
