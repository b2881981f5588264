/** The scheduler, its timers and pollers, and the synchronisation objects of sync.h, as one
    state machine.  A transition is a stretch of code between two points where control can
    change hands; a blocking call is split at its switch to the scheduler. */
module Scheduling {
  import opened Options
  import opened Timevals

  type Id = nat
  type Arg = int
  type Item = int

  datatype Entry = Entry(id: Id, arg: Arg)
  datatype Event = Event(t: Timeval, id: Id, arg: Arg)

  /** Condition variables: free-standing ones and the private one of each latch and fifo. */
  datatype CvId = Cond(n: nat) | LatchCv(n: nat) | FifoCv(n: nat)

  /** Where control is: outside run_pending, in schedule_events, at the head of the loop over
      the staging list, or in a coroutine. */
  datatype Phase = Outside | Firing | Draining | Running(c: Id)

  /** The two lists of run_pending (staging is its part not yet resumed), with the history of
      all schedule calls and all resumes. */
  datatype Ready = Ready(pending: seq<Entry>, staging: seq<Entry>, scheduled: seq<Entry>, resumed: seq<Entry>)

  /** The other places that hold blocked coroutines: timers, poller registrations, condition queues. */
  datatype Blocked = Blocked(events: seq<Event>, readers: map<int, Id>, writers: map<int, Id>,
                             waiting: map<CvId, seq<Id>>)

  /** Latches set; fifo contents with the history of pushes and pops; and, for a coroutine inside
      fifo::pop past a failed test for items, its fifo. */
  datatype Shared = Shared(done: set<nat>, items: map<nat, seq<Item>>, pushed: map<nat, seq<Item>>,
                           popped: map<nat, seq<Item>>, popping: map<Id, nat>)

  datatype Status = Status(spawned: set<Id>, dead: set<Id>, current: Option<Id>, values: map<Id, Arg>)

  datatype System = System(phase: Phase, now: Timeval, ready: Ready, blocked: Blocked, shared: Shared, status: Status)

  function Get<K, V>(m: map<K, seq<V>>, k: K): seq<V> {
    if k in m then m[k] else []
  }

  function Queue(q: System, cv: CvId): seq<Id> { Get(q.blocked.waiting, cv) }
  function Items(q: System, f: nat): seq<Item> { Get(q.shared.items, f) }

  // ---------------------------------------------------------------- transitions

  datatype Label =
    | Sample(now: Timeval)                 // schedule_events reads the clock
    | Fire(k: nat)                         // ... pops the top event
    | FireEnd                              // ... returns; run_pending swaps the lists or returns
    | Resume                               // next entry of the staging list
    | WakeRead(fd: int) | WakeWrite(fd: int)            // poll dispatches a registration
    | Spawn(c: Id, arg: Arg)               // new coro, scheduled once
    | Sleep(t0: Timeval, msec: int)
    | WaitRead(fd: int) | WaitWrite(fd: int)
    | CvWait(n: nat) | CvWake(n: nat, arg: Arg)
    | LatchWait(n: nat) | LatchWake(n: nat)
    | Push(f: nat, x: Item) | Pop(f: nat)  // Pop: one test of fifo::pop's loop condition
    | Exit                                 // the thread function returned

  /** coro::schedule throws on a dead coroutine, and so does coro::resume. */
  datatype Outcome = Next(q: System) | DeadCoro(c: Id)

  /** event k is a legitimate top of the priority queue. */
  predicate IsTop(events: seq<Event>, k: nat) {
    k < |events| && forall j | 0 <= j < |events| :: !Less(events[j].t, events[k].t)
  }

  /** User code may run: in main outside the scheduler, or in a coroutine not re-testing pop. */
  predicate UserCode(q: System) {
    q.phase.Outside? || CoroCode(q)
  }

  predicate CoroCode(q: System) {
    q.phase.Running? && q.phase.c !in q.shared.popping
  }

  predicate Enabled(q: System, l: Label) {
    match l
    case Sample(now) =>
      && (q.phase.Outside? || (q.phase.Draining? && q.ready.staging == []))
      && now.Normal() && q.now.Micros() <= now.Micros()
    case Fire(k) => q.phase.Firing? && IsTop(q.blocked.events, k) && Less(q.blocked.events[k].t, q.now)
    case FireEnd => q.phase.Firing? && forall e <- q.blocked.events :: !Less(e.t, q.now)
    case Resume => q.phase.Draining? && q.ready.staging != []
    case WakeRead(fd) => q.phase.Outside? && fd in q.blocked.readers
    case WakeWrite(fd) => q.phase.Outside? && fd in q.blocked.writers
    case Spawn(c, _) => UserCode(q) && c !in q.status.spawned
    case Sleep(t0, _) => CoroCode(q) && t0.Normal() && q.now.Micros() <= t0.Micros()
    case WaitRead(_) => CoroCode(q)
    case WaitWrite(_) => CoroCode(q)
    case CvWait(_) => CoroCode(q)
    case CvWake(_, _) => UserCode(q)
    case LatchWait(_) => CoroCode(q)
    case LatchWake(_) => UserCode(q)
    case Push(_, _) => UserCode(q)
    case Pop(f) => q.phase.Running? && (q.phase.c in q.shared.popping ==> q.shared.popping[q.phase.c] == f)
    case Exit => CoroCode(q)
  }

  /** coro::schedule */
  function Schedule(q: System, c: Id, arg: Arg): Outcome {
    if c in q.status.dead then DeadCoro(c)
    else Next(q.(ready := Append(q.ready, Entry(c, arg))))
  }

  function Append(r: Ready, e: Entry): Ready {
    r.(pending := r.pending + [e], scheduled := r.scheduled + [e])
  }

  /** std::swap (_staging, _pending), the old staging list having been cleared. */
  function SwapLists(r: Ready): Ready {
    r.(staging := r.pending, pending := [])
  }

  /** The iteration over the staging list advances. */
  function Advance(r: Ready): Ready
    requires r.staging != []
  {
    r.(staging := r.staging[1..], resumed := r.resumed + [r.staging[0]])
  }

  /** condition_variable::wake_one, and wake_all too: its loop returns after one round. */
  function Wake(q: System, cv: CvId, arg: Arg): Outcome {
    var w := Queue(q, cv);
    if w == [] then Next(q)
    else Schedule(q.(blocked := q.blocked.(waiting := q.blocked.waiting[cv := w[1..]])), w[0], arg)
  }

  /** The same operation as its own parts see it: the queue, the two lists, and the exception. */
  datatype WakeResult = WakeResult(waiting: seq<Id>, lists: Ready, thrown: bool)

  function WakeFront(w: seq<Id>, r: Ready, dead: set<Id>, arg: Arg): WakeResult {
    if w == [] then WakeResult(w, r, false)
    else if w[0] in dead then WakeResult(w[1..], r, true)
    else WakeResult(w[1..], Append(r, Entry(w[0], arg)), false)
  }

  /** condition_variable::wait: join the queue and yield. */
  function Join(q: System, cv: CvId): System
    requires q.phase.Running?
  {
    q.(blocked := q.blocked.(waiting := q.blocked.waiting[cv := Queue(q, cv) + [q.phase.c]]), phase := Draining)
  }

  /** _q.push (x) */
  function Stored(s: Shared, f: nat, x: Item): Shared {
    s.(items := s.items[f := Get(s.items, f) + [x]], pushed := s.pushed[f := Get(s.pushed, f) + [x]])
  }

  /** The loop of fifo::pop by c found an item: result = _q.front(); _q.pop() */
  function Taken(s: Shared, f: nat, c: Id): Shared
    requires Get(s.items, f) != []
  {
    s.(items := s.items[f := Get(s.items, f)[1..]],
       popped := s.popped[f := Get(s.popped, f) + [Get(s.items, f)[0]]], popping := s.popping - {c})
  }

  /** The loop of fifo::pop by c found nothing. */
  function Failed(s: Shared, f: nat, c: Id): Shared {
    s.(popping := s.popping[c := f])
  }

  function Without<T>(s: seq<T>, k: nat): seq<T>
    requires k < |s|
  {
    s[..k] + s[k + 1..]
  }

  function Step(q: System, l: Label): Outcome
    requires Enabled(q, l)
  {
    match l
    case Sample(now) => Next(q.(phase := Firing, now := now))
    case Fire(k) =>
      var e := q.blocked.events[k];
      Schedule(q.(blocked := q.blocked.(events := Without(q.blocked.events, k))), e.id, e.arg)
    case FireEnd =>
      Next(if q.ready.pending == [] then q.(phase := Outside)
           else q.(ready := SwapLists(q.ready), phase := Draining))
    case Resume =>
      var e := q.ready.staging[0];
      if e.id in q.status.dead then DeadCoro(e.id)
      else Next(q.(ready := Advance(q.ready), phase := Running(e.id),
                   status := q.status.(current := Some(e.id), values := q.status.values[e.id := e.arg])))
    case WakeRead(fd) =>
      Schedule(q.(blocked := q.blocked.(readers := q.blocked.readers - {fd})), q.blocked.readers[fd], 0)
    case WakeWrite(fd) =>
      Schedule(q.(blocked := q.blocked.(writers := q.blocked.writers - {fd})), q.blocked.writers[fd], 0)
    case Spawn(c, arg) =>
      Schedule(q.(status := q.status.(spawned := q.status.spawned + {c})), c, arg)
    case Sleep(t0, msec) =>
      var e := Event(SleepDeadline(t0, msec), q.phase.c, 0);
      Next(q.(blocked := q.blocked.(events := q.blocked.events + [e]), phase := Draining, now := t0))
    case WaitRead(fd) =>
      Next(q.(blocked := q.blocked.(readers := q.blocked.readers[fd := q.phase.c]), phase := Draining))
    case WaitWrite(fd) =>
      Next(q.(blocked := q.blocked.(writers := q.blocked.writers[fd := q.phase.c]), phase := Draining))
    case CvWait(n) => Next(Join(q, Cond(n)))
    case CvWake(n, arg) => Wake(q, Cond(n), arg)
    case LatchWait(n) => Next(if n in q.shared.done then q else Join(q, LatchCv(n)))
    case LatchWake(n) => Wake(q.(shared := q.shared.(done := q.shared.done + {n})), LatchCv(n), 0)
    case Push(f, x) => Wake(q.(shared := Stored(q.shared, f, x)), FifoCv(f), 0)
    case Pop(f) =>
      Next(if Items(q, f) == [] then Join(q.(shared := Failed(q.shared, f, q.phase.c)), FifoCv(f))
           else q.(shared := Taken(q.shared, f, q.phase.c)))
    case Exit => Next(q.(status := q.status.(dead := q.status.dead + {q.phase.c}), phase := Draining))
  }

  // ---------------------------------------------------------------- runs

  /** What yield returns to the coroutine that has control back: _current->_value. */
  function YieldResult(q: System): Arg
    requires q.status.current.Some? && q.status.current.value in q.status.values
  {
    q.status.values[q.status.current.value]
  }

  predicate Initial(q: System) {
    && q.phase.Outside? && q.now.Normal()
    && q.ready == Ready([], [], [], []) && q.blocked == Blocked([], map[], map[], map[])
    && q.shared == Shared({}, map[], map[], map[], map[])
    && q.status.spawned == q.status.dead == {} && q.status.current.None?
  }

  predicate IsRun(qs: seq<System>, ls: seq<Label>) {
    && |qs| == |ls| + 1 && Initial(qs[0])
    && forall i | 0 <= i < |ls| :: Enabled(qs[i], ls[i]) && Step(qs[i], ls[i]) == Next(qs[i + 1])
  }

  lemma RunStep(qs: seq<System>, ls: seq<Label>, i: nat)
    requires IsRun(qs, ls) && i < |ls|
    ensures Enabled(qs[i], ls[i]) && Step(qs[i], ls[i]) == Next(qs[i + 1])
  {
    hide Step, Enabled;
  }

  lemma RunExtends(qs: seq<System>, ls: seq<Label>, l: Label)
    requires IsRun(qs, ls) && Enabled(qs[|ls|], l) && Step(qs[|ls|], l).Next?
    ensures IsRun(qs + [Step(qs[|ls|], l).q], ls + [l])
  {
    hide Step, Enabled, Initial;
    var qs', ls' := qs + [Step(qs[|ls|], l).q], ls + [l];
    forall i | 0 <= i < |ls'| ensures Enabled(qs'[i], ls'[i]) && Step(qs'[i], ls'[i]) == Next(qs'[i + 1]) {
      if i < |ls| { assert qs'[i] == qs[i] && ls'[i] == ls[i] && qs'[i + 1] == qs[i + 1]; }
    }
  }

  /** Step i of a run resumes coroutine c. */
  predicate Resumes(qs: seq<System>, ls: seq<Label>, i: nat, c: Id)
    requires IsRun(qs, ls) && i < |ls|
  {
    ls[i].Resume? && qs[i].ready.staging[0].id == c
  }

  lemma ResumesTheFirst(qs: seq<System>, ls: seq<Label>, i: nat, c: Id)
    requires IsRun(qs, ls) && i < |ls| && Resumes(qs, ls, i, c)
    ensures ls[i] == Resume && qs[i].ready.staging != [] && qs[i].ready.staging[0].id == c
  {
    hide Step;
    RunStep(qs, ls, i);
  }

  // ---------------------------------------------------------------- places

  /** Everything that can hold a coroutine. */
  datatype Place = InPending(k: nat) | InStaging(k: nat) | InEvents(k: nat) | InReaders(fd: int)
                 | InWriters(fd: int) | InQueue(cv: CvId, k: nat) | OnCpu

  predicate At(q: System, p: Place, c: Id) {
    match p
    case InPending(k) => k < |q.ready.pending| && q.ready.pending[k].id == c
    case InStaging(k) => k < |q.ready.staging| && q.ready.staging[k].id == c
    case InEvents(k) => k < |q.blocked.events| && q.blocked.events[k].id == c
    case InReaders(fd) => fd in q.blocked.readers && q.blocked.readers[fd] == c
    case InWriters(fd) => fd in q.blocked.writers && q.blocked.writers[fd] == c
    case InQueue(cv, k) => k < |Queue(q, cv)| && Queue(q, cv)[k] == c
    case OnCpu => q.phase == Running(c)
  }

  ghost predicate Unique(q: System) {
    forall c, p, p' :: At(q, p, c) && At(q, p', c) ==> p == p'
  }

  ghost predicate Alive(q: System) {
    forall c, p :: At(q, p, c) ==> c in q.status.spawned && c !in q.status.dead
  }
}
