/** The coro class and its statics, in the source's own form: fields updated in place, one shared
    stack array, and run_pending's nested loops.  Pointers to coroutines are their ids. */
module CoroRuntime {
  import opened Options
  import opened Timevals
  import Stack = SharedStack
  import Refinement = StackRefinement
  import opened RunProperties
  import opened Scheduling
  import opened Traces

  type Word = Stack.Word
  const TOP := Stack.STACK_TOP

  class Coro {
    const id: Id
    var state: Stack.Regs
    var copy: Option<Stack.Block>
    var started: bool
    var dead: bool
    var value: Word

    constructor (id: Id, junk: Stack.Regs)
      ensures this.id == id && View() == Stack.Coro(junk, None, false, false, 0)
    {
      this.id, state, copy, started, dead, value := id, junk, None, false, false, 0;
    }

    ghost function View(): Stack.Coro
      reads this
    {
      Stack.Coro(state, copy, started, dead, value)
    }
  }

  /** What the outside world decides during one resumption: the code the coroutine runs (its
      registers and stack when it stops, the schedule calls it makes, a sleep, whether its thread
      function returns) and the return addresses of the two switches. */
  datatype Burst = Burst(mainRet: Word, regs: Stack.Regs, stack: seq<Word>, calls: seq<Entry>,
                         sleep: Option<(Timeval, int)>, exits: bool, ret: Word)
  {
    /** The stack pointer stays in the stack, and only existing coroutines are scheduled. */
    predicate Feasible(known: set<Id>) {
      0 < regs.sp <= TOP && |stack| == TOP && forall e <- calls :: e.id in known
    }
  }

  /** The calls of a burst that are made: those before the first one that meets a dead coroutine. */
  ghost predicate Made(made: seq<Entry>, calls: seq<Entry>, dead: set<Id>) {
    && made <= calls && (forall e <- made :: e.id !in dead)
    && (made != calls ==> calls[|made|].id in dead)
  }

  /** One turn of a coroutine on the stack: the entry that resumed it, what it did, the schedule
      calls it got round to, and the block malloc had ready for it. */
  datatype Turn = Turn(entry: Entry, burst: Burst, made: seq<Entry>, block: Stack.Block)
  {
    /** A schedule call that throws ends the thread function as well. */
    predicate Exits() {
      burst.exits || made != burst.calls
    }

    /** Resume, compute, perhaps die, yield, settle. */
    function Trace(): seq<Stack.Label> {
      [Stack.Resume(entry.id, entry.arg, burst.mainRet)] + Stay(burst, Exits()) + [Stack.Settle(block)]
    }
  }

  /** What the coroutine itself does in its turn. */
  function Stay(b: Burst, exits: bool): seq<Stack.Label> {
    [Stack.Body(b.regs, b.stack)] + (if exits then [Stack.MarkDead] else []) + [Stack.Yield(0, b.ret)]
  }

  lemma TraceOfTurn(tr: seq<Stack.Label>, t: Turn)
    ensures tr + [Stack.Resume(t.entry.id, t.entry.arg, t.burst.mainRet)] + Stay(t.burst, t.Exits())
            + [Stack.Settle(t.block)] == tr + t.Trace()
  {
  }

  /** The event that a burst leaves behind if it ends in a sleep. */
  function SleepEvent(b: Burst, exits: bool, c: Id): seq<Event> {
    if exits || b.sleep.None? then [] else [Event(SleepDeadline(b.sleep.value.0, b.sleep.value.1), c, 0)]
  }

  /** One event, for c and at the deadline, if and only if the burst ends in a sleep. */
  lemma SleepEventIs(es: seq<Event>, b: Burst, exits: bool, c: Id)
    ensures var es' := es + SleepEvent(b, exits, c);
      if !exits && b.sleep.Some? then
        var (t0, msec) := b.sleep.value;
        && |es'| == |es| + 1 && es'[..|es|] == es && es'[|es|].id == c && es'[|es|].arg == 0
        && (t0.Normal() ==> es'[|es|].t.Micros() == t0.Micros() + msec * 1000)
      else es' == es
  {
    if !exits && b.sleep.Some? && b.sleep.value.0.Normal() {
      SleepDeadlineDenotes(b.sleep.value.0, b.sleep.value.1);
    }
  }

  lemma MadeMeans(made: seq<Entry>, calls: seq<Entry>, dead: set<Id>)
    requires Made(made, calls, dead)
    ensures made != calls <==> exists x <- calls :: x.id in dead
    ensures |made| <= |calls| && forall k | 0 <= k < |made| :: made[k] == calls[k] && calls[k].id !in dead
    ensures |made| < |calls| ==> calls[|made|].id in dead
  {
    if made != calls { assert calls[|made|] in calls; }
  }

  function Entries(es: seq<Event>): seq<Entry> {
    seq(|es|, i requires 0 <= i < |es| => Entry(es[i].id, es[i].arg))
  }

  function AppendAll(r: Ready, es: seq<Entry>): Ready {
    r.(pending := r.pending + es, scheduled := r.scheduled + es)
  }

  predicate SortedByTime(es: seq<Event>) {
    forall i, j | 0 <= i < j < |es| :: !Less(es[j].t, es[i].t)
  }

  lemma {:induction false} TopExists(es: seq<Event>)
    requires es != []
    ensures exists k: nat :: k < |es| && IsTop(es, k)
  {
    if |es| == 1 {
      assert IsTop(es, 0);
    } else {
      var n := |es| - 1;
      TopExists(es[..n]);
      var k: nat :| k < n && IsTop(es[..n], k);
      if Less(es[n].t, es[k].t) {
        assert IsTop(es, n) by {
          forall j | 0 <= j < |es| ensures !Less(es[j].t, es[n].t) {
            if j < n { assert !Less(es[..n][j].t, es[..n][k].t); }
          }
        }
      } else {
        assert IsTop(es, k) by {
          forall j | 0 <= j < |es| ensures !Less(es[j].t, es[k].t) {
            if j < n { assert !Less(es[..n][j].t, es[..n][k].t); }
          }
        }
      }
    }
  }

  /** Of the events `all`, those in `fired` have been taken, in deadline order and all before tv;
      those in `rest` remain and are due no sooner. */
  ghost predicate Fired(all: seq<Event>, tv: Timeval, fired: seq<Event>, rest: seq<Event>) {
    && multiset(fired) + multiset(rest) == multiset(all)
    && SortedByTime(fired) && (forall e <- fired :: Less(e.t, tv))
    && (forall e <- fired, f <- rest :: !Less(f.t, e.t))
  }

  lemma FireTop(all: seq<Event>, tv: Timeval, fired: seq<Event>, rest: seq<Event>, k: nat)
    requires Fired(all, tv, fired, rest) && IsTop(rest, k) && Less(rest[k].t, tv)
    ensures Fired(all, tv, fired + [rest[k]], Without(rest, k))
  {
    assert rest == rest[..k] + [rest[k]] + rest[k + 1..];
    forall e <- fired + [rest[k]], f <- Without(rest, k) ensures !Less(f.t, e.t) {
      InWithout(rest, k, f);
    }
  }

  lemma NothingFired(r: Ready, all: seq<Event>, tv: Timeval)
    ensures Fired(all, tv, [], all) && r == AppendAll(r, Entries([]))
  {
  }

  /** If the earliest event is not due, none is. */
  lemma NoneDue(es: seq<Event>, k: nat, tv: Timeval)
    requires IsTop(es, k) && !Less(es[k].t, tv)
    ensures forall e <- es :: !Less(e.t, tv)
  {
  }

  lemma AppendNext(r: Ready, fired: seq<Event>, e: Event)
    ensures Append(AppendAll(r, Entries(fired)), Entry(e.id, e.arg)) == AppendAll(r, Entries(fired + [e]))
    ensures (fired + [e])[..|fired|] == fired
  {
  }

  // ---------------------------------------------------------------- run_pending, as a machine

  /** What run_pending works on: the trace of the stack machine, the logs of resumes and schedule
      calls (pending and staging are the part scheduled and not yet resumed), timers, the dead. */
  datatype Loop = Loop(trace: seq<Stack.Label>, resumed: seq<Entry>, scheduled: seq<Entry>,
                       events: seq<Event>, dead: set<Id>)

  datatype Act = Ticked(tv: Timeval, fired: seq<Event>, thrown: bool) | Turned(turn: Turn)

  /** One act of run_pending: schedule_events at a sampled time, or one turn of the coroutine that
      is next in the order of schedule calls. */
  ghost predicate ActStep(s: Loop, a: Act, s': Loop) {
    match a
    case Ticked(tv, fired, thrown) =>
      && Fired(s.events, tv, fired, s'.events) && (!thrown ==> forall e <- s'.events :: !Less(e.t, tv))
      && (thrown ==> fired != [] && fired[|fired| - 1].id in s.dead)
      && s' == s.(scheduled := s.scheduled + Entries(if thrown then fired[..|fired| - 1] else fired),
                  events := s'.events)
    case Turned(t) =>
      && |s.resumed| < |s.scheduled| && t.entry == s.scheduled[|s.resumed|] && t.entry.id !in s.dead
      && Made(t.made, t.burst.calls, s.dead)
      && s' == Loop(s.trace + t.Trace(), s.resumed + [t.entry], s.scheduled + t.made,
                    s.events + SleepEvent(t.burst, t.Exits(), t.entry.id),
                    s.dead + if t.Exits() then {t.entry.id} else {})
  }

  /** The events fired, in terms of instants: those before the time sampled, in the order of their
      deadlines, and ahead of all that stay. */
  lemma FiredMeans(all: seq<Event>, tv: Timeval, fired: seq<Event>, rest: seq<Event>)
    requires Fired(all, tv, fired, rest) && tv.Normal() && forall e <- all :: e.t.Normal()
    ensures multiset(fired) + multiset(rest) == multiset(all)
    ensures forall e <- fired :: e.t.Micros() < tv.Micros()
    ensures forall i, j | 0 <= i < j < |fired| :: fired[i].t.Micros() <= fired[j].t.Micros()
    ensures forall e <- fired, f <- rest :: e.t.Micros() <= f.t.Micros()
  {
    hide Less, Timeval.Normal, Timeval.Micros;
    forall e | e in fired || e in rest ensures e in all { assert e in multiset(fired) + multiset(rest); }
    forall e <- fired ensures e.t.Micros() < tv.Micros() { LessIsEarlier(e.t, tv); }
    forall i, j | 0 <= i < j < |fired| ensures fired[i].t.Micros() <= fired[j].t.Micros() {
      LessIsEarlier(fired[j].t, fired[i].t);
    }
    forall e <- fired, f <- rest ensures e.t.Micros() <= f.t.Micros() { LessIsEarlier(f.t, e.t); }
  }

  /** A tick, spelt out: what it fires is scheduled, in that order, up to a dead coroutine; without one
      only what is not yet due stays. */
  lemma TickMeans(s: Loop, tv: Timeval, fired: seq<Event>, thrown: bool, s': Loop)
    requires ActStep(s, Ticked(tv, fired, thrown), s')
    ensures Fired(s.events, tv, fired, s'.events)
    ensures s'.trace == s.trace && s'.resumed == s.resumed && s'.dead == s.dead
    ensures thrown ==> fired != [] && fired[|fired| - 1].id in s.dead
    ensures s.scheduled <= s'.scheduled && |s'.scheduled| == |s.scheduled| + |fired| - (if thrown then 1 else 0)
    ensures forall k | 0 <= k < |s'.scheduled| - |s.scheduled| ::
      s'.scheduled[|s.scheduled| + k] == Entry(fired[k].id, fired[k].arg)
    ensures !thrown && tv.Normal() ==> forall f <- s'.events | f.t.Normal() :: tv.Micros() <= f.t.Micros()
  {
    hide Less, Fired, Timeval.Normal, Timeval.Micros;
    if !thrown && tv.Normal() {
      forall f <- s'.events | f.t.Normal() ensures tv.Micros() <= f.t.Micros() { LessIsEarlier(f.t, tv); }
    }
  }

  /** A turn, spelt out: the labels of the stack machine, the schedule calls made, who dies, and the
      timer set. */
  lemma TurnMeans(s: Loop, t: Turn, s': Loop)
    requires ActStep(s, Turned(t), s')
    ensures var b, c := t.burst, t.entry.id;
      var dies := b.exits || exists x <- b.calls :: x.id in s.dead;
      && |s.resumed| < |s.scheduled| && t.entry == s.scheduled[|s.resumed|] && c !in s.dead
      && s'.resumed == s.resumed + [t.entry] && s'.dead == s.dead + (if dies then {c} else {})
      && s'.trace == s.trace + [Stack.Resume(c, t.entry.arg, b.mainRet), Stack.Body(b.regs, b.stack)]
                     + (if dies then [Stack.MarkDead] else []) + [Stack.Yield(0, b.ret), Stack.Settle(t.block)]
      && (exists n: nat :: n <= |b.calls| && s'.scheduled == s.scheduled + b.calls[..n]
            && (forall k | 0 <= k < n :: b.calls[k].id !in s.dead) && (n < |b.calls| ==> b.calls[n].id in s.dead))
      && (!dies ==> s'.scheduled == s.scheduled + b.calls)
      && if !dies && b.sleep.Some? then
           && |s'.events| == |s.events| + 1 && s'.events[..|s.events|] == s.events
           && var e := s'.events[|s.events|];
           && e.id == c && e.arg == 0
           && (b.sleep.value.0.Normal() ==> e.t.Micros() == b.sleep.value.0.Micros() + b.sleep.value.1 * 1000)
         else s'.events == s.events
  {
    hide SleepEvent, Made;
    MadeMeans(t.made, t.burst.calls, s.dead);
    SleepEventIs(s.events, t.burst, t.Exits(), t.entry.id);
    assert t.made == t.burst.calls[..|t.made|];
  }

  /** The last act was a schedule_events that met a dead coroutine. */
  predicate Interrupted(acts: seq<Act>) {
    EndsWithTick(acts) && acts[|acts| - 1].thrown
  }

  predicate EndsWithTick(acts: seq<Act>) { acts != [] && acts[|acts| - 1].Ticked? }

  predicate EndsWithTurn(acts: seq<Act>) { acts != [] && acts[|acts| - 1].Turned? }

  /** The length of the log of schedule calls after the last tick: the entries below it are those of
      the present round. */
  function Mark(run: seq<Loop>, acts: seq<Act>): nat
    requires |run| == |acts| + 1
  {
    if acts == [] then 0
    else if EndsWithTick(acts) then |run[|acts|].scheduled|
    else Mark(run[..|acts|], acts[..|acts| - 1])
  }

  /** May act a come next in state s?  A turn, while an entry of the present round is left; a tick, at
      the start, and then whenever a round of at least one turn has been run to its end. */
  predicate InPace(acts: seq<Act>, mark: nat, s: Loop, a: Act) {
    if a.Turned? then !Interrupted(acts) && |s.resumed| < mark
    else acts == [] || (EndsWithTurn(acts) && |s.resumed| == mark)
  }

  predicate Paced(run: seq<Loop>, acts: seq<Act>)
    requires |run| == |acts| + 1
  {
    if acts == [] then true
    else
      var n := |acts| - 1;
      Paced(run[..n + 1], acts[..n]) && InPace(acts[..n], Mark(run[..n + 1], acts[..n]), run[n], acts[n])
  }

  /** The states of the loop, act by act and in pace, from `from` to `to`. */
  ghost predicate IsLoop(run: seq<Loop>, acts: seq<Act>, from: Loop, to: Loop) {
    && |run| == |acts| + 1 && run[0] == from && run[|acts|] == to
    && (forall i | 0 <= i < |acts| :: ActStep(run[i], acts[i], run[i + 1]))
    && Paced(run, acts)
  }

  /** ... the present round ending at position `mark` of the log of schedule calls. */
  ghost predicate LoopAt(run: seq<Loop>, acts: seq<Act>, from: Loop, to: Loop, mark: nat) {
    |run| == |acts| + 1 && IsLoop(run, acts, from, to) && Mark(run, acts) == mark
  }

  lemma LoopStarts(s: Loop, bursts: seq<Burst>, clocks: seq<Timeval>)
    ensures LoopAt([s], [], s, s, 0) && Script([], bursts, 0, clocks, 0)
  {
  }

  lemma LoopExtends(run: seq<Loop>, acts: seq<Act>, from: Loop, s: Loop, mark: nat, a: Act, s': Loop)
    requires LoopAt(run, acts, from, s, mark) && ActStep(s, a, s') && InPace(acts, mark, s, a)
    ensures LoopAt(run + [s'], acts + [a], from, s', if a.Ticked? then |s'.scheduled| else mark)
  {
    hide ActStep, InPace;
    var run', acts' := run + [s'], acts + [a];
    assert run'[..|acts| + 1] == run && acts'[..|acts|] == acts && |acts'| - 1 == |acts|;
    forall i | 0 <= i < |acts'| ensures ActStep(run'[i], acts'[i], run'[i + 1]) {
      if i < |acts| { assert run'[i] == run[i] && acts'[i] == acts[i] && run'[i + 1] == run[i + 1]; }
    }
  }

  lemma {:induction false} PaceAt(run: seq<Loop>, acts: seq<Act>, j: nat)
    requires |run| == |acts| + 1 && Paced(run, acts) && j < |acts|
    ensures InPace(acts[..j], Mark(run[..j + 1], acts[..j]), run[j], acts[j])
    decreases |acts|
  {
    hide InPace, Mark;
    var n := |acts| - 1;
    if j < n {
      PaceAt(run[..n + 1], acts[..n], j);
      assert run[..n + 1][..j + 1] == run[..j + 1] && acts[..n][..j] == acts[..j];
    }
  }

  lemma ScheduledGrows(s: Loop, a: Act, s': Loop)
    requires ActStep(s, a, s')
    ensures s.scheduled <= s'.scheduled
  {
    hide Fired, Made;
  }

  /** From tick i on the mark is at least where the log of schedule calls then ended, and exactly
      there until the next tick. */
  lemma {:induction false} MarkSince(run: seq<Loop>, acts: seq<Act>, from: Loop, to: Loop, i: nat, j: nat)
    requires IsLoop(run, acts, from, to) && i < j <= |acts| && acts[i].Ticked?
    ensures |run[i + 1].scheduled| <= Mark(run[..j + 1], acts[..j]) <= |run[j].scheduled|
    ensures (forall k | i < k < j :: acts[k].Turned?) ==> Mark(run[..j + 1], acts[..j]) == |run[i + 1].scheduled|
    decreases j
  {
    hide ActStep, Paced;
    ScheduledGrows(run[j - 1], acts[j - 1], run[j]);
    assert run[..j + 1][..j] == run[..j] && acts[..j][..j - 1] == acts[..j - 1];
    if i < j - 1 { MarkSince(run, acts, from, to, i, j - 1); }
  }

  /** The rounds of run_pending: whatever was scheduled before a tick was over has been resumed when
      the next tick comes, and between the two nothing else is. */
  lemma RoundsAreSeparate(run: seq<Loop>, acts: seq<Act>, from: Loop, to: Loop, i: nat, j: nat)
    requires IsLoop(run, acts, from, to) && i < j < |acts| && acts[i].Ticked?
    ensures acts[j].Ticked? ==> |run[i + 1].scheduled| <= |run[j].resumed|
    ensures acts[j].Turned? && (forall k | i < k < j :: acts[k].Turned?) ==> |run[j].resumed| < |run[i + 1].scheduled|
  {
    hide ActStep, Paced, Mark;
    PaceAt(run, acts, j);
    MarkSince(run, acts, from, to, i, j);
  }

  // ---------------------------------------------------------------- sleepers

  lemma EventStep(s: Loop, a: Act, s': Loop, e: Event)
    requires ActStep(s, a, s') && e in s.events
    ensures e in s'.events || (a.Ticked? && e in a.fired)
  {
    hide Made, SleepEvent;
    if a.Ticked? { assert e in multiset(a.fired) + multiset(s'.events); }
  }

  /** An event stays until a tick fires it. */
  lemma {:induction false} EventKept(run: seq<Loop>, acts: seq<Act>, from: Loop, to: Loop, i: nat, m: nat, e: Event)
    returns (k: nat)
    requires IsLoop(run, acts, from, to) && i <= m <= |acts| && e in run[i].events
    ensures e in run[m].events || (i <= k < m && acts[k].Ticked? && e in acts[k].fired)
    decreases m
  {
    hide ActStep, Paced;
    k := i;
    if i < m {
      k := EventKept(run, acts, from, to, i, m - 1, e);
      if e in run[m - 1].events {
        EventStep(run[m - 1], acts[m - 1], run[m], e);
        k := m - 1;
      }
    }
  }

  /** Only the last act can have been interrupted. */
  lemma NotInterrupted(run: seq<Loop>, acts: seq<Act>, from: Loop, to: Loop, k: nat)
    requires IsLoop(run, acts, from, to) && k + 1 < |acts| && acts[k].Ticked?
    ensures !acts[k].thrown
  {
    hide ActStep, Paced, Mark;
    PaceAt(run, acts, k + 1);
    assert acts[..k + 1][k] == acts[k];
  }

  /** What a tick that does not throw does with a due event, and what no tick does with another. */
  lemma TickFires(s: Loop, a: Act, s': Loop, e: Event)
    requires ActStep(s, a, s') && a.Ticked?
    ensures e in a.fired ==> Less(e.t, a.tv)
    ensures e in a.fired && !a.thrown ==>
      exists p: nat :: |s.scheduled| <= p < |s'.scheduled| && s'.scheduled[p] == Entry(e.id, e.arg)
    ensures !a.thrown && Less(e.t, a.tv) ==> e !in s'.events
  {
    hide Less;
    if e in a.fired && !a.thrown {
      var k :| 0 <= k < |a.fired| && a.fired[k] == e;
      assert s'.scheduled[|s.scheduled| + k] == Entry(e.id, e.arg);
    }
  }

  /** A sleeper is woken, and not too early.  Act i is a turn that ends in sleep(msec) at t0.  Once a
      tick j sees a time past t0 + msec milliseconds, some tick k up to j has scheduled the
      coroutine, seeing a time past that deadline itself; and no tick that sees an earlier one
      fires the event. */
  lemma SleeperIsScheduled(run: seq<Loop>, acts: seq<Act>, from: Loop, to: Loop, i: nat, j: nat,
                           t0: Timeval, msec: int) returns (k: nat, p: nat, e: Event)
    requires IsLoop(run, acts, from, to) && i < j < |acts| && acts[j].Ticked? && !acts[j].thrown
    requires acts[i].Turned? && !acts[i].turn.burst.exits && acts[i].turn.burst.sleep == Some((t0, msec))
    requires forall x <- acts[i].turn.burst.calls :: x.id !in run[i].dead
    requires t0.Normal() && t0.Micros() <= acts[j].tv.Micros() && t0.Micros() + msec * 1000 < acts[j].tv.Micros()
    requires forall m | i < m < |acts| && acts[m].Ticked? :: acts[m].tv.Normal()
    ensures run[i + 1].events == run[i].events + [e] && e.id == acts[i].turn.entry.id
    ensures i < k <= j && acts[k].Ticked? && t0.Micros() + msec * 1000 < acts[k].tv.Micros()
    ensures |run[k].scheduled| <= p < |run[k + 1].scheduled| && run[k + 1].scheduled[p] == Entry(e.id, 0)
    ensures forall m | i < m < |acts| && acts[m].Ticked? && acts[m].tv.Micros() <= t0.Micros() + msec * 1000 ::
      e !in acts[m].fired
  {
    hide ActStep, Paced, Less, SleepDeadline;
    e := Event(SleepDeadline(t0, msec), acts[i].turn.entry.id, 0);
    SleeperSets(run[i], acts[i].turn, run[i + 1], e);
    k := EventKept(run, acts, from, to, i + 1, j + 1, e);
    PastIsFired(t0, msec, acts[j].tv);
    TickFires(run[j], acts[j], run[j + 1], e);
    TickFires(run[k], acts[k], run[k + 1], e);
    if k < j { NotInterrupted(run, acts, from, to, k); }
    p :| |run[k].scheduled| <= p < |run[k + 1].scheduled| && run[k + 1].scheduled[p] == Entry(e.id, 0);
    SleepDeadlineDenotes(t0, msec);
    FiredIsPast(e.t, acts[k].tv);
    forall m | i < m < |acts| && acts[m].Ticked? && acts[m].tv.Micros() <= t0.Micros() + msec * 1000
      ensures e !in acts[m].fired
    {
      TickFires(run[m], acts[m], run[m + 1], e);
      if Less(e.t, acts[m].tv) { FiredIsPast(e.t, acts[m].tv); }
    }
  }

  lemma SleeperSets(s: Loop, t: Turn, s': Loop, e: Event)
    requires ActStep(s, Turned(t), s') && !t.burst.exits && t.burst.sleep.Some?
    requires forall x <- t.burst.calls :: x.id !in s.dead
    requires e == Event(SleepDeadline(t.burst.sleep.value.0, t.burst.sleep.value.1), t.entry.id, 0)
    ensures s'.events == s.events + [e] && e in s'.events
  {
    MadeMeans(t.made, t.burst.calls, s.dead);
  }

  /** The acts run the first `used` bursts and see the first `ticks` clock samples, in order. */
  predicate Script(acts: seq<Act>, bursts: seq<Burst>, used: nat, clocks: seq<Timeval>, ticks: nat) {
    && used <= |bursts| && ticks <= |clocks|
    && if acts == [] then used == ticks == 0
       else match acts[|acts| - 1]
         case Ticked(tv, _, _) =>
           ticks > 0 && clocks[ticks - 1] == tv && Script(acts[..|acts| - 1], bursts, used, clocks, ticks - 1)
         case Turned(t) =>
           used > 0 && bursts[used - 1] == t.burst && Script(acts[..|acts| - 1], bursts, used - 1, clocks, ticks)
  }

  lemma ScriptTicks(acts: seq<Act>, bursts: seq<Burst>, used: nat, clocks: seq<Timeval>, ticks: nat,
                    fired: seq<Event>, thrown: bool)
    requires ticks < |clocks| && Script(acts, bursts, used, clocks, ticks)
    ensures Script(acts + [Ticked(clocks[ticks], fired, thrown)], bursts, used, clocks, ticks + 1)
  {
    assert (acts + [Ticked(clocks[ticks], fired, thrown)])[..|acts|] == acts;
  }

  lemma ScriptTurns(acts: seq<Act>, bursts: seq<Burst>, used: nat, clocks: seq<Timeval>, ticks: nat, t: Turn)
    requires used < |bursts| && Script(acts, bursts, used, clocks, ticks) && t.burst == bursts[used]
    ensures Script(acts + [Turned(t)], bursts, used + 1, clocks, ticks)
  {
    assert (acts + [Turned(t)])[..|acts|] == acts;
  }

  /** The turns, and the ticks, among the first k acts. */
  function TurnsBefore(acts: seq<Act>, k: nat): set<nat>
    requires k <= |acts|
  {
    set i: nat | i < k && acts[i].Turned?
  }

  function TicksBefore(acts: seq<Act>, k: nat): set<nat>
    requires k <= |acts|
  {
    set i: nat | i < k && acts[i].Ticked?
  }

  lemma CountNext(acts: seq<Act>, k: nat)
    requires k < |acts|
    ensures |TurnsBefore(acts, k + 1)| == |TurnsBefore(acts, k)| + if acts[k].Turned? then 1 else 0
    ensures |TicksBefore(acts, k + 1)| == |TicksBefore(acts, k)| + if acts[k].Ticked? then 1 else 0
  {
    if acts[k].Turned? {
      assert TurnsBefore(acts, k + 1) == TurnsBefore(acts, k) + {k} && TicksBefore(acts, k + 1) == TicksBefore(acts, k);
    } else {
      assert TicksBefore(acts, k + 1) == TicksBefore(acts, k) + {k} && TurnsBefore(acts, k + 1) == TurnsBefore(acts, k);
    }
  }

  lemma {:induction false} ScriptCounts(acts: seq<Act>, bursts: seq<Burst>, used: nat, clocks: seq<Timeval>, ticks: nat)
    requires Script(acts, bursts, used, clocks, ticks)
    ensures |TurnsBefore(acts, |acts|)| == used && |TicksBefore(acts, |acts|)| == ticks
  {
    if acts != [] {
      var n := |acts| - 1;
      ScriptCounts(acts[..n], bursts, if acts[n].Turned? then used - 1 else used,
                   clocks, if acts[n].Ticked? then ticks - 1 else ticks);
      CountNext(acts, n);
      assert TurnsBefore(acts, n) == TurnsBefore(acts[..n], n) && TicksBefore(acts, n) == TicksBefore(acts[..n], n);
    }
  }

  /** The script, act by act: the turn that comes after n others runs burst n, and the tick that comes
      after n others sees clock sample n. */
  lemma {:induction false} ScriptMeans(acts: seq<Act>, bursts: seq<Burst>, used: nat,
                                       clocks: seq<Timeval>, ticks: nat, i: nat)
    requires Script(acts, bursts, used, clocks, ticks) && i < |acts|
    ensures match acts[i]
      case Turned(t) =>
        var n := |set k: nat | k < i && acts[k].Turned?|;
        n < used <= |bursts| && t.burst == bursts[n]
      case Ticked(tv, _, _) =>
        var n := |set k: nat | k < i && acts[k].Ticked?|;
        n < ticks <= |clocks| && tv == clocks[n]
    decreases |acts|
  {
    var n := |acts| - 1;
    var init := acts[..n];
    var used', ticks' := if acts[n].Turned? then used - 1 else used, if acts[n].Ticked? then ticks - 1 else ticks;
    assert (set k: nat | k < i && acts[k].Turned?) == TurnsBefore(init, i) == (set k: nat | k < i && init[k].Turned?);
    assert (set k: nat | k < i && acts[k].Ticked?) == TicksBefore(init, i) == (set k: nat | k < i && init[k].Ticked?);
    if i < n {
      ScriptMeans(init, bursts, used', clocks, ticks', i);
    } else {
      ScriptCounts(init, bursts, used', clocks, ticks');
    }
  }

  class Runtime {
    const mem: array<Word>
    var cpu: Stack.Regs
    const main: Coro
    var heap: map<Stack.Block, Stack.Copy>
    var coros: map<Id, Coro>
    var current: Option<Id>
    var pending: seq<Entry>
    var staging: seq<Entry>
    var next: nat                      // the loop's position in staging
    var events: seq<Event>
    ghost var phase: Stack.Phase
    ghost var scheduled: seq<Entry>
    ghost var resumed: seq<Entry>
    ghost var history: seq<Stack.Machine>
    ghost var trace: seq<Stack.Label>

    constructor (memory: array<Word>, regs: Stack.Regs, mainCoro: Coro)
      requires TOP < regs.sp <= memory.Length
      ensures Sound() && fresh(this) && mem == memory && main == mainCoro && phase.Main?
      ensures KnownIds() && coros == map[] && Lists() == Ready([], [], [], []) && events == []
    {
      mem, cpu, main, heap, coros, current := memory, regs, mainCoro, map[], map[], None;
      pending, staging, next, events := [], [], 0, [];
      phase, scheduled, resumed := Stack.Main, [], [];
      new;
      history, trace := [View()], [];
    }

    ghost predicate Valid()
      reads this`coros, this`staging, this`next
    {
      && mem.Length > TOP && next <= |staging|
      && main !in coros.Values
      && (forall i <- coros :: coros[i].id == i)
    }

    /** The state of the shared-stack machine. */
    ghost function View(): Stack.Machine
      reads this`cpu, this`heap, this`coros, this`current, this`phase, mem, main, coros.Values
    {
      Stack.Machine(mem[..], cpu, main.state, heap, map i | i in coros :: coros[i].View(), current, phase)
    }

    ghost function DeadIds(): set<Id>
      reads this`coros, coros.Values`dead
    {
      set i | i in coros && coros[i].dead
    }

    ghost predicate Knows(c: Coro)
      reads this`coros
    {
      c.id in coros && coros[c.id] == c
    }

    /** The object's life so far is a run of the shared-stack machine, so everything proved of
        runs holds of it; the log of resumes is that of the run. */
    ghost predicate Sound()
      reads this`cpu, this`heap, this`coros, this`current, this`phase, mem, main, coros.Values
      reads this`staging, this`next, this`history, this`trace, this`resumed
    {
      Valid() && Logged()
    }

    ghost predicate Logged()
      reads this`cpu, this`heap, this`coros, this`current, this`phase, mem, main, coros.Values
      reads this`history, this`trace, this`resumed
    {
      && Refinement.IsRun(history, trace) && history[|trace|] == View()
      && resumed == Resumed(trace)
    }

    lemma LogIsTrace()
      requires Sound()
      ensures resumed == Resumed(trace)
    {
    }

    /** The step just taken was step l of the machine. */
    ghost method Record(l: Stack.Label)
      requires Valid() && Refinement.IsRun(history, trace) && !l.Resume?
      requires Stack.Inv(history[|trace|]) && Stack.Enabled(history[|trace|], l)
      requires View() == Stack.Step(history[|trace|], l) && resumed == Resumed(trace)
      modifies this`history, this`trace
      ensures Sound() && trace == old(trace) + [l]
    {
      hide Stack.Step, Stack.Enabled, Stack.Inv;
      Refinement.RunExtends(history, trace, l);
      ResumedNext(trace, l);
      history, trace := history + [View()], trace + [l];
    }

    /** The step just taken was a resume; it is logged. */
    ghost method RecordResume(c: Id, arg: Arg, ret: Word)
      requires Valid() && Refinement.IsRun(history, trace)
      requires Stack.Inv(history[|trace|]) && Stack.Enabled(history[|trace|], Stack.Resume(c, arg, ret))
      requires View() == Stack.Step(history[|trace|], Stack.Resume(c, arg, ret)) && resumed == Resumed(trace)
      modifies this`history, this`trace, this`resumed
      ensures Sound() && trace == old(trace) + [Stack.Resume(c, arg, ret)]
      ensures resumed == old(resumed) + [Entry(c, arg)]
    {
      hide Stack.Step, Stack.Enabled, Stack.Inv;
      Refinement.RunExtends(history, trace, Stack.Resume(c, arg, ret));
      ResumedNext(trace, Stack.Resume(c, arg, ret));
      history, trace := history + [View()], trace + [Stack.Resume(c, arg, ret)];
      resumed := resumed + [Entry(c, arg)];
    }

    /** A method that writes one coroutine's fields changes the table at one place. */
    twostate lemma OnlyChanged(c: Coro)
      requires old(Valid()) && coros == old(coros) && Knows(c)
      requires forall i <- coros | i != c.id :: coros[i].View() == old(coros[i].View())
      ensures View().coros == old(View()).coros[c.id := c.View()]
    {
    }

    /** The state of the two lists. */
    ghost function Lists(): Ready
      reads this`pending, this`staging, this`next, this`scheduled, this`resumed
      requires next <= |staging|
    {
      Ready(pending, staging[next..], scheduled, resumed)
    }

    /** The state that run_pending works on. */
    ghost function Now(): Loop
      reads this`trace, this`resumed, this`scheduled, this`events, this`coros, coros.Values`dead
    {
      Loop(trace, resumed, scheduled, events, DeadIds())
    }

    /** coro::schedule */
    method Schedule(c: Id, arg: Arg) returns (thrown: bool)
      requires Valid() && c in coros
      modifies this`pending, this`scheduled
      ensures thrown == coros[c].dead
      ensures Lists() == if thrown then old(Lists()) else Append(old(Lists()), Entry(c, arg))
    {
      if !coros[c].dead {
        pending := pending + [Entry(c, arg)];
        scheduled := scheduled + [Entry(c, arg)];
        return false;
      } else {
        return true;
      }
    }

    /** One round of schedule_events' loop: pop event k, then schedule its coroutine. */
    method FireEvent(k: nat) returns (thrown: bool)
      requires Valid() && k < |events| && events[k].id in coros
      modifies this`pending, this`scheduled, this`events
      ensures events == Without(old(events), k)
      ensures thrown == coros[old(events)[k].id].dead
      ensures Lists() == if thrown then old(Lists())
                         else Append(old(Lists()), Entry(old(events)[k].id, old(events)[k].arg))
    {
      var e := events[k];
      events := Without(events, k);
      thrown := Schedule(e.id, e.arg);
    }

    /** coro::schedule_events: moves to pending exactly the events strictly before the sampled
        time, in deadline order, and leaves only later-or-equal ones.  An exception leaves the
        loop at the event whose coroutine is dead. */
    method ScheduleEvents(tv: Timeval) returns (thrown: bool, ghost fired: seq<Event>)
      requires Valid() && forall e <- events :: e.id in coros
      modifies this`pending, this`scheduled, this`events
      ensures Fired(old(events), tv, fired, events)
      ensures thrown ==> fired != [] && fired[|fired| - 1].id in coros && coros[fired[|fired| - 1].id].dead
      ensures Lists() == AppendAll(old(Lists()), Entries(if thrown then fired[..|fired| - 1] else fired))
      ensures !thrown ==> forall e <- events :: !Less(e.t, tv)
      ensures forall e <- events :: e.id in coros
    {
      hide Fired, IsTop, Less, Entries;
      fired := [];
      ghost var all := events;
      NothingFired(Lists(), all, tv);
      while |events| > 0
        invariant Fired(all, tv, fired, events)
        invariant Lists() == AppendAll(old(Lists()), Entries(fired))
        invariant forall i | 0 <= i < |events| :: events[i].id in coros
        decreases |events|
      {
        TopExists(events);
        var k: nat :| k < |events| && IsTop(events, k);
        if !Less(events[k].t, tv) {
          NoneDue(events, k, tv);
          return false, fired;
        }
        ghost var e := events[k];
        FireTop(all, tv, fired, events, k);
        AppendNext(old(Lists()), fired, e);
        thrown := FireEvent(k);
        fired := fired + [e];
        if thrown { return; }
      }
      thrown := false;
    }

    /** coro::time_to_next_event */
    method NextEventTime(now: Timeval) returns (wait: int)
      ensures |events| == 0 ==> wait == 30_000_000
      ensures |events| > 0 ==>
        exists k: nat :: k < |events| && IsTop(events, k) && wait == TimeToNextEvent(Some(events[k].t), now)
    {
      if |events| > 0 {
        TopExists(events);
        var k: nat :| k < |events| && IsTop(events, k);
        var t1 := Sub(events[k].t, now);
        if t1.sec >= 0 && t1.usec > 0 {
          return t1.sec * 1000000 + t1.usec;
        } else {
          return 0;
        }
      } else {
        return 30000000;
      }
    }

    /** What event_loop hands to poll(2): time_to_next_event in milliseconds.  Without events half a
        minute; else the gap to an earliest event, rounded down, or 0 if it is past or a whole number
        of seconds away. */
    method PollTimeout(now: Timeval) returns (millis: int)
      requires now.Normal()
      ensures |events| == 0 ==> millis == 30_000
      ensures |events| > 0 ==> exists k: nat ::
        && k < |events| && IsTop(events, k)
        && (events[k].t.Normal() ==>
              var gap := events[k].t.Micros() - now.Micros();
              if gap > 0 && gap % 1_000_000 != 0 then millis * 1000 <= gap < millis * 1000 + 1000 else millis == 0)
    {
      hide IsTop, TimeToNextEvent;
      HalfAMinuteWithoutEvents(now);
      var until := NextEventTime(now);
      millis := PollMillis(until);
      if |events| > 0 {
        ghost var k: nat :| k < |events| && IsTop(events, k) && until == TimeToNextEvent(Some(events[k].t), now);
        if events[k].t.Normal() { NoOversleeping(events[k].t, now); }
      }
    }

    /** coro::insert_event */
    method InsertEvent(t: Timeval, c: Id, arg: Arg)
      requires Sound()
      modifies this`events
      ensures Sound() && events == old(events) + [Event(t, c, arg)]
    {
      events := events + [Event(t, c, arg)];
    }

    // -------------------------------------------------------------- the shared stack

    /** The call instruction. */
    method PushReturn(ret: Word)
      requires 0 < cpu.sp <= mem.Length
      modifies this`cpu, mem
      ensures (mem[..], cpu) == Stack.Call(old(mem[..]), old(cpu), ret)
    {
      cpu := cpu.(sp := cpu.sp - 1);
      mem[cpu.sp] := ret;
    }

    /** __swap (&to->_state, &from->_state), instruction by instruction. */
    method Swap(to: Coro, from: Coro)
      requires to != from && 0 <= cpu.sp < mem.Length && 0 <= to.state.sp < mem.Length
      modifies this`cpu, mem, from`state
      ensures Stack.Switched(from.state, mem[..], cpu) == Stack.Swap(old(mem[..]), old(cpu), old(to.state))
    {
      from.state := from.state.(sp := cpu.sp);
      from.state := from.state.(bp := cpu.bp);
      from.state := from.state.(ip := mem[cpu.sp]);
      from.state := from.state.(bx := cpu.bx, r12 := cpu.r12, r13 := cpu.r13, r14 := cpu.r14, r15 := cpu.r15);
      cpu := cpu.(r15 := to.state.r15, r14 := to.state.r14, r13 := to.state.r13);
      cpu := cpu.(r12 := to.state.r12, bx := to.state.bx);
      cpu := cpu.(bp := to.state.bp);
      cpu := cpu.(sp := to.state.sp);
      mem[cpu.sp] := to.state.ip;
      // ret
      cpu := cpu.(ip := mem[cpu.sp], sp := cpu.sp + 1);
    }

    /** coro::create */
    method Create(c: Coro)
      requires mem.Length > TOP
      modifies mem, c`state, c`started
      ensures mem[..] == Stack.CreateMem(old(mem[..]), c.id)
      ensures c.View() == Stack.Created(old(c.View()))
    {
      mem[TOP - 5] := 0;
      mem[TOP - 4] := Stack.This(c.id);
      c.state := c.state.(sp := TOP - 6);
      c.state := c.state.(bp := TOP - 5);
      c.state := c.state.(ip := Stack.WRAP0);
      c.started := true;
    }

    /** coro::preserve, with malloc's answer */
    method Preserve(c: Coro, block: Stack.Block)
      requires 0 <= c.state.sp <= TOP < mem.Length && block !in heap
      modifies this`heap, c`copy
      ensures heap == old(heap)[block := Stack.Copy(c.id, mem[c.state.sp..TOP])]
      ensures c.copy == Some(block)
    {
      heap := heap[block := Stack.Copy(c.id, mem[c.state.sp..TOP])];
      c.copy := Some(block);
    }

    /** coro::restore */
    method Restore(c: Coro)
      requires c.copy.Some? && c.copy.value in heap
      requires 0 <= c.state.sp <= c.state.sp + |heap[c.copy.value].words| <= mem.Length
      modifies this`heap, mem, c`copy
      ensures mem[..] == Stack.Blit(old(mem[..]), c.state.sp, old(heap[c.copy.value].words))
      ensures heap == old(heap) - {old(c.copy.value)} && c.copy.None?
    {
      var words := heap[c.copy.value].words;
      forall i | 0 <= i < |words| {
        mem[c.state.sp + i] := words[i];
      }
      heap := heap - {c.copy.value};
      c.copy := None;
    }

    /** The first half of coro::resume: the coroutine's words are put in place. */
    method Prepare(c: Coro)
      requires Valid() && Stack.ControlInv(View()) && phase.Main?
      requires Knows(c) && Stack.CoroInv(View(), c.id) && !c.dead
      modifies this`heap, mem, c`state, c`copy, c`started
      ensures Stack.Prepared(c.View(), mem[..], heap) == Stack.Prepare(old(View()), c.id)
    {
      if !c.started {
        Create(c);
      }
      if c.copy.Some? {
        Restore(c);
      }
    }

    /** The second half: hand over the argument, call __swap, switch. */
    method SwitchTo(c: Coro, arg: Arg, ret: Word)
      requires c != main && 0 < cpu.sp <= mem.Length && 0 <= c.state.sp < mem.Length
      modifies this`cpu, mem, main`state, c`value
      ensures var (mem1, cpu1) := Stack.Call(old(mem[..]), old(cpu), ret);
        Stack.Switched(main.state, mem[..], cpu) == Stack.Swap(mem1, cpu1, c.state)
      ensures c.View() == old(c.View()).(value := arg)
    {
      c.value := arg;
      PushReturn(ret);
      Swap(c, main);
    }

    method Enter(c: Coro, arg: Arg, ret: Word)
      requires Valid() && Stack.ControlInv(View()) && phase.Main? && Knows(c)
      requires Stack.CoroInv(View(), c.id) && !c.dead
      modifies this`cpu, this`heap, this`current, this`phase, mem, main`state, c`state, c`copy, c`started, c`value
      ensures Valid() && View() == Stack.DoResume(old(View()), c.id, arg, ret)
    {
      Prepare(c);
      current := Some(c.id);
      SwitchTo(c, arg, ret);
      phase := Stack.Running(c.id);
      OnlyChanged(c);
    }

    /** coro::resume, up to the switch into the coroutine. */
    method Resume(c: Coro, arg: Arg, ret: Word) returns (thrown: bool)
      requires Sound() && phase.Main? && Knows(c)
      modifies this`cpu, this`heap, this`current, this`phase, this`history, this`trace, this`resumed
      modifies mem, main`state, c`state, c`copy, c`started, c`value
      ensures Sound() && thrown == old(c.dead) && c.dead == old(c.dead)
      ensures if thrown then
                View() == old(View()) && phase == old(phase) && trace == old(trace) && resumed == old(resumed)
              else phase == Stack.Running(c.id) && c.value == arg && current == Some(c.id)
                   && trace == old(trace) + [Stack.Resume(c.id, arg, ret)]
                   && resumed == old(resumed) + [Entry(c.id, arg)]
    {
      if !c.dead {
        hide Refinement.IsRun, Stack.ControlInv, Stack.CoroInv, Stack.BlockInv;
        Refinement.RunInv(history, trace, |trace|);
        Enter(c, arg, ret);
        RecordResume(c.id, arg, ret);
        return false;
      } else {
        return true;
      }
    }

    /** The code of coro::yield, which has no guard: it swaps out whoever calls it. */
    method SwapOut(c: Coro, arg: Arg, ret: Word)
      requires c != main && 0 < cpu.sp <= mem.Length && 0 <= main.state.sp < mem.Length
      modifies this`cpu, mem, c`value, c`state
      ensures var (mem1, cpu1) := Stack.Call(old(mem[..]), old(cpu), ret);
        Stack.Switched(c.state, mem[..], cpu) == Stack.Swap(mem1, cpu1, main.state)
      ensures c.value == arg
    {
      c.value := arg;
      PushReturn(ret);
      Swap(main, c);
    }

    method Leave(c: Coro, arg: Arg, ret: Word)
      requires Valid() && Stack.ControlInv(View()) && Knows(c)
      requires phase == Stack.Running(c.id) || (phase.Main? && current == Some(c.id))
      modifies this`cpu, this`phase, mem, c`value, c`state
      ensures Valid()
      ensures old(phase).Running? ==> View() == Stack.DoYield(old(View()), arg, ret)
      ensures old(phase).Main? ==>
        && c.state == old(cpu).(sp := old(cpu.sp) - 1, ip := ret) && c.state.sp >= TOP && phase.Main?
        && (!c.dead ==> !Stack.Inv(View()))
    {
      SwapOut(c, arg, ret);
      if phase.Running? {
        phase := Stack.Returned(c.id);
        OnlyChanged(c);
      } else if !c.dead {
        LostContext(View(), c.id);
      }
    }

    /** coro::yield, up to the switch into main.  Called by the running coroutine it is a step of
        the machine.  Nothing stops main from calling it once something has been resumed: then it
        overwrites the context of the coroutine that current() still names, and if that one is
        alive it can never be restored. */
    method Yield(c: Coro, arg: Arg, ret: Word)
      requires Sound() && Knows(c) && (phase == Stack.Running(c.id) || (phase.Main? && current == Some(c.id)))
      modifies this`cpu, this`phase, this`history, this`trace, mem, c`value, c`state
      ensures old(phase).Running? ==>
        Sound() && phase == Stack.Returned(c.id) && trace == old(trace) + [Stack.Yield(arg, ret)]
      ensures old(phase).Main? ==>
        && c.state == old(cpu).(sp := old(cpu.sp) - 1, ip := ret) && c.state.sp >= TOP && phase.Main?
        && trace == old(trace) && (!c.dead ==> !Stack.Inv(View()))
    {
      hide Refinement.IsRun, Stack.ControlInv, Stack.CoroInv, Stack.BlockInv;
      Refinement.RunInv(history, trace, |trace|);
      Leave(c, arg, ret);
      if !phase.Main? {
        Record(Stack.Yield(arg, ret));
      }
    }

    method Park(c: Coro, block: Stack.Block)
      requires Valid() && Stack.ControlInv(View()) && phase == Stack.Returned(c.id) && Knows(c) && block !in heap
      modifies this`heap, this`phase, c`copy
      ensures Valid() && View() == Stack.DoSettle(old(View()), block)
    {
      if !c.dead {
        Preserve(c, block);
      }
      phase := Stack.Main;
      OnlyChanged(c);
    }

    /** The rest of run_pending's loop body: preserve unless the coroutine died. */
    method Settle(c: Coro, block: Stack.Block)
      requires Sound() && phase == Stack.Returned(c.id) && Knows(c) && block !in heap
      modifies this`heap, this`phase, this`history, this`trace, c`copy
      ensures Sound() && phase.Main? && trace == old(trace) + [Stack.Settle(block)]
      ensures c.copy.Some? <==> !c.dead
    {
      hide Refinement.IsRun, Stack.ControlInv, Stack.BlockInv;
      Refinement.RunInv(history, trace, |trace|);
      Park(c, block);
      Record(Stack.Settle(block));
    }

    /** The running coroutine computes. */
    method Compute(c: Coro, regs: Stack.Regs, stack: seq<Word>)
      requires Sound() && phase == Stack.Running(c.id) && 0 < regs.sp <= TOP && |stack| == TOP
      modifies this`cpu, this`history, this`trace, mem
      ensures Sound() && trace == old(trace) + [Stack.Body(regs, stack)]
    {
      hide Refinement.IsRun, Stack.ControlInv, Stack.CoroInv, Stack.BlockInv;
      Refinement.RunInv(history, trace, |trace|);
      cpu := regs;
      forall i | 0 <= i < TOP {
        mem[i] := stack[i];
      }
      assert mem[..] == stack + old(mem[..])[TOP..];
      Record(Stack.Body(regs, stack));
    }

    /** _wrap1, once the thread function has returned or thrown. */
    method MarkDead(c: Coro)
      requires Sound() && phase == Stack.Running(c.id) && Knows(c)
      modifies this`history, this`trace, c`dead
      ensures Sound() && c.dead && trace == old(trace) + [Stack.MarkDead]
    {
      hide Refinement.IsRun, Stack.ControlInv, Stack.CoroInv, Stack.BlockInv;
      Refinement.RunInv(history, trace, |trace|);
      c.dead := true;
      OnlyChanged(c);
      Record(Stack.MarkDead);
    }

    method AddCoro(id: Id, junk: Stack.Regs) returns (c: Coro)
      requires Valid() && id !in coros
      modifies this`coros
      ensures Valid() && fresh(c) && c.id == id && coros == old(coros)[id := c]
      ensures c.View() == Stack.Coro(junk, None, false, false, 0)
      ensures View() == old(View()).(coros := old(View()).coros[id := c.View()])
    {
      c := new Coro(id, junk);
      ghost var m := View();
      coros := coros[id := c];
      assert View().coros == m.coros[id := c.View()];
    }

    /** The coro constructor; `junk` is what malloc left in _state. */
    method NewCoro(id: Id, junk: Stack.Regs) returns (c: Coro)
      requires Sound() && KnownIds() && id !in coros
      modifies this`coros, this`history, this`trace
      ensures Sound() && KnownIds() && fresh(c) && c.id == id && coros == old(coros)[id := c]
      ensures !c.started && !c.dead && trace == old(trace) + [Stack.New(id, junk)]
    {
      hide Refinement.IsRun, Stack.ControlInv, Stack.CoroInv, Stack.BlockInv;
      Refinement.RunInv(history, trace, |trace|);
      c := AddCoro(id, junk);
      Record(Stack.New(id, junk));
    }

    /** coro::sleep */
    method Sleep(c: Coro, msec: int, t0: Timeval, ret: Word)
      requires Sound() && KnownIds() && phase == Stack.Running(c.id) && Knows(c)
      modifies this`cpu, this`phase, this`events, this`history, this`trace, mem, c`value, c`state
      ensures Sound() && KnownIds() && phase == Stack.Returned(c.id) && trace == old(trace) + [Stack.Yield(0, ret)]
      ensures events == old(events) + [Event(SleepDeadline(t0, msec), c.id, 0)]
    {
      var tv1 := Timeval(TruncDiv(msec, 1000), TruncMod(msec, 1000) * 1000);
      InsertEvent(Add(t0, tv1), c.id, 0);
      Yield(c, 0, ret);
    }

    // -------------------------------------------------------------- run_pending

    ghost predicate KnownIds()
      reads this`pending, this`staging, this`events, this`coros
    {
      && (forall e <- pending :: e.id in coros) && (forall e <- staging :: e.id in coros)
      && (forall e <- events :: e.id in coros)
    }

    /** The schedule calls a coroutine makes in one burst.  A Dead_Coro exception unwinds its
        thread function and is swallowed by _wrap1. */
    method MakeCalls(calls: seq<Entry>) returns (thrown: bool, ghost made: seq<Entry>)
      requires Sound() && KnownIds() && forall e <- calls :: e.id in coros
      modifies this`pending, this`scheduled
      ensures Sound() && KnownIds()
      ensures Made(made, calls, DeadIds()) && (thrown <==> made != calls) && Lists() == AppendAll(old(Lists()), made)
    {
      hide Logged;
      var i := 0;
      assert calls[..0] == [];
      while i < |calls|
        invariant 0 <= i <= |calls| && Sound() && KnownIds()
        invariant Made(calls[..i], calls[..i], DeadIds())
        invariant Lists() == AppendAll(old(Lists()), calls[..i])
      {
        assert calls[..i + 1] == calls[..i] + [calls[i]];
        thrown := Schedule(calls[i].id, calls[i].arg);
        if thrown { return true, calls[..i]; }
        i := i + 1;
      }
      assert calls[..|calls|] == calls;
      return false, calls;
    }

    /** A burst ends with the thread function's return, or with a blocking call; either way with
        a yield. */
    method EndBurst(c: Coro, b: Burst, exits: bool)
      requires Sound() && KnownIds() && phase == Stack.Running(c.id) && Knows(c)
      modifies this`cpu, this`phase, this`events, this`history, this`trace, mem, c`value, c`state, c`dead
      ensures Sound() && KnownIds() && phase == Stack.Returned(c.id)
      ensures DeadIds() == old(DeadIds()) + if exits then {c.id} else {}
      ensures trace == old(trace) + (if exits then [Stack.MarkDead] else []) + [Stack.Yield(0, b.ret)]
      ensures events == old(events) + SleepEvent(b, exits, c.id)
      ensures
        if !exits && b.sleep.Some? then
          && |events| == |old(events)| + 1 && events[..|old(events)|] == old(events)
          && var e := events[|old(events)|];
          && e.id == c.id && e.arg == 0
          && (b.sleep.value.0.Normal() ==> e.t.Micros() == b.sleep.value.0.Micros() + b.sleep.value.1 * 1000)
        else events == old(events)
    {
      hide Logged, SleepDeadline;
      SleepEventIs(events, b, exits, c.id);
      if !exits && b.sleep.Some? {
        Sleep(c, b.sleep.value.1, b.sleep.value.0, b.ret);
      } else {
        if exits {
          MarkDead(c);
        }
        Yield(c, 0, b.ret);
      }
    }

    /** From the moment the coroutine has control until it has given it back. */
    method RunBurst(c: Coro, b: Burst) returns (ghost made: seq<Entry>)
      requires Sound() && KnownIds() && phase == Stack.Running(c.id) && Knows(c)
      requires b.Feasible(coros.Keys)
      modifies this`cpu, this`phase, this`pending, this`scheduled, this`events, this`history, this`trace
      modifies mem, c`value, c`state, c`dead
      ensures Sound() && KnownIds() && phase == Stack.Returned(c.id)
      ensures Made(made, b.calls, old(DeadIds())) && Lists() == AppendAll(old(Lists()), made)
      ensures var exits := b.exits || made != b.calls;
        && trace == old(trace) + Stay(b, exits)
        && DeadIds() == old(DeadIds()) + (if exits then {c.id} else {})
        && events == old(events) + SleepEvent(b, exits, c.id)
    {
      hide Logged, SleepEvent;
      Compute(c, b.regs, b.stack);
      var thrown;
      thrown, made := MakeCalls(b.calls);
      EndBurst(c, b, b.exits || thrown);
    }

    method FinishTurn(c: Coro) returns (ghost block: Stack.Block)
      requires Sound() && KnownIds() && phase == Stack.Returned(c.id) && Knows(c)
      modifies this`heap, this`phase, this`history, this`trace, c`copy
      ensures Sound() && KnownIds() && phase.Main? && trace == old(trace) + [Stack.Settle(block)]
    {
      var b := FreshBlock(heap);
      Settle(c, b);
      block := b;
    }

    /** The coroutine's turn on the stack, and what run_pending does after it. */
    method TakeTurn(c: Coro, b: Burst) returns (ghost made: seq<Entry>, ghost block: Stack.Block)
      requires Sound() && KnownIds() && phase == Stack.Running(c.id) && Knows(c) && b.Feasible(coros.Keys)
      modifies this`cpu, this`heap, this`phase, this`pending, this`scheduled, this`events, this`history, this`trace
      modifies mem, c`value, c`state, c`dead, c`copy
      ensures Sound() && KnownIds() && phase.Main?
      ensures Made(made, b.calls, old(DeadIds())) && Lists() == AppendAll(old(Lists()), made)
      ensures var exits := b.exits || made != b.calls;
        && trace == old(trace) + Stay(b, exits) + [Stack.Settle(block)]
        && DeadIds() == old(DeadIds()) + (if exits then {c.id} else {})
        && events == old(events) + SleepEvent(b, exits, c.id)
      ensures
        if !b.exits && made == b.calls && b.sleep.Some? then
          && |events| == |old(events)| + 1 && events[..|old(events)|] == old(events)
          && var e := events[|old(events)|];
          && e.id == c.id && e.arg == 0
          && (b.sleep.value.0.Normal() ==> e.t.Micros() == b.sleep.value.0.Micros() + b.sleep.value.1 * 1000)
        else events == old(events)
    {
      hide SleepEvent, Stay, Made, Logged, AppendAll;
      made := RunBurst(c, b);
      SleepEventIs(old(events), b, b.exits || made != b.calls, c.id);
      block := FinishTurn(c);
    }

    /** The iterator is past the entry from the resume on. */
    method ResumeNext(ret: Word) returns (thrown: bool)
      requires Sound() && KnownIds() && phase.Main? && next < |staging|
      modifies this`cpu, this`heap, this`current, this`phase, this`history, this`trace, this`resumed, this`next
      modifies mem, main`state, coros.Values
      ensures Sound() && KnownIds() && DeadIds() == old(DeadIds())
      ensures forall i <- coros :: coros[i].dead == old(coros[i].dead)
      ensures var e := old(staging[next]);
        && thrown == old(coros[e.id].dead) == (e.id in DeadIds())
        && (if thrown then
              Lists() == old(Lists()) && next == old(next) && phase.Main? && trace == old(trace)
            else
              && Lists() == Advance(old(Lists())) && next == old(next) + 1 && phase == Stack.Running(e.id)
              && trace == old(trace) + [Stack.Resume(e.id, e.arg, ret)])
    {
      hide Logged;
      var e := staging[next];
      thrown := Resume(coros[e.id], e.arg, ret);
      if thrown { return; }
      next := next + 1;
    }

    /** One iteration of run_pending's inner loop: resume the entry at the iterator, and preserve
        its coroutine unless it died. */
    method RunEntry(b: Burst) returns (thrown: bool, ghost turn: Turn)
      requires Sound() && KnownIds() && phase.Main? && next < |staging| && b.Feasible(coros.Keys) && InOrder(Lists())
      modifies this`cpu, this`heap, this`current, this`phase, this`history, this`trace
      modifies this`pending, this`scheduled, this`resumed, this`events, this`next
      modifies mem, main`state, coros.Values
      ensures Sound() && KnownIds() && phase.Main? && InOrder(Lists())
      ensures thrown == old(coros[staging[next].id].dead)
      ensures thrown ==>
        && Lists() == old(Lists()) && Now() == old(Now())
        && next == old(next) < |staging| && coros[staging[next].id].dead
      ensures !thrown ==>
        && turn.entry == old(staging[next]) && turn.burst == b && ActStep(old(Now()), Turned(turn), Now())
        && next == old(next) + 1 && Lists() == AppendAll(Advance(old(Lists())), turn.made)
      ensures !thrown ==>
        var c, dies := old(staging[next]).id, b.exits || exists x <- b.calls :: x.id in old(DeadIds());
        && DeadIds() == old(DeadIds()) + (if dies then {c} else {})
        && trace == old(trace) + [Stack.Resume(c, old(staging[next]).arg, b.mainRet), Stack.Body(b.regs, b.stack)]
                    + (if dies then [Stack.MarkDead] else []) + [Stack.Yield(0, b.ret), Stack.Settle(turn.block)]
        && (!dies ==> scheduled == old(scheduled) + b.calls)
        && if !dies && b.sleep.Some? then
             && |events| == |old(events)| + 1 && events[..|old(events)|] == old(events)
             && var e := events[|old(events)|];
             && e.id == c && e.arg == 0
             && (b.sleep.value.0.Normal() ==> e.t.Micros() == b.sleep.value.0.Micros() + b.sleep.value.1 * 1000)
           else events == old(events)
    {
      hide Logged, Turn.Trace, Stay, SleepEvent, Made, InOrder, DeadIds;
      var e := staging[next];
      turn := Turn(e, b, [], 0);
      NextInOrder(Lists());
      thrown := ResumeNext(b.mainRet);
      if thrown { return; }
      ghost var made, block := TakeTurn(coros[e.id], b);
      turn := Turn(e, b, made, block);
      TraceOfTurn(old(trace), turn);
      TurnInOrder(old(Lists()), made);
      TurnMeans(old(Now()), turn, Now());
    }

    /** schedule_events, called from run_pending. */
    method Tick(tv: Timeval) returns (thrown: bool, ghost fired: seq<Event>)
      requires Sound() && KnownIds() && InOrder(Lists())
      modifies this`pending, this`scheduled, this`events
      ensures Sound() && KnownIds() && InOrder(Lists())
      ensures ActStep(old(Now()), Ticked(tv, fired, thrown), Now())
    {
      hide Logged, InOrder, Fired, Less;
      ghost var all, before := events, Lists();
      thrown, fired := ScheduleEvents(tv);
      forall e <- fired ensures e.id in coros { FiredWasQueued(all, tv, fired, events, e); }
      TickInOrder(before, Entries(if thrown then fired[..|fired| - 1] else fired));
    }

    /** std::swap (_staging, _pending); the staging list has been run through. */
    method SwapLists()
      requires Sound() && KnownIds() && next == |staging|
      modifies this`pending, this`staging, this`next
      ensures Sound() && KnownIds() && next == 0 && staging == old(pending)
      ensures Lists() == Scheduling.SwapLists(old(Lists()))
    {
      hide Logged;
      staging, pending := pending, [];
      next := 0;
    }

    /** The for loop over the staging list, continuing the loop history run0. */
    method RunStaging(bursts: seq<Burst>, start: nat, ghost clocks: seq<Timeval>, ghost ticks: nat,
                      ghost from: Loop, ghost run0: seq<Loop>, ghost acts0: seq<Act>)
      returns (thrown: bool, used: nat, ghost run: seq<Loop>, ghost acts: seq<Act>)
      requires Sound() && KnownIds() && phase.Main? && start <= |bursts| && InOrder(Lists())
      requires forall b <- bursts :: b.Feasible(coros.Keys)
      requires LoopAt(run0, acts0, from, Now(), |resumed| + (|staging| - next))
      requires Script(acts0, bursts, start, clocks, ticks) && !Interrupted(acts0)
      modifies this`cpu, this`heap, this`current, this`phase, this`history, this`trace
      modifies this`pending, this`scheduled, this`resumed, this`events, this`next
      modifies mem, main`state, coros.Values
      ensures Sound() && KnownIds() && phase.Main? && InOrder(Lists())
      ensures start <= used <= |bursts| && used - start == next - old(next)
      ensures LoopAt(run, acts, from, Now(), |resumed| + (|staging| - next))
      ensures Script(acts, bursts, used, clocks, ticks) && !Interrupted(acts)
      ensures if next == old(next) then acts == acts0 else EndsWithTurn(acts)
      ensures thrown ==> next < |staging| && coros[staging[next].id].dead
      ensures !thrown ==> next == |staging| || used == |bursts|
    {
      hide Logged, LoopAt, Script, ActStep, InOrder, DeadIds;
      used, run, acts := start, run0, acts0;
      while next < |staging| && used < |bursts|
        invariant Sound() && KnownIds() && phase.Main? && InOrder(Lists())
        invariant start <= used <= |bursts| && used - start == next - old(next)
        invariant LoopAt(run, acts, from, Now(), |resumed| + (|staging| - next))
        invariant Script(acts, bursts, used, clocks, ticks) && !Interrupted(acts)
        invariant if next == old(next) then acts == acts0 else EndsWithTurn(acts)
        decreases |bursts| - used
      {
        ghost var before, mark := Now(), |resumed| + (|staging| - next);
        ghost var turn;
        thrown, turn := RunEntry(bursts[used]);
        if thrown { return; }
        LoopExtends(run, acts, from, before, mark, Turned(turn), Now());
        ScriptTurns(acts, bursts, used, clocks, ticks, turn);
        run, acts := run + [Now()], acts + [Turned(turn)];
        used := used + 1;
      }
      thrown := false;
    }

    /** _staging->clear() */
    method ClearStaging()
      requires Sound() && KnownIds() && next == |staging|
      modifies this`staging, this`next
      ensures Sound() && KnownIds() && staging == [] && next == 0 && Lists() == old(Lists())
    {
      hide Logged;
      staging, next := [], 0;
    }

    /** schedule_events, added to the loop history. */
    method TickOnce(tv: Timeval, ghost bursts: seq<Burst>, ghost used: nat,
                    ghost clocks: seq<Timeval>, ghost ticks: nat,
                    ghost from: Loop, ghost run0: seq<Loop>, ghost acts0: seq<Act>, ghost mark: nat)
      returns (thrown: bool, ghost run: seq<Loop>, ghost acts: seq<Act>)
      requires Sound() && KnownIds() && InOrder(Lists()) && ticks < |clocks| && tv == clocks[ticks]
      requires LoopAt(run0, acts0, from, Now(), mark) && Script(acts0, bursts, used, clocks, ticks)
      requires acts0 == [] || (EndsWithTurn(acts0) && |resumed| == mark)
      modifies this`pending, this`scheduled, this`events
      ensures Sound() && KnownIds() && InOrder(Lists())
      ensures LoopAt(run, acts, from, Now(), |scheduled|) && Script(acts, bursts, used, clocks, ticks + 1)
      ensures EndsWithTick(acts)
      ensures (thrown <==> Interrupted(acts)) && (!thrown ==> forall e <- events :: !Less(e.t, tv))
    {
      hide Logged, LoopAt, Script, Less, Fired, InOrder, DeadIds;
      ghost var before := Now();
      ghost var fired;
      thrown, fired := Tick(tv);
      LoopExtends(run0, acts0, from, before, mark, Ticked(tv, fired, thrown), Now());
      ScriptTicks(acts0, bursts, used, clocks, ticks, fired, thrown);
      run, acts := run0 + [Now()], acts0 + [Ticked(tv, fired, thrown)];
    }

    /** The round that was under way has been run to its end, and the next clock sample is wanted. */
    ghost predicate RoundDone(acts: seq<Act>, mark: nat)
      reads this`staging, this`next, this`resumed
    {
      staging == [] && next == 0 && EndsWithTurn(acts) && |resumed| == mark
    }

    /** The body of the outer loop; without a further clock sample it stops short of the tick. */
    method RunRound(bursts: seq<Burst>, start: nat, clocks: seq<Timeval>, ticks: nat,
                    ghost from: Loop, ghost run0: seq<Loop>, ghost acts0: seq<Act>)
      returns (thrown: bool, used: nat, ticked: nat, ghost run: seq<Loop>, ghost acts: seq<Act>, ghost mark: nat)
      requires Sound() && KnownIds() && phase.Main? && staging == [] && next == 0 && InOrder(Lists()) && |pending| > 0
      requires (forall b <- bursts :: b.Feasible(coros.Keys)) && start <= |bursts| && ticks <= |clocks|
      requires LoopAt(run0, acts0, from, Now(), |scheduled|) && Script(acts0, bursts, start, clocks, ticks)
      requires !Interrupted(acts0)
      modifies this`cpu, this`heap, this`current, this`phase, this`history, this`trace
      modifies this`pending, this`staging, this`scheduled, this`resumed, this`events, this`next
      modifies mem, main`state, coros.Values
      ensures Sound() && KnownIds() && phase.Main? && InOrder(Lists()) && start <= used <= |bursts|
      ensures ticks <= ticked <= ticks + 1 && ticked <= |clocks|
      ensures LoopAt(run, acts, from, Now(), mark) && Script(acts, bursts, used, clocks, ticked)
      ensures thrown ==> Interrupted(acts) || (next < |staging| && coros[staging[next].id].dead)
      ensures !thrown ==> !Interrupted(acts)
      ensures ticked == ticks && !thrown ==>
        if ticks == |clocks| then RoundDone(acts, mark) || (next < |staging| && used == |bursts|)
        else next < |staging| && used == |bursts|
      ensures ticked > ticks && !thrown ==>
        && staging == [] && next == 0 && mark == |scheduled| && EndsWithTick(acts)
        && forall e <- events :: !Less(e.t, clocks[ticks])
    {
      hide Logged, LoopAt, Script, Less, InOrder, Now, DeadIds;
      SwapInOrder(Lists());
      AllButStaging(Lists());
      SwapLists();
      thrown, used, run, acts := RunStaging(bursts, start, clocks, ticks, from, run0, acts0);
      mark := |resumed| + (|staging| - next);
      ticked := ticks;
      if thrown || next < |staging| { return; }
      ClearStaging();
      if ticks == |clocks| { return; }
      ticked := ticks + 1;
      thrown, run, acts := TickOnce(clocks[ticks], bursts, used, clocks, ticks, from, run, acts, mark);
      mark := |scheduled|;
    }

    /** run_pending, for as long as the script of bursts and clock samples lasts.  The two lists are
        swapped, coroutines schedule each other (and themselves) meanwhile, and still the call is
        a plain succession of acts, in pace: each tick is followed by a turn for every entry
        scheduled before it was over, in the order of the schedule calls, and only then comes the
        next one.  A turn resumes the coroutine, runs the next burst, and parks or buries it.  The
        call finishes when a tick leaves nothing to resume. */
    method RunPending(bursts: seq<Burst>, clocks: seq<Timeval>)
      returns (thrown: bool, finished: bool, used: nat, ticks: nat,
               ghost run: seq<Loop>, ghost acts: seq<Act>, ghost mark: nat)
      requires Sound() && KnownIds() && phase.Main? && staging == [] && next == 0 && InOrder(Lists())
      requires forall b <- bursts ::
        0 < b.regs.sp <= TOP && |b.stack| == TOP && forall e <- b.calls :: e.id in coros
      modifies this`cpu, this`heap, this`current, this`phase, this`history, this`trace
      modifies this`pending, this`staging, this`scheduled, this`resumed, this`events, this`next
      modifies mem, main`state, coros.Values
      ensures Sound() && KnownIds() && phase.Main? && InOrder(Lists())
      ensures used <= |bursts| && ticks <= |clocks|
      ensures LoopAt(run, acts, old(Now()), Now(), mark) && Script(acts, bursts, used, clocks, ticks)
      ensures finished <==> !thrown && EndsWithTick(acts) && pending == staging == []
      ensures finished ==> scheduled == resumed == Resumed(trace)
      ensures finished ==> 0 < ticks && forall e <- events :: !Less(e.t, clocks[ticks - 1])
      ensures thrown ==> Interrupted(acts) || (next < |staging| && coros[staging[next].id].dead)
      ensures !thrown ==> !Interrupted(acts)
      ensures !finished && !thrown ==>
        || (next < |staging| && used == |bursts|)
        || (ticks == |clocks| && if clocks == [] then acts == [] else RoundDone(acts, mark))
    {
      hide Logged, LoopAt, Script, Less, InOrder, Resumed, Now, DeadIds;
      LoopStarts(Now(), bursts, clocks);
      thrown, finished, used, ticks, run, acts, mark := false, false, 0, 0, [Now()], [], 0;
      if |clocks| == 0 { return; }
      thrown, run, acts := TickOnce(clocks[0], bursts, 0, clocks, 0, Now(), run, acts, 0);
      ticks, mark := 1, |scheduled|;
      if thrown { return; }
      while |pending| > 0
        invariant Sound() && KnownIds() && phase.Main? && InOrder(Lists()) && staging == [] && next == 0
        invariant !thrown && used <= |bursts| && 0 < ticks <= |clocks|
        invariant LoopAt(run, acts, old(Now()), Now(), mark) && mark == |scheduled| && EndsWithTick(acts)
        invariant Script(acts, bursts, used, clocks, ticks) && !Interrupted(acts)
        invariant forall e <- events :: !Less(e.t, clocks[ticks - 1])
        decreases |clocks| - ticks
      {
        var before := ticks;
        thrown, used, ticks, run, acts, mark := RunRound(bursts, used, clocks, ticks, old(Now()), run, acts);
        if thrown || ticks == before { return; }
      }
      AllResumed(Lists());
      LogIsTrace();
      finished := true;
    }
  }

  lemma AllButStaging(r: Ready)
    requires InOrder(r) && r.staging == []
    ensures |r.resumed| + |r.pending| == |r.scheduled|
  {
    assert |r.resumed + r.staging + r.pending| == |r.resumed| + |r.pending|;
  }

  /** A living coroutine whose saved stack pointer lies outside the stack cannot be restored. */
  lemma LostContext(m: Stack.Machine, c: Id)
    requires c in m.coros && m.coros[c].started && !m.coros[c].dead && m.phase.Main? && m.coros[c].state.sp >= TOP
    ensures !Stack.Inv(m)
  {
    assert Stack.Parked(m, c) && !Stack.CoroInv(m, c);
  }

  lemma AllResumed(r: Ready)
    requires InOrder(r) && r.staging == r.pending == []
    ensures r.resumed == r.scheduled
  {
    assert r.resumed + [] + [] == r.resumed;
  }

  /** The head of staging is the entry next in the order of schedule calls. */
  lemma NextInOrder(r: Ready)
    requires InOrder(r) && r.staging != []
    ensures |r.resumed| < |r.scheduled| && r.scheduled[|r.resumed|] == r.staging[0]
  {
  }

  lemma FiredWasQueued(all: seq<Event>, tv: Timeval, fired: seq<Event>, rest: seq<Event>, e: Event)
    requires Fired(all, tv, fired, rest) && e in fired
    ensures e in all
  {
    assert e in multiset(fired) + multiset(rest);
  }

  lemma SwapInOrder(r: Ready)
    requires InOrder(r) && r.staging == []
    ensures InOrder(Scheduling.SwapLists(r))
  {
    assert r.resumed + r.pending + [] == r.resumed + [] + r.pending;
  }

  lemma TickInOrder(r: Ready, es: seq<Entry>)
    requires InOrder(r)
    ensures InOrder(AppendAll(r, es))
  {
  }

  lemma TurnInOrder(r: Ready, made: seq<Entry>)
    requires InOrder(r) && r.staging != []
    ensures InOrder(AppendAll(Advance(r), made))
  {
  }

  /** malloc: any block not in use. */
  method FreshBlock(heap: map<Stack.Block, Stack.Copy>) returns (b: Stack.Block)
    ensures b !in heap
  {
    assert Stack.Unused(heap.Keys) !in heap;
    b :| b !in heap;
  }

  lemma InWithout(es: seq<Event>, k: nat, f: Event)
    requires k < |es| && f in Without(es, k)
    ensures f in es
  {
  }
}
