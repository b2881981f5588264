/** fifo<T> under any interleaving of pushers, waiters, woken poppers and barging poppers. */
module FifoProperties {
  import opened Scheduling
  import opened WakeUniqueness
  import opened RunProperties

  /** Coroutines that failed a test for items in fifo f, have been woken, and not yet re-tested. */
  function Woken(q: System, f: nat): set<Id> {
    set c | c in q.shared.popping && q.shared.popping[c] == f && c !in Queue(q, FifoCv(f))
  }

  /** Only poppers of f wait on f's condition variable. */
  predicate WaitersPop(q: System) {
    forall cv <- q.blocked.waiting :: cv.FifoCv? ==>
      forall c <- Queue(q, cv) :: c in q.shared.popping && q.shared.popping[c] == cv.n
  }

  /** If somebody waits on f, the items on offer do not outnumber the poppers on their way. */
  predicate NoLostWakeup(q: System, f: nat) {
    Queue(q, FifoCv(f)) != [] ==> |Items(q, f)| <= |Woken(q, f)|
  }

  /** A popper that is not in its fifo's queue is ready or running. */
  ghost predicate PoppersAccounted(q: System) {
    forall c <- q.shared.popping ::
      || c in Queue(q, FifoCv(q.shared.popping[c]))
      || q.phase == Running(c)
      || exists k: nat :: At(q, InPending(k), c) || At(q, InStaging(k), c)
  }

  ghost predicate FifoInv(q: System) {
    WaitersPop(q) && PoppersAccounted(q) && forall f: nat :: NoLostWakeup(q, f)
  }

  // ---------------------------------------------------------------- one step

  /** Steps that are not fifo operations leave every fifo's contents, queue and poppers alone. */
  lemma FifoFrame(q: System, l: Label, q': System)
    requires Enabled(q, l) && Step(q, l) == Next(q') && !l.Push? && !l.Pop?
    ensures q'.shared.items == q.shared.items && q'.shared.popping == q.shared.popping
    ensures q'.shared.pushed == q.shared.pushed && q'.shared.popped == q.shared.popped
    ensures forall f: nat :: Queue(q', FifoCv(f)) == Queue(q, FifoCv(f))
    ensures forall cv <- q'.blocked.waiting :: cv.FifoCv? ==> cv in q.blocked.waiting
  {
  }

  lemma FrameKeeps(q: System, l: Label, q': System)
    requires FifoInv(q) && PlaceInv(q) && Enabled(q, l) && Step(q, l) == Next(q') && !l.Push? && !l.Pop?
    ensures WaitersPop(q') && forall f: nat :: NoLostWakeup(q', f)
  {
    FifoFrame(q, l, q');
    forall cv <- q'.blocked.waiting | cv.FifoCv?
      ensures forall c <- Queue(q', cv) :: c in q'.shared.popping && q'.shared.popping[c] == cv.n
    {
      assert Queue(q', FifoCv(cv.n)) == Queue(q, FifoCv(cv.n));
    }
    forall f: nat ensures NoLostWakeup(q', f) {
      assert NoLostWakeup(q, f);
      assert Woken(q', f) == Woken(q, f);
    }
  }

  /** Outside the fifo operations a running coroutine that blocks or exits is not a popper. */
  lemma FramePoppers(q: System, l: Label, q': System)
    requires FifoInv(q) && PlaceInv(q) && Enabled(q, l) && Step(q, l) == Next(q') && !l.Push? && !l.Pop?
    ensures PoppersAccounted(q')
  {
    FifoFrame(q, l, q');
    forall c <- q'.shared.popping
      ensures c in Queue(q', FifoCv(q'.shared.popping[c])) || q'.phase == Running(c)
              || exists k: nat :: At(q', InPending(k), c) || At(q', InStaging(k), c)
    {
      if c !in Queue(q, FifoCv(q.shared.popping[c])) { PopperStays(q, l, q', c); }
    }
  }

  lemma PopperStays(q: System, l: Label, q': System, c: Id)
    requires FifoInv(q) && PlaceInv(q) && Enabled(q, l) && Step(q, l) == Next(q') && !l.Push? && !l.Pop?
    requires c in q.shared.popping && c !in Queue(q, FifoCv(q.shared.popping[c]))
    ensures q'.phase == Running(c) || exists k: nat :: At(q', InPending(k), c) || At(q', InStaging(k), c)
  {
    if q.phase != Running(c) && !(l.Resume? && q.ready.staging[0].id == c) {
      ReadyStays(q, l, q', c);
    }
  }

  lemma PushShape(q: System, f: nat, x: Item, q': System)
    requires Enabled(q, Push(f, x)) && Step(q, Push(f, x)) == Next(q')
    ensures q'.shared == Stored(q.shared, f, x)
    ensures Queue(q', FifoCv(f)) == var w := Queue(q, FifoCv(f)); if w == [] then w else w[1..]
    ensures forall g: nat | g != f :: Queue(q', FifoCv(g)) == Queue(q, FifoCv(g))
  {
    WakeReady(q.(shared := Stored(q.shared, f, x)), FifoCv(f), 0, q');
  }

  lemma HeadPops(q: System, f: nat)
    requires WaitersPop(q) && Queue(q, FifoCv(f)) != []
    ensures var c := Queue(q, FifoCv(f))[0]; c in q.shared.popping && q.shared.popping[c] == f
  {
    assert FifoCv(f) in q.blocked.waiting;
  }

  lemma PushKeeps(q: System, f: nat, x: Item, q': System)
    requires FifoInv(q) && PlaceInv(q) && Enabled(q, Push(f, x)) && Step(q, Push(f, x)) == Next(q')
    ensures forall g: nat :: NoLostWakeup(q', g)
  {
    hide Step, Enabled, PlaceInv, WaitersPop, PoppersAccounted;
    PushShape(q, f, x, q');
    forall g: nat ensures NoLostWakeup(q', g) {
      assert NoLostWakeup(q, g);
      if g == f {
        var w := Queue(q, FifoCv(f));
        if w != [] {
          HeadNotInTail(q, FifoCv(f));
          HeadPops(q, f);
          assert Woken(q', f) == Woken(q, f) + {w[0]};
        }
      } else {
        assert Woken(q', g) == Woken(q, g);
      }
    }
  }

  lemma HeadNotInTail(q: System, cv: CvId)
    requires PlaceInv(q) && Queue(q, cv) != []
    ensures Queue(q, cv)[0] !in Queue(q, cv)[1..]
  {
    var w := Queue(q, cv);
    assert At(q, InQueue(cv, 0), w[0]);
    forall k | 0 <= k < |w| - 1 ensures w[1..][k] != w[0] {
      assert At(q, InQueue(cv, k + 1), w[k + 1]);
    }
  }

  lemma PushKeepsPoppers(q: System, f: nat, x: Item, q': System)
    requires FifoInv(q) && PlaceInv(q) && Enabled(q, Push(f, x)) && Step(q, Push(f, x)) == Next(q')
    ensures WaitersPop(q') && PoppersAccounted(q')
  {
    var q1 := q.(shared := Stored(q.shared, f, x));
    WakeReady(q1, FifoCv(f), 0, q');
    var w, p := Queue(q, FifoCv(f)), q.ready.pending;
    forall c <- q'.shared.popping
      ensures c in Queue(q', FifoCv(q'.shared.popping[c])) || q'.phase == Running(c)
              || exists k: nat :: At(q', InPending(k), c) || At(q', InStaging(k), c)
    {
      var g := q.shared.popping[c];
      if c in Queue(q, FifoCv(g)) {
        if g == f && c == w[0] { assert At(q', InPending(|p|), c); }
      } else if q.phase != Running(c) {
        ReadyStays(q, Push(f, x), q', c);
      }
    }
  }

  lemma PopTakesShape(q: System, f: nat, q': System)
    requires Enabled(q, Pop(f)) && Step(q, Pop(f)) == Next(q') && Items(q, f) != []
    ensures q'.blocked == q.blocked && q'.shared == Taken(q.shared, f, q.phase.c)
  {
  }

  /** A popper that finds an item leaves the woken set, if it was in it, with its item. */
  lemma PopTakesKeeps(q: System, f: nat, q': System, g: nat)
    requires NoLostWakeup(q, g) && q.phase.Running?
    requires q.phase.c in q.shared.popping ==> q.shared.popping[q.phase.c] == f
    requires Items(q, f) != [] && q'.blocked == q.blocked && q'.shared == Taken(q.shared, f, q.phase.c)
    ensures NoLostWakeup(q', g)
  {
    if g == f {
      assert Woken(q', f) == Woken(q, f) - {q.phase.c};
    } else {
      assert Woken(q', g) == Woken(q, g);
    }
  }

  lemma PopWaitsKeeps(q: System, f: nat, q': System, g: nat)
    requires FifoInv(q) && Enabled(q, Pop(f)) && Step(q, Pop(f)) == Next(q') && Items(q, f) == []
    ensures NoLostWakeup(q', g)
  {
    assert NoLostWakeup(q, g);
    if g != f {
      assert Woken(q', g) == Woken(q, g);
    }
  }

  lemma PopKeepsPoppers(q: System, f: nat, q': System)
    requires FifoInv(q) && PlaceInv(q) && Enabled(q, Pop(f)) && Step(q, Pop(f)) == Next(q')
    ensures WaitersPop(q') && PoppersAccounted(q')
  {
    var c := q.phase.c;
    assert At(q, OnCpu, c);
    forall cv <- q'.blocked.waiting, d <- Queue(q', cv) | cv.FifoCv?
      ensures d in q'.shared.popping && q'.shared.popping[d] == cv.n
    {
      if d in Queue(q, cv) {
        var k :| 0 <= k < |Queue(q, cv)| && Queue(q, cv)[k] == d;
        assert At(q, InQueue(cv, k), d);
      }
    }
    forall d <- q'.shared.popping
      ensures d in Queue(q', FifoCv(q'.shared.popping[d])) || q'.phase == Running(d)
              || exists k: nat :: At(q', InPending(k), d) || At(q', InStaging(k), d)
    {
      if d != c {
        if d !in Queue(q, FifoCv(q.shared.popping[d])) {
          ReadyStays(q, Pop(f), q', d);
        }
      } else {
        assert Queue(q', FifoCv(f))[|Queue(q, FifoCv(f))|] == c;
      }
    }
  }

  lemma StepKeepsFifoInv(q: System, l: Label, q': System)
    requires FifoInv(q) && PlaceInv(q) && Enabled(q, l) && Step(q, l) == Next(q')
    ensures FifoInv(q')
  {
    hide Step, NoLostWakeup, PoppersAccounted, WaitersPop, PlaceInv;
    match l
    case Push(f, x) => PushKeeps(q, f, x, q'); PushKeepsPoppers(q, f, x, q');
    case Pop(f) =>
      forall g: nat ensures NoLostWakeup(q', g) {
        if Items(q, f) == [] {
          PopWaitsKeeps(q, f, q', g);
        } else {
          assert NoLostWakeup(q, g);
          PopTakesShape(q, f, q');
          PopTakesKeeps(q, f, q', g);
        }
      }
      PopKeepsPoppers(q, f, q');
    case _ => FrameKeeps(q, l, q'); FramePoppers(q, l, q');
  }

  // ---------------------------------------------------------------- whole runs

  lemma {:induction false} RunKeepsFifoInv(qs: seq<System>, ls: seq<Label>, i: nat)
    requires IsRun(qs, ls) && i <= |ls|
    ensures FifoInv(qs[i])
  {
    hide Step, Enabled, PlaceInv;
    if i > 0 {
      RunKeepsFifoInv(qs, ls, i - 1);
      RunKeepsPlaces(qs, ls, i - 1);
      RunStep(qs, ls, i - 1);
      StepKeepsFifoInv(qs[i - 1], ls[i - 1], qs[i]);
    }
  }

  /** No lost wakeup: while some coroutine waits on the fifo there are at most as many items as
      woken poppers that have not re-tested; so once nothing is ready or running, a fifo with
      items has no waiters. */
  lemma WaitersNeverMissItems(qs: seq<System>, ls: seq<Label>, i: nat, f: nat)
    requires IsRun(qs, ls) && i <= |ls|
    ensures Queue(qs[i], FifoCv(f)) != [] ==> |Items(qs[i], f)| <= |Woken(qs[i], f)|
    ensures qs[i].ready.pending == qs[i].ready.staging == [] && !qs[i].phase.Running? && Items(qs[i], f) != []
            ==> Queue(qs[i], FifoCv(f)) == []
  {
    hide Step, Enabled;
    RunKeepsFifoInv(qs, ls, i);
    var q := qs[i];
    assert NoLostWakeup(q, f);
    if q.ready.pending == q.ready.staging == [] && !q.phase.Running? {
      assert Woken(q, f) == {};
    }
  }

  /** The woken poppers counted above are all queued for resumption, or just resumed. */
  lemma WokenPoppersAreReady(qs: seq<System>, ls: seq<Label>, i: nat, f: nat, c: Id)
    requires IsRun(qs, ls) && i <= |ls| && c in Woken(qs[i], f)
    ensures qs[i].phase == Running(c) || exists k: nat :: At(qs[i], InPending(k), c) || At(qs[i], InStaging(k), c)
  {
    hide Step, Enabled;
    RunKeepsFifoInv(qs, ls, i);
  }

  predicate Delivered(s: Shared, f: nat) {
    Get(s.pushed, f) == Get(s.popped, f) + Get(s.items, f)
  }

  lemma StoredDelivers(s: Shared, g: nat, x: Item, f: nat)
    requires Delivered(s, f)
    ensures Delivered(Stored(s, g, x), f) && Get(s.popped, f) <= Get(Stored(s, g, x).popped, f)
  {
  }

  lemma TakenDelivers(s: Shared, g: nat, c: Id, f: nat)
    requires Delivered(s, f) && Get(s.items, g) != []
    ensures Delivered(Taken(s, g, c), f) && Get(s.popped, f) <= Get(Taken(s, g, c).popped, f)
  {
  }

  lemma DeliveryStep(q: System, l: Label, q': System, f: nat)
    requires Enabled(q, l) && Step(q, l) == Next(q') && Delivered(q.shared, f)
    ensures Delivered(q'.shared, f) && Get(q.shared.popped, f) <= Get(q'.shared.popped, f)
  {
    if l.Push? {
      StoredDelivers(q.shared, l.f, l.x, f);
      WakeReady(q.(shared := Stored(q.shared, l.f, l.x)), FifoCv(l.f), 0, q');
    } else if l.Pop? {
      if Items(q, l.f) != [] { TakenDelivers(q.shared, l.f, q.phase.c, f); }
    } else {
      FifoFrame(q, l, q');
    }
  }

  /** Delivery: the items pushed are, in order, the items popped followed by the present contents;
      what has been popped is never taken back. */
  lemma {:induction false} EachItemOnceInOrder(qs: seq<System>, ls: seq<Label>, i: nat, f: nat)
    requires IsRun(qs, ls) && i <= |ls|
    ensures Delivered(qs[i].shared, f)
    ensures i > 0 ==> Get(qs[i - 1].shared.popped, f) <= Get(qs[i].shared.popped, f)
  {
    hide Step, Enabled;
    if i > 0 {
      EachItemOnceInOrder(qs, ls, i - 1, f);
      RunStep(qs, ls, i - 1);
      DeliveryStep(qs[i - 1], ls[i - 1], qs[i], f);
    }
  }

  /** One test of pop's loop: the front item if there is one; otherwise, even after a wake-up
      whose item a barging popper took, the caller goes back to the queue and nothing is read. */
  lemma PopTest(q: System, f: nat, q': System)
    requires Enabled(q, Pop(f)) && Step(q, Pop(f)) == Next(q')
    ensures var c := q.phase.c;
      if Items(q, f) == [] then
        && q'.phase == Draining && q'.shared == Failed(q.shared, f, c)
        && Queue(q', FifoCv(f)) == Queue(q, FifoCv(f)) + [c]
      else
        && q'.phase == Running(c) && c !in q'.shared.popping
        && Items(q, f) == [Items(q, f)[0]] + Items(q', f)
        && Get(q'.shared.popped, f) == Get(q.shared.popped, f) + [Items(q, f)[0]]
  {
  }

  /** No other step lets a coroutine into pop or out of it. */
  lemma OnlyPopChangesPopping(q: System, l: Label, q': System)
    requires Enabled(q, l) && Step(q, l) == Next(q')
    ensures l.Pop? ==> q.phase.Running? && (q.phase.c in q.shared.popping ==> q.shared.popping[q.phase.c] == l.f)
    ensures q'.shared.popping ==
            if !l.Pop? then q.shared.popping
            else if Items(q, l.f) == [] then q.shared.popping[q.phase.c := l.f]
            else q.shared.popping - {q.phase.c}
  {
    if !l.Pop? && !l.Push? { FifoFrame(q, l, q'); }
    if l.Push? { WakeReady(q.(shared := Stored(q.shared, l.f, l.x)), FifoCv(l.f), 0, q'); }
  }

  /** Step i is the test with which c, inside pop of fifo f, gets its item, the one at the front. */
  ghost predicate TakesFront(qs: seq<System>, ls: seq<Label>, i: nat, c: Id, f: nat)
    requires IsRun(qs, ls) && i < |ls|
  {
    && ls[i] == Pop(f) && qs[i].phase == Running(c) == qs[i + 1].phase && Items(qs[i], f) != []
    && Items(qs[i], f) == [Items(qs[i], f)[0]] + Items(qs[i + 1], f)
    && Get(qs[i + 1].shared.popped, f) == Get(qs[i].shared.popped, f) + [Items(qs[i], f)[0]]
  }

  /** Whoever is inside pop stays there, for the same fifo, however often it is woken in vain,
      until it takes an item from the front: pop never returns without one. */
  lemma {:induction false} PopEndsWithTheFront(qs: seq<System>, ls: seq<Label>, a: nat, b: nat, c: Id, f: nat)
    requires IsRun(qs, ls) && a <= b <= |ls| && c in qs[a].shared.popping && qs[a].shared.popping[c] == f
    ensures || (c in qs[b].shared.popping && qs[b].shared.popping[c] == f)
            || exists i: nat :: a <= i < b && TakesFront(qs, ls, i, c, f)
    decreases b
  {
    hide Step, Enabled;
    if a < b {
      PopEndsWithTheFront(qs, ls, a, b - 1, c, f);
      RunStep(qs, ls, b - 1);
      OnlyPopChangesPopping(qs[b - 1], ls[b - 1], qs[b]);
      if ls[b - 1].Pop? && qs[b - 1].phase == Running(c) && c in qs[b - 1].shared.popping {
        PopTest(qs[b - 1], ls[b - 1].f, qs[b]);
        if c !in qs[b].shared.popping && ls[b - 1].f == f { assert TakesFront(qs, ls, b - 1, c, f); }
      }
    }
  }
}
