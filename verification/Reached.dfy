/** Runs, step by step, that get to the states in which the code does not do what it is meant to. */
module Reached {
  import opened Options
  import opened Timevals
  import opened Scheduling
  import opened NobodyLost
  import opened MainCalls

  function Start(): System {
    System(Outside, Timeval(0, 0), Ready([], [], [], []), Blocked([], map[], map[], map[]),
           Shared({}, map[], map[], map[], map[]), Status({}, {}, None, map[]))
  }

  lemma Begin() returns (qs: seq<System>, ls: seq<Label>)
    ensures IsRun(qs, ls) && qs == [Start()] && ls == []
  {
    qs, ls := [Start()], [];
  }

  lemma Go(qs: seq<System>, ls: seq<Label>, l: Label) returns (qs': seq<System>, ls': seq<Label>)
    requires IsRun(qs, ls) && Enabled(qs[|ls|], l) && Step(qs[|ls|], l).Next?
    ensures IsRun(qs', ls') && |qs'| == |ls'| + 1 && ls' == ls + [l] && qs <= qs' && qs'[|ls'|] == Step(qs[|ls|], l).q
  {
    hide Step, Enabled;
    RunExtends(qs, ls, l);
    qs', ls' := qs + [Step(qs[|ls|], l).q], ls + [l];
  }

  /** A round of the scheduler: the clock is read, no timer is due, the lists are swapped. */
  lemma Round(qs: seq<System>, ls: seq<Label>) returns (qs': seq<System>, ls': seq<Label>)
    requires IsRun(qs, ls)
    requires var q := qs[|ls|];
      && (q.phase.Outside? || (q.phase.Draining? && q.ready.staging == [])) && q.now.Normal() && q.blocked.events == []
    ensures IsRun(qs', ls') && |qs'| == |ls'| + 1 && qs <= qs' && ls <= ls' && |ls'| == |ls| + 2
    ensures var q := qs[|ls|];
      qs'[|ls'|] == if q.ready.pending == [] then q.(phase := Outside)
                    else q.(ready := SwapLists(q.ready), phase := Draining)
  {
    qs', ls' := Go(qs, ls, Sample(qs[|ls|].now));
    qs', ls' := Go(qs', ls', FireEnd);
  }

  /** One coroutine waits on a condition variable; control is back in main, which is then accepted
      by wait() although it is not a coroutine. */
  lemma MainIsEnlistedAfterAResume() returns (qs: seq<System>, ls: seq<Label>)
    ensures IsRun(qs, ls) && qs[|ls|].phase.Outside? && MainWait(qs[|ls|], Cond(0)).Enlisted?
  {
    qs, ls := Begin();
    qs, ls := Go(qs, ls, Spawn(1, 0));
    qs, ls := Round(qs, ls);
    qs, ls := Go(qs, ls, Resume);
    qs, ls := Go(qs, ls, CvWait(0));
    qs, ls := Round(qs, ls);
  }

  /** Two coroutines wait on a latch; after its wake_all one of them still does. */
  lemma LatchLeavesOneOfTwo() returns (qs: seq<System>, ls: seq<Label>)
    ensures IsRun(qs, ls) && |ls| > 0 && ls[|ls| - 1] == LatchWake(0)
    ensures Queue(qs[|ls| - 1], LatchCv(0)) == [1, 2] && Queue(qs[|ls|], LatchCv(0)) == [2]
  {
    qs, ls := Begin();
    qs, ls := Go(qs, ls, Spawn(1, 0));
    qs, ls := Go(qs, ls, Spawn(2, 0));
    qs, ls := Round(qs, ls);
    qs, ls := Go(qs, ls, Resume);
    qs, ls := Go(qs, ls, LatchWait(0));
    qs, ls := Go(qs, ls, Resume);
    qs, ls := Go(qs, ls, LatchWait(0));
    qs, ls := Round(qs, ls);
    qs, ls := Go(qs, ls, LatchWake(0));
  }

  /** Two coroutines wait to read from one descriptor: the first is displaced, alive and nowhere. */
  lemma SecondReaderDisplacesTheFirst() returns (qs: seq<System>, ls: seq<Label>)
    ensures IsRun(qs, ls) && |ls| > 0 && Displaces(qs[|ls| - 1], ls[|ls| - 1])
    ensures Living(qs[|ls|], 1) && !Somewhere(qs[|ls|], 1)
  {
    qs, ls := Begin();
    qs, ls := Go(qs, ls, Spawn(1, 0));
    qs, ls := Go(qs, ls, Spawn(2, 0));
    qs, ls := Round(qs, ls);
    qs, ls := Go(qs, ls, Resume);
    qs, ls := Go(qs, ls, WaitRead(5));
    qs, ls := Go(qs, ls, Resume);
    qs, ls := Go(qs, ls, WaitRead(5));
  }

  // ---------------------------------------------------------------- a fifo and three coroutines

  /** What matters of a state to fifo 0. */
  datatype Scene = Scene(phase: Phase, staging: seq<Entry>, pending: seq<Entry>, spawned: set<Id>,
                         popping: map<Id, nat>, popped: seq<Item>, items: seq<Item>, waiting: seq<Id>)

  function SceneOf(q: System): Scene {
    Scene(q.phase, q.ready.staging, q.ready.pending, q.status.spawned,
          q.shared.popping, Get(q.shared.popped, 0), Items(q, 0), Queue(q, FifoCv(0)))
  }

  /** Nobody has died and no timer is set. */
  predicate Calm(q: System) {
    q.status.dead == {} && q.blocked.events == [] && q.now.Normal()
  }

  /** Taking step l is possible, and makes the scene s'. */
  predicate Leads(q: System, l: Label, s': Scene) {
    Enabled(q, l) && Step(q, l).Next? && Calm(Step(q, l).q) && SceneOf(Step(q, l).q) == s'
  }

  lemma SpawnScene(q: System, c: Id)
    requires Calm(q) && q.phase.Outside? && c !in q.status.spawned
    ensures var s := SceneOf(q);
      Leads(q, Spawn(c, 0), s.(pending := s.pending + [Entry(c, 0)], spawned := s.spawned + {c}))
  {
  }

  lemma ResumeScene(q: System)
    requires Calm(q) && q.phase.Draining? && q.ready.staging != []
    ensures var s := SceneOf(q); Leads(q, Resume, s.(phase := Running(s.staging[0].id), staging := s.staging[1..]))
  {
  }

  lemma WaitScene(q: System)
    requires Calm(q) && q.phase.Running? && q.phase.c !in q.shared.popping
    ensures Leads(q, CvWait(0), SceneOf(q).(phase := Draining))
  {
  }

  lemma PushScene(q: System, x: Item)
    requires Calm(q) && (q.phase.Outside? || (q.phase.Running? && q.phase.c !in q.shared.popping))
    ensures var s := SceneOf(q);
      Leads(q, Push(0, x),
            if s.waiting == [] then s.(items := s.items + [x])
            else s.(items := s.items + [x], waiting := s.waiting[1..], pending := s.pending + [Entry(s.waiting[0], 0)]))
  {
  }

  lemma PopScene(q: System)
    requires Calm(q) && q.phase.Running? && (q.phase.c in q.shared.popping ==> q.shared.popping[q.phase.c] == 0)
    ensures var s := SceneOf(q);
      Leads(q, Pop(0),
            if s.items == [] then
              s.(phase := Draining, popping := s.popping[q.phase.c := 0], waiting := s.waiting + [q.phase.c])
            else s.(popping := s.popping - {q.phase.c}, popped := s.popped + [s.items[0]], items := s.items[1..]))
  {
  }

  lemma RoundScene(qs: seq<System>, ls: seq<Label>) returns (qs': seq<System>, ls': seq<Label>)
    requires IsRun(qs, ls) && Calm(qs[|ls|])
    requires qs[|ls|].phase.Outside? || (qs[|ls|].phase.Draining? && qs[|ls|].ready.staging == [])
    ensures IsRun(qs', ls') && |qs'| == |ls'| + 1 && qs <= qs' && ls <= ls' && |ls'| == |ls| + 2 && Calm(qs'[|ls'|])
    ensures var s := SceneOf(qs[|ls|]);
      SceneOf(qs'[|ls'|]) == if s.pending == [] then s.(phase := Outside)
                             else s.(phase := Draining, staging := s.pending, pending := [])
  {
    qs', ls' := Round(qs, ls);
  }

  /** Coroutine 1 waits in pop; 3 and 2 are about to be resumed, in this order. */
  lemma APopperWaits() returns (qs: seq<System>, ls: seq<Label>)
    ensures IsRun(qs, ls) && |qs| == |ls| + 1 && Calm(qs[|ls|])
    ensures SceneOf(qs[|ls|]) == Scene(Draining, [Entry(3, 0), Entry(2, 0)], [], {1, 2, 3}, map[1 := 0], [], [], [1])
  {
    hide Step, Enabled, IsRun;
    qs, ls := Begin();
    SpawnScene(qs[|ls|], 1);
    qs, ls := Go(qs, ls, Spawn(1, 0));
    qs, ls := RoundScene(qs, ls);
    ResumeScene(qs[|ls|]);
    qs, ls := Go(qs, ls, Resume);
    PopScene(qs[|ls|]);
    qs, ls := Go(qs, ls, Pop(0));
    qs, ls := RoundScene(qs, ls);
    SpawnScene(qs[|ls|], 3);
    qs, ls := Go(qs, ls, Spawn(3, 0));
    SpawnScene(qs[|ls|], 2);
    qs, ls := Go(qs, ls, Spawn(2, 0));
    qs, ls := RoundScene(qs, ls);
  }

  /** 3 pushes an item, which wakes 1. */
  lemma AnItemForIt(qs0: seq<System>, ls0: seq<Label>) returns (qs: seq<System>, ls: seq<Label>)
    requires IsRun(qs0, ls0) && Calm(qs0[|ls0|])
    requires SceneOf(qs0[|ls0|]) == Scene(Draining, [Entry(3, 0), Entry(2, 0)], [], {1, 2, 3}, map[1 := 0], [], [], [1])
    ensures IsRun(qs, ls) && |qs| == |ls| + 1 && Calm(qs[|ls|])
    ensures SceneOf(qs[|ls|]) == Scene(Draining, [Entry(2, 0)], [Entry(1, 0)], {1, 2, 3}, map[1 := 0], [], [7], [])
  {
    assert |qs0| == |ls0| + 1;
    hide Step, Enabled, IsRun, Calm;
    ResumeScene(qs0[|ls0|]);
    qs, ls := Go(qs0, ls0, Resume);
    PushScene(qs[|ls|], 7);
    qs, ls := Go(qs, ls, Push(0, 7));
    WaitScene(qs[|ls|]);
    qs, ls := Go(qs, ls, CvWait(0));
  }

  /** But 2 comes first and takes it. */
  lemma AnotherBargesIn(qs0: seq<System>, ls0: seq<Label>) returns (qs: seq<System>, ls: seq<Label>)
    requires IsRun(qs0, ls0) && Calm(qs0[|ls0|])
    requires SceneOf(qs0[|ls0|]) == Scene(Draining, [Entry(2, 0)], [Entry(1, 0)], {1, 2, 3}, map[1 := 0], [], [7], [])
    ensures IsRun(qs, ls) && |qs| == |ls| + 1 && Calm(qs[|ls|])
    ensures SceneOf(qs[|ls|]) == Scene(Draining, [Entry(1, 0)], [], {1, 2, 3}, map[1 := 0], [7], [], [])
  {
    assert |qs0| == |ls0| + 1;
    hide Step, Enabled, IsRun, Calm;
    ResumeScene(qs0[|ls0|]);
    qs, ls := Go(qs0, ls0, Resume);
    PopScene(qs[|ls|]);
    qs, ls := Go(qs, ls, Pop(0));
    WaitScene(qs[|ls|]);
    qs, ls := Go(qs, ls, CvWait(0));
    qs, ls := RoundScene(qs, ls);
  }

  /** A whole run: at step `vain` a woken popper finds the fifo empty, another having taken its item
      in between, and joins the queue again; with the last step it takes the next item. */
  lemma BargingPopper() returns (qs: seq<System>, ls: seq<Label>, vain: nat)
    ensures IsRun(qs, ls) && vain < |ls| - 1
    ensures ls[vain] == Pop(0) && qs[vain].phase == Running(1) && 1 in qs[vain].shared.popping
    ensures Items(qs[vain], 0) == [] && Get(qs[vain].shared.popped, 0) == [7]
    ensures Queue(qs[vain + 1], FifoCv(0)) == [1] && qs[vain + 1].phase.Draining?
    ensures ls[|ls| - 1] == Pop(0) && qs[|ls| - 1].phase == Running(1) == qs[|ls|].phase
    ensures 1 !in qs[|ls|].shared.popping && Get(qs[|ls|].shared.popped, 0) == [7, 8]
  {
    hide Step, Enabled;
    qs, ls := APopperWaits();
    qs, ls := AnItemForIt(qs, ls);
    qs, ls := AnotherBargesIn(qs, ls);
    ResumeScene(qs[|ls|]);
    qs, ls := Go(qs, ls, Resume);
    vain := |ls|;
    PopScene(qs[|ls|]);
    qs, ls := Go(qs, ls, Pop(0));
    qs, ls := RoundScene(qs, ls);
    PushScene(qs[|ls|], 8);
    qs, ls := Go(qs, ls, Push(0, 8));
    qs, ls := RoundScene(qs, ls);
    ResumeScene(qs[|ls|]);
    qs, ls := Go(qs, ls, Resume);
    PopScene(qs[|ls|]);
    qs, ls := Go(qs, ls, Pop(0));
  }
}
