/** The two machines together: every run of the scheduler can be carried out on the one shared
    stack, whatever the coroutines and the scheduler compute there, because the scheduler never
    resumes a coroutine that the stack machine could not. */
module WholeRuntime {
  import opened Options
  import Stack = SharedStack
  import Refinement = StackRefinement
  import opened Scheduling
  import opened Traces
  import opened WakeUniqueness

  /** What the outside world decides at one step of the scheduler: the registers and stack words
      the running coroutine has computed by then, those of the scheduler before a resume, the
      return address of the switch, and what malloc left in a new record. */
  datatype Choice = Choice(regs: Stack.Regs, stack: seq<Stack.Word>, mainRegs: Stack.Regs, os: seq<Stack.Word>,
                           ret: Stack.Word, junk: Stack.Regs)
  {
    /** Both stack pointers stay in their stacks. */
    predicate Feasible(size: nat) {
      && 0 < regs.sp <= Stack.STACK_TOP && |stack| == Stack.STACK_TOP
      && Stack.STACK_TOP < mainRegs.sp <= size && Stack.STACK_TOP + |os| == size
    }
  }

  /** The parts of the stack machine's state that the scheduler has too, and the memory's size. */
  datatype Control = Control(phase: Stack.Phase, ids: set<Id>, dead: set<Id>, current: Option<Id>, size: nat)

  function ControlOf(m: Stack.Machine): Control {
    Control(m.phase, m.coros.Keys, (set c | c in m.coros && m.coros[c].dead), m.current, |m.mem|)
  }

  function Expected(q: System, size: nat): Control {
    Control(if q.phase.Running? then Stack.Running(q.phase.c) else Stack.Main,
            q.status.spawned, q.status.dead, q.status.current, size)
  }

  /** The same coroutines exist, the same ones are dead, and the same one, if any, is running, with
      the same argument handed to it. */
  ghost predicate Coupled(q: System, m: Stack.Machine, size: nat) {
    && Stack.Inv(m) && ControlOf(m) == Expected(q, size)
    && (q.phase.Running? ==>
          && q.phase.c in m.coros && q.phase.c in q.status.values
          && m.coros[q.phase.c].value == q.status.values[q.phase.c])
  }

  /** Executing the labels in order, each enabled when its turn comes, leads from m to m'. */
  ghost predicate Leads(m: Stack.Machine, ls: seq<Stack.Label>, m': Stack.Machine)
    decreases |ls|
  {
    if ls == [] then m' == m
    else Stack.Inv(m) && Stack.Enabled(m, ls[0]) && Leads(Stack.Step(m, ls[0]), ls[1..], m')
  }

  /** The scheduler's step leaves the running coroutine blocked. */
  predicate Blocks(q: System, q': System) {
    q.phase.Running? && !q'.phase.Running?
  }

  function Stays(w: Choice): Stack.Label { Stack.Body(w.regs, w.stack) }

  function SwitchesOut(w: Choice, block: Stack.Block): seq<Stack.Label> {
    [Stack.Yield(0, w.ret), Stack.Settle(block)]
  }

  /** How each kind of step is carried out on the stack: a resume by restoring and switching in, a
      blocking call by switching out and preserving, an exit by dying first; `block` is malloc's. */
  function Path(q: System, l: Label, q': System, w: Choice, block: Stack.Block): seq<Stack.Label>
    requires Enabled(q, l)
  {
    if l.Resume? then
      [Stack.MainStep(w.mainRegs, w.os), Stack.Resume(q.ready.staging[0].id, q.ready.staging[0].arg, w.ret)]
    else if l.Exit? then [Stays(w), Stack.MarkDead] + SwitchesOut(w, block)
    else if Blocks(q, q') then [Stays(w)] + SwitchesOut(w, block)
    else if l.Spawn? then [Stack.New(l.c, w.junk)]
    else []
  }

  // ---------------------------------------------------------------- steps of the stack machine

  lemma One(m: Stack.Machine, l: Stack.Label)
    requires Stack.Inv(m) && Stack.Enabled(m, l)
    ensures Leads(m, [l], Stack.Step(m, l)) && Stack.Inv(Stack.Step(m, l))
  {
    hide Stack.Inv, Stack.Step, Stack.Enabled;
    Refinement.StepRefines(m, l);
  }

  lemma {:induction false} Then(m: Stack.Machine, ls: seq<Stack.Label>, k: Stack.Machine, ls': seq<Stack.Label>,
                                m': Stack.Machine)
    requires Leads(m, ls, k) && Leads(k, ls', m')
    ensures Leads(m, ls + ls', m')
    decreases |ls|
  {
    hide Stack.Inv, Stack.Step, Stack.Enabled;
    if ls == [] {
      assert ls + ls' == ls';
    } else {
      Then(Stack.Step(m, ls[0]), ls[1..], k, ls', m');
      assert (ls + ls')[0] == ls[0] && (ls + ls')[1..] == ls[1..] + ls';
    }
  }

  /** What each step does to the control state. */
  function NextControl(k: Control, l: Stack.Label): Control
    requires k.phase.Main? ==> !l.MarkDead? && !l.Yield?
  {
    match l
    case New(c, _) => k.(ids := k.ids + {c})
    case MainStep(_, _) => k
    case Body(_, _) => k
    case Resume(c, _, _) => k.(phase := Stack.Running(c), current := Some(c))
    case MarkDead => k.(dead := k.dead + {k.phase.c})
    case Yield(_, _) => k.(phase := Stack.Returned(k.phase.c))
    case Settle(_) => k.(phase := Stack.Main)
  }

  lemma ResumeControl(m: Stack.Machine, l: Stack.Label)
    requires Stack.Inv(m) && Stack.Enabled(m, l) && l.Resume?
    ensures var m' := Stack.Step(m, l);
      ControlOf(m') == NextControl(ControlOf(m), l) && l.c in m'.coros && m'.coros[l.c].value == l.arg
  {
    assert Stack.CoroInv(m, l.c);
  }

  lemma OtherControl(m: Stack.Machine, l: Stack.Label)
    requires Stack.Inv(m) && Stack.Enabled(m, l) && !l.Resume?
    ensures ControlOf(Stack.Step(m, l)) == NextControl(ControlOf(m), l)
  {
  }

  lemma StepControl(m: Stack.Machine, l: Stack.Label)
    requires Stack.Inv(m) && Stack.Enabled(m, l)
    ensures var m' := Stack.Step(m, l);
      && Stack.Inv(m') && Leads(m, [l], m') && ControlOf(m') == NextControl(ControlOf(m), l)
      && (l.Resume? ==> l.c in m'.coros && m'.coros[l.c].value == l.arg)
  {
    hide Stack.Inv, Stack.Step, Stack.Enabled, NextControl;
    One(m, l);
    if l.Resume? { ResumeControl(m, l); } else { OtherControl(m, l); }
  }

  /** The switch to main, and what run_pending does after it. */
  lemma SwitchOut(m: Stack.Machine, w: Choice) returns (block: Stack.Block, m': Stack.Machine)
    requires Stack.Inv(m) && m.phase.Running?
    ensures Leads(m, SwitchesOut(w, block), m') && Stack.Inv(m')
    ensures ControlOf(m') == ControlOf(m).(phase := Stack.Main)
  {
    hide Stack.Inv, Stack.Step;
    var y := Stack.Yield(0, w.ret);
    var k := Stack.Step(m, y);
    StepControl(m, y);
    assert ControlOf(k).phase == k.phase;
    block := Stack.Unused(k.heap.Keys);
    var s := Stack.Settle(block);
    m' := Stack.Step(k, s);
    StepControl(k, s);
    Then(m, [y], k, [s], m');
    assert [y] + [s] == SwitchesOut(w, block);
  }

  lemma BlockOnStack(m: Stack.Machine, w: Choice) returns (block: Stack.Block, m': Stack.Machine)
    requires Stack.Inv(m) && m.phase.Running? && w.Feasible(|m.mem|)
    ensures Leads(m, [Stays(w)] + SwitchesOut(w, block), m') && Stack.Inv(m')
    ensures ControlOf(m') == ControlOf(m).(phase := Stack.Main)
  {
    hide Stack.Inv, Stack.Step;
    var k := Stack.Step(m, Stays(w));
    StepControl(m, Stays(w));
    assert ControlOf(k).phase == k.phase;
    block, m' := SwitchOut(k, w);
    Then(m, [Stays(w)], k, SwitchesOut(w, block), m');
  }

  lemma DieOnStack(m: Stack.Machine, w: Choice) returns (block: Stack.Block, m': Stack.Machine)
    requires Stack.Inv(m) && m.phase.Running? && w.Feasible(|m.mem|)
    ensures Leads(m, [Stays(w), Stack.MarkDead] + SwitchesOut(w, block), m') && Stack.Inv(m')
    ensures ControlOf(m') == ControlOf(m).(phase := Stack.Main, dead := ControlOf(m).dead + {m.phase.c})
  {
    hide Stack.Inv, Stack.Step;
    var k := Stack.Step(m, Stays(w));
    StepControl(m, Stays(w));
    assert ControlOf(k).phase == k.phase;
    var k' := Stack.Step(k, Stack.MarkDead);
    StepControl(k, Stack.MarkDead);
    assert ControlOf(k').phase == k'.phase;
    block, m' := SwitchOut(k', w);
    Then(m, [Stays(w)], k, [Stack.MarkDead], k');
    assert [Stays(w)] + [Stack.MarkDead] == [Stays(w), Stack.MarkDead];
    Then(m, [Stays(w), Stack.MarkDead], k', SwitchesOut(w, block), m');
  }

  lemma ResumeOnStack(m: Stack.Machine, w: Choice, c: Id, arg: Arg) returns (m': Stack.Machine)
    requires Stack.Inv(m) && m.phase.Main? && c in m.coros && !m.coros[c].dead && w.Feasible(|m.mem|)
    ensures Leads(m, [Stack.MainStep(w.mainRegs, w.os), Stack.Resume(c, arg, w.ret)], m') && Stack.Inv(m')
    ensures ControlOf(m') == ControlOf(m).(phase := Stack.Running(c), current := Some(c))
    ensures c in m'.coros && m'.coros[c].value == arg
  {
    hide Stack.Inv, Stack.Step;
    var s, r := Stack.MainStep(w.mainRegs, w.os), Stack.Resume(c, arg, w.ret);
    var k := Stack.Step(m, s);
    StepControl(m, s);
    assert c in ControlOf(m).ids && c !in ControlOf(m).dead;
    assert c in ControlOf(k).ids && c !in ControlOf(k).dead && ControlOf(k).phase == k.phase;
    m' := Stack.Step(k, r);
    StepControl(k, r);
    Then(m, [s], k, [r], m');
    assert [s] + [r] == [s, r];
  }

  // ---------------------------------------------------------------- steps of the scheduler

  /** What the scheduler's steps do to the same state. */
  lemma StepShape(q: System, l: Label, q': System, size: nat)
    requires StagingInv(q) && Enabled(q, l) && Step(q, l) == Next(q')
    ensures var k, k' := Expected(q, size), Expected(q', size);
      k' == if l.Resume? then k.(phase := Stack.Running(q.ready.staging[0].id), current := Some(q.ready.staging[0].id))
            else if l.Exit? then k.(phase := Stack.Main, dead := k.dead + {q.phase.c})
            else if Blocks(q, q') then k.(phase := Stack.Main)
            else if l.Spawn? then k.(ids := k.ids + {l.c})
            else k
    ensures l.Resume? ==> !q.phase.Running? && var e := q.ready.staging[0];
      e.id !in q.status.dead && e.id in q'.status.values && q'.status.values[e.id] == e.arg
    ensures l.Exit? ==> q.phase.Running? && !q'.phase.Running?
    ensures l.Spawn? ==> l.c !in q.status.spawned
    ensures q'.phase.Running? && !l.Resume? ==> q'.phase == q.phase && q'.status.values == q.status.values
    ensures q'.ready.resumed == q.ready.resumed + if l.Resume? then [q.ready.staging[0]] else []
  {
  }

  lemma CreateRecord(m: Stack.Machine, c: Id, junk: Stack.Regs) returns (m': Stack.Machine)
    requires Stack.Inv(m) && c !in m.coros
    ensures Leads(m, [Stack.New(c, junk)], m') && Stack.Inv(m')
    ensures ControlOf(m') == ControlOf(m).(ids := ControlOf(m).ids + {c})
    ensures forall d <- m.coros :: d in m'.coros && m'.coros[d] == m.coros[d]
  {
    StepControl(m, Stack.New(c, junk));
    m' := Stack.Step(m, Stack.New(c, junk));
  }

  lemma Nothing(m: Stack.Machine)
    ensures Leads(m, [], m)
  {
  }

  /** Each step of the scheduler is matched by its path on the stack machine, whatever is computed
      there. */
  lemma StepTogether(q: System, l: Label, q': System, m: Stack.Machine, size: nat, w: Choice)
    returns (block: Stack.Block, m': Stack.Machine)
    requires PlaceInv(q) && Enabled(q, l) && Step(q, l) == Next(q') && Coupled(q, m, size) && w.Feasible(size)
    ensures Leads(m, Path(q, l, q', w, block), m') && Coupled(q', m', size)
  {
    hide Stack.Inv, Stack.Step, Stack.Enabled, Step, Leads;
    StepShape(q, l, q', size);
    block, m' := 0, m;
    if l.Resume? {
      assert At(q, InStaging(0), q.ready.staging[0].id);
      assert q.ready.staging[0].id !in ControlOf(m).dead;
      m' := ResumeOnStack(m, w, q.ready.staging[0].id, q.ready.staging[0].arg);
    } else if l.Exit? {
      block, m' := DieOnStack(m, w);
    } else if Blocks(q, q') {
      block, m' := BlockOnStack(m, w);
    } else if l.Spawn? {
      assert l.c !in ControlOf(m).ids;
      m' := CreateRecord(m, l.c, w.junk);
    } else {
      Nothing(m);
    }
  }

  // ---------------------------------------------------------------- whole runs

  function Joined(paths: seq<seq<Stack.Label>>): seq<Stack.Label> {
    if paths == [] then [] else Joined(paths[..|paths| - 1]) + paths[|paths| - 1]
  }

  lemma JoinedNext(paths: seq<seq<Stack.Label>>, path: seq<Stack.Label>)
    ensures Joined(paths + [path]) == Joined(paths) + path
  {
    assert (paths + [path])[..|paths|] == paths;
  }

  /** The stack machine's states beside the first n states of a scheduler run, and the paths
      between them. */
  ghost predicate Beside(qs: seq<System>, ls: seq<Label>, ws: seq<Choice>, n: nat, boot: Stack.Machine,
                         ms: seq<Stack.Machine>, blocks: seq<Stack.Block>, paths: seq<seq<Stack.Label>>)
    requires IsRun(qs, ls) && n <= |ls| == |ws|
  {
    && |ms| == n + 1 && |paths| == |blocks| == n && ms[0] == boot
    && (forall j | 0 <= j <= n :: Coupled(qs[j], ms[j], |boot.mem|))
    && (forall j | 0 <= j < n ::
          paths[j] == Path(qs[j], ls[j], qs[j + 1], ws[j], blocks[j]) && Leads(ms[j], paths[j], ms[j + 1]))
  }

  lemma BesideNext(qs: seq<System>, ls: seq<Label>, ws: seq<Choice>, n: nat, boot: Stack.Machine,
                   ms: seq<Stack.Machine>, blocks: seq<Stack.Block>, paths: seq<seq<Stack.Label>>,
                   block: Stack.Block, m: Stack.Machine)
    requires IsRun(qs, ls) && n < |ls| == |ws| && Beside(qs, ls, ws, n, boot, ms, blocks, paths)
    requires Coupled(qs[n + 1], m, |boot.mem|)
    requires Leads(ms[n], Path(qs[n], ls[n], qs[n + 1], ws[n], block), m)
    ensures Beside(qs, ls, ws, n + 1, boot, ms + [m], blocks + [block],
                   paths + [Path(qs[n], ls[n], qs[n + 1], ws[n], block)])
  {
    hide Step, Leads, Coupled, Path, Enabled;
  }

  lemma PathResumes(q: System, l: Label, q': System, w: Choice, block: Stack.Block)
    requires StagingInv(q) && Enabled(q, l) && Step(q, l) == Next(q')
    ensures q'.ready.resumed == q.ready.resumed + Resumed(Path(q, l, q', w, block))
  {
    hide Step, Resumed;
    StepShape(q, l, q', 0);
    ResumedOfPath(q, l, q', w, block);
  }

  lemma ResumedOfPath(q: System, l: Label, q': System, w: Choice, block: Stack.Block)
    requires Enabled(q, l)
    ensures Resumed(Path(q, l, q', w, block)) == if l.Resume? then [q.ready.staging[0]] else []
  {
    hide Step, Resumed;
    var path := Path(q, l, q', w, block);
    if l.Resume? {
      NothingResumed(path[..1]);
      ResumedNext(path[..1], path[1]);
      assert path == path[..1] + [path[1]];
    } else {
      NothingResumed(path);
    }
  }

  /** Every run of the scheduler, from boot, has a run of the shared stack in step with it all the
      way, whatever the coroutines and the scheduler compute (ws): states beside its states, and
      between them the labels that carry out each step.  Together these are one execution, and the
      resumes in it are the scheduler's resumes, argument for argument. */
  lemma {:induction false} EveryScheduleRunsOnOneStack(qs: seq<System>, ls: seq<Label>, ws: seq<Choice>, n: nat,
                                                       boot: Stack.Machine)
    returns (ms: seq<Stack.Machine>, blocks: seq<Stack.Block>, paths: seq<seq<Stack.Label>>)
    requires IsRun(qs, ls) && n <= |ls| == |ws| && Refinement.Boot(boot)
    requires forall w <- ws ::
      && 0 < w.regs.sp <= Stack.STACK_TOP && |w.stack| == Stack.STACK_TOP
      && Stack.STACK_TOP < w.mainRegs.sp <= |boot.mem| && Stack.STACK_TOP + |w.os| == |boot.mem|
    ensures Beside(qs, ls, ws, n, boot, ms, blocks, paths)
    ensures Leads(boot, Joined(paths), ms[n])
    ensures Resumed(Joined(paths)) == qs[n].ready.resumed
  {
    hide Step, Leads, Coupled, Path, Enabled, Resumed, Joined;
    if n == 0 {
      ms, blocks, paths := [boot], [], [];
      BootCoupled(qs[0], boot);
    } else {
      var k := n - 1;
      ms, blocks, paths := EveryScheduleRunsOnOneStack(qs, ls, ws, k, boot);
      RunKeepsPlaces(qs, ls, k);
      var block, m := StepTogether(qs[k], ls[k], qs[n], ms[k], |boot.mem|, ws[k]);
      BesideNext(qs, ls, ws, k, boot, ms, blocks, paths, block, m);
      var path := Path(qs[k], ls[k], qs[n], ws[k], block);
      Then(boot, Joined(paths), ms[k], path, m);
      JoinedNext(paths, path);
      ResumedJoins(Joined(paths), path);
      PathResumes(qs[k], ls[k], qs[n], ws[k], block);
      ms, blocks, paths := ms + [m], blocks + [block], paths + [path];
    }
  }

  lemma BootCoupled(q: System, boot: Stack.Machine)
    requires Initial(q) && Refinement.Boot(boot)
    ensures Coupled(q, boot, |boot.mem|) && Leads(boot, Joined([]), boot) && Resumed(Joined([])) == q.ready.resumed
  {
  }
}
