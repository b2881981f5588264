/** The shared-stack machine refines the machine in which every coroutine owns a private stack. */
module StackRefinement {
  import opened Options
  import opened SharedStack

  // ---------------------------------------------------------------- one step

  /** Copying a coroutine back, with main's return address pushed above the stack and its own
      stored once more by __swap, rebuilds exactly the words it was parked with. */
  lemma RestoreRebuilds(mem: seq<Word>, st: Regs, words: seq<Word>, i: int, ret: Word)
    requires 0 <= st.sp < STACK_TOP <= i < |mem|
    requires |words| == STACK_TOP - st.sp && words[0] == st.ip
    ensures Blit(mem, st.sp, words)[i := ret][st.sp := st.ip][st.sp + 1..STACK_TOP] == words[1..]
  {
  }

  /** A coroutine whose record and block a step leaves alone keeps its invariant and context. */
  lemma Untouched(m: Machine, m': Machine, d: Id)
    requires ControlInv(m) && ControlInv(m')
    requires d in m.coros && d in m'.coros && m'.coros[d] == m.coros[d]
    requires !OnStack(m, d) && !OnStack(m', d) && CoroInv(m, d)
    requires Parked(m, d) ==>
      m.coros[d].copy.value in m'.heap && m'.heap[m.coros[d].copy.value] == m.heap[m.coros[d].copy.value]
    ensures CoroInv(m', d) && ThreadOf(m', d) == ThreadOf(m, d)
  {
  }

  lemma PrepareKeepsMain(m: Machine, c: Id)
    requires ControlInv(m) && m.phase.Main? && c in m.coros && CoroInv(m, c) && !m.coros[c].dead
    ensures var p := Prepare(m, c);
      && |p.mem| == |m.mem| && p.mem[STACK_TOP..] == m.mem[STACK_TOP..]
      && p.k.started && !p.k.dead && 0 <= p.k.state.sp < STACK_TOP
  {
  }

  /** Pushing the return address at s - 1 and writing below the boundary `top` leaves the words
      from s on alone. */
  lemma MainWordsStay(mem: seq<Word>, mem0: seq<Word>, top: nat, s: nat, ret: Word, at: nat, ip: Word)
    requires |mem| == |mem0| && at < top < s <= |mem| && mem[top..] == mem0[top..]
    ensures mem[s - 1 := ret][at := ip][s - 1..][1..] == mem0[s..]
  {
  }

  lemma ResumeControl(m: Machine, c: Id, arg: Word, ret: Word)
    requires Inv(m) && Enabled(m, Resume(c, arg, ret))
    ensures ControlInv(DoResume(m, c, arg, ret))
    ensures MainContext(DoResume(m, c, arg, ret)) == ReturnTo(MainContext(m), ret)
  {
    var m' := DoResume(m, c, arg, ret);
    assert CoroInv(m, c);
    PrepareKeepsMain(m, c);
    var p := Prepare(m, c);
    MainWordsStay(p.mem, m.mem, STACK_TOP, m.cpu.sp, ret, p.k.state.sp, p.k.state.ip);
    assert m'.main == m.cpu.(sp := m.cpu.sp - 1, ip := ret);
  }

  /** The resumed coroutine gets the context it was parked with, or an initial one. */
  lemma ResumeContext(m: Machine, c: Id, arg: Word, ret: Word)
    requires Inv(m) && Enabled(m, Resume(c, arg, ret))
    ensures var m' := DoResume(m, c, arg, ret);
      && ControlInv(m') && CoroInv(m', c) && ThreadOf(m', c).Live?
      && CoroInv(m, c)
      && (if m.coros[c].started then ThreadOf(m', c) == ThreadOf(m, c) else Initial(c, ThreadOf(m', c).ctx))
  {
    ResumeControl(m, c, arg, ret);
    var m', k := DoResume(m, c, arg, ret), m.coros[c];
    assert CoroInv(m, c);
    if k.started {
      var words := m.heap[k.copy.value].words;
      RestoreRebuilds(m.mem, k.state, words, m.cpu.sp - 1, ret);
      assert m'.cpu == k.state.(sp := k.state.sp + 1);
    }
  }

  lemma ResumeOthers(m: Machine, c: Id, arg: Word, ret: Word, d: Id)
    requires Inv(m) && Enabled(m, Resume(c, arg, ret)) && d in m.coros && d != c
    ensures var m' := DoResume(m, c, arg, ret);
      ControlInv(m') && CoroInv(m', d) && CoroInv(m, d) && ThreadOf(m', d) == ThreadOf(m, d)
  {
    ResumeControl(m, c, arg, ret);
    assert CoroInv(m, c) && CoroInv(m, d);
    Untouched(m, DoResume(m, c, arg, ret), d);
  }

  lemma ResumeKeepsInv(m: Machine, c: Id, arg: Word, ret: Word)
    requires Inv(m) && Enabled(m, Resume(c, arg, ret))
    ensures Inv(DoResume(m, c, arg, ret))
  {
    var m' := DoResume(m, c, arg, ret);
    ResumeControl(m, c, arg, ret);
    ResumeContext(m, c, arg, ret);
    forall d <- m.coros | d != c ensures CoroInv(m', d) { ResumeOthers(m, c, arg, ret, d); }
    forall b <- m'.heap ensures BlockInv(m', b) { assert BlockInv(m, b); }
  }

  lemma ResumeRefines(m: Machine, c: Id, arg: Word, ret: Word)
    requires Inv(m) && Enabled(m, Resume(c, arg, ret))
    ensures Inv(DoResume(m, c, arg, ret))
    ensures PrivateNext(Abs(m), Resume(c, arg, ret), Abs(DoResume(m, c, arg, ret)))
  {
    var m' := DoResume(m, c, arg, ret);
    ResumeKeepsInv(m, c, arg, ret);
    ResumeControl(m, c, arg, ret);
    ResumeContext(m, c, arg, ret);
    forall d <- m.coros | d != c ensures ThreadOf(m', d) == ThreadOf(m, d) { ResumeOthers(m, c, arg, ret, d); }
    assert Abs(m').dying == Abs(m).dying;
  }

  lemma YieldControl(m: Machine, arg: Word, ret: Word)
    requires Inv(m) && m.phase.Running?
    ensures var m', c := DoYield(m, arg, ret), m.phase.c;
      && ControlInv(m') && MainContext(m') == MainContext(m)
      && CoroInv(m, c) && CoroInv(m', c)
      && ThreadOf(m, c).Live? && ThreadOf(m', c) == Live(ReturnTo(ThreadOf(m, c).ctx, ret))
  {
  }

  lemma YieldRefines(m: Machine, arg: Word, ret: Word)
    requires Inv(m) && m.phase.Running?
    ensures Inv(DoYield(m, arg, ret))
    ensures PrivateNext(Abs(m), Yield(arg, ret), Abs(DoYield(m, arg, ret)))
  {
    var m', c := DoYield(m, arg, ret), m.phase.c;
    YieldControl(m, arg, ret);
    forall d <- m.coros | d != c
      ensures CoroInv(m', d) && ThreadOf(m', d) == ThreadOf(m, d)
    {
      Untouched(m, m', d);
    }
    forall b <- m'.heap ensures BlockInv(m', b) {
      assert BlockInv(m, b);
    }
    assert Abs(m').dying == Abs(m).dying;
    assert Abs(m').threads == Abs(m).threads[c := Live(ReturnTo(Abs(m).threads[c].ctx, ret))];
  }

  lemma SettleKeepsInv(m: Machine, block: Block)
    requires Inv(m) && Enabled(m, Settle(block))
    ensures Inv(DoSettle(m, block))
    ensures forall d <- m.coros | d != m.phase.c :: ThreadOf(DoSettle(m, block), d) == ThreadOf(m, d)
  {
    var m', c := DoSettle(m, block), m.phase.c;
    forall d <- m.coros | d != c
      ensures CoroInv(m', d) && ThreadOf(m', d) == ThreadOf(m, d)
    {
      assert CoroInv(m, d);
      Untouched(m, m', d);
    }
    assert CoroInv(m, c) && CoroInv(m', c);
    forall b <- m'.heap ensures BlockInv(m', b) {
      if b in m.heap { assert BlockInv(m, b); }
    }
  }

  lemma SettleRefines(m: Machine, block: Block)
    requires Inv(m) && Enabled(m, Settle(block))
    ensures Inv(DoSettle(m, block))
    ensures PrivateNext(Abs(m), Settle(block), Abs(DoSettle(m, block)))
  {
    var m', c := DoSettle(m, block), m.phase.c;
    SettleKeepsInv(m, block);
    assert ThreadOf(m', c) == if m.coros[c].dead then Gone else ThreadOf(m, c);
    assert MainContext(m') == MainContext(m);
    assert Abs(m').dying == Abs(m).dying;
    assert Abs(m').threads == if m.coros[c].dead then Abs(m).threads[c := Gone] else Abs(m).threads;
  }

  /** Steps that neither switch nor copy. */
  lemma LocalStepInv(m: Machine, l: Label)
    requires Inv(m) && Enabled(m, l) && (l.New? || l.MainStep? || l.Body? || l.MarkDead?)
    ensures Inv(Step(m, l))
    ensures forall d <- m.coros | !OnStack(m, d) :: ThreadOf(Step(m, l), d) == ThreadOf(m, d)
    ensures !l.MainStep? ==> MainContext(Step(m, l)) == MainContext(m)
  {
    var m' := Step(m, l);
    if l.Body? { assert m'.mem[m.main.sp..] == m.mem[m.main.sp..]; }
    forall d <- m.coros | !OnStack(m, d)
      ensures CoroInv(m', d) && ThreadOf(m', d) == ThreadOf(m, d)
    {
      Untouched(m, m', d);
    }
    forall b <- m'.heap ensures BlockInv(m', b) {
      assert BlockInv(m, b);
    }
  }

  lemma BodyRefines(m: Machine, regs: Regs, stack: seq<Word>)
    requires Inv(m) && Enabled(m, Body(regs, stack))
    ensures Inv(Step(m, Body(regs, stack)))
    ensures PrivateNext(Abs(m), Body(regs, stack), Abs(Step(m, Body(regs, stack))))
  {
    LocalStepInv(m, Body(regs, stack));
    var m', c := Step(m, Body(regs, stack)), m.phase.c;
    assert m'.mem[regs.sp..STACK_TOP] == stack[regs.sp..];
    assert ThreadOf(m', c) == Live(Context(regs, stack[regs.sp..]));
    assert Abs(m').threads == Abs(m).threads[c := ThreadOf(m', c)];
    assert Abs(m').dying == Abs(m).dying;
  }

  lemma MainStepRefines(m: Machine, regs: Regs, os: seq<Word>)
    requires Inv(m) && Enabled(m, MainStep(regs, os))
    ensures Inv(Step(m, MainStep(regs, os)))
    ensures PrivateNext(Abs(m), MainStep(regs, os), Abs(Step(m, MainStep(regs, os))))
  {
    LocalStepInv(m, MainStep(regs, os));
    var m' := Step(m, MainStep(regs, os));
    assert m'.mem[regs.sp..] == os[regs.sp - STACK_TOP..];
    assert Abs(m').threads == Abs(m).threads;
    assert Abs(m').dying == Abs(m).dying;
  }

  lemma NewRefines(m: Machine, c: Id, junk: Regs)
    requires Inv(m) && Enabled(m, New(c, junk))
    ensures Inv(Step(m, New(c, junk)))
    ensures PrivateNext(Abs(m), New(c, junk), Abs(Step(m, New(c, junk))))
  {
    LocalStepInv(m, New(c, junk));
    var m' := Step(m, New(c, junk));
    forall d <- m.coros ensures ThreadOf(m', d) == ThreadOf(m, d) {
      assert CoroInv(m, d) && CoroInv(m', d);
    }
    assert Abs(m').threads == Abs(m).threads[c := Fresh];
    assert Abs(m').dying == Abs(m).dying;
  }

  lemma MarkDeadRefines(m: Machine)
    requires Inv(m) && Enabled(m, MarkDead)
    ensures Inv(Step(m, MarkDead))
    ensures PrivateNext(Abs(m), MarkDead, Abs(Step(m, MarkDead)))
  {
    LocalStepInv(m, MarkDead);
    var m', c := Step(m, MarkDead), m.phase.c;
    assert ThreadOf(m', c) == ThreadOf(m, c);
    assert Abs(m').threads == Abs(m).threads;
    assert Abs(m').dying == Abs(m).dying + {c};
  }

  /** Every step of the shared-stack machine keeps the invariant, heap-copy accounting included,
      and is the same step of the private-stack machine. */
  lemma StepRefines(m: Machine, l: Label)
    requires Inv(m) && Enabled(m, l)
    ensures Inv(Step(m, l))
    ensures PrivateNext(Abs(m), l, Abs(Step(m, l)))
  {
    match l
    case Resume(c, arg, ret) => ResumeRefines(m, c, arg, ret);
    case Yield(arg, ret) => YieldRefines(m, arg, ret);
    case Settle(block) => SettleRefines(m, block);
    case Body(regs, stack) => BodyRefines(m, regs, stack);
    case MainStep(regs, os) => MainStepRefines(m, regs, os);
    case New(c, junk) => NewRefines(m, c, junk);
    case MarkDead => MarkDeadRefines(m);
  }

  // ---------------------------------------------------------------- whole runs

  /** A state in which no coroutine exists yet. */
  predicate Boot(m: Machine) {
    && m.coros == map[] && m.heap == map[] && m.phase.Main? && m.current.None? && STACK_TOP < m.cpu.sp <= |m.mem|
  }

  /** The sequence of states visited by the labels, from an initial state.  That a step can be
      computed where the invariant holds is all that is said here; RunInv shows that it always does. */
  ghost predicate IsRun(ms: seq<Machine>, ls: seq<Label>) {
    && |ms| == |ls| + 1 && Boot(ms[0])
    && forall i | 0 <= i < |ls| && Inv(ms[i]) :: Enabled(ms[i], ls[i]) && ms[i + 1] == Step(ms[i], ls[i])
  }

  lemma RunExtends(ms: seq<Machine>, ls: seq<Label>, l: Label)
    requires IsRun(ms, ls) && Inv(ms[|ls|]) && Enabled(ms[|ls|], l)
    ensures IsRun(ms + [Step(ms[|ls|], l)], ls + [l]) && Inv(Step(ms[|ls|], l))
  {
    hide Step, Enabled, Inv;
    StepRefines(ms[|ls|], l);
    var ms', ls' := ms + [Step(ms[|ls|], l)], ls + [l];
    forall i | 0 <= i < |ls'| && Inv(ms'[i]) ensures Enabled(ms'[i], ls'[i]) && ms'[i + 1] == Step(ms'[i], ls'[i]) {
      if i < |ls| { assert ms'[i] == ms[i] && ls'[i] == ls[i] && ms'[i + 1] == ms[i + 1]; }
    }
  }

  /** The invariant holds in every state of every run. */
  lemma {:induction false} RunInv(ms: seq<Machine>, ls: seq<Label>, i: nat)
    requires IsRun(ms, ls) && i <= |ls|
    ensures Inv(ms[i])
  {
    if i > 0 {
      hide Step, Enabled, Inv;
      RunInv(ms, ls, i - 1);
      StepRefines(ms[i - 1], ls[i - 1]);
    }
  }

  /** Step i of a run. */
  lemma RunStep(ms: seq<Machine>, ls: seq<Label>, i: nat)
    requires IsRun(ms, ls) && i < |ls|
    ensures Inv(ms[i]) && Enabled(ms[i], ls[i]) && ms[i + 1] == Step(ms[i], ls[i]) && Inv(ms[i + 1])
  {
    hide Step, Enabled, Inv;
    RunInv(ms, ls, i);
    RunInv(ms, ls, i + 1);
  }

  /** Refinement: the abstraction of any run is a run of private stacks under the same labels. */
  lemma RunRefines(ms: seq<Machine>, ls: seq<Label>)
    requires IsRun(ms, ls)
    ensures forall i | 0 <= i <= |ls| :: Inv(ms[i])
    ensures forall i | 0 <= i < |ls| :: PrivateNext(Abs(ms[i]), ls[i], Abs(ms[i + 1]))
  {
    hide Step, Enabled, Inv, PrivateNext;
    forall i | 0 <= i <= |ls| ensures Inv(ms[i]) { RunInv(ms, ls, i); }
    forall i | 0 <= i < |ls| ensures PrivateNext(Abs(ms[i]), ls[i], Abs(ms[i + 1])) {
      RunStep(ms, ls, i);
      StepRefines(ms[i], ls[i]);
    }
  }

  /** Parked with context ctx, or just switched out and about to be parked. */
  predicate SwitchedOut(m: Machine, c: Id, ctx: Context) {
    && ControlInv(m) && c in m.coros && CoroInv(m, c)
    && m.phase != Running(c) && !m.coros[c].dead && ThreadOf(m, c) == Live(ctx)
  }

  lemma SwitchedOutStep(m: Machine, l: Label, c: Id, ctx: Context)
    requires Inv(m) && Enabled(m, l) && SwitchedOut(m, c, ctx)
    requires !(l.Resume? && l.c == c)
    ensures SwitchedOut(Step(m, l), c, ctx)
  {
    StepRefines(m, l);
    var m' := Step(m, l);
    var p, p' := Abs(m), Abs(m');
    assert p.threads[c] == Live(ctx) && c !in p.dying;
    assert p'.threads[c] == Live(ctx) && c !in p'.dying;
    assert CoroInv(m', c);
  }

  /** Between its yield and its next resume nothing anyone does changes a coroutine's context. */
  lemma {:induction false} StaysSwitchedOut(ms: seq<Machine>, ls: seq<Label>, c: Id, ctx: Context, a: nat, b: nat)
    requires IsRun(ms, ls) && a <= b <= |ls|
    requires SwitchedOut(ms[a], c, ctx)
    requires forall i | a <= i < b :: !(ls[i].Resume? && ls[i].c == c)
    ensures SwitchedOut(ms[b], c, ctx)
    decreases b
  {
    if a < b {
      hide Step, Enabled, Inv, SwitchedOut;
      StaysSwitchedOut(ms, ls, c, ctx, a, b - 1);
      RunStep(ms, ls, b - 1);
      SwitchedOutStep(ms[b - 1], ls[b - 1], c, ctx);
    }
  }

  /** In every run and interleaving, a coroutine that yields with return address ret continues at
      ret with exactly the callee-saved registers and the words [sp, top) it had, and its yield
      returns the argument of the resume. */
  lemma ResumeSeesWhatYieldLeft(ms: seq<Machine>, ls: seq<Label>, c: Id, a: nat, b: nat)
    requires IsRun(ms, ls) && a < b < |ls|
    requires ms[a].phase == Running(c) && ls[a].Yield? && c in ms[a].coros && !ms[a].coros[c].dead
    requires ls[b].Resume? && ls[b].c == c
    requires forall i | a < i < b :: !(ls[i].Resume? && ls[i].c == c)
    ensures ms[b + 1].phase == Running(c)
    ensures ms[b + 1].cpu == ms[a].cpu.(ip := ls[a].ret)
    ensures ms[b + 1].current == Some(c) && c in ms[b + 1].coros && YieldResult(ms[b + 1]) == ls[b].arg
    ensures 0 < ms[a].cpu.sp <= STACK_TOP < |ms[a].mem| && STACK_TOP < |ms[b + 1].mem|
    ensures ms[b + 1].mem[ms[a].cpu.sp..STACK_TOP] == ms[a].mem[ms[a].cpu.sp..STACK_TOP]
  {
    RunStep(ms, ls, a);
    var ctx := ReturnTo(Context(ms[a].cpu, ms[a].mem[ms[a].cpu.sp..STACK_TOP]), ls[a].ret);
    YieldControl(ms[a], ls[a].arg, ls[a].ret);
    StaysSwitchedOut(ms, ls, c, ctx, a + 1, b);
    RunStep(ms, ls, b);
    ResumeContext(ms[b], c, ls[b].arg, ls[b].ret);
  }

  lemma MainWaitsStep(m: Machine, l: Label)
    requires Inv(m) && Enabled(m, l) && m.phase.Running? && !l.Yield?
    ensures Inv(Step(m, l)) && Step(m, l).phase == m.phase && MainContext(Step(m, l)) == MainContext(m)
  {
    LocalStepInv(m, l);
  }

  lemma {:induction false} MainWaits(ms: seq<Machine>, ls: seq<Label>, a: nat, b: nat)
    requires IsRun(ms, ls) && a <= b <= |ls| && ControlInv(ms[a])
    requires ms[a].phase.Running? && forall i | a <= i < b :: !ls[i].Yield?
    ensures ControlInv(ms[b]) && ms[b].phase == ms[a].phase && MainContext(ms[b]) == MainContext(ms[a])
    decreases b
  {
    if a < b {
      hide Step, Enabled, Inv;
      MainWaits(ms, ls, a, b - 1);
      RunStep(ms, ls, b - 1);
      MainWaitsStep(ms[b - 1], ls[b - 1]);
    }
  }

  lemma MainLeaves(m: Machine, l: Label)
    requires Inv(m) && Enabled(m, l) && l.Resume?
    ensures STACK_TOP < m.cpu.sp <= |m.mem| && ControlInv(Step(m, l)) && Step(m, l).phase == Running(l.c)
    ensures MainContext(Step(m, l)) == Context(m.cpu.(ip := l.ret), m.mem[m.cpu.sp..])
  {
    ResumeControl(m, l.c, l.arg, l.ret);
  }

  lemma MainReturns(m: Machine, l: Label)
    requires Inv(m) && Enabled(m, l) && l.Yield?
    ensures var m' := Step(m, l);
      && m'.phase == Returned(m.phase.c) && 0 <= m'.cpu.sp <= |m'.mem|
      && MainContext(m) == Context(m'.cpu, m'.mem[m'.cpu.sp..])
  {
    YieldControl(m, l.arg, l.ret);
  }

  /** The converse switch: whatever the resumed coroutine does to the shared stack before it
      yields, run_pending continues at its own return address with its own registers and words. */
  lemma MainSeesWhatResumeLeft(ms: seq<Machine>, ls: seq<Label>, a: nat, b: nat)
    requires IsRun(ms, ls) && a < b < |ls|
    requires ls[a].Resume? && ls[b].Yield? && forall i | a < i < b :: !ls[i].Yield?
    ensures ms[b + 1].phase == Returned(ls[a].c)
    ensures ms[b + 1].cpu == ms[a].cpu.(ip := ls[a].ret)
    ensures STACK_TOP < ms[a].cpu.sp <= |ms[a].mem| && |ms[b + 1].mem| >= ms[a].cpu.sp
    ensures ms[b + 1].mem[ms[a].cpu.sp..] == ms[a].mem[ms[a].cpu.sp..]
  {
    hide Step, Enabled, Inv, MainContext;
    RunStep(ms, ls, a);
    MainLeaves(ms[a], ls[a]);
    MainWaits(ms, ls, a + 1, b);
    RunStep(ms, ls, b);
    MainReturns(ms[b], ls[b]);
  }

  /** Heap-copy accounting over runs: at every point the live blocks are exactly the copies of
      coroutines that are started, not dead and not on the stack, and there are as many blocks as
      such coroutines. */
  lemma CopiesAreExact(ms: seq<Machine>, ls: seq<Label>, i: nat)
    requires IsRun(ms, ls) && i <= |ls|
    ensures var m := ms[i];
      && (forall b :: b in m.heap <==> exists c :: Parked(m, c) && m.coros[c].copy == Some(b))
      && |m.heap.Keys| == |set c | c in m.coros && Parked(m, c)|
  {
    RunInv(ms, ls, i);
    var m := ms[i];
    forall b ensures b in m.heap <==> exists c :: Parked(m, c) && m.coros[c].copy == Some(b) {
      if b in m.heap { assert BlockInv(m, b); }
      if c :| Parked(m, c) && m.coros[c].copy == Some(b) { assert CoroInv(m, c); }
    }
    var parked := set c | c in m.coros && Parked(m, c);
    OneBlockEach(m, m.heap.Keys, parked);
  }

  lemma {:induction false} OneBlockEach(m: Machine, bs: set<Block>, cs: set<Id>)
    requires Inv(m) && bs <= m.heap.Keys && forall c <- cs :: Parked(m, c)
    requires forall b <- bs :: m.heap[b].owner in cs
    requires forall c <- cs :: c in m.coros && CoroInv(m, c) && m.coros[c].copy.value in bs
    ensures |bs| == |cs|
    decreases cs
  {
    if cs == {} {
      assert bs == {};
    } else {
      var c :| c in cs;
      var b := m.coros[c].copy.value;
      forall b' <- bs - {b} ensures m.heap[b'].owner in cs - {c} { assert BlockInv(m, b'); }
      OneBlockEach(m, bs - {b}, cs - {c});
    }
  }
}
