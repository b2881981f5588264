/** One stack for all coroutines.  The machine below executes create, preserve, restore, resume,
    yield and __swap on a single flat memory: words [0, STACK_TOP) are the coroutine stack and the
    words above it are the main thread's own stack.  Stack pointers are indices into that memory. */
module SharedStack {
  import opened Options

  type Word = int
  type Id = nat
  type Block = nat

  /** 4 MB of 8-byte words. */
  const STACK_TOP: nat := 4 * 1024 * 1024 / 8
  /** The code address of _wrap0, and the word that a coroutine's `this` pointer occupies. */
  const WRAP0: Word := 0x1000
  function This(c: Id): Word { c }

  /** The x86_64 machine_state; also used for the processor's own registers. */
  datatype Regs = Regs(sp: int, bp: Word, ip: Word, bx: Word, r12: Word, r13: Word, r14: Word, r15: Word)

  datatype Coro = Coro(state: Regs, copy: Option<Block>, started: bool, dead: bool, value: Word)

  /** Returned(c): control is back in run_pending, c's frames still lie on the stack. */
  datatype Phase = Main | Running(c: Id) | Returned(c: Id)

  /** A malloc'ed stack copy, with the coroutine whose preserve() allocated it. */
  datatype Copy = Copy(owner: Id, words: seq<Word>)

  datatype Machine = Machine(
    mem: seq<Word>, cpu: Regs, main: Regs, heap: map<Block, Copy>,
    coros: map<Id, Coro>, current: Option<Id>, phase: Phase)

  // ---------------------------------------------------------------- instructions

  datatype Switched = Switched(saved: Regs, mem: seq<Word>, cpu: Regs)

  /** __swap: save the registers and the return address found at (%rsp), load the other set,
      store its instruction pointer at the new (%rsp), and return through it. */
  function Swap(mem: seq<Word>, cpu: Regs, to: Regs): Switched
    requires 0 <= cpu.sp < |mem| && 0 <= to.sp < |mem|
  {
    Switched(cpu.(ip := mem[cpu.sp]), mem[to.sp := to.ip], to.(sp := to.sp + 1))
  }

  /** The call instruction pushes the return address. */
  function Call(mem: seq<Word>, cpu: Regs, ret: Word): (seq<Word>, Regs)
    requires 0 < cpu.sp <= |mem|
  {
    (mem[cpu.sp - 1 := ret], cpu.(sp := cpu.sp - 1))
  }

  /** coro::create */
  function CreateMem(mem: seq<Word>, c: Id): seq<Word>
    requires |mem| >= STACK_TOP
  {
    mem[STACK_TOP - 5 := 0][STACK_TOP - 4 := This(c)]
  }

  function Created(k: Coro): Coro {
    k.(state := k.state.(sp := STACK_TOP - 6, bp := STACK_TOP - 5, ip := WRAP0), started := true)
  }

  /** memcpy (mem + at, words, |words|) */
  function Blit(mem: seq<Word>, at: int, words: seq<Word>): (r: seq<Word>)
    requires 0 <= at <= at + |words| <= |mem|
    ensures |r| == |mem|
  {
    mem[..at] + words + mem[at + |words|..]
  }

  /** Malloc never runs out of addresses. */
  ghost function Unused(used: set<Block>): (n: Block)
    ensures forall b <- used :: b < n
  {
    if used == {} then 0
    else
      var b :| b in used;
      var n := Unused(used - {b});
      assert forall a <- used :: a == b || a in used - {b};
      if b < n then n else b + 1
  }

  // ---------------------------------------------------------------- transitions

  datatype Label =
    | New(c: Id, junk: Regs)                    // coro::coro leaves _state uninitialised
    | MainStep(regs: Regs, os: seq<Word>)       // the scheduler computes on its own stack
    | Resume(c: Id, arg: Word, ret: Word)       // coro::resume up to the switch
    | Body(regs: Regs, stack: seq<Word>)        // the running coroutine computes
    | MarkDead                                  // _wrap1 after the thread function returned
    | Yield(arg: Word, ret: Word)               // coro::yield up to the switch
    | Settle(block: Block)                      // run_pending after resume: preserve, unless dead

  predicate Enabled(m: Machine, l: Label) {
    match l
    case New(c, _) => c !in m.coros
    case MainStep(regs, os) => m.phase.Main? && STACK_TOP < regs.sp <= |m.mem| && STACK_TOP + |os| == |m.mem|
    case Resume(c, _, _) => m.phase.Main? && c in m.coros && !m.coros[c].dead
    case Body(regs, stack) => m.phase.Running? && 0 < regs.sp <= STACK_TOP && |stack| == STACK_TOP
    case MarkDead => m.phase.Running?
    case Yield(_, _) => m.phase.Running?
    case Settle(block) => m.phase.Returned? && block !in m.heap
  }

  datatype Prepared = Prepared(k: Coro, mem: seq<Word>, heap: map<Block, Copy>)

  /** The first half of coro::resume: create on the first run, restore a saved copy. */
  function Prepare(m: Machine, c: Id): Prepared
    requires ControlInv(m) && m.phase.Main? && c in m.coros && CoroInv(m, c) && !m.coros[c].dead
  {
    var first := !m.coros[c].started;
    var k := if first then Created(m.coros[c]) else m.coros[c];
    var mem1 := if first then CreateMem(m.mem, c) else m.mem;
    if k.copy.Some? then
      Prepared(k.(copy := None), Blit(mem1, k.state.sp, m.heap[k.copy.value].words), m.heap - {k.copy.value})
    else Prepared(k, mem1, m.heap)
  }

  /** coro::resume: prepare the stack, and switch away from main. */
  function DoResume(m: Machine, c: Id, arg: Word, ret: Word): Machine
    requires ControlInv(m) && Enabled(m, Resume(c, arg, ret)) && CoroInv(m, c)
  {
    var p := Prepare(m, c);
    var (mem1, cpu) := Call(p.mem, m.cpu, ret);
    var sw := Swap(mem1, cpu, p.k.state);
    m.(mem := sw.mem, cpu := sw.cpu, main := sw.saved, heap := p.heap,
       coros := m.coros[c := p.k.(value := arg)], current := Some(c), phase := Running(c))
  }

  /** coro::yield */
  function DoYield(m: Machine, arg: Word, ret: Word): Machine
    requires ControlInv(m) && m.phase.Running?
  {
    var c := m.phase.c;
    var (mem1, cpu) := Call(m.mem, m.cpu, ret);
    var sw := Swap(mem1, cpu, m.main);
    m.(mem := sw.mem, cpu := sw.cpu,
       coros := m.coros[c := m.coros[c].(value := arg, state := sw.saved)], phase := Returned(c))
  }

  /** The tail of run_pending's loop body: coro::preserve unless the coroutine died. */
  function DoSettle(m: Machine, block: Block): Machine
    requires ControlInv(m) && m.phase.Returned?
  {
    var k := m.coros[m.phase.c];
    if k.dead then m.(phase := Main)
    else m.(heap := m.heap[block := Copy(m.phase.c, m.mem[k.state.sp..STACK_TOP])],
            coros := m.coros[m.phase.c := k.(copy := Some(block))], phase := Main)
  }

  function DoBody(m: Machine, regs: Regs, stack: seq<Word>): Machine
    requires |m.mem| >= STACK_TOP
  {
    m.(cpu := regs, mem := stack + m.mem[STACK_TOP..])
  }

  function DoMarkDead(m: Machine): Machine
    requires m.phase.Running? && m.phase.c in m.coros
  {
    m.(coros := m.coros[m.phase.c := m.coros[m.phase.c].(dead := true)])
  }

  /** What yield returns once control is back: _current->_value. */
  function YieldResult(m: Machine): Word
    requires m.current.Some? && m.current.value in m.coros
  {
    m.coros[m.current.value].value
  }

  function Step(m: Machine, l: Label): Machine
    requires Inv(m) && Enabled(m, l)
  {
    match l
    case New(c, junk) => m.(coros := m.coros[c := Coro(junk, None, false, false, 0)])
    case MainStep(regs, os) => m.(cpu := regs, mem := m.mem[..STACK_TOP] + os)
    case Resume(c, arg, ret) => DoResume(m, c, arg, ret)
    case Body(regs, stack) => DoBody(m, regs, stack)
    case MarkDead => DoMarkDead(m)
    case Yield(arg, ret) => DoYield(m, arg, ret)
    case Settle(block) => DoSettle(m, block)
  }

  // ---------------------------------------------------------------- invariant

  predicate OnStack(m: Machine, c: Id) {
    !m.phase.Main? && m.phase.c == c
  }

  /** Started, not dead, and not occupying the shared stack. */
  predicate Parked(m: Machine, c: Id) {
    c in m.coros && m.coros[c].started && !m.coros[c].dead && !OnStack(m, c)
  }

  /** A parked coroutine holds one live block: its words, beginning with its return address.
      A fresh, dead or on-stack coroutine holds none. */
  predicate CoroInv(m: Machine, c: Id)
    requires c in m.coros
  {
    var k := m.coros[c];
    if !Parked(m, c) then k.copy.None?
    else
      && k.copy.Some? && k.copy.value in m.heap && m.heap[k.copy.value].owner == c
      && 0 <= k.state.sp < STACK_TOP
      && |m.heap[k.copy.value].words| == STACK_TOP - k.state.sp
      && m.heap[k.copy.value].words[0] == k.state.ip
  }

  /** No block is leaked: each is the copy of the parked coroutine that allocated it. */
  predicate BlockInv(m: Machine, b: Block)
    requires b in m.heap
  {
    Parked(m, m.heap[b].owner) && m.coros[m.heap[b].owner].copy == Some(b)
  }

  predicate ControlInv(m: Machine) {
    && |m.mem| > STACK_TOP
    && (!m.phase.Main? ==>
          && m.phase.c in m.coros && m.coros[m.phase.c].started
          && m.current == Some(m.phase.c))
    && (m.current.Some? ==>
          m.current.value in m.coros && m.coros[m.current.value].started && STACK_TOP <= m.main.sp < |m.mem|)
    && (if m.phase.Running? then
          0 < m.cpu.sp <= STACK_TOP && m.mem[m.main.sp] == m.main.ip
        else STACK_TOP < m.cpu.sp <= |m.mem|)
    && (m.phase.Returned? ==>
          var st := m.coros[m.phase.c].state;
          0 <= st.sp < STACK_TOP && m.mem[st.sp] == st.ip)
    && (forall c <- m.coros :: m.coros[c].dead ==> m.coros[c].started)
  }

  /** The live heap blocks are exactly the copies of parked coroutines, one each. */
  predicate CopyAccounting(m: Machine) {
    && (forall c <- m.coros :: CoroInv(m, c))
    && (forall b <- m.heap :: BlockInv(m, b))
  }

  predicate Inv(m: Machine) {
    ControlInv(m) && CopyAccounting(m)
  }

  // ---------------------------------------------------------------- private stacks

  /** What a thread of control owns: its registers and the words from its stack pointer up. */
  datatype Context = Context(regs: Regs, words: seq<Word>)

  datatype Thread = Fresh | Live(ctx: Context) | Gone

  datatype Private = Private(threads: map<Id, Thread>, main: Context, phase: Phase, dying: set<Id>)

  /** The context in which _wrap0 starts: a null frame link, the coroutine's own pointer, three
      words that create() leaves as it finds them, and arbitrary callee-saved registers. */
  predicate Initial(c: Id, ctx: Context) {
    && ctx.regs.sp == ctx.regs.bp == STACK_TOP - 5 && ctx.regs.ip == WRAP0
    && |ctx.words| == 5 && ctx.words[0] == 0 && ctx.words[1] == c
  }

  function ReturnTo(ctx: Context, ret: Word): Context {
    ctx.(regs := ctx.regs.(ip := ret))
  }

  /** The specification machine: every thread owns a private stack and switching moves nothing. */
  ghost predicate PrivateNext(p: Private, l: Label, p': Private) {
    match l
    case New(c, _) =>
      c !in p.threads && p' == p.(threads := p.threads[c := Fresh])
    case MainStep(regs, os) =>
      && p.phase.Main? && 0 <= regs.sp - STACK_TOP <= |os|
      && p' == p.(main := Context(regs, os[regs.sp - STACK_TOP..]))
    case Resume(c, _, ret) =>
      && p.phase.Main? && c in p.threads && !p.threads[c].Gone?
      && p'.threads.Keys == p.threads.Keys
      && (match p.threads[c]
          case Fresh => p'.threads[c].Live? && Initial(c, p'.threads[c].ctx)
          case _ => p'.threads[c] == p.threads[c])
      && (forall d <- p.threads :: d != c ==> p'.threads[d] == p.threads[d])
      && p'.main == ReturnTo(p.main, ret) && p'.phase == Running(c) && p'.dying == p.dying
    case Body(regs, stack) =>
      && p.phase.Running? && 0 <= regs.sp <= |stack|
      && p' == p.(threads := p.threads[p.phase.c := Live(Context(regs, stack[regs.sp..]))])
    case MarkDead =>
      && p.phase.Running? && p' == p.(dying := p.dying + {p.phase.c})
    case Yield(_, ret) =>
      && p.phase.Running? && p.phase.c in p.threads && p.threads[p.phase.c].Live?
      && p' == p.(threads := p.threads[p.phase.c := Live(ReturnTo(p.threads[p.phase.c].ctx, ret))],
                  phase := Returned(p.phase.c))
    case Settle(_) =>
      && p.phase.Returned?
      && p' == (if p.phase.c in p.dying then p.(threads := p.threads[p.phase.c := Gone], phase := Main)
                else p.(phase := Main))
  }

  // ---------------------------------------------------------------- abstraction

  /** A switched-out context as __swap will reinstate it: the return address is popped. */
  function Reinstated(st: Regs, words: seq<Word>): Context
    requires |words| > 0
  {
    Context(st.(sp := st.sp + 1), words[1..])
  }

  function ThreadOf(m: Machine, c: Id): Thread
    requires ControlInv(m) && c in m.coros && CoroInv(m, c)
  {
    var k := m.coros[c];
    if !k.started then Fresh
    else if m.phase == Running(c) then Live(Context(m.cpu, m.mem[m.cpu.sp..STACK_TOP]))
    else if m.phase == Returned(c) then Live(Reinstated(k.state, m.mem[k.state.sp..STACK_TOP]))
    else if k.dead then Gone
    else Live(Reinstated(k.state, m.heap[k.copy.value].words))
  }

  function MainContext(m: Machine): Context
    requires ControlInv(m)
  {
    if m.phase.Running? then Reinstated(m.main, m.mem[m.main.sp..])
    else Context(m.cpu, m.mem[m.cpu.sp..])
  }

  function Abs(m: Machine): Private
    requires Inv(m)
  {
    Private(map c | c in m.coros :: ThreadOf(m, c), MainContext(m), m.phase,
            set c | c in m.coros && m.coros[c].dead)
  }
}
