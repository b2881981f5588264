/** Keys in the order in which a std::map iterator meets them. */
module KeyOrder {
  predicate Ascending(s: seq<int>) {
    forall i, j | 0 <= i < j < |s| :: s[i] < s[j]
  }

  /** ks lists the keys in the order of a map iterator. */
  ghost predicate Lists(ks: seq<int>, keys: set<int>) {
    Ascending(ks) && (forall k <- ks :: k in keys) && (forall k <- keys :: k in ks)
  }

  predicate IsSmallest(k: int, keys: set<int>) {
    k in keys && forall l <- keys :: k <= l
  }

  lemma Pick<T>(s: set<T>) returns (x: T)
    requires s != {}
    ensures x in s
  {
    x :| x in s;
  }

  lemma {:induction false} SmallestExists(keys: set<int>)
    requires |keys| > 0
    ensures exists k :: IsSmallest(k, keys)
  {
    var k := Pick(keys);
    var others := keys - {k};
    if |others| == 0 {
      assert keys == {k} && IsSmallest(k, keys);
    } else {
      SmallestExists(others);
      var m :| IsSmallest(m, others);
      assert keys == others + {k};
      assert IsSmallest(if k < m then k else m, keys);
    }
  }

  lemma NoKeys()
    ensures Lists([], {})
  {
  }

  lemma NextKey(order: seq<int>, done: set<int>, rest: set<int>, fd: int)
    requires Lists(order, done) && (forall k <- order, l <- rest :: k < l) && IsSmallest(fd, rest)
    ensures Lists(order + [fd], done + {fd}) && forall k <- order + [fd], l <- rest - {fd} :: k < l
    ensures fd in rest
  {
    forall i, j | 0 <= i < j < |order + [fd]| ensures (order + [fd])[i] < (order + [fd])[j] {
      assert order[i] in order;
    }
  }
}

/** The poll(2) back end: two maps flattened into the pollfd array, an arbitrary answer from the
    kernel, and the loop that schedules and unregisters. */
module Poll {
  import opened Options
  import opened Scheduling
  import opened CoroRuntime
  import Stack = SharedStack
  import opened WakeUniqueness
  import opened KeyOrder

  /** POLLIN, POLLOUT, and whatever else the kernel may set (POLLERR, POLLHUP, ...). */
  datatype Bits = Bits(pollin: bool, pollout: bool, other: bool)

  datatype PollFd = PollFd(fd: int, events: Bits, revents: Bits)

  const NO_BITS := Bits(false, false, false)
  const READ_BITS := Bits(true, false, false)
  const WRITE_BITS := Bits(false, true, false)

  datatype Registration = Read(fd: int) | Write(fd: int)

  // ---------------------------------------------------------------- dispatch, as a function

  /** The maps, the registrations served and the coroutines scheduled, in order. */
  datatype Dispatched = Dispatched(readers: map<int, Id>, writers: map<int, Id>,
                                   served: seq<Registration>, woken: seq<Id>)

  function Serve(d: Dispatched, r: Registration): Dispatched {
    match r
    case Read(fd) =>
      if fd in d.readers then
        Dispatched(d.readers - {fd}, d.writers, d.served + [r], d.woken + [d.readers[fd]])
      else d
    case Write(fd) =>
      if fd in d.writers then
        Dispatched(d.readers, d.writers - {fd}, d.served + [r], d.woken + [d.writers[fd]])
      else d
  }

  /** The registration that a slot's answer points to, if any: POLLIN hides POLLOUT. */
  function Answered(p: PollFd): Option<Registration> {
    if p.revents.pollin then Some(Read(p.fd))
    else if p.revents.pollout then Some(Write(p.fd))
    else None
  }

  function Inspect(d: Dispatched, p: PollFd): Dispatched {
    match Answered(p)
    case Some(r) => Serve(d, r)
    case None => d
  }

  /** After inspecting the slots ps in order. */
  function Dispatch(ps: seq<PollFd>, readers: map<int, Id>, writers: map<int, Id>): Dispatched {
    if ps == [] then Dispatched(readers, writers, [], [])
    else Inspect(Dispatch(ps[..|ps| - 1], readers, writers), ps[|ps| - 1])
  }

  predicate Registered(readers: map<int, Id>, writers: map<int, Id>, r: Registration) {
    match r
    case Read(fd) => fd in readers
    case Write(fd) => fd in writers
  }

  function Waiter(readers: map<int, Id>, writers: map<int, Id>, r: Registration): Id
    requires Registered(readers, writers, r)
  {
    match r
    case Read(fd) => readers[fd]
    case Write(fd) => writers[fd]
  }

  /** What a dispatch may do to the registrations. */
  ghost predicate Accounts(readers: map<int, Id>, writers: map<int, Id>, d: Dispatched) {
    && |d.woken| == |d.served|
    && (forall i | 0 <= i < |d.served| ::
          && Registered(readers, writers, d.served[i])
          && d.woken[i] == Waiter(readers, writers, d.served[i]))
    && (forall i, j | 0 <= i < j < |d.served| :: d.served[i] != d.served[j])
    && (forall r :: Registered(d.readers, d.writers, r) <==> Registered(readers, writers, r) && r !in d.served)
    && (forall r | Registered(d.readers, d.writers, r) ::
          Registered(readers, writers, r) && Waiter(d.readers, d.writers, r) == Waiter(readers, writers, r))
  }

  lemma ServeAccounts(readers: map<int, Id>, writers: map<int, Id>, d: Dispatched, r: Registration)
    requires Accounts(readers, writers, d)
    ensures Accounts(readers, writers, Serve(d, r))
  {
    var d' := Serve(d, r);
    if Registered(d.readers, d.writers, r) {
      forall x ensures Registered(d'.readers, d'.writers, x) <==> Registered(readers, writers, x) && x !in d'.served {
        assert x in d'.served <==> x in d.served || x == r;
      }
    }
  }

  /** Conservation: the scheduled waiters and the remaining registrations together are the earlier
      registrations, each once; at most one waiter is scheduled per inspected slot. */
  lemma {:induction false} DispatchAccounts(ps: seq<PollFd>, readers: map<int, Id>, writers: map<int, Id>)
    ensures var d := Dispatch(ps, readers, writers);
      Accounts(readers, writers, d) && |d.woken| <= |ps|
  {
    if ps != [] {
      DispatchAccounts(ps[..|ps| - 1], readers, writers);
      var d, p := Dispatch(ps[..|ps| - 1], readers, writers), ps[|ps| - 1];
      if Answered(p).Some? { ServeAccounts(readers, writers, d, Answered(p).value); }
    }
  }

  ghost predicate AnsweredIn(ps: seq<PollFd>, r: Registration) {
    exists j: nat :: j < |ps| && Answered(ps[j]) == Some(r)
  }

  /** Exactly which waiters are scheduled: those whose descriptor was reported ready in their
      direction by an inspected slot, a slot with POLLIN never counting for a writer. */
  lemma {:induction false} ServedIffAnswered(ps: seq<PollFd>, readers: map<int, Id>, writers: map<int, Id>,
                                             r: Registration)
    ensures r in Dispatch(ps, readers, writers).served <==> Registered(readers, writers, r) && AnsweredIn(ps, r)
  {
    if ps != [] {
      var init, p := ps[..|ps| - 1], ps[|ps| - 1];
      ServedIffAnswered(init, readers, writers, r);
      DispatchAccounts(init, readers, writers);
      if AnsweredIn(init, r) {
        var j: nat :| j < |init| && Answered(init[j]) == Some(r);
        assert Answered(ps[j]) == Some(r);
      }
      if AnsweredIn(ps, r) {
        var j: nat :| j < |ps| && Answered(ps[j]) == Some(r);
        if j < |init| { assert Answered(init[j]) == Some(r); }
      }
      if Answered(p) == Some(r) { assert AnsweredIn(ps, r); }
    } else {
      assert !AnsweredIn(ps, r);
    }
  }

  // ---------------------------------------------------------------- the kernel's answer

  /** The number of slots flagged: what poll(2) returns, and how many slots the loop inspects. */
  function Flags(answer: seq<Bits>): (n: nat)
    ensures n <= |answer|
  {
    if answer == [] then 0
    else Flags(answer[..|answer| - 1]) + if answer[|answer| - 1] != NO_BITS then 1 else 0
  }

  /** The slots with the returned bits filled in. */
  function Reported(slots: seq<PollFd>, answer: seq<Bits>): (ps: seq<PollFd>)
    requires |answer| == |slots|
    ensures |ps| == |slots|
  {
    seq(|slots|, k requires 0 <= k < |slots| => slots[k].(revents := answer[k]))
  }

  /** The slots that the loop inspects: the first ones, as many as were flagged. */
  function Inspected(slots: seq<PollFd>, answer: seq<Bits>): seq<PollFd>
    requires |answer| == |slots|
  {
    Reported(slots, answer)[..Flags(answer)]
  }

  /** The kernel reports readiness only in the directions asked about. */
  ghost predicate Honest(slots: seq<PollFd>, answer: seq<Bits>) {
    && |answer| == |slots|
    && forall k | 0 <= k < |slots| ::
         (answer[k].pollin ==> slots[k].events.pollin) && (answer[k].pollout ==> slots[k].events.pollout)
  }

  /** Each slot asks for a registration. */
  ghost predicate Armed(slots: seq<PollFd>, readers: map<int, Id>, writers: map<int, Id>) {
    forall k | 0 <= k < |slots| :: AsksForSome(slots[k], readers, writers)
  }

  ghost predicate AsksForSome(p: PollFd, readers: map<int, Id>, writers: map<int, Id>) {
    exists r :: Registered(readers, writers, r) && AsksFor(p, r)
  }

  predicate AsksFor(p: PollFd, r: Registration) {
    p.fd == r.fd && match r case Read(_) => p.events.pollin case Write(_) => p.events.pollout
  }

  /** The returned bits say that the descriptor is ready in the registration's direction. */
  predicate SaysReady(p: PollFd, r: Registration) {
    p.fd == r.fd && match r case Read(_) => p.revents.pollin case Write(_) => p.revents.pollout
  }

  ghost predicate ReadyIn(ps: seq<PollFd>, r: Registration) {
    exists j: nat :: j < |ps| && SaysReady(ps[j], r)
  }

  /** Every waiter reported ready is scheduled. */
  ghost predicate MissesNobody(slots: seq<PollFd>, answer: seq<Bits>, readers: map<int, Id>, writers: map<int, Id>)
    requires |answer| == |slots|
  {
    forall r | Registered(readers, writers, r) && ReadyIn(Reported(slots, answer), r) ::
      r in Dispatch(Inspected(slots, answer), readers, writers).served
  }

  /** Flags counts the flagged slots. */
  lemma {:induction false} FlagsCount(answer: seq<Bits>)
    ensures Flags(answer) == |set k | 0 <= k < |answer| && (answer[k].pollin || answer[k].pollout || answer[k].other)|
  {
    var flagged := set k | 0 <= k < |answer| && (answer[k].pollin || answer[k].pollout || answer[k].other);
    if answer == [] {
      assert flagged == {};
    } else {
      var n := |answer| - 1;
      var init := answer[..n];
      FlagsCount(init);
      var before := set k | 0 <= k < |init| && (init[k].pollin || init[k].pollout || init[k].other);
      assert flagged == before + if answer[n] != NO_BITS then {n} else {};
    }
  }

  lemma {:induction false} AllFlagged(answer: seq<Bits>)
    ensures Flags(answer) == |answer| <==> forall k | 0 <= k < |answer| :: answer[k] != NO_BITS
  {
    if answer != [] {
      var init := answer[..|answer| - 1];
      AllFlagged(init);
      assert forall k | 0 <= k < |init| :: init[k] == answer[k];
    }
  }

  lemma {:induction false} NoneFlagged(answer: seq<Bits>)
    ensures Flags(answer) == 0 <==> forall k | 0 <= k < |answer| :: answer[k] == NO_BITS
  {
    if answer != [] {
      var init := answer[..|answer| - 1];
      NoneFlagged(init);
      assert forall k | 0 <= k < |init| :: init[k] == answer[k];
    }
  }

  /** A call misses nobody exactly when every registration reported ready anywhere is read as such,
      POLLIN hiding POLLOUT, within the slots inspected. */
  lemma MissesNobodyIff(slots: seq<PollFd>, answer: seq<Bits>, readers: map<int, Id>, writers: map<int, Id>)
    requires |answer| == |slots|
    ensures MissesNobody(slots, answer, readers, writers) <==>
            forall r | Registered(readers, writers, r) && ReadyIn(Reported(slots, answer), r) ::
              AnsweredIn(Inspected(slots, answer), r)
  {
    forall r ensures r in Dispatch(Inspected(slots, answer), readers, writers).served <==>
                     Registered(readers, writers, r) && AnsweredIn(Inspected(slots, answer), r) {
      ServedIffAnswered(Inspected(slots, answer), readers, writers, r);
    }
  }

  /** The answer that flags slot 1 alone, in the direction its registration asks about. */
  function SecondReady(n: nat, r: Registration): (answer: seq<Bits>)
    requires n >= 2
    ensures |answer| == n
  {
    seq(n, k => if k != 1 then NO_BITS else if r.Read? then READ_BITS else WRITE_BITS)
  }

  lemma SecondIsMissed(slots: seq<PollFd>, readers: map<int, Id>, writers: map<int, Id>, r: Registration)
    requires |slots| >= 2 && Registered(readers, writers, r) && AsksFor(slots[1], r)
    ensures var answer := SecondReady(|slots|, r);
      Honest(slots, answer) && !MissesNobody(slots, answer, readers, writers)
  {
    var answer := SecondReady(|slots|, r);
    assert SaysReady(Reported(slots, answer)[1], r);
    OneFlag(answer);
    assert Inspected(slots, answer) == [Reported(slots, answer)[0]];
    IdleServesNobody(Inspected(slots, answer), readers, writers);
  }

  lemma OneFlag(answer: seq<Bits>)
    requires |answer| >= 2 && answer[1] != NO_BITS && forall k | 0 <= k < |answer| && k != 1 :: answer[k] == NO_BITS
    ensures Flags(answer) == 1
    decreases |answer|
  {
    if |answer| > 2 {
      OneFlag(answer[..|answer| - 1]);
    } else {
      NoneFlagged(answer[..1]);
    }
  }

  /** No readiness in either direction; errors and hang-ups may be reported. */
  predicate Idle(b: Bits) { !b.pollin && !b.pollout }

  lemma {:induction false} IdleServesNobody(ps: seq<PollFd>, readers: map<int, Id>, writers: map<int, Id>)
    requires forall p <- ps :: Idle(p.revents)
    ensures Dispatch(ps, readers, writers) == Dispatched(readers, writers, [], [])
  {
    if ps != [] { IdleServesNobody(ps[..|ps| - 1], readers, writers); }
  }

  /** A lone slot: whoever waits for it is scheduled when reported ready, unless it is a writer and
      the slot asks about reading too. */
  lemma LoneSlotMissesNobody(slots: seq<PollFd>, answer: seq<Bits>, readers: map<int, Id>, writers: map<int, Id>)
    requires |slots| == 1 && Honest(slots, answer) && (writers != map[] ==> !slots[0].events.pollin)
    ensures MissesNobody(slots, answer, readers, writers)
  {
    var ps := Reported(slots, answer);
    MissesNobodyIff(slots, answer, readers, writers);
    AllFlagged(answer);
    forall r | Registered(readers, writers, r) && ReadyIn(ps, r) ensures AnsweredIn(Inspected(slots, answer), r) {
      assert SaysReady(ps[0], r);
      assert Inspected(slots, answer)[0] == ps[0] && Answered(ps[0]) == Some(r);
    }
  }

  lemma LoneWriterIsMissed(slots: seq<PollFd>, readers: map<int, Id>, writers: map<int, Id>)
    requires |slots| == 1 && slots[0].fd in writers && slots[0].events.pollin && slots[0].events.pollout
    ensures exists answer: seq<Bits> :: Honest(slots, answer) && !MissesNobody(slots, answer, readers, writers)
  {
    var answer := BothReady(1, 0);
    StaleBitHides(slots, 0, readers, writers);
    assert SaysReady(Reported(slots, answer)[0], Write(slots[0].fd));
  }

  /** Poll is meant to schedule every waiter reported ready.  With the slots armed, it does so
      whatever the kernel honestly answers if and only if there is no registration, or a single one
      that is not a writer in a slot still asking about reading. */
  lemma NobodyIsMissedIff(slots: seq<PollFd>, readers: map<int, Id>, writers: map<int, Id>)
    requires Armed(slots, readers, writers) && |slots| == |readers| + |writers|
    ensures (forall answer: seq<Bits> | Honest(slots, answer) :: MissesNobody(slots, answer, readers, writers))
            <==> |slots| == 0 || (|slots| == 1 && (|writers| == 1 ==> !slots[0].events.pollin))
  {
    if |slots| >= 1 {
      var k := if |slots| == 1 then 0 else 1;
      assert AsksForSome(slots[k], readers, writers);
      var r :| Registered(readers, writers, r) && AsksFor(slots[k], r);
      if |slots| >= 2 {
        SecondIsMissed(slots, readers, writers, r);
        assert Honest(slots, SecondReady(|slots|, r));
      } else if |writers| == 1 && slots[0].events.pollin {
        assert readers == map[];
        LoneWriterIsMissed(slots, readers, writers);
      } else {
        assert |writers| == 0 ==> writers == map[];
        forall answer: seq<Bits> | Honest(slots, answer) ensures MissesNobody(slots, answer, readers, writers) {
          LoneSlotMissesNobody(slots, answer, readers, writers);
        }
      }
    }
  }

  /** Successive calls of poll, with these slots, each getting the same answer from the kernel. */
  function PollRounds(rounds: seq<seq<PollFd>>, answer: seq<Bits>,
                      readers: map<int, Id>, writers: map<int, Id>): Dispatched
    requires forall slots <- rounds :: |slots| == |answer|
  {
    if rounds == [] then Dispatched(readers, writers, [], [])
    else
      var before := PollRounds(rounds[..|rounds| - 1], answer, readers, writers);
      var d := Dispatch(Inspected(rounds[|rounds| - 1], answer), before.readers, before.writers);
      Dispatched(d.readers, d.writers, before.served + d.served, before.woken + d.woken)
  }

  /** Starvation: if as many slots as are flagged stand in front that report no readiness, nothing
      at all or errors only, then however often poll is called, in whatever order the slots are
      filled, nobody is scheduled. */
  lemma {:induction false} StarvedForever(rounds: seq<seq<PollFd>>, answer: seq<Bits>,
                                          readers: map<int, Id>, writers: map<int, Id>)
    requires forall slots <- rounds :: |slots| == |answer|
    requires forall k | 0 <= k < Flags(answer) :: Idle(answer[k])
    ensures PollRounds(rounds, answer, readers, writers) == Dispatched(readers, writers, [], [])
  {
    if rounds != [] {
      StarvedForever(rounds[..|rounds| - 1], answer, readers, writers);
      IdleServesNobody(Inspected(rounds[|rounds| - 1], answer), readers, writers);
    }
  }

  // ---------------------------------------------------------------- interest bits

  /** Slot j ready in both directions, the others only flagged (an error, say). */
  function BothReady(n: nat, j: nat): (answer: seq<Bits>)
    requires j < n
    ensures |answer| == n
  {
    seq(n, k => if k == j then Bits(true, true, false) else Bits(false, false, true))
  }

  lemma StaleBitHides(slots: seq<PollFd>, j: nat, readers: map<int, Id>, writers: map<int, Id>)
    requires j < |slots| && slots[j].events.pollin && slots[j].events.pollout
    ensures var answer := BothReady(|slots|, j);
      && Honest(slots, answer) && answer[j].pollout && Flags(answer) == |slots|
      && Write(slots[j].fd) !in Dispatch(Inspected(slots, answer), readers, writers).served
  {
    var answer := BothReady(|slots|, j);
    AllFlagged(answer);
    ServedIffAnswered(Inspected(slots, answer), readers, writers, Write(slots[j].fd));
  }

  /** A writer's slot is looked at and reports POLLOUT, under any honest answer: is the writer
      scheduled?  It always is if and only if the slot held no POLLIN before.  Bits are or-ed into a
      slot and never cleared, so they linger from any reader the slot once served. */
  lemma WriterIsServedIff(slots: seq<PollFd>, j: nat, was: Bits, readers: map<int, Id>, writers: map<int, Id>)
    requires j < |slots| && slots[j].fd in writers
    requires slots[j].events.pollout && slots[j].events.pollin == was.pollin
    ensures (forall answer: seq<Bits> | Honest(slots, answer) && answer[j].pollout && j < Flags(answer) ::
               Write(slots[j].fd) in Dispatch(Inspected(slots, answer), readers, writers).served) <==> !was.pollin
  {
    if was.pollin {
      StaleBitHides(slots, j, readers, writers);
      assert Honest(slots, BothReady(|slots|, j));
    } else {
      forall answer: seq<Bits> | Honest(slots, answer) && answer[j].pollout && j < Flags(answer)
        ensures Write(slots[j].fd) in Dispatch(Inspected(slots, answer), readers, writers).served
      {
        assert Answered(Inspected(slots, answer)[j]) == Some(Write(slots[j].fd));
        ServedIffAnswered(Inspected(slots, answer), readers, writers, Write(slots[j].fd));
      }
    }
  }

  /** Slot j ready for writing, the others only flagged. */
  function OnlyWritable(n: nat, j: nat): (answer: seq<Bits>)
    requires j < n
    ensures |answer| == n
  {
    seq(n, k => if k == j then WRITE_BITS else Bits(false, false, true))
  }

  lemma StaleBitMisleads(slots: seq<PollFd>, j: nat, readers: map<int, Id>, writers: map<int, Id>)
    requires j < |slots| && slots[j].events.pollout
    ensures var answer := OnlyWritable(|slots|, j);
      && Honest(slots, answer) && answer[j] != NO_BITS && !answer[j].other && Flags(answer) == |slots|
      && Read(slots[j].fd) !in Dispatch(Inspected(slots, answer), readers, writers).served
  {
    var answer := OnlyWritable(|slots|, j);
    AllFlagged(answer);
    ServedIffAnswered(Inspected(slots, answer), readers, writers, Read(slots[j].fd));
  }

  /** A reader's slot is looked at and reports something that is not an error: is the reader
      scheduled?  It always is if and only if the slot held no POLLOUT before; otherwise the kernel
      may report just that, and the slot is used up on nobody. */
  lemma ReaderIsServedIff(slots: seq<PollFd>, j: nat, was: Bits, readers: map<int, Id>, writers: map<int, Id>)
    requires j < |slots| && slots[j].fd in readers
    requires slots[j].events.pollin && slots[j].events.pollout == was.pollout
    ensures (forall answer: seq<Bits> |
               Honest(slots, answer) && answer[j] != NO_BITS && !answer[j].other && j < Flags(answer) ::
               Read(slots[j].fd) in Dispatch(Inspected(slots, answer), readers, writers).served) <==> !was.pollout
  {
    if was.pollout {
      StaleBitMisleads(slots, j, readers, writers);
      assert Honest(slots, OnlyWritable(|slots|, j));
    } else {
      forall answer: seq<Bits> |
        Honest(slots, answer) && answer[j] != NO_BITS && !answer[j].other && j < Flags(answer)
        ensures Read(slots[j].fd) in Dispatch(Inspected(slots, answer), readers, writers).served
      {
        assert Answered(Inspected(slots, answer)[j]) == Some(Read(slots[j].fd));
        ServedIffAnswered(Inspected(slots, answer), readers, writers, Read(slots[j].fd));
      }
    }
  }

  /** A ready reader behind an idle one: the kernel reports one ready slot, the second, and nobody
      is scheduled. */
  lemma ReadySlotIsMissed()
    ensures var slots := [PollFd(5, READ_BITS, NO_BITS), PollFd(4, READ_BITS, NO_BITS)];
      && Honest(slots, [NO_BITS, READ_BITS])
      && Dispatch(Inspected(slots, [NO_BITS, READ_BITS]), map[4 := 1, 5 := 2], map[]).woken == []
      && Answered(Reported(slots, [NO_BITS, READ_BITS])[1]) == Some(Read(4))
  {
    var slots, answer := [PollFd(5, READ_BITS, NO_BITS), PollFd(4, READ_BITS, NO_BITS)], [NO_BITS, READ_BITS];
    OneFlag(answer);
    IdleServesNobody(Inspected(slots, answer), map[4 := 1, 5 := 2], map[]);
  }

  // ---------------------------------------------------------------- in the scheduler's machine

  function WakeLabel(r: Registration): Label {
    match r
    case Read(fd) => WakeRead(fd)
    case Write(fd) => WakeWrite(fd)
  }

  /** Serving a registration is a step of the scheduler's state machine. */
  lemma ServeIsAStep(q: System, r: Registration, served: seq<Registration>, woken: seq<Id>)
    requires q.phase.Outside? && Registered(q.blocked.readers, q.blocked.writers, r)
    requires Waiter(q.blocked.readers, q.blocked.writers, r) !in q.status.dead
    ensures var d := Serve(Dispatched(q.blocked.readers, q.blocked.writers, served, woken), r);
      && Enabled(q, WakeLabel(r)) && Step(q, WakeLabel(r)).Next?
      && var q' := Step(q, WakeLabel(r)).q;
      && q'.blocked.readers == d.readers && q'.blocked.writers == d.writers
      && q'.ready == Append(q.ready, Entry(d.woken[|woken|], 0))
      && d.served == served + [r]
  {
  }

  function Holders(m: map<int, Id>): set<Id> {
    set fd | fd in m :: m[fd]
  }

  lemma {:induction false} HoldersCount(m: map<int, Id>)
    requires forall a <- m, b <- m :: m[a] == m[b] ==> a == b
    ensures |Holders(m)| == |m|
    decreases |m|
  {
    if |m| > 0 {
      var fd := Pick(m.Keys);
      var rest := m - {fd};
      HoldersCount(rest);
      forall c <- Holders(m) ensures c in Holders(rest) + {m[fd]} {
        var a :| a in m && m[a] == c;
        if a != fd { assert rest[a] == c; }
      }
      assert Holders(m) == Holders(rest) + {m[fd]};
      assert m.Keys == rest.Keys + {fd};
    }
  }

  /** In every reachable state there are no more registrations than live coroutines, so an array
      with one slot per coroutine never overflows. */
  lemma RegistrationsFitTheArray(qs: seq<System>, ls: seq<Label>, i: nat)
    requires IsRun(qs, ls) && i <= |ls|
    ensures var q := qs[i]; |q.blocked.readers| + |q.blocked.writers| <= |q.status.spawned - q.status.dead|
  {
    RunKeepsPlaces(qs, ls, i);
    var q := qs[i];
    var r, w := q.blocked.readers, q.blocked.writers;
    forall a <- r, b <- r | r[a] == r[b] ensures a == b {
      assert At(q, InReaders(a), r[a]) && At(q, InReaders(b), r[b]);
    }
    forall a <- w, b <- w | w[a] == w[b] ensures a == b {
      assert At(q, InWriters(a), w[a]) && At(q, InWriters(b), w[b]);
    }
    HoldersCount(r);
    HoldersCount(w);
    forall c | c in Holders(r) && c in Holders(w) ensures false { OneHolder(q, c); }
    var live := q.status.spawned - q.status.dead;
    forall c <- Holders(r) + Holders(w) ensures c in live { HolderIsLive(q, c); }
    assert |Holders(r) + Holders(w)| == |Holders(r)| + |Holders(w)|;
    SubsetIsSmaller(Holders(r) + Holders(w), live);
  }

  lemma OneHolder(q: System, c: Id)
    requires PlaceInv(q)
    ensures !(c in Holders(q.blocked.readers) && c in Holders(q.blocked.writers))
  {
    if c in Holders(q.blocked.readers) && c in Holders(q.blocked.writers) {
      var a :| a in q.blocked.readers && q.blocked.readers[a] == c;
      var b :| b in q.blocked.writers && q.blocked.writers[b] == c;
      assert At(q, InReaders(a), c) && At(q, InWriters(b), c);
      assert false;
    }
  }

  lemma HolderIsLive(q: System, c: Id)
    requires PlaceInv(q) && (c in Holders(q.blocked.readers) || c in Holders(q.blocked.writers))
    ensures c in q.status.spawned && c !in q.status.dead
  {
    if c in Holders(q.blocked.readers) {
      var a :| a in q.blocked.readers && q.blocked.readers[a] == c;
      assert At(q, InReaders(a), c);
    } else {
      var b :| b in q.blocked.writers && q.blocked.writers[b] == c;
      assert At(q, InWriters(b), c);
    }
  }

  lemma SubsetIsSmaller(a: set<Id>, b: set<Id>)
    requires a <= b
    ensures |a| <= |b|
  {
    assert b == a + (b - a);
  }

  /** The slots lo..hi - 1 hold these keys in descending order, their event bits added to what the
      slots held; no other slot has changed. */
  ghost predicate Filled(was: seq<PollFd>, slots: seq<PollFd>, lo: nat, hi: nat, order: seq<int>, bits: Bits) {
    && |was| == |slots| && lo <= hi <= |slots| && |order| == hi - lo
    && (forall k | lo <= k < hi ::
          && slots[k].fd == order[hi - 1 - k]
          && (slots[k].events.pollin <==> was[k].events.pollin || bits.pollin)
          && (slots[k].events.pollout <==> was[k].events.pollout || bits.pollout)
          && (slots[k].events.other <==> was[k].events.other || bits.other))
    && (forall k | 0 <= k < lo || hi <= k < |slots| :: slots[k] == was[k])
  }

  lemma NothingFilled(was: seq<PollFd>, hi: nat, bits: Bits)
    requires hi <= |was|
    ensures Filled(was, was, hi, hi, [], bits)
  {
  }

  lemma FilledNext(was: seq<PollFd>, slots: seq<PollFd>, lo: nat, hi: nat, order: seq<int>, bits: Bits, fd: int)
    requires Filled(was, slots, lo + 1, hi, order, bits)
    ensures Filled(was, slots[lo := slots[lo].(fd := fd, events := Or(slots[lo].events, bits))], lo, hi,
                   order + [fd], bits)
  {
  }

  // ---------------------------------------------------------------- the poller

  class PollPoller {
    var readSet: map<int, Id>
    var writeSet: map<int, Id>
    const pollSet: array<PollFd>

    /** The array arrives uninitialised. */
    constructor (junk: array<PollFd>)
      ensures readSet == writeSet == map[] && pollSet == junk
    {
      readSet, writeSet, pollSet := map[], map[], junk;
    }

    method SetWaitForRead(fd: int, c: Id)
      modifies this`readSet
      ensures readSet == old(readSet)[fd := c]
    {
      readSet := readSet[fd := c];
    }

    method SetWaitForWrite(fd: int, c: Id)
      modifies this`writeSet
      ensures writeSet == old(writeSet)[fd := c]
    {
      writeSet := writeSet[fd := c];
    }

    /** poller::wait_for_read, up to the switch. */
    method WaitForRead(rt: Runtime, fd: int, c: Coro, ret: Word)
      requires rt.Sound() && rt.phase == Stack.Running(c.id) && rt.Knows(c)
      modifies this`readSet, rt`cpu, rt`phase, rt`history, rt`trace, rt.mem, c`value, c`state
      ensures rt.Sound() && rt.phase == Stack.Returned(c.id) && readSet == old(readSet)[fd := c.id]
    {
      SetWaitForRead(fd, c.id);
      rt.Yield(c, 0, ret);
    }

    /** poller::wait_for_write, up to the switch. */
    method WaitForWrite(rt: Runtime, fd: int, c: Coro, ret: Word)
      requires rt.Sound() && rt.phase == Stack.Running(c.id) && rt.Knows(c)
      modifies this`writeSet, rt`cpu, rt`phase, rt`history, rt`trace, rt.mem, c`value, c`state
      ensures rt.Sound() && rt.phase == Stack.Returned(c.id) && writeSet == old(writeSet)[fd := c.id]
    {
      SetWaitForWrite(fd, c.id);
      rt.Yield(c, 0, ret);
    }

    /** One fill loop: the keys, in the map's order, go into slots from - 1, from - 2, ... */
    method Fill(keys: set<int>, from: nat, bits: Bits) returns (j: nat, ghost order: seq<int>)
      requires |keys| <= from <= pollSet.Length
      modifies pollSet
      ensures Lists(order, keys) && |order| == |keys| && j == from - |keys|
      ensures Filled(old(pollSet[..]), pollSet[..], j, from, order, bits)
    {
      hide IsSmallest, Lists, Filled;
      j, order := from, [];
      var rest := keys;
      ghost var done, before := {}, pollSet[..];
      NoKeys();
      NothingFilled(before, from, bits);
      while rest != {}
        invariant done + rest == keys && done !! rest
        invariant j == from - |order| && |order| + |rest| == |keys|
        invariant Lists(order, done) && forall k <- order, l <- rest :: k < l
        invariant Filled(before, pollSet[..], j, from, order, bits)
        decreases |rest|
      {
        SmallestExists(rest);
        var fd :| IsSmallest(fd, rest);
        j := j - 1;
        ghost var now := pollSet[..];
        pollSet[j] := pollSet[j].(fd := fd, events := Or(pollSet[j].events, bits));
        assert pollSet[..] == now[j := now[j].(fd := fd, events := Or(now[j].events, bits))];
        FilledNext(before, now, j, from, order, bits, fd);
        NextKey(order, done, rest, fd);
        order, done := order + [fd], done + {fd};
        rest := rest - {fd};
      }
    }

    /** One round of the dispatch loop.  Dead_Coro leaves the registration at fault in place. */
    method InspectSlot(rt: Runtime, p: PollFd) returns (thrown: bool)
      requires rt.Valid() && WaitersKnown(rt)
      modifies this`readSet, this`writeSet, rt`pending, rt`scheduled
      ensures WaitersKnown(rt)
      ensures thrown ==>
        && readSet == old(readSet) && writeSet == old(writeSet) && rt.Lists() == old(rt.Lists()) && AtFault(rt, p)
      ensures !thrown ==>
        var d := Inspect(Dispatched(old(readSet), old(writeSet), [], []), p);
        readSet == d.readers && writeSet == d.writers && rt.Lists() == AppendAll(old(rt.Lists()), Wakes(d.woken))
    {
      thrown := false;
      if p.revents.pollin {
        if p.fd in readSet {
          assert Answered(p) == Some(Read(p.fd)) && Registered(readSet, writeSet, Read(p.fd));
          thrown := rt.Schedule(readSet[p.fd], 0);
          if thrown { return; }
          readSet := readSet - {p.fd};
        }
      } else if p.revents.pollout {
        if p.fd in writeSet {
          assert Answered(p) == Some(Write(p.fd)) && Registered(readSet, writeSet, Write(p.fd));
          thrown := rt.Schedule(writeSet[p.fd], 0);
          if thrown { return; }
          writeSet := writeSet - {p.fd};
        }
      }
    }

    ghost predicate WaitersKnown(rt: Runtime)
      reads this`readSet, this`writeSet, rt`coros
    {
      && (forall fd <- readSet :: readSet[fd] in rt.coros)
      && (forall fd <- writeSet :: writeSet[fd] in rt.coros)
    }

    /** The slot points to a registration whose waiter is dead. */
    ghost predicate AtFault(rt: Runtime, p: PollFd)
      reads this`readSet, this`writeSet, rt`coros, rt.coros.Values`dead
    {
      exists r :: Answered(p) == Some(r) && Registered(readSet, writeSet, r)
        && Waiter(readSet, writeSet, r) in rt.coros && rt.coros[Waiter(readSet, writeSet, r)].dead
    }

    /** The dispatch loop, on the kernel's result and the slots it has written: looks at the first
        `result` slots. */
    method DispatchLoop(rt: Runtime, count: nat, result: nat) returns (thrown: bool, inspected: nat)
      requires rt.Valid() && count <= pollSet.Length && WaitersKnown(rt)
      modifies this`readSet, this`writeSet, rt`pending, rt`scheduled
      ensures inspected <= count && inspected <= result && (!thrown ==> inspected == count || inspected == result)
      ensures var d := Dispatch(pollSet[..inspected], old(readSet), old(writeSet));
        && readSet == d.readers && writeSet == d.writers
        && rt.Lists() == AppendAll(old(rt.Lists()), Wakes(d.woken))
      ensures thrown ==> inspected < count && inspected < result && AtFault(rt, pollSet[inspected])
      ensures WaitersKnown(rt)
    {
      hide Inspect, AppendAll, Wakes, WaitersKnown, AtFault;
      var left := result;
      inspected := 0;
      NothingDispatched(rt.Lists(), readSet, writeSet);
      assert pollSet[..0] == [];
      while inspected < count && left != 0
        invariant inspected <= count && left == result - inspected >= 0 && WaitersKnown(rt)
        invariant var d := Dispatch(pollSet[..inspected], old(readSet), old(writeSet));
          && readSet == d.readers && writeSet == d.writers
          && rt.Lists() == AppendAll(old(rt.Lists()), Wakes(d.woken))
      {
        left := left - 1;
        DispatchNext(old(rt.Lists()), pollSet[..], inspected, old(readSet), old(writeSet));
        thrown := InspectSlot(rt, pollSet[inspected]);
        if thrown { return; }
        inspected := inspected + 1;
      }
      thrown := false;
    }

    /** The two fill loops of poll(): every registration gets exactly one of the slots 0..count - 1,
        the writers in the lower ones, each kind in descending order of descriptor. */
    method Arm() returns (count: nat, ghost readOrder: seq<int>, ghost writeOrder: seq<int>)
      requires |readSet| + |writeSet| <= pollSet.Length
      modifies pollSet
      ensures Lists(readOrder, readSet.Keys) && Lists(writeOrder, writeSet.Keys)
      ensures |readOrder| == |readSet| && |writeOrder| == |writeSet| && count == |readSet| + |writeSet|
      ensures forall k | 0 <= k < count ::
        pollSet[k].fd == if k < |writeOrder| then writeOrder[|writeOrder| - 1 - k] else readOrder[count - 1 - k]
      ensures forall k | 0 <= k < count ::
        && (pollSet[k].events.pollin <==> old(pollSet[k].events.pollin) || k >= |writeOrder|)
        && (pollSet[k].events.pollout <==> old(pollSet[k].events.pollout) || k < |writeOrder|)
        && pollSet[k].events.other == old(pollSet[k].events.other)
      ensures Armed(pollSet[..count], readSet, writeSet)
    {
      hide Ascending;
      count := |readSet| + |writeSet|;
      var j;
      assert |readSet.Keys| == |readSet| && |writeSet.Keys| == |writeSet|;
      j, readOrder := Fill(readSet.Keys, count, READ_BITS);
      j, writeOrder := Fill(writeSet.Keys, j, WRITE_BITS);
      assert j == 0;
      forall k | 0 <= k < count ensures AsksForSome(pollSet[k], readSet, writeSet) {
        var r := if k < |writeOrder| then Write(pollSet[k].fd) else Read(pollSet[k].fd);
        assert if k < |writeOrder| then pollSet[k].fd in writeOrder else pollSet[k].fd in readOrder;
        assert Registered(readSet, writeSet, r) && AsksFor(pollSet[k], r);
      }
    }

    /** The system call: returned bits for the slots in use. */
    method Kernel(answer: seq<Bits>)
      requires |answer| <= pollSet.Length
      modifies pollSet
      ensures forall k | 0 <= k < |answer| :: pollSet[k] == old(pollSet[k]).(revents := answer[k])
    {
      forall i | 0 <= i < |answer| {
        pollSet[i] := pollSet[i].(revents := answer[i]);
      }
    }

    /** poll(), given the kernel's answer: its result and the returned bits of each slot. */
    method PollOnce(rt: Runtime, result: int, answer: seq<Bits>)
      returns (thrown: bool, inspected: nat, ghost readOrder: seq<int>, ghost writeOrder: seq<int>)
      requires rt.Valid() && rt.mem != pollSet as object && WaitersKnown(rt)
      requires |answer| == |readSet| + |writeSet| <= pollSet.Length
      modifies this`readSet, this`writeSet, pollSet, rt`pending, rt`scheduled
      ensures Lists(readOrder, old(readSet.Keys)) && Lists(writeOrder, old(writeSet.Keys))
      ensures |readOrder| + |writeOrder| == |answer| && |writeOrder| == old(|writeSet|)
      ensures forall k | 0 <= k < |answer| ::
        pollSet[k].fd == (readOrder + writeOrder)[|answer| - 1 - k] && pollSet[k].revents == answer[k]
      ensures forall k | 0 <= k < |answer| ::
        && (pollSet[k].events.pollin <==> old(pollSet[k].events.pollin) || k >= |writeOrder|)
        && (pollSet[k].events.pollout <==> old(pollSet[k].events.pollout) || k < |writeOrder|)
        && pollSet[k].events.other == old(pollSet[k].events.other)
      ensures Armed(pollSet[..|answer|], old(readSet), old(writeSet))
      ensures result < 0 ==> !thrown && inspected == 0
      ensures result >= 0 && !thrown ==> inspected == if result < |answer| then result else |answer|
      ensures inspected <= |answer|
      ensures thrown ==> inspected < |answer| && inspected < result && AtFault(rt, pollSet[inspected])
      ensures var d := Dispatch(pollSet[..inspected], old(readSet), old(writeSet));
        && readSet == d.readers && writeSet == d.writers
        && rt.Lists() == AppendAll(old(rt.Lists()), Wakes(d.woken))
      ensures WaitersKnown(rt)
    {
      hide Lists, AtFault, Dispatch, AppendAll, Wakes, WaitersKnown, AsksForSome;
      var count;
      count, readOrder, writeOrder := Arm();
      ghost var armed := pollSet[..count];
      Kernel(answer);
      StaysArmed(armed, pollSet[..count], readSet, writeSet);
      thrown, inspected := false, 0;
      if result >= 0 {
        thrown, inspected := DispatchLoop(rt, count, result);
      } else {
        assert pollSet[..0] == [];
        NothingDispatched(rt.Lists(), readSet, writeSet);
      }
    }

    /** A lone reader is served through slot 0, which from then on asks about reading. */
    method ServeReader(rt: Runtime, fd: int, c: Coro)
      requires rt.Valid() && rt.mem != pollSet as object && pollSet.Length > 0
      requires rt.Knows(c) && !c.dead && readSet == writeSet == map[]
      modifies this`readSet, this`writeSet, pollSet, rt`pending, rt`scheduled
      ensures readSet == writeSet == map[] && pollSet[0].events.pollin
      ensures rt.Lists() == Append(old(rt.Lists()), Entry(c.id, 0))
    {
      SetWaitForRead(fd, c.id);
      PollLone(rt, fd, c, READ_BITS);
    }

    method ServeWriter(rt: Runtime, fd: int, c: Coro)
      requires rt.Valid() && rt.mem != pollSet as object && pollSet.Length > 0
      requires rt.Knows(c) && !c.dead && readSet == writeSet == map[]
      modifies this`readSet, this`writeSet, pollSet, rt`pending, rt`scheduled
      ensures readSet == writeSet == map[] && pollSet[0].events.pollout
      ensures rt.Lists() == Append(old(rt.Lists()), Entry(c.id, 0))
    {
      SetWaitForWrite(fd, c.id);
      PollLone(rt, fd, c, WRITE_BITS);
    }

    /** poll() with one registration and one slot flagged. */
    method PollLone(rt: Runtime, fd: int, c: Coro, answer: Bits)
      requires rt.Valid() && rt.mem != pollSet as object && pollSet.Length > 0 && rt.Knows(c)
      requires (answer.pollin && fd in readSet) || (!answer.pollin && answer.pollout && fd in writeSet) ==> !c.dead
      requires (readSet == map[fd := c.id] && writeSet == map[]) || (readSet == map[] && writeSet == map[fd := c.id])
      modifies this`readSet, this`writeSet, pollSet, rt`pending, rt`scheduled
      ensures pollSet[0].fd == fd && pollSet[0].revents == answer
      ensures pollSet[0].events.pollin <==> old(pollSet[0].events.pollin) || fd in old(readSet)
      ensures pollSet[0].events.pollout <==> old(pollSet[0].events.pollout) || fd in old(writeSet)
      ensures
        if (answer.pollin && fd in old(readSet)) || (!answer.pollin && answer.pollout && fd in old(writeSet)) then
          readSet == writeSet == map[] && rt.Lists() == Append(old(rt.Lists()), Entry(c.id, 0))
        else readSet == old(readSet) && writeSet == old(writeSet) && rt.Lists() == old(rt.Lists())
    {
      hide Dispatch, Armed, Lists, AppendAll, Wakes, AtFault;
      ghost var readers, writers := readSet, writeSet;
      assert readSet.Keys + writeSet.Keys == {fd};
      var thrown, inspected, readOrder, writeOrder := PollOnce(rt, 1, [answer]);
      SoleKey(readOrder + writeOrder, if fd in readers then readOrder else writeOrder,
              if fd in readers then readers.Keys else writers.Keys, fd);
      assert pollSet[..1] == [pollSet[0]] && pollSet[..0] == [];
      LoneSlot(old(rt.Lists()), pollSet[0], readers, writers, c.id);
      NothingDispatched(old(rt.Lists()), readers, writers);
      if thrown { LoneFault(rt, pollSet[0], c); }
    }

    lemma LoneFault(rt: Runtime, p: PollFd, c: Coro)
      requires AtFault(rt, p) && rt.Knows(c)
      requires
        || (readSet == map[p.fd := c.id] && writeSet == map[])
        || (readSet == map[] && writeSet == map[p.fd := c.id])
      ensures c.dead && if p.revents.pollin then p.fd in readSet else p.revents.pollout && p.fd in writeSet
    {
    }

    /** The stale bit is reached: a reader is served, then a writer follows in its slot, the kernel
        honestly reports both directions, and the writer is left waiting. */
    method WriterAfterReader(rt: Runtime, readFd: int, reader: Coro, writeFd: int, writer: Coro)
      requires rt.Valid() && rt.mem != pollSet as object && pollSet.Length > 0
      requires rt.Knows(reader) && rt.Knows(writer) && !reader.dead && readSet == writeSet == map[]
      modifies this`readSet, this`writeSet, pollSet, rt`pending, rt`scheduled
      ensures pollSet[0].fd == writeFd && pollSet[0].revents.pollout && Honest([pollSet[0]], [pollSet[0].revents])
      ensures readSet == map[] && writeSet == map[writeFd := writer.id]
      ensures rt.Lists() == Append(old(rt.Lists()), Entry(reader.id, 0))
    {
      ServeReader(rt, readFd, reader);
      SetWaitForWrite(writeFd, writer.id);
      PollLone(rt, writeFd, writer, Bits(true, true, false));
    }

    /** The other way round: a writer is served, then a reader follows in its slot, the kernel
        honestly reports POLLOUT alone, and the slot is looked at for nothing. */
    method ReaderAfterWriter(rt: Runtime, writeFd: int, writer: Coro, readFd: int, reader: Coro)
      requires rt.Valid() && rt.mem != pollSet as object && pollSet.Length > 0
      requires rt.Knows(reader) && rt.Knows(writer) && !writer.dead && readSet == writeSet == map[]
      modifies this`readSet, this`writeSet, pollSet, rt`pending, rt`scheduled
      ensures pollSet[0].fd == readFd && pollSet[0].revents == WRITE_BITS
      ensures Honest([pollSet[0]], [pollSet[0].revents])
      ensures pollSet[0].events.pollin && pollSet[0].events.pollout
      ensures readSet == map[readFd := reader.id] && writeSet == map[]
      ensures rt.Lists() == Append(old(rt.Lists()), Entry(writer.id, 0))
    {
      ServeWriter(rt, writeFd, writer);
      SetWaitForRead(readFd, reader.id);
      PollLone(rt, readFd, reader, WRITE_BITS);
    }
  }

  /** Only the returned bits differ. */
  lemma StaysArmed(a: seq<PollFd>, b: seq<PollFd>, readers: map<int, Id>, writers: map<int, Id>)
    requires Armed(a, readers, writers) && |a| == |b|
    requires forall k | 0 <= k < |a| :: b[k].fd == a[k].fd && b[k].events == a[k].events
    ensures Armed(b, readers, writers)
  {
    forall k | 0 <= k < |b| ensures AsksForSome(b[k], readers, writers) {
      assert AsksForSome(a[k], readers, writers);
      var r :| Registered(readers, writers, r) && AsksFor(a[k], r);
      assert AsksFor(b[k], r);
    }
  }

  lemma NothingDispatched(r: Ready, readers: map<int, Id>, writers: map<int, Id>)
    ensures Dispatch([], readers, writers) == Dispatched(readers, writers, [], [])
    ensures AppendAll(r, Wakes([])) == r
  {
  }

  lemma SoleKey(all: seq<int>, order: seq<int>, keys: set<int>, fd: int)
    requires |all| == 1 && (forall x <- order :: x in all) && Lists(order, keys) && fd in keys
    ensures all[0] == fd
  {
  }

  lemma OneSlot(p: PollFd, readers: map<int, Id>, writers: map<int, Id>)
    ensures Dispatch([p], readers, writers) == Inspect(Dispatched(readers, writers, [], []), p)
  {
    assert [p][..0] == [];
  }

  /** One slot and one registration, for the slot's descriptor. */
  lemma LoneSlot(r: Ready, p: PollFd, readers: map<int, Id>, writers: map<int, Id>, c: Id)
    requires (readers == map[p.fd := c] && writers == map[]) || (readers == map[] && writers == map[p.fd := c])
    ensures var d := Dispatch([p], readers, writers);
      if (p.revents.pollin && p.fd in readers) || (!p.revents.pollin && p.revents.pollout && p.fd in writers) then
        d.readers == d.writers == map[] && AppendAll(r, Wakes(d.woken)) == Append(r, Entry(c, 0))
      else d.readers == readers && d.writers == writers && AppendAll(r, Wakes(d.woken)) == r
  {
    OneSlot(p, readers, writers);
  }

  /** What a slot asks for does not depend on what has been scheduled before. */
  lemma InspectAppends(d: Dispatched, p: PollFd)
    ensures var d', e := Inspect(d, p), Inspect(Dispatched(d.readers, d.writers, [], []), p);
      d'.readers == e.readers && d'.writers == e.writers && d'.woken == d.woken + e.woken
  {
  }

  lemma AppendWakes(r: Ready, a: seq<Id>, b: seq<Id>)
    ensures AppendAll(AppendAll(r, Wakes(a)), Wakes(b)) == AppendAll(r, Wakes(a + b))
  {
    assert Wakes(a + b) == Wakes(a) + Wakes(b);
  }

  /** Inspecting one slot more schedules what that slot asks for, after the others. */
  lemma DispatchNext(r: Ready, ps: seq<PollFd>, k: nat, readers: map<int, Id>, writers: map<int, Id>)
    requires k < |ps|
    ensures var d, d' := Dispatch(ps[..k], readers, writers), Dispatch(ps[..k + 1], readers, writers);
      var e := Inspect(Dispatched(d.readers, d.writers, [], []), ps[k]);
      && d'.readers == e.readers && d'.writers == e.writers
      && AppendAll(AppendAll(r, Wakes(d.woken)), Wakes(e.woken)) == AppendAll(r, Wakes(d'.woken))
  {
    hide Inspect, AppendAll, Wakes;
    assert ps[..k + 1][..k] == ps[..k];
    var d := Dispatch(ps[..k], readers, writers);
    InspectAppends(d, ps[k]);
    AppendWakes(r, d.woken, Inspect(Dispatched(d.readers, d.writers, [], []), ps[k]).woken);
  }

  function Or(a: Bits, b: Bits): Bits {
    Bits(a.pollin || b.pollin, a.pollout || b.pollout, a.other || b.other)
  }

  function Wakes(woken: seq<Id>): seq<Entry> {
    seq(|woken|, i requires 0 <= i < |woken| => Entry(woken[i], 0))
  }
}
