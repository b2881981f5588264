/** Timer arithmetic: the struct timeval macros, the deadline computed by sleep(), and the
    time the event loop allows the poller to wait. */
module Timevals {
  import opened Options

  const MICROS_PER_SEC := 1_000_000
  const DEFAULT_WAIT := 30_000_000

  datatype Timeval = Timeval(sec: int, usec: int) {
    predicate Normal() {
      0 <= usec < MICROS_PER_SEC
    }

    function Micros(): int {
      sec * MICROS_PER_SEC + usec
    }
  }

  /** timercmp (a, b, <) */
  predicate Less(a: Timeval, b: Timeval) {
    if a.sec == b.sec then a.usec < b.usec else a.sec < b.sec
  }

  /** timeradd: carries at most one second. */
  function Add(a: Timeval, b: Timeval): Timeval {
    var u := a.usec + b.usec;
    if u >= MICROS_PER_SEC then Timeval(a.sec + b.sec + 1, u - MICROS_PER_SEC)
    else Timeval(a.sec + b.sec, u)
  }

  /** timersub: borrows at most one second. */
  function Sub(a: Timeval, b: Timeval): Timeval {
    var u := a.usec - b.usec;
    if u < 0 then Timeval(a.sec - b.sec - 1, u + MICROS_PER_SEC)
    else Timeval(a.sec - b.sec, u)
  }

  /** C division truncates toward zero. */
  function TruncDiv(a: int, b: int): int
    requires b > 0
  {
    if a >= 0 then a / b else -((-a) / b)
  }

  function TruncMod(a: int, b: int): int
    requires b > 0
  {
    a - TruncDiv(a, b) * b
  }

  /** The event time computed by coro::sleep. */
  function SleepDeadline(t0: Timeval, msec: int): Timeval {
    Add(t0, Timeval(TruncDiv(msec, 1000), TruncMod(msec, 1000) * 1000))
  }

  /** coro::time_to_next_event, given the earliest deadline (if any) and the clock. */
  function TimeToNextEvent(top: Option<Timeval>, now: Timeval): int {
    match top
    case None => DEFAULT_WAIT
    case Some(t) =>
      var gap := Sub(t, now);
      if gap.sec >= 0 && gap.usec > 0 then gap.sec * 1_000_000 + gap.usec else 0
  }

  /** The millisecond argument that poll_poller::poll hands to poll(2). */
  function PollMillis(usec: int): int {
    TruncDiv(usec, 1000)
  }

  /** timercmp is the order of instants exactly on normalised operands. */
  lemma LessIsEarlier(a: Timeval, b: Timeval)
    requires a.Normal() && b.Normal()
    ensures Less(a, b) <==> a.Micros() < b.Micros()
  {
  }

  /** Whatever the sign of msec the deadline denotes t0 + msec milliseconds; it is normalised
      exactly when the truncated remainder does not borrow past t0's microseconds. */
  lemma SleepDeadlineDenotes(t0: Timeval, msec: int)
    requires t0.Normal()
    ensures SleepDeadline(t0, msec).Micros() == t0.Micros() + msec * 1000
    ensures SleepDeadline(t0, msec).usec < MICROS_PER_SEC
    ensures SleepDeadline(t0, msec).Normal() <==> 0 <= t0.usec + TruncMod(msec, 1000) * 1000
    ensures msec >= 0 ==> SleepDeadline(t0, msec).Normal()
  {
  }

  /** A timer taken by the strict test of schedule_events is already in the past, even when a
      negative sleep left its deadline denormalised. */
  lemma FiredIsPast(deadline: Timeval, now: Timeval)
    requires deadline.usec < MICROS_PER_SEC && now.Normal()
    requires Less(deadline, now)
    ensures deadline.Micros() < now.Micros()
  {
  }

  /** ... and on a clock that does not go back it is taken as soon as it is past, whatever msec. */
  lemma PastIsFired(t0: Timeval, msec: int, now: Timeval)
    requires t0.Normal() && now.Normal() && t0.Micros() <= now.Micros()
    requires t0.Micros() + msec * 1000 < now.Micros()
    ensures Less(SleepDeadline(t0, msec), now)
  {
    SleepDeadlineDenotes(t0, msec);
    var q, m := TruncDiv(msec, 1000), TruncMod(msec, 1000);
    assert msec == q * 1000 + m;
    assert msec < 0 ==> q <= 0 && m <= 0;
  }

  /** Poll is given whole milliseconds, rounded down: it loses less than one. */
  lemma MillisLoseLessThanOne(wait: int)
    requires wait >= 0
    ensures PollMillis(wait) * 1000 <= wait < PollMillis(wait) * 1000 + 1000
  {
  }

  /** The wait is the exact gap when that is positive and not a whole number of seconds, and
      otherwise zero.  Poll never gets more than the gap, and when there is one to wait for, all of
      it but less than a millisecond. */
  lemma NoOversleeping(t: Timeval, now: Timeval)
    requires t.Normal() && now.Normal()
    ensures
      var gap := t.Micros() - now.Micros();
      var wait := TimeToNextEvent(Some(t), now);
      && wait == (if gap > 0 && gap % 1_000_000 != 0 then gap else 0)
      && 0 <= PollMillis(wait) * 1000 <= (if gap > 0 then gap else 0)
      && (gap > 0 && gap % 1_000_000 != 0 ==> gap < PollMillis(wait) * 1000 + 1000)
  {
    MillisLoseLessThanOne(TimeToNextEvent(Some(t), now));
  }

  /** Without events poll is given half a minute. */
  lemma HalfAMinuteWithoutEvents(now: Timeval)
    ensures TimeToNextEvent(None, now) == 30_000_000 && PollMillis(TimeToNextEvent(None, now)) == 30_000
  {
  }

  /** "Sleep until the next deadline" is the intent; the code asks for no wait at all (and so
      spins) exactly when the positive gap is a whole number of seconds. */
  lemma SpinsOnWholeSeconds(t: Timeval, now: Timeval)
    requires t.Normal() && now.Normal()
    requires now.Micros() < t.Micros()
    ensures TimeToNextEvent(Some(t), now) == t.Micros() - now.Micros() <==> t.usec != now.usec
    ensures t.usec == now.usec ==> TimeToNextEvent(Some(t), now) == 0
  {
  }

  lemma SpinExample()
    ensures TimeToNextEvent(Some(Timeval(5, 250)), Timeval(3, 250)) == 0
  {
  }
}
