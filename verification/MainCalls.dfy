/** condition_variable::wait called by main.  Its guard looks at current(), which is never cleared. */
module MainCalls {
  import opened Options
  import opened Scheduling
  import opened WakeUniqueness
  import opened RunProperties
  import opened NobodyLost

  /** Thrown out, or on the queue under the name of the coroutine resumed last. */
  datatype MainCall = Refused | Enlisted(q: System)

  /** wait() called outside run_pending, up to its yield. */
  function MainWait(q: System, cv: CvId): MainCall {
    match q.status.current
    case None => Refused
    case Some(me) =>
      Enlisted(q.(blocked := q.blocked.(waiting := q.blocked.waiting[cv := Queue(q, cv) + [me]])))
  }

  /** Main is refused, as it always should be, exactly until the first resume of the program. */
  lemma MainIsRefusedIff(qs: seq<System>, ls: seq<Label>, i: nat, cv: CvId)
    requires IsRun(qs, ls) && i <= |ls|
    ensures MainWait(qs[i], cv).Refused? <==> qs[i].ready.resumed == []
  {
    hide Step, Enabled;
    MainIsRecognisedOnlyBeforeTheFirstResume(qs, ls, i);
  }

  lemma {:induction false} CurrentWasSpawned(qs: seq<System>, ls: seq<Label>, i: nat)
    requires IsRun(qs, ls) && i <= |ls|
    ensures qs[i].status.current.Some? ==> qs[i].status.current.value in qs[i].status.spawned
  {
    hide Step;
    if i > 0 {
      CurrentWasSpawned(qs, ls, i - 1);
      RunKeepsPlaces(qs, ls, i - 1);
      RunStep(qs, ls, i - 1);
      StepStatus(qs[i - 1], ls[i - 1], qs[i]);
      StepKeepsStaging(qs[i - 1], ls[i - 1], qs[i]);
      if ls[i - 1].Resume? {
        assert At(qs[i - 1], InStaging(0), qs[i - 1].ready.staging[0].id);
      }
    }
  }

  /** The running coroutine is the current one, so it is never the one displaced: what current()
      names is somewhere as long as it lives. */
  ghost predicate CurrentPlaced(q: System) {
    && (q.phase.Running? ==> q.status.current == Some(q.phase.c))
    && (q.status.current.Some? && Living(q, q.status.current.value) ==> Somewhere(q, q.status.current.value))
  }

  lemma ResumePlaces(q: System, q': System)
    requires Enabled(q, Resume) && Step(q, Resume) == Next(q')
    ensures q'.status.current.Some? && q'.phase == Running(q'.status.current.value)
  {
  }

  lemma PhaseStays(q: System, l: Label, q': System)
    requires Enabled(q, l) && Step(q, l) == Next(q') && !l.Resume? && q'.phase.Running?
    ensures q'.phase == q.phase
  {
  }

  lemma DisplacerMoves(q: System, l: Label, q': System)
    requires Enabled(q, l) && Step(q, l) == Next(q') && Displaces(q, l)
    ensures q.phase.Running? && At(q', Slot(l), q.phase.c)
  {
  }

  lemma CurrentStaysPlaced(q: System, l: Label, q': System)
    requires PlaceInv(q) && CurrentPlaced(q) && Enabled(q, l) && Step(q, l) == Next(q') && !l.Resume?
    ensures var cur := q'.status.current;
      cur.Some? && Living(q', cur.value) && cur.value in q.status.spawned ==> Somewhere(q', cur.value)
  {
    hide Step, Enabled, Goes;
    StepStatus(q, l, q');
    StepKeepsStaging(q, l, q');
    if q.status.current.Some? && Living(q', q.status.current.value) && q.status.current.value in q.status.spawned {
      var c := q.status.current.value;
      var p :| At(q, p, c);
      if Displaces(q, l) {
        DisplacerMoves(q, l, q');
      } else {
        StepGoes(q, l, q', p, c);
      }
    }
  }

  lemma {:induction false} CurrentIsPlaced(qs: seq<System>, ls: seq<Label>, i: nat)
    requires IsRun(qs, ls) && i <= |ls|
    ensures CurrentPlaced(qs[i])
  {
    hide Step, Enabled, At;
    if i > 0 {
      CurrentIsPlaced(qs, ls, i - 1);
      CurrentWasSpawned(qs, ls, i - 1);
      RunKeepsPlaces(qs, ls, i - 1);
      RunStep(qs, ls, i - 1);
      StepStatus(qs[i - 1], ls[i - 1], qs[i]);
      if ls[i - 1].Resume? {
        ResumePlaces(qs[i - 1], qs[i]);
        RunningIsSomewhere(qs[i]);
      } else {
        CurrentStaysPlaced(qs[i - 1], ls[i - 1], qs[i]);
        if qs[i].phase.Running? { PhaseStays(qs[i - 1], ls[i - 1], qs[i]); }
      }
    }
  }

  lemma RunningIsSomewhere(q: System)
    requires q.phase.Running?
    ensures Somewhere(q, q.phase.c)
  {
    assert At(q, OnCpu, q.phase.c);
  }

  /** When main is accepted, the queue ends with the coroutine resumed last, and that one is dead, or
      is at a second place as well: either way it must not be woken from there. */
  lemma EnlistedIsDeadOrElsewhere(qs: seq<System>, ls: seq<Label>, i: nat, cv: CvId)
    requires IsRun(qs, ls) && i <= |ls| && MainWait(qs[i], cv).Enlisted?
    ensures var me, q, here := qs[i].status.current.value, MainWait(qs[i], cv).q, InQueue(cv, |Queue(qs[i], cv)|);
      && Queue(q, cv) == Queue(qs[i], cv) + [me] && At(q, here, me)
      && (me in q.status.dead || exists p :: p != here && At(q, p, me))
  {
    hide Step, Enabled;
    var me, q := qs[i].status.current.value, MainWait(qs[i], cv).q;
    CurrentWasSpawned(qs, ls, i);
    CurrentIsPlaced(qs, ls, i);
    if me !in q.status.dead {
      var p :| At(qs[i], p, me);
      assert p != InQueue(cv, |Queue(qs[i], cv)|) && At(q, p, me);
    }
  }
}
