/** Once arrivals stop, every schedule of the runner ends, and ends with nothing left over. */
module JobMachineDrain {
  import opened Registry
  import opened Admission
  import opened JobMachine
  import opened JobMachineRuns

  ghost predicate NoArrivals(run: seq<Event>) {
    forall k :: 0 <= k < |run| ==> !run[k].Arrive?
  }

  /** No step but an arrival is possible. */
  ghost predicate Stuck(s: State) {
    forall e :: Enabled(s, e) ==> e.Arrive?
  }

  lemma StepsLeftStep(s: State, e: Event)
    requires Enabled(s, e) && !e.Arrive?
    ensures Total(Apply(s, e).jobs, StepsLeft) < Total(s.jobs, StepsLeft)
  {
    var j := s.jobs[e.i].(phase := NextPhase(s, e));
    assert StepsLeft(j) < StepsLeft(s.jobs[e.i]);
    TotalUpdate(s.jobs, e.i, j, StepsLeft);
  }

  lemma {:induction false} SchedulesAreFinite(s: State, run: seq<Event>)
    requires Valid(s, run) && NoArrivals(run)
    ensures |run| + Total(After(s, run).jobs, StepsLeft) <= Total(s.jobs, StepsLeft)
    decreases |run|
  {
    if run != [] {
      StepsLeftStep(s, run[0]);
      SchedulesAreFinite(Apply(s, run[0]), run[1..]);
    }
  }

  /** The step a job can take next, whatever the others do, unless it waits for a slot. */
  function NextStep(s: State, i: nat): Event
    requires i < |s.jobs| && s.jobs[i].phase != Gone
  {
    match s.jobs[i].phase
    case Reserved => if s.jobs[i].Prompt? then Event.Register(i, 0.0) else StartThread(i)
    case Registered => StartThread(i)
    case Refused => GiveBack(i)
    case StartFailing => MarkStartFailure(i, "", 0.0)
    case Spawned => AcquireSlot(i)
    case SlotHeld => BeginJob(i)
    case Started => MarkRunningEvent(i, 0.0)
    case Working => BodyEnds(i, Fails(""), 0.0)
    case Written => FinishJob(i)
    case Finished => ReleaseSlot(i)
  }

  /** Verifications register nothing, so their handler and worker skip the registry's phases. */
  predicate PhasesFit(j: Job) {
    j.Verification? ==> j.phase !in {Registered, Refused, StartFailing, Started}
  }

  ghost predicate AllPhasesFit(s: State) {
    forall i :: 0 <= i < |s.jobs| ==> PhasesFit(s.jobs[i])
  }

  lemma {:induction false} PhasesKept(s: State, run: seq<Event>)
    requires AllPhasesFit(s) && Valid(s, run)
    ensures AllPhasesFit(After(s, run))
    decreases |run|
  {
    if run != [] {
      PhasesKept(Apply(s, run[0]), run[1..]);
    }
  }

  lemma NobodyWaitsForever(s: State, i: nat) returns (e: Event)
    requires CountersExact(s) && s.limits.Valid() && AllPhasesFit(s)
    requires i < |s.jobs| && s.jobs[i].phase != Gone
    ensures Enabled(s, e) && !e.Arrive?
  {
    if s.jobs[i].phase == Spawned && s.freeSlots == 0 {
      var holder := SomeWeight(s.jobs, HoldsSlot);
      e := NextStep(s, holder);
    } else {
      e := NextStep(s, i);
    }
  }

  ghost predicate Drained(s: State) {
    && (forall i :: 0 <= i < |s.jobs| ==> s.jobs[i].phase == Gone)
    && s.counters == Counters(0, 0)
    && s.freeSlots == s.limits.runConcurrency
    && forall id :: id in s.registry ==> Terminal(s.registry[id])
  }

  lemma EndedIsDrained(s: State)
    requires Inv(s) && forall i :: 0 <= i < |s.jobs| ==> s.jobs[i].phase == Gone
    ensures Drained(s)
  {
    TotalZero(s.jobs, Waiting);
    TotalZero(s.jobs, Active);
    TotalZero(s.jobs, HoldsSlot);
    forall id | id in s.registry ensures Terminal(s.registry[id]) {
      if !Terminal(s.registry[id]) {
        assert false;
      }
    }
  }

  lemma StuckIffDrained(s: State)
    requires Inv(s) && s.limits.Valid() && AllPhasesFit(s)
    ensures Stuck(s) <==> Drained(s)
    ensures Total(s.jobs, StepsLeft) == 0 ==> Drained(s)
  {
    if i :| 0 <= i < |s.jobs| && s.jobs[i].phase != Gone {
      var e := NobodyWaitsForever(s, i);
      StepsLeftStep(s, e);
    } else {
      EndedIsDrained(s);
    }
  }

  /**
   From any reachable state, a schedule without arrivals takes a bounded number of steps, can be
   continued exactly while a job is unfinished, and where it cannot be continued both counters are
   0, every slot is free, and every record left is Complete or Failed.
   */
  lemma Drains(limits: Limits, run: seq<Event>, schedule: seq<Event>)
    requires limits.Valid() && Valid(Init(limits), run)
    requires Valid(After(Init(limits), run), schedule) && NoArrivals(schedule)
    ensures var s := After(Init(limits), run);
            var t := After(s, schedule);
            && |schedule| <= Total(s.jobs, StepsLeft)
            && (Stuck(t) <==> Drained(t))
            && (|schedule| == Total(s.jobs, StepsLeft) ==> Drained(t))
  {
    var s := After(Init(limits), run);
    var t := After(s, schedule);
    Reachable(limits, run);
    PhasesKept(Init(limits), run);
    InvKept(s, schedule);
    PhasesKept(s, schedule);
    SchedulesAreFinite(s, schedule);
    StuckIffDrained(t);
  }
}
