/**
 The runner as a transition system: request handlers and worker threads interleave freely, and
 each block under a lock, each semaphore operation and each job body is one step.
 */
module JobMachine {
  import opened Wrappers
  import opened Registry
  import opened Admission

  /**
   Where a job stands. A request handler takes it from `Reserved` to `Spawned`; a worker thread
   takes it from there to `Done`. `Refused` and `StartFailing` are the handler's two exits.
   */
  datatype Phase =
    | Reserved      // counted as queued, not registered yet
    | Registered    // holds a registration, its thread not started yet
    | Refused       // registration refused, reservation not given back yet
    | StartFailing  // thread did not start, reservation given back, record not marked yet
    | Spawned       // waits for a slot
    | SlotHeld      // holds a slot, still counted as queued
    | Started       // counted as active, record not marked Running yet
    | Working       // the body runs
    | Written       // the body is over and its outcome is recorded
    | Finished      // no longer counted, slot still held
    | Gone

  datatype Job =
    | Verification(phase: Phase)
    | Prompt(id: RequestId, hash: string, phase: Phase)

  /** How a job body ends; a body that succeeds produces an evaluation of its own request. */
  datatype Outcome = Succeeds(verdict: string) | Fails(message: string)

  datatype Event =
    | Arrive(request: Job)
    | Register(i: nat, now: real)
    | GiveBack(i: nat)
    | StartThread(i: nat)
    | StartFails(i: nat)
    | MarkStartFailure(i: nat, message: string, now: real)
    | AcquireSlot(i: nat)
    | BeginJob(i: nat)
    | MarkRunningEvent(i: nat, now: real)
    | BodyEnds(i: nat, outcome: Outcome, now: real)
    | FinishJob(i: nat)
    | ReleaseSlot(i: nat)

  /** `writer` remembers which job last wrote each record; no step reads it. */
  datatype State = State(
    limits: Limits,
    counters: Counters,
    freeSlots: int,
    jobs: seq<Job>,
    registry: Evaluations,
    writer: map<RequestId, nat>)

  function Init(limits: Limits): State {
    State(limits, Counters(0, 0), limits.runConcurrency, [], map[], map[])
  }

  // ----- Steps

  predicate At(s: State, i: nat, p: Phase) {
    i < |s.jobs| && s.jobs[i].phase == p
  }

  ghost predicate Enabled(s: State, e: Event) {
    match e
    case Arrive(job) => job.phase == Reserved
    case Register(i, _) => At(s, i, Reserved) && s.jobs[i].Prompt?
    case GiveBack(i) => At(s, i, Refused)
    case StartThread(i) => ReadyToStart(s, i)
    case StartFails(i) => ReadyToStart(s, i)
    case MarkStartFailure(i, _, _) => At(s, i, StartFailing)
    case AcquireSlot(i) => At(s, i, Spawned) && s.freeSlots > 0
    case BeginJob(i) => At(s, i, SlotHeld)
    case MarkRunningEvent(i, _) => At(s, i, Started)
    case BodyEnds(i, _, _) => At(s, i, Working)
    case FinishJob(i) => At(s, i, Written)
    case ReleaseSlot(i) => At(s, i, Phase.Finished)
  }

  predicate ReadyToStart(s: State, i: nat) {
    At(s, i, if i < |s.jobs| && s.jobs[i].Prompt? then Registered else Phase.Reserved)
  }

  const MAX_ERROR_CHARACTERS: nat := 1_000

  function OutcomePatch(job: Job, outcome: Outcome): Patch
    requires job.Prompt?
  {
    match outcome
    case Succeeds(verdict) => MarkComplete(Evaluation(job.id, job.hash, verdict))
    case Fails(message) =>
      MarkFailed(if |message| <= MAX_ERROR_CHARACTERS then message else message[..MAX_ERROR_CHARACTERS])
  }

  /** What a step writes to its job's record, if anything; verifications keep no record. */
  function Write(job: Job, e: Event): Option<(Patch, real)> {
    if job.Verification? then None else
    match e
    case MarkStartFailure(_, message, now) => Some((MarkFailed(message), now))
    case MarkRunningEvent(_, now) => Some((MarkRunning, now))
    case BodyEnds(_, outcome, now) => Some((OutcomePatch(job, outcome), now))
    case _ => None
  }

  ghost predicate Accepted(s: State, e: Event)
    requires Enabled(s, e) && e.Register?
  {
    RegisteredIn(s.registry, s.jobs[e.i].id, s.jobs[e.i].hash, e.now).1
  }

  ghost function NextPhase(s: State, e: Event): Phase
    requires Enabled(s, e) && !e.Arrive?
  {
    match e
    case Register(i, now) => if Accepted(s, e) then Registered else Refused
    case GiveBack(_) => Gone
    case StartThread(_) => Spawned
    case StartFails(i) => if s.jobs[i].Prompt? then StartFailing else Gone
    case MarkStartFailure(_, _, _) => Gone
    case AcquireSlot(_) => SlotHeld
    case BeginJob(i) => if s.jobs[i].Prompt? then Started else Working
    case MarkRunningEvent(_, _) => Working
    case BodyEnds(_, _, _) => Written
    case FinishJob(_) => Phase.Finished
    case ReleaseSlot(_) => Gone
  }

  function NextCounters(c: Counters, e: Event): Counters {
    match e
    case Arrive(_) => Admission.Reserved(c)
    case GiveBack(_) => Cancelled(c)
    case StartFails(_) => Cancelled(c)
    case BeginJob(_) => Begun(c)
    case FinishJob(_) => Admission.Finished(c)
    case _ => c
  }

  function NextSlots(free: int, e: Event): int {
    match e
    case AcquireSlot(_) => free - 1
    case ReleaseSlot(_) => free + 1
    case _ => free
  }

  ghost function NextRegistry(s: State, e: Event): Evaluations
    requires Enabled(s, e) && !e.Arrive?
  {
    var job := s.jobs[e.i];
    if e.Register? then RegisteredIn(s.registry, job.id, job.hash, e.now).0
    else match Write(job, e)
      case Some((patch, now)) => UpdatedIn(s.registry, job.id, patch, now)
      case None => s.registry
  }

  ghost function NextWriter(s: State, e: Event): map<RequestId, nat>
    requires Enabled(s, e) && !e.Arrive?
  {
    var job := s.jobs[e.i];
    var writes :=
      if e.Register? then Accepted(s, e) && job.id !in Pruned(s.registry, e.now)
      else Write(job, e).Some? && job.id in s.registry;
    if writes then s.writer[job.id := e.i] else s.writer
  }

  /** An arrival that finds no room is answered at once and leaves no trace. */
  ghost function Apply(s: State, e: Event): State
    requires Enabled(s, e)
  {
    if e.Arrive? then
      if HasRoom(s.limits, s.counters)
      then s.(counters := NextCounters(s.counters, e), jobs := s.jobs + [e.request])
      else s
    else
      State(s.limits, NextCounters(s.counters, e), NextSlots(s.freeSlots, e),
            s.jobs[e.i := s.jobs[e.i].(phase := NextPhase(s, e))],
            NextRegistry(s, e), NextWriter(s, e))
  }

  // ----- Runs

  ghost predicate Valid(s: State, run: seq<Event>)
    decreases |run|
  {
    run == [] || (Enabled(s, run[0]) && Valid(Apply(s, run[0]), run[1..]))
  }

  ghost function After(s: State, run: seq<Event>): State
    requires Valid(s, run)
    decreases |run|
  {
    if run == [] then s else After(Apply(s, run[0]), run[1..])
  }

  lemma {:induction false} RunsCompose(s: State, a: seq<Event>, b: seq<Event>)
    requires Valid(s, a) && Valid(After(s, a), b)
    ensures Valid(s, a + b) && After(s, a + b) == After(After(s, a), b)
    decreases |a|
  {
    if a == [] {
      assert a + b == b;
    } else {
      RunsCompose(Apply(s, a[0]), a[1..], b);
      assert (a + b)[1..] == a[1..] + b;
    }
  }

  lemma OneStep(s: State, a: Event)
    requires Enabled(s, a)
    ensures Valid(s, [a]) && After(s, [a]) == Apply(s, a)
  {
    assert [a][1..] == [];
    assert Valid(Apply(s, a), []);
  }

  lemma Extend(s: State, run: seq<Event>, e: Event)
    requires Valid(s, run) && Enabled(After(s, run), e)
    ensures Valid(s, run + [e]) && After(s, run + [e]) == Apply(After(s, run), e)
  {
    OneStep(After(s, run), e);
    RunsCompose(s, run, [e]);
  }

  // ----- Weighing the jobs

  function Total(jobs: seq<Job>, weight: Job -> nat): nat {
    if jobs == [] then 0 else Total(jobs[..|jobs| - 1], weight) + weight(jobs[|jobs| - 1])
  }

  /** Reserved and not yet begun or given back. */
  function Waiting(j: Job): nat {
    if j.phase in {Phase.Reserved, Registered, Refused, Spawned, SlotHeld} then 1 else 0
  }

  /** Begun and not yet finished. */
  function Active(j: Job): nat { if j.phase in {Started, Working, Written} then 1 else 0 }

  function HoldsSlot(j: Job): nat {
    if j.phase in {SlotHeld, Started, Working, Written, Phase.Finished} then 1 else 0
  }

  /** A handler that has given back its reservation and has not yet marked the record Failed. */
  function FailingToStart(j: Job): nat { if j.phase == StartFailing then 1 else 0 }

  /** The number of steps a job may still take. */
  function StepsLeft(j: Job): nat {
    match j.phase
    case Reserved => 8
    case Registered => 7
    case Spawned => 6
    case SlotHeld => 5
    case Started => 4
    case Working => 3
    case Written => 2
    case Finished => 1
    case Refused => 1
    case StartFailing => 1
    case Gone => 0
  }

  lemma {:induction false} TotalUpdate(jobs: seq<Job>, i: nat, j: Job, weight: Job -> nat)
    requires i < |jobs|
    ensures Total(jobs[i := j], weight) == Total(jobs, weight) - weight(jobs[i]) + weight(j)
  {
    var last := |jobs| - 1;
    if i < last {
      TotalUpdate(jobs[..last], i, j, weight);
      assert jobs[i := j][..last] == jobs[..last][i := j];
    } else {
      assert jobs[i := j][..last] == jobs[..last];
    }
  }

  lemma TotalAppend(jobs: seq<Job>, j: Job, weight: Job -> nat)
    ensures Total(jobs + [j], weight) == Total(jobs, weight) + weight(j)
  {
    assert (jobs + [j])[..|jobs|] == jobs;
  }

  lemma {:induction false} TotalLeq(jobs: seq<Job>, a: Job -> nat, b: Job -> nat)
    requires forall j :: a(j) <= b(j)
    ensures Total(jobs, a) <= Total(jobs, b)
  {
    if jobs != [] {
      TotalLeq(jobs[..|jobs| - 1], a, b);
    }
  }

  lemma {:induction false} TotalZero(jobs: seq<Job>, weight: Job -> nat)
    requires forall i :: 0 <= i < |jobs| ==> weight(jobs[i]) == 0
    ensures Total(jobs, weight) == 0
  {
    if jobs != [] {
      TotalZero(jobs[..|jobs| - 1], weight);
    }
  }

  lemma {:induction false} WeightBelowTotal(jobs: seq<Job>, i: nat, weight: Job -> nat)
    requires i < |jobs|
    ensures weight(jobs[i]) <= Total(jobs, weight)
  {
    if i < |jobs| - 1 {
      WeightBelowTotal(jobs[..|jobs| - 1], i, weight);
    }
  }

  lemma {:induction false} SomeWeight(jobs: seq<Job>, weight: Job -> nat) returns (i: nat)
    requires Total(jobs, weight) > 0
    ensures i < |jobs| && weight(jobs[i]) > 0
  {
    i := |jobs| - 1;
    if weight(jobs[i]) == 0 {
      i := SomeWeight(jobs[..i], weight);
    }
  }

  // ----- The counters tell the truth

  ghost predicate CountersExact(s: State) {
    Books(s.limits, s.jobs, s.counters, s.freeSlots)
  }

  ghost predicate Books(limits: Limits, jobs: seq<Job>, c: Counters, freeSlots: int) {
    && c.queued == Total(jobs, Waiting)
    && c.active == Total(jobs, Active)
    && freeSlots + Total(jobs, HoldsSlot) == limits.runConcurrency
    && freeSlots >= 0
    && c.active + c.queued <= limits.Capacity()
  }

  /** The decrement of a step that gives a counter back: the clamp at 0 does not act. */
  ghost predicate ClampActs(s: State, e: Event) {
    match e
    case GiveBack(_) => s.counters.queued - 1 < 0
    case StartFails(_) => s.counters.queued - 1 < 0
    case BeginJob(_) => s.counters.queued - 1 < 0
    case FinishJob(_) => s.counters.active - 1 < 0
    case _ => false
  }

  lemma CountersStep(s: State, e: Event)
    requires CountersExact(s) && Enabled(s, e)
    ensures CountersExact(Apply(s, e)) && !ClampActs(s, e)
  {
    if e.Arrive? {
      if HasRoom(s.limits, s.counters) {
        BooksAppend(s.limits, s.jobs, e.request, s.counters, s.freeSlots);
      }
    } else {
      var j := s.jobs[e.i].(phase := NextPhase(s, e));
      WeightBelowTotal(s.jobs, e.i, Waiting);
      WeightBelowTotal(s.jobs, e.i, Active);
      PhaseAndCountersMoveTogether(s, e);
      BooksUpdate(s.limits, s.jobs, e.i, j, s.counters, NextCounters(s.counters, e),
                  s.freeSlots, NextSlots(s.freeSlots, e));
    }
  }

  lemma PhaseAndCountersMoveTogether(s: State, e: Event)
    requires Enabled(s, e) && !e.Arrive? && s.freeSlots >= 0
    requires s.counters.queued >= Waiting(s.jobs[e.i]) && s.counters.active >= Active(s.jobs[e.i])
    ensures var before, after := s.jobs[e.i], s.jobs[e.i].(phase := NextPhase(s, e));
            var c := NextCounters(s.counters, e);
            && c.queued == s.counters.queued - Waiting(before) + Waiting(after)
            && c.active == s.counters.active - Active(before) + Active(after)
            && NextSlots(s.freeSlots, e) == s.freeSlots + HoldsSlot(before) - HoldsSlot(after)
            && NextSlots(s.freeSlots, e) >= 0
            && c.queued + c.active <= s.counters.queued + s.counters.active
            && !ClampActs(s, e)
  {
    if e.Register? {
      assert NextPhase(s, e) in {Registered, Refused};
    }
  }

  lemma BooksAppend(limits: Limits, jobs: seq<Job>, j: Job, c: Counters, freeSlots: int)
    requires Books(limits, jobs, c, freeSlots) && j.phase == Phase.Reserved && HasRoom(limits, c)
    ensures Books(limits, jobs + [j], Admission.Reserved(c), freeSlots)
  {
    TotalAppend(jobs, j, Waiting);
    TotalAppend(jobs, j, Active);
    TotalAppend(jobs, j, HoldsSlot);
  }

  lemma BooksUpdate(limits: Limits, jobs: seq<Job>, i: nat, j: Job, c: Counters, c': Counters, free: int, free': int)
    requires Books(limits, jobs, c, free) && i < |jobs|
    requires c'.queued == c.queued - Waiting(jobs[i]) + Waiting(j)
    requires c'.active == c.active - Active(jobs[i]) + Active(j)
    requires free' == free + HoldsSlot(jobs[i]) - HoldsSlot(j) && free' >= 0
    requires c'.queued + c'.active <= c.queued + c.active
    ensures Books(limits, jobs[i := j], c', free')
  {
    TotalUpdate(jobs, i, j, Waiting);
    TotalUpdate(jobs, i, j, Active);
    TotalUpdate(jobs, i, j, HoldsSlot);
  }
}
