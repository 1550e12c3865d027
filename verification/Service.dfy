/**
 The request handler and the worker as they are written, over the counters, the registry and the
 slots they change in place. Run without interference, each takes exactly the machine's steps.
 */
module Service {
  import opened Wrappers
  import opened Registry
  import opened Admission
  import opened JobMachine
  import opened JobMachineIntegrity
  import opened JobMachineRuns

  const START_FAILURE := "PDD prompt evaluation could not start"

  datatype Reply = Accepted202 | Conflict409 | TooManyRequests429 | StartFailed

  /** The steps of one submission, given how far it gets. */
  function SubmissionSteps(i: nat, job: Job, reply: Reply, now: real): seq<Event> {
    match reply
    case TooManyRequests429 => [Arrive(job)]
    case Conflict409 => [Arrive(job), Event.Register(i, now), GiveBack(i)]
    case Accepted202 => [Arrive(job), Event.Register(i, now), StartThread(i)]
    case StartFailed => [Arrive(job), Event.Register(i, now), StartFails(i), MarkStartFailure(i, START_FAILURE, now)]
  }

  function WorkerSteps(i: nat, outcome: Outcome, now: real): seq<Event> {
    [AcquireSlot(i), BeginJob(i), MarkRunningEvent(i, now), BodyEnds(i, outcome, now), Event.FinishJob(i), ReleaseSlot(i)]
  }

  /** A finished worker's trace in the registry: its own record with the outcome, if the record is there. */
  ghost predicate Recorded(m: Evaluations, u: Evaluations, id: RequestId, hash: string, outcome: Outcome, now: real) {
    && u.Keys == m.Keys
    && (forall x :: x in m && x != id ==> u[x] == m[x])
    && (id in m ==>
          && u[id].promptHash == m[id].promptHash && u[id].updatedAt == now
          && (outcome.Succeeds? ==>
                u[id].status == Complete && u[id].result == Some(Evaluation(id, hash, outcome.verdict)))
          && (outcome.Fails? ==>
                u[id].status == Failed && u[id].error.Some? && KeptOf(outcome.message, u[id].error.value)))
  }

  class Runner {
    const counters: JobCounters
    const registry: EvaluationRegistry
    var freeSlots: int

    constructor (limits: Limits)
      ensures fresh(this) && fresh(counters) && fresh(registry) && counters.limits == limits
      ensures Shows(Init(limits))
    {
      counters := new JobCounters(limits);
      registry := new EvaluationRegistry();
      freeSlots := limits.runConcurrency;
    }

    /** The objects hold what the machine's state says. */
    ghost predicate Shows(s: State)
      reads this, counters, registry
    {
      && counters.limits == s.limits
      && counters.Value() == s.counters
      && registry.evaluations == s.registry
      && freeSlots == s.freeSlots
    }

    method SubmitPromptEvaluation(id: RequestId, hash: string, now: real, starts: bool, ghost s: State)
      returns (reply: Reply)
      requires Shows(s)
      modifies counters, registry
      ensures var job := Prompt(id, hash, Phase.Reserved);
              var steps := SubmissionSteps(|s.jobs|, job, reply, now);
              Valid(s, steps) && Shows(After(s, steps))
      ensures reply == TooManyRequests429 <==>
                old(counters.active) + old(counters.queued) >= counters.limits.runConcurrency + counters.limits.maxQueued
      ensures reply == Conflict409 <==>
                && reply != TooManyRequests429
                && var kept := Pruned(old(registry.evaluations), now);
                   if id in kept then kept[id].promptHash != hash else |kept| >= 256
      ensures reply == StartFailed ==> !starts
      ensures reply == Accepted202 ==> starts
      ensures counters.active == old(counters.active)
      ensures old(counters.queued) >= 0 ==>
                counters.queued == old(counters.queued) + (if reply == Accepted202 then 1 else 0)
      ensures reply == TooManyRequests429 ==> registry.evaluations == old(registry.evaluations)
      ensures reply == Accepted202 ==> id in registry.evaluations && registry.evaluations[id].promptHash == hash
      ensures reply == StartFailed ==>
                && id in registry.evaluations && registry.evaluations[id].promptHash == hash
                && registry.evaluations[id].status == Failed
                && registry.evaluations[id].error == Some("PDD prompt evaluation could not start")
    {
      var admitted := counters.ReserveJob();
      if !admitted {
        SubmissionReaches(s, id, hash, TooManyRequests429, now);
        return TooManyRequests429;
      }
      var accepted := registry.Register(id, hash, now);
      if !accepted {
        SubmissionReaches(s, id, hash, Conflict409, now);
        counters.CancelReservedJob();
        return Conflict409;
      }
      if !starts {
        SubmissionReaches(s, id, hash, StartFailed, now);
        counters.CancelReservedJob();
        registry.Update(id, MarkFailed(START_FAILURE), now);
        return StartFailed;
      }
      SubmissionReaches(s, id, hash, Accepted202, now);
      return Accepted202;
    }

    method ExecutePromptEvaluationReserved(outcome: Outcome, now: real, ghost s: State, ghost i: nat, id: RequestId, hash: string)
      requires Shows(s) && At(s, i, Spawned) && s.jobs[i].Prompt? && s.jobs[i].id == id && s.jobs[i].hash == hash
      requires freeSlots > 0
      modifies this, counters, registry
      ensures Valid(s, WorkerSteps(i, outcome, now)) && Shows(After(s, WorkerSteps(i, outcome, now)))
      ensures freeSlots == old(freeSlots)
      ensures Recorded(old(registry.evaluations), registry.evaluations, id, hash, outcome, now)
      ensures old(counters.active) >= 0 && old(counters.queued) >= 1 ==>
                counters.active == old(counters.active) && counters.queued == old(counters.queued) - 1
    {
      ghost var steps := WorkerSteps(i, outcome, now);
      WorkerReaches(s, i, outcome, now);
      freeSlots := freeSlots - 1;
      counters.BeginReservedJob();
      registry.Update(id, MarkRunning, now);
      match outcome {
        case Succeeds(verdict) => registry.Update(id, MarkComplete(Evaluation(id, hash, verdict)), now);
        case Fails(message) =>
          registry.Update(id, MarkFailed(if |message| <= 1_000 then message else message[..1_000]), now);
      }
      counters.FinishJob();
      freeSlots := freeSlots + 1;
    }
  }

  /** A submission's steps, one after the other, as far as it gets. */
  lemma SubmissionReaches(s: State, id: RequestId, hash: string, reply: Reply, now: real)
    requires reply == TooManyRequests429 <==> !HasRoom(s.limits, s.counters)
    requires reply == Conflict409 ==> !RegisteredIn(s.registry, id, hash, now).1
    requires reply == Accepted202 || reply == StartFailed ==> RegisteredIn(s.registry, id, hash, now).1
    ensures var steps := SubmissionSteps(|s.jobs|, Prompt(id, hash, Phase.Reserved), reply, now);
            && Valid(s, steps)
            && var t, registered := After(s, steps), RegisteredIn(s.registry, id, hash, now).0;
            && t.limits == s.limits && t.freeSlots == s.freeSlots
            && t.counters == (match reply
                              case TooManyRequests429 => s.counters
                              case Accepted202 => Admission.Reserved(s.counters)
                              case _ => Cancelled(Admission.Reserved(s.counters)))
            && t.registry == (match reply
                              case TooManyRequests429 => s.registry
                              case StartFailed => UpdatedIn(registered, id, MarkFailed(START_FAILURE), now)
                              case _ => registered)
  {
    var i, job := |s.jobs|, Prompt(id, hash, Phase.Reserved);
    OneStep(s, Arrive(job));
    if reply != TooManyRequests429 {
      Extend(s, [Arrive(job)], Event.Register(i, now));
      assert [Arrive(job)] + [Event.Register(i, now)] == [Arrive(job), Event.Register(i, now)];
      FromRegistration(s, id, hash, reply, now);
    }
  }

  lemma FromRegistration(s: State, id: RequestId, hash: string, reply: Reply, now: real)
    requires reply != TooManyRequests429 && HasRoom(s.limits, s.counters)
    requires var job := Prompt(id, hash, Phase.Reserved);
             var run := [Arrive(job), Event.Register(|s.jobs|, now)];
             && Valid(s, [Arrive(job)]) && Enabled(After(s, [Arrive(job)]), Event.Register(|s.jobs|, now))
             && After(s, [Arrive(job)]) == Apply(s, Arrive(job))
             && Valid(s, run) && After(s, run) == Apply(After(s, [Arrive(job)]), Event.Register(|s.jobs|, now))
    requires reply == Conflict409 <==> !RegisteredIn(s.registry, id, hash, now).1
    ensures var steps := SubmissionSteps(|s.jobs|, Prompt(id, hash, Phase.Reserved), reply, now);
            && Valid(s, steps)
            && var t, registered := After(s, steps), RegisteredIn(s.registry, id, hash, now).0;
            && t.limits == s.limits && t.freeSlots == s.freeSlots
            && t.counters == (if reply == Accepted202 then Admission.Reserved(s.counters)
                              else Cancelled(Admission.Reserved(s.counters)))
            && t.registry == (if reply == StartFailed then UpdatedIn(registered, id, MarkFailed(START_FAILURE), now)
                              else registered)
  {
    var i, job := |s.jobs|, Prompt(id, hash, Phase.Reserved);
    var run := [Arrive(job), Event.Register(i, now)];
    match reply {
      case Conflict409 =>
        Extend(s, run, GiveBack(i));
        assert run + [GiveBack(i)] == SubmissionSteps(i, job, reply, now);
      case Accepted202 =>
        Extend(s, run, StartThread(i));
        assert run + [StartThread(i)] == SubmissionSteps(i, job, reply, now);
      case StartFailed =>
        Extend(s, run, StartFails(i));
        Extend(s, run + [StartFails(i)], MarkStartFailure(i, START_FAILURE, now));
        assert run + [StartFails(i)] + [MarkStartFailure(i, START_FAILURE, now)] == SubmissionSteps(i, job, reply, now);
    }
  }

  /** The worker's steps, one after the other. */
  lemma WorkerReaches(s: State, i: nat, outcome: Outcome, now: real)
    requires At(s, i, Spawned) && s.jobs[i].Prompt? && s.freeSlots > 0
    ensures var steps := WorkerSteps(i, outcome, now);
            && Valid(s, steps)
            && var t := After(s, steps);
            && t.limits == s.limits
            && t.counters == Admission.Finished(Begun(s.counters))
            && t.freeSlots == s.freeSlots
            && t.registry == UpdatedIn(UpdatedIn(s.registry, s.jobs[i].id, MarkRunning, now),
                                       s.jobs[i].id, OutcomePatch(s.jobs[i], outcome), now)
  {
    var steps := WorkerSteps(i, outcome, now);
    OneStep(s, steps[0]);
    assert steps[..1] == [steps[0]];
    Extend(s, steps[..1], steps[1]);
    assert steps[..1] + [steps[1]] == steps[..2];
    Extend(s, steps[..2], steps[2]);
    assert steps[..2] + [steps[2]] == steps[..3];
    Extend(s, steps[..3], steps[3]);
    assert steps[..3] + [steps[3]] == steps[..4];
    Extend(s, steps[..4], steps[4]);
    assert steps[..4] + [steps[4]] == steps[..5];
    Extend(s, steps[..5], steps[5]);
    assert steps[..5] + [steps[5]] == steps;
  }
  lemma WorkerRecords(m: Evaluations, job: Job, outcome: Outcome, now: real)
    requires job.Prompt?
    ensures Recorded(m, UpdatedIn(UpdatedIn(m, job.id, MarkRunning, now), job.id, OutcomePatch(job, outcome), now),
                     job.id, job.hash, outcome, now)
  {
    UpdateWrites(m, job.id, MarkRunning, now);
    UpdateWrites(UpdatedIn(m, job.id, MarkRunning, now), job.id, OutcomePatch(job, outcome), now);
  }

  lemma WorkerRuns(s: State, i: nat, outcome: Outcome, now: real)
    requires At(s, i, Spawned) && s.jobs[i].Prompt? && s.freeSlots > 0
    ensures var steps := WorkerSteps(i, outcome, now);
            && Valid(s, steps)
            && var t := After(s, steps);
            && t.limits == s.limits && t.freeSlots == s.freeSlots
            && (s.counters.active >= 0 && s.counters.queued >= 1 ==>
                  t.counters == Counters(s.counters.active, s.counters.queued - 1))
            && Recorded(s.registry, t.registry, s.jobs[i].id, s.jobs[i].hash, outcome, now)
  {
    WorkerReaches(s, i, outcome, now);
    WorkerRecords(s.registry, s.jobs[i], outcome, now);
  }
}
