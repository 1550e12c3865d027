/** What every run of the runner keeps: truthful counters, owned records, and a bounded registry. */
module JobMachineRuns {
  import opened Wrappers
  import opened Registry
  import opened Admission
  import opened JobMachine

  // ----- Records and the jobs that will finish them

  /** An admitted prompt job that has a write to its record ahead of it. */
  predicate StillWrites(j: Job) {
    && j.Prompt?
    && j.phase in {Registered, StartFailing, Spawned, SlotHeld, Started, Working}
  }

  function Writers(j: Job): nat { if StillWrites(j) then 1 else 0 }

  /** The last writer of record `id` is an unfinished job for `id`, at the stage the record shows. */
  ghost predicate Owned(s: State, id: RequestId)
    requires id in s.registry
  {
    && id in s.writer
    && var i := s.writer[id];
    && i < |s.jobs| && s.jobs[i].Prompt? && s.jobs[i].id == id && StillWrites(s.jobs[i])
    && (s.registry[id].status == Queued <==> s.jobs[i].phase != Working)
  }

  ghost predicate LiveRecordsOwned(s: State) {
    forall id :: id in s.registry && !Terminal(s.registry[id]) ==> Owned(s, id)
  }

  ghost predicate ResultsPresent(m: Evaluations) {
    forall id :: id in m && m[id].status == Complete ==> m[id].result.Some? && m[id].result.value.requestId == id
  }

  ghost predicate CompleteHasResult(s: State) { ResultsPresent(s.registry) }

  lemma OwnershipStep(s: State, e: Event)
    requires LiveRecordsOwned(s) && Enabled(s, e)
    ensures LiveRecordsOwned(Apply(s, e))
  {
    var t := Apply(s, e);
    forall id | id in t.registry && !Terminal(t.registry[id]) ensures Owned(t, id) {
      if e.Arrive? {
        assert Owned(s, id);
      } else {
        OwnershipOfOne(s, e, id);
      }
    }
  }

  lemma OwnershipOfOne(s: State, e: Event, id: RequestId)
    requires LiveRecordsOwned(s) && Enabled(s, e) && !e.Arrive?
    requires id in NextRegistry(s, e) && !Terminal(NextRegistry(s, e)[id])
    ensures Owned(Apply(s, e), id)
  {
    if e.Register? {
      OwnershipAfterRegistration(s, e, id);
    } else {
      OwnershipAfterWrite(s, e, id);
    }
  }

  lemma OwnershipAfterRegistration(s: State, e: Event, id: RequestId)
    requires LiveRecordsOwned(s) && Enabled(s, e) && e.Register?
    requires id in NextRegistry(s, e) && !Terminal(NextRegistry(s, e)[id])
    ensures Owned(Apply(s, e), id)
  {
    PruningKeepsLiveWork(s.registry, e.now);
    if id in Pruned(s.registry, e.now) {
      assert Owned(s, id);
    } else {
      assert id == s.jobs[e.i].id && Accepted(s, e);
    }
  }

  lemma OwnershipAfterWrite(s: State, e: Event, id: RequestId)
    requires LiveRecordsOwned(s) && Enabled(s, e) && !e.Arrive? && !e.Register?
    requires id in NextRegistry(s, e) && !Terminal(NextRegistry(s, e)[id])
    ensures Owned(Apply(s, e), id)
  {
    var job := s.jobs[e.i];
    if Write(job, e).Some? && job.id == id {
      assert e.MarkRunningEvent?;
    } else {
      assert Owned(s, id);
    }
  }

  lemma RegistrationKeepsResults(m: Evaluations, id: RequestId, hash: string, now: real)
    requires ResultsPresent(m)
    ensures ResultsPresent(RegisteredIn(m, id, hash, now).0)
  {
    PruningKeepsLiveWork(m, now);
  }

  lemma WriteKeepsResults(s: State, e: Event)
    requires ResultsPresent(s.registry) && Enabled(s, e) && !e.Arrive? && !e.Register?
    ensures ResultsPresent(NextRegistry(s, e))
  {
  }

  lemma ResultStep(s: State, e: Event)
    requires CompleteHasResult(s) && Enabled(s, e)
    ensures CompleteHasResult(Apply(s, e))
  {
    if e.Register? {
      RegistrationKeepsResults(s.registry, s.jobs[e.i].id, s.jobs[e.i].hash, e.now);
    } else if !e.Arrive? {
      WriteKeepsResults(s, e);
    }
  }

  lemma CapStep(s: State, e: Event)
    requires |s.registry| <= 256 && Enabled(s, e)
    ensures |Apply(s, e).registry| <= 256
  {
    if e.Register? {
      RegistrationRespectsCap(s.registry, s.jobs[e.i].id, s.jobs[e.i].hash, e.now);
    } else if !e.Arrive? && Write(s.jobs[e.i], e).Some? {
      var id := s.jobs[e.i].id;
      var m := s.registry;
      var r := NextRegistry(s, e);
      assert r.Keys == m.Keys;
      assert |r| == |r.Keys| && |m| == |m.Keys|;
    }
  }

  // ----- Every reachable state

  ghost predicate Inv(s: State) {
    && CountersExact(s)
    && LiveRecordsOwned(s)
    && CompleteHasResult(s)
    && |s.registry| <= 256
  }

  lemma {:induction false} InvKept(s: State, run: seq<Event>)
    requires Inv(s) && Valid(s, run)
    ensures Inv(After(s, run)) && After(s, run).limits == s.limits
    decreases |run|
  {
    if run != [] {
      var e := run[0];
      CountersStep(s, e);
      OwnershipStep(s, e);
      ResultStep(s, e);
      CapStep(s, e);
      InvKept(Apply(s, e), run[1..]);
    }
  }

  lemma Reachable(limits: Limits, run: seq<Event>)
    requires Valid(Init(limits), run)
    ensures Inv(After(Init(limits), run)) && After(Init(limits), run).limits == limits
  {
    InvKept(Init(limits), run);
  }

  /**
   In every interleaving the counters equal the numbers of waiting and begun jobs, the active ones
   stay within the concurrency, the sum within capacity, and no decrement is ever clamped.
   */
  lemma CountersAreExact(limits: Limits, run: seq<Event>)
    requires Valid(Init(limits), run)
    ensures var s := After(Init(limits), run);
            && s.counters.queued == Total(s.jobs, Waiting)
            && s.counters.active == Total(s.jobs, Active)
            && s.counters.active <= limits.runConcurrency
            && s.counters.active + s.counters.queued <= limits.Capacity()
            && forall e :: Enabled(s, e) ==> !ClampActs(s, e)
  {
    Reachable(limits, run);
    var s := After(Init(limits), run);
    TotalLeq(s.jobs, Active, HoldsSlot);
    forall e | Enabled(s, e) ensures !ClampActs(s, e) {
      CountersStep(s, e);
    }
  }

  /** Live records have distinct unfinished jobs as last writers, one for each. */
  lemma LiveRecordsHaveDistinctWriters(limits: Limits, run: seq<Event>)
    requires Valid(Init(limits), run)
    ensures var s := After(Init(limits), run);
            && (forall x :: x in s.registry && !Terminal(s.registry[x]) ==> Owned(s, x))
            && (forall x, y :: x in s.registry && !Terminal(s.registry[x])
                            && y in s.registry && !Terminal(s.registry[y]) && x != y
                            ==> s.writer[x] != s.writer[y])
  {
    Reachable(limits, run);
    var s := After(Init(limits), run);
    forall x, y | x in s.registry && !Terminal(s.registry[x]) && y in s.registry && !Terminal(s.registry[y]) && x != y
      ensures s.writer[x] != s.writer[y]
    {
      assert Owned(s, x) && Owned(s, y);
    }
  }

  // ----- Room in the registry

  ghost predicate HasWriter(jobs: seq<Job>, id: RequestId) {
    exists i :: 0 <= i < |jobs| && StillWrites(jobs[i]) && jobs[i].id == id
  }

  lemma {:induction false} DistinctIdsNeedDistinctJobs(jobs: seq<Job>, ids: set<RequestId>)
    requires forall id :: id in ids ==> HasWriter(jobs, id)
    ensures |ids| <= Total(jobs, Writers)
  {
    if jobs == [] {
      if id :| id in ids {
        assert false;
      }
    } else {
      var last := |jobs| - 1;
      var rest := if StillWrites(jobs[last]) then ids - {jobs[last].id} else ids;
      forall id | id in rest ensures HasWriter(jobs[..last], id) {
        assert HasWriter(jobs, id);
        var i :| 0 <= i < |jobs| && StillWrites(jobs[i]) && jobs[i].id == id;
        assert jobs[..last][i] == jobs[i];
      }
      DistinctIdsNeedDistinctJobs(jobs[..last], rest);
    }
  }

  function Admitted(j: Job): nat { Waiting(j) + Active(j) + FailingToStart(j) }

  lemma {:induction false} TotalAdmitted(jobs: seq<Job>)
    ensures Total(jobs, Admitted) == Total(jobs, Waiting) + Total(jobs, Active) + Total(jobs, FailingToStart)
  {
    if jobs != [] {
      TotalAdmitted(jobs[..|jobs| - 1]);
    }
  }

  /** Beside the job that is registering there is room for every other live record. */
  lemma LiveRecordsLeaveRoom(s: State, i: nat, ids: set<RequestId>)
    requires Inv(s) && At(s, i, Phase.Reserved) && s.jobs[i].Prompt?
    requires forall id :: id in ids ==> id in s.registry && !Terminal(s.registry[id])
    ensures |ids| < s.limits.Capacity() + Total(s.jobs, FailingToStart)
  {
    forall id | id in ids ensures HasWriter(s.jobs, id) {
      assert Owned(s, id);
    }
    DistinctIdsNeedDistinctJobs(s.jobs, ids);
    var j := s.jobs[i].(phase := Registered);
    TotalUpdate(s.jobs, i, j, Writers);
    TotalUpdate(s.jobs, i, j, Admitted);
    TotalLeq(s.jobs[i := j], Writers, Admitted);
    TotalAdmitted(s.jobs);
  }

  /**
   When admission cannot outgrow the registry, a registration is refused only because the request
   id is taken by another prompt hash. Handlers caught between giving back a reservation and
   marking the record Failed count against the room.
   */
  lemma RefusedOnlyForItsHash(limits: Limits, run: seq<Event>, i: nat, now: real)
    requires Valid(Init(limits), run)
    requires Enabled(After(Init(limits), run), Register(i, now))
    requires limits.Capacity() + Total(After(Init(limits), run).jobs, FailingToStart) <= 256
    ensures var s := After(Init(limits), run);
            var kept := Pruned(s.registry, now);
            var job := s.jobs[i];
            Accepted(s, Register(i, now)) <==> (job.id in kept ==> kept[job.id].promptHash == job.hash)
  {
    Reachable(limits, run);
    var s := After(Init(limits), run);
    var kept := Pruned(s.registry, now);
    PruningKeepsLiveWork(s.registry, now);
    if |kept| >= MAX_PROMPT_EVALUATIONS {
      LiveRecordsLeaveRoom(s, i, kept.Keys);
      assert false;
    }
  }
}
