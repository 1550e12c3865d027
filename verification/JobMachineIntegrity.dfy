/**
 When a Complete record can be trusted. Updates name a record by its request id alone, so a job
 that outlives its record can write into a later one registered for another prompt hash.
 */
module JobMachineIntegrity {
  import opened Wrappers
  import opened Registry
  import opened Admission
  import opened JobMachine
  import opened JobMachineRuns
  import opened JobMachineDrain
  import opened JobMachineRoom

  /** A job that may still record a result. */
  predicate Pending(j: Job) {
    && j.Prompt?
    && j.phase in {Phase.Reserved, Registered, Spawned, SlotHeld, Started, Working}
  }

  predicate AdmittedPending(j: Job) {
    Pending(j) && j.phase != Phase.Reserved
  }

  /** A submission that repeats the request id of a pending job repeats its prompt hash too. */
  ghost predicate Consistent(s: State, e: Event) {
    e.Arrive? && e.request.Prompt? ==>
      forall k :: 0 <= k < |s.jobs| && Pending(s.jobs[k]) && s.jobs[k].id == e.request.id ==>
        s.jobs[k].hash == e.request.hash
  }

  ghost predicate ConsistentRun(s: State, run: seq<Event>)
    requires Valid(s, run)
    decreases |run|
  {
    run == [] || (Consistent(s, run[0]) && ConsistentRun(Apply(s, run[0]), run[1..]))
  }

  /** Every Complete record holds a result computed for its own id and its own prompt hash. */
  ghost predicate Integrity(s: State) {
    forall id :: id in s.registry && s.registry[id].status == Complete ==>
      && s.registry[id].result.Some?
      && s.registry[id].result.value.requestId == id
      && s.registry[id].result.value.promptHash == s.registry[id].promptHash
  }

  ghost predicate PendingAgree(s: State) {
    forall a, b | 0 <= a < |s.jobs| && 0 <= b < |s.jobs| && Pending(s.jobs[a]) && Pending(s.jobs[b]) ::
      s.jobs[a].id == s.jobs[b].id ==> s.jobs[a].hash == s.jobs[b].hash
  }

  /** Job `k` may still complete a record that belongs to another prompt hash. */
  ghost predicate Mismatched(s: State, k: int) {
    && 0 <= k < |s.jobs| && AdmittedPending(s.jobs[k])
    && s.jobs[k].id in s.registry
    && s.registry[s.jobs[k].id].promptHash != s.jobs[k].hash
  }

  ghost predicate Fragile(s: State) {
    exists k :: Mismatched(s, k)
  }

  // ----- Sufficient over whole runs

  lemma AgreementStep(s: State, e: Event)
    requires PendingAgree(s) && !Fragile(s) && Enabled(s, e) && Consistent(s, e)
    ensures PendingAgree(Apply(s, e)) && !Fragile(Apply(s, e))
  {
    var t := Apply(s, e);
    forall k | Mismatched(t, k) ensures false {
      if e.Arrive? {
        assert Mismatched(s, k);
      } else {
        StaysMatched(s, e, k);
      }
    }
  }

  lemma StaysMatched(s: State, e: Event, k: int)
    requires PendingAgree(s) && !Fragile(s) && Enabled(s, e) && !e.Arrive?
    ensures !Mismatched(Apply(s, e), k)
  {
    if 0 <= k < |s.jobs| {
      assert !Mismatched(s, k);
      if e.Register? {
        PruningKeepsLiveWork(s.registry, e.now);
      }
    }
  }

  lemma RegistrationKeepsIntegrity(s: State, e: Event)
    requires Integrity(s) && Enabled(s, e) && e.Register?
    ensures Integrity(Apply(s, e))
  {
    PruningKeepsLiveWork(s.registry, e.now);
  }

  lemma WriteKeepsIntegrity(s: State, e: Event)
    requires Integrity(s) && !Fragile(s) && Enabled(s, e) && !e.Arrive? && !e.Register?
    ensures Integrity(Apply(s, e))
  {
    if e.BodyEnds? {
      assert !Mismatched(s, e.i);
    }
  }

  lemma IntegrityStep(s: State, e: Event)
    requires Integrity(s) && !Fragile(s) && Enabled(s, e)
    ensures Integrity(Apply(s, e))
  {
    if e.Register? {
      RegistrationKeepsIntegrity(s, e);
    } else if !e.Arrive? {
      WriteKeepsIntegrity(s, e);
    }
  }

  lemma {:induction false} IntegrityKept(s: State, run: seq<Event>)
    requires Integrity(s) && PendingAgree(s) && !Fragile(s)
    requires Valid(s, run) && ConsistentRun(s, run)
    ensures Integrity(After(s, run)) && !Fragile(After(s, run))
    decreases |run|
  {
    if run != [] {
      AgreementStep(s, run[0]);
      IntegrityStep(s, run[0]);
      IntegrityKept(Apply(s, run[0]), run[1..]);
    }
  }

  /**
   If no request id is resubmitted under another prompt hash while a job for it may still record a
   result, every Complete record ever served holds the result computed for its own hash, across
   duplicates, pruning and later registrations.
   */
  lemma ServedResultsMatch(limits: Limits, run: seq<Event>)
    requires Valid(Init(limits), run) && ConsistentRun(Init(limits), run)
    ensures Integrity(After(Init(limits), run))
  {
    IntegrityKept(Init(limits), run);
  }

  // ----- Where results come from

  /** The end of a body in the run gave this very evaluation, by a job with its id and hash. */
  ghost predicate Produced(run: seq<Event>, jobs: seq<Job>, v: Evaluation) {
    exists n :: 0 <= n < |run| && run[n].BodyEnds? && run[n].outcome == Succeeds(v.verdict) && run[n].i < |jobs|
             && jobs[run[n].i].Prompt? && jobs[run[n].i].id == v.requestId && jobs[run[n].i].hash == v.promptHash
  }

  ghost predicate AllProduced(run: seq<Event>, s: State) {
    forall id :: id in s.registry && s.registry[id].result.Some? ==>
      s.registry[id].result.value.requestId == id && Produced(run, s.jobs, s.registry[id].result.value)
  }

  /** The jobs of a later state are those of an earlier one, further on, and new ones. */
  ghost predicate SameRequests(a: seq<Job>, b: seq<Job>) {
    |a| <= |b| && forall i :: 0 <= i < |a| && a[i].Prompt? ==> b[i].Prompt? && b[i].id == a[i].id && b[i].hash == a[i].hash
  }

  lemma ProducedStays(run: seq<Event>, more: seq<Event>, a: seq<Job>, b: seq<Job>, v: Evaluation)
    requires Produced(run, a, v) && SameRequests(a, b)
    ensures Produced(run + more, b, v)
  {
    var n :| 0 <= n < |run| && run[n].BodyEnds? && run[n].outcome == Succeeds(v.verdict) && run[n].i < |a|
          && a[run[n].i].Prompt? && a[run[n].i].id == v.requestId && a[run[n].i].hash == v.promptHash;
    assert (run + more)[n] == run[n];
  }

  /** What one step leaves as the result of a record: the result the body gave, or the one it had. */
  lemma ResultAfter(s: State, e: Event, id: RequestId)
    requires Enabled(s, e) && !e.Arrive? && id in NextRegistry(s, e) && NextRegistry(s, e)[id].result.Some?
    ensures (e.BodyEnds? && e.outcome.Succeeds? && s.jobs[e.i].Prompt? && s.jobs[e.i].id == id
              && NextRegistry(s, e)[id].result.value == Evaluation(id, s.jobs[e.i].hash, e.outcome.verdict))
         || (id in s.registry && s.registry[id].result == NextRegistry(s, e)[id].result)
  {
    if e.Register? {
      PruningKeepsLiveWork(s.registry, e.now);
    }
  }

  lemma ProducedStep(done: seq<Event>, s: State, e: Event)
    requires AllProduced(done, s) && Enabled(s, e)
    ensures AllProduced(done + [e], Apply(s, e))
  {
    var t := Apply(s, e);
    forall id | id in t.registry && t.registry[id].result.Some?
      ensures t.registry[id].result.value.requestId == id && Produced(done + [e], t.jobs, t.registry[id].result.value)
    {
      var v := t.registry[id].result.value;
      if !e.Arrive? {
        ResultAfter(s, e, id);
      }
      if id in s.registry && s.registry[id].result == Some(v) {
        ProducedStays(done, [e], s.jobs, t.jobs, v);
      } else {
        assert (done + [e])[|done|] == e;
      }
    }
  }

  lemma {:induction false} ProducedRun(done: seq<Event>, s: State, run: seq<Event>)
    requires AllProduced(done, s) && Valid(s, run)
    ensures AllProduced(done + run, After(s, run))
    decreases |run|
  {
    if run == [] {
      assert done + run == done;
    } else {
      ProducedStep(done, s, run[0]);
      ProducedRun(done + [run[0]], Apply(s, run[0]), run[1..]);
      assert done + [run[0]] + run[1..] == done + run;
    }
  }

  /** The result of every record in every run is, verdict included, what the body of a job for its id
      returned; under `ServedResultsMatch` that job's hash is the record's own. */
  lemma ResultsComeFromBodies(limits: Limits, run: seq<Event>)
    requires Valid(Init(limits), run)
    ensures AllProduced(run, After(Init(limits), run))
  {
    ProducedRun([], Init(limits), run);
    assert [] + run == run;
  }

  /** The error text as far as it is kept. */
  ghost predicate KeptOf(message: string, text: string) {
    text <= message && |text| <= 1_000 && (|message| <= 1_000 ==> text == message) && (|message| > 1_000 ==> |text| == 1_000)
  }

  /** The step of a body's end itself: what is recorded, when the record is still there. */
  lemma BodyEndRecords(s: State, i: nat, outcome: Outcome, now: real)
    requires Enabled(s, BodyEnds(i, outcome, now)) && s.jobs[i].Prompt? && s.jobs[i].id in s.registry
    ensures var id := s.jobs[i].id;
            var r, w := s.registry[id], Apply(s, BodyEnds(i, outcome, now)).registry[id];
            && w.updatedAt == now && w.promptHash == r.promptHash
            && (outcome.Succeeds? ==>
                  w.status == Complete && w.result == Some(Evaluation(id, s.jobs[i].hash, outcome.verdict)))
            && (outcome.Fails? ==> w.status == Failed && w.error.Some? && KeptOf(outcome.message, w.error.value))
  {
  }

  // ----- Exact, state by state

  /** A run without arrivals and registrations: the jobs already admitted go on. */
  ghost predicate Quiet(run: seq<Event>) {
    forall n :: 0 <= n < |run| ==> !run[n].Arrive? && !run[n].Register?
  }

  lemma {:induction false} QuietRunsKeepIntegrity(s: State, run: seq<Event>)
    requires Integrity(s) && !Fragile(s) && Valid(s, run) && Quiet(run)
    ensures Integrity(After(s, run))
    decreases |run|
  {
    if run != [] {
      var t := Apply(s, run[0]);
      IntegrityStep(s, run[0]);
      forall k ensures !Mismatched(t, k) {
        assert !Mismatched(s, k);
      }
      QuietRunsKeepIntegrity(t, run[1..]);
    }
  }

  /** A mismatched job can always be brought to record its result. */
  lemma {:induction false} MismatchBreaks(s: State, k: nat) returns (run: seq<Event>)
    requires CountersExact(s) && s.limits.Valid() && Mismatched(s, k)
    ensures Valid(s, run) && Quiet(run) && !Integrity(After(s, run))
    decreases Total(s.jobs, StepsLeft)
  {
    if s.jobs[k].phase == Working {
      var e := BodyEnds(k, Succeeds(""), 0.0);
      run := [e];
      OneStep(s, e);
      WrongResultRecorded(s, k);
    } else {
      var e := StepTowards(s, k);
      CountersStep(s, e);
      StepsLeftStep(s, e);
      var rest := MismatchBreaks(Apply(s, e), k);
      run := [e] + rest;
      assert run[1..] == rest;
    }
  }

  lemma WrongResultRecorded(s: State, k: nat)
    requires Mismatched(s, k) && s.jobs[k].phase == Working
    ensures !Integrity(Apply(s, BodyEnds(k, Succeeds(""), 0.0)))
  {
    var id := s.jobs[k].id;
    assert Apply(s, BodyEnds(k, Succeeds(""), 0.0)).registry[id].status == Complete;
  }

  lemma StepTowards(s: State, k: nat) returns (e: Event)
    requires CountersExact(s) && s.limits.Valid() && Mismatched(s, k) && s.jobs[k].phase != Working
    ensures Enabled(s, e) && !e.Arrive? && !e.Register? && Mismatched(Apply(s, e), k)
  {
    e := NextStep(s, k);
    if s.jobs[k].phase == Spawned && s.freeSlots == 0 {
      var holder := SomeWeight(s.jobs, HoldsSlot);
      e := NextStep(s, holder);
    }
  }

  /**
   The jobs already admitted can lead to a Complete record with another prompt's result exactly if
   one of them carries a hash other than that of the record now registered under its id.
   */
  lemma BreakableIffFragile(limits: Limits, run: seq<Event>)
    requires limits.Valid() && Valid(Init(limits), run)
    requires Integrity(After(Init(limits), run))
    ensures var s := After(Init(limits), run);
            (exists more :: Valid(s, more) && Quiet(more) && !Integrity(After(s, more))) <==> Fragile(s)
  {
    Reachable(limits, run);
    var s := After(Init(limits), run);
    if Fragile(s) {
      var k :| Mismatched(s, k);
      var more := MismatchBreaks(s, k);
      assert Valid(s, more) && Quiet(more) && !Integrity(After(s, more));
    } else {
      forall more | Valid(s, more) && Quiet(more) ensures Integrity(After(s, more)) {
        QuietRunsKeepIntegrity(s, more);
      }
    }
  }

  /** Without new submissions nothing is spoiled either, if the pending jobs of each id agree on its hash. */
  lemma AgreeingJobsKeepIntegrity(s: State, run: seq<Event>)
    requires Integrity(s) && PendingAgree(s) && !Fragile(s) && Valid(s, run) && NoArrivals(run)
    ensures Integrity(After(s, run))
  {
    NoArrivalsAreConsistent(s, run);
    IntegrityKept(s, run);
  }

  lemma {:induction false} NoArrivalsAreConsistent(s: State, run: seq<Event>)
    requires Valid(s, run) && NoArrivals(run)
    ensures ConsistentRun(s, run)
    decreases |run|
  {
    if run != [] {
      NoArrivalsAreConsistent(Apply(s, run[0]), run[1..]);
    }
  }

  // ----- Needed

  function OtherJob(): Job { Prompt(NthId(0), "other hash", Phase.Reserved) }

  /** Two submissions of one prompt are admitted. */
  ghost predicate TwoAdmitted(s: State) {
    && s.limits.Capacity() >= 2 && s.counters == Counters(0, 2) && s.registry == Held(1)
    && s.jobs == [NthJob(0, Registered), NthJob(0, Registered)]
  }

  /** The first of them is over and its record Failed. */
  ghost predicate OneFailed(s: State) {
    && s.limits.Capacity() >= 2 && s.counters == Counters(0, 1)
    && s.registry.Keys == {NthId(0)} && s.registry[NthId(0)].status == Failed && s.registry[NthId(0)].updatedAt == 0.0
    && s.jobs == [NthJob(0, Gone), NthJob(0, Registered)]
  }

  lemma AdmitTwo(limits: Limits)
    requires limits.Capacity() >= 2
    ensures var run := Submission(0, 0) + Submission(0, 1);
            Valid(Init(limits), run) && TwoAdmitted(After(Init(limits), run))
  {
    NothingHeld(limits);
    Submitted(Init(limits), 0, 0);
    Submitted(After(Init(limits), Submission(0, 0)), 0, 1);
    RunsCompose(Init(limits), Submission(0, 0), Submission(0, 1));
  }

  function Failure(): seq<Event> { [StartFails(0)] + [MarkStartFailure(0, "", 0.0)] }

  lemma FirstFails(s: State)
    requires TwoAdmitted(s)
    ensures Valid(s, Failure()) && OneFailed(After(s, Failure()))
  {
    HeldFacts(1);
    HeldFacts(0);
    OneStep(s, StartFails(0));
    var t := Apply(s, StartFails(0));
    assert t.jobs == [NthJob(0, StartFailing), NthJob(0, Registered)] && t.registry == Held(1);
    Extend(s, [StartFails(0)], MarkStartFailure(0, "", 0.0));
    OneHeld();
  }

  lemma OneHeld()
    ensures Held(1).Keys == {NthId(0)} && Held(1)[NthId(0)].updatedAt == 0.0
  {
    assert NthIds(1) == {NthId(0)};
  }

  function Resubmission(): seq<Event> { [Arrive(OtherJob())] + [Event.Register(2, 3600.0)] }

  lemma ExpiredIsPruned(m: Evaluations)
    requires |m| == 1 && forall id :: id in m ==> m[id].status == Failed && m[id].updatedAt == 0.0
    ensures Pruned(m, 3600.0) == map[]
  {
    PruneSmall(m, 3600.0);
  }

  lemma OtherTakesOver(s: State)
    requires OneFailed(s)
    ensures Valid(s, Resubmission()) && Mismatched(After(s, Resubmission()), 1)
  {
    assert |s.registry| == |s.registry.Keys|;
    ExpiredIsPruned(s.registry);
    OneStep(s, Arrive(OtherJob()));
    Extend(s, [Arrive(OtherJob())], Event.Register(2, 3600.0));
  }

  lemma PruneSmall(m: Evaluations, now: real)
    requires |m| < MAX_PROMPT_EVALUATIONS
    ensures Pruned(m, now) == Unexpired(m, now)
  {
    var u := Unexpired(m, now);
    assert u.Keys <= m.Keys;
    CardinalitySubset(u.Keys, m.Keys);
    assert |u| == |u.Keys| && |m| == |m.Keys|;
  }

  lemma TakeOver(limits: Limits) returns (run: seq<Event>)
    requires limits.Capacity() >= 2
    ensures Valid(Init(limits), run) && Mismatched(After(Init(limits), run), 1)
  {
    run := Submission(0, 0) + Submission(0, 1);
    AdmitTwo(limits);
    FirstFails(After(Init(limits), run));
    RunsCompose(Init(limits), run, Failure());
    run := run + Failure();
    OtherTakesOver(After(Init(limits), run));
    RunsCompose(Init(limits), run, Resubmission());
    run := run + Resubmission();
  }

  /**
   Two submissions of one prompt are admitted; the first ends and its record expires; a third
   submission, under the same id but another hash, takes the record over while the second still waits.
   */
  lemma ResubmissionCanBreakIntegrity(limits: Limits)
    requires limits.Valid() && limits.Capacity() >= 2
    ensures exists run :: Valid(Init(limits), run) && !Integrity(After(Init(limits), run))
  {
    var s0 := Init(limits);
    var run := TakeOver(limits);
    var s := After(s0, run);
    Reachable(limits, run);
    var more := MismatchBreaks(s, 1);
    RunsCompose(s0, run, more);
    assert Valid(s0, run + more) && !Integrity(After(s0, run + more));
  }
}
