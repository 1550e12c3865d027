/** When a registration can be refused for lack of room, exactly. */
module JobMachineRoom {
  import opened Wrappers
  import opened Registry
  import opened Admission
  import opened JobMachine
  import opened JobMachineRuns

  /** Job `i`'s registration is refused though no record has its request id. */
  ghost predicate RefusedForRoom(s: State, i: nat, now: real) {
    && Enabled(s, Event.Register(i, now))
    && !Accepted(s, Event.Register(i, now))
    && s.jobs[i].id !in Pruned(s.registry, now)
  }

  /** The run leads to such a refusal while `k` handlers are failing to start a thread. */
  ghost predicate RunsOutOfRoom(limits: Limits, k: nat, run: seq<Event>, i: nat, now: real) {
    && Valid(Init(limits), run)
    && Total(After(Init(limits), run).jobs, FailingToStart) == k
    && RefusedForRoom(After(Init(limits), run), i, now)
  }

  lemma RefusalNeedsCrowding(limits: Limits, k: nat, run: seq<Event>, i: nat, now: real)
    requires RunsOutOfRoom(limits, k, run, i, now)
    ensures limits.Capacity() + k > 256
  {
    if limits.Capacity() + k <= MAX_PROMPT_EVALUATIONS {
      RefusedOnlyForItsHash(limits, run, i, now);
    }
  }

  // ----- Crowding the registry

  function NthId(n: nat): RequestId { seq(n, _ => 'a') }

  function NthIds(n: nat): set<RequestId> { set k | 0 <= k < n :: NthId(k) }

  function NthJob(n: nat, phase: Phase): Job { Prompt(NthId(n), "hash", phase) }

  /** `n` Queued records, of the first `n` ids. */
  function Held(n: nat): Evaluations { map id | id in NthIds(n) :: Record("hash", Queued, 0.0, None, None) }

  lemma NthIdsGrow(n: nat)
    ensures NthIds(n + 1) == NthIds(n) + {NthId(n)} && NthId(n) !in NthIds(n) && |NthIds(n)| == n
  {
    forall k | 0 <= k < n ensures NthId(k) != NthId(n) {
      assert |NthId(k)| == k;
    }
    assert |NthId(n)| == n;
    if n > 0 {
      NthIdsGrow(n - 1);
    }
  }

  lemma NothingToPrune(m: Evaluations, now: real)
    requires !HasTerminal(m)
    ensures Pruned(m, now) == m
  {
    assert Unexpired(m, now) == m;
  }

  lemma HeldFacts(n: nat)
    ensures |Held(n)| == n && NthId(n) !in Held(n) && Pruned(Held(n), 0.0) == Held(n)
    ensures forall x :: 0 <= x < n ==> NthId(x) in Held(n)
  {
    NthIdsGrow(n);
    NothingToPrune(Held(n), 0.0);
    assert Held(n).Keys == NthIds(n);
    assert |Held(n)| == |Held(n).Keys|;
  }

  lemma HeldGrows(n: nat)
    ensures Held(n)[NthId(n) := Record("hash", Queued, 0.0, None, None)] == Held(n + 1)
  {
    NthIdsGrow(n);
  }

  /** Registering the id number `x` beside `m` held ones: a duplicate, or the next one. */
  lemma RegisteredHeld(x: nat, m: nat)
    requires x <= m && x < MAX_PROMPT_EVALUATIONS
    ensures RegisteredIn(Held(m), NthId(x), "hash", 0.0) == (Held(if x == m then m + 1 else m), true)
  {
    HeldFacts(m);
    HeldGrows(m);
  }

  function Submission(x: nat, i: nat): seq<Event> { [Arrive(NthJob(x, Phase.Reserved)), Event.Register(i, 0.0)] }

  /** `t` is `s` with one more job of id number `x`, `waiting` of them counted as queued. */
  ghost predicate Grown(s: State, t: State, j: Job, waiting: nat, m: nat) {
    && t.limits == s.limits && t.counters == Counters(s.counters.active, s.counters.queued + waiting)
    && t.jobs == s.jobs + [j] && t.registry == Held(m)
  }

  lemma Submitted(s: State, x: nat, m: nat)
    requires s.registry == Held(m) && x <= m && x < MAX_PROMPT_EVALUATIONS && HasRoom(s.limits, s.counters)
    ensures var run := Submission(x, |s.jobs|);
            Valid(s, run) && Grown(s, After(s, run), NthJob(x, Registered), 1, if x == m then m + 1 else m)
  {
    var run := Submission(x, |s.jobs|);
    var arrived := Apply(s, run[0]);
    RegisteredHeld(x, m);
    OneStep(s, run[0]);
    Extend(s, [run[0]], run[1]);
    assert run == [run[0]] + [run[1]];
    assert arrived.jobs[|s.jobs| := NthJob(x, Registered)] == s.jobs + [NthJob(x, Registered)];
  }

  lemma SubmittedAndFailing(s: State, x: nat, m: nat)
    requires s.registry == Held(m) && x <= m && x < MAX_PROMPT_EVALUATIONS && HasRoom(s.limits, s.counters)
    requires s.counters.queued >= 0
    ensures var run := Submission(x, |s.jobs|) + [StartFails(|s.jobs|)];
            Valid(s, run) && Grown(s, After(s, run), NthJob(x, StartFailing), 0, if x == m then m + 1 else m)
  {
    var run := Submission(x, |s.jobs|);
    Submitted(s, x, m);
    var t := After(s, run);
    Extend(s, run, StartFails(|s.jobs|));
    assert t.jobs[|s.jobs| := NthJob(x, StartFailing)] == s.jobs + [NthJob(x, StartFailing)];
  }

  function Min(a: nat, b: nat): nat { if a < b then a else b }

  ghost predicate Crowded(s: State, limits: Limits, k: nat, n: nat) {
    && s.limits == limits && s.counters == Counters(0, n) && |s.jobs| == k + n
    && Total(s.jobs, FailingToStart) == k && s.registry == Held(Min(k, MAX_PROMPT_EVALUATIONS) + n)
  }

  lemma NothingHeld(limits: Limits)
    ensures Crowded(Init(limits), limits, 0, 0)
  {
    assert NthIds(0) == {};
    assert Held(0) == map[];
  }

  function FailingRound(k: nat): seq<Event> {
    Submission(Min(k, MAX_PROMPT_EVALUATIONS - 1), k) + [StartFails(k)]
  }

  function WaitingRound(k: nat, n: nat): seq<Event> { Submission(Min(k, MAX_PROMPT_EVALUATIONS) + n, k + n) }

  lemma OneMoreFails(s: State, limits: Limits, k: nat)
    requires limits.Capacity() >= 1 && Crowded(s, limits, k, 0)
    ensures Valid(s, FailingRound(k)) && Crowded(After(s, FailingRound(k)), limits, k + 1, 0)
  {
    var x := Min(k, MAX_PROMPT_EVALUATIONS - 1);
    SubmittedAndFailing(s, x, Min(k, MAX_PROMPT_EVALUATIONS));
    TotalAppend(s.jobs, NthJob(x, StartFailing), FailingToStart);
  }

  lemma OneMoreWaits(s: State, limits: Limits, k: nat, n: nat)
    requires n < limits.Capacity() && Min(k, MAX_PROMPT_EVALUATIONS) + n < MAX_PROMPT_EVALUATIONS
    requires Crowded(s, limits, k, n)
    ensures Valid(s, WaitingRound(k, n)) && Crowded(After(s, WaitingRound(k, n)), limits, k, n + 1)
  {
    var x := Min(k, MAX_PROMPT_EVALUATIONS) + n;
    Submitted(s, x, x);
    TotalAppend(s.jobs, NthJob(x, Registered), FailingToStart);
  }

  /** `k` submissions whose threads do not start; past 256 the last id is submitted again. */
  function FailingRun(k: nat): seq<Event> { if k == 0 then [] else FailingRun(k - 1) + FailingRound(k - 1) }

  /** After those, `n` submissions that wait for their threads. */
  function CrowdingRun(k: nat, n: nat): seq<Event> {
    if n == 0 then FailingRun(k) else CrowdingRun(k, n - 1) + WaitingRound(k, n - 1)
  }

  lemma {:induction false} FailingCrowds(limits: Limits, k: nat)
    requires limits.Capacity() >= 1
    ensures Valid(Init(limits), FailingRun(k)) && Crowded(After(Init(limits), FailingRun(k)), limits, k, 0)
  {
    if k == 0 {
      NothingHeld(limits);
    } else {
      FailingCrowds(limits, k - 1);
      OneMoreFails(After(Init(limits), FailingRun(k - 1)), limits, k - 1);
      RunsCompose(Init(limits), FailingRun(k - 1), FailingRound(k - 1));
    }
  }

  lemma {:induction false} WaitingCrowds(limits: Limits, k: nat, n: nat)
    requires limits.Capacity() >= 1 && n <= limits.Capacity()
    requires Min(k, MAX_PROMPT_EVALUATIONS) + n <= MAX_PROMPT_EVALUATIONS
    ensures Valid(Init(limits), CrowdingRun(k, n)) && Crowded(After(Init(limits), CrowdingRun(k, n)), limits, k, n)
  {
    if n == 0 {
      FailingCrowds(limits, k);
    } else {
      WaitingCrowds(limits, k, n - 1);
      OneMoreWaits(After(Init(limits), CrowdingRun(k, n - 1)), limits, k, n - 1);
      RunsCompose(Init(limits), CrowdingRun(k, n - 1), WaitingRound(k, n - 1));
    }
  }

  function Late(n: nat): Event { Arrive(NthJob(n, Phase.Reserved)) }

  lemma HeldRefuses(n: nat)
    requires n >= MAX_PROMPT_EVALUATIONS
    ensures !RegisteredIn(Held(n), NthId(n), "hash", 0.0).1 && NthId(n) !in Pruned(Held(n), 0.0)
  {
    HeldFacts(n);
  }

  lemma LateArrives(s: State, n: nat)
    requires HasRoom(s.limits, s.counters)
    ensures var t := Apply(s, Late(n));
            && Enabled(s, Late(n)) && t.registry == s.registry && At(t, |s.jobs|, Phase.Reserved)
            && t.jobs[|s.jobs|] == NthJob(n, Phase.Reserved)
            && Total(t.jobs, FailingToStart) == Total(s.jobs, FailingToStart)
  {
    TotalAppend(s.jobs, NthJob(n, Phase.Reserved), FailingToStart);
  }

  /** A full registry of live records refuses one more admitted id. */
  lemma FullRefuses(s: State, n: nat)
    requires n >= MAX_PROMPT_EVALUATIONS && s.registry == Held(n) && HasRoom(s.limits, s.counters)
    ensures Enabled(s, Late(n)) && RefusedForRoom(Apply(s, Late(n)), |s.jobs|, 0.0)
    ensures Total(Apply(s, Late(n)).jobs, FailingToStart) == Total(s.jobs, FailingToStart)
  {
    HeldRefuses(n);
    LateArrives(s, n);
  }

  function Waiters(k: nat): nat { MAX_PROMPT_EVALUATIONS - Min(k, MAX_PROMPT_EVALUATIONS) }

  function RefusingRun(k: nat): seq<Event> {
    CrowdingRun(k, Waiters(k)) + [Late(Min(k, MAX_PROMPT_EVALUATIONS) + Waiters(k))]
  }

  lemma CrowdingRefuses(limits: Limits, k: nat)
    requires limits.Capacity() >= 1 && limits.Capacity() + k > MAX_PROMPT_EVALUATIONS
    ensures RunsOutOfRoom(limits, k, RefusingRun(k), k + Waiters(k), 0.0)
  {
    var run := CrowdingRun(k, Waiters(k));
    var n := Min(k, MAX_PROMPT_EVALUATIONS) + Waiters(k);
    WaitingCrowds(limits, k, Waiters(k));
    FullRefuses(After(Init(limits), run), n);
    Extend(Init(limits), run, Late(n));
  }

  /**
   With `k` handlers between giving back a reservation and marking the record Failed, a registration
   can be refused for lack of room exactly when capacity and those handlers outgrow the registry: so
   with enough of them it can be at any capacity.
   */
  lemma RefusableIffCrowded(limits: Limits, k: nat)
    requires limits.Capacity() >= 1
    ensures (exists run, i, now :: RunsOutOfRoom(limits, k, run, i, now))
            <==> limits.Capacity() + k > 256
  {
    forall run, i, now | RunsOutOfRoom(limits, k, run, i, now)
      ensures limits.Capacity() + k > MAX_PROMPT_EVALUATIONS
    {
      RefusalNeedsCrowding(limits, k, run, i, now);
    }
    if limits.Capacity() + k > MAX_PROMPT_EVALUATIONS {
      CrowdingRefuses(limits, k);
    }
  }

  // ----- Start failures handled at once

  /** A handler whose evaluation's thread does not start marks the record before anything else happens. */
  ghost predicate AtOnce(s: State, run: seq<Event>)
    requires Valid(s, run)
    decreases |run|
  {
    run == [] ||
    (&& (run[0].StartFails? && s.jobs[run[0].i].Prompt? ==>
          |run| > 1 && run[1].MarkStartFailure? && run[1].i == run[0].i)
     && AtOnce(Apply(s, run[0]), run[1..]))
  }

  ghost predicate NobodyFails(s: State) { forall i :: 0 <= i < |s.jobs| ==> s.jobs[i].phase != StartFailing }

  lemma {:induction false} NobodyIsLeftFailing(s: State, run: seq<Event>)
    requires NobodyFails(s) && Valid(s, run) && AtOnce(s, run)
    ensures NobodyFails(After(s, run))
    decreases |run|
  {
    if run != [] {
      var e, t := run[0], Apply(s, run[0]);
      if e.StartFails? && s.jobs[e.i].Prompt? {
        assert run[1..][0] == run[1];
        assert NobodyFails(Apply(t, run[1]));
        NobodyIsLeftFailing(Apply(t, run[1]), run[1..][1..]);
      } else {
        assert NobodyFails(t);
        NobodyIsLeftFailing(t, run[1..]);
      }
    }
  }

  lemma {:induction false} NoFailureIsAtOnce(s: State, run: seq<Event>)
    requires Valid(s, run) && forall n :: 0 <= n < |run| ==> !run[n].StartFails?
    ensures AtOnce(s, run)
    decreases |run|
  {
    if run != [] {
      NoFailureIsAtOnce(Apply(s, run[0]), run[1..]);
    }
  }

  lemma {:induction false} CrowdingHasNoFailure(k: nat, n: nat)
    requires k == 0
    ensures forall j :: 0 <= j < |CrowdingRun(k, n)| ==> !CrowdingRun(k, n)[j].StartFails?
  {
    if n > 0 {
      CrowdingHasNoFailure(k, n - 1);
    }
  }

  ghost predicate RunsOutAtOnce(limits: Limits, run: seq<Event>, i: nat, now: real) {
    && Valid(Init(limits), run) && AtOnce(Init(limits), run)
    && RefusedForRoom(After(Init(limits), run), i, now)
  }

  lemma AtOnceNeedsCapacity(limits: Limits, run: seq<Event>, i: nat, now: real)
    requires RunsOutAtOnce(limits, run, i, now)
    ensures limits.Capacity() > 256
  {
    NobodyIsLeftFailing(Init(limits), run);
    TotalZero(After(Init(limits), run).jobs, FailingToStart);
    RefusalNeedsCrowding(limits, 0, run, i, now);
  }

  lemma CapacityRefusesAtOnce(limits: Limits, k: nat)
    requires k == 0 && limits.Capacity() > MAX_PROMPT_EVALUATIONS
    ensures RunsOutAtOnce(limits, RefusingRun(k), k + Waiters(k), 0.0)
  {
    CrowdingRefuses(limits, k);
    CrowdingHasNoFailure(k, Waiters(k));
    NoFailureIsAtOnce(Init(limits), RefusingRun(k));
  }

  /** When start failures are handled at once, no registration is refused for lack of room exactly if
      concurrency and queue fit the registry. */
  lemma AtOnceRefusableIffCapacity(limits: Limits)
    ensures (exists run, i, now :: RunsOutAtOnce(limits, run, i, now)) <==> limits.Capacity() > 256
  {
    forall run, i, now | RunsOutAtOnce(limits, run, i, now)
      ensures limits.Capacity() > MAX_PROMPT_EVALUATIONS
    {
      AtOnceNeedsCapacity(limits, run, i, now);
    }
    if limits.Capacity() > MAX_PROMPT_EVALUATIONS {
      CapacityRefusesAtOnce(limits, 0);
    }
  }
}
