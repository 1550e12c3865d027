/** Preparing the approval of an agent run: the driver that takes one user story through prompt testing,
    at most one revision, acceptance generation and polling, against a server that may answer anything. */
module Approval {
  import opened Wrappers

  const WAIT_MS: int := 2_000
  const DEFAULT_TIMEOUT_MS: int := 300_000

  // ----- What the server reports

  datatype VerificationStatus = ReadyForApproval | VerificationFailed | OtherStatus(name: string)

  datatype Verification = Verification(id: string, status: VerificationStatus, summary: Option<string>,
                                       failureMessage: Option<string>, promptHash: string)

  datatype ApprovalStatus = Approved | Pending | OtherApproval(name: string)

  /** `promptHash` is empty when the workflow has no prompt. */
  datatype Workflow = Workflow(promptHash: string, verification: Option<Verification>, hasRun: bool,
                               approval: Option<ApprovalStatus>)

  datatype StoryTest = StoryTest(id: string, status: VerificationStatus, message: string, promptHash: string)

  datatype Verdict = Passed | NeedsRevision | OtherVerdict(name: string)

  /** Empty strings stand for values that are absent or empty. */
  datatype Evaluation = Evaluation(evaluationId: string, verdict: Verdict, suggestedRevision: string,
                                   revisionReceipt: string, promptHash: string, alignmentReceipt: string,
                                   workflow: Workflow, storyTest: Option<StoryTest>)

  datatype Revised = Revised(workflow: Workflow, alignmentReceipt: string)

  datatype AutonomyLevel = Observe | Recommend | ExecuteWithApproval | AutomaticCoding | FullAutonomy

  datatype Acceptance = Acceptance(workflow: Workflow, storyTest: StoryTest, level: Option<AutonomyLevel>)

  // ----- Requests

  datatype Request =
    | TestStory(userStory: string, manual: bool)
    | ApplyRevision(evaluationId: string, userStory: string, promptHash: string, revision: string, receipt: string)
    | GenerateAcceptance(evaluationId: string, userStory: string, alignmentReceipt: string)
    | Poll

  /** How the server answers the last request of a history; None when it refuses. */
  datatype Server = Server(
    test: seq<Request> -> Option<Evaluation>,
    revise: seq<Request> -> Option<Revised>,
    generate: seq<Request> -> Option<Acceptance>,
    poll: seq<Request> -> Option<Workflow>)

  // ----- The autonomy boundary

  predicate AuthorizesExecution(level: AutonomyLevel) { level.AutomaticCoding? || level.FullAutonomy? }

  predicate AtBoundary(level: AutonomyLevel, w: Workflow) {
    match level
    case Recommend => w.verification.Some? && w.verification.value.status.ReadyForApproval?
    case _ =>
      if AuthorizesExecution(level) then
        w.hasRun || w.approval == Some(Approved) || w.approval == Some(Pending)
      else w.approval == Some(Pending)
  }

  predicate GenerationFailed(w: Workflow) {
    w.verification.Some? && w.verification.value.status.VerificationFailed?
  }

  function LevelOf(a: Acceptance): AutonomyLevel {
    if a.level.Some? then a.level.value else ExecuteWithApproval
  }

  // ----- What the boundary demands

  predicate WaitsForApproval(w: Workflow) { w.approval == Some(Pending) }

  /** What the level in the server's answer demands of a workflow, level by level; None is no level. */
  ghost predicate Demanded(level: Option<AutonomyLevel>, w: Workflow) {
    && (level == Some(Recommend) ==> exists v :: w.verification == Some(v) && v.status == ReadyForApproval)
    && (level == Some(AutomaticCoding) ==> w.hasRun || w.approval == Some(Approved) || WaitsForApproval(w))
    && (level == Some(FullAutonomy) ==> w.hasRun || w.approval == Some(Approved) || WaitsForApproval(w))
    && (level == Some(ExecuteWithApproval) || level == Some(Observe) || level == None ==> WaitsForApproval(w))
  }

  ghost predicate Broken(w: Workflow) {
    exists v :: w.verification == Some(v) && v.status == VerificationFailed
  }

  /** The driver's tests are those demands. */
  lemma BoundaryIsDemanded(a: Acceptance, w: Workflow)
    ensures AtBoundary(LevelOf(a), w) <==> Demanded(a.level, w)
    ensures GenerationFailed(w) <==> Broken(w)
  {
    if w.verification.Some? {
      assert w.verification == Some(w.verification.value);
    }
  }

  function StoryTestOf(v: Verification): StoryTest {
    var message := if v.summary.Some? then v.summary.value
                   else if v.failureMessage.Some? then v.failureMessage.value
                   else "Prompt Testing is preparing the repository acceptance contract.";
    StoryTest(v.id, v.status, message, v.promptHash)
  }

  function Refreshed(test: StoryTest, w: Workflow): StoryTest {
    if w.verification.Some? then StoryTestOf(w.verification.value) else test
  }

  // ----- Runs, read off the history alone

  /** What the server has said when request `k` of a history was answered. */
  function EvaluationAt(server: Server, t: seq<Request>, k: nat): Option<Evaluation>
    requires k < |t|
  {
    server.test(t[..k + 1])
  }

  function RevisedAt(server: Server, t: seq<Request>, k: nat): Option<Revised>
    requires k < |t|
  {
    server.revise(t[..k + 1])
  }

  function AcceptanceAt(server: Server, t: seq<Request>, k: nat): Option<Acceptance>
    requires k < |t|
  {
    server.generate(t[..k + 1])
  }

  /** The workflow the server reported last, when request `k` generated the acceptance contract or polled. */
  function WorkflowAt(server: Server, t: seq<Request>, k: nat): Option<Workflow>
    requires k < |t|
  {
    if t[k].Poll? then server.poll(t[..k + 1])
    else
      var a := AcceptanceAt(server, t, k);
      if a.None? then None else Some(a.value.workflow)
  }

  /** The story test shown after request `k`: the one of the latest verification reported by a poll. */
  function StoryTestAt(server: Server, t: seq<Request>, from: nat, k: nat): Option<StoryTest>
    requires from <= k < |t|
    decreases k - from
  {
    if k == from then
      var a := AcceptanceAt(server, t, k);
      if a.None? then None else Some(a.value.storyTest)
    else
      var before := StoryTestAt(server, t, from, k - 1);
      var w := WorkflowAt(server, t, k);
      if before.None? || w.None? then None else Some(Refreshed(before.value, w.value))
  }

  /** Request `k` polls after an answer that neither failed nor met the demands of the level named by the
      acceptance answer. */
  ghost predicate Waits(server: Server, t: seq<Request>, from: nat, k: nat)
    requires from < k < |t|
  {
    && t[k].Poll?
    && AcceptanceAt(server, t, from).Some? && WorkflowAt(server, t, k - 1).Some?
    && var w := WorkflowAt(server, t, k - 1).value;
    && !Broken(w) && !Demanded(AcceptanceAt(server, t, from).value.level, w)
  }

  /** After the acceptance request `from` there are only polls, each of them needed. */
  ghost predicate Polling(server: Server, t: seq<Request>, from: nat) {
    && from < |t| && t[from].GenerateAcceptance?
    && forall k :: from < k < |t| ==> Waits(server, t, from, k)
  }

  datatype Failure = RequestFailed | NoReplacement | NoBinding | NotApproved | AcceptanceFailed | BoundaryNotReached

  datatype Prepared = Prepared(workflow: Workflow, storyTest: StoryTest)

  /** How polling may end, given the history it leaves. */
  ghost predicate PollingEnds(server: Server, t: seq<Request>, from: nat, r: Result<Prepared, Failure>)
    requires Polling(server, t, from)
  {
    var last := |t| - 1;
    match r
    case Ok(p) =>
      && AcceptanceAt(server, t, from).Some?
      && WorkflowAt(server, t, last) == Some(p.workflow)
      && Demanded(AcceptanceAt(server, t, from).value.level, p.workflow)
      && StoryTestAt(server, t, from, last) == Some(p.storyTest)
    case Err(RequestFailed) => WorkflowAt(server, t, last).None?
    case Err(f) =>
      && AcceptanceAt(server, t, from).Some? && WorkflowAt(server, t, last).Some?
      && !Demanded(AcceptanceAt(server, t, from).value.level, WorkflowAt(server, t, last).value)
      && (f.BoundaryNotReached? || (f.AcceptanceFailed? && Broken(WorkflowAt(server, t, last).value)))
  }

  /** The clock as the driver reads it: once for the deadline, then before each poll, a full wait apart. */
  ghost predicate Ticks(clock: nat -> int) {
    clock(0) <= clock(1) && forall k, next :: 1 <= k && next == k + 1 ==> clock(k) + WAIT_MS <= clock(next)
  }

  function Timeout(timeoutMs: Option<int>): int { if timeoutMs.Some? then timeoutMs.value else DEFAULT_TIMEOUT_MS }

  /** The time allowed: what the caller gives, five minutes otherwise. */
  function Allowed(timeoutMs: Option<int>): int {
    match timeoutMs
    case Some(t) => t
    case None => 5 * 60_000
  }

  /** No poll without time left, so at most the time allowed over the wait of 2000 ms, rounded up. */
  predicate PollsFit(polls: int, timeoutMs: Option<int>) {
    polls >= 0 && (polls > 0 ==> 2_000 * (polls - 1) < Allowed(timeoutMs))
  }

  // ----- Growing histories

  /** What was answered stays answered when the history grows. */
  lemma AnswersStay(server: Server, t: seq<Request>, more: seq<Request>, k: nat)
    requires k < |t|
    ensures (t + more)[k] == t[k] && (t + more)[..k + 1] == t[..k + 1]
    ensures WorkflowAt(server, t + more, k) == WorkflowAt(server, t, k)
    ensures AcceptanceAt(server, t + more, k) == AcceptanceAt(server, t, k)
  {
    assert (t + more)[..k + 1] == t[..k + 1];
  }

  lemma {:induction false} StoryTestStays(server: Server, t: seq<Request>, from: nat, k: nat, more: seq<Request>)
    requires from <= k < |t|
    ensures StoryTestAt(server, t + more, from, k) == StoryTestAt(server, t, from, k)
    decreases k - from
  {
    AnswersStay(server, t, more, k);
    if from < k {
      StoryTestStays(server, t, from, k - 1, more);
    }
  }

  /** The driver's variables while it polls. */
  ghost predicate Following(server: Server, t: seq<Request>, from: nat, acceptance: Acceptance, p: Prepared) {
    && Polling(server, t, from)
    && AcceptanceAt(server, t, from) == Some(acceptance)
    && WorkflowAt(server, t, |t| - 1) == Some(p.workflow)
    && StoryTestAt(server, t, from, |t| - 1) == Some(p.storyTest)
  }

  lemma FollowingStarts(server: Server, t: seq<Request>, acceptance: Acceptance)
    requires t != [] && t[|t| - 1].GenerateAcceptance? && server.generate(t) == Some(acceptance)
    ensures Following(server, t, |t| - 1, acceptance, Prepared(acceptance.workflow, acceptance.storyTest))
  {
    assert t[..|t|] == t;
  }

  lemma WaitsStays(server: Server, t: seq<Request>, from: nat, k: nat, more: seq<Request>)
    requires from < k < |t|
    ensures Waits(server, t + more, from, k) == Waits(server, t, from, k)
  {
    AnswersStay(server, t, more, from);
    AnswersStay(server, t, more, k - 1);
    AnswersStay(server, t, more, k);
  }

  lemma PollingExtends(server: Server, t: seq<Request>, from: nat, acceptance: Acceptance, p: Prepared)
    requires Following(server, t, from, acceptance, p) && !Broken(p.workflow) && !Demanded(acceptance.level, p.workflow)
    ensures Polling(server, t + [Poll], from)
  {
    AnswersStay(server, t, [Poll], from);
    AnswersStay(server, t, [Poll], |t| - 1);
    forall k | from < k < |t| + 1 ensures Waits(server, t + [Poll], from, k) {
      if k < |t| {
        WaitsStays(server, t, from, k, [Poll]);
      }
    }
  }

  lemma FollowingStep(server: Server, t: seq<Request>, from: nat, acceptance: Acceptance, p: Prepared)
    requires Following(server, t, from, acceptance, p) && !Broken(p.workflow) && !Demanded(acceptance.level, p.workflow)
    ensures var u := t + [Poll];
            && Polling(server, u, from)
            && WorkflowAt(server, u, |t|) == server.poll(u)
            && (server.poll(u).Some? ==>
                  var w := server.poll(u).value;
                  Following(server, u, from, acceptance, Prepared(w, Refreshed(p.storyTest, w))))
  {
    var u := t + [Poll];
    PollingExtends(server, t, from, acceptance, p);
    AnswersStay(server, t, [Poll], from);
    StoryTestStays(server, t, from, |t| - 1, [Poll]);
    assert u[..|t| + 1] == u;
  }

  // ----- Whole runs

  function FirstGenerate(t: seq<Request>): nat { if |t| > 1 && t[1].ApplyRevision? then 2 else 1 }

  /** The revision request carries the replacement that prompt testing proposed, and only an automatic run
      makes one. */
  predicate RevisionJustified(e: Evaluation, userStory: string, manual: bool, request: Request) {
    && !manual && e.verdict.NeedsRevision? && e.suggestedRevision != [] && e.revisionReceipt != []
    && request == ApplyRevision(e.evaluationId, userStory, e.promptHash, e.suggestedRevision, e.revisionReceipt)
  }

  /** The receipt of the latest accepted prompt: the applied revision's, or that of a prompt that passed. */
  function AcceptedReceipt(server: Server, t: seq<Request>): Option<string>
    requires |t| > 1
  {
    if t[1].ApplyRevision? then
      var revised := RevisedAt(server, t, 1);
      if revised.Some? && revised.value.workflow.promptHash != [] && revised.value.alignmentReceipt != [] then
        Some(revised.value.alignmentReceipt)
      else None
    else
      var e := EvaluationAt(server, t, 0);
      if e.Some? && e.value.verdict.Passed? && e.value.alignmentReceipt != [] then Some(e.value.alignmentReceipt)
      else None
  }

  /** Every request of a run is called for by what the server answered before it. */
  ghost predicate Justified(server: Server, userStory: string, manual: bool, t: seq<Request>) {
    && t != [] && t[0] == TestStory(userStory, manual)
    && (|t| > 1 ==> EvaluationAt(server, t, 0).Some?)
    && (|t| > 1 && t[1].ApplyRevision? ==>
          RevisionJustified(EvaluationAt(server, t, 0).value, userStory, manual, t[1]))
    && (|t| > FirstGenerate(t) ==>
          && AcceptedReceipt(server, t).Some?
          && t[FirstGenerate(t)] == GenerateAcceptance(EvaluationAt(server, t, 0).value.evaluationId, userStory,
                                                       AcceptedReceipt(server, t).value)
          && Polling(server, t, FirstGenerate(t)))
  }

  /** A run that returns has shown the user the revision a manual check asked for, or has reached the
      boundary of the level the server named. */
  ghost predicate Returned(server: Server, manual: bool, t: seq<Request>, v: Evaluation)
    requires t != []
  {
    && EvaluationAt(server, t, 0).Some?
    && var e := EvaluationAt(server, t, 0).value;
       if manual && e.verdict.NeedsRevision? then |t| == 1 && v == e
       else
         var from := FirstGenerate(t);
         && from < |t| && AcceptanceAt(server, t, from).Some? && v.storyTest.Some?
         && Demanded(AcceptanceAt(server, t, from).value.level, v.workflow)
         && WorkflowAt(server, t, |t| - 1) == Some(v.workflow)
         && StoryTestAt(server, t, from, |t| - 1) == v.storyTest
         && v.evaluationId == e.evaluationId && v.verdict.Passed?
         && AcceptedReceipt(server, t) == Some(v.alignmentReceipt)
         && (v.promptHash == if t[1].ApplyRevision? then RevisedAt(server, t, 1).value.workflow.promptHash
                             else e.promptHash)
         && v.suggestedRevision == (if t[1].ApplyRevision? then [] else e.suggestedRevision)
         && v.revisionReceipt == (if t[1].ApplyRevision? then [] else e.revisionReceipt)
  }

  /** What the history of a run that gave up shows. */
  ghost predicate GaveUp(server: Server, manual: bool, t: seq<Request>, f: Failure)
    requires t != []
  {
    var tested, last := EvaluationAt(server, t, 0), |t| - 1;
    match f
    case RequestFailed =>
      if last == 0 then tested.None?
      else if t[last].ApplyRevision? then RevisedAt(server, t, last).None?
      else WorkflowAt(server, t, last).None?
    case NoReplacement =>
      && last == 0 && tested.Some? && tested.value.verdict.NeedsRevision? && !manual
      && (tested.value.suggestedRevision == [] || tested.value.revisionReceipt == [])
    case NotApproved =>
      && last == 0 && tested.Some? && !tested.value.verdict.NeedsRevision?
      && (!tested.value.verdict.Passed? || tested.value.alignmentReceipt == [])
    case NoBinding => last == 1 && t[1].ApplyRevision? && RevisedAt(server, t, 1).Some? && AcceptedReceipt(server, t).None?
    case _ =>
      && FirstGenerate(t) < |t| && Polling(server, t, FirstGenerate(t))
      && PollingEnds(server, t, FirstGenerate(t), Err(f))
  }

  /** Whatever the server answers, a run tests once, revises at most once and never for a manual check,
      generates at most once, and polls only after that. */
  lemma EachRequestOnce(server: Server, userStory: string, manual: bool, t: seq<Request>, i: nat, j: nat)
    requires Justified(server, userStory, manual, t) && i < j < |t|
    ensures !t[j].TestStory? && (t[j].ApplyRevision? ==> j == 1 && !manual)
    ensures t[i].GenerateAcceptance? ==> t[j].Poll?
    ensures t[i].Poll? ==> t[j].Poll?
    ensures t[j].Poll? ==> exists g :: 0 < g < j && t[g].GenerateAcceptance?
  {
    var from := FirstGenerate(t);
    if from < j {
      assert Waits(server, t, from, j);
    }
    if from < i {
      assert Waits(server, t, from, i);
    }
  }

  /** A history up to, but not including, the acceptance request, and the evaluation the driver holds. */
  ghost predicate Aligned(server: Server, userStory: string, manual: bool, t: seq<Request>, v: Evaluation) {
    && (|t| == 1 || |t| == 2) && t[0] == TestStory(userStory, manual)
    && EvaluationAt(server, t, 0).Some? && v.verdict.Passed?
    && var e := EvaluationAt(server, t, 0).value;
    && v.evaluationId == e.evaluationId
    && (if |t| == 1 then v == e && e.alignmentReceipt != []
        else
          && t[1].ApplyRevision? && RevisionJustified(e, userStory, manual, t[1])
          && RevisedAt(server, t, 1) == Some(Revised(v.workflow, v.alignmentReceipt))
          && v.promptHash == v.workflow.promptHash != [] && v.alignmentReceipt != []
          && v.suggestedRevision == [] && v.revisionReceipt == [])
  }

  lemma AlignedStays(server: Server, userStory: string, manual: bool, t: seq<Request>, v: Evaluation, more: seq<Request>)
    requires Aligned(server, userStory, manual, t, v)
    requires more != [] && more[0] == GenerateAcceptance(v.evaluationId, userStory, v.alignmentReceipt)
    ensures var u := t + more;
            && FirstGenerate(u) == |t| && EvaluationAt(server, u, 0) == EvaluationAt(server, t, 0)
            && AcceptedReceipt(server, u) == Some(v.alignmentReceipt)
            && (|t| == 2 ==> u[1] == t[1] && RevisedAt(server, u, 1) == RevisedAt(server, t, 1))
  {
    assert (t + more)[..1] == t[..1];
    if |t| == 2 {
      assert (t + more)[..2] == t[..2];
    }
  }

  lemma RunEnds(server: Server, userStory: string, manual: bool, t: seq<Request>, v: Evaluation, more: seq<Request>,
                r: Result<Prepared, Failure>)
    requires Aligned(server, userStory, manual, t, v)
    requires more != [] && more[0] == GenerateAcceptance(v.evaluationId, userStory, v.alignmentReceipt)
    requires Polling(server, t + more, |t|) && PollingEnds(server, t + more, |t|, r)
    ensures FirstGenerate(t + more) == |t| && Justified(server, userStory, manual, t + more)
    ensures r.Ok? ==> Returned(server, manual, t + more,
                               v.(workflow := r.value.workflow, storyTest := Some(r.value.storyTest)))
    ensures r.Err? ==> GaveUp(server, manual, t + more, r.error)
  {
    AlignedStays(server, userStory, manual, t, v, more);
    var last := |t + more| - 1;
    if last > |t| {
      assert Waits(server, t + more, |t|, last);
    }
  }

  // ----- What is shown at the end

  /** The story test tells of the verification: its summary, failing that its failure, failing that a
      fixed text. */
  ghost predicate Tells(test: StoryTest, v: Verification) {
    && test.id == v.id && test.status == v.status && test.promptHash == v.promptHash
    && (v.summary.Some? ==> test.message == v.summary.value)
    && (v.summary.None? && v.failureMessage.Some? ==> test.message == v.failureMessage.value)
    && (v.summary.None? && v.failureMessage.None? ==>
          test.message == "Prompt Testing is preparing the repository acceptance contract.")
  }

  ghost predicate Reports(server: Server, t: seq<Request>, k: nat, v: Verification)
    requires k < |t|
  {
    WorkflowAt(server, t, k).Some? && WorkflowAt(server, t, k).value.verification == Some(v)
  }

  /** No poll after `from`, up to `k`, reported a verification. */
  ghost predicate NoneReported(server: Server, t: seq<Request>, from: int, k: nat)
    requires 0 <= from && k < |t|
  {
    forall l, v :: from < l <= k ==> !Reports(server, t, l, v)
  }

  /** `test` tells of the latest poll up to `k` that reported a verification, or no poll has and it is the
      one of the acceptance answer. */
  ghost predicate TellsLatest(server: Server, t: seq<Request>, from: nat, k: nat, test: StoryTest)
    requires from <= k < |t|
  {
    || (exists j, v :: from < j <= k && Reports(server, t, j, v) && Tells(test, v) && NoneReported(server, t, j, k))
    || (NoneReported(server, t, from, k)
        && AcceptanceAt(server, t, from).Some? && AcceptanceAt(server, t, from).value.storyTest == test)
  }

  lemma NothingNew(server: Server, t: seq<Request>, from: nat, k: nat, test: StoryTest)
    requires from < k < |t| && TellsLatest(server, t, from, k - 1, test)
    requires forall v :: !Reports(server, t, k, v)
    ensures TellsLatest(server, t, from, k, test)
  {
    if j, v :| from < j <= k - 1 && Reports(server, t, j, v) && Tells(test, v) && NoneReported(server, t, j, k - 1) {
      assert NoneReported(server, t, j, k);
    } else {
      assert NoneReported(server, t, from, k);
    }
  }

  /** The story test shown is that of the latest poll that reported a verification, or the acceptance
      answer's own when none did. */
  lemma {:induction false} StoryTestIsLatest(server: Server, t: seq<Request>, from: nat, k: nat, test: StoryTest)
    requires from <= k < |t| && StoryTestAt(server, t, from, k) == Some(test)
    ensures TellsLatest(server, t, from, k, test)
    decreases k - from
  {
    if from < k {
      var w := WorkflowAt(server, t, k).value;
      if w.verification.Some? {
        assert Reports(server, t, k, w.verification.value) && Tells(test, w.verification.value);
      } else {
        StoryTestIsLatest(server, t, from, k - 1, test);
        NothingNew(server, t, from, k, test);
      }
    }
  }

  // ----- The driver

  class Driver {
    const server: Server
    const clock: nat -> int
    var trace: seq<Request>

    constructor (server: Server, clock: nat -> int)
      ensures this.server == server && this.clock == clock && trace == []
    {
      this.server, this.clock, trace := server, clock, [];
    }

    method PrepareAlignedPromptApproval(userStory: string, evaluationId: string, alignmentReceipt: string,
                                        timeoutMs: Option<int>)
      returns (r: Result<Prepared, Failure>)
      requires Ticks(clock)
      modifies this
      ensures old(trace) + [GenerateAcceptance(evaluationId, userStory, alignmentReceipt)] <= trace
      ensures Polling(server, trace, |old(trace)|) && PollingEnds(server, trace, |old(trace)|, r)
      ensures PollsFit(|trace| - |old(trace)| - 1, timeoutMs)
      ensures r == Err(BoundaryNotReached) ==> clock(|trace| - |old(trace)|) >= clock(0) + Allowed(timeoutMs)
    {
      ghost var from := |trace|;
      trace := trace + [GenerateAcceptance(evaluationId, userStory, alignmentReceipt)];
      var acceptance := server.generate(trace);
      if acceptance.None? {
        assert trace[..from + 1] == trace;
        return Err(RequestFailed);
      }
      FollowingStarts(server, trace, acceptance.value);
      var level := LevelOf(acceptance.value);
      var p := Prepared(acceptance.value.workflow, acceptance.value.storyTest);
      var deadline := clock(0) + Timeout(timeoutMs);
      var looks := 1;
      while !AtBoundary(level, p.workflow) && clock(looks) < deadline
        invariant looks >= 1 && |trace| == from + looks
        invariant old(trace) + [GenerateAcceptance(evaluationId, userStory, alignmentReceipt)] <= trace
        invariant clock(0) + WAIT_MS * (looks - 1) <= clock(looks)
        invariant PollsFit(looks - 1, timeoutMs)
        invariant Following(server, trace, from, acceptance.value, p)
        decreases deadline - clock(looks)
      {
        BoundaryIsDemanded(acceptance.value, p.workflow);
        if GenerationFailed(p.workflow) {
          return Err(AcceptanceFailed);
        }
        FollowingStep(server, trace, from, acceptance.value, p);
        trace := trace + [Poll];
        var latest := server.poll(trace);
        if latest.None? {
          return Err(RequestFailed);
        }
        p := Prepared(latest.value, Refreshed(p.storyTest, latest.value));
        looks := looks + 1;
      }
      BoundaryIsDemanded(acceptance.value, p.workflow);
      if !AtBoundary(level, p.workflow) {
        return Err(BoundaryNotReached);
      }
      return Ok(p);
    }

    method PrepareAgentApproval(userStory: string, manual: bool, timeoutMs: Option<int>)
      returns (r: Result<Evaluation, Failure>)
      requires Ticks(clock) && trace == []
      modifies this
      ensures Justified(server, userStory, manual, trace)
      ensures if r.Ok? then Returned(server, manual, trace, r.value) else GaveUp(server, manual, trace, r.error)
      ensures PollsFit(if |trace| > FirstGenerate(trace) then |trace| - FirstGenerate(trace) - 1 else 0, timeoutMs)
    {
      trace := [TestStory(userStory, manual)];
      var tested := server.test(trace);
      assert trace[..1] == trace;
      if tested.None? {
        return Err(RequestFailed);
      }
      var evaluation := tested.value;
      if evaluation.verdict.NeedsRevision? {
        if manual {
          return Ok(evaluation);
        }
        if evaluation.suggestedRevision == [] || evaluation.revisionReceipt == [] {
          return Err(NoReplacement);
        }
        trace := trace + [ApplyRevision(evaluation.evaluationId, userStory, evaluation.promptHash,
                                        evaluation.suggestedRevision, evaluation.revisionReceipt)];
        assert trace[..1] == [TestStory(userStory, manual)] && trace[..2] == trace;
        var applied := server.revise(trace);
        if applied.None? {
          return Err(RequestFailed);
        }
        if applied.value.workflow.promptHash == [] || applied.value.alignmentReceipt == [] {
          return Err(NoBinding);
        }
        evaluation := evaluation.(workflow := applied.value.workflow, verdict := Passed, suggestedRevision := [],
                                  promptHash := applied.value.workflow.promptHash,
                                  alignmentReceipt := applied.value.alignmentReceipt, revisionReceipt := []);
      }
      if !evaluation.verdict.Passed? || evaluation.alignmentReceipt == [] {
        return Err(NotApproved);
      }
      ghost var before := trace;
      assert Aligned(server, userStory, manual, before, evaluation);
      var prepared := PrepareAlignedPromptApproval(userStory, evaluation.evaluationId, evaluation.alignmentReceipt,
                                                   timeoutMs);
      assert trace == before + trace[|before|..];
      RunEnds(server, userStory, manual, before, evaluation, trace[|before|..], prepared);
      if prepared.Err? {
        return Err(prepared.error);
      }
      return Ok(evaluation.(workflow := prepared.value.workflow, storyTest := Some(prepared.value.storyTest)));
    }
  }
}
