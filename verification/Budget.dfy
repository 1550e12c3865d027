/** The staged budget of one prompt evaluation attempt, in micro-dollars. */
module Budget {
  import opened Wrappers

  const STAGE_CEILING: nat := 250_000

  // ----- Shares

  lemma Multiples(d: nat, q: nat)
    ensures 2 * d * q == 2 * (d * q) && 2 * d * (q + 1) == 2 * (d * q) + 2 * d
  {
  }

  /** n / d rounded to the nearest integer, ties to even. */
  function RoundHalfEven(n: nat, d: nat): (r: nat)
    requires d > 0
    ensures 2 * n - d <= 2 * d * r <= 2 * n + d
    ensures 2 * d * r == 2 * n - d || 2 * d * r == 2 * n + d ==> r % 2 == 0
  {
    var q, m := n / d, n % d;
    assert n == d * q + m;
    Multiples(d, q);
    if 2 * m < d || (2 * m == d && q % 2 == 0) then q else q + 1
  }

  datatype Shares = Shares(generation: nat, repair: nat, detection: int)

  /** A quarter for generation and 15 per cent for repair, each at most the ceiling; the rest detects. */
  function StageBudgets(budget: nat): Shares {
    var generation := if budget > 4 * STAGE_CEILING then STAGE_CEILING else RoundHalfEven(budget, 4);
    var repair := if 3 * budget > 20 * STAGE_CEILING then STAGE_CEILING else RoundHalfEven(3 * budget, 20);
    Shares(generation, repair, budget - generation - repair)
  }

  /** No share is negative, together they are the budget, and the detector always gets something. */
  lemma SharesConserveTheBudget(budget: nat)
    ensures var s := StageBudgets(budget);
            && s.generation + s.repair + s.detection == budget
            && s.generation <= STAGE_CEILING && s.repair <= STAGE_CEILING
            && 0 <= s.detection
            && (budget > 0 ==> s.detection > 0 && 10 * s.detection >= 6 * budget - 10)
  {
  }

  /** A quarter and 15 per cent, each rounded to the nearest micro-dollar, ties to even, up to 25 cents. */
  lemma SharesArePercentages(budget: nat)
    ensures var s := StageBudgets(budget);
            && (budget <= 1_000_000 ==> budget - 2 <= 4 * s.generation <= budget + 2)
            && (budget <= 1_000_000 && (4 * s.generation == budget - 2 || 4 * s.generation == budget + 2) ==>
                  s.generation % 2 == 0)
            && (budget > 1_000_000 ==> s.generation == 250_000)
            && (3 * budget <= 5_000_000 ==> 3 * budget - 10 <= 20 * s.repair <= 3 * budget + 10)
            && (3 * budget <= 5_000_000 && (20 * s.repair == 3 * budget - 10 || 20 * s.repair == 3 * budget + 10) ==>
                  s.repair % 2 == 0)
            && (3 * budget > 5_000_000 ==> s.repair == 250_000)
  {
  }

  // ----- What was spent

  /** One row of the cost file; None stands for a cost that is not a number. */
  type CostRow = Option<int>

  function Cost(row: CostRow): int { if row.Some? then row.value else 0 }

  function Sum(rows: seq<CostRow>): int {
    if rows == [] then 0 else Sum(rows[..|rows| - 1]) + Cost(rows[|rows| - 1])
  }

  lemma {:induction false} SumConcat(a: seq<CostRow>, b: seq<CostRow>)
    ensures Sum(a + b) == Sum(a) + Sum(b)
  {
    if b == [] {
      assert a + b == a;
    } else {
      SumConcat(a, b[..|b| - 1]);
      assert (a + b)[..|a + b| - 1] == a + b[..|b| - 1];
    }
  }

  /** A row that is no number costs nothing; every other row counts in full, once. */
  lemma {:induction false} SumMeaning(rows: seq<CostRow>, k: nat, amount: int)
    requires k < |rows| && rows[k] == Some(amount)
    ensures Sum(rows) == amount + Sum(rows[k := None])
  {
    var last := |rows| - 1;
    var without := rows[k := None];
    if k == last {
      assert without[..last] == rows[..last];
    } else {
      assert without[..last] == rows[..last][k := None];
      SumMeaning(rows[..last], k, amount);
    }
  }

  lemma {:induction false} NothingReadable(rows: seq<CostRow>)
    requires forall k :: 0 <= k < |rows| ==> rows[k] == None
    ensures Sum(rows) == 0
  {
    if rows != [] {
      NothingReadable(rows[..|rows| - 1]);
    }
  }

  datatype Stage = Generation | Detection

  /** How a stage ends: its exit and the rows it appended to the cost file. */
  datatype StageRun = StageRun(ok: bool, rows: seq<CostRow>)

  datatype Artifacts = Paired | ContractMissing | Malformed

  datatype RepairRun = RepairRun(ok: bool, receipt: Option<int>, artifacts: Artifacts)

  /** What the outside world does to one attempt. */
  datatype World = World(
    authenticated: bool,
    run: (Stage, int) -> StageRun,
    artifacts: Artifacts,
    repair: int -> RepairRun)

  /** Each PDD stage stays within the cap it is given. */
  ghost predicate StaysWithinCaps(world: World) {
    forall stage, cap: int :: cap >= 0 ==> 0 <= Sum(world.run(stage, cap).rows) <= cap
  }

  datatype PipelineError = Authentication | StageFailed(stage: Stage) | BadArtifacts | RepairFailed
    | RepairOverBudget | Exhausted

  /** How a repair ends: with what error if any, and with what receipt on file. */
  ghost predicate RepairedAs(run: RepairRun, cap: int, r: Result<(), PipelineError>, receipt: Option<int>) {
    var within := run.ok && run.receipt.Some? && 0 <= run.receipt.value <= cap;
    && (within ==> receipt == run.receipt && r == if run.artifacts == Paired then Ok(()) else Err(BadArtifacts))
    && (!within ==> receipt == None
                    && r == if run.ok && run.receipt.Some? then Err(RepairOverBudget) else Err(RepairFailed))
  }

  /** How the preparation of a first review ends, generation and repair having the given caps. */
  ghost predicate PreparedAs(world: World, generation: int, repair: int, r: Result<(), PipelineError>,
                             csv: Option<seq<CostRow>>, receipt: Option<int>) {
    var run := world.run(Generation, generation);
    && (!world.authenticated ==> r == Err(Authentication) && csv == None && receipt == None)
    && (world.authenticated ==> csv == Some(run.rows))
    && (world.authenticated && !run.ok ==> r == Err(StageFailed(Generation)) && receipt == None)
    && (world.authenticated && run.ok && world.artifacts == Paired ==> r == Ok(()) && receipt == None)
    && (world.authenticated && run.ok && world.artifacts == Malformed ==> r == Err(BadArtifacts) && receipt == None)
    && (world.authenticated && run.ok && world.artifacts == ContractMissing ==>
          RepairedAs(world.repair(repair), repair, r, receipt))
  }

  /** The cost file and the repair receipt of a fresh directory. */
  class Attempt {
    var csv: Option<seq<CostRow>>
    var receipt: Option<int>
    var detectionCap: Option<int>

    constructor ()
      ensures csv.None? && receipt.None? && detectionCap.None?
    {
      csv, receipt, detectionCap := None, None, None;
    }

    function Spent(): int
      reads this
    {
      (if csv.Some? then Sum(csv.value) else 0) + (if receipt.Some? then receipt.value else 0)
    }

    method CostReport() returns (cost: Option<int>)
      ensures cost == if csv.None? && receipt.None? then None else Some(Spent())
      ensures csv.Some? && receipt.Some? ==> cost == Some(Sum(csv.value) + receipt.value)
      ensures csv.Some? && receipt.None? ==> cost == Some(Sum(csv.value))
      ensures csv.None? && receipt.Some? ==> cost == receipt
    {
      if csv.None? && receipt.None? {
        return None;
      }
      var total := 0;
      if csv.Some? {
        var i := 0;
        while i < |csv.value|
          invariant 0 <= i <= |csv.value|
          invariant total == Sum(csv.value[..i])
        {
          assert csv.value[..i + 1][..i] == csv.value[..i];
          if csv.value[i].Some? {
            total := total + csv.value[i].value;
          }
          i := i + 1;
        }
        assert csv.value[..i] == csv.value;
      }
      if receipt.Some? {
        total := total + receipt.value;
      }
      return Some(total);
    }

    method RunStage(stage: Stage, cap: int, world: World) returns (ok: bool)
      modifies this`csv
      ensures ok == world.run(stage, cap).ok
      ensures csv == Some((if old(csv).Some? then old(csv).value else []) + world.run(stage, cap).rows)
      ensures Spent() == old(Spent()) + Sum(world.run(stage, cap).rows)
    {
      var run := world.run(stage, cap);
      var before := if csv.Some? then csv.value else [];
      SumConcat(before, run.rows);
      csv := Some(before + run.rows);
      ok := run.ok;
    }

    method RepairContract(cap: nat, world: World) returns (r: Result<(), PipelineError>)
      requires receipt.None?
      modifies this`receipt
      ensures old(Spent()) <= Spent() <= old(Spent()) + cap
      ensures RepairedAs(world.repair(cap), cap, r, receipt)
    {
      var repaired := world.repair(cap);
      if !repaired.ok || repaired.receipt.None? {
        return Err(RepairFailed);
      }
      if repaired.receipt.value < 0 || repaired.receipt.value > cap {
        return Err(RepairOverBudget);
      }
      receipt := repaired.receipt;
      if repaired.artifacts != Paired {
        return Err(BadArtifacts);
      }
      return Ok(());
    }

    /** A first review generates its contract and may repair it; a retest reuses the saved one. */
    method Prepare(budget: nat, retest: bool, world: World) returns (r: Result<(), PipelineError>)
      requires csv.None? && receipt.None? && StaysWithinCaps(world)
      modifies this`csv, this`receipt
      ensures retest ==> r.Ok? && csv.None? && receipt.None?
      ensures !retest ==>
                PreparedAs(world, StageBudgets(budget).generation, StageBudgets(budget).repair, r, csv, receipt)
      ensures 0 <= Spent() <= StageBudgets(budget).generation + StageBudgets(budget).repair
      ensures receipt.None? ==> Spent() <= StageBudgets(budget).generation
    {
      if retest {
        return Ok(());
      }
      var shares := StageBudgets(budget);
      if !world.authenticated {
        return Err(Authentication);
      }
      var generated := RunStage(Generation, shares.generation, world);
      assert [] + world.run(Generation, shares.generation).rows == world.run(Generation, shares.generation).rows;
      if !generated {
        return Err(StageFailed(Generation));
      }
      match world.artifacts {
        case Paired => return Ok(());
        case Malformed => return Err(BadArtifacts);
        case ContractMissing => r := RepairContract(shares.repair, world);
      }
    }

    /**
     One attempt in a fresh directory. The budget is never reported as exhausted by preparation, the
     detector gets at least its share and exactly what preparation left, and whatever happens the
     attempt spends no more than its budget.
     */
    method RunPipeline(budget: nat, retest: bool, world: World) returns (r: Result<(), PipelineError>)
      requires budget > 0 && csv.None? && receipt.None? && detectionCap.None? && StaysWithinCaps(world)
      modifies this
      ensures r != Err(Exhausted)
      ensures 0 <= Spent() <= budget
      ensures detectionCap.Some? ==>
                r == if world.run(Detection, detectionCap.value).ok then Ok(()) else Err(StageFailed(Detection))
      ensures detectionCap.None? && retest ==> !world.authenticated && r == Err(Authentication) && Spent() == 0
      ensures detectionCap.None? && !retest ==>
                r.Err? && PreparedAs(world, StageBudgets(budget).generation, StageBudgets(budget).repair, r, csv, receipt)
      ensures detectionCap.Some? ==>
                && StageBudgets(budget).detection <= detectionCap.value <= budget
                && detectionCap.value > 0
                && Spent() == budget - detectionCap.value + Sum(world.run(Detection, detectionCap.value).rows)
                && (retest ==> world.authenticated && detectionCap.value == budget)
                && (!retest ==> PreparedAs(world, StageBudgets(budget).generation, StageBudgets(budget).repair, Ok(()),
                                           Some(world.run(Generation, StageBudgets(budget).generation).rows), receipt))
                && (receipt.None? ==> detectionCap.value >= budget - StageBudgets(budget).generation)
    {
      SharesConserveTheBudget(budget);
      r := Prepare(budget, retest, world);
      if r.Err? {
        return;
      }
      var preparation := CostReport();
      var cap := budget - (if preparation.Some? then preparation.value else 0);
      if cap <= 0 {
        return Err(Exhausted);
      }
      if retest && !world.authenticated {
        return Err(Authentication);
      }
      detectionCap := Some(cap);
      var detected := RunStage(Detection, cap, world);
      if !detected {
        return Err(StageFailed(Detection));
      }
      return Ok(());
    }
  }
}
