/**
 The gate protocol: reserve club spend, reserve output tokens, run the model, settle both ledgers.
 Other clients and the spend sweeper act between any two of its calls, and each call may fail
 before or after it took effect.
 */
module GateProtocol {
  import opened Common
  import opened Ledger
  import opened ClubSpend
  import opened LedgerTable

  type Member = nat
  type OutputScope = (Member, Club)
  type SpendRow = Row<Club, SpendInfo>
  type OutputRow = Row<OutputScope, ()>

  datatype GateVerdict =
    | Passed(prompt: int, completion: int)
    | RejectedIllegal(prompt: int, completion: int)
    | RejectedQuality(prompt: int, completion: int)
    | RejectedMalformed(prompt: int, completion: int)
    | Skipped
    | Failed

  predicate Billable(v: GateVerdict) {
    v.Passed? || v.RejectedIllegal? || v.RejectedQuality? || v.RejectedMalformed?
  }

  function Completions(v: GateVerdict): int {
    if Billable(v) then v.completion else 0
  }

  function VerdictUsage(v: GateVerdict): TokenUsage {
    if Billable(v) then GateUsage(v.prompt, v.completion) else GateUsage(0, 0)
  }

  /** A failed call may or may not have reached the database. */
  datatype CallFate = Done | FailedBefore | FailedAfter

  datatype ModelResult = Throws | Returns(verdict: GateVerdict)

  datatype GateError = QuotaReached | Infrastructure | IllegalContent | LowQuality | GateRejected | GateUnavailable

  // ---- What happens between the protocol's calls ------------------------------------------------

  datatype EnvStep =
    | Wait(ms: nat)
    | SpendInsert(spendRow: SpendRow)
    | SpendSettle(spendId: nat, spendStatus: Status)
    | SpendSweep
    | OutputInsert(outputRow: OutputRow)
    | OutputSettle(outputId: nat, outputStatus: Status)

  datatype World = World(now: nat, spend: seq<SpendRow>, output: seq<OutputRow>)

  function SettleOther<S, I>(rows: seq<Row<S, I>>, id: nat, status: Status, mine: Option<nat>): seq<Row<S, I>> {
    if IsPending(rows, id) && mine != Some(id) then rows[id := rows[id].(status := status)] else rows
  }

  /** Anything other clients can do; only this run knows the ids of its own reservations. */
  function EnvApply(w: World, step: EnvStep, mySpend: Option<nat>, myOutput: Option<nat>): World {
    match step
    case Wait(ms) => w.(now := w.now + ms)
    case SpendInsert(row) => w.(spend := w.spend + [row])
    case SpendSettle(id, status) => w.(spend := SettleOther(w.spend, id, status, mySpend))
    case SpendSweep => w.(spend := SweepRows(w.spend, w.now))
    case OutputInsert(row) => w.(output := w.output + [row])
    case OutputSettle(id, status) => w.(output := SettleOther(w.output, id, status, myOutput))
  }

  function Interfere(w: World, gap: seq<EnvStep>, mySpend: Option<nat>, myOutput: Option<nat>): World
    decreases gap
  {
    if gap == [] then w
    else Interfere(EnvApply(w, gap[0], mySpend, myOutput), gap[1..], mySpend, myOutput)
  }

  function Elapsed(gap: seq<EnvStep>): nat {
    if gap == [] then 0 else (if gap[0].Wait? then gap[0].ms else 0) + Elapsed(gap[1..])
  }

  /** A sweep runs in the gap, which starts at `now`, when `expiry` has passed. */
  predicate SweptDuring(gap: seq<EnvStep>, now: nat, expiry: nat) {
    gap != [] &&
    ((gap[0].SpendSweep? && expiry <= now)
     || SweptDuring(gap[1..], if gap[0].Wait? then now + gap[0].ms else now, expiry))
  }

  /** Interference leaves this run's output row alone, and its spend row but for the sweeper. */
  lemma {:induction false} OwnRowsSurvive(w: World, gap: seq<EnvStep>, mySpend: Option<nat>, myOutput: Option<nat>)
    ensures var w' := Interfere(w, gap, mySpend, myOutput);
      && w'.now == w.now + Elapsed(gap)
      && |w.spend| <= |w'.spend| && |w.output| <= |w'.output|
      && (mySpend.Some? && mySpend.value < |w.spend| ==>
            w'.spend[mySpend.value] ==
              if w.spend[mySpend.value].status == Pending
                 && SweptDuring(gap, w.now, w.spend[mySpend.value].expiresAt)
              then w.spend[mySpend.value].(status := Released)
              else w.spend[mySpend.value])
      && (myOutput.Some? && myOutput.value < |w.output| ==>
            w'.output[myOutput.value] == w.output[myOutput.value])
    decreases gap
  {
    if gap != [] {
      OwnRowsSurvive(EnvApply(w, gap[0], mySpend, myOutput), gap[1..], mySpend, myOutput);
    }
  }

  lemma {:induction false} SweepNeedsExpiry(gap: seq<EnvStep>, now: nat, expiry: nat)
    requires SweptDuring(gap, now, expiry)
    ensures expiry <= now + Elapsed(gap)
  {
    if !(gap[0].SpendSweep? && expiry <= now) {
      SweepNeedsExpiry(gap[1..], if gap[0].Wait? then now + gap[0].ms else now, expiry);
    }
  }

  /** The same rows but for one. */
  ghost predicate SameBut<S, I>(rows: seq<Row<S, I>>, rows': seq<Row<S, I>>, mine: Option<nat>) {
    |rows| == |rows'| && forall j :: 0 <= j < |rows| && mine != Some(j) ==> rows[j] == rows'[j]
  }

  /** Two worlds that differ in this run's own rows only. */
  ghost predicate SameForOthers(w: World, w': World, mySpend: Option<nat>, myOutput: Option<nat>) {
    w.now == w'.now && SameBut(w.spend, w'.spend, mySpend) && SameBut(w.output, w'.output, myOutput)
  }

  /** What others do does not depend on this run's own rows. */
  lemma {:induction false} OthersUnaware(w: World, w': World, gap: seq<EnvStep>,
                                         mySpend: Option<nat>, myOutput: Option<nat>)
    requires SameForOthers(w, w', mySpend, myOutput)
    ensures SameForOthers(
              Interfere(w, gap, mySpend, myOutput), Interfere(w', gap, mySpend, myOutput), mySpend, myOutput)
    decreases gap
  {
    if gap != [] {
      var v, v' := EnvApply(w, gap[0], mySpend, myOutput), EnvApply(w', gap[0], mySpend, myOutput);
      assert SameForOthers(v, v', mySpend, myOutput);
      OthersUnaware(v, v', gap[1..], mySpend, myOutput);
    }
  }

  // ---- The protocol -------------------------------------------------------------------------------

  datatype Script = Script(
    beforeSpend: seq<EnvStep>, beforeOutput: seq<EnvStep>, duringModel: seq<EnvStep>, betweenSettles: seq<EnvStep>,
    reserveSpend: CallFate, reserveOutput: CallFate, model: ModelResult,
    settleSpend: CallFate, settleOutput: CallFate)
  {
    function SpendReservedAt(start: nat): nat {
      start + Elapsed(beforeSpend)
    }

    function OutputReservedAt(start: nat): nat {
      SpendReservedAt(start) + Elapsed(beforeOutput)
    }

    /** The spend hold ended and was swept before the model's result came back. */
    predicate HoldSwept(start: nat) {
      var expiry := SpendReservedAt(start) + RESERVATION_TTL_MS;
      SweptDuring(beforeOutput, SpendReservedAt(start), expiry)
      || SweptDuring(duringModel, OutputReservedAt(start), expiry)
    }

    /** The spend hold, never settled, ended and was swept before the run did. */
    predicate UnsettledSwept(start: nat, modelCalled: bool) {
      var expiry := SpendReservedAt(start) + RESERVATION_TTL_MS;
      SweptDuring(beforeOutput, SpendReservedAt(start), expiry)
      || (modelCalled && SweptDuring(duringModel, OutputReservedAt(start), expiry))
      || (modelCalled && OutputSettleReached() && SweptDuring(betweenSettles, AnsweredAt(start), expiry))
    }

    function AnsweredAt(start: nat): nat {
      OutputReservedAt(start) + Elapsed(duringModel)
    }

    /** After both reservations, the output settle is reached unless settling the cost of a judgement failed. */
    predicate OutputSettleReached() {
      Judged(model) ==> settleSpend == Done
    }
  }

  /** The model has judged the content, for better or worse, and used tokens for it. */
  predicate Judged(m: ModelResult) {
    && m.Returns?
    && (m.verdict.Passed? || m.verdict.RejectedIllegal? || m.verdict.RejectedQuality? || m.verdict.RejectedMalformed?)
  }

  /**
   What the settle calls leave of a spend row that was pending when the model's result came; `swept` tells
   whether others swept it before the run ended.
   */
  predicate SpendSettled(status: Status, script: Script, swept: bool) {
    if script.settleSpend == FailedBefore then status == (if swept then Released else Pending)
    else
      var m := script.model;
      if Judged(m) && (m.verdict.prompt > 0 || m.verdict.completion > 0) then
        && status.Finalized?
        && status.actual == 20 * AtLeastZero(m.verdict.prompt) + 125 * AtLeastZero(m.verdict.completion)
      else status == Released
  }

  predicate OutputSettled(status: Status, script: Script) {
    if !script.OutputSettleReached() || script.settleOutput == FailedBefore then status == Pending
    else if Judged(script.model) && script.model.verdict.completion > 0 then
      status.Finalized? && status.actual == script.model.verdict.completion
    else status == Released
  }

  function VerdictError(v: GateVerdict): Option<GateError> {
    match v
    case Passed(_, _) => None
    case RejectedIllegal(_, _) => Some(IllegalContent)
    case RejectedQuality(_, _) => Some(LowQuality)
    case RejectedMalformed(_, _) => Some(GateRejected)
    case Skipped => Some(GateUnavailable)
    case Failed => Some(GateUnavailable)
  }

  /** A run whose reservations and model call together stay within the hold never loses it. */
  lemma PromptRunIsNotSwept(script: Script, start: nat)
    requires Elapsed(script.beforeOutput) + Elapsed(script.duringModel) < RESERVATION_TTL_MS
    ensures !script.HoldSwept(start)
  {
    var expiry := script.SpendReservedAt(start) + RESERVATION_TTL_MS;
    if SweptDuring(script.beforeOutput, script.SpendReservedAt(start), expiry) {
      SweepNeedsExpiry(script.beforeOutput, script.SpendReservedAt(start), expiry);
    }
    if SweptDuring(script.duringModel, script.OutputReservedAt(start), expiry) {
      SweepNeedsExpiry(script.duringModel, script.OutputReservedAt(start), expiry);
    }
  }

  /** A model call as long as the hold, followed by a sweep, does lose it. */
  lemma LongModelCallIsSwept(script: Script, start: nat, ms: nat)
    requires script.duringModel == [Wait(ms), SpendSweep] && ms >= RESERVATION_TTL_MS
    ensures script.HoldSwept(start)
  {
    assert script.duringModel[1..] == [SpendSweep];
  }

  // ---- What a run is to leave behind ----------------------------------------------------------------

  datatype Job = Job(club: Club, member: Member, inputTokens: nat, maxOutputTokens: nat)

  datatype Budgets = Budgets(spend: Limits, output: Limits)

  function SpendRequest(job: Job): Request<Club, SpendInfo> {
    EstimateRequest(job.club, SpendInfo(ClubSpend.UsageKind.Gate, GATE_MODEL, job.inputTokens, job.maxOutputTokens))
  }

  function OutputRequest(job: Job): Request<OutputScope, ()> {
    Request((job.member, job.club), (), job.maxOutputTokens)
  }

  function SpendHold(job: Job, at: nat): SpendRow {
    NewRow(SpendRequest(job), at, at, RESERVATION_TTL_MS)
  }

  function OutputHold(job: Job, at: nat): OutputRow {
    NewRow(OutputRequest(job), at, at, RESERVATION_TTL_MS)
  }

  /** The world in which the spend reservation is asked for. */
  function AtSpend(w: World, script: Script): World {
    Interfere(w, script.beforeSpend, None, None)
  }

  predicate SpendHeld(w: World, script: Script, job: Job, budgets: Budgets) {
    var at := AtSpend(w, script);
    script.reserveSpend != FailedBefore && Fits(at.spend, budgets.spend, job.club, at.now, SpendRequest(job).amount)
  }

  function WithSpendHold(w: World, script: Script, job: Job): World {
    var at := AtSpend(w, script);
    at.(spend := at.spend + [SpendHold(job, at.now)])
  }

  /** The world in which the output reservation is asked for. */
  function AtOutput(w: World, script: Script, job: Job): World {
    Interfere(WithSpendHold(w, script, job), script.beforeOutput, Some(|AtSpend(w, script).spend|), None)
  }

  predicate OutputHeld(w: World, script: Script, job: Job, budgets: Budgets) {
    var at := AtOutput(w, script, job);
    && SpendHeld(w, script, job, budgets) && script.reserveSpend == Done && script.reserveOutput != FailedBefore
    && Fits(at.output, budgets.output, (job.member, job.club), at.now, job.maxOutputTokens)
  }

  function WithOutputHold(w: World, script: Script, job: Job): World {
    var at := AtOutput(w, script, job);
    at.(output := at.output + [OutputHold(job, at.now)])
  }

  function SpendId(w: World, script: Script, job: Job, budgets: Budgets): Option<nat> {
    if SpendHeld(w, script, job, budgets) then Some(|AtSpend(w, script).spend|) else None
  }

  function OutputId(w: World, script: Script, job: Job, budgets: Budgets): Option<nat> {
    if OutputHeld(w, script, job, budgets) then Some(|AtOutput(w, script, job).output|) else None
  }

  predicate ModelCalled(w: World, script: Script, job: Job, budgets: Budgets) {
    OutputHeld(w, script, job, budgets) && script.reserveOutput == Done
  }

  /** What others have made of the tables when the run ends, with its own reservations in them and never settled. */
  function Bystanders(w: World, script: Script, job: Job, budgets: Budgets): World {
    var spendId, outputId := SpendId(w, script, job, budgets), OutputId(w, script, job, budgets);
    if spendId.None? then AtSpend(w, script)
    else if script.reserveSpend == FailedAfter then WithSpendHold(w, script, job)
    else if outputId.None? then AtOutput(w, script, job)
    else if script.reserveOutput == FailedAfter then WithOutputHold(w, script, job)
    else AfterModel(w, script, job)
  }

  /** The same for a run that called the model. */
  function AfterModel(w: World, script: Script, job: Job): World {
    var spendId, outputId := Some(|AtSpend(w, script).spend|), Some(|AtOutput(w, script, job).output|);
    var answered := Interfere(WithOutputHold(w, script, job), script.duringModel, spendId, outputId);
    if script.OutputSettleReached() then Interfere(answered, script.betweenSettles, spendId, outputId) else answered
  }

  /** What the caller learns when the model was called. */
  function AfterModelError(script: Script): Option<GateError> {
    if script.model.Throws? || (Judged(script.model) && script.settleSpend != Done) || script.settleOutput != Done
    then Some(Infrastructure)
    else VerdictError(script.model.verdict)
  }

  /** What the caller learns; a refusal by a budget is told from everything else that fails before the model. */
  function RunError(w: World, script: Script, job: Job, budgets: Budgets): Option<GateError> {
    if !SpendHeld(w, script, job, budgets) then
      Some(if script.reserveSpend == Done then QuotaReached else Infrastructure)
    else if script.reserveSpend == FailedAfter then Some(Infrastructure)
    else if !ModelCalled(w, script, job, budgets) then
      Some(if script.reserveOutput == Done then QuotaReached else Infrastructure)
    else AfterModelError(script)
  }

  /** The caller hears of a refusal, or of the model's judgement, only if no call that matters failed. */
  lemma WhatTheCallerLearns(w: World, script: Script, job: Job, budgets: Budgets)
    ensures var error, called := RunError(w, script, job, budgets), ModelCalled(w, script, job, budgets);
      var heard := called && script.model.Returns? && script.settleOutput == Done
                   && (Judged(script.model) ==> script.settleSpend == Done);
      && (error.None? <==> heard && script.model.verdict.Passed?)
      && (error == Some(IllegalContent) <==> heard && script.model.verdict.RejectedIllegal?)
      && (error == Some(LowQuality) <==> heard && script.model.verdict.RejectedQuality?)
      && (error == Some(GateRejected) <==> heard && script.model.verdict.RejectedMalformed?)
      && (error == Some(GateUnavailable) <==> heard && (script.model.verdict.Skipped? || script.model.verdict.Failed?))
      && (error == Some(QuotaReached) <==>
            || (script.reserveSpend == Done && !SpendHeld(w, script, job, budgets))
            || (script.reserveSpend == Done && script.reserveOutput == Done && !called))
  {
  }

  /** A spend reservation is for the price of the tokens and 15%, rounded up. */
  lemma HeldPrice(job: Job, at: nat)
    ensures var price := 20 * job.inputTokens + 125 * job.maxOutputTokens;
      && 11_500 * price <= 10_000 * SpendHold(job, at).reserved < 11_500 * price + 10_000
  {
    var price := 20 * job.inputTokens + 125 * job.maxOutputTokens;
    MarginCoversExactly(price, SpendHold(job, at).reserved);
    if SpendHold(job, at).reserved > 0 {
      MarginCoversExactly(price, SpendHold(job, at).reserved - 1);
    }
    CeilDivideIsLeast(price * 11_500, 10_000, SpendHold(job, at).reserved);
  }

  class Gate {
    var now: nat
    const spend: Table<Club, SpendInfo>
    const output: Table<OutputScope, ()>

    constructor (spend: Table<Club, SpendInfo>, output: Table<OutputScope, ()>, now: nat)
      requires spend.ttl == output.ttl == RESERVATION_TTL_MS
      ensures this.spend == spend && this.output == output && this.now == now
    {
      this.spend, this.output, this.now := spend, output, now;
    }

    method Interference(gap: seq<EnvStep>, mySpend: Option<nat>, myOutput: Option<nat>)
      modifies this`now, spend, output
      ensures World(now, spend.rows, output.rows)
        == Interfere(World(old(now), old(spend.rows), old(output.rows)), gap, mySpend, myOutput)
    {
      var w := Interfere(World(now, spend.rows, output.rows), gap, mySpend, myOutput);
      now, spend.rows, output.rows := w.now, w.spend, w.output;
    }

    /** Release that swallows its own failure. */
    method SafeReleaseSpend(id: nat, fate: CallFate)
      modifies spend
      ensures spend.rows == if fate == FailedBefore then old(spend.rows) else ReleaseRow(old(spend.rows), id)
    {
      if fate != FailedBefore {
        spend.Release(id);
      }
    }

    method SafeFinalizeOutput(id: nat, actual: int, fate: CallFate) returns (failed: bool)
      modifies output
      ensures failed <==> fate != Done
      ensures output.rows ==
        if fate == FailedBefore then old(output.rows)
        else FinalizeRow(old(output.rows), id, AtLeastZero(actual), now)
    {
      if fate != FailedBefore {
        output.Finalize(id, AtLeastZero(actual), now);
      }
      failed := fate != Done;
    }

    /** Settles the spend reservation; a failure is only passed on for a billable result. */
    method SettleSpend(spendId: nat, script: Script) returns (failed: bool)
      requires spendId < |spend.rows|
      requires spend.rows[spendId].info.kind == ClubSpend.UsageKind.Gate
      requires spend.rows[spendId].info.model == GATE_MODEL
      modifies spend
      ensures failed <==> Judged(script.model) && script.settleSpend != Done
      ensures SameBut(old(spend.rows), spend.rows, Some(spendId))
      ensures spend.rows[spendId] == old(spend.rows[spendId]).(status := spend.rows[spendId].status)
      ensures if old(spend.rows[spendId].status) != Pending
        then spend.rows[spendId] == old(spend.rows[spendId])
        else SpendSettled(spend.rows[spendId].status, script, false)
    {
      if script.model.Returns? && Billable(script.model.verdict) {
        if script.settleSpend != FailedBefore {
          var mismatch := FinalizeClubSpendBudget(spend, spendId, VerdictUsage(script.model.verdict), now);
          assert mismatch.None?;
        }
        return script.settleSpend != Done;
      }
      SafeReleaseSpend(spendId, script.settleSpend);
      return false;
    }

    /** Settles the output reservation and tells the caller how the run ended. */
    method SettleOutput(outputId: nat, script: Script) returns (error: Option<GateError>)
      requires outputId < |output.rows| && output.rows[outputId].status == Pending
      requires script.OutputSettleReached()
      modifies output
      ensures SameBut(old(output.rows), output.rows, Some(outputId))
      ensures output.rows[outputId] == old(output.rows[outputId]).(status := output.rows[outputId].status)
      ensures OutputSettled(output.rows[outputId].status, script)
      ensures error == AfterModelError(script)
    {
      if script.model.Throws? {
        var _ := SafeFinalizeOutput(outputId, 0, script.settleOutput);
        return Some(Infrastructure);
      }
      var failed := SafeFinalizeOutput(outputId, Completions(script.model.verdict), script.settleOutput);
      error := if failed then Some(Infrastructure) else VerdictError(script.model.verdict);
    }

    /** Everything after the two reservations, once the model call has returned or thrown. */
    method SettleAfterModel(spendId: nat, outputId: nat, script: Script) returns (error: Option<GateError>)
      requires spendId < |spend.rows| && outputId < |output.rows|
      requires spend.rows[spendId].info.kind == ClubSpend.UsageKind.Gate
      requires spend.rows[spendId].info.model == GATE_MODEL
      requires output.rows[outputId].status == Pending
      modifies this`now, spend, output
      ensures spendId < |spend.rows| && outputId < |output.rows|
      ensures spend.rows[spendId] == old(spend.rows[spendId]).(status := spend.rows[spendId].status)
      ensures output.rows[outputId] == old(output.rows[outputId]).(status := output.rows[outputId].status)
      ensures if old(spend.rows[spendId].status) == Pending
        then SpendSettled(spend.rows[spendId].status, script,
                          script.OutputSettleReached()
                          && SweptDuring(script.betweenSettles, old(now), old(spend.rows[spendId].expiresAt)))
        else spend.rows[spendId] == old(spend.rows[spendId])
      ensures OutputSettled(output.rows[outputId].status, script)
      ensures error == AfterModelError(script)
      // Apart from these two rows the tables are what others make of them.
      ensures var w := World(old(now), old(spend.rows), old(output.rows));
        SameForOthers(
          if script.OutputSettleReached()
          then Interfere(w, script.betweenSettles, Some(spendId), Some(outputId)) else w,
          World(now, spend.rows, output.rows), Some(spendId), Some(outputId))
    {
      var failed := SettleSpend(spendId, script);
      if failed {
        return Some(Infrastructure);
      }
      ghost var w := World(now, spend.rows, output.rows);
      OthersUnaware(World(old(now), old(spend.rows), old(output.rows)), w, script.betweenSettles,
                    Some(spendId), Some(outputId));
      OwnRowsSurvive(w, script.betweenSettles, Some(spendId), Some(outputId));
      Interference(script.betweenSettles, Some(spendId), Some(outputId));
      error := SettleOutput(outputId, script);
    }

    /** Both reservations, and giving the first back when the second fails. */
    method ReserveBoth(job: Job, script: Script)
      returns (error: Option<GateError>, spendId: Option<nat>, outputId: Option<nat>)
      requires spend.ttl == output.ttl == RESERVATION_TTL_MS && job.maxOutputTokens > 0
      modifies this`now, spend, output
      ensures var w := World(old(now), old(spend.rows), old(output.rows));
        var budgets := Budgets(spend.limits, output.limits);
        && spendId == SpendId(w, script, job, budgets) && outputId == OutputId(w, script, job, budgets)
        && (error.None? <==> ModelCalled(w, script, job, budgets))
        && (error.Some? ==> error == RunError(w, script, job, budgets))
        && var v := if error.None? then WithOutputHold(w, script, job) else Bystanders(w, script, job, budgets);
        && now == v.now && output.rows == v.output
        && spend.rows == (if error.Some? && spendId.Some?
                             && script.reserveSpend == Done && script.settleSpend != FailedBefore
                          then ReleaseRow(v.spend, spendId.value) else v.spend)
    {
      ghost var w, budgets := World(now, spend.rows, output.rows), Budgets(spend.limits, output.limits);
      spendId, outputId := None, None;
      HeldPrice(job, 0);
      Interference(script.beforeSpend, None, None);
      assert World(now, spend.rows, output.rows) == AtSpend(w, script);
      if script.reserveSpend == FailedBefore {
        return Some(Infrastructure), None, None;
      }
      var spent := spend.Reserve(SpendRequest(job), now);
      if spent.Err? {
        return Some(if script.reserveSpend == Done then QuotaReached else Infrastructure), None, None;
      }
      spendId := Some(spent.value.id);
      if script.reserveSpend == FailedAfter {
        return Some(Infrastructure), spendId, None;
      }
      Interference(script.beforeOutput, spendId, None);
      assert World(now, spend.rows, output.rows) == AtOutput(w, script, job);
      var reserved: Result<Reservation, LedgerError> := Err(QuotaExceeded);
      if script.reserveOutput != FailedBefore {
        reserved := output.Reserve(OutputRequest(job), now);
      }
      if reserved.Ok? {
        outputId := Some(reserved.value.id);
      }
      if reserved.Err? || script.reserveOutput == FailedAfter {
        SafeReleaseSpend(spendId.value, script.settleSpend);
        error := Some(if script.reserveOutput == Done then QuotaReached else Infrastructure);
        return;
      }
      error := None;
    }

    /** The model call with both holds in place, and what follows it; `w` is the world the run began in. */
    method CallModel(ghost w: World, job: Job, script: Script, spendId: nat, outputId: nat)
      returns (error: Option<GateError>)
      requires World(now, spend.rows, output.rows) == WithOutputHold(w, script, job)
      requires spendId == |AtSpend(w, script).spend| && outputId == |AtOutput(w, script, job).output|
      modifies this`now, spend, output
      ensures spendId < |spend.rows| && outputId < |output.rows|
      ensures spend.rows[spendId]
        == SpendHold(job, script.SpendReservedAt(w.now)).(status := spend.rows[spendId].status)
      ensures output.rows[outputId]
        == OutputHold(job, script.OutputReservedAt(w.now)).(status := output.rows[outputId].status)
      ensures if script.HoldSwept(w.now) then spend.rows[spendId].status == Released
        else SpendSettled(spend.rows[spendId].status, script, script.UnsettledSwept(w.now, true))
      ensures OutputSettled(output.rows[outputId].status, script)
      ensures error == AfterModelError(script)
      ensures SameForOthers(AfterModel(w, script, job), World(now, spend.rows, output.rows),
                            Some(spendId), Some(outputId))
    {
      Interference(script.duringModel, Some(spendId), Some(outputId));
      HoldsAfterModel(w, script, job);
      error := SettleAfterModel(spendId, outputId, script);
    }

    /**
     `spendId` and `outputId` are the reservations this run made, including one whose
     acknowledgement was lost.
     */
    method RunLlmGateFor(job: Job, script: Script)
      returns (error: Option<GateError>, spendId: Option<nat>, outputId: Option<nat>)
      requires spend.ttl == output.ttl == RESERVATION_TTL_MS && job.maxOutputTokens > 0
      modifies this`now, spend, output
      // A reservation is made exactly when it is asked for and fits, under a new id, and with this run's request.
      ensures var w := World(old(now), old(spend.rows), old(output.rows));
        var budgets := Budgets(spend.limits, output.limits);
        && spendId == SpendId(w, script, job, budgets) && outputId == OutputId(w, script, job, budgets)
        && error == RunError(w, script, job, budgets)
        && (spendId.Some? ==>
              && spendId.value < |spend.rows|
              && spend.rows[spendId.value]
                   == SpendHold(job, script.SpendReservedAt(old(now))).(status := spend.rows[spendId.value].status))
        && (outputId.Some? ==>
              && outputId.value < |output.rows|
              && output.rows[outputId.value]
                   == OutputHold(job, script.OutputReservedAt(old(now))).(status := output.rows[outputId.value].status))
        // Apart from these two rows the tables are what others make of them.
        && SameForOthers(Bystanders(w, script, job, budgets), World(now, spend.rows, output.rows), spendId, outputId)
      // Each holds for ten minutes, the spend one the estimated price and 15%, rounded up.
      ensures spendId.Some? ==>
        var row, price := spend.rows[spendId.value], 20 * job.inputTokens + 125 * job.maxOutputTokens;
        && row.scope == job.club && row.expiresAt == row.createdAt + 600_000
        && 11_500 * price <= 10_000 * row.reserved < 11_500 * price + 10_000
      ensures outputId.Some? ==>
        var row := output.rows[outputId.value];
        && row.scope == (job.member, job.club) && row.expiresAt == row.createdAt + 600_000
        && row.reserved == job.maxOutputTokens
      // Which reservations were left pending.
      ensures spendId.Some? ==>
        (spend.rows[spendId.value].status == Pending <==>
           script.reserveSpend == FailedAfter
           || (script.settleSpend == FailedBefore
               && !script.UnsettledSwept(old(now), outputId.Some? && script.reserveOutput == Done)))
      ensures outputId.Some? ==>
        (output.rows[outputId.value].status == Pending <==>
           script.reserveOutput == FailedAfter || !script.OutputSettleReached()
           || script.settleOutput == FailedBefore)
      // The spend ledger is charged exactly for billable results whose hold was still there.
      ensures spendId.Some? ==>
        (spend.rows[spendId.value].status.Finalized? <==>
           && outputId.Some? && script.reserveOutput == Done && script.model.Returns?
           && (script.model.verdict.Passed? || script.model.verdict.RejectedIllegal?
               || script.model.verdict.RejectedQuality? || script.model.verdict.RejectedMalformed?)
           && script.settleSpend != FailedBefore && !script.HoldSwept(old(now))
           && (script.model.verdict.prompt > 0 || script.model.verdict.completion > 0))
      // A prompt token costs 20 micro-cents, a completion token 125.
      ensures spendId.Some? && spend.rows[spendId.value].status.Finalized? ==>
        && Judged(script.model)
        && spend.rows[spendId.value].status.actual
             == 20 * AtLeastZero(script.model.verdict.prompt) + 125 * AtLeastZero(script.model.verdict.completion)
      // The output ledger is charged the same completion tokens.
      ensures outputId.Some? ==>
        (output.rows[outputId.value].status.Finalized? <==>
           && script.reserveOutput == Done && Judged(script.model) && script.settleSpend == Done
           && script.settleOutput != FailedBefore && script.model.verdict.completion > 0)
      ensures outputId.Some? && output.rows[outputId.value].status.Finalized? ==>
        Judged(script.model) && output.rows[outputId.value].status.actual == script.model.verdict.completion
      ensures spendId.Some? && outputId.Some?
              && spend.rows[spendId.value].status.Finalized? && output.rows[outputId.value].status.Finalized? ==>
        spend.rows[spendId.value].status.actual - 20 * AtLeastZero(script.model.verdict.prompt)
          == 125 * output.rows[outputId.value].status.actual
      // A reservation left pending stops counting when its time is up.
      ensures spendId.Some? && spend.rows[spendId.value].status == Pending ==>
        forall at :: at >= script.SpendReservedAt(old(now)) + RESERVATION_TTL_MS ==>
          Charge(spend.rows[spendId.value], at) == 0
      ensures outputId.Some? && output.rows[outputId.value].status == Pending ==>
        forall at :: at >= script.OutputReservedAt(old(now)) + RESERVATION_TTL_MS ==>
          Charge(output.rows[outputId.value], at) == 0
    {
      ghost var w := World(old(now), old(spend.rows), old(output.rows));
      HoldsUntilModel(w, script, job);
      HeldPrice(job, script.SpendReservedAt(now));
      error, spendId, outputId := ReserveBoth(job, script);
      if error.Some? {
        return;
      }
      error := CallModel(w, job, script, spendId.value, outputId.value);
    }
  }

  /** The spend hold when the output reservation is asked for. */
  lemma HoldsUntilModel(w: World, script: Script, job: Job)
    ensures var id, v := |AtSpend(w, script).spend|, AtOutput(w, script, job);
      var hold := SpendHold(job, script.SpendReservedAt(w.now));
      && AtSpend(w, script).now == script.SpendReservedAt(w.now) && v.now == script.OutputReservedAt(w.now)
      && id < |v.spend|
      && v.spend[id] == (if SweptDuring(script.beforeOutput, script.SpendReservedAt(w.now), hold.expiresAt)
                         then hold.(status := Released) else hold)
  {
    OwnRowsSurvive(w, script.beforeSpend, None, None);
    OwnRowsSurvive(WithSpendHold(w, script, job), script.beforeOutput, Some(|AtSpend(w, script).spend|), None);
  }

  /** Both holds when the model has answered. */
  lemma HoldsAfterModel(w: World, script: Script, job: Job)
    ensures var id, outputId := |AtSpend(w, script).spend|, |AtOutput(w, script, job).output|;
      var v := Interfere(WithOutputHold(w, script, job), script.duringModel, Some(id), Some(outputId));
      var hold := SpendHold(job, script.SpendReservedAt(w.now));
      && id < |v.spend| && outputId < |v.output|
      && v.spend[id] == (if script.HoldSwept(w.now) then hold.(status := Released) else hold)
      && v.output[outputId] == OutputHold(job, script.OutputReservedAt(w.now))
      && v.now == script.AnsweredAt(w.now)
  {
    HoldsUntilModel(w, script, job);
    OwnRowsSurvive(WithOutputHold(w, script, job), script.duringModel,
                   Some(|AtSpend(w, script).spend|), Some(|AtOutput(w, script, job).output|));
  }
}
