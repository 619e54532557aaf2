/**
 Club AI spend: prices in micro-cents, the reservation margin, and the club ledger built on them.
 */
module ClubSpend {
  import opened Common
  import opened Ledger
  import opened LedgerRuns
  import LedgerTable

  const INPUT_MICRO_CENTS: nat := 20
  const OUTPUT_MICRO_CENTS: nat := 125
  const EMBEDDING_MICRO_CENTS: nat := 2
  const MARGIN_BPS: nat := 1500
  const RESERVATION_TTL_MS: nat := 10 * 60 * 1000
  const GATE_MODEL := "gpt-5.4-nano"

  type Club = nat

  datatype UsageKind = Gate | Embedding

  datatype SpendInfo = SpendInfo(kind: UsageKind, model: string, inputTokens: nat, outputTokens: nat)

  datatype TokenUsage = GateUsage(prompt: int, completion: int) | EmbeddingUsage(tokens: int)

  datatype SpendError = KindMismatch | UnknownModel

  // ---- Arithmetic -----------------------------------------------------------------------------

  function CeilDivide(value: nat, divisor: nat): nat
    requires divisor > 0
  {
    if value == 0 then 0 else (value - 1) / divisor + 1
  }

  function ApplyReservationMargin(microCents: nat): nat {
    CeilDivide(microCents * (10_000 + MARGIN_BPS), 10_000)
  }

  function PriceGate(inputTokens: nat, outputTokens: nat): nat {
    inputTokens * INPUT_MICRO_CENTS + outputTokens * OUTPUT_MICRO_CENTS
  }

  function PriceEmbedding(inputTokens: nat): nat {
    inputTokens * EMBEDDING_MICRO_CENTS
  }

  function Estimate(info: SpendInfo): nat {
    ApplyReservationMargin(
      if info.kind == Gate then PriceGate(info.inputTokens, info.outputTokens)
      else PriceEmbedding(info.inputTokens))
  }

  function ActualCost(usage: TokenUsage): nat {
    match usage
    case GateUsage(prompt, completion) => PriceGate(AtLeastZero(prompt), AtLeastZero(completion))
    case EmbeddingUsage(tokens) => PriceEmbedding(AtLeastZero(tokens))
  }

  /** `CeilDivide` is the least quotient that covers the value. */
  lemma CeilDivideIsLeast(value: nat, divisor: nat, k: nat)
    requires divisor > 0
    ensures CeilDivide(value, divisor) * divisor >= value
    ensures k * divisor >= value <==> k >= CeilDivide(value, divisor)
  {
    var q := CeilDivide(value, divisor);
    if value > 0 {
      var m := (value - 1) / divisor;
      assert value - 1 == divisor * m + (value - 1) % divisor;
      assert q * divisor == m * divisor + divisor;
      if k >= q {
        ProductsOrdered(q, k, divisor);
      } else {
        ProductsOrdered(k, m, divisor);
      }
    }
  }

  /** A reservation made for a price of `estimated` covers `actual` exactly in this range. */
  lemma MarginCoversExactly(estimated: nat, actual: nat)
    ensures actual <= ApplyReservationMargin(estimated)
      <==> 10_000 * actual < 11_500 * estimated + 10_000
  {
    var x := estimated * 11_500;
    if x > 0 {
      CeilDivideIsLeast(x, 10_000, actual);
      var q := CeilDivide(x, 10_000);
      assert (x - 1) / 10_000 * 10_000 <= x - 1;
      assert q * 10_000 < x + 10_000;
    }
  }

  /** At most 115% of the estimated input tokens, and no more output than was reserved. */
  predicate WithinEstimate(usage: TokenUsage, info: SpendInfo) {
    match usage
    case GateUsage(prompt, completion) =>
      info.kind == Gate && 100 * prompt <= 115 * info.inputTokens && completion <= info.outputTokens
    case EmbeddingUsage(tokens) =>
      info.kind == Embedding && 100 * tokens <= 115 * info.inputTokens
  }

  lemma MarginCoversUsage(usage: TokenUsage, info: SpendInfo)
    requires WithinEstimate(usage, info)
    ensures ActualCost(usage) <= Estimate(info)
  {
    match usage
    case GateUsage(_, _) =>
      MarginCoversExactly(PriceGate(info.inputTokens, info.outputTokens), ActualCost(usage));
    case EmbeddingUsage(_) =>
      MarginCoversExactly(PriceEmbedding(info.inputTokens), ActualCost(usage));
  }

  /** For embeddings the covered range is, in tokens, just over 115% of the estimate. */
  lemma EmbeddingMarginInTokens(tokens: nat, info: SpendInfo)
    requires info.kind == Embedding
    ensures ActualCost(EmbeddingUsage(tokens)) <= Estimate(info)
      <==> 20 * tokens < 23 * info.inputTokens + 10
  {
    MarginCoversExactly(PriceEmbedding(info.inputTokens), ActualCost(EmbeddingUsage(tokens)));
  }

  // ---- The club ledger --------------------------------------------------------------------------

  function EstimateRequest(club: Club, info: SpendInfo): Request<Club, SpendInfo> {
    Request(club, info, Estimate(info))
  }

  /** A settled or unknown row is left alone; usage of the wrong kind or model leaves the hold. */
  method FinalizeClubSpendBudget(table: LedgerTable.Table<Club, SpendInfo>, id: nat,
                                 usage: TokenUsage, now: nat)
    returns (error: Option<SpendError>)
    modifies table
    ensures !IsPending(old(table.rows), id) ==> error.None?
    ensures IsPending(old(table.rows), id) ==>
      var info := old(table.rows)[id].info;
      error == (if info.kind.Gate? <==> usage.EmbeddingUsage? then Some(KindMismatch)
                else if info.kind.Gate? && info.model != "gpt-5.4-nano" then Some(UnknownModel)
                else None)
    ensures error.Some? || !IsPending(old(table.rows), id) ==> table.rows == old(table.rows)
    // A prompt token costs 20 micro-cents, a completion token 125, a token to embed 2; what costs nothing is released.
    ensures error.None? && IsPending(old(table.rows), id) ==>
      var cost := match usage
        case GateUsage(prompt, completion) => 20 * AtLeastZero(prompt) + 125 * AtLeastZero(completion)
        case EmbeddingUsage(tokens) => 2 * AtLeastZero(tokens);
      table.rows == old(table.rows)
        [id := old(table.rows)[id].(status := if cost > 0 then Finalized(cost, now) else Released)]
    ensures old(table.Valid()) && old(table.Reached()).now <= now ==> table.Valid() && table.WithinBudget()
  {
    if table.Valid() {
      table.ValidIsWithinBudget();
    }
    if id >= |table.rows| || table.rows[id].status != Pending {
      return None;
    }
    var row := table.rows[id];
    if row.info.kind == Gate {
      if !usage.GateUsage? {
        return Some(KindMismatch);
      }
      if row.info.model != GATE_MODEL {
        return Some(UnknownModel);
      }
    } else if !usage.EmbeddingUsage? {
      return Some(KindMismatch);
    }
    table.Finalize(id, ActualCost(usage), now);
    return None;
  }

  // ---- End to end -------------------------------------------------------------------------------

  /** Reservers ask for their estimate; finalizes are on time and within the estimated usage. */
  ghost predicate SpendStep(s: State<Club, SpendInfo>, e: Event<Club, SpendInfo>) {
    match e
    case Begin(_, req) => req.amount == Estimate(req.info)
    case Finalize(id, actual) =>
      IsPending(s.rows, id) ==>
        && s.now < s.rows[id].expiresAt
        && exists usage :: WithinEstimate(usage, s.rows[id].info) && actual == ActualCost(usage)
    case _ => true
  }

  ghost predicate SpendRun(c: Config<Club>, es: seq<Event<Club, SpendInfo>>) {
    forall k :: 0 <= k < |es| ==> SpendStep(Run(c, es[..k]), es[k])
  }

  ghost predicate AllEstimated(s: State<Club, SpendInfo>) {
    && (forall i :: 0 <= i < |s.rows| ==> s.rows[i].reserved == Estimate(s.rows[i].info))
    && (forall t :: t in s.callers ==> s.callers[t].req.amount == Estimate(s.callers[t].req.info))
  }

  lemma EstimatedStep(c: Config<Club>, s: State<Club, SpendInfo>, e: Event<Club, SpendInfo>)
    requires AllEstimated(s) && SpendStep(s, e)
    ensures AllEstimated(Apply(c, s, e))
  {
    var s' := Apply(c, s, e);
    forall t | t in s'.callers ensures s'.callers[t].req.amount == Estimate(s'.callers[t].req.info) {
      assert t in s.callers || e.Begin?;
    }
    forall i | 0 <= i < |s'.rows| ensures s'.rows[i].reserved == Estimate(s'.rows[i].info) {
      if i < |s.rows| {
        assert s'.rows[i].reserved == s.rows[i].reserved && s'.rows[i].info == s.rows[i].info;
      }
    }
  }

  lemma SpendRunPrefix(c: Config<Club>, es: seq<Event<Club, SpendInfo>>, n: nat)
    requires n <= |es| && SpendRun(c, es)
    ensures SpendRun(c, es[..n])
  {
    forall k | 0 <= k < n ensures SpendStep(Run(c, es[..n][..k]), es[..n][k]) {
      assert es[..n][..k] == es[..k];
    }
  }

  lemma {:induction false} RunIsEstimated(c: Config<Club>, es: seq<Event<Club, SpendInfo>>)
    requires SpendRun(c, es)
    ensures AllEstimated(Run(c, es))
  {
    if es != [] {
      var n := |es| - 1;
      SpendRunPrefix(c, es, n);
      RunIsEstimated(c, es[..n]);
      EstimatedStep(c, Run(c, es[..n]), es[n]);
    }
  }

  lemma SpendRunIsDisciplined(c: Config<Club>, es: seq<Event<Club, SpendInfo>>)
    requires SpendRun(c, es)
    ensures Disciplined(c, es)
  {
    forall k | 0 <= k < |es| ensures Punctual(Run(c, es[..k]), es[k]) {
      SpendRunPrefix(c, es, k);
      RunIsEstimated(c, es[..k]);
      PunctualStep(Run(c, es[..k]), es[k]);
    }
  }

  lemma PunctualStep(s: State<Club, SpendInfo>, e: Event<Club, SpendInfo>)
    requires AllEstimated(s) && SpendStep(s, e)
    ensures Punctual(s, e)
  {
    if e.Finalize? && IsPending(s.rows, e.id) {
      var usage :| WithinEstimate(usage, s.rows[e.id].info) && e.actual == ActualCost(usage);
      MarginCoversUsage(usage, s.rows[e.id].info);
    }
  }

  /** In such a run no club ever goes over its budget in any window, whatever the interleaving. */
  lemma BudgetNeverExceeded(c: Config<Club>, es: seq<Event<Club, SpendInfo>>, club: Club, w: Window)
    requires SpendRun(c, es)
    ensures var s := Run(c, es); Usage(s.rows, Query(club, w, s.now)) <= c.limits.Max(w)
  {
    SpendRunIsDisciplined(c, es);
    NeverOverMax(c, es, club, w);
  }
}
