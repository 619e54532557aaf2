/**
 Results about whole ledger runs that build on spend safety: when no window ever exceeds its
 maximum, what one finalize adds, and when the sweeper is invisible.
 */
module LedgerRuns {
  import opened Ledger

  lemma RunStep<S, I>(c: Config<S>, es: seq<Event<S, I>>, e: Event<S, I>)
    ensures Run(c, es + [e]) == Apply(c, Run(c, es), e)
  {
    assert (es + [e])[..|es|] == es;
  }

  // ---- One finalize ---------------------------------------------------------------------------

  lemma {:induction false} SumUpdate(xs: seq<nat>, k: nat, v: nat)
    requires k < |xs|
    ensures Sum(xs[k := v]) + xs[k] == Sum(xs) + v
  {
    var n := |xs| - 1;
    if k < n {
      SumUpdate(xs[..n], k, v);
      assert xs[k := v][..n] == xs[..n][k := v];
    } else {
      assert xs[k := v][..n] == xs[..n];
    }
  }

  lemma FinalizeUsage<S, I>(rows: seq<Row<S, I>>, id: nat, actual: nat, q: Query<S>)
    requires IsPending(rows, id)
    ensures Usage(FinalizeRow(rows, id, actual, q.at), q)
        + (if Selects(q, rows[id]) then Charge(rows[id], q.at) else 0)
      == Usage(rows, q) + (if Selects(q, rows[id]) then actual else 0)
  {
    var v := if Selects(q, rows[id]) then actual else 0;
    SumUpdate(Charges(rows, q), id, v);
    assert Charges(FinalizeRow(rows, id, actual, q.at), q) == Charges(rows, q)[id := v];
  }

  /** Finalizing a pending row replaces what it was charged by the actual cost, live or expired. */
  lemma FinalizeDelta<S, I>(rows: seq<Row<S, I>>, id: nat, actual: nat, now: nat, w: Window)
    requires IsPending(rows, id)
    ensures var q := Query(rows[id].scope, w, now);
      Usage(FinalizeRow(rows, id, actual, now), q)
        + (if Selects(q, rows[id]) && now < rows[id].expiresAt then rows[id].reserved else 0)
      == Usage(rows, q) + (if Selects(q, rows[id]) then actual else 0)
  {
    FinalizeUsage(rows, id, actual, Query(rows[id].scope, w, now));
  }

  /** The excess of a finalized row is the part of its cost that its hold, if it still lasted, did not cover. */
  lemma ExcessIsUncovered<S, I>(row: Row<S, I>, actual: nat, now: nat)
    ensures var covered := if now < row.expiresAt then row.reserved else 0;
      Excess(row.(status := Finalized(actual, now))) == if actual > covered then actual - covered else 0
  {
  }

  /** Settling is final: a second finalize or release, or a sweep, changes nothing about the row. */
  lemma SettledStays<S, I>(c: Config<S>, s: State<S, I>, e: Event<S, I>, id: nat)
    requires id < |s.rows| && s.rows[id].status != Pending
    ensures id < |Apply(c, s, e).rows| && Apply(c, s, e).rows[id] == s.rows[id]
  {
  }

  // ---- Runs that stay within their reservations ------------------------------------------------

  predicate Punctual<S, I>(s: State<S, I>, e: Event<S, I>) {
    e.Finalize? && IsPending(s.rows, e.id) ==>
      s.now < s.rows[e.id].expiresAt && e.actual <= s.rows[e.id].reserved
  }

  ghost predicate Disciplined<S, I>(c: Config<S>, es: seq<Event<S, I>>) {
    forall k :: 0 <= k < |es| ==> Punctual(Run(c, es[..k]), es[k])
  }

  predicate NoExcess<S, I>(rows: seq<Row<S, I>>) {
    forall i :: 0 <= i < |rows| ==> Excess(rows[i]) == 0
  }

  lemma PunctualStepAddsNoExcess<S, I>(c: Config<S>, s: State<S, I>, e: Event<S, I>)
    requires Punctual(s, e) && NoExcess(s.rows)
    ensures NoExcess(Apply(c, s, e).rows)
  {
  }

  lemma DisciplinedPrefix<S, I>(c: Config<S>, es: seq<Event<S, I>>)
    requires es != [] && Disciplined(c, es)
    ensures Disciplined(c, es[..|es| - 1]) && Punctual(Run(c, es[..|es| - 1]), es[|es| - 1])
  {
    var front := es[..|es| - 1];
    forall k | 0 <= k < |front| ensures Punctual(Run(c, front[..k]), front[k]) {
      assert front[..k] == es[..k];
    }
  }

  lemma {:induction false} DisciplinedRunHasNoExcess<S, I>(c: Config<S>, es: seq<Event<S, I>>)
    requires Disciplined(c, es)
    ensures NoExcess(Run(c, es).rows)
  {
    if es != [] {
      var front := es[..|es| - 1];
      DisciplinedPrefix(c, es);
      DisciplinedRunHasNoExcess(c, front);
      PunctualStepAddsNoExcess(c, Run(c, front), es[|es| - 1]);
    }
  }

  /** If every finalize is on time and within its reservation, no window ever exceeds its maximum. */
  lemma NeverOverMax<S(!new), I>(c: Config<S>, es: seq<Event<S, I>>, scope: S, w: Window)
    requires Disciplined(c, es)
    ensures var s := Run(c, es); Usage(s.rows, Query(scope, w, s.now)) <= c.limits.Max(w)
  {
    var s := Run(c, es);
    var q := Query(scope, w, s.now);
    SpendSafety(c, es, scope, w);
    DisciplinedRunHasNoExcess(c, es);
    SumZero(Excesses(s.rows, q));
  }

  // ---- A reservation that nothing interrupts ----------------------------------------------------

  function ReserveEvents<S, I>(t: Caller, req: Request<S, I>): seq<Event<S, I>> {
    [Begin(t, req)] + [Acquire(t)] + [Count(t)] + [Insert(t)]
  }

  /** The state after caller `t` reserves from `s` in one go. */
  function Reserved<S(==), I>(c: Config<S>, s: State<S, I>, t: Caller, req: Request<S, I>): State<S, I> {
    var ok := Fits(s.rows, c.limits, req.scope, s.now, req.amount);
    s.(rows := if ok && req.amount > 0 then s.rows + [NewRow(req, s.now, s.now, c.ttl)] else s.rows,
       decisions := s.decisions + [Decision(t, ok)])
  }

  lemma BeginAndAcquire<S, I>(c: Config<S>, s: State<S, I>, t: Caller, req: Request<S, I>)
    requires t !in s.callers && c.lockKey(req.scope) !in s.locks
    ensures Apply(c, Apply(c, s, Begin(t, req)), Acquire(t))
         == s.(callers := s.callers[t := Locked(req, s.now)], locks := s.locks[c.lockKey(req.scope) := t])
  {
    assert Apply(c, s, Begin(t, req)) == s.(callers := s.callers[t := Began(req, s.now)]);
    assert s.callers[t := Began(req, s.now)][t := Locked(req, s.now)] == s.callers[t := Locked(req, s.now)];
  }

  lemma CountAndInsert<S, I>(c: Config<S>, s: State<S, I>, t: Caller, req: Request<S, I>)
    requires t !in s.callers && c.lockKey(req.scope) !in s.locks
    ensures var held := s.(callers := s.callers[t := Locked(req, s.now)],
                           locks := s.locks[c.lockKey(req.scope) := t]);
      Apply(c, Apply(c, held, Count(t)), Insert(t)) == Reserved(c, s, t, req)
  {
    var k := c.lockKey(req.scope);
    var held := s.(callers := s.callers[t := Locked(req, s.now)], locks := s.locks[k := t]);
    assert s.callers[t := Locked(req, s.now)] - {t} == s.callers;
    assert s.callers[t := Locked(req, s.now)][t := Cleared(req, s.now)] - {t} == s.callers;
    assert s.locks[k := t] - {k} == s.locks;
    assert held.callers[t] == Locked(req, s.now);
    if Fits(s.rows, c.limits, req.scope, s.now, req.amount) {
      var cleared := Apply(c, held, Count(t));
      assert cleared.callers[t] == Cleared(req, s.now);
    } else {
      var rejected := Apply(c, held, Count(t));
      assert t !in rejected.callers;
    }
  }

  /** Run without interruption, the four steps are the check and the insert, and free the lock. */
  lemma UninterruptedReserve<S, I>(c: Config<S>, es: seq<Event<S, I>>, t: Caller, req: Request<S, I>)
    requires t !in Run(c, es).callers && c.lockKey(req.scope) !in Run(c, es).locks
    ensures Run(c, es + ReserveEvents(t, req)) == Reserved(c, Run(c, es), t, req)
  {
    var s := Run(c, es);
    var es1 := es + [Begin(t, req)];
    var es2 := es1 + [Acquire(t)];
    RunStep(c, es, Begin(t, req));
    RunStep(c, es1, Acquire(t));
    BeginAndAcquire(c, s, t, req);
    CountAndInsert(c, s, t, req);
    assert es + ReserveEvents(t, req) == es2 + [Count(t)] + [Insert(t)];
    FinishReserve(c, es2, t, Reserved(c, s, t, req));
  }

  lemma FinishReserve<S, I>(c: Config<S>, es: seq<Event<S, I>>, t: Caller, r: State<S, I>)
    requires Apply(c, Apply(c, Run(c, es), Count(t)), Insert(t)) == r
    ensures Run(c, es + [Count(t)] + [Insert(t)]) == r
  {
    RunStep(c, es, Count(t));
    RunStep(c, es + [Count(t)], Insert(t));
  }

  // ---- Two concrete runs ------------------------------------------------------------------------

  function SmallBudget(): Config<int> {
    Config(Limits(10, 20, 30), 5, (scope: int) => 0)
  }

  lemma UsageOfOne(row: Row<int, int>, q: Query<int>)
    ensures Usage([row], q) == if Selects(q, row) then Charge(row, q.at) else 0
  {
    var v := if Selects(q, row) then Charge(row, q.at) else 0;
    assert Charges([row], q) == [v] && [v][..0] == [];
    assert Sum([v][..0]) == 0;
  }

  lemma UsageOfTwo(a: Row<int, int>, b: Row<int, int>, q: Query<int>)
    ensures Usage([a, b], q) == Usage([a], q) + Usage([b], q)
  {
    assert Charges([a, b], q)[..1] == Charges([a], q);
    UsageOfOne(b, q);
  }

  lemma FirstReservation() returns (es: seq<Event<int, int>>)
    ensures Run(SmallBudget(), es)
         == State(0, [Row(0, 0, 10, 0, 5, Pending)], map[], map[], [Decision(1, true)])
  {
    var c := SmallBudget();
    FitsEmpty(c.limits, 0, 10);
    es := [] + ReserveEvents(1, Request(0, 0, 10));
    UninterruptedReserve(c, [], 1, Request(0, 0, 10));
  }

  /**
   The excess term is needed: a row finalized after its hold expired can take a window over its
   maximum, although every reservation was checked.
   */
  lemma LateFinalizeCanOverrun() returns (es: seq<Event<int, int>>)
    ensures var s := Run(SmallBudget(), es);
      Usage(s.rows, Query(0, Day, s.now)) > SmallBudget().limits.Max(Day)
  {
    var c := SmallBudget();
    var first := FirstReservation();
    var row := Row(0, 0, 10, 0, 5, Pending);
    var second := Row(0, 0, 10, 5, 10, Pending);
    es := first + [Tick(5)];
    RunStep(c, first, Tick(5));
    assert Fits([row], c.limits, 0, 5, 10) by {
      forall w: Window ensures Usage([row], Query(0, w, 5)) == 0 {
        UsageOfOne(row, Query(0, w, 5));
      }
    }
    UninterruptedReserve(c, es, 2, Request(0, 0, 10));
    es := es + ReserveEvents(2, Request(0, 0, 10));
    assert Run(c, es).rows == [row, second] && Run(c, es).now == 5;
    RunStep(c, es, Finalize(0, 10));
    es := es + [Finalize(0, 10)];
    var late := row.(status := Finalized(10, 5));
    assert Run(c, es).rows == [late, second];
    UsageOfOne(late, Query(0, Day, 5));
    UsageOfOne(second, Query(0, Day, 5));
    UsageOfTwo(late, second, Query(0, Day, 5));
  }

  lemma FitsEmpty(limits: Limits, scope: int, amount: nat)
    requires forall w: Window :: amount <= limits.Max(w)
    ensures Fits<int, int>([], limits, scope, 0, amount)
  {
    forall w: Window ensures Usage<int, int>([], Query(scope, w, 0)) == 0 {
      assert Charges<int, int>([], Query(scope, w, 0)) == [];
    }
  }

  // ---- The sweeper ------------------------------------------------------------------------------

  function Erase<S, I>(es: seq<Event<S, I>>): seq<Event<S, I>> {
    if es == [] then []
    else Erase(es[..|es| - 1]) + (if es[|es| - 1].Sweep? then [] else [es[|es| - 1]])
  }

  /** A hold that ended between the start of a counting transaction and the present. */
  predicate Straddles<S(==), I>(row: Row<S, I>, q: Query<S>, now: nat) {
    Selects(q, row) && row.status == Pending && q.at < row.expiresAt <= now
  }

  /**
   A sweep at `now` is seen by a count whose transaction began at `q.at` exactly when some selected
   hold ended in between; it can only lower the count.
   */
  lemma SweepSeenIffStraddled<S, I>(rows: seq<Row<S, I>>, q: Query<S>, now: nat)
    requires q.at <= now && forall i :: 0 <= i < |rows| ==> rows[i].reserved > 0
    ensures Usage(SweepRows(rows, now), q) <= Usage(rows, q)
    ensures Usage(SweepRows(rows, now), q) == Usage(rows, q)
      <==> forall i :: 0 <= i < |rows| ==> !Straddles(rows[i], q, now)
  {
    var xs, ys := Charges(SweepRows(rows, now), q), Charges(rows, q);
    SumMonotone(xs, ys);
    if i :| 0 <= i < |rows| && Straddles(rows[i], q, now) {
      SumStrict(xs, ys, i);
    } else {
      assert xs == ys;
    }
  }

  /** No finalize after expiry, and no count whose transaction waited across the end of a hold. */
  ghost predicate CalmStep<S, I>(s: State<S, I>, e: Event<S, I>) {
    match e
    case Finalize(id, _) => IsPending(s.rows, id) ==> s.now < s.rows[id].expiresAt
    case Count(t) =>
      t in s.callers ==>
        forall i, w: Window :: 0 <= i < |s.rows| ==>
          !Straddles(s.rows[i], Query(s.callers[t].req.scope, w, s.callers[t].start), s.now)
    case _ => true
  }

  ghost predicate Calm<S, I>(c: Config<S>, es: seq<Event<S, I>>) {
    forall k :: 0 <= k < |es| ==> CalmStep(Run(c, es[..k]), es[k])
  }

  lemma CalmPrefix<S, I>(c: Config<S>, es: seq<Event<S, I>>, e: Event<S, I>)
    requires Calm(c, es + [e])
    ensures Calm(c, es) && CalmStep(Run(c, es), e)
  {
    forall k | 0 <= k < |es| ensures CalmStep(Run(c, es[..k]), es[k]) {
      assert (es + [e])[..k] == es[..k] && (es + [e])[k] == es[k];
    }
    assert (es + [e])[..|es|] == es && (es + [e])[|es|] == e;
  }

  /** `swept` is `plain` with some ended holds already released. */
  ghost predicate SweptOf<S, I>(swept: seq<Row<S, I>>, plain: seq<Row<S, I>>, now: nat) {
    |swept| == |plain| && forall i :: 0 <= i < |plain| ==>
      swept[i] == plain[i] || swept[i] == SweptRow(plain[i], now)
  }

  ghost predicate Matches<S, I>(s: State<S, I>, plain: State<S, I>) {
    s == plain.(rows := s.rows) && SweptOf(s.rows, plain.rows, plain.now)
  }

  lemma SweptUsage<S, I>(swept: seq<Row<S, I>>, plain: seq<Row<S, I>>, q: Query<S>, now: nat)
    requires SweptOf(swept, plain, now)
    requires forall i :: 0 <= i < |plain| ==> !Straddles(plain[i], q, now)
    ensures Usage(swept, q) == Usage(plain, q)
  {
    assert Charges(swept, q) == Charges(plain, q);
  }

  lemma MatchStep<S, I>(c: Config<S>, s: State<S, I>, plain: State<S, I>, e: Event<S, I>)
    requires Matches(s, plain) && CalmStep(plain, e) && !e.Sweep?
    ensures Matches(Apply(c, s, e), Apply(c, plain, e))
  {
    match e
    case Count(t) =>
      if t in s.callers {
        var p := s.callers[t];
        forall w: Window
          ensures Usage(s.rows, Query(p.req.scope, w, p.start))
               == Usage(plain.rows, Query(p.req.scope, w, p.start))
        {
          SweptUsage(s.rows, plain.rows, Query(p.req.scope, w, p.start), plain.now);
        }
      }
    case _ =>
  }

  lemma {:induction false} ErasedRunMatches<S, I>(c: Config<S>, es: seq<Event<S, I>>)
    requires Calm(c, Erase(es))
    ensures Matches(Run(c, es), Run(c, Erase(es)))
  {
    if es != [] {
      var n := |es| - 1;
      if es[n].Sweep? {
        assert Erase(es) == Erase(es[..n]);
        ErasedRunMatches(c, es[..n]);
      } else {
        CalmPrefix(c, Erase(es[..n]), es[n]);
        ErasedRunMatches(c, es[..n]);
        RunStep(c, Erase(es[..n]), es[n]);
        MatchStep(c, Run(c, es[..n]), Run(c, Erase(es[..n])), es[n]);
      }
    }
  }

  /**
   Two runs that differ only in where sweeps happen make the same accept and reject decisions, and
   report the same usage for every scope and window at every time from then on.
   */
  lemma SweepsAreInvisible<S, I>(c: Config<S>, es: seq<Event<S, I>>, es': seq<Event<S, I>>,
                                 scope: S, w: Window, at: nat)
    requires Erase(es) == Erase(es') && Calm(c, Erase(es))
    requires Run(c, es).now <= at
    ensures Run(c, es).decisions == Run(c, es').decisions
    ensures Usage(Run(c, es).rows, Query(scope, w, at)) == Usage(Run(c, es').rows, Query(scope, w, at))
  {
    ErasedRunMatches(c, es);
    ErasedRunMatches(c, es');
    var plain := Run(c, Erase(es));
    SweptUsage(Run(c, es).rows, plain.rows, Query(scope, w, at), plain.now);
    SweptUsage(Run(c, es').rows, plain.rows, Query(scope, w, at), plain.now);
  }

  lemma {:induction false} RowsArePositive<S, I>(c: Config<S>, es: seq<Event<S, I>>)
    ensures forall i :: 0 <= i < |Run(c, es).rows| ==> Run(c, es).rows[i].reserved > 0
  {
    if es != [] {
      RowsArePositive(c, es[..|es| - 1]);
      PositiveStep(c, Run(c, es[..|es| - 1]), es[|es| - 1]);
    }
  }

  lemma PositiveStep<S, I>(c: Config<S>, s: State<S, I>, e: Event<S, I>)
    requires forall i :: 0 <= i < |s.rows| ==> s.rows[i].reserved > 0
    ensures forall i :: 0 <= i < |Apply(c, s, e).rows| ==> Apply(c, s, e).rows[i].reserved > 0
  {
  }

  /**
   In every run, a sweep put right before a waiting reserver's count lowers what it counts in a window exactly
   if a hold of its scope in that window straddles, and otherwise leaves it alone.
   */
  lemma SweepBeforeCount<S(!new), I>(c: Config<S>, es: seq<Event<S, I>>, t: Caller, w: Window)
    requires var s := Run(c, es); t in s.callers && s.callers[t].Locked?
    ensures var s, swept := Run(c, es), Run(c, es + [Sweep]);
      var q := Query(s.callers[t].req.scope, w, s.callers[t].start);
      && swept.callers == s.callers && swept.now == s.now
      && Usage(swept.rows, q) <= Usage(s.rows, q)
      && (Usage(swept.rows, q) < Usage(s.rows, q) <==> exists i :: 0 <= i < |s.rows| && Straddles(s.rows[i], q, s.now))
  {
    var s := Run(c, es);
    RunStep(c, es, Sweep);
    RowsArePositive(c, es);
    RunKeepsInv(c, es);
    SweepSeenIffStraddled(s.rows, Query(s.callers[t].req.scope, w, s.callers[t].start), s.now);
  }

  /** A second reserver that began before the first hold ended and now has the lock. */
  lemma WaitingReserver() returns (es: seq<Event<int, int>>)
    ensures Run(SmallBudget(), es)
         == State(6, [Row(0, 0, 10, 0, 5, Pending)], map[2 := Locked(Request(0, 0, 10), 3)],
                  map[0 := 2], [Decision(1, true)])
  {
    var c := SmallBudget();
    var first := FirstReservation();
    var req := Request(0, 0, 10);
    RunStep(c, first, Tick(3));
    RunStep(c, first + [Tick(3)], Begin(2, req));
    assert Run(c, first + [Tick(3)] + [Begin(2, req)]).callers == map[2 := Began(req, 3)];
    RunStep(c, first + [Tick(3)] + [Begin(2, req)], Tick(3));
    es := first + [Tick(3)] + [Begin(2, req)] + [Tick(3)];
    RunStep(c, es, Acquire(2));
    es := es + [Acquire(2)];
    assert Run(c, es).callers == map[2 := Locked(req, 3)];
  }

  /**
   Without the second half of calmness a sweep does change a decision: the reserver began before
   the hold ended and counts after it, so only the sweep makes room for it.
   */
  lemma SweepCanFlipDecision() returns (es: seq<Event<int, int>>, es': seq<Event<int, int>>)
    ensures Erase(es) == Erase(es')
    ensures Run(SmallBudget(), es).decisions == [Decision(1, true), Decision(2, false)]
    ensures Run(SmallBudget(), es').decisions == [Decision(1, true), Decision(2, true)]
  {
    var c := SmallBudget();
    var wait := WaitingReserver();
    var row := Row(0, 0, 10, 0, 5, Pending);
    es := wait + [Count(2)];
    RunStep(c, wait, Count(2));
    UsageOfOne(row, Query(0, Day, 3));
    assert !Fits([row], c.limits, 0, 3, 10) by {
      assert Usage([row], Query(0, Day, 3)) + 10 > c.limits.Max(Day);
    }
    es' := wait + [Sweep] + [Count(2)];
    RunStep(c, wait, Sweep);
    RunStep(c, wait + [Sweep], Count(2));
    var released := row.(status := Released);
    assert Run(c, wait + [Sweep]).rows == [released];
    forall w: Window ensures Usage([released], Query(0, w, 3)) == 0 {
      UsageOfOne(released, Query(0, w, 3));
    }
    EraseAppend(wait, Count(2));
    EraseAppend(wait, Sweep);
    EraseAppend(wait + [Sweep], Count(2));
  }

  lemma EraseAppend<S, I>(es: seq<Event<S, I>>, e: Event<S, I>)
    ensures Erase(es + [e]) == Erase(es) + (if e.Sweep? then [] else [e])
  {
    assert (es + [e])[..|es|] == es;
  }
}
