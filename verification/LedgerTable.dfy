/** The reservation table as the service uses it: rows inserted and updated in place. */
module LedgerTable {
  import opened Common
  import opened Ledger
  import opened LedgerRuns

  datatype LedgerError = QuotaExceeded | CheckViolation

  datatype Reservation = Reservation(id: nat, used: Limits)

  /** No transaction is open. */
  predicate Idle<S, I>(s: State<S, I>) {
    s.callers == map[] && s.locks == map[]
  }

  lemma RunTicks<S, I>(c: Config<S>, es: seq<Event<S, I>>, now: nat)
    requires Run(c, es).now <= now
    ensures Run(c, es + [Tick(now - Run(c, es).now)]) == Run(c, es).(now := now)
  {
    RunStep(c, es, Tick(now - Run(c, es).now));
  }

  /** What the table's one-call reserve at `now` leaves of `s`. */
  ghost predicate ReservedAs<S(!new), I>(c: Config<S>, s: State<S, I>, now: nat, req: Request<S, I>, s': State<S, I>) {
    && Idle(s') && s'.now == now
    && s'.rows == (if Fits(s.rows, c.limits, req.scope, now, req.amount) && req.amount > 0
                   then s.rows + [NewRow(req, now, now, c.ttl)] else s.rows)
    && s'.decisions == s.decisions + [Decision(0, Fits(s.rows, c.limits, req.scope, now, req.amount))]
  }

  lemma ReservesFromIdle<S(!new), I>(c: Config<S>, es: seq<Event<S, I>>, req: Request<S, I>)
    requires Idle(Run(c, es))
    ensures ReservedAs(c, Run(c, es), Run(c, es).now, req, Run(c, es + ReserveEvents(0, req)))
  {
    UninterruptedReserve(c, es, 0, req);
  }

  /** From an idle state an uninterrupted reserver leaves what the table's one-call reserve leaves, and idles. */
  lemma TableReserveIsRun<S(!new), I>(c: Config<S>, es: seq<Event<S, I>>, now: nat, req: Request<S, I>)
    requires Idle(Run(c, es)) && Run(c, es).now <= now
    ensures ReservedAs(c, Run(c, es), now, req, Run(c, es + [Tick(now - Run(c, es).now)] + ReserveEvents(0, req)))
  {
    var ticked := es + [Tick(now - Run(c, es).now)];
    RunTicks(c, es, now);
    ReservesFromIdle(c, ticked, req);
    ReservedLater(c, Run(c, es), Run(c, ticked), now, req, Run(c, ticked + ReserveEvents(0, req)));
  }

  lemma ReservedLater<S(!new), I>(c: Config<S>, s: State<S, I>, ticked: State<S, I>, now: nat, req: Request<S, I>,
                                  s': State<S, I>)
    requires ticked == s.(now := now) && ReservedAs(c, ticked, ticked.now, req, s')
    ensures ReservedAs(c, s, now, req, s')
  {
  }

  /** The same for a step that opens no transaction. */
  lemma TableStepIsRun<S, I>(c: Config<S>, es: seq<Event<S, I>>, now: nat, e: Event<S, I>)
    requires Idle(Run(c, es)) && Run(c, es).now <= now
    requires e.Finalize? || e.Release? || e.Sweep?
    ensures var s := Run(c, es);
      var s' := Run(c, es + [Tick(now - s.now)] + [e]);
      && Idle(s') && s' == Apply(c, s.(now := now), e)
  {
    RunTicks(c, es, now);
    RunStep(c, es + [Tick(now - Run(c, es).now)], e);
    SettlesIdle(c, Run(c, es).(now := now), e);
  }

  lemma SettlesIdle<S, I>(c: Config<S>, s: State<S, I>, e: Event<S, I>)
    requires Idle(s) && (e.Finalize? || e.Release? || e.Sweep?)
    ensures Idle(Apply(c, s, e)) && Apply(c, s, e).now == s.now
  {
  }

  /** A table, and in `trace` a run of the ledger that its rows come from. */
  class Table<S(==, !new), I> {
    var rows: seq<Row<S, I>>
    const limits: Limits
    const ttl: nat
    ghost const lockKey: S -> LockId
    ghost var trace: seq<Event<S, I>>

    ghost function Reached(): State<S, I>
      reads this
    {
      Run(Config(limits, ttl, lockKey), trace)
    }

    ghost predicate Valid()
      reads this
    {
      Reached().rows == rows && Idle(Reached())
    }

    /** Every window of every scope holds at most its maximum plus the excess of the rows in it. */
    ghost predicate WithinBudget()
      reads this
    {
      forall scope: S, w: Window {:trigger Query(scope, w, Reached().now)} ::
        Usage(rows, Query(scope, w, Reached().now)) <= limits.Max(w) + TotalExcess(rows, Query(scope, w, Reached().now))
    }

    lemma ValidIsWithinBudget()
      requires Valid()
      ensures WithinBudget()
    {
      forall scope: S, w: Window {:trigger Query(scope, w, Reached().now)}
        ensures var query := Query(scope, w, Reached().now);
          Usage(rows, query) <= limits.Max(w) + TotalExcess(rows, query)
      {
        SpendSafety(Config(limits, ttl, lockKey), trace, scope, w);
      }
    }

    constructor (limits: Limits, ttl: nat, ghost lockKey: S -> LockId)
      ensures rows == [] && this.limits == limits && this.ttl == ttl
      ensures Valid() && WithinBudget() && Reached().now == 0
    {
      this.limits, this.ttl, this.lockKey := limits, ttl, lockKey;
      rows, trace := [], [];
      new;
      ValidIsWithinBudget();
    }

    /**
     A reservation goes through exactly when it fits every window, its id is new, and the usage it
     reports is the usage with the new row in it. It is a step of a run of the ledger.
     */
    method Reserve(req: Request<S, I>, now: nat) returns (r: Result<Reservation, LedgerError>)
      requires ttl > 0
      modifies this
      ensures r == Err(QuotaExceeded) <==> !Fits(old(rows), limits, req.scope, now, req.amount)
      ensures r.Ok? <==> Fits(old(rows), limits, req.scope, now, req.amount) && req.amount > 0
      ensures r.Ok? ==> r.value.id == |old(rows)|
      ensures rows == if r.Ok? then old(rows) + [NewRow(req, now, now, ttl)] else old(rows)
      ensures r.Ok? ==> forall w: Window ::
        r.value.used.Max(w) == Usage(rows, Query(req.scope, w, now)) <= limits.Max(w)
      ensures old(Valid()) && old(Reached()).now <= now ==>
        && Valid() && WithinBudget() && Reached().now == now
        && trace == old(trace) + [Tick(now - old(Reached()).now)] + ReserveEvents(0, req)
        && Reached().decisions == old(Reached()).decisions + [Decision(0, r != Err(QuotaExceeded))]
    {
      ghost var before := Reached();
      var day := Usage(rows, Query(req.scope, Day, now));
      var week := Usage(rows, Query(req.scope, Week, now));
      var month := Usage(rows, Query(req.scope, Month, now));
      r := CheckAndInsert(req, now, day, week, month);
      ghost var c := Config(limits, ttl, lockKey);
      if Idle(before) && before.now <= now {
        TableReserveIsRun(c, trace, now, req);
        trace := trace + [Tick(now - before.now)] + ReserveEvents(0, req);
        if Valid() {
          ValidIsWithinBudget();
        }
      }
    }

    method CheckAndInsert(req: Request<S, I>, now: nat, day: nat, week: nat, month: nat)
      returns (r: Result<Reservation, LedgerError>)
      requires ttl > 0
      requires day == Usage(rows, Query(req.scope, Day, now)) && week == Usage(rows, Query(req.scope, Week, now))
      requires month == Usage(rows, Query(req.scope, Month, now))
      modifies this`rows
      ensures r == Err(QuotaExceeded) <==> !Fits(old(rows), limits, req.scope, now, req.amount)
      ensures r.Ok? <==> Fits(old(rows), limits, req.scope, now, req.amount) && req.amount > 0
      ensures r.Ok? ==> r.value.id == |old(rows)|
      ensures rows == if r.Ok? then old(rows) + [NewRow(req, now, now, ttl)] else old(rows)
      ensures r.Ok? ==> forall w: Window ::
        r.value.used.Max(w) == Usage(rows, Query(req.scope, w, now)) <= limits.Max(w)
    {
      if day + req.amount > limits.day || week + req.amount > limits.week
         || month + req.amount > limits.month {
        assert !forall w: Window :: Usage(rows, Query(req.scope, w, now)) + req.amount <= limits.Max(w) by {
          assert Usage(rows, Query(req.scope, Day, now)) + req.amount > limits.Max(Day)
              || Usage(rows, Query(req.scope, Week, now)) + req.amount > limits.Max(Week)
              || Usage(rows, Query(req.scope, Month, now)) + req.amount > limits.Max(Month);
        }
        return Err(QuotaExceeded);
      }
      assert Fits(rows, limits, req.scope, now, req.amount);
      if req.amount == 0 {
        return Err(CheckViolation);
      }
      var row := NewRow(req, now, now, ttl);
      forall w: Window
        ensures Usage(rows + [row], Query(req.scope, w, now)) == Usage(rows, Query(req.scope, w, now)) + req.amount
      {
        UsageAppend(rows, row, Query(req.scope, w, now));
      }
      var id := |rows|;
      rows := rows + [row];
      r := Ok(Reservation(id, Limits(day + req.amount, week + req.amount, month + req.amount)));
    }

    /** Finalize, release and sweep are steps of the same run, and keep it within budget plus excess. */
    method Finalize(id: nat, actual: nat, now: nat)
      modifies this
      ensures rows == FinalizeRow(old(rows), id, actual, now)
      ensures rows ==
        if id >= |old(rows)| || old(rows)[id].status != Pending then old(rows)
        else old(rows)[id := old(rows)[id].(status := if actual > 0 then Finalized(actual, now) else Released)]
      ensures old(Valid()) && old(Reached()).now <= now ==>
        && Valid() && WithinBudget()
        && Reached() == Apply(Config(limits, ttl, lockKey), old(Reached()).(now := now), Event.Finalize(id, actual))
    {
      ghost var before := Reached();
      if id < |rows| && rows[id].status == Pending {
        if actual > 0 {
          rows := rows[id := rows[id].(status := Finalized(actual, now))];
        } else {
          rows := rows[id := rows[id].(status := Released)];
        }
      }
      Record(before, now, Event.Finalize(id, actual));
    }

    method Release(id: nat)
      modifies this
      ensures rows == ReleaseRow(old(rows), id)
      ensures rows ==
        if id >= |old(rows)| || old(rows)[id].status != Pending then old(rows)
        else old(rows)[id := old(rows)[id].(status := Released)]
      ensures old(Valid()) ==>
        Valid() && WithinBudget() && Reached() == Apply(Config(limits, ttl, lockKey), old(Reached()), Event.Release(id))
    {
      ghost var before := Reached();
      if id < |rows| && rows[id].status == Pending {
        rows := rows[id := rows[id].(status := Released)];
      }
      Record(before, before.now, Event.Release(id));
    }

    method Sweep(now: nat)
      modifies this
      ensures rows == SweepRows(old(rows), now)
      ensures |rows| == |old(rows)| && forall k :: 0 <= k < |rows| ==>
        rows[k] == if old(rows)[k].status == Pending && old(rows)[k].expiresAt <= now
                   then old(rows)[k].(status := Released) else old(rows)[k]
      ensures old(Valid()) && old(Reached()).now <= now ==>
        && Valid() && WithinBudget()
        && Reached() == Apply(Config(limits, ttl, lockKey), old(Reached()).(now := now), Event.Sweep)
    {
      ghost var before, was := Reached(), rows;
      for id := 0 to |rows|
        invariant |rows| == |was| && trace == old(trace)
        invariant forall k :: 0 <= k < |was| ==> rows[k] == if k < id then SweptRow(was[k], now) else was[k]
      {
        if rows[id].status == Pending && rows[id].expiresAt <= now {
          rows := rows[id := rows[id].(status := Released)];
        }
      }
      assert rows == SweepRows(was, now);
      Record(before, now, Event.Sweep);
    }

    /** Adds a step to the trace; `before` is the state the trace reached. */
    ghost method Record(before: State<S, I>, now: nat, e: Event<S, I>)
      requires before == Reached() && (e.Finalize? || e.Release? || e.Sweep?)
      modifies this`trace
      ensures Idle(before) && before.now <= now ==>
        && Reached() == Apply(Config(limits, ttl, lockKey), before.(now := now), e) && Idle(Reached())
        && (Reached().rows == rows ==> Valid() && WithinBudget())
    {
      if Idle(before) && before.now <= now {
        TableStepIsRun(Config(limits, ttl, lockKey), trace, now, e);
        trace := trace + [Tick(now - before.now)] + [e];
        if Valid() {
          ValidIsWithinBudget();
        }
      }
    }
  }

  lemma UsageAppend<S, I>(rows: seq<Row<S, I>>, row: Row<S, I>, q: Query<S>)
    ensures Usage(rows + [row], q) == Usage(rows, q) + (if Selects(q, row) then Charge(row, q.at) else 0)
  {
    var xs := Charges(rows + [row], q);
    assert xs[..|rows|] == Charges(rows, q);
  }
}
