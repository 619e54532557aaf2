/** What a window's usage is made of, row by row, and where the rows of a ledger come from. */
module LedgerHistory {
  import opened Ledger

  /**
   The usage of a window is the sum over its rows, those of the scope not older than a day, seven days or thirty:
   what was actually spent if it is settled, and what is reserved while the hold lasts.
   */
  lemma UsageOfOneMore<S, I>(rows: seq<Row<S, I>>, row: Row<S, I>, scope: S, w: Window, at: nat)
    ensures Usage<S, I>([], Query(scope, w, at)) == 0
    ensures var age := match w
        case Day => 86_400_000
        case Week => 604_800_000
        case Month => 2_592_000_000;
      Usage(rows + [row], Query(scope, w, at)) == Usage(rows, Query(scope, w, at)) +
        if row.scope != scope || row.createdAt + age < at then 0
        else
          match row.status
          case Pending => if at < row.expiresAt then row.reserved else 0
          case Finalized(actual, _) => actual
          case Released => 0
  {
    var xs := Charges(rows + [row], Query(scope, w, at));
    assert xs[..|xs| - 1] == Charges(rows, Query(scope, w, at));
    assert Charges<S, I>([], Query(scope, w, at)) == [];
  }

  /** A request fits exactly if it exceeds the maximum neither of the day nor of the week nor of the month. */
  lemma FitsMeans<S, I>(rows: seq<Row<S, I>>, limits: Limits, scope: S, at: nat, amount: nat)
    ensures Fits(rows, limits, scope, at, amount) <==>
      && Usage(rows, Query(scope, Day, at)) + amount <= limits.day
      && Usage(rows, Query(scope, Week, at)) + amount <= limits.week
      && Usage(rows, Query(scope, Month, at)) + amount <= limits.month
  {
    if Usage(rows, Query(scope, Day, at)) + amount <= limits.day
       && Usage(rows, Query(scope, Week, at)) + amount <= limits.week
       && Usage(rows, Query(scope, Month, at)) + amount <= limits.month {
      forall w: Window ensures Usage(rows, Query(scope, w, at)) + amount <= limits.Max(w) {
        match w
        case Day =>
        case Week =>
        case Month =>
      }
    } else {
      assert Fits(rows, limits, scope, at, amount) ==>
          Usage(rows, Query(scope, Day, at)) + amount <= limits.Max(Day)
          && Usage(rows, Query(scope, Week, at)) + amount <= limits.Max(Week)
          && Usage(rows, Query(scope, Month, at)) + amount <= limits.Max(Month);
    }
  }

  // ---- Where rows come from -------------------------------------------------------------------------------

  /** Caller `t` stands where it does since it began with step `b` of the run. */
  ghost predicate BeganAt<S, I>(c: Config<S>, es: seq<Event<S, I>>, t: Caller, p: Phase<S, I>, b: nat) {
    b < |es| && es[b] == Begin(t, p.req) && p.start == Run(c, es[..b]).now
  }

  /** Step `n` of the run counted for caller `t` and found room in every window. */
  ghost predicate CountedAt<S, I>(c: Config<S>, es: seq<Event<S, I>>, t: Caller, p: Phase<S, I>, n: nat) {
    && n < |es| && es[n] == Count(t)
    && forall w: Window ::
         Usage(Run(c, es[..n]).rows, Query(p.req.scope, w, p.start)) + p.req.amount <=
           match w
           case Day => c.limits.day
           case Week => c.limits.week
           case Month => c.limits.month
  }

  ghost predicate CallersTold<S, I>(c: Config<S>, es: seq<Event<S, I>>, s: State<S, I>) {
    forall t :: t in s.callers ==>
      && (exists b: nat :: BeganAt(c, es, t, s.callers[t], b))
      && (s.callers[t].Cleared? ==> exists n: nat :: CountedAt(c, es, t, s.callers[t], n))
  }

  /** A row made by step `k` for the request that began with step `b` and was let through by step `n`. */
  ghost predicate MadeBy<S, I>(c: Config<S>, es: seq<Event<S, I>>, row: Row<S, I>, t: Caller,
                                       p: Phase<S, I>, b: nat, n: nat, k: nat)
  {
    && k < |es| && es[k] == Insert(t)
    && BeganAt(c, es[..k], t, p, b) && CountedAt(c, es[..k], t, p, n)
    && row.scope == p.req.scope && row.info == p.req.info && row.reserved == p.req.amount > 0
    && row.createdAt == p.start && row.expiresAt == Run(c, es[..k]).now + c.ttl
  }

  ghost predicate RowTold<S(!new), I(!new)>(c: Config<S>, es: seq<Event<S, I>>, row: Row<S, I>) {
    exists t, p: Phase<S, I>, b: nat, n: nat, k: nat :: MadeBy(c, es, row, t, p, b, n, k)
  }

  lemma BeganLater<S, I>(c: Config<S>, es: seq<Event<S, I>>, e: Event<S, I>, t: Caller, p: Phase<S, I>, b: nat)
    requires BeganAt(c, es, t, p, b)
    ensures BeganAt(c, es + [e], t, p, b)
  {
    assert (es + [e])[..b] == es[..b];
  }

  lemma CountedLater<S, I>(c: Config<S>, es: seq<Event<S, I>>, e: Event<S, I>, t: Caller, p: Phase<S, I>, n: nat)
    requires CountedAt(c, es, t, p, n)
    ensures CountedAt(c, es + [e], t, p, n)
  {
    assert (es + [e])[..n] == es[..n];
  }

  lemma RowLater<S(!new), I(!new)>(c: Config<S>, es: seq<Event<S, I>>, e: Event<S, I>, row: Row<S, I>,
                                   row': Row<S, I>)
    requires RowTold(c, es, row)
    requires row' == row.(status := row'.status)
    ensures RowTold(c, es + [e], row')
  {
    var t, p, b: nat, n: nat, k: nat :| MadeBy(c, es, row, t, p, b, n, k);
    assert (es + [e])[..k] == es[..k];
    assert MadeBy(c, es + [e], row', t, p, b, n, k);
  }

  /** Where a caller stands after a step, and where it stood before. */
  lemma CallerStep<S, I>(c: Config<S>, s: State<S, I>, e: Event<S, I>, t: Caller)
    requires t in Apply(c, s, e).callers
    ensures var p' := Apply(c, s, e).callers[t];
      || (e == Begin(t, p'.req) && p' == Began(p'.req, s.now))
      || (&& t in s.callers && s.callers[t].req == p'.req && s.callers[t].start == p'.start
          && (p'.Cleared? && !s.callers[t].Cleared? ==>
                e == Count(t) && Fits(s.rows, c.limits, p'.req.scope, p'.start, p'.req.amount)))
  {
  }

  lemma CallersNext<S, I>(c: Config<S>, es: seq<Event<S, I>>, e: Event<S, I>)
    requires CallersTold(c, es, Run(c, es))
    ensures CallersTold(c, es + [e], Apply(c, Run(c, es), e))
  {
    var s, s' := Run(c, es), Apply(c, Run(c, es), e);
    assert (es + [e])[..|es|] == es;
    forall t | t in s'.callers
      ensures exists b: nat :: BeganAt(c, es + [e], t, s'.callers[t], b)
      ensures s'.callers[t].Cleared? ==> exists n: nat :: CountedAt(c, es + [e], t, s'.callers[t], n)
    {
      CallerStep(c, s, e, t);
      var p' := s'.callers[t];
      if e == Begin(t, p'.req) && p' == Began(p'.req, s.now) {
        assert BeganAt(c, es + [e], t, p', |es|);
      } else {
        var b: nat :| BeganAt(c, es, t, s.callers[t], b);
        BeganLater(c, es, e, t, p', b);
        if p'.Cleared? && s.callers[t].Cleared? {
          var n: nat :| CountedAt(c, es, t, s.callers[t], n);
          CountedLater(c, es, e, t, p', n);
        } else if p'.Cleared? {
          assert CountedAt(c, es + [e], t, p', |es|);
        }
      }
    }
  }

  /** A row after a step is one from before, perhaps with another status, or the one just inserted. */
  lemma RowStep<S, I>(c: Config<S>, s: State<S, I>, e: Event<S, I>, i: nat)
    requires i < |Apply(c, s, e).rows|
    ensures var row' := Apply(c, s, e).rows[i];
      if i < |s.rows| then row' == s.rows[i].(status := row'.status)
      else
        && e.Insert? && e.caller in s.callers && s.callers[e.caller].Cleared?
        && s.callers[e.caller].req.amount > 0
        && row' == NewRow(s.callers[e.caller].req, s.callers[e.caller].start, s.now, c.ttl)
  {
  }

  lemma RowNext<S(!new), I(!new)>(c: Config<S>, es: seq<Event<S, I>>, e: Event<S, I>, i: nat)
    requires CallersTold(c, es, Run(c, es)) && i < |Apply(c, Run(c, es), e).rows|
    requires i < |Run(c, es).rows| ==> RowTold(c, es, Run(c, es).rows[i])
    ensures RowTold(c, es + [e], Apply(c, Run(c, es), e).rows[i])
  {
    var s, s' := Run(c, es), Apply(c, Run(c, es), e);
    RowStep(c, s, e, i);
    if i < |s.rows| {
      RowLater(c, es, e, s.rows[i], s'.rows[i]);
    } else {
      var t := e.caller;
      var b: nat :| BeganAt(c, es, t, s.callers[t], b);
      var n: nat :| CountedAt(c, es, t, s.callers[t], n);
      assert (es + [e])[..|es|] == es;
      assert MadeBy(c, es + [e], s'.rows[i], t, s.callers[t], b, n, |es|);
    }
  }

  lemma {:induction false} CallersInRun<S, I>(c: Config<S>, es: seq<Event<S, I>>)
    ensures CallersTold(c, es, Run(c, es))
  {
    if es != [] {
      var front, e := es[..|es| - 1], es[|es| - 1];
      CallersInRun(c, front);
      CallersNext(c, front, e);
      assert front + [e] == es;
    }
  }

  /**
   In every run each row was inserted for a request whose transaction began at the row's time and whose count found
   room in every window; it reserves what was asked for, and for as long as a hold lasts from the insert.
   */
  lemma {:induction false} EveryRowWasReserved<S(!new), I(!new)>(c: Config<S>, es: seq<Event<S, I>>, i: nat)
    requires i < |Run(c, es).rows|
    ensures RowTold(c, es, Run(c, es).rows[i])
  {
    if es != [] {
      var front, e := es[..|es| - 1], es[|es| - 1];
      assert front + [e] == es && Run(c, es) == Apply(c, Run(c, front), e);
      if i < |Run(c, front).rows| {
        EveryRowWasReserved(c, front, i);
      }
      CallersInRun(c, front);
      RowNext(c, front, e, i);
    }
  }
}
