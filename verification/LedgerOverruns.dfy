/**
 Which steps of a ledger run take a window over its maximum: a finalize that costs more than its hold
 leaves room for, and an insert whose count such a finalize has overtaken.
 */
module LedgerOverruns {
  import opened Common
  import opened Ledger
  import opened LedgerRuns

  /** From a window within its maximum, the step goes over it. */
  predicate Exceeds<S(==), I(==)>(c: Config<S>, s: State<S, I>, e: Event<S, I>, scope: S, w: Window) {
    var q := Query(scope, w, s.now);
    match e
    case Finalize(id, actual) =>
      && IsPending(s.rows, id) && Selects(q, s.rows[id])
      && Usage(s.rows, q) + actual > c.limits.Max(w) + Charge(s.rows[id], s.now)
    case Insert(t) =>
      && t in s.callers && s.callers[t].Cleared? && s.callers[t].req.amount > 0
      && var row := NewRow(s.callers[t].req, s.callers[t].start, s.now, c.ttl);
      && Selects(q, row) && Usage(s.rows, q) + Charge(row, s.now) > c.limits.Max(w)
    case _ => false
  }

  lemma UsageAppend<S, I>(rows: seq<Row<S, I>>, row: Row<S, I>, q: Query<S>)
    ensures Usage(rows + [row], q) == Usage(rows, q) + (if Selects(q, row) then Charge(row, q.at) else 0)
  {
    var xs := Charges(rows + [row], q);
    assert xs[..|xs| - 1] == Charges(rows, q);
  }

  /** Only inserting and finalizing can raise what a window uses. */
  lemma QuietStep<S, I>(c: Config<S>, s: State<S, I>, e: Event<S, I>, scope: S, w: Window)
    requires !e.Insert? && !e.Finalize?
    ensures var s' := Apply(c, s, e);
      Usage(s'.rows, Query(scope, w, s'.now)) <= Usage(s.rows, Query(scope, w, s.now))
  {
    var s' := Apply(c, s, e);
    SumMonotone(Charges(s'.rows, Query(scope, w, s'.now)), Charges(s.rows, Query(scope, w, s.now)));
  }

  lemma ExceedsIff<S, I>(c: Config<S>, s: State<S, I>, e: Event<S, I>, scope: S, w: Window)
    requires Usage(s.rows, Query(scope, w, s.now)) <= c.limits.Max(w)
    ensures var s' := Apply(c, s, e);
      Usage(s'.rows, Query(scope, w, s'.now)) > c.limits.Max(w) <==> Exceeds(c, s, e, scope, w)
  {
    match e
    case Finalize(id, actual) =>
      if IsPending(s.rows, id) {
        FinalizeUsage(s.rows, id, actual, Query(scope, w, s.now));
      }
    case Insert(t) =>
      if t in s.callers && s.callers[t].Cleared? {
        UsageAppend(s.rows, NewRow(s.callers[t].req, s.callers[t].start, s.now, c.ttl), Query(scope, w, s.now));
      }
    case _ => QuietStep(c, s, e, scope, w);
  }

  predicate WithinAt<S(==), I(==)>(c: Config<S>, es: seq<Event<S, I>>, scope: S, w: Window, n: nat) {
    n <= |es| && var s := Run(c, es[..n]); Usage(s.rows, Query(scope, w, s.now)) <= c.limits.Max(w)
  }

  predicate ExceedsAt<S(==), I(==)>(c: Config<S>, es: seq<Event<S, I>>, scope: S, w: Window, n: nat) {
    n < |es| && Exceeds(c, Run(c, es[..n]), es[n], scope, w)
  }

  /** A window stays within its maximum throughout a run exactly if no step of the run exceeds it. */
  lemma WithinIffNeverExceeds<S, I>(c: Config<S>, es: seq<Event<S, I>>, scope: S, w: Window)
    ensures (forall n: nat :: n <= |es| ==> WithinAt(c, es, scope, w, n))
      <==> (forall n: nat :: n < |es| ==> !ExceedsAt(c, es, scope, w, n))
  {
    SumZero(Charges(Run(c, es[..0]).rows, Query(scope, w, 0)));
    forall n: nat | n < |es| && WithinAt(c, es, scope, w, n)
      ensures WithinAt(c, es, scope, w, n + 1) <==> !ExceedsAt(c, es, scope, w, n)
    {
      assert es[..n + 1][..n] == es[..n];
      ExceedsIff(c, Run(c, es[..n]), es[n], scope, w);
    }
    var good, bad := (n: nat) => WithinAt(c, es, scope, w, n), (n: nat) => ExceedsAt(c, es, scope, w, n);
    HoldsThroughout(|es|, good, bad);
    assert forall n: nat :: good(n) == WithinAt(c, es, scope, w, n) && bad(n) == ExceedsAt(c, es, scope, w, n);
  }

  /** A finalize that exceeds a window is late or above its reservation. */
  lemma ExceedingFinalizeIsNotPunctual<S, I>(c: Config<S>, s: State<S, I>, e: Event<S, I>, scope: S, w: Window)
    requires Usage(s.rows, Query(scope, w, s.now)) <= c.limits.Max(w)
    requires e.Finalize? && Exceeds(c, s, e, scope, w)
    ensures !Punctual(s, e)
  {
  }

  // ---- Inserts ----------------------------------------------------------------------------------------

  /** The row was settled when `counted` was read. */
  predicate SettledIn<S, I>(counted: seq<Row<S, I>>, i: nat) {
    i < |counted| && counted[i].status != Pending
  }

  /** What a row holds, where a row settled before the count holds all it costs. */
  function HeldSince<S, I>(counted: seq<Row<S, I>>, rows: seq<Row<S, I>>, i: nat, at: nat): nat
    requires i < |rows|
  {
    if SettledIn(counted, i) then Charge(rows[i], at) else Held(rows[i], at)
  }

  function HeldsSince<S(==), I>(counted: seq<Row<S, I>>, rows: seq<Row<S, I>>, q: Query<S>): (xs: seq<nat>)
    ensures |xs| == |rows|
  {
    seq(|rows|, i requires 0 <= i < |rows| => if Selects(q, rows[i]) then HeldSince(counted, rows, i, q.at) else 0)
  }

  function ExcessesSince<S(==), I>(counted: seq<Row<S, I>>, rows: seq<Row<S, I>>, q: Query<S>): (xs: seq<nat>)
    ensures |xs| == |rows|
  {
    seq(|rows|, i requires 0 <= i < |rows| =>
      if Selects(q, rows[i]) && !SettledIn(counted, i) then Excess(rows[i]) else 0)
  }

  /** Rows settled when counted are as they were. */
  predicate KeepsSettled<S(==), I(==)>(counted: seq<Row<S, I>>, rows: seq<Row<S, I>>) {
    |counted| <= |rows| && forall i :: 0 <= i < |counted| && SettledIn(counted, i) ==> rows[i] == counted[i]
  }

  predicate IsCleared<S(==), I(==)>(s: State<S, I>, t: Caller, p: Phase<S, I>) {
    t in s.callers && s.callers[t] == p && p.Cleared?
  }

  /** A row stays what it is a reservation for, stays as it was if it was settled, and holds no more. */
  predicate HeldFalls<S(==), I(==)>(counted: seq<Row<S, I>>, s: State<S, I>, s': State<S, I>, i: nat) {
    && i < |s.rows| && i < |s'.rows|
    && s'.rows[i].scope == s.rows[i].scope && s'.rows[i].createdAt == s.rows[i].createdAt
    && (SettledIn(counted, i) ==> s'.rows[i] == s.rows[i])
    && HeldSince(counted, s'.rows, i, s'.now) <= HeldSince(counted, s.rows, i, s.now)
  }

  lemma QuietStepHoldsRow<S, I>(c: Config<S>, s: State<S, I>, e: Event<S, I>, counted: seq<Row<S, I>>, i: nat)
    requires KeepsSettled(counted, s.rows) && !e.Insert? && i < |s.rows|
    ensures |Apply(c, s, e).rows| == |s.rows| && HeldFalls(counted, s, Apply(c, s, e), i)
  {
  }

  lemma QuietStepHolds<S(!new), I>(c: Config<S>, s: State<S, I>, e: Event<S, I>, counted: seq<Row<S, I>>, scope: S,
                                   w: Window)
    requires KeepsSettled(counted, s.rows) && !e.Insert?
    ensures var s' := Apply(c, s, e);
      && KeepsSettled(counted, s'.rows)
      && Sum(HeldsSince(counted, s'.rows, Query(scope, w, s'.now)))
           <= Sum(HeldsSince(counted, s.rows, Query(scope, w, s.now)))
  {
    var s' := Apply(c, s, e);
    forall i | 0 <= i < |s.rows| ensures HeldFalls(counted, s, s', i) {
      QuietStepHoldsRow(c, s, e, counted, i);
    }
    SumMonotone(HeldsSince(counted, s'.rows, Query(scope, w, s'.now)),
                HeldsSince(counted, s.rows, Query(scope, w, s.now)));
  }

  /** While a caller is cleared, nobody inserts a row of its scope. */
  lemma InsertHolds<S(!new), I>(c: Config<S>, s: State<S, I>, u: Caller, counted: seq<Row<S, I>>, t: Caller,
                                p: Phase<S, I>, w: Window)
    requires Inv(c, s) && KeepsSettled(counted, s.rows)
    requires IsCleared(s, t, p) && IsCleared(Apply(c, s, Insert(u)), t, p)
    ensures var rows := Apply(c, s, Insert(u)).rows;
      && KeepsSettled(counted, rows)
      && Sum(HeldsSince(counted, rows, Query(p.req.scope, w, s.now)))
           == Sum(HeldsSince(counted, s.rows, Query(p.req.scope, w, s.now)))
  {
    var rows := Apply(c, s, Insert(u)).rows;
    if rows != s.rows {
      var q := Query(p.req.scope, w, s.now);
      assert u != t && s.callers[u].req.scope != p.req.scope;
      var xs := HeldsSince(counted, rows, q);
      assert xs[..|xs| - 1] == HeldsSince(counted, s.rows, q);
    }
  }

  /** Caller `t` was counted by step `k - 1` of the run, and is cleared since. */
  ghost predicate ClearedSince<S(!new), I(!new)>(c: Config<S>, es: seq<Event<S, I>>, t: Caller, p: Phase<S, I>,
                                                 k: nat)
  {
    && 0 < k <= |es| && es[k - 1] == Count(t)
    && Fits(Run(c, es[..k - 1]).rows, c.limits, p.req.scope, p.start, p.req.amount)
    && forall n :: k <= n <= |es| ==> IsCleared(Run(c, es[..n]), t, p)
  }

  lemma {:induction false} CountedWhen<S(!new), I(!new)>(c: Config<S>, es: seq<Event<S, I>>, t: Caller, p: Phase<S, I>)
    returns (k: nat)
    requires IsCleared(Run(c, es), t, p)
    ensures ClearedSince(c, es, t, p, k)
  {
    var front := es[..|es| - 1];
    assert es[..|es|] == es;
    if IsCleared(Run(c, front), t, p) {
      k := CountedWhen(c, front, t, p);
      assert es[..k - 1] == front[..k - 1];
      forall n | k <= n <= |es| ensures IsCleared(Run(c, es[..n]), t, p) {
        if n < |es| {
          assert es[..n] == front[..n];
        }
      }
    } else {
      k := |es|;
    }
  }

  lemma RoomWhenCounted<S(!new), I>(c: Config<S>, s: State<S, I>, t: Caller, p: Phase<S, I>, w: Window)
    requires Inv(c, s) && IsCleared(Apply(c, s, Count(t)), t, p)
    requires Fits(s.rows, c.limits, p.req.scope, p.start, p.req.amount)
    ensures var s' := Apply(c, s, Count(t));
      s'.rows == s.rows && s'.now == s.now
      && Sum(HeldsSince(s.rows, s.rows, Query(p.req.scope, w, s.now))) + p.req.amount <= c.limits.Max(w)
  {
    SumMonotone(HeldsSince(s.rows, s.rows, Query(p.req.scope, w, s.now)),
                Charges(s.rows, Query(p.req.scope, w, p.start)));
  }

  /** Since its count, what the other rows hold leaves room for the caller's amount. */
  lemma {:induction false} RoomSince<S(!new), I(!new)>(c: Config<S>, es: seq<Event<S, I>>, t: Caller, p: Phase<S, I>,
                                                      k: nat, w: Window)
    requires ClearedSince(c, es, t, p, k)
    ensures var s, counted := Run(c, es), Run(c, es[..k]).rows;
      && KeepsSettled(counted, s.rows)
      && Sum(HeldsSince(counted, s.rows, Query(p.req.scope, w, s.now))) + p.req.amount <= c.limits.Max(w)
    decreases |es|
  {
    var front, e := es[..|es| - 1], es[|es| - 1];
    var before, s := Run(c, front), Run(c, es);
    assert es[..|es|] == es;
    RunKeepsInv(c, front);
    if k == |es| {
      RoomWhenCounted(c, before, t, p, w);
    } else {
      ClearedPrefix(c, es, t, p, k);
      RoomSince(c, front, t, p, k, w);
      assert front[..k] == es[..k];
      if e.Insert? {
        InsertHolds(c, before, e.caller, Run(c, es[..k]).rows, t, p, w);
      } else {
        QuietStepHolds(c, before, e, Run(c, es[..k]).rows, p.req.scope, w);
      }
    }
  }

  lemma ClearedPrefix<S(!new), I(!new)>(c: Config<S>, es: seq<Event<S, I>>, t: Caller, p: Phase<S, I>, k: nat)
    requires ClearedSince(c, es, t, p, k) && k < |es|
    ensures ClearedSince(c, es[..|es| - 1], t, p, k) && IsCleared(Run(c, es[..|es| - 1]), t, p)
  {
    var front := es[..|es| - 1];
    assert front[..k - 1] == es[..k - 1];
    forall n | k <= n <= |front| ensures IsCleared(Run(c, front[..n]), t, p) {
      assert front[..n] == es[..n];
    }
    assert front[..|front|] == front;
  }

  /** A row gets an excess only by an unpunctual finalize. */
  lemma ExcessBegins<S, I>(c: Config<S>, s: State<S, I>, e: Event<S, I>, id: nat)
    requires !SettledIn(s.rows, id) && id < |Apply(c, s, e).rows| && Excess(Apply(c, s, e).rows[id]) > 0
    ensures e.Finalize? && e.id == id && !Punctual(s, e)
  {
  }

  /** When a row that was not settled after `k` steps, and has an excess now, was finalized. */
  lemma {:induction false} FinalizedWhen<S(!new), I(!new)>(c: Config<S>, es: seq<Event<S, I>>, k: nat, id: nat)
    returns (n: nat)
    requires k <= |es| && id < |Run(c, es).rows|
    requires Excess(Run(c, es).rows[id]) > 0 && !SettledIn(Run(c, es[..k]).rows, id)
    ensures k <= n < |es| && es[n].Finalize? && es[n].id == id
    ensures !Punctual(Run(c, es[..n]), es[n])
  {
    var front, e := es[..|es| - 1], es[|es| - 1];
    assert es[..|es|] == es && k < |es|;
    assert front[..k] == es[..k];
    if SettledIn(Run(c, front).rows, id) {
      SettledStays(c, Run(c, front), e, id);
      n := FinalizedWhen(c, front, k, id);
      assert front[..n] == es[..n];
    } else {
      ExcessBegins(c, Run(c, front), e, id);
      n := |front|;
    }
  }

  /**
   An insert that takes its window over the maximum has been overtaken: after its count somebody finalized a
   row that the window still counts, late or above its reservation.
   */
  lemma ExceedingInsertWasOvertaken<S(!new), I(!new)>(c: Config<S>, es: seq<Event<S, I>>, t: Caller,
                                                      scope: S, w: Window)
    returns (k: nat, n: nat)
    requires Exceeds(c, Run(c, es), Insert(t), scope, w)
    ensures 0 < k <= n < |es| && es[k - 1] == Count(t) && es[n].Finalize?
    ensures forall m :: k <= m <= |es| ==> t in Run(c, es[..m]).callers && Run(c, es[..m]).callers[t].Cleared?
    ensures !Punctual(Run(c, es[..n]), es[n])
    ensures var s := Run(c, es); es[n].id < |s.rows| && Selects(Query(scope, w, s.now), s.rows[es[n].id])
  {
    var s := Run(c, es);
    var p, q := s.callers[t], Query(scope, w, s.now);
    k := CountedWhen(c, es, t, p);
    RoomSince(c, es, t, p, k, w);
    var counted := Run(c, es[..k]).rows;
    var late := ExcessesSince(counted, s.rows, q);
    SumSplit(Charges(s.rows, q), HeldsSince(counted, s.rows, q), late);
    var i := PositiveOf(late);
    n := FinalizedWhen(c, es, k, i);
  }

  lemma {:induction false} PositiveOf(xs: seq<nat>) returns (i: nat)
    requires Sum(xs) > 0
    ensures i < |xs| && xs[i] > 0
  {
    i := |xs| - 1;
    if xs[i] == 0 {
      i := PositiveOf(xs[..i]);
    }
  }

  // ---- An overtaken insert ------------------------------------------------------------------------------

  /** A second reserver asks for as much as the first one, whose hold is over, and waits to be counted. */
  lemma SecondWaits() returns (es: seq<Event<int, int>>)
    ensures var s := Run(SmallBudget(), es);
      && s.now == 5 && s.rows == [Row(0, 0, 10, 0, 5, Pending)]
      && 2 in s.callers && s.callers[2] == Locked(Request(0, 0, 10), 5)
  {
    var c := SmallBudget();
    var first := FirstReservation();
    var req := Request(0, 0, 10);
    RunStep(c, first, Tick(5));
    es := first + [Tick(5)];
    RunStep(c, es, Begin(2, req));
    RunStep(c, es + [Begin(2, req)], Acquire(2));
    BeginAndAcquire(c, Run(c, es), 2, req);
    es := es + [Begin(2, req)] + [Acquire(2)];
  }

  lemma SecondIsCleared() returns (es: seq<Event<int, int>>)
    ensures var s := Run(SmallBudget(), es);
      && s.now == 5 && s.rows == [Row(0, 0, 10, 0, 5, Pending)]
      && 2 in s.callers && s.callers[2] == Cleared(Request(0, 0, 10), 5)
  {
    var c := SmallBudget();
    var row := Row(0, 0, 10, 0, 5, Pending);
    es := SecondWaits();
    forall w: Window ensures Usage([row], Query(0, w, 5)) == 0 {
      UsageOfOne(row, Query(0, w, 5));
    }
    RunStep(c, es, Count(2));
    es := es + [Count(2)];
  }

  /** Then the first hold is finalized all the same, which fits, and what the second one inserts does not. */
  lemma OvertakenInsertOverruns() returns (es: seq<Event<int, int>>)
    ensures var c := SmallBudget();
      var s := Run(c, es);
      Usage(s.rows, Query(0, Day, s.now)) == c.limits.Max(Day) && Exceeds(c, s, Insert(2), 0, Day)
  {
    var c := SmallBudget();
    es := SecondIsCleared();
    var s := Run(c, es);
    RunStep(c, es, Finalize(0, 10));
    es := es + [Finalize(0, 10)];
    var late := Row(0, 0, 10, 0, 5, Finalized(10, 5));
    assert Run(c, es) == s.(rows := [late]);
    UsageOfOne(late, Query(0, Day, 5));
  }
}
