/**
 A reservation ledger with rolling windows, generic in the scope a budget belongs to
 (a club, or a member in a club) and in what else a row records.

 A reservation is one transaction in four steps: begin (which fixes now() for the whole
 transaction), take the advisory lock of the scope, count usage, insert. Finalize, release and
 sweep take no lock, so any of them, a clock tick or another reserver can fall between those steps.
 Times are milliseconds.
 */
module Ledger {

  // ---- Rows -------------------------------------------------------------------------------

  /**
   `settledAt` is the clock at the instant the finalize took effect, which is what tells a late one. The
   stored finalized_at is the begin of the finalizing transaction and can lie before it.
   */
  datatype Status = Pending | Finalized(actual: nat, settledAt: nat) | Released

  datatype Row<+S, +I> = Row(
    scope: S, info: I, reserved: nat, createdAt: nat, expiresAt: nat, status: Status)

  datatype Window = Day | Week | Month

  function Span(w: Window): nat {
    match w
    case Day => 24 * 60 * 60 * 1000
    case Week => 7 * 24 * 60 * 60 * 1000
    case Month => 30 * 24 * 60 * 60 * 1000
  }

  datatype Limits = Limits(day: nat, week: nat, month: nat) {
    function Max(w: Window): nat {
      match w
      case Day => day
      case Week => week
      case Month => month
    }
  }

  /** What a query for `scope` and `w` whose transaction began at `at` looks at. */
  datatype Query<S> = Query(scope: S, w: Window, at: nat)

  predicate Selects<S(==), I>(q: Query<S>, row: Row<S, I>) {
    row.scope == q.scope && row.createdAt + Span(q.w) >= q.at
  }

  /** What a row costs the budget when looked at at time `at`. */
  function Charge<S, I>(row: Row<S, I>, at: nat): nat {
    match row.status
    case Pending => if row.expiresAt > at then row.reserved else 0
    case Finalized(actual, _) => actual
    case Released => 0
  }

  /** The part of a finalized row's cost that no reservation covered when it was finalized. */
  function Excess<S, I>(row: Row<S, I>): nat {
    match row.status
    case Finalized(actual, settledAt) =>
      if row.expiresAt <= settledAt then actual
      else if actual > row.reserved then actual - row.reserved
      else 0
    case _ => 0
  }

  function Held<S, I>(row: Row<S, I>, at: nat): nat {
    if Excess(row) <= Charge(row, at) then Charge(row, at) - Excess(row) else 0
  }

  // ---- Sums over the rows a query selects ---------------------------------------------------

  function Sum(xs: seq<nat>): nat {
    if xs == [] then 0 else Sum(xs[..|xs| - 1]) + xs[|xs| - 1]
  }

  function Charges<S(==), I>(rows: seq<Row<S, I>>, q: Query<S>): (cs: seq<nat>)
    ensures |cs| == |rows|
  {
    seq(|rows|, i requires 0 <= i < |rows| => if Selects(q, rows[i]) then Charge(rows[i], q.at) else 0)
  }

  function Excesses<S(==), I>(rows: seq<Row<S, I>>, q: Query<S>): (cs: seq<nat>)
    ensures |cs| == |rows|
  {
    seq(|rows|, i requires 0 <= i < |rows| => if Selects(q, rows[i]) then Excess(rows[i]) else 0)
  }

  function Helds<S(==), I>(rows: seq<Row<S, I>>, q: Query<S>): (cs: seq<nat>)
    ensures |cs| == |rows|
  {
    seq(|rows|, i requires 0 <= i < |rows| => if Selects(q, rows[i]) then Held(rows[i], q.at) else 0)
  }

  /** The usage that the window query reports. */
  function Usage<S(==), I>(rows: seq<Row<S, I>>, q: Query<S>): nat {
    Sum(Charges(rows, q))
  }

  function TotalExcess<S(==), I>(rows: seq<Row<S, I>>, q: Query<S>): nat {
    Sum(Excesses(rows, q))
  }

  function TotalHeld<S(==), I>(rows: seq<Row<S, I>>, q: Query<S>): nat {
    Sum(Helds(rows, q))
  }

  predicate Fits<S(==), I>(rows: seq<Row<S, I>>, limits: Limits, scope: S, at: nat, amount: nat) {
    forall w: Window :: Usage(rows, Query(scope, w, at)) + amount <= limits.Max(w)
  }

  lemma {:induction false} SumMonotone(xs: seq<nat>, ys: seq<nat>)
    requires |xs| == |ys|
    requires forall i :: 0 <= i < |xs| ==> xs[i] <= ys[i]
    ensures Sum(xs) <= Sum(ys)
  {
    if xs != [] {
      SumMonotone(xs[..|xs| - 1], ys[..|ys| - 1]);
    }
  }

  lemma {:induction false} SumStrict(xs: seq<nat>, ys: seq<nat>, k: nat)
    requires |xs| == |ys| && k < |xs| && xs[k] < ys[k]
    requires forall i :: 0 <= i < |xs| ==> xs[i] <= ys[i]
    ensures Sum(xs) < Sum(ys)
  {
    var n := |xs| - 1;
    if k < n {
      SumStrict(xs[..n], ys[..n], k);
    } else {
      SumMonotone(xs[..n], ys[..n]);
    }
  }

  lemma {:induction false} SumSplit(xs: seq<nat>, ys: seq<nat>, zs: seq<nat>)
    requires |xs| == |ys| == |zs|
    requires forall i :: 0 <= i < |xs| ==> xs[i] <= ys[i] + zs[i]
    ensures Sum(xs) <= Sum(ys) + Sum(zs)
  {
    if xs != [] {
      var n := |xs| - 1;
      SumSplit(xs[..n], ys[..n], zs[..n]);
    }
  }

  lemma {:induction false} SumZero(xs: seq<nat>)
    requires forall i :: 0 <= i < |xs| ==> xs[i] == 0
    ensures Sum(xs) == 0
  {
    if xs != [] {
      SumZero(xs[..|xs| - 1]);
    }
  }

  /** Usage never exceeds what live or settled reservations hold plus the excess of finalized rows. */
  lemma UsageSplits<S, I>(rows: seq<Row<S, I>>, q: Query<S>)
    ensures Usage(rows, q) <= TotalHeld(rows, q) + TotalExcess(rows, q)
  {
    SumSplit(Charges(rows, q), Helds(rows, q), Excesses(rows, q));
  }

  lemma HeldWithinUsage<S, I>(rows: seq<Row<S, I>>, q: Query<S>)
    ensures TotalHeld(rows, q) <= Usage(rows, q)
  {
    SumMonotone(Helds(rows, q), Charges(rows, q));
  }

  /** What a scope holds in a window, `older` seen at `q.at` against `newer` seen at `at`. */
  lemma HeldShrinks<S, I>(older: seq<Row<S, I>>, newer: seq<Row<S, I>>, q: Query<S>, at: nat)
    requires |older| == |newer| && q.at <= at
    requires forall i :: 0 <= i < |older| ==>
      newer[i].scope == older[i].scope && newer[i].createdAt == older[i].createdAt
      && Held(newer[i], at) <= Held(older[i], q.at)
    ensures TotalHeld(newer, q.(at := at)) <= TotalHeld(older, q)
  {
    SumMonotone(Helds(newer, q.(at := at)), Helds(older, q));
  }

  lemma HeldAppend<S, I>(rows: seq<Row<S, I>>, row: Row<S, I>, q: Query<S>)
    ensures TotalHeld(rows + [row], q)
         == TotalHeld(rows, q) + (if Selects(q, row) then Held(row, q.at) else 0)
  {
    var xs := Helds(rows + [row], q);
    assert xs[..|xs| - 1] == Helds(rows, q);
  }

  // ---- The row updates ----------------------------------------------------------------------

  predicate IsPending<S, I>(rows: seq<Row<S, I>>, id: nat) {
    id < |rows| && rows[id].status == Pending
  }

  /** Finalize with cost `actual`: a positive cost finalizes, zero releases, a settled row stays. */
  function FinalizeRow<S, I>(rows: seq<Row<S, I>>, id: nat, actual: nat, now: nat): (r: seq<Row<S, I>>)
    ensures |r| == |rows|
  {
    if IsPending(rows, id)
    then rows[id := rows[id].(status := if actual > 0 then Finalized(actual, now) else Released)]
    else rows
  }

  function ReleaseRow<S, I>(rows: seq<Row<S, I>>, id: nat): (r: seq<Row<S, I>>)
    ensures |r| == |rows|
  {
    if IsPending(rows, id) then rows[id := rows[id].(status := Released)] else rows
  }

  function SweptRow<S, I>(row: Row<S, I>, now: nat): Row<S, I> {
    if row.status == Pending && row.expiresAt <= now then row.(status := Released) else row
  }

  function SweepRows<S, I>(rows: seq<Row<S, I>>, now: nat): (r: seq<Row<S, I>>)
    ensures |r| == |rows|
    ensures forall i :: 0 <= i < |rows| ==> r[i] == SweptRow(rows[i], now)
  {
    seq(|rows|, i requires 0 <= i < |rows| => SweptRow(rows[i], now))
  }

  function NewRow<S, I>(req: Request<S, I>, start: nat, now: nat, ttl: nat): Row<S, I> {
    Row(req.scope, req.info, req.amount, start, now + ttl, Pending)
  }

  // ---- Interleaved runs -----------------------------------------------------------------------

  datatype Request<+S, +I> = Request(scope: S, info: I, amount: nat)

  /** Where a reserver stands inside its transaction. */
  datatype Phase<+S, +I> =
    | Began(req: Request<S, I>, start: nat)
    | Locked(req: Request<S, I>, start: nat)
    | Cleared(req: Request<S, I>, start: nat)

  type Caller = nat
  type LockId = nat

  datatype Decision = Decision(caller: Caller, accepted: bool)

  datatype State<!S, I> = State(
    now: nat,
    rows: seq<Row<S, I>>,
    callers: map<Caller, Phase<S, I>>,
    locks: map<LockId, Caller>,
    decisions: seq<Decision>)

  /** `lockKey` is the hash of the lock name: distinct scopes may share a lock. */
  datatype Config<!S> = Config(limits: Limits, ttl: nat, lockKey: S -> LockId)

  datatype Event<+S, +I> =
    | Tick(ms: nat)
    | Begin(caller: Caller, req: Request<S, I>)
    | Acquire(caller: Caller)
    | Count(caller: Caller)
    | Insert(caller: Caller)
    | Abort(caller: Caller)
    | Finalize(id: nat, actual: nat)
    | Release(id: nat)
    | Sweep

  function Init<S, I>(): State<S, I> {
    State(0, [], map[], map[], [])
  }

  /** One step. An event that is not enabled (a blocked lock, say) leaves the state unchanged. */
  function Apply<S(==), I(==)>(c: Config<S>, s: State<S, I>, e: Event<S, I>): State<S, I> {
    match e
    case Tick(ms) => s.(now := s.now + ms)
    case Begin(t, req) =>
      if t in s.callers then s else s.(callers := s.callers[t := Began(req, s.now)])
    case Acquire(t) =>
      if t in s.callers && s.callers[t].Began? && c.lockKey(s.callers[t].req.scope) !in s.locks then
        var p := s.callers[t];
        s.(callers := s.callers[t := Locked(p.req, p.start)],
           locks := s.locks[c.lockKey(p.req.scope) := t])
      else s
    case Count(t) =>
      if t in s.callers && s.callers[t].Locked? then
        var p := s.callers[t];
        if Fits(s.rows, c.limits, p.req.scope, p.start, p.req.amount) then
          s.(callers := s.callers[t := Cleared(p.req, p.start)],
             decisions := s.decisions + [Decision(t, true)])
        else
          End(c, s.(decisions := s.decisions + [Decision(t, false)]), t)
      else s
    case Insert(t) =>
      if t in s.callers && s.callers[t].Cleared? then
        var p := s.callers[t];
        // The table only takes positive amounts; otherwise the insert fails and rolls back.
        if p.req.amount == 0 then End(c, s, t)
        else End(c, s.(rows := s.rows + [NewRow(p.req, p.start, s.now, c.ttl)]), t)
      else s
    case Abort(t) => if t in s.callers then End(c, s, t) else s
    case Finalize(id, actual) => s.(rows := FinalizeRow(s.rows, id, actual, s.now))
    case Release(id) => s.(rows := ReleaseRow(s.rows, id))
    case Sweep => s.(rows := SweepRows(s.rows, s.now))
  }

  /** Commit or rollback of caller `t`: its lock, if it holds one, is free again. */
  function End<S, I>(c: Config<S>, s: State<S, I>, t: Caller): State<S, I>
    requires t in s.callers
  {
    s.(callers := s.callers - {t},
       locks := if s.callers[t].Began? then s.locks else s.locks - {c.lockKey(s.callers[t].req.scope)})
  }

  function Run<S(==), I(==)>(c: Config<S>, es: seq<Event<S, I>>): State<S, I> {
    if es == [] then Init() else Apply(c, Run(c, es[..|es| - 1]), es[|es| - 1])
  }

  // ---- Spend safety ---------------------------------------------------------------------------

  ghost predicate LocksHeld<S(!new), I>(c: Config<S>, s: State<S, I>) {
    && (forall t :: t in s.callers && !s.callers[t].Began? ==>
          && c.lockKey(s.callers[t].req.scope) in s.locks
          && s.locks[c.lockKey(s.callers[t].req.scope)] == t)
    && (forall t :: t in s.callers ==> s.callers[t].start <= s.now)
  }

  ghost predicate Covered<S(!new), I>(c: Config<S>, s: State<S, I>) {
    forall scope: S, w: Window {:trigger Query(scope, w, s.now)} ::
      TotalHeld(s.rows, Query(scope, w, s.now)) <= c.limits.Max(w)
  }

  /** A reserver that passed its check still fits, whatever ran since. */
  ghost predicate ClearedFit<S(!new), I>(c: Config<S>, s: State<S, I>) {
    forall t, w: Window {:trigger s.callers[t], c.limits.Max(w)} ::
      t in s.callers && s.callers[t].Cleared? ==>
        TotalHeld(s.rows, Query(s.callers[t].req.scope, w, s.now)) + s.callers[t].req.amount
          <= c.limits.Max(w)
  }

  ghost predicate Inv<S(!new), I>(c: Config<S>, s: State<S, I>) {
    LocksHeld(c, s) && Covered(c, s) && ClearedFit(c, s)
  }

  /** A step that adds no row and raises no row's held part keeps the ledger covered. */
  lemma ShrinkKeepsCover<S(!new), I>(c: Config<S>, s: State<S, I>, s': State<S, I>)
    requires Covered(c, s) && ClearedFit(c, s)
    requires |s'.rows| == |s.rows| && s.now <= s'.now
    requires forall i :: 0 <= i < |s.rows| ==>
      s'.rows[i].scope == s.rows[i].scope && s'.rows[i].createdAt == s.rows[i].createdAt
      && Held(s'.rows[i], s'.now) <= Held(s.rows[i], s.now)
    requires forall t :: t in s'.callers && s'.callers[t].Cleared? ==>
      t in s.callers && s'.callers[t] == s.callers[t]
    ensures Covered(c, s') && ClearedFit(c, s')
  {
    forall scope: S, w: Window
      ensures TotalHeld(s'.rows, Query(scope, w, s'.now)) <= TotalHeld(s.rows, Query(scope, w, s.now))
    {
      HeldShrinks(s.rows, s'.rows, Query(scope, w, s.now), s'.now);
    }
  }

  /** The check made with the transaction's start time still speaks for the present. */
  lemma ClearanceFits<S(!new), I>(c: Config<S>, s: State<S, I>, scope: S, start: nat, amount: nat)
    requires start <= s.now && Fits(s.rows, c.limits, scope, start, amount)
    ensures forall w: Window ::
      TotalHeld(s.rows, Query(scope, w, s.now)) + amount <= c.limits.Max(w)
  {
    forall w: Window
      ensures TotalHeld(s.rows, Query(scope, w, s.now)) + amount <= c.limits.Max(w)
    {
      var q := Query(scope, w, start);
      HeldShrinks(s.rows, s.rows, q, s.now);
      HeldWithinUsage(s.rows, q);
    }
  }

  lemma InsertKeepsInv<S(!new), I>(c: Config<S>, s: State<S, I>, t: Caller)
    requires Inv(c, s) && t in s.callers && s.callers[t].Cleared?
    ensures Inv(c, Apply(c, s, Insert(t)))
  {
    var p := s.callers[t];
    var row := NewRow(p.req, p.start, s.now, c.ttl);
    var s' := Apply(c, s, Insert(t));
    if p.req.amount == 0 {
      ShrinkKeepsCover(c, s, s');
      return;
    }
    forall scope: S, w: Window
      ensures TotalHeld(s'.rows, Query(scope, w, s'.now)) <= c.limits.Max(w)
      ensures scope != p.req.scope ==>
        TotalHeld(s'.rows, Query(scope, w, s'.now)) == TotalHeld(s.rows, Query(scope, w, s.now))
    {
      HeldAppend(s.rows, row, Query(scope, w, s.now));
      assert s.callers[t].Cleared? && c.limits.Max(w) >= 0;
    }
  }

  lemma CountKeepsInv<S(!new), I>(c: Config<S>, s: State<S, I>, t: Caller)
    requires Inv(c, s) && t in s.callers && s.callers[t].Locked?
    ensures Inv(c, Apply(c, s, Count(t)))
  {
    var p := s.callers[t];
    if Fits(s.rows, c.limits, p.req.scope, p.start, p.req.amount) {
      ClearanceFits(c, s, p.req.scope, p.start, p.req.amount);
    } else {
      ShrinkKeepsCover(c, s, Apply(c, s, Count(t)));
    }
  }

  lemma StepKeepsInv<S(!new), I>(c: Config<S>, s: State<S, I>, e: Event<S, I>)
    requires Inv(c, s)
    ensures Inv(c, Apply(c, s, e))
  {
    match e
    case Insert(t) =>
      if t in s.callers && s.callers[t].Cleared? {
        InsertKeepsInv(c, s, t);
      }
    case Count(t) =>
      if t in s.callers && s.callers[t].Locked? {
        CountKeepsInv(c, s, t);
      }
    case _ =>
      ShrinkKeepsCover(c, s, Apply(c, s, e));
  }

  lemma {:induction false} RunKeepsInv<S(!new), I>(c: Config<S>, es: seq<Event<S, I>>)
    ensures Inv(c, Run(c, es))
  {
    if es == [] {
      forall scope: S, w: Window ensures TotalHeld<S, I>([], Query(scope, w, 0)) == 0 {
        SumZero(Helds<S, I>([], Query(scope, w, 0)));
      }
    } else {
      RunKeepsInv(c, es[..|es| - 1]);
      StepKeepsInv(c, Run(c, es[..|es| - 1]), es[|es| - 1]);
    }
  }

  /**
   In every reachable state, every window of every scope uses at most its maximum plus the excess
   of the finalized rows in that window.
   */
  lemma SpendSafety<S(!new), I>(c: Config<S>, es: seq<Event<S, I>>, scope: S, w: Window)
    ensures var s := Run(c, es);
      var q := Query(scope, w, s.now);
      Usage(s.rows, q) <= c.limits.Max(w) + TotalExcess(s.rows, q)
  {
    var s := Run(c, es);
    RunKeepsInv(c, es);
    UsageSplits(s.rows, Query(scope, w, s.now));
  }
}
