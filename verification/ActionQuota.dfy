/**
 Request quotas counted on an append-only event log: embedding.query, clubs.apply and
 clubs.create. One admission is one transaction: begin (which fixes now() and so the event's
 timestamp), lock the quota scope, count, append, commit. Transactions get the lock in any order,
 so timestamps in the log need not ascend.
 */
module ActionQuota {
  import opened Common
  import opened Ledger

  type Member = nat

  datatype Action = EmbeddingQuery | ClubsApply | ClubsCreate

  datatype Key = Key(member: Member, action: Action)

  datatype LoggedEvent = LoggedEvent(key: Key, createdAt: nat)

  datatype QuotaPhase =
    | QuotaBegan(key: Key, start: nat)
    | QuotaLocked(key: Key, start: nat)
    | QuotaAppended(key: Key, start: nat)

  datatype QuotaState = QuotaState(
    now: nat, log: seq<LoggedEvent>, callers: map<Caller, QuotaPhase>, locks: map<LockId, Caller>)

  datatype QuotaConfig = QuotaConfig(limits: Action -> Limits, lockKey: Key -> LockId)

  datatype QuotaEvent =
    | Pass(ms: nat)
    | Start(caller: Caller, key: Key)
    | Lock(caller: Caller)
    | CountAndAppend(caller: Caller)
    | Commit(caller: Caller)
    | RollBack(caller: Caller)

  /** How many of the key's logged events fall in [from, to]; the count query has no upper end. */
  function EventsIn(log: seq<LoggedEvent>, key: Key, from: int, to: int): nat {
    if log == [] then 0
    else
      var last := log[|log| - 1];
      EventsIn(log[..|log| - 1], key, from, to)
        + (if last.key == key && from <= last.createdAt <= to then 1 else 0)
  }

  function EventsSince(log: seq<LoggedEvent>, key: Key, from: int): nat {
    if log == [] then 0
    else
      var last := log[|log| - 1];
      EventsSince(log[..|log| - 1], key, from) + (if last.key == key && from <= last.createdAt then 1 else 0)
  }

  predicate HasRoom(c: QuotaConfig, log: seq<LoggedEvent>, key: Key, start: nat) {
    forall w: Window :: EventsSince(log, key, start - Span(w)) < c.limits(key.action).Max(w)
  }

  function QuotaApply(c: QuotaConfig, s: QuotaState, e: QuotaEvent): QuotaState {
    match e
    case Pass(ms) => s.(now := s.now + ms)
    case Start(t, key) =>
      if t in s.callers then s else s.(callers := s.callers[t := QuotaBegan(key, s.now)])
    case Lock(t) =>
      if t in s.callers && s.callers[t].QuotaBegan? && c.lockKey(s.callers[t].key) !in s.locks then
        var p := s.callers[t];
        s.(callers := s.callers[t := QuotaLocked(p.key, p.start)],
           locks := s.locks[c.lockKey(p.key) := t])
      else s
    case CountAndAppend(t) =>
      if t in s.callers && s.callers[t].QuotaLocked? then
        var p := s.callers[t];
        if HasRoom(c, s.log, p.key, p.start)
        then s.(callers := s.callers[t := QuotaAppended(p.key, p.start)])
        else Finish(c, s, t)
      else s
    case Commit(t) =>
      // Only now do other transactions see the appended event.
      if t in s.callers && s.callers[t].QuotaAppended? then
        Finish(c, s.(log := s.log + [LoggedEvent(s.callers[t].key, s.callers[t].start)]), t)
      else s
    case RollBack(t) => if t in s.callers then Finish(c, s, t) else s
  }

  function Finish(c: QuotaConfig, s: QuotaState, t: Caller): QuotaState
    requires t in s.callers
  {
    s.(callers := s.callers - {t},
       locks := if s.callers[t].QuotaBegan? then s.locks else s.locks - {c.lockKey(s.callers[t].key)})
  }

  function QuotaRun(c: QuotaConfig, es: seq<QuotaEvent>): QuotaState {
    if es == [] then QuotaState(0, [], map[], map[])
    else QuotaApply(c, QuotaRun(c, es[..|es| - 1]), es[|es| - 1])
  }

  /** Every logged event found room among the events committed before it. */
  ghost predicate Admissible(c: QuotaConfig, log: seq<LoggedEvent>) {
    forall i :: 0 <= i < |log| ==> HasRoom(c, log[..i], log[i].key, log[i].createdAt)
  }

  ghost predicate QuotaInv(c: QuotaConfig, s: QuotaState) {
    && Admissible(c, s.log)
    && (forall t :: t in s.callers && !s.callers[t].QuotaBegan? ==>
          c.lockKey(s.callers[t].key) in s.locks && s.locks[c.lockKey(s.callers[t].key)] == t)
    && (forall t :: t in s.callers && s.callers[t].QuotaAppended? ==>
          HasRoom(c, s.log, s.callers[t].key, s.callers[t].start))
  }

  lemma RoomUnaffected(c: QuotaConfig, log: seq<LoggedEvent>, e: LoggedEvent, key: Key, start: nat)
    requires e.key != key && HasRoom(c, log, key, start)
    ensures HasRoom(c, log + [e], key, start)
  {
    assert (log + [e])[..|log|] == log;
  }

  lemma QuotaStep(c: QuotaConfig, s: QuotaState, e: QuotaEvent)
    requires QuotaInv(c, s)
    ensures QuotaInv(c, QuotaApply(c, s, e))
  {
    if e.Commit? && e.caller in s.callers && s.callers[e.caller].QuotaAppended? {
      var p := s.callers[e.caller];
      var s' := QuotaApply(c, s, e);
      var row := LoggedEvent(p.key, p.start);
      assert s'.log == s.log + [row];
      forall i | 0 <= i < |s'.log| ensures HasRoom(c, s'.log[..i], s'.log[i].key, s'.log[i].createdAt) {
        assert s'.log[..i] == s.log[..i];
        if i == |s.log| {
          assert s.log[..i] == s.log;
        }
      }
      forall t | t in s'.callers && s'.callers[t].QuotaAppended?
        ensures HasRoom(c, s'.log, s'.callers[t].key, s'.callers[t].start)
      {
        RoomUnaffected(c, s.log, row, s'.callers[t].key, s'.callers[t].start);
      }
    }
  }

  lemma {:induction false} QuotaRunKeepsInv(c: QuotaConfig, es: seq<QuotaEvent>)
    ensures QuotaInv(c, QuotaRun(c, es))
  {
    if es != [] {
      QuotaRunKeepsInv(c, es[..|es| - 1]);
      QuotaStep(c, QuotaRun(c, es[..|es| - 1]), es[|es| - 1]);
    }
  }

  lemma {:induction false} IntervalWithinCount(log: seq<LoggedEvent>, key: Key, from: int, to: int, since: int)
    requires since <= from
    ensures EventsIn(log, key, from, to) <= EventsSince(log, key, since)
  {
    if log != [] {
      IntervalWithinCount(log[..|log| - 1], key, from, to, since);
    }
  }

  /** The event committed last in an interval counted all the others that fall in it. */
  lemma {:induction false} AdmissibleIntervals(c: QuotaConfig, log: seq<LoggedEvent>, key: Key, w: Window, from: int)
    requires Admissible(c, log)
    ensures EventsIn(log, key, from, from + Span(w)) <= c.limits(key.action).Max(w)
  {
    if log != [] {
      var n := |log| - 1;
      var last := log[n];
      if last.key == key && from <= last.createdAt <= from + Span(w) {
        assert HasRoom(c, log[..n], last.key, last.createdAt);
        IntervalWithinCount(log[..n], key, from, from + Span(w), last.createdAt - Span(w));
      } else {
        assert Admissible(c, log[..n]) by {
          forall i | 0 <= i < n ensures HasRoom(c, log[..n][..i], log[..n][i].key, log[..n][i].createdAt) {
            assert log[..n][..i] == log[..i];
          }
        }
        AdmissibleIntervals(c, log[..n], key, w, from);
      }
    }
  }

  /** Which of the log's events are the key's and fall in [from, to]. */
  ghost function Logged(log: seq<LoggedEvent>, key: Key, from: int, to: int): set<nat> {
    set i: nat | i < |log| && log[i].key == key && from <= log[i].createdAt <= to
  }

  ghost function LoggedSince(log: seq<LoggedEvent>, key: Key, from: int): set<nat> {
    set i: nat | i < |log| && log[i].key == key && from <= log[i].createdAt
  }

  lemma {:induction false} EventsInIsLogged(log: seq<LoggedEvent>, key: Key, from: int, to: int)
    ensures EventsIn(log, key, from, to) == |Logged(log, key, from, to)|
  {
    if log != [] {
      var n := |log| - 1;
      EventsInIsLogged(log[..n], key, from, to);
      AddedIndex(Logged(log[..n], key, from, to), Logged(log, key, from, to), n);
    }
  }

  lemma {:induction false} EventsSinceIsLogged(log: seq<LoggedEvent>, key: Key, from: int)
    ensures EventsSince(log, key, from) == |LoggedSince(log, key, from)|
  {
    if log != [] {
      var n := |log| - 1;
      EventsSinceIsLogged(log[..n], key, from);
      AddedIndex(LoggedSince(log[..n], key, from), LoggedSince(log, key, from), n);
    }
  }

  /** The key's events of the last day, the last seven and the last thirty are each fewer than the maximum. */
  ghost predicate RoomInEachWindow(limits: Limits, log: seq<LoggedEvent>, key: Key, start: nat) {
    && |LoggedSince(log, key, start - 86_400_000)| < limits.day
    && |LoggedSince(log, key, start - 604_800_000)| < limits.week
    && |LoggedSince(log, key, start - 2_592_000_000)| < limits.month
  }

  lemma RoomMeans(c: QuotaConfig, log: seq<LoggedEvent>, key: Key, start: nat)
    ensures HasRoom(c, log, key, start) <==> RoomInEachWindow(c.limits(key.action), log, key, start)
  {
    EventsSinceIsLogged(log, key, start - 86_400_000);
    EventsSinceIsLogged(log, key, start - 604_800_000);
    EventsSinceIsLogged(log, key, start - 2_592_000_000);
    assert HasRoom(c, log, key, start) <==> forall w: Window {:trigger Span(w)} ::
      EventsSince(log, key, start - Span(w)) < c.limits(key.action).Max(w);
    assert Span(Day) == 86_400_000 && Span(Week) == 604_800_000 && Span(Month) == 2_592_000_000;
  }

  /**
   In every run, every closed interval of a day, seven days or thirty holds at most that window's maximum of
   admitted events of one member and action, in whatever order their timestamps were committed.
   */
  lemma SlidingWindowQuota(c: QuotaConfig, es: seq<QuotaEvent>, key: Key, from: int)
    ensures var log, limits := QuotaRun(c, es).log, c.limits(key.action);
      && |Logged(log, key, from, from + 86_400_000)| <= limits.day
      && |Logged(log, key, from, from + 604_800_000)| <= limits.week
      && |Logged(log, key, from, from + 2_592_000_000)| <= limits.month
  {
    QuotaRunKeepsInv(c, es);
    AdmissibleInterval(c, QuotaRun(c, es).log, key, Day, from);
    AdmissibleInterval(c, QuotaRun(c, es).log, key, Week, from);
    AdmissibleInterval(c, QuotaRun(c, es).log, key, Month, from);
  }

  lemma AdmissibleInterval(c: QuotaConfig, log: seq<LoggedEvent>, key: Key, w: Window, from: int)
    requires Admissible(c, log)
    ensures |Logged(log, key, from, from + Span(w))| <= c.limits(key.action).Max(w)
  {
    AdmissibleIntervals(c, log, key, w, from);
    EventsInIsLogged(log, key, from, from + Span(w));
  }

  // ---- One admission that nothing interrupts ------------------------------------------------------

  lemma QuotaRunAppend(c: QuotaConfig, es: seq<QuotaEvent>, e: QuotaEvent)
    ensures QuotaRun(c, es + [e]) == QuotaApply(c, QuotaRun(c, es), e)
  {
    assert (es + [e])[..|es|] == es;
  }

  function AdmissionEvents(t: Caller, key: Key): seq<QuotaEvent> {
    [Start(t, key)] + [Lock(t)] + [CountAndAppend(t)] + [Commit(t)]
  }

  lemma CountAndCommit(c: QuotaConfig, s: QuotaState, t: Caller, key: Key)
    requires t !in s.callers && c.lockKey(key) !in s.locks
    ensures var locked := QuotaApply(c, QuotaApply(c, s, Start(t, key)), Lock(t));
      QuotaApply(c, QuotaApply(c, locked, CountAndAppend(t)), Commit(t)) ==
        if HasRoom(c, s.log, key, s.now) then s.(log := s.log + [LoggedEvent(key, s.now)]) else s
  {
    var lock := c.lockKey(key);
    var locked := QuotaApply(c, QuotaApply(c, s, Start(t, key)), Lock(t));
    var held := s.callers[t := QuotaLocked(key, s.now)];
    assert s.callers[t := QuotaBegan(key, s.now)][t := QuotaLocked(key, s.now)] == held;
    assert locked == s.(callers := held, locks := s.locks[lock := t]);
    assert held - {t} == s.callers && s.locks[lock := t] - {lock} == s.locks;
    assert held[t := QuotaAppended(key, s.now)] - {t} == s.callers;
  }

  /**
   The four steps of an admission that nothing interrupts log it exactly if the last day, the last seven and the
   last thirty each have room for it, and leave nothing else behind.
   */
  lemma UninterruptedAdmission(c: QuotaConfig, es: seq<QuotaEvent>, t: Caller, key: Key)
    requires t !in QuotaRun(c, es).callers && c.lockKey(key) !in QuotaRun(c, es).locks
    ensures var s := QuotaRun(c, es);
      QuotaRun(c, es + AdmissionEvents(t, key)) ==
        if RoomInEachWindow(c.limits(key.action), s.log, key, s.now) then s.(log := s.log + [LoggedEvent(key, s.now)])
        else s
  {
    AdmissionRuns(c, es, t, key);
    RoomMeans(c, QuotaRun(c, es).log, key, QuotaRun(c, es).now);
  }

  lemma AdmissionRuns(c: QuotaConfig, es: seq<QuotaEvent>, t: Caller, key: Key)
    requires t !in QuotaRun(c, es).callers && c.lockKey(key) !in QuotaRun(c, es).locks
    ensures var s := QuotaRun(c, es);
      QuotaRun(c, es + AdmissionEvents(t, key)) ==
        if HasRoom(c, s.log, key, s.now) then s.(log := s.log + [LoggedEvent(key, s.now)]) else s
  {
    AdmissionSteps(c, es, t, key);
    CountAndCommit(c, QuotaRun(c, es), t, key);
  }

  lemma AdmissionSteps(c: QuotaConfig, es: seq<QuotaEvent>, t: Caller, key: Key)
    ensures var locked := QuotaApply(c, QuotaApply(c, QuotaRun(c, es), Start(t, key)), Lock(t));
      QuotaRun(c, es + AdmissionEvents(t, key)) == QuotaApply(c, QuotaApply(c, locked, CountAndAppend(t)), Commit(t))
  {
    assert es + AdmissionEvents(t, key) == es + [Start(t, key)] + [Lock(t)] + [CountAndAppend(t)] + [Commit(t)];
    QuotaRunAppend(c, es, Start(t, key));
    QuotaRunAppend(c, es + [Start(t, key)], Lock(t));
    QuotaRunAppend(c, es + [Start(t, key)] + [Lock(t)], CountAndAppend(t));
    QuotaRunAppend(c, es + [Start(t, key)] + [Lock(t)] + [CountAndAppend(t)], Commit(t));
  }

  // ---- The operation, uninterrupted ------------------------------------------------------------

  class EventLog {
    var log: seq<LoggedEvent>

    constructor ()
      ensures log == []
    {
      log := [];
    }

    /** Appends exactly one event when there is room, and nothing otherwise. */
    method EnforceActionQuota(c: QuotaConfig, key: Key, start: nat) returns (admitted: bool)
      modifies this
      ensures admitted <==> RoomInEachWindow(c.limits(key.action), old(log), key, start)
      ensures log == if admitted then old(log) + [LoggedEvent(key, start)] else old(log)
      ensures Admissible(c, old(log)) ==> Admissible(c, log)
    {
      RoomMeans(c, log, key, start);
      var limits := c.limits(key.action);
      var usedDay := EventsSince(log, key, start - Span(Day));
      var usedWeek := EventsSince(log, key, start - Span(Week));
      var usedMonth := EventsSince(log, key, start - Span(Month));
      if usedDay >= limits.Max(Day) || usedWeek >= limits.Max(Week) || usedMonth >= limits.Max(Month) {
        return false;
      }
      assert HasRoom(c, log, key, start);
      ghost var before := log;
      log := log + [LoggedEvent(key, start)];
      assert log[..|before|] == before;
      assert forall i :: 0 <= i < |before| ==> log[..i] == before[..i];
      return true;
    }
  }
}
