/**
 The client-key barrier: a lock on a key held on a session of its own from before the gate until after the
 handler. Everything a call does under its key, storing a terminal error or executing, happens inside, one
 thing after the other. If the database drops the session, the lock is gone and the call goes on.
 */
module Barrier {
  import opened Common
  import opened Idempotency

  type Session = nat

  /** `working` holds the key of every call inside, `held` the sessions that still have their lock. */
  datatype World = World(inner: State, working: map<Session, Key>, held: map<LockId, Session>)

  datatype Step =
    | Enter(session: Session, key: Key)
    | Act(session: Session, event: Event)
    | LoseSession(session: Session)
    | Leave(session: Session)

  /** A caller is known by its session. */
  predicate Allowed(w: World, session: Session, e: Event) {
    && session in w.working
    && match e
       case Begin(t, call) => t == session && call.key == w.working[session]
       case Lock(t) => t == session
       case Lookup(t) => t == session
       case Execute(t, _) => t == session
       case InsertAndCommit(t, _) => t == session
       case Abort(t) => t == session
       case StoreTerminal(key, _, _) => key == w.working[session] && session !in w.inner.callers
  }

  function WithoutHeld(w: World, barrierKey: Key -> LockId, session: Session): map<LockId, Session>
    requires session in w.working
  {
    var lock := barrierKey(w.working[session]);
    if lock in w.held && w.held[lock] == session then w.held - {lock} else w.held
  }

  function Next(barrierKey: Key -> LockId, lockKey: Key -> LockId, w: World, step: Step): World {
    match step
    case Enter(session, key) =>
      if session in w.working || barrierKey(key) in w.held then w
      else w.(working := w.working[session := key], held := w.held[barrierKey(key) := session])
    case Act(session, e) => if Allowed(w, session, e) then w.(inner := Apply(lockKey, w.inner, e)) else w
    case LoseSession(session) =>
      if session in w.working then w.(held := WithoutHeld(w, barrierKey, session)) else w
    case Leave(session) =>
      if session in w.working && session !in w.inner.callers then
        w.(working := w.working - {session}, held := WithoutHeld(w, barrierKey, session))
      else w
  }

  function Steps(barrierKey: Key -> LockId, lockKey: Key -> LockId, steps: seq<Step>): World {
    if steps == [] then World(INIT, map[], map[])
    else Next(barrierKey, lockKey, Steps(barrierKey, lockKey, steps[..|steps| - 1]), steps[|steps| - 1])
  }

  /** No call of `key` loses its session. */
  predicate KeepsSessions(barrierKey: Key -> LockId, lockKey: Key -> LockId, steps: seq<Step>, key: Key) {
    steps == []
    || (var w := Steps(barrierKey, lockKey, steps[..|steps| - 1]);
        var last := steps[|steps| - 1];
        && KeepsSessions(barrierKey, lockKey, steps[..|steps| - 1], key)
        && (last.LoseSession? ==> last.session !in w.working || w.working[last.session] != key))
  }

  /** All calls of `key` have their lock, so there is only one; its caller is inside; and its miss still stands. */
  ghost predicate Protected(barrierKey: Key -> LockId, w: World, key: Key) {
    && (forall session :: session in w.working && w.working[session] == key ==>
          barrierKey(key) in w.held && w.held[barrierKey(key)] == session)
    && (forall t :: t in w.inner.callers ==> t in w.working && w.inner.callers[t].call.key == w.working[t])
    && (forall t :: t in w.inner.callers && w.inner.callers[t].call.key == key ==> MissStands(w.inner, t))
    && (forall i :: 0 <= i < |w.inner.finished| && w.inner.finished[i].call.key == key ==>
          !w.inner.finished[i].outcome.UniqueViolation?)
  }

  predicate MissStands(s: State, t: Caller)
    requires t in s.callers
  {
    s.callers[t].Missed? || s.callers[t].Staged? ==> s.callers[t].call.key !in s.table
  }

  /** What a step of caller `t` can do to callers, rows and outcomes. */
  lemma ActorOnly(lockKey: Key -> LockId, s: State, e: Event, t: Caller)
    requires !e.StoreTerminal? && e.caller == t
    ensures var s' := Apply(lockKey, s, e);
      && (forall u :: u != t ==> (u in s'.callers <==> u in s.callers))
      && (forall u :: u != t && u in s.callers ==> s'.callers[u] == s.callers[u])
      && (t in s.callers && t in s'.callers ==> s'.callers[t].call == s.callers[t].call)
      && (t in s'.callers && t !in s.callers ==> e.Begin? && s'.callers[t] == Began(e.call))
      && (forall key :: key in s'.table && key !in s.table ==>
            t in s.callers && key == s.callers[t].call.key && t !in s'.callers)
  {
  }

  lemma ActorOutcome(lockKey: Key -> LockId, s: State, e: Event, t: Caller)
    requires !e.StoreTerminal? && e.caller == t && (t in s.callers ==> MissStands(s, t))
    ensures var s' := Apply(lockKey, s, e);
      && (t in s'.callers ==> MissStands(s', t))
      && s.finished <= s'.finished
      && forall i :: |s.finished| <= i < |s'.finished| ==> !s'.finished[i].outcome.UniqueViolation?
  {
  }

  lemma OwnStepProtects(barrierKey: Key -> LockId, lockKey: Key -> LockId, w: World, session: Session,
                        e: Event, key: Key)
    requires Protected(barrierKey, w, key) && Allowed(w, session, e) && !e.StoreTerminal?
    requires w.working[session] == key
    ensures Protected(barrierKey, w.(inner := Apply(lockKey, w.inner, e)), key)
  {
    var s, s' := w.inner, Apply(lockKey, w.inner, e);
    ActorOnly(lockKey, s, e, session);
    ActorOutcome(lockKey, s, e, session);
    forall t | t in s'.callers && s'.callers[t].call.key == key ensures MissStands(s', t) {
      assert w.working[t] == key && t == session;
    }
    forall i | 0 <= i < |s'.finished| && s'.finished[i].call.key == key
      ensures !s'.finished[i].outcome.UniqueViolation?
    {
      if i < |s.finished| {
        assert s'.finished[i] == s.finished[i];
      }
    }
  }

  lemma OtherStepProtects(barrierKey: Key -> LockId, lockKey: Key -> LockId, w: World, session: Session,
                          e: Event, key: Key)
    requires Protected(barrierKey, w, key) && Allowed(w, session, e) && !e.StoreTerminal?
    requires w.working[session] != key
    ensures Protected(barrierKey, w.(inner := Apply(lockKey, w.inner, e)), key)
  {
    var s, s' := w.inner, Apply(lockKey, w.inner, e);
    ActorOnly(lockKey, s, e, session);
    OtherFinishes(lockKey, s, e, session);
    forall t | t in s'.callers && s'.callers[t].call.key == key ensures MissStands(s', t) {
      assert t != session;
      assert MissStands(s, t);
    }
    forall i | 0 <= i < |s'.finished| && s'.finished[i].call.key == key
      ensures !s'.finished[i].outcome.UniqueViolation?
    {
      if i < |s.finished| {
        assert s'.finished[i] == s.finished[i];
      }
    }
  }

  lemma OtherFinishes(lockKey: Key -> LockId, s: State, e: Event, t: Caller)
    requires !e.StoreTerminal? && e.caller == t
    ensures var s' := Apply(lockKey, s, e);
      && s.finished <= s'.finished
      && forall i :: |s.finished| <= i < |s'.finished| ==> t in s.callers && s'.finished[i].call == s.callers[t].call
  {
  }

  lemma StoreProtects(barrierKey: Key -> LockId, lockKey: Key -> LockId, w: World, session: Session, e: Event, key: Key)
    requires Protected(barrierKey, w, key) && Allowed(w, session, e) && e.StoreTerminal?
    ensures Protected(barrierKey, w.(inner := Apply(lockKey, w.inner, e)), key)
  {
    var s' := Apply(lockKey, w.inner, e);
    forall t | t in s'.callers && s'.callers[t].call.key == key ensures MissStands(s', t) {
      assert w.working[t] == key && MissStands(w.inner, t);
      assert e.key == key ==> t == session;
    }
  }

  lemma EnterOrLeaveProtects(barrierKey: Key -> LockId, lockKey: Key -> LockId, w: World, step: Step, key: Key)
    requires Protected(barrierKey, w, key) && !step.Act?
    requires step.LoseSession? ==> step.session !in w.working || w.working[step.session] != key
    ensures Protected(barrierKey, Next(barrierKey, lockKey, w, step), key)
  {
  }

  lemma {:induction false} RunsAreProtected(barrierKey: Key -> LockId, lockKey: Key -> LockId, steps: seq<Step>,
                                            key: Key)
    requires KeepsSessions(barrierKey, lockKey, steps, key)
    ensures Protected(barrierKey, Steps(barrierKey, lockKey, steps), key)
  {
    if steps != [] {
      var front, last := steps[..|steps| - 1], steps[|steps| - 1];
      var w := Steps(barrierKey, lockKey, front);
      RunsAreProtected(barrierKey, lockKey, front, key);
      if !last.Act? {
        EnterOrLeaveProtects(barrierKey, lockKey, w, last, key);
      } else if Allowed(w, last.session, last.event) {
        if last.event.StoreTerminal? {
          StoreProtects(barrierKey, lockKey, w, last.session, last.event, key);
        } else if w.working[last.session] == key {
          OwnStepProtects(barrierKey, lockKey, w, last.session, last.event, key);
        } else {
          OtherStepProtects(barrierKey, lockKey, w, last.session, last.event, key);
        }
      }
    }
  }

  /**
   Under the barrier nobody executes in vain: as long as no call of the key loses its session, a caller that
   missed finds the key still free, and no call of it ends in a violation of the key's uniqueness.
   */
  lemma NoExecutionInVain(barrierKey: Key -> LockId, lockKey: Key -> LockId, steps: seq<Step>, key: Key)
    requires KeepsSessions(barrierKey, lockKey, steps, key)
    ensures var s := Steps(barrierKey, lockKey, steps).inner;
      && (forall t :: t in s.callers && s.callers[t].call.key == key ==>
            (s.callers[t].Missed? || s.callers[t].Staged? ==> key !in s.table))
      && (forall i :: 0 <= i < |s.finished| && s.finished[i].call.key == key ==>
            !s.finished[i].outcome.UniqueViolation?)
  {
    RunsAreProtected(barrierKey, lockKey, steps, key);
    var s := Steps(barrierKey, lockKey, steps).inner;
    forall t | t in s.callers && s.callers[t].call.key == key && (s.callers[t].Missed? || s.callers[t].Staged?)
      ensures key !in s.table
    {
      assert MissStands(s, t);
    }
  }

  // ---- A lost session -----------------------------------------------------------------------------

  function Locks(): Key -> LockId {
    (key: Key) => 0
  }

  lemma StepsAppend(steps: seq<Step>, step: Step)
    ensures Steps(Locks(), Locks(), steps + [step]) == Next(Locks(), Locks(), Steps(Locks(), Locks(), steps), step)
  {
    assert (steps + [step])[..|steps|] == steps;
  }

  /** A call that lost its session is still in its gate when another one of the key has looked and found nothing. */
  lemma SecondCallMisses(key: Key, call: Call, start: seq<Step>) returns (steps: seq<Step>)
    requires call.key == key && Steps(Locks(), Locks(), start) == World(INIT, map[], map[])
    ensures Steps(Locks(), Locks(), steps) ==
      World(INIT.(callers := map[2 := Missed(call)], locks := map[0 := 2]), map[1 := key, 2 := key], map[0 := 2])
  {
    StepsAppend(start, Enter(1, key));
    steps := start + [Enter(1, key)];
    StepsAppend(steps, LoseSession(1));
    steps := steps + [LoseSession(1)];
    assert map[0 := 1] - {0} == map[];
    StepsAppend(steps, Enter(2, key));
    steps := steps + [Enter(2, key)];
    var w := World(INIT, map[1 := key, 2 := key], map[0 := 2]);
    assert Steps(Locks(), Locks(), steps) == w;
    steps := LooksUpUnder(w, steps, call);
  }

  lemma LooksUpUnder(w: World, start: seq<Step>, call: Call) returns (steps: seq<Step>)
    requires w.inner == INIT && 2 in w.working && w.working[2] == call.key
    requires Steps(Locks(), Locks(), start) == w
    ensures Steps(Locks(), Locks(), steps) ==
      w.(inner := INIT.(callers := map[2 := Missed(call)], locks := map[0 := 2]))
  {
    StepsAppend(start, Act(2, Begin(2, call)));
    steps := start + [Act(2, Begin(2, call))];
    assert Steps(Locks(), Locks(), steps) == w.(inner := INIT.(callers := map[2 := Began(call)]));
    StepsAppend(steps, Act(2, Lock(2)));
    steps := steps + [Act(2, Lock(2))];
    var locked := INIT.(callers := map[2 := Locked(call)], locks := map[0 := 2]);
    assert Steps(Locks(), Locks(), steps) == w.(inner := locked);
    StepsAppend(steps, Act(2, Lookup(2)));
    steps := steps + [Act(2, Lookup(2))];
  }

  /** Then the first one stores its terminal error, and the second one executes in vain. */
  lemma LostSessionWastesExecution(key: Key, call: Call, error: AppError, body: Execution) returns (steps: seq<Step>)
    requires call.key == key && body.Produces?
    ensures Steps(Locks(), Locks(), steps).inner.finished == [Finished(call, UniqueViolation)]
    ensures Steps(Locks(), Locks(), steps).inner.commits == []
  {
    steps := SecondCallMisses(key, call, []);
    var w := Steps(Locks(), Locks(), steps);
    var store := Act(1, StoreTerminal(key, call.request, error));
    StepsAppend(steps, store);
    steps := steps + [store];
    var stored := w.inner.(table := map[key := StoredRow(call.request, TerminalError(error))]);
    assert Steps(Locks(), Locks(), steps) == w.(inner := stored);
    StepsAppend(steps, Act(2, Execute(2, body)));
    steps := steps + [Act(2, Execute(2, body))];
    assert Steps(Locks(), Locks(), steps) == w.(inner := stored.(callers := map[2 := Staged(call, body)]));
    StepsAppend(steps, Act(2, InsertAndCommit(2, false)));
    steps := steps + [Act(2, InsertAndCommit(2, false))];
  }
}
