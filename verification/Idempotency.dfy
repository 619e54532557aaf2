/**
 Exactly-once execution under a client key. Any number of callers of any keys interleave step by
 step and may abort at any point; storing a terminal error takes no lock. The request itself stands
 for its hash.
 */
module Idempotency {
  import opened Common

  type Value = string
  type AppError = string
  type Caller = nat
  type LockId = nat

  datatype Key = Key(actorContext: string, clientKey: string)

  datatype Envelope = Success(value: Value) | TerminalError(error: AppError)

  datatype StoredRow = StoredRow(request: Value, envelope: Envelope)

  /** `secretReplay`: replaying the stored value is refused, since the first response held a secret. */
  datatype Call = Call(key: Key, request: Value, secretReplay: bool)

  /** What the body produces; `stored` replaces the response in the row when given. */
  datatype Execution = Produces(response: Value, stored: Option<Value>) | Fails(error: AppError)

  function StoredValue(x: Execution): Value
    requires x.Produces?
  {
    if x.stored.Some? then x.stored.value else x.response
  }

  /** `ReplyLost`: the commit was applied, but the caller only saw its connection fail. */
  datatype Outcome =
    | Executed(response: Value)
    | Replayed(value: Value)
    | SecretReplayUnavailable(stored: Value)
    | ThrewStored(error: AppError)
    | ClientKeyConflict(prior: Envelope)
    | ExecutionFailed(error: AppError)
    | UniqueViolation
    | Aborted
    | ReplyLost

  /** What a caller with `call` gets from a row that is already there. */
  function FromRow(call: Call, row: StoredRow): Outcome {
    if row.request != call.request then ClientKeyConflict(row.envelope)
    else match row.envelope
      case TerminalError(error) => ThrewStored(error)
      case Success(value) => if call.secretReplay then SecretReplayUnavailable(value) else Replayed(value)
  }

  datatype Phase =
    | Began(call: Call)
    | Locked(call: Call)
    | Missed(call: Call)
    | Staged(call: Call, execution: Execution)

  datatype Commit = Commit(key: Key, request: Value, execution: Execution)

  datatype Finished = Finished(call: Call, outcome: Outcome)

  datatype State = State(
    table: map<Key, StoredRow>,
    commits: seq<Commit>,
    callers: map<Caller, Phase>,
    locks: map<LockId, Caller>,
    finished: seq<Finished>)

  datatype Event =
    | Begin(caller: Caller, call: Call)
    | Lock(caller: Caller)
    | Lookup(caller: Caller)
    | Execute(caller: Caller, execution: Execution)
    | InsertAndCommit(caller: Caller, replyLost: bool)
    | Abort(caller: Caller)
    | StoreTerminal(key: Key, request: Value, error: AppError)

  const INIT := State(map[], [], map[], map[], [])

  function End(lockKey: Key -> LockId, s: State, t: Caller, outcome: Outcome): State
    requires t in s.callers
  {
    s.(callers := s.callers - {t},
       locks := if s.callers[t].Began? then s.locks else s.locks - {lockKey(s.callers[t].call.key)},
       finished := s.finished + [Finished(s.callers[t].call, outcome)])
  }

  /** One step; `lockKey` is the hash of the lock name, so distinct keys may share a lock. */
  function Apply(lockKey: Key -> LockId, s: State, e: Event): State {
    match e
    case Begin(t, call) => if t in s.callers then s else s.(callers := s.callers[t := Began(call)])
    case Lock(t) =>
      if t in s.callers && s.callers[t].Began? && lockKey(s.callers[t].call.key) !in s.locks then
        s.(callers := s.callers[t := Locked(s.callers[t].call)],
           locks := s.locks[lockKey(s.callers[t].call.key) := t])
      else s
    case Lookup(t) =>
      if t in s.callers && s.callers[t].Locked? then
        var call := s.callers[t].call;
        if call.key in s.table then End(lockKey, s, t, FromRow(call, s.table[call.key]))
        else s.(callers := s.callers[t := Missed(call)])
      else s
    case Execute(t, x) =>
      if t in s.callers && s.callers[t].Missed? then
        if x.Fails? then End(lockKey, s, t, ExecutionFailed(x.error))
        else s.(callers := s.callers[t := Staged(s.callers[t].call, x)])
      else s
    case InsertAndCommit(t, replyLost) =>
      if t in s.callers && s.callers[t].Staged? && s.callers[t].execution.Produces? then
        var Staged(call, x) := s.callers[t];
        if call.key in s.table then End(lockKey, s, t, UniqueViolation)
        else
          var row := StoredRow(call.request, Success(StoredValue(x)));
          End(lockKey,
              s.(table := s.table[call.key := row], commits := s.commits + [Commit(call.key, call.request, x)]),
              t, if replyLost then ReplyLost else Executed(x.response))
      else s
    case Abort(t) => if t in s.callers then End(lockKey, s, t, Aborted) else s
    case StoreTerminal(key, request, error) =>
      if key in s.table then s
      else s.(table := s.table[key := StoredRow(request, TerminalError(error))])
  }

  function Run(lockKey: Key -> LockId, es: seq<Event>): State {
    if es == [] then INIT else Apply(lockKey, Run(lockKey, es[..|es| - 1]), es[|es| - 1])
  }

  // ---- What holds in every state ------------------------------------------------------------------

  function CommitsOf(commits: seq<Commit>, key: Key): nat {
    if commits == [] then 0
    else CommitsOf(commits[..|commits| - 1], key) + if commits[|commits| - 1].key == key then 1 else 0
  }

  /** A key has a row holding a value exactly when one execution of it was committed, that one. */
  ghost predicate CommitMatchesRow(s: State, key: Key) {
    && CommitsOf(s.commits, key) == (if key in s.table && s.table[key].envelope.Success? then 1 else 0)
    && (forall i :: 0 <= i < |s.commits| && s.commits[i].key == key ==>
          && key in s.table && s.commits[i].execution.Produces?
          && s.table[key] == StoredRow(s.commits[i].request, Success(StoredValue(s.commits[i].execution))))
  }

  ghost predicate CommitsMatchRows(s: State) {
    forall key: Key :: CommitMatchesRow(s, key)
  }

  ghost predicate LocksHeld(lockKey: Key -> LockId, s: State) {
    forall t :: t in s.callers && !s.callers[t].Began? ==>
      && lockKey(s.callers[t].call.key) in s.locks
      && s.locks[lockKey(s.callers[t].call.key)] == t
  }

  /** Between a miss and the insert only a terminal error can have taken the key. */
  ghost predicate MissesStand(s: State) {
    forall t ::
      (t in s.callers && (s.callers[t].Missed? || s.callers[t].Staged?) && s.callers[t].call.key in s.table)
      ==> s.table[s.callers[t].call.key].envelope.TerminalError?
  }

  /** A row answers only the request it was stored for, and tells any other one of a conflict. */
  predicate IsAnswer(row: StoredRow, call: Call, outcome: Outcome) {
    match outcome
    case ClientKeyConflict(prior) => call.request != row.request && prior == row.envelope
    case Replayed(value) => row == StoredRow(call.request, Success(value)) && !call.secretReplay
    case SecretReplayUnavailable(value) => row == StoredRow(call.request, Success(value)) && call.secretReplay
    case ThrewStored(error) => row == StoredRow(call.request, TerminalError(error))
    case _ => false
  }

  /** A finished call's outcome agrees with what is recorded for its key. */
  ghost predicate Justified(s: State, f: Finished) {
    match f.outcome
    case Executed(response) =>
      exists i :: 0 <= i < |s.commits| && s.commits[i].key == f.call.key
        && s.commits[i].request == f.call.request
        && s.commits[i].execution.Produces? && s.commits[i].execution.response == response
    case ReplyLost =>
      exists i :: 0 <= i < |s.commits| && s.commits[i].key == f.call.key && s.commits[i].request == f.call.request
    case UniqueViolation => f.call.key in s.table && s.table[f.call.key].envelope.TerminalError?
    case ExecutionFailed(_) => true
    case Aborted => true
    case _ => f.call.key in s.table && IsAnswer(s.table[f.call.key], f.call, f.outcome)
  }

  ghost predicate Inv(lockKey: Key -> LockId, s: State) {
    && CommitsMatchRows(s) && LocksHeld(lockKey, s) && MissesStand(s)
    && forall i :: 0 <= i < |s.finished| ==> Justified(s, s.finished[i])
  }

  /** Rows are never changed or lost, commits and outcomes only appended. */
  ghost predicate Grows(s: State, s': State) {
    && (forall key :: key in s.table ==> key in s'.table && s'.table[key] == s.table[key])
    && s.commits <= s'.commits && s.finished <= s'.finished
  }

  lemma ApplyGrows(lockKey: Key -> LockId, s: State, e: Event)
    ensures Grows(s, Apply(lockKey, s, e))
  {
  }

  lemma JustifiedPersists(s: State, s': State, f: Finished)
    requires Grows(s, s') && Justified(s, f)
    ensures Justified(s', f)
  {
    if f.outcome.Executed? {
      var i :| 0 <= i < |s.commits| && s.commits[i].key == f.call.key
        && s.commits[i].request == f.call.request
        && s.commits[i].execution.Produces? && s.commits[i].execution.response == f.outcome.response;
      assert s'.commits[i] == s.commits[i];
    } else if f.outcome.ReplyLost? {
      var i :| 0 <= i < |s.commits| && s.commits[i].key == f.call.key && s.commits[i].request == f.call.request;
      assert s'.commits[i] == s.commits[i];
    }
  }

  lemma CommitsAppend(commits: seq<Commit>, x: Commit, key: Key)
    ensures CommitsOf(commits + [x], key) == CommitsOf(commits, key) + if x.key == key then 1 else 0
  {
    assert (commits + [x])[..|commits|] == commits;
  }

  /** A step that commits records one execution, of a key that had no row. */
  lemma CommitShape(lockKey: Key -> LockId, s: State, e: Event)
    ensures var s' := Apply(lockKey, s, e);
      s'.commits == s.commits
      || (e.InsertAndCommit? && e.caller in s.callers && s.callers[e.caller].Staged?
          && var Staged(call, x) := s.callers[e.caller];
          && x.Produces? && call.key !in s.table
          && s'.commits == s.commits + [Commit(call.key, call.request, x)]
          && s'.table == s.table[call.key := StoredRow(call.request, Success(StoredValue(x)))])
    ensures Apply(lockKey, s, e).commits == s.commits ==>
      forall key :: key in Apply(lockKey, s, e).table && key !in s.table ==>
        Apply(lockKey, s, e).table[key].envelope.TerminalError?
  {
  }

  lemma CommitsStep(lockKey: Key -> LockId, s: State, e: Event, key: Key)
    requires CommitMatchesRow(s, key)
    ensures CommitMatchesRow(Apply(lockKey, s, e), key)
  {
    var s' := Apply(lockKey, s, e);
    CommitShape(lockKey, s, e);
    ApplyGrows(lockKey, s, e);
    if s'.commits != s.commits {
      CommitsAppend(s.commits, s'.commits[|s.commits|], key);
    }
  }

  lemma FinishedStep(lockKey: Key -> LockId, s: State, e: Event)
    requires Inv(lockKey, s)
    ensures var s' := Apply(lockKey, s, e); forall i :: 0 <= i < |s'.finished| ==> Justified(s', s'.finished[i])
  {
    var s' := Apply(lockKey, s, e);
    ApplyGrows(lockKey, s, e);
    forall i | 0 <= i < |s'.finished| ensures Justified(s', s'.finished[i]) {
      if i < |s.finished| {
        assert s'.finished[i] == s.finished[i];
        JustifiedPersists(s, s', s.finished[i]);
      } else if s'.finished[i].outcome.Executed? || s'.finished[i].outcome.ReplyLost? {
        assert s'.commits[|s.commits|].key == s'.finished[i].call.key;
      }
    }
  }

  lemma LockStep(lockKey: Key -> LockId, s: State, e: Event)
    requires LocksHeld(lockKey, s) && MissesStand(s)
    ensures LocksHeld(lockKey, Apply(lockKey, s, e)) && MissesStand(Apply(lockKey, s, e))
  {
  }

  lemma {:induction false} RunKeepsInv(lockKey: Key -> LockId, es: seq<Event>)
    ensures Inv(lockKey, Run(lockKey, es))
  {
    if es != [] {
      var s := Run(lockKey, es[..|es| - 1]);
      var e := es[|es| - 1];
      RunKeepsInv(lockKey, es[..|es| - 1]);
      forall key: Key ensures CommitMatchesRow(Apply(lockKey, s, e), key) {
        assert CommitMatchesRow(s, key);
        CommitsStep(lockKey, s, e, key);
      }
      FinishedStep(lockKey, s, e);
      LockStep(lockKey, s, e);
    }
  }

  /**
   Exactly once: in every run at most one execution of a key is committed, and it is committed if
   and only if the key's row, holding that execution's request and stored value, is.
   */
  lemma ExactlyOnce(lockKey: Key -> LockId, es: seq<Event>, key: Key)
    ensures var s := Run(lockKey, es);
      && CommitsOf(s.commits, key) <= 1
      && (CommitsOf(s.commits, key) == 1 <==> key in s.table && s.table[key].envelope.Success?)
      && forall i :: 0 <= i < |s.commits| && s.commits[i].key == key && s.commits[i].execution.Produces? ==>
           var x := s.commits[i].execution;
           key in s.table && s.table[key].request == s.commits[i].request
           && s.table[key].envelope == Success(if x.stored.Some? then x.stored.value else x.response)
  {
    RunKeepsInv(lockKey, es);
    assert CommitMatchesRow(Run(lockKey, es), key);
  }

  /**
   Whoever returns normally either committed the one execution of its key or got what that row
   stores for an equal request; whoever got a conflict had sent a different request.
   */
  lemma OutcomesAreJustified(lockKey: Key -> LockId, es: seq<Event>, i: nat)
    requires i < |Run(lockKey, es).finished|
    ensures Justified(Run(lockKey, es), Run(lockKey, es).finished[i])
  {
    RunKeepsInv(lockKey, es);
  }

  lemma RunSplit(lockKey: Key -> LockId, es: seq<Event>, fs: seq<Event>, e: Event)
    ensures Run(lockKey, es + (fs + [e])) == Apply(lockKey, Run(lockKey, es + fs), e)
  {
    assert (es + (fs + [e]))[..|es + fs|] == es + fs;
  }

  predicate AnsweredFrom(row: StoredRow, f: Finished) {
    || IsAnswer(row, f.call, f.outcome)
    || f.outcome.ExecutionFailed? || f.outcome.UniqueViolation? || f.outcome.Aborted?
  }

  /** From `s`, where `key` has a row, to `s'`: no further commit of it, and only that row's answers. */
  ghost predicate Settled(s: State, s': State, key: Key)
    requires key in s.table
  {
    && Grows(s, s')
    && CommitsOf(s'.commits, key) == CommitsOf(s.commits, key)
    && forall i :: |s.finished| <= i < |s'.finished| && s'.finished[i].call.key == key ==>
         AnsweredFrom(s.table[key], s'.finished[i])
  }

  lemma FinishesWithRow(lockKey: Key -> LockId, s: State, e: Event, key: Key)
    requires key in s.table
    ensures var s' := Apply(lockKey, s, e);
      |s'.finished| <= |s.finished| + 1
      && forall i :: |s.finished| <= i < |s'.finished| && s'.finished[i].call.key == key ==>
           AnsweredFrom(s.table[key], s'.finished[i])
  {
  }

  lemma SettledStep(lockKey: Key -> LockId, s: State, e: Event, key: Key)
    requires key in s.table
    ensures Settled(s, Apply(lockKey, s, e), key)
  {
    var s' := Apply(lockKey, s, e);
    ApplyGrows(lockKey, s, e);
    FinishesWithRow(lockKey, s, e, key);
    CommitShape(lockKey, s, e);
    if s'.commits != s.commits {
      CommitsAppend(s.commits, s'.commits[|s.commits|], key);
    }
  }

  lemma SettledTransitive(s: State, m: State, s': State, key: Key)
    requires key in s.table && Settled(s, m, key) && Settled(m, s', key)
    ensures Settled(s, s', key)
  {
    forall i | |s.finished| <= i < |s'.finished| && s'.finished[i].call.key == key
      ensures AnsweredFrom(s.table[key], s'.finished[i])
    {
      if i < |m.finished| {
        assert m.finished[i] == s'.finished[i];
      }
    }
  }

  /**
   Once a key has a row, everyone who finishes later gets that row's answer or fails outright; who sent another
   request is told of the conflict, or fails.
   */
  lemma {:induction false} LaterCallers(lockKey: Key -> LockId, es: seq<Event>, fs: seq<Event>, key: Key)
    requires key in Run(lockKey, es).table
    ensures Settled(Run(lockKey, es), Run(lockKey, es + fs), key)
  {
    if fs == [] {
      assert es + fs == es;
    } else {
      var gs, e := fs[..|fs| - 1], fs[|fs| - 1];
      assert fs == gs + [e];
      LaterCallers(lockKey, es, gs, key);
      RunSplit(lockKey, es, gs, e);
      SettledStep(lockKey, Run(lockKey, es + gs), e, key);
      SettledTransitive(Run(lockKey, es), Run(lockKey, es + gs), Run(lockKey, es + fs), key);
    }
  }

  /** The lock's part: nobody executes in vain unless a terminal error was stored meanwhile. */
  lemma NoWastedExecution(lockKey: Key -> LockId, es: seq<Event>, t: Caller)
    requires var s := Run(lockKey, es);
      t in s.callers && s.callers[t].Staged? && s.callers[t].execution.Produces?
    requires var s := Run(lockKey, es);
      var key := s.callers[t].call.key; key in s.table ==> s.table[key].envelope.Success?
    ensures var s := Run(lockKey, es); var s' := Run(lockKey, es + [InsertAndCommit(t, false)]);
      |s'.commits| == |s.commits| + 1 && s'.finished[|s.finished|..] ==
        [Finished(s.callers[t].call, Executed(s.callers[t].execution.response))]
  {
    RunKeepsInv(lockKey, es);
    RunSplit(lockKey, es, [], InsertAndCommit(t, false));
    assert es + ([] + [InsertAndCommit(t, false)]) == es + [InsertAndCommit(t, false)];
    assert es + [] == es;
  }

  // ---- A lost reply ------------------------------------------------------------------------------

  /** Nobody with this key is past its lookup. */
  ghost predicate NoneExecuting(s: State, key: Key) {
    forall u :: u in s.callers && s.callers[u].call.key == key ==> s.callers[u].Began? || s.callers[u].Locked?
  }

  /** Whoever finished since `s` with this key got the row's answer, or was aborted. */
  ghost predicate AnsweredSince(s: State, s': State, key: Key)
    requires key in s.table
  {
    |s.finished| <= |s'.finished|
    && forall i :: |s.finished| <= i < |s'.finished| && s'.finished[i].call.key == key ==>
         IsAnswer(s.table[key], s'.finished[i].call, s'.finished[i].outcome) || s'.finished[i].outcome == Aborted
  }

  lemma AnsweredStep(lockKey: Key -> LockId, s: State, e: Event, key: Key)
    requires key in s.table && NoneExecuting(s, key)
    ensures var s' := Apply(lockKey, s, e);
      NoneExecuting(s', key) && AnsweredSince(s, s', key) && key in s'.table && s'.table[key] == s.table[key]
      && s.finished <= s'.finished
  {
    ApplyGrows(lockKey, s, e);
  }

  lemma {:induction false} AnsweredLater(lockKey: Key -> LockId, es: seq<Event>, fs: seq<Event>, key: Key)
    requires key in Run(lockKey, es).table && NoneExecuting(Run(lockKey, es), key)
    ensures var s, s' := Run(lockKey, es), Run(lockKey, es + fs);
      NoneExecuting(s', key) && AnsweredSince(s, s', key) && key in s'.table && s'.table[key] == s.table[key]
  {
    if fs == [] {
      assert es + fs == es;
    } else {
      var gs, e := fs[..|fs| - 1], fs[|fs| - 1];
      assert fs == gs + [e];
      AnsweredLater(lockKey, es, gs, key);
      RunSplit(lockKey, es, gs, e);
      var m, s' := Run(lockKey, es + gs), Run(lockKey, es + fs);
      AnsweredStep(lockKey, m, e, key);
      assert forall i :: 0 <= i < |m.finished| ==> s'.finished[i] == m.finished[i];
    }
  }

  lemma LostCommit(lockKey: Key -> LockId, s: State, t: Caller)
    requires LocksHeld(lockKey, s) && t in s.callers && s.callers[t].Staged? && s.callers[t].execution.Produces?
    requires s.callers[t].call.key !in s.table
    ensures var call, x := s.callers[t].call, s.callers[t].execution;
      var s' := Apply(lockKey, s, InsertAndCommit(t, true));
      && s'.finished == s.finished + [Finished(call, ReplyLost)]
      && s'.commits == s.commits + [Commit(call.key, call.request, x)]
      && call.key in s'.table && s'.table[call.key] == StoredRow(call.request, Success(StoredValue(x)))
      && NoneExecuting(s', call.key)
  {
  }

  /**
   A caller whose commit was applied, but who never heard of it, can retry: whoever finishes later with the same
   key and request, and is not aborted, gets the stored value of that commit, or is told that it cannot be replayed.
   */
  lemma RetryReplays(lockKey: Key -> LockId, es: seq<Event>, t: Caller, fs: seq<Event>, i: nat)
    requires var s := Run(lockKey, es);
      t in s.callers && s.callers[t].Staged? && s.callers[t].execution.Produces? && s.callers[t].call.key !in s.table
    requires |Run(lockKey, es).finished| + 1 <= i < |Run(lockKey, es + [InsertAndCommit(t, true)] + fs).finished|
    requires var call := Run(lockKey, es).callers[t].call;
      var f := Run(lockKey, es + [InsertAndCommit(t, true)] + fs).finished[i];
      f.call.key == call.key && f.call.request == call.request
    ensures var s' := Run(lockKey, es + [InsertAndCommit(t, true)] + fs);
      var x := Run(lockKey, es).callers[t].execution;
      var stored := if x.stored.Some? then x.stored.value else x.response;
      s'.finished[i].outcome ==
        (if s'.finished[i].outcome == Aborted then Aborted
         else if s'.finished[i].call.secretReplay then SecretReplayUnavailable(stored) else Replayed(stored))
  {
    var s := Run(lockKey, es);
    var lost := es + [InsertAndCommit(t, true)];
    RunKeepsInv(lockKey, es);
    RunSplit(lockKey, es, [], InsertAndCommit(t, true));
    assert es + ([] + [InsertAndCommit(t, true)]) == lost && es + [] == es;
    LostCommit(lockKey, s, t);
    AnsweredLater(lockKey, lost, fs, s.callers[t].call.key);
  }

  // ---- The operation, uninterrupted ------------------------------------------------------------

  predicate Idle(s: State) {
    s.callers == map[] && s.locks == map[]
  }

  /** The steps of one call that nothing interrupts. */
  function CallEvents(table: map<Key, StoredRow>, call: Call, body: Execution): seq<Event> {
    [Begin(0, call)] + [Lock(0)] + [Lookup(0)]
    + if call.key in table then [] else [Execute(0, body)] + if body.Fails? then [] else [InsertAndCommit(0, false)]
  }

  /** What one call leaves of an idle state: the answer, and on a miss with a result the effect and its row. */
  function Called(s: State, call: Call, body: Execution): State {
    if call.key in s.table then s.(finished := s.finished + [Finished(call, FromRow(call, s.table[call.key]))])
    else if body.Fails? then s.(finished := s.finished + [Finished(call, ExecutionFailed(body.error))])
    else s.(table := s.table[call.key := StoredRow(call.request, Success(StoredValue(body)))],
            commits := s.commits + [Commit(call.key, call.request, body)],
            finished := s.finished + [Finished(call, Executed(body.response))])
  }

  lemma RunAppend(lockKey: Key -> LockId, es: seq<Event>, e: Event)
    ensures Run(lockKey, es + [e]) == Apply(lockKey, Run(lockKey, es), e)
  {
    assert (es + [e])[..|es|] == es;
  }

  lemma LooksUp(lockKey: Key -> LockId, s: State, call: Call)
    requires Idle(s)
    ensures var lock := lockKey(call.key);
      var locked := s.(callers := map[0 := Locked(call)], locks := map[lock := 0]);
      && Apply(lockKey, Apply(lockKey, s, Begin(0, call)), Lock(0)) == locked
      && Apply(lockKey, locked, Lookup(0)) ==
           if call.key in s.table then s.(finished := s.finished + [Finished(call, FromRow(call, s.table[call.key]))])
           else locked.(callers := map[0 := Missed(call)])
  {
    var lock := lockKey(call.key);
    var began := Apply(lockKey, s, Begin(0, call));
    assert began == s.(callers := map[0 := Began(call)]);
    var locked := s.(callers := map[0 := Locked(call)], locks := map[lock := 0]);
    assert Apply(lockKey, began, Lock(0)) == locked;
    assert map[0 := Locked(call)] - {0} == map[] && map[lock := 0] - {lock} == map[];
  }

  lemma Executes(lockKey: Key -> LockId, s: State, call: Call, body: Execution)
    requires Idle(s) && call.key !in s.table
    ensures var lock := lockKey(call.key);
      var missed := s.(callers := map[0 := Missed(call)], locks := map[lock := 0]);
      var staged := missed.(callers := map[0 := Staged(call, body)]);
      Apply(lockKey, missed, Execute(0, body)) == (if body.Fails? then Called(s, call, body) else staged)
      && (body.Produces? ==> Apply(lockKey, staged, InsertAndCommit(0, false)) == Called(s, call, body))
  {
    var lock := lockKey(call.key);
    assert map[0 := Missed(call)] - {0} == map[] && map[lock := 0] - {lock} == map[];
    assert map[0 := Staged(call, body)] - {0} == map[];
  }

  lemma CallEventsSplit(es: seq<Event>, table: map<Key, StoredRow>, call: Call, body: Execution)
    ensures var looked := es + [Begin(0, call)] + [Lock(0)] + [Lookup(0)];
      es + CallEvents(table, call, body) ==
        if call.key in table then looked
        else looked + [Execute(0, body)] + if body.Fails? then [] else [InsertAndCommit(0, false)]
  {
  }

  lemma RunsToLookup(lockKey: Key -> LockId, es: seq<Event>, call: Call)
    requires Idle(Run(lockKey, es))
    ensures var s := Run(lockKey, es);
      Run(lockKey, es + [Begin(0, call)] + [Lock(0)] + [Lookup(0)]) ==
        if call.key in s.table then s.(finished := s.finished + [Finished(call, FromRow(call, s.table[call.key]))])
        else s.(callers := map[0 := Missed(call)], locks := map[lockKey(call.key) := 0])
  {
    RunAppend(lockKey, es, Begin(0, call));
    RunAppend(lockKey, es + [Begin(0, call)], Lock(0));
    RunAppend(lockKey, es + [Begin(0, call)] + [Lock(0)], Lookup(0));
    LooksUp(lockKey, Run(lockKey, es), call);
  }

  lemma RunsToCommit(lockKey: Key -> LockId, s: State, es: seq<Event>, call: Call, body: Execution)
    requires Idle(s) && call.key !in s.table
    requires Run(lockKey, es) == s.(callers := map[0 := Missed(call)], locks := map[lockKey(call.key) := 0])
    ensures var commit := if body.Fails? then [] else [InsertAndCommit(0, false)];
      Run(lockKey, es + [Execute(0, body)] + commit) == Called(s, call, body)
  {
    Executes(lockKey, s, call, body);
    RunAppend(lockKey, es, Execute(0, body));
    if body.Fails? {
      assert es + [Execute(0, body)] + [] == es + [Execute(0, body)];
    } else {
      RunAppend(lockKey, es + [Execute(0, body)], InsertAndCommit(0, false));
    }
  }

  /** One call, from a state in which no other is open, is the run of its steps. */
  lemma CallIsRun(lockKey: Key -> LockId, es: seq<Event>, call: Call, body: Execution)
    requires Idle(Run(lockKey, es))
    ensures var s := Run(lockKey, es); Run(lockKey, es + CallEvents(s.table, call, body)) == Called(s, call, body)
  {
    var s := Run(lockKey, es);
    CallEventsSplit(es, s.table, call, body);
    RunsToLookup(lockKey, es, call);
    if call.key !in s.table {
      RunsToCommit(lockKey, s, es + [Begin(0, call)] + [Lock(0)] + [Lookup(0)], call, body);
    }
  }

  /** The key table; `effects` is what committed executions did, and `trace` a run they come from. */
  class Store {
    var table: map<Key, StoredRow>
    var effects: seq<Commit>
    ghost const lockKey: Key -> LockId
    ghost var trace: seq<Event>

    ghost function Reached(): State
      reads this
    {
      Run(lockKey, trace)
    }

    ghost predicate Valid()
      reads this
    {
      Reached().table == table && Reached().commits == effects && Idle(Reached())
    }

    /** Every key has at most one effect, and has it exactly if its row holds that effect's request and value. */
    ghost predicate OncePerKey()
      reads this
    {
      forall key: Key {:trigger CommitsOf(effects, key)} ::
        && CommitsOf(effects, key) == (if key in table && table[key].envelope.Success? then 1 else 0)
        && forall i :: 0 <= i < |effects| && effects[i].key == key ==>
             && key in table && effects[i].execution.Produces?
             && table[key] == StoredRow(effects[i].request, Success(StoredValue(effects[i].execution)))
    }

    lemma ValidIsOncePerKey()
      requires Valid()
      ensures OncePerKey()
    {
      RunKeepsInv(lockKey, trace);
      assert forall key: Key {:trigger CommitsOf(effects, key)} :: CommitMatchesRow(Reached(), key);
    }

    constructor (ghost lockKey: Key -> LockId)
      ensures table == map[] && effects == []
      ensures Valid() && OncePerKey()
    {
      this.lockKey := lockKey;
      table, effects, trace := map[], [], [];
      new;
      ValidIsOncePerKey();
    }

    /** A hit returns what was stored for this very request; a stored value is that of the key's one effect. */
    method LookupIdempotency(key: Key, request: Value) returns (r: Result<Option<Envelope>, Envelope>)
      requires Valid()
      ensures r == Ok(None) <==> key !in table
      ensures r.Err? <==> key in table && table[key].request != request
      ensures key in table ==> r == Err(table[key].envelope) || r == Ok(Some(table[key].envelope))
      ensures r.Ok? && r.value.Some? && r.value.value.Success? ==>
        exists i :: 0 <= i < |effects| && effects[i].key == key && effects[i].request == request
          && effects[i].execution.Produces? && StoredValue(effects[i].execution) == r.value.value.value
    {
      if key !in table {
        return Ok(None);
      }
      var row := table[key];
      if row.request != request {
        return Err(row.envelope);
      }
      if row.envelope.Success? {
        ValidIsOncePerKey();
        CommitExists(effects, key);
      }
      return Ok(Some(row.envelope));
    }

    /** Executes only on a miss; the effect and the row appear together or not at all. It is the run of its steps. */
    method WithIdempotency(call: Call, body: Execution) returns (outcome: Outcome)
      requires Valid()
      modifies this
      ensures Valid() && OncePerKey()
      ensures trace == old(trace) + CallEvents(old(table), call, body)
      ensures Reached().finished == old(Reached().finished) + [Finished(call, outcome)]
      ensures call.key in old(table) ==>
        IsAnswer(old(table)[call.key], call, outcome) && table == old(table) && effects == old(effects)
      ensures outcome.ClientKeyConflict? <==> call.key in old(table) && old(table)[call.key].request != call.request
      ensures call.key !in old(table) && body.Fails? ==>
        outcome == ExecutionFailed(body.error) && table == old(table) && effects == old(effects)
      ensures call.key !in old(table) && body.Produces? ==>
        && outcome == Executed(body.response)
        && table == old(table)[call.key :=
             StoredRow(call.request, Success(if body.stored.Some? then body.stored.value else body.response))]
        && effects == old(effects) + [Commit(call.key, call.request, body)]
    {
      ghost var before := Reached();
      CallIsRun(lockKey, trace, call, body);
      outcome := LookUpOrExecute(call, body);
      assert Called(before, call, body).finished[|before.finished|] == Finished(call, outcome);
      trace := trace + CallEvents(old(table), call, body);
      ValidIsOncePerKey();
    }

    method LookUpOrExecute(call: Call, body: Execution) returns (outcome: Outcome)
      requires Valid()
      modifies this`table, this`effects
      ensures table == Called(old(Reached()), call, body).table
      ensures effects == Called(old(Reached()), call, body).commits
      ensures Called(old(Reached()), call, body).finished == old(Reached().finished) + [Finished(call, outcome)]
    {
      var existing := LookupIdempotency(call.key, call.request);
      match existing {
        case Err(prior) => return ClientKeyConflict(prior);
        case Ok(Some(TerminalError(error))) => return ThrewStored(error);
        case Ok(Some(Success(value))) =>
          return if call.secretReplay then SecretReplayUnavailable(value) else Replayed(value);
        case Ok(None) =>
      }
      if body.Fails? {
        return ExecutionFailed(body.error);
      }
      table := table[call.key := StoredRow(call.request, Success(StoredValue(body)))];
      effects := effects + [Commit(call.key, call.request, body)];
      return Executed(body.response);
    }

    /** Takes the key for an error unless it is taken, and leaves at most one effect a key. */
    method StoreTerminalIdempotencyError(key: Key, request: Value, error: AppError) returns (stored: bool)
      requires Valid()
      modifies this
      ensures Valid() && OncePerKey() && trace == old(trace) + [StoreTerminal(key, request, error)]
      ensures stored <==> key !in old(table)
      ensures table == if stored then old(table)[key := StoredRow(request, TerminalError(error))] else old(table)
      ensures effects == old(effects)
    {
      RunAppend(lockKey, trace, StoreTerminal(key, request, error));
      stored := key !in table;
      if stored {
        table := table[key := StoredRow(request, TerminalError(error))];
      }
      trace := trace + [StoreTerminal(key, request, error)];
      ValidIsOncePerKey();
    }
  }

  lemma {:induction false} CommitExists(commits: seq<Commit>, key: Key)
    requires CommitsOf(commits, key) > 0
    ensures exists i :: 0 <= i < |commits| && commits[i].key == key
  {
    var last := |commits| - 1;
    if commits[last].key != key {
      CommitExists(commits[..last], key);
      var i :| 0 <= i < last && commits[..last][i].key == key;
      assert commits[i].key == key;
    }
  }
}
