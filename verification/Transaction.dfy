/** The transaction runner: begin, body, commit or roll back, and retry serialization failures. */
module Transaction {
  import opened Common

  type Code = string

  const SERIALIZATION_FAILURE: Code := "40001"

  /**
   What one attempt meets. A commit that fails may still have been applied (a lost reply), except
   that a serialization failure always means it was not. `rollback` is the failure of ROLLBACK, if any.
   */
  datatype Attempt<+T> =
    | ConnectFails(code: Code)
    | BeginFails(code: Code)
    | BodyFails(code: Code, rollback: Option<Code>)
    | CommitFails(code: Code, applied: bool, rollback: Option<Code>)
    | Commits(value: T)

  predicate Plausible<T>(plan: nat -> Attempt<T>, n: nat) {
    forall i: nat :: i < n && plan(i).CommitFails? && plan(i).code == SERIALIZATION_FAILURE ==> !plan(i).applied
  }

  /** ROLLBACK is sent when a transaction is open, or a commit failed other than by serialization. */
  predicate RollsBack<T>(a: Attempt<T>) {
    a.BodyFails? || (a.CommitFails? && a.code != SERIALIZATION_FAILURE)
  }

  predicate Retryable<T>(a: Attempt<T>) {
    && (a.BeginFails? || a.BodyFails? || a.CommitFails?)
    && a.code == SERIALIZATION_FAILURE
    && (RollsBack(a) ==> a.rollback.None?)
  }

  predicate Applied<T>(a: Attempt<T>) {
    a.Commits? || (a.CommitFails? && a.applied)
  }

  function CountApplied<T>(plan: nat -> Attempt<T>, n: nat): nat {
    if n == 0 then 0 else CountApplied(plan, n - 1) + if Applied(plan(n - 1)) then 1 else 0
  }

  function CountRollbacks<T>(plan: nat -> Attempt<T>, n: nat): nat {
    if n == 0 then 0 else CountRollbacks(plan, n - 1) + if RollsBack(plan(n - 1)) then 1 else 0
  }

  /**
   Runs attempts until the first that is not retryable, at most `retryLimit + 1` of them. At most
   one is ever applied, exactly one when a value is returned, and every connection is given back.
   */
  method WithTransaction<T>(plan: nat -> Attempt<T>, retrySerializationFailures: int)
    returns (r: Result<T, Code>, attempts: nat, acquired: nat, released: nat, rollbacks: nat)
    ensures var retryLimit := if retrySerializationFailures < 0 then 0 else retrySerializationFailures;
      && 1 <= attempts <= retryLimit + 1
      && (forall i: nat :: i < attempts - 1 ==> Retryable(plan(i)))
      && (attempts <= retryLimit ==> !Retryable(plan(attempts - 1)))
    // What is retried: a serialization failure after the connection, unless its rollback failed.
    ensures forall i: nat :: i < attempts - 1 ==>
      && (plan(i).BeginFails? || plan(i).BodyFails? || plan(i).CommitFails?) && plan(i).code == "40001"
      && (plan(i).BodyFails? ==> plan(i).rollback.None?)
    // A failing rollback, sent for a failed body or for a commit that failed otherwise, hides the failure.
    ensures r ==
      match plan(attempts - 1)
      case Commits(value) => Ok(value)
      case ConnectFails(code) => Err(code)
      case BeginFails(code) => Err(code)
      case BodyFails(code, rollback) => Err(if rollback.Some? then rollback.value else code)
      case CommitFails(code, _, rollback) => Err(if code != "40001" && rollback.Some? then rollback.value else code)
    // A serialization failure means that nothing was applied; then nothing was, before the last attempt.
    ensures (forall i: nat :: i < attempts && plan(i).CommitFails? && plan(i).code == "40001" ==> !plan(i).applied) ==>
      forall i: nat :: i < attempts - 1 ==> !plan(i).Commits? && (plan(i).CommitFails? ==> !plan(i).applied)
    ensures Plausible(plan, attempts) ==>
      CountApplied(plan, attempts) == (if Applied(plan(attempts - 1)) then 1 else 0)
    ensures r.Ok? && Plausible(plan, attempts) ==> CountApplied(plan, attempts) == 1
    ensures acquired == released
    ensures rollbacks == CountRollbacks(plan, attempts)
  {
    var retryLimit := if retrySerializationFailures < 0 then 0 else retrySerializationFailures;
    var attempt := 0;
    acquired, released, rollbacks := 0, 0, 0;
    while true
      invariant 0 <= attempt <= retryLimit
      invariant acquired == released
      invariant forall i: nat :: i < attempt ==> Retryable(plan(i))
      invariant Plausible(plan, attempt) ==> CountApplied(plan, attempt) == 0
      invariant rollbacks == CountRollbacks(plan, attempt)
      decreases retryLimit - attempt
    {
      var a := plan(attempt);
      attempts := attempt + 1;
      if a.ConnectFails? {
        return Err(a.code), attempts, acquired, released, rollbacks;
      }
      acquired := acquired + 1;
      if a.Commits? {
        released := released + 1;
        return Ok(a.value), attempts, acquired, released, rollbacks;
      }
      var rollbackFailed := false;
      if a.BodyFails? || (a.CommitFails? && a.code != SERIALIZATION_FAILURE) {
        rollbacks := rollbacks + 1;
        rollbackFailed := a.rollback.Some?;
      }
      released := released + 1;
      if rollbackFailed {
        return Err(a.rollback.value), attempts, acquired, released, rollbacks;
      }
      if !(a.code == SERIALIZATION_FAILURE && attempt < retryLimit) {
        return Err(a.code), attempts, acquired, released, rollbacks;
      }
      attempt := attempt + 1;
    }
  }
}
