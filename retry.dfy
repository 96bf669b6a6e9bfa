/** Exceptions, callee behaviour and the bounded retry shared by
    `DreaminaService._retry_on_stale` and the attempt loops of `generate_image`. */
module Retrying {
  import opened Wrappers

  /** The exceptions the automation tells apart; `msg` is what `str(e)` shows. */
  datatype Exc =
    | Stale(msg: string)    // StaleElementReferenceException
    | Timeout(msg: string)  // TimeoutException
    | Other(msg: string)    // any other Exception

  /** What one call of a callee does: return a value or raise. */
  datatype Attempt<+T> = Returned(value: T) | Raised(exc: Exc)

  /** How a retried call ends: a return (`None` being Python's `None`) or an exception. */
  datatype Completion<+T> = Normal(value: Option<T>) | Thrown(exc: Exc)

  function Deliver<T>(a: Attempt<T>): Completion<T> {
    match a
    case Returned(v) => Normal(Some(v))
    case Raised(e) => Thrown(e)
  }

  /** The call raised an exception the loop catches and retries. */
  predicate Retries<T>(a: Attempt<T>, retryable: Exc -> bool) {
    a.Raised? && retryable(a.exc)
  }

  predicate IsStale(e: Exc) {
    e.Stale?
  }

  /** Result and number of calls of a retry loop from attempt `k` on, where
      `call(j)` is what the callee does at its j-th call. */
  function RetryFrom<T>(call: nat -> Attempt<T>, maxRetries: int, retryable: Exc -> bool, k: nat): (res: (Completion<T>, nat))
    requires k < maxRetries
    ensures 1 <= res.1 <= maxRetries - k
    ensures forall j :: k <= j < k + res.1 - 1 ==> Retries(call(j), retryable)
    ensures res.0 == Deliver(call(k + res.1 - 1))
    ensures Retries(call(k + res.1 - 1), retryable) ==> k + res.1 == maxRetries
    decreases maxRetries - k
  {
    if Retries(call(k), retryable) && k < maxRetries - 1 then
      var rest := RetryFrom(call, maxRetries, retryable, k + 1);
      (rest.0, rest.1 + 1)
    else
      (Deliver(call(k)), 1)
  }

  /** Result and number of calls of `for attempt in range(maxRetries)` around the
      callee: the first call whose outcome is not retryable decides; when every
      call raised a retryable exception, the last one is raised again; with no
      attempts allowed the loop returns None without calling. */
  function Retry<T>(call: nat -> Attempt<T>, maxRetries: int, retryable: Exc -> bool): (res: (Completion<T>, nat))
    ensures res.1 == 0 <==> maxRetries <= 0
    ensures res.1 == 0 ==> res.0 == Normal(None)
    ensures res.1 > 0 ==> res.1 <= maxRetries && res.0 == Deliver(call(res.1 - 1))
    ensures forall j :: 0 <= j < res.1 - 1 ==> Retries(call(j), retryable)
    ensures res.1 > 0 && Retries(call(res.1 - 1), retryable) ==> res.1 == maxRetries
  {
    if maxRetries <= 0 then (Normal(None), 0) else RetryFrom(call, maxRetries, retryable, 0)
  }

  /** A retryable outcome before the last attempt hands over to the next attempt. */
  lemma RetryStep<T>(call: nat -> Attempt<T>, maxRetries: int, retryable: Exc -> bool, k: nat)
    requires k < maxRetries - 1 && Retries(call(k), retryable)
    ensures RetryFrom(call, maxRetries, retryable, k).0 == RetryFrom(call, maxRetries, retryable, k + 1).0
    ensures RetryFrom(call, maxRetries, retryable, k).1 == RetryFrom(call, maxRetries, retryable, k + 1).1 + 1
  {
  }

  /** An outcome that is not retried, or the last allowed one, ends the loop. */
  lemma RetryStop<T>(call: nat -> Attempt<T>, maxRetries: int, retryable: Exc -> bool, k: nat)
    requires k < maxRetries && (!Retries(call(k), retryable) || k == maxRetries - 1)
    ensures RetryFrom(call, maxRetries, retryable, k) == (Deliver(call(k)), 1)
  {
  }

  /** `_retry_on_stale(func, max_retries)`: retries only on stale references. */
  method RetryOnStale<T>(call: nat -> Attempt<T>, maxRetries: int := 3) returns (r: Completion<T>, calls: nat)
    ensures (r, calls) == Retry(call, maxRetries, IsStale)
  {
    var attempt: nat := 0;
    while attempt < maxRetries
      invariant attempt < maxRetries || maxRetries <= 0
      invariant forall j :: 0 <= j < attempt ==> Retries(call(j), IsStale)
      invariant maxRetries > 0 ==>
                  Retry(call, maxRetries, IsStale).0 == RetryFrom(call, maxRetries, IsStale, attempt).0 &&
                  Retry(call, maxRetries, IsStale).1 == RetryFrom(call, maxRetries, IsStale, attempt).1 + attempt
    {
      var outcome := call(attempt);
      match outcome {
        case Returned(v) =>
          return Normal(Some(v)), attempt + 1;
        case Raised(e) =>
          if !IsStale(e) || attempt == maxRetries - 1 {
            return Thrown(e), attempt + 1;
          }
      }
      RetryStep(call, maxRetries, IsStale, attempt);
      attempt := attempt + 1;
    }
    return Normal(None), 0;
  }

  /** A call that is not stale ends the loop with its own outcome, whatever the
      callee would do later. */
  lemma FirstNonStaleDecides<T>(call: nat -> Attempt<T>, maxRetries: int, k: nat)
    requires k < maxRetries
    requires forall j :: 0 <= j < k ==> Retries(call(j), IsStale)
    requires !Retries(call(k), IsStale)
    ensures Retry(call, maxRetries, IsStale) == (Deliver(call(k)), k + 1)
  {
  }

  /** When every allowed call is stale, the last stale exception escapes after
      exactly `maxRetries` calls. */
  lemma AllStaleReraisesLast<T>(call: nat -> Attempt<T>, maxRetries: int)
    requires maxRetries > 0
    requires forall j :: 0 <= j < maxRetries ==> Retries(call(j), IsStale)
    ensures Retry(call, maxRetries, IsStale) == (Thrown(call(maxRetries - 1).exc), maxRetries)
  {
  }
}
