/** The promise discipline every extraction step follows: the step's work runs
    inside `new Promise((resolve, reject) => ...)`, and calls to `reject` are
    not followed by `return`, so the code keeps running after an error. A
    promise settles only once: the first `resolve` or `reject` reached decides
    the step's result and every later call is ignored. */
module Settlement {

  /** The error codes the connector reports. */
  datatype ErrorKind = InvalidCredentials | InstitutionRequestError

  /** The state of a step's promise: not yet settled, resolved with data, or
      rejected with an error code. */
  datatype Outcome<+T> = Unsettled | Resolved(value: T) | Rejected(error: ErrorKind)

  /** A `resolve(...)` or `reject(...)` call: it takes effect only if the
      promise has not settled yet. */
  function Settle<T>(current: Outcome<T>, call: Outcome<T>): Outcome<T> {
    if current.Unsettled? then call else current
  }

  /** The state after a sequence of calls, made in order, on a fresh promise. */
  function SettleAll<T>(calls: seq<Outcome<T>>): Outcome<T>
    decreases |calls|
  {
    if calls == [] then Unsettled
    else Settle(SettleAll(calls[..|calls| - 1]), calls[|calls| - 1])
  }

  /** The first settling call wins: whatever comes after it is ignored. */
  lemma {:induction false} FirstCallWins<T>(calls: seq<Outcome<T>>, k: nat)
    requires k < |calls| && !calls[k].Unsettled?
    requires forall j :: 0 <= j < k ==> calls[j].Unsettled?
    ensures SettleAll(calls) == calls[k]
    decreases |calls|
  {
    if |calls| - 1 == k {
      NothingSettles(calls[..k]);
    } else {
      FirstCallWins(calls[..|calls| - 1], k);
    }
  }

  /** A promise stays unsettled exactly when none of the calls settles it. */
  lemma {:induction false} NothingSettles<T>(calls: seq<Outcome<T>>)
    ensures SettleAll(calls).Unsettled? <==> forall j :: 0 <= j < |calls| ==> calls[j].Unsettled?
    decreases |calls|
  {
    if calls != [] {
      NothingSettles(calls[..|calls| - 1]);
      assert forall j :: 0 <= j < |calls| - 1 ==> calls[..|calls| - 1][j] == calls[j];
    }
  }
}
