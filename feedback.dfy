/**
 * The message a view shows after handling a form, and the check the views run on what a
 * store write gives back.
 */
module Feedback {
  import opened Wrappers

  datatype Outcome = Success(message: string) | Failure(message: string)

  /**
   * What `createX`, `updateX` and `deleteX` of the client store give back: they have no
   * `return`, so the value is `undefined`, modelled as `None`.
   */
  const StoreWriteResult: Option<string> := None

  /** `if (!result) { showMessage(failure, 'error') } ... showMessage(success, 'success')`. */
  function CheckWriteResult(result: Option<string>, failure: string, success: string): (o: Outcome)
    ensures o.Failure? <==> result.None?
    ensures o.message == (if result.None? then failure else success)
  {
    if result.None? then Failure(failure) else Success(success)
  }

  /** With the store as it is, every write that did happen is reported as having failed. */
  lemma WriteReportedAsFailure(failure: string, success: string)
    ensures CheckWriteResult(StoreWriteResult, failure, success) == Failure(failure)
  {
  }
}
