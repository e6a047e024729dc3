/** Value wrappers shared by the model: an optional value and the three ways a
    JavaScript promise can end up (resolved, rejected, or never settled). */
module Wrappers {

  datatype Option<+T> = None | Some(value: T)

  /** The observable fate of a promise. `Rejected(None)` is `Promise.reject()`
      with no reason (the reason is `undefined`). */
  datatype Settled<+T> = Pending | Resolved(value: T) | Rejected(reason: Option<string>)

  /** What `"..." + e` produces for a rejection reason: JavaScript turns an
      `undefined` reason into the text "undefined". */
  function ReasonText(reason: Option<string>): string
  {
    match reason
    case Some(t) => t
    case None => "undefined"
  }
}
