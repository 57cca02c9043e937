/** Failure-compatible wrappers shared by every module of the helpdesk model: optional values,
    fields of a partial update, the error kinds the handlers raise, and handler results. */
module Base {

  /** A value that may be absent: Python's `Optional[...]`, a nullable column, a missing key. */
  datatype Option<+T> = None | Some(value: T) {

    /** The value when present, otherwise the given default. */
    function GetOr(default: T): T {
      match this
      case Some(v) => v
      case None => default
    }
  }

  /** One field of a partial update as `model_dump(exclude_unset=True)` sees it: either left out
      of the request, or sent, possibly with an explicit null. */
  datatype Patch<+T> = Unset | Set(value: T)

  /** The error kinds the helpdesk raises. Each names the condition, not the HTTP status. */
  datatype Error =
    | NotFound            // ticket or user absent (404), or `scalar_one` found no row
    | Forbidden           // role or ownership check failed (403)
    | Unauthenticated     // token missing, undecodable, or without a subject (401)
    | BadCredentials      // login: unknown user, no password hash, or wrong password (401)
    | ValidationFailed    // a request schema rejected the payload (422)
    | DuplicateUsername   // registration: username already taken (400)
    | DuplicateEmail      // registration: email already taken (400)
    | IntegrityViolation  // a unique column constraint rejected the write at commit
    | InvalidInteger      // Python `int(...)` raised ValueError
    | MissingFormField    // the chat session lacked a key the submit step indexes (KeyError)

  /** The outcome of a handler: its value, or the error it raised. A failed handler writes nothing. */
  datatype Result<+T> = Success(value: T) | Failure(error: Error) {

    predicate IsFailure() {
      Failure?
    }

    function PropagateFailure<U>(): Result<U>
      requires Failure?
    {
      Failure(error)
    }

    function Extract(): T
      requires Success?
    {
      value
    }
  }

  /** The elements of `xs` that satisfy `p`, in their original order. */
  function Filter<T(!new)>(xs: seq<T>, p: T -> bool): (r: seq<T>)
    ensures |r| <= |xs|
    ensures forall x :: x in r <==> x in xs && p(x)
  {
    if |xs| == 0 then []
    else (if p(xs[0]) then [xs[0]] else []) + Filter(xs[1..], p)
  }
}
