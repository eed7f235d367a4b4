/** Values shared by the two packages of the inventory backend: Go's
 *  value-or-nil results, the error kinds the repositories report, the opaque
 *  float column, and the store's freedom to fail any statement. */
module Common {

  datatype Option<T> = None | Some(value: T)

  /** The repository step that failed. Each one wraps the driver's error in a
   *  message of its own, so the step is all a caller can tell apart. */
  datatype StoreFailure =
    | CreateFailed     // the INSERT was refused
    | GetAllFailed     // the SELECT of the list query was refused
    | ScanFailed       // a listed row could not be scanned into the entity
    | IterationFailed  // the row iterator reported an error once it stopped
    | GetFailed        // the SELECT by id failed for a reason other than "no rows"
    | UpdateFailed     // the UPDATE was refused
    | DeleteFailed     // the DELETE was refused

  /** An error value: the package's not-found sentinel, or a wrapped store failure. */
  datatype Error = NotFound | StoreError(failure: StoreFailure)

  /** Go's `(value, error)` result pair; `None` stands for nil. */
  datatype Reply<T> = Reply(value: Option<T>, err: Option<Error>)

  function Ok<T>(v: T): Reply<T> { Reply(Some(v), None) }

  function Fail<T>(e: Error): Reply<T> { Reply(None, Some(e)) }

  /** A pair in the shape every repository method returns: a value exactly
   *  when there is no error. */
  predicate WellFormed<T>(r: Reply<T>) { r.err.None? <==> r.value.Some? }

  /** A float64 column value, kept as its bit pattern: stored and echoed, never computed on. */
  datatype Float64 = Float64(bits: bv64)

  /** The guard both use cases put on a repository's reply before returning
   *  it: on an error, a nil result and that same error; otherwise the value. */
  function Propagate<T>(from: Reply<T>): (r: Reply<T>)
    ensures r.err == from.err
    ensures r.err.Some? ==> r.value.None?
    ensures r.err.None? ==> r.value == from.value
    ensures WellFormed(from) ==> r == from
  {
    if from.err.Some? then Reply(None, from.err) else Reply(from.value, None)
  }

  /** Whether the store refuses the statement at hand (lost connection, a
   *  constraint, a malformed query, ...). Nothing is known about the answer. */
  method StoreFails() returns (failed: bool)
  {
    failed :| true;
  }
}
