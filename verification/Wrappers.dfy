/** Success/failure wrappers shared by every module. */
module Wrappers {
  datatype Option<+T> = None | Some(value: T)

  datatype Result<+T, +E> = Ok(value: T) | Err(error: E)

  /** There is only one way to succeed with nothing to say. */
  lemma OkIsUnit<E>(r: Result<(), E>)
    requires r.Ok?
    ensures r == Ok(())
  {
    match r.value case () =>
  }
}
