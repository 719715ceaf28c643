/** Small datatypes shared by the modules of the project. */
module Wrappers {
  /** The source's `Option`: a panic-free "no answer". */
  datatype Option<+T> = None | Some(value: T)

  /** The result of kernel code that may stop: no memory left, or a failed assertion. */
  datatype Outcome<+T> = Ok(value: T) | OutOfMemory | Panic {
    predicate IsFailure() { !Ok? }

    function PropagateFailure<U>(): Outcome<U>
      requires IsFailure()
    {
      if OutOfMemory? then OutOfMemory else Panic
    }

    function Extract(): T
      requires Ok?
    {
      value
    }
  }
}
