/** Shared outcome datatypes: Python's `None`-able values and the
    return-or-raise results of the collaborators the pipeline calls. */
module Common {

  /** A nullable value (a SQL NULL or a Python `None`). */
  datatype Option<+T> = None | Some(value: T) {
    /** The value, or `default` when absent (Python's `x or default` on a present value). */
    function GetOr(default: T): T {
      match this
      case Some(v) => v
      case None => default
    }
  }

  /** A call that either returns a value or raises an exception with a message. */
  datatype Result<+T> = Ok(value: T) | Err(message: string)

  /** Elements of a sequence, with no repetition. */
  predicate NoDup<T(==)>(s: seq<T>) {
    forall i, j :: 0 <= i < j < |s| ==> s[i] != s[j]
  }
}
