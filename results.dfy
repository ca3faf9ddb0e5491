/** Option and Result wrappers used for the repository's "absent" values and error paths. */
module Results {

  datatype Option<+T> = None | Some(value: T) {
    predicate IsFailure() { None? }

    function PropagateFailure<U>(): Option<U>
      requires None?
    {
      None
    }

    function Extract(): T
      requires Some?
    {
      value
    }
  }

  /** Why a read from the object store failed. */
  datatype Error =
    | NotFound(id: string)      // no object is stored under this id (the source crashes opening the file)
    | CorruptData(id: string)   // the object exists but does not decode as a commit record

  datatype Result<+T> = Ok(value: T) | Err(error: Error) {
    predicate IsFailure() { Err? }

    function PropagateFailure<U>(): Result<U>
      requires Err?
    {
      Err(error)
    }

    function Extract(): T
      requires Ok?
    {
      value
    }
  }
}
