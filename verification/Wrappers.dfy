/** Optional values, and the error results the store's operations return. */
module Wrappers {

  datatype Option<+T> = None | Some(value: T)

  /** The error variants the modelled code returns; the message text is dropped. */
  datatype Error =
    | InvalidParameter
    | IntegrityError
    | NotFound
    | DuplicateAssociationId(id: int)
    | DuplicateTimeSeries
    | DuplicateAssociation
    | OwnerMismatch(id: int, actualOwner: int)
    | Sqlite

  datatype Result<+T> = Ok(value: T) | Err(error: Error) {
    predicate IsFailure() { Err? }

    function PropagateFailure<U>(): Result<U>
      requires Err?
    {
      Err(error)
    }

    function Extract(): T
      requires Ok?
    {
      value
    }
  }
}
