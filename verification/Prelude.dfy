/** Small shared vocabulary: optional values and untyped input fields. */
module Prelude {

  datatype Option<+T> = None | Some(value: T) {
    predicate IsFailure() {
      None?
    }

    function PropagateFailure<U>(): Option<U>
      requires None?
    {
      None
    }

    function Extract(): T
      requires Some?
    {
      value
    }
  }

  /** A field of an untyped payload: missing, present with another type, or usable. */
  datatype Field<+T> = Absent | WrongType | Value(value: T)
}
