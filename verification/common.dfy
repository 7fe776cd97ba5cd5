/** Small value wrappers shared by every module of the model. */
module Common {

  /** A value that may be absent: a missing JSON field, a missing cookie, an unset variable. */
  datatype Option<T> = None | Some(value: T)

  /** The outcome of an operation that may throw instead of returning. */
  datatype Result<T> = Ok(value: T) | Error

  /** JavaScript truthiness of an optional string field: absent and "" are falsy. */
  predicate Truthy(field: Option<string>)
  {
    field.Some? && field.value != ""
  }

  /** Sequence concatenation is associative; stated once so proofs can cite it cheaply. */
  lemma AppendAssociates<T>(x: seq<T>, y: seq<T>, z: seq<T>)
    ensures (x + y) + z == x + (y + z)
  {
  }
}
