/** The error values of the catalog's domain layer, and the two return shapes
    of the service: Go's `error` (modelled as `Option<Error>`, `None` for nil)
    and Go's `(*T, error)` (modelled as `Result<T>`). */
module Errors {
  import opened Identity

  /** The error kinds raised by the domain layer. Messages and HTTP status
      codes are attached only at the transport boundary, so each kind keeps
      just the data that identifies it. */
  datatype Error =
    | MissingParam(param: string)           // a mandatory field is zero or empty
    | InvalidParam(param: string)           // an undecodable planet type
    | InvalidValue(message: string)         // a range or consistency rule failed
    | InvalidSort(message: string)          // an unknown sort key
    | EntityNotFound(name: string, value: Id) // no record under this identifier

  /** The `error` result of a Go function: `None` stands for `nil`. */
  datatype Option<+T> = None | Some(value: T)

  /** The `(*T, error)` result of a Go function: exactly one of the two is set. */
  datatype Result<+T> = Ok(value: T) | Err(error: Error)
}
