/** Planet identifiers.

    The service keys its store by `uuid.UUID` and compares identifiers only for
    equality, so the model uses natural numbers. Generating a fresh identifier
    is left to the caller of `Service.Create`, which receives it as a parameter. */
module Identity {

  /** An opaque planet identifier (a UUID in the service). */
  type Id = nat
}
