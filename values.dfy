/** Go's dynamically typed values, as the cache and the duplicate-call registry see them. */
module Values {

  /** An `interface{}`: nil, some opaque non-nil object (told apart by its identity `id`),
      or a pointer to the cache's `entry` record, which the cache stores inside an
      `interface{}` when a maximum age is configured. */
  datatype Value = Nil | Obj(id: nat) | EntryRef(entry: Entry)

  /** The cache's `entry` record: when the value was stored, and the value. */
  datatype Entry = Entry(time: int, value: Value)

  /** An `error`: nil, the cache's `ErrNotFound`, or any other error (by identity). */
  datatype Error = NoError | ErrNotFound | Failure(id: nat)

  /** A result or an error, for operations that return `(T, error)`. */
  datatype Outcome<+T, +E> = Ok(value: T) | Err(error: E)
}
