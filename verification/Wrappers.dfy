/** Shared definitions. */
module Wrappers {

  datatype Option<+T> = None | Some(value: T)

  newtype byte = x: int | 0 <= x < 256

  /** How many events are passed to a backend at once. */
  const ITER_CHUNK_SIZE: nat := 4096

  /** A sequence without the element at `i`. */
  function Without<T>(s: seq<T>, i: nat): seq<T>
    requires i < |s|
  {
    s[..i] + s[i + 1..]
  }

}
