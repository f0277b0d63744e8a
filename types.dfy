/** Values shared by every part of the model: ranges of indices, the panics
    of the library and of the containers it slices, and the wrappers that
    carry them. Indices are `nat`, the index type the model instantiates. */
module Types {

  /** A half-open range `start..end` of indices, as written by the caller.
      Nothing forces `start <= end`. */
  datatype Range = Range(start: nat, end: nat)

  /** Every way an operation of the model can panic. */
  datatype Error =
      /** The requested range ends after the container's reported length. */
    | RangeOutOfBounds(requested: Range, limit: nat)
      /** A positional access at or past the view's own length. */
    | IndexOutOfBounds(index: nat, length: nat)
      /** `end - start` with `start > end`: the index subtraction overflows. */
    | LengthUnderflow(start: nat, end: nat)
      /** The container's own indexing reached a storage slot that does not exist. */
    | StorageOutOfBounds(position: nat, length: nat)

  datatype Option<+T> = None | Some(value: T)

  /** A value, or the panic that stopped its computation. */
  datatype Result<+T> = Ok(value: T) | Err(error: Error)

  /** Unit, or the panic that stopped the computation. */
  datatype Outcome = Pass | Fail(error: Error)

  function Max(a: int, b: int): int
  {
    if a < b then b else a
  }
}
