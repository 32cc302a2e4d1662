/** Option and Result carriers shared by the binning and meshing modules. */
module Results {

  /** A value that may be absent: a point that falls outside the grid has no cell. */
  datatype Option<+T> = None | Some(value: T)

  /** The outcome of an operation that can fail: either a value or an error. */
  datatype Result<+T, +E> = Success(value: T) | Failure(error: E)
}
