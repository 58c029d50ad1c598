/** Small shared vocabulary: optional values, fallible results and the two release channels. */
module Common {

  datatype Option<+T> = None | Some(value: T)

  datatype Result<+R, +E> = Success(value: R) | Failure(error: E)

  /** The channel names of `ACTIVE_RELEASE_CHANNELS`, in the order the source tries them. */
  datatype Channel = Current | Frontier
}
