/** Outcome of a pipeline run: a value, or the kind of failure that aborts the request. */
module Results {

  /** The ways a style pipeline can fail once the image is decoded. */
  datatype Failure =
    | DegenerateImage  // the resize rule asks for a zero-sized raster
    | SizeMismatch     // two masks of different sizes handed to bitwise_and
    | InkRejected      // Pillow refuses a fill colour for the image's mode

  datatype Result<+T> = Ok(value: T) | Err(error: Failure) {

    predicate IsFailure() {
      Err?
    }

    function PropagateFailure<U>(): Result<U>
      requires Err?
    {
      Err(error)
    }

    function Extract(): T
      requires Ok?
    {
      value
    }
  }
}
