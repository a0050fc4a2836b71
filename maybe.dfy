/** Optional values and results that may carry a thrown Java exception. */
module Maybe {

  datatype Option<+T> = None | Some(value: T)

  /** The outcome of an operation that either yields a value or throws (an IllegalStateException in this code base). */
  datatype Result<+T> = Ok(value: T) | Thrown(exception: string)
}
