/** The two sum types shared by every module: a value that may be absent, and a call that may throw. */
module Wrappers {
  datatype Option<+T> = None | Some(value: T)

  /** `Failure` stands for a thrown `Error`; its text says which check failed. */
  datatype Result<+T> = Success(value: T) | Failure(error: string) {
    function ToOption(): Option<T> {
      match this
      case Success(value) => Some(value)
      case Failure(_) => None
    }
  }
}
