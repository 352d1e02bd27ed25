/** Failure-carrying values shared by every module of the model. */
module Wrappers {

  datatype Option<+T> = None | Some(value: T)

  /** A value, or the message of the exception that replaced it. */
  datatype Result<+T> = Ok(value: T) | Err(error: string)

  /** The outcome of a call into code outside the model (HTTP, the remote
      application): it either raised or handed back a value. */
  datatype Call<+T> = Raised | Returned(value: T)
}
