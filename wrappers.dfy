/** Small value wrappers shared by the model. */
module Wrappers {

  /** A value that may be absent, as `undefined` is in the bot's JavaScript. */
  datatype Option<+T> = None | Some(value: T)

  /** The outcome of one network read: the parsed payload, or a thrown error. */
  datatype Fetch<+T> = Ok(value: T) | Err
}
