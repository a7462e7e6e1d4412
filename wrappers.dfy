/** Optional values: the model's stand-in for C#'s nullable references and `TryParse` out-parameters. */
module Wrappers {
  datatype Option<+T> = None | Some(value: T)
}
