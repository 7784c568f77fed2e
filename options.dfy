/** An optional value: the model's stand-in for a C# `null` result. */
module Options {
  datatype Option<T> = None | Some(value: T)
}
