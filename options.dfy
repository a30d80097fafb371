/** The nullable values of the C# source (a `List<SKPoint>?` field, a `bool?` dialog result). */
module Options {
  datatype Option<T> = None | Some(value: T)
}
