/** The optional value used wherever the source returns `None` or `{}`. */
module Options {

  datatype Option<+T> = None | Some(value: T)
}
