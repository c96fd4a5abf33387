/** An optional value: a lookup that may find nothing, a file that may be missing. */
module Options {

  datatype Option<+T> = None | Some(value: T)
}
