/** An option value for settings the caller may leave out. */
module Optional {

  datatype Option<+T> = None | Some(value: T)
}
