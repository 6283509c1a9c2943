/** The value-or-nothing type the model uses where the source returns nil or an error. */
module Results {
  datatype Option<+T> = None | Some(value: T)
}
