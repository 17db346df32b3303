/** The usual Option datatype, for values the source reads as possibly absent. */
module Optional {
  datatype Option<+T> = None | Some(value: T)
}
