/** The usual optional value, standing for JavaScript's `null`/`undefined` in the widget's state. */
module Optional {
  datatype Option<+T> = None | Some(value: T)
}
