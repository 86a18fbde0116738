/** Small shared vocabulary: an optional value, the model of Python's `None`. */
module Common {

  datatype Option<+T> = None | Some(value: T)
}
