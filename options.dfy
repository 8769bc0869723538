/** The optional value used wherever the program returns Python's None for "not found". */
module Options {

  datatype Option<+T> = None | Some(value: T)
}
