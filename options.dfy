/** The optional value used where the source returns nullptr. */
module Options {

  datatype Option<+T> = None | Some(value: T)

}
