/** The absent-or-present value used where the source gets `undefined` back from `find`. */
module Optional {

  datatype Option<+T> = None | Some(value: T)
}
