/** The usual Some/None wrapper, used where a reducer cannot finish for lack of random draws. */
module Optional {
  datatype Option<T> = None | Some(value: T)
}
