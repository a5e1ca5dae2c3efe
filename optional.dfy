/** The usual Some/None wrapper, used where the source returns nothing or faults. */
module Optional {

  datatype Option<T> = None | Some(value: T)

}
