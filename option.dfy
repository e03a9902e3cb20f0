/** The optional value used for Java's nullable references and for thrown exceptions. */
module Optional {
  datatype Option<T> = None | Some(value: T)
}
