/** Java's nullable references, where the model needs them. */
module Options {

  datatype Option<T> = None | Some(value: T)
}
