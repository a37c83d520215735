/** The "value or nothing" result that stands for Java's nullable returns. */
module Optional {

  datatype Option<T> = None | Some(value: T)
}
