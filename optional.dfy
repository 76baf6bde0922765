/** An optional value: `None` stands for a null pointer or a failed parse. */
module Optional {

  datatype Option<+T> = None | Some(value: T)
}
