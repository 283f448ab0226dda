/** An optional value: `Some` carries a result, `None` stands for its
    absence (an index outside the program, an integer that does not read,
    a separator that does not occur). */
module Options {
  datatype Option<+T> = None | Some(value: T)
}
