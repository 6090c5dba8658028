/** An optional value: C#'s nullable references and JavaScript's
    `undefined` are both written with it. */
module Options {
  datatype Option<+T> = None | Some(value: T)
}
