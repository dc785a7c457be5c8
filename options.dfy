/** The optional value that stands for JavaScript's `undefined` and for a
    request that fails. */
module Options {

  datatype Option<+T> = None | Some(value: T)
}
