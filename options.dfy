/** The optional value used for JavaScript's `null` and for results that are `NaN`. */
module Options {

  datatype Option<+T> = None | Some(value: T)

}
