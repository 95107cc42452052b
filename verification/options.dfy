/** The optional-value wrapper used for absent dates and missing headers. */
module Options {

  datatype Option<+T> = None | Some(value: T)
}
