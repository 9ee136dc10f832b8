/** Undefined values. The source marks a missing sample or an undefined metric
    with a floating-point NaN; here every such value is an explicit `Option`. */
module Options {

  datatype Option<+T> = None | Some(value: T)
}
