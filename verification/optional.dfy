/** A value that may be absent.

    The page reads several JavaScript values that can be `undefined` or `null`
    (the local username taken from the router state, the code buffer before the
    first edit).  They are modelled as `Option`, with `None` standing for the
    missing value and `Some` for a present string.
 */
module Optional {

  datatype Option<+T> = None | Some(value: T)

}
