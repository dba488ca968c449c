/** The conventional optional value, used for the "previous weight" slot,
    the two image widgets and the image argument of a request. */
module Options {

  datatype Option<+T> = None | Some(value: T)
}
