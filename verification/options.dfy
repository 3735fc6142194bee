/** An optional value: Ruby's `nil` versus a present value. */
module Options {

  datatype Option<+T> = None | Some(value: T)

}
