/** The optional value used wherever the components hold `null`, an absent key or NaN. */
module Options {

  datatype Option<+T> = None | Some(value: T)
}
