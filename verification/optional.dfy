/** The optional value used wherever the source has `undefined` or a throwing call. */
module Optional {

  /** `None` stands for `undefined` (an absent value delivered by a read, a failed parse); `Some` for a value. */
  datatype Option<+T> = None | Some(value: T)
}
