/** Optional values: the model's stand-in for JavaScript's `undefined` and `null`. */
module Optional {

  /** `None` stands for a missing, `undefined` or `null` value. */
  datatype Option<+T> = None | Some(value: T)
}
