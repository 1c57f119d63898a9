/** Shared value types: optional values, results with an error, and the
    loosely typed values a feature dictionary holds. */
module Common {

  datatype Option<+T> = None | Some(value: T)

  datatype Result<+R, +E> = Ok(value: R) | Err(error: E)

  /** A value stored in a feature dictionary: a number (ints and floats are
      both read as numbers), the null value, or a text. */
  datatype Value = Num(num: real) | Null | Str(str: string)

  /** A feature dictionary, keyed by field name. */
  type FeatureMap = map<string, Value>
}
