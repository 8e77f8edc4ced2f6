/** Shared value types: the Rust `u8` and `Option`. */
module Base {

  /** A Rust `u8`: 8 bits, with shifts and masks that truncate like the source's. */
  type byte = bv8

  datatype Option<+T> = None | Some(value: T)
}
