/** Small value types shared by the scanner modules. */
module Common {

  /** Python's `None`-or-value. */
  datatype Option<T> = None | Some(value: T)

  /** One byte of an object's content. */
  newtype byte = x: int | 0 <= x < 256
}
