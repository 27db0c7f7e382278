/** What every module shares. */
module Prelude {
  datatype Option<+T> = None | Some(value: T)

  /** An unsigned byte. */
  type u8 = x: int | 0 <= x < 256

  /** What a reader returns: failure, or a value together with the unread rest of the input. */
  datatype Read<+T> = Fail | Got(value: T, rest: seq<u8>)
}
