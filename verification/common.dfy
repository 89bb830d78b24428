/** Shared vocabulary: bytes as they travel over the HTTP and vsock streams,
    and the optional value Python spells `None`. */
module Common {

  /** One octet of a Python `bytes` object. */
  newtype byte = x: int | 0 <= x < 256

  type Bytes = seq<byte>

  /** A value that may be absent (Python's `None`). */
  datatype Option<+T> = None | Some(value: T)

  /** The line-feed byte `b'\n'`. */
  const NewLine: byte := 10
}
