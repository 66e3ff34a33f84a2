/** Value types shared by the batcher and the message wrapper. */
module Types {

  /** One byte of a record payload or a message body. */
  type Byte = b: int | 0 <= b < 256

  /** A value that may be absent: Go's nil pointer or the "ok" flag of a lookup. */
  datatype Option<T> = None | Some(value: T)

  /** The errors that reach the batcher.
      Timeout is the library's timeout error, which the checkpointer returns when
      the in-flight cap stays reached until the caller's context ends (cancelled
      or past its deadline); OutOfSync is what the checkpointer returns for an
      index it is not tracking. */
  datatype Error = Timeout | OutOfSync
}
