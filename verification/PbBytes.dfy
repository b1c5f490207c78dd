/** Bytes, and what a reader of bytes returns. */
module PbBytes {
  type byte = x: int | 0 <= x < 256

  /** What a reader leaves behind: `rest` is the part of the window not yet read,
      kept on failure too because pb_decode_tag looks at it. */
  datatype Read<+T> = Fail(rest: seq<byte>) | Ok(value: T, rest: seq<byte>)
}
