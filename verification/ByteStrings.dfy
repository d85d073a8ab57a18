/** Bytes, as files, paths, checksums and streams hold them. */
module ByteStrings {
  type Byte = b: int | 0 <= b < 256
  type Bytes = seq<Byte>
  /** A SHA-1. */
  type Checksum = c: Bytes | |c| == 20 witness seq(20, _ => 0)

  datatype Option<T> = None | Some(value: T)
}
