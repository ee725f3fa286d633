/** Bytes as files and buffers hold them, shared by the modules that read or hash them. */
module ByteStrings {
  type Byte = x: int | 0 <= x < 256

  type Bytes = seq<Byte>
}
