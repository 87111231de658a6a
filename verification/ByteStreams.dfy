/** Bytes, and inputs that arrive in chunks. */
module ByteStreams {
  type Byte = bv8

  /** The whole input. */
  function Concat(chunks: seq<seq<Byte>>): seq<Byte> {
    if chunks == [] then [] else Concat(chunks[..|chunks| - 1]) + chunks[|chunks| - 1]
  }
}
