/** Byte strings. */
module ByteText {

  type Byte = x: int | 0 <= x < 256

  type Bytes = seq<Byte>

  function Concat(chunks: seq<Bytes>): Bytes {
    if chunks == [] then [] else chunks[0] + Concat(chunks[1..])
  }
}
