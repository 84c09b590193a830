/** Bytes, and a byte stream that arrives in pieces. */
module Bytes {

  type Byte = x: int | 0 <= x < 256

  function Concat(pieces: seq<seq<Byte>>): seq<Byte> {
    if pieces == [] then [] else Concat(pieces[..|pieces| - 1]) + pieces[|pieces| - 1]
  }
}
