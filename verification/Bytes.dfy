module Bytes {
  type Byte = x: int | 0 <= x < 0x100

  /** The bytes of a stream that arrives in pieces. */
  function Concat(pieces: seq<seq<Byte>>): seq<Byte> {
    if pieces == [] then [] else Concat(pieces[..|pieces| - 1]) + pieces[|pieces| - 1]
  }
}
