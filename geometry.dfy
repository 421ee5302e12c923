/** The fixed geometry of the 98x16 sign the co-processor driver is tailored to. */
module Geometry {

  /** Number of dot columns (x runs over 0 .. XSize - 1). */
  const XSize: nat := 98

  /** Number of dot rows (y runs over 0 .. YSize - 1). */
  const YSize: nat := 16

  /** Number of bytes of packed sign data: one bit per dot. */
  const ByteStreamSize: nat := (XSize * YSize) / 8

  /** A C `byte` (Arduino `uint8_t`) used as an unchecked coordinate. */
  newtype Byte = b: int | 0 <= b < 256

  /** The packed stream has exactly two bytes per column, so the packing loop
      (two bytes per column over XSize columns) fills it exactly. */
  lemma StreamHoldsTwoBytesPerColumn()
    ensures ByteStreamSize == 196 == 2 * XSize
    ensures YSize == 2 * 8
  {
  }
}
