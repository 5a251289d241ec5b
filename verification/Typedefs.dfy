/** Limits shared by several parts. */
module Typedefs {

  const INVALID_EDGE_WEIGHT: int := 0x7FFF_FFFF
  const MAXIMAL_EDGE_DURATION: int := 0x7FFF_FFFF

  /** The largest single-precision number, which stands for no distance and for the largest one. */
  const INVALID_EDGE_DISTANCE: real := 340282346638528859811704183484516925440.0
}
