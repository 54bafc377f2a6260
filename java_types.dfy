/** Java's fixed-width integer types, as ranges of mathematical integers. */
module JavaTypes {

  /** A Java `int`. */
  type Int = x: int | -0x8000_0000 <= x <= 0x7FFF_FFFF

  /** A Java `long`. */
  type Long = x: int | -0x8000_0000_0000_0000 <= x <= 0x7FFF_FFFF_FFFF_FFFF
}
