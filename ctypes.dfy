/** The fixed-width C types that the driver's interfaces use. */
module CTypes {

  /** `uint8_t` used as a count or an address. */
  newtype uint8 = x: int | 0 <= x < 0x100

  /** `int32_t`, the width in which a sample is returned. */
  newtype int32 = x: int | -0x8000_0000 <= x < 0x8000_0000

  /** A value that may be absent: a failed transfer or an address with no register. */
  datatype Option<+T> = None | Some(value: T)
}
