/** The fixed-width integer types of the firmware. Bytes and `i16` are
    bit-vectors so that shifts, masks and XOR truncate exactly as Rust's
    operators do; the unsigned wider types are integer ranges, and every
    operation on them that could leave the range is checked where it happens. */
module Primitives {

  /** Rust `u8`. */
  type u8 = bv8

  /** Rust `u16`. */
  type u16 = x: int | 0 <= x < 0x1_0000

  /** Rust `i16`, held as its 16-bit two's-complement pattern. */
  type i16 = bv16

  /** The signed value an `i16` pattern stands for. */
  function I16Value(x: i16): (v: int)
    ensures -0x8000 <= v < 0x8000
    ensures v >= 0 <==> x < 0x8000
  {
    if x < 0x8000 then x as int else x as int - 0x1_0000
  }

  /** Rust `u32`. */
  type u32 = x: int | 0 <= x < 0x1_0000_0000

  const U16_MAX: u16 := 0xFFFF
  const U32_MAX: u32 := 0xFFFF_FFFF
}
