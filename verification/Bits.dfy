/** Fixed-width helpers shared by the datapath and the instruction-set model. */
module Bits {

  const MSB64: bv64 := 0x8000_0000_0000_0000

  function Low32(x: bv64): bv32 {
    (x & 0xFFFF_FFFF) as bv32
  }

  function SignExtend12(x: bv12): bv64 {
    if x & 0x800 != 0 then 0xFFFF_FFFF_FFFF_F000 | (x as bv64) else x as bv64
  }

  function SignExtend32(x: bv32): bv64 {
    if x & 0x8000_0000 != 0 then 0xFFFF_FFFF_0000_0000 | (x as bv64) else x as bv64
  }

  predicate Negative(x: bv64) {
    x & MSB64 != 0
  }

  predicate SignedLess(a: bv64, b: bv64) {
    if Negative(a) != Negative(b) then Negative(a) else a < b
  }

  // Operators under a name, so that a proof can treat them as opaque

  function Add(a: bv64, b: bv64): bv64 { a + b }
  /** Address of the following instruction. */
  function PcPlus4(pc: bv64): bv64 { pc + 4 }

  function Sub(a: bv64, b: bv64): bv64 { a - b }

  /** Shifts use the six low bits of their second operand. */
  function Sll(a: bv64, b: bv64): bv64 { a << (b & 0x3F) }
  function Srl(a: bv64, b: bv64): bv64 { a >> (b & 0x3F) }

  /** The bits shifted in on the left are copies of the sign bit. */
  function Sra(a: bv64, b: bv64): bv64 {
    if a & 0x8000_0000_0000_0000 != 0 then !(!a >> (b & 0x3F)) else a >> (b & 0x3F)
  }

  function Join(high: bv64, low: bv64): bv64 { high | low }

  function FiveBits(b: bv64): bv64 { b & 0x1F }
  function ZeroExtend32(x: bv32): bv64 { x as bv64 }

  function Add32(a: bv32, b: bv32): bv32 { a + b }
  function Sub32(a: bv32, b: bv32): bv32 { a - b }

  /** 32-bit shifts use the five low bits of their second operand. */
  function Sll32(a: bv32, b: bv32): bv32 { a << (b & 0x1F) }
  function Srl32(a: bv32, b: bv32): bv32 { a >> (b & 0x1F) }

  function Sra32(a: bv32, b: bv32): bv32 {
    if a & 0x8000_0000 != 0 then !(!a >> (b & 0x1F)) else a >> (b & 0x1F)
  }
}
