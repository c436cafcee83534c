/** Kotlin's `Int`: a 32-bit two's-complement integer whose `+` wraps around. */
module KotlinInt {

  const MIN: int := -0x8000_0000
  const MAX: int := 0x7fff_ffff

  newtype int32 = x: int | -0x8000_0000 <= x < 0x8000_0000

  /** Reduces an unbounded integer to the 32-bit value with the same low 32 bits,
      as the JVM's integer addition does. */
  function Wrap(x: int): (r: int32)
    ensures MIN <= x <= MAX ==> r as int == x
    ensures (r as int - x) % 0x1_0000_0000 == 0
  {
    ((x - MIN) % 0x1_0000_0000 + MIN) as int32
  }
}
