/**
 * The C integer widths the modelled code relies on. `size_t` is taken to be
 * 64 bits wide and `unsigned` 32 bits wide; pointers are addresses of the same
 * width as `size_t`, with 0 standing for NULL.
 */
module MachineTypes {

  const SizeModulus: int := 0x1_0000_0000_0000_0000
  const U32Modulus: int := 0x1_0000_0000

  type SizeT = x: int | 0 <= x < SizeModulus
  type U32 = x: int | 0 <= x < U32Modulus

  /** An address; `Null` is the C null pointer. */
  type Ptr = SizeT
  const Null: Ptr := 0

  /** `a - b` on `size_t`, which wraps modulo 2^64 when `b > a`. */
  function SubWrap(a: SizeT, b: SizeT): (r: SizeT)
    ensures b <= a ==> r == a - b
    ensures a < b ==> r == a - b + SizeModulus
  {
    (a - b) % SizeModulus
  }

  /** `a * b` on `size_t`, which keeps only the low 64 bits of the product. */
  function MulWrap(a: SizeT, b: SizeT): (r: SizeT)
    ensures a * b < SizeModulus ==> r == a * b
    ensures SizeModulus <= a * b ==> r < a * b
  {
    (a * b) % SizeModulus
  }

  /** `a << 1` on `size_t`: the top bit is shifted out. */
  function ShiftLeftOne(a: SizeT): (r: SizeT)
    ensures a < SizeModulus / 2 ==> r == 2 * a
    ensures SizeModulus / 2 <= a ==> r == 2 * a - SizeModulus
  {
    (2 * a) % SizeModulus
  }
}
