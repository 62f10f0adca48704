/** The fixed-width integers of the C code, and the Option datatype used for values that may be absent. */
module Machine {

  datatype Option<+T> = None | Some(value: T)

  const TWO_64 := 0x1_0000_0000_0000_0000
  const INT_MAX := 0x7fff_ffff

  type u64 = x: int | 0 <= x < TWO_64

  /**
   Unsigned 64-bit arithmetic wraps around. No single operation of the code leaves the range below
   by more than one period, so one correction is enough.
   */
  function Wrap(x: int): (w: u64)
    requires -TWO_64 <= x < 2 * TWO_64
  {
    if x < 0 then x + TWO_64 else if x < TWO_64 then x else x - TWO_64
  }

  lemma WrapIsModulo(x: int)
    requires -TWO_64 <= x < 2 * TWO_64
    ensures Wrap(x) == x % 0x1_0000_0000_0000_0000
  {
  }

  const TWO_32 := 0x1_0000_0000

  type u32 = x: int | 0 <= x < TWO_32

  function Wrap32(x: int): (w: u32)
    requires -TWO_32 <= x < 2 * TWO_32
  {
    if x < 0 then x + TWO_32 else if x < TWO_32 then x else x - TWO_32
  }

  lemma Wrap32IsModulo(x: int)
    requires -TWO_32 <= x < 2 * TWO_32
    ensures Wrap32(x) == x % 0x1_0000_0000
  {
  }

  /** A `void *` as the queue sees it: a machine word, with 0 for the null pointer. */
  type Pointer = u64
  const NULL: Pointer := 0

  function Max(x: int, y: int): int {
    if x < y then y else x
  }
}
