/** Types shared by every component: optional values, instants, and the 64-bit counters the
    daemon accounts with. */
module Prelude {

  /** Nanoseconds since 0001-01-01T00:00:00Z; 0 is Go's zero time. */
  type Time = int

  datatype Option<+T> = None | Some(value: T)

  const U64_SIZE: int := 0x1_0000_0000_0000_0000

  /** A Go uint64. */
  type u64 = n: int | 0 <= n < 0x1_0000_0000_0000_0000

  /** Unsigned addition wraps around. */
  function WrapAdd(a: u64, b: u64): u64 {
    (a + b) % U64_SIZE
  }

  /** How many times a wrapping addition went past the top: zero or one. */
  function Carry(a: u64, b: u64): nat {
    if a + b < U64_SIZE then 0 else 1
  }

  lemma WrapAddCarries(a: u64, b: u64)
    ensures WrapAdd(a, b) + U64_SIZE * Carry(a, b) == a + b
  {
    if a + b >= U64_SIZE {
      assert (a + b) % U64_SIZE == a + b - U64_SIZE;
    }
  }
}
