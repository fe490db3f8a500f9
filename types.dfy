/** Fixed-width integers and the optional-value wrapper used across the model. */
module Types {

  /** A C++ `uint16_t`: protocol numbers and the MTU. */
  newtype uint16 = x: int | 0 <= x < 0x1_0000

  /** A C++ `uint32_t`: the received-packet counter. */
  newtype uint32 = x: int | 0 <= x < 0x1_0000_0000

  /** A `Ptr<Packet>` that may be null. */
  datatype Option<+T> = None | Some(value: T)

  /** `n++` on a `uint32_t`: the increment wraps around at 2^32. */
  function WrappingIncrement(n: uint32): (r: uint32)
    ensures r as int == (n as int + 1) % 0x1_0000_0000
    ensures n < 0xFFFF_FFFF ==> r == n + 1
  {
    if n == 0xFFFF_FFFF then 0 else n + 1
  }
}
