/** Machine integers and the failure types shared by every component. */
module Common {
  datatype Option<+T> = None | Some(value: T)
  datatype Result<+T, +E> = Ok(value: T) | Err(error: E)

  /** The three classes of traffic, the most urgent first. */
  datatype PacketClass = Small | Medium | Bulk

  const U16_SPAN: int := 0x1_0000
  const U64_MAX: int := 0xffff_ffff_ffff_ffff

  type byte = x: int | 0 <= x < 0x100
  type u16 = x: int | 0 <= x < 0x1_0000
  type u32 = x: int | 0 <= x < 0x1_0000_0000
  type u64 = x: int | 0 <= x <= 0xffff_ffff_ffff_ffff

  /** `u64::saturating_add`. */
  function SaturatingAdd(x: nat, y: nat): nat
  {
    if x + y > U64_MAX then U64_MAX else x + y
  }

  /** `u64::wrapping_add(1)`. */
  function WrappingIncrement(x: u64): u64
  {
    if x == U64_MAX then 0 else x + 1
  }

  /** A 16-bit number in network byte order. */
  function U16Bytes(n: u16): seq<byte>
  {
    [n / 0x100, n % 0x100]
  }

  function U16At(bytes: seq<byte>, at: nat): u16
    requires at + 2 <= |bytes|
  {
    var high: int := bytes[at];
    high * 0x100 + bytes[at + 1]
  }

  /** How many bytes are missing to a multiple of four. */
  function PaddingOf(length: nat): nat
  {
    (4 - length % 4) % 4
  }
}
