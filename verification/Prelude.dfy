/** Types shared by the components: machine-integer ranges, bytes, and the usual result types. */
module Prelude {
  const U16_MAX: nat := 0xFFFF
  const U32_MAX: nat := 0xFFFF_FFFF
  const U64_MAX: nat := 0xFFFF_FFFF_FFFF_FFFF

  type byte = x: int | 0 <= x < 256
  type u16 = x: int | 0 <= x <= 0xFFFF
  type u32 = x: int | 0 <= x <= 0xFFFF_FFFF
  type u64 = x: int | 0 <= x <= 0xFFFF_FFFF_FFFF_FFFF

  datatype Option<+T> = None | Some(value: T)

  datatype Result<+T, +E> = Ok(value: T) | Err(error: E)

  type Segments = s: seq<u16> | |s| == 8 witness seq(8, _ => 0)

  datatype SocketAddr = V4(ip: u32, port: u16) | V6(segments: Segments, port: u16, flowInfo: u32, scopeId: u32)

  function CheckedAdd(a: u64, b: u64): Option<u64> {
    if a + b <= U64_MAX then Some(a + b) else None
  }

  function Min(a: int, b: int): int {
    if a <= b then a else b
  }
}
