/** Machine integers as subset types of `int`. Values are mathematical integers;
    wrap-around and truncation are written out where the source performs them. */
module Machine {
  type byte = n: int | 0 <= n < 0x100
  type u16 = n: int | 0 <= n < 0x1_0000
  type u32 = n: int | 0 <= n < 0x1_0000_0000
  type u64 = n: int | 0 <= n < 0x1_0000_0000_0000_0000
  type i8 = n: int | -0x80 <= n < 0x80
  type i16 = n: int | -0x8000 <= n < 0x8000
  type i32 = n: int | -0x8000_0000 <= n < 0x8000_0000
  type i64 = n: int | -0x8000_0000_0000_0000 <= n < 0x8000_0000_0000_0000

  const ISIZE_MAX: int := 0x7FFF_FFFF_FFFF_FFFF
  const USIZE_LIMIT: int := 0x1_0000_0000_0000_0000

  /** `n as i32`: keeps the low 32 bits, read as two's complement. */
  function ToI32(n: int): (r: i32)
    ensures r % 0x1_0000_0000 == n % 0x1_0000_0000
  {
    var m := n % 0x1_0000_0000;
    if m < 0x8000_0000 then m else m - 0x1_0000_0000
  }

  /** `n as i64`: keeps the low 64 bits, read as two's complement. */
  function ToI64(n: int): (r: i64)
    ensures r % 0x1_0000_0000_0000_0000 == n % 0x1_0000_0000_0000_0000
  {
    var m := n % 0x1_0000_0000_0000_0000;
    if m < 0x8000_0000_0000_0000 then m else m - 0x1_0000_0000_0000_0000
  }

  /** `n as u64` of a signed value. */
  function ToU64(n: i64): (r: u64)
    ensures ToI64(r) == n
  {
    n % 0x1_0000_0000_0000_0000
  }

  /** `n as usize` of a signed number: negative numbers become huge. */
  function AsUsize(n: i32): nat { if n < 0 then n + USIZE_LIMIT else n }

  function DivCeil(n: nat, d: nat): (r: nat)
    requires d > 0
  {
    (n + d - 1) / d
  }
}
