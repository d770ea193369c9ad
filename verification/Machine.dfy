/** Rust's `u64`/`u32` with the saturating operators the relay uses, and the
    result types shared by all modules. */
module Machine {

  const U64_MAX: nat := 0xFFFF_FFFF_FFFF_FFFF
  const U32_MAX: nat := 0xFFFF_FFFF

  type u64 = n: nat | n <= U64_MAX
  type u32 = n: nat | n <= U32_MAX

  function SatAdd(a: u64, b: u64): (r: u64)
    ensures r == a + b || (r == U64_MAX && a + b > U64_MAX)
  {
    if a + b <= U64_MAX then a + b else U64_MAX
  }

  function SatSub(a: u64, b: u64): (r: u64)
    ensures r == a - b || (r == 0 && a < b)
  {
    if b <= a then a - b else 0
  }

  function SatMul(a: u64, b: u64): (r: u64)
    ensures r == a * b || (r == U64_MAX && a * b > U64_MAX)
  {
    if a * b <= U64_MAX then a * b else U64_MAX
  }

  function Min(a: nat, b: nat): (r: nat)
    ensures r <= a && r <= b && (r == a || r == b)
  {
    if a <= b then a else b
  }

  datatype Option<+T> = None | Some(value: T)

  /** The error values a store or handler returns; the text is the source's. */
  datatype Error =
    | InvalidInput(reason: string)
    | QuotaExceeded
    | RateLimited
    | Internal(reason: string)
    | Storage

  datatype Result<+T> = Ok(value: T) | Err(error: Error)
}
