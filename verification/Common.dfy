/** Shared vocabulary: optional values, bytes, and the 64-bit arithmetic of the source. */
module Common {
  datatype Option<+T> = None | Some(value: T)

  datatype Result<+T> = Ok(value: T) | Err

  newtype byte = x: int | 0 <= x < 256

  type Bytes = seq<byte>

  type u64 = x: int | 0 <= x <= 0xFFFF_FFFF_FFFF_FFFF

  type i32 = x: int | -0x8000_0000 <= x <= 0x7FFF_FFFF

  const U64_MAX: nat := 0xFFFF_FFFF_FFFF_FFFF

  const I32_MAX: int := 0x7FFF_FFFF

  function Min(a: int, b: int): int {
    if a <= b then a else b
  }

  function Max(a: int, b: int): int {
    if a <= b then b else a
  }

  /** `u64::saturating_add` on operands that are themselves in range. */
  function SaturatingAdd(a: nat, b: nat): nat {
    Min(a + b, U64_MAX)
  }

  /** `u64::saturating_mul`. */
  function SaturatingMul(a: nat, b: nat): nat {
    Min(a * b, U64_MAX)
  }

  /** `u64::saturating_sub`. */
  function SaturatingSub(a: nat, b: nat): nat {
    if b <= a then a - b else 0
  }

  /** `u64::div_ceil`. */
  function DivCeil(a: nat, b: nat): nat
    requires b > 0
  {
    if a % b == 0 then a / b else a / b + 1
  }

  // ---------------------------------------------------------------- lists taken from a list

  /** `to` holds the elements of `from` at rising positions. */
  predicate Picks<T(==)>(from: seq<T>, at: seq<nat>, to: seq<T>) {
    && |at| == |to|
    && (forall j, k | 0 <= j < k < |at| :: at[j] < at[k])
    && (forall k | 0 <= k < |at| :: at[k] < |from| && to[k] == from[at[k]])
  }

  lemma PicksOneMore<T>(from: seq<T>, at: seq<nat>, to: seq<T>, x: T)
    requires Picks(from, at, to)
    ensures Picks(from + [x], at, to) && Picks(from + [x], at + [|from|], to + [x])
    ensures forall i: nat :: i in at + [|from|] <==> i in at || i == |from|
  {
  }
}
