// Fixed-width integer semantics and the decoder's error outcomes.
//
// Integers are unbounded in Dafny; every width the Rust code relies on is
// written out here: the range predicates of u8/u16/i16/i32, the wrapping
// `as` casts, the saturating SIMD packs, and the arithmetic right shift.
module Base {

  type byte = x: int | 0 <= x < 0x100

  predicate IsU16(x: int) { 0 <= x < 0x1_0000 }
  predicate IsI16(x: int) { -0x8000 <= x < 0x8000 }
  predicate IsI32(x: int) { -0x8000_0000 <= x < 0x8000_0000 }

  type u16 = x: int | IsU16(x)
  type u32 = x: int | 0 <= x < 0x1_0000_0000

  /** 2^n */
  function Pow2(n: nat): (r: nat)
    ensures r >= 1
  {
    if n == 0 then 1 else 2 * Pow2(n - 1)
  }

  /** `x as i16`: keep the low 16 bits, read them as two's complement. */
  function Wrap16(x: int): (r: int)
    ensures IsI16(r)
    ensures (x - r) % 0x1_0000 == 0
    ensures IsI16(x) ==> r == x
  {
    var m := x % 0x1_0000;
    if m < 0x8000 then m else m - 0x1_0000
  }

  /** `x as i32`, and the wrapping arithmetic of i32 SIMD lanes. */
  function Wrap32(x: int): (r: int)
    ensures IsI32(r)
    ensures (x - r) % 0x1_0000_0000 == 0
    ensures IsI32(x) ==> r == x
  {
    var m := x % 0x1_0000_0000;
    if m < 0x8000_0000 then m else m - 0x1_0000_0000
  }

  /** The unsigned reading of the low 16 bits (`x as u16`). */
  function ToU16(x: int): (r: int)
    ensures IsU16(r)
    ensures IsI16(x) ==> r == if x < 0 then x + 0x1_0000 else x
  {
    x % 0x1_0000
  }

  function Clamp(x: int, lo: int, hi: int): (r: int)
    requires lo <= hi
    ensures lo <= r <= hi
    ensures lo <= x <= hi ==> r == x
    ensures x < lo ==> r == lo
    ensures x > hi ==> r == hi
  {
    if x < lo then lo else if x > hi then hi else x
  }

  /** Signed saturation to i16, as in `packs` of i32 lanes (packssdw). */
  function Sat16(x: int): (r: int)
    ensures IsI16(r)
  {
    Clamp(x, -0x8000, 0x7FFF)
  }

  /** Signed saturation to i8, as in `packs` of i16 lanes (packsswb). */
  function Sat8(x: int): (r: int)
    ensures -0x80 <= r <= 0x7F
  {
    Clamp(x, -0x80, 0x7F)
  }

  /** Arithmetic shift right: floor division by 2^n (Dafny's `/` is
      Euclidean, which is floor division for a positive divisor). */
  function Shr(x: int, n: nat): int
  {
    x / Pow2(n)
  }

  /** Integer ceiling division, standing for the f32 `ceil` the code uses. */
  function CeilDiv(a: nat, b: nat): (r: nat)
    requires b > 0
    ensures (r - 1) * b < a <= r * b
  {
    (a + b - 1) / b
  }

  /** The error kinds of the decoder. `Panic` stands for a Rust panic in
      a debug build: an index out of bounds, an `unwrap` of `None`, or an
      arithmetic overflow. `IoError` is an exhausted input. */
  datatype Error = FormatError | UnsupportedError | DimensionError | IoError | Panic

  datatype Result<T> = Ok(value: T) | Err(error: Error)
  {
    predicate IsFailure()
    {
      Err?
    }

    function PropagateFailure<U>(): Result<U>
      requires Err?
    {
      Err(error)
    }

    function Extract(): T
      requires Ok?
    {
      value
    }
  }
}
