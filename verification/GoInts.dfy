/** What the router's Go code relies on everywhere: 64-bit two's-complement wrap-around,
    division that truncates toward zero, and durations in nanoseconds. */
module GoInts {

  const TWO_63: int := 0x8000_0000_0000_0000
  const TWO_64: int := 0x1_0000_0000_0000_0000

  const SECOND: int := 1_000_000_000

  datatype Option<+T> = None | Some(value: T)

  function Min(a: int, b: int): int { if a <= b then a else b }

  /** How many times a value has wrapped past the 64-bit range. */
  function Laps(x: int): int {
    (x + TWO_63) / TWO_64
  }

  /** The int64 a mathematical integer is stored as. */
  function Wrap64(x: int): (r: int)
    ensures -TWO_63 <= r < TWO_63
    ensures -TWO_63 <= x < TWO_63 ==> r == x
    ensures 0 <= x ==> r <= x
  {
    x - Laps(x) * TWO_64
  }

  /** The uint64 a mathematical integer is stored as. */
  function WrapU64(x: int): (r: int)
    ensures 0 <= r < TWO_64
    ensures (x - r) % TWO_64 == 0
    ensures 0 <= x < TWO_64 ==> r == x
  {
    x % TWO_64
  }

  /** Go's integer division: the quotient is rounded toward zero. */
  function Quo(a: int, b: int): (q: int)
    requires 0 < b
    ensures 0 <= a ==> q == a / b
    ensures a <= 0 ==> q <= 0
  {
    if 0 <= a then a / b else -((-a) / b)
  }

  /** Wrapping sees a value only up to multiples of 2^64. */
  lemma WrapSame(x: int, laps: int)
    ensures Wrap64(x + laps * TWO_64) == Wrap64(x)
  {
  }

  /** Taking away less than what is stored takes it away from the stored value. */
  lemma WrapShift(x: int, y: int)
    requires -TWO_63 <= Wrap64(x) - y < TWO_63
    ensures Wrap64(x - y) == Wrap64(x) - y
  {
    WrapSame(Wrap64(x) - y, Laps(x));
  }

  /** Adding to a value adds at most that much to a stored value that was not negative. */
  lemma WrapGrows(x: int, y: int)
    requires 0 <= Wrap64(x) && 0 <= y
    ensures Wrap64(x + y) <= Wrap64(x) + y
  {
    WrapSame(Wrap64(x) + y, Laps(x));
  }

  lemma MulLe(x: int, y: int, k: int)
    requires 0 <= k && x <= y
    ensures x * k <= y * k && k * x <= k * y
  {
  }
}
