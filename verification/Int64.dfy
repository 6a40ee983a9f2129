/** Signed 64-bit integers: their range, and arithmetic that wraps around. */
module Int64 {
  const MAX_INT: int := 0x7fff_ffff_ffff_ffff
  const MIN_INT: int := -0x8000_0000_0000_0000
  const TWO_64: int := 0x1_0000_0000_0000_0000

  /** The value of x in a signed 64-bit integer. */
  function Wrap64(x: int): (r: int)
    ensures MIN_INT <= r <= MAX_INT
    ensures r == x <==> MIN_INT <= x <= MAX_INT
    decreases if x < 0 then -x else x + 1
  {
    if x > MAX_INT then Wrap64(x - TWO_64)
    else if x < MIN_INT then Wrap64(x + TWO_64)
    else x
  }

  lemma WrapPeriod(x: int)
    ensures Wrap64(x + TWO_64) == Wrap64(x)
  {
  }

  /** Wrapping after every addition is wrapping once at the end. */
  lemma {:induction false} WrapAdd(x: int, y: int)
    ensures Wrap64(Wrap64(x) + y) == Wrap64(x + y)
    decreases if x < 0 then -x else x + 1
  {
    if x > MAX_INT {
      WrapAdd(x - TWO_64, y);
      WrapPeriod(x - TWO_64 + y);
    } else if x < MIN_INT {
      WrapAdd(x + TWO_64, y);
      WrapPeriod(x + y);
    }
  }
}
