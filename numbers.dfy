/** Number helpers shared by the whole model: the JavaScript operations on
    numbers that the engine relies on, written out over `int` and `real`. */
module Numbers {

  function Abs(x: int): (r: nat)
    ensures r == x || r == -x
  {
    if x < 0 then -x else x
  }

  /** `Math.sign` on integers. */
  function Sign(x: int): int
  {
    if x > 0 then 1 else if x < 0 then -1 else 0
  }

  function Min(a: int, b: int): int { if a <= b then a else b }
  function Max(a: int, b: int): int { if a >= b then a else b }
  function MinR(a: real, b: real): real { if a <= b then a else b }
  function MaxR(a: real, b: real): real { if a >= b then a else b }

  /** `x | 0`: truncation toward zero. The 32-bit wrap-around of `|0` is not
      modelled: every value truncated by the engine is a pixel coordinate. */
  function Trunc(x: real): (r: int)
    ensures x >= 0.0 ==> 0 <= r && r as real <= x < r as real + 1.0
    ensures x < 0.0 ==> r <= 0 && r as real - 1.0 < x <= r as real
  {
    if x >= 0.0 then x.Floor else -((-x).Floor)
  }

  /** `|0` leaves integers alone. */
  lemma TruncOfInt(n: int)
    ensures Trunc(n as real) == n
  {
  }

  /** Truncation toward zero is monotone, so it never reverses an order. */
  lemma TruncMonotone(a: real, b: real)
    requires a <= b
    ensures Trunc(a) <= Trunc(b)
  {
    if a >= 0.0 {
      assert a.Floor <= b.Floor;
    } else if b < 0.0 {
      assert (-b).Floor <= (-a).Floor;
    }
  }

  /** Two non-negative reals an integer step of at least one apart truncate to
      different rows. */
  lemma TruncSeparates(a: real, k: int)
    requires a >= 0.0 && k >= 1
    ensures Trunc(a) < Trunc(a + k as real)
  {
    assert (a + k as real).Floor == a.Floor + k;
  }

  /** `Math.max(lo, Math.min(hi, v))` on reals. */
  function Clamp(lo: real, hi: real, v: real): (r: real)
    ensures lo <= r && (lo <= hi ==> r <= hi)
    ensures lo <= v <= hi ==> r == v
    ensures r == lo || r == hi || r == v
  {
    MaxR(lo, MinR(hi, v))
  }

  /** `Math.max(lo, Math.min(hi, v))` on integers. */
  function ClampInt(lo: int, hi: int, v: int): (r: int)
    ensures lo <= hi ==> lo <= r <= hi
    ensures lo <= v <= hi ==> r == v
    ensures r == lo || r == hi || r == v
  {
    Max(lo, Min(hi, v))
  }
}
