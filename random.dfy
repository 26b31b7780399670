/** lib/random.ts as functions of the drawn value. `crypto.getRandomValues`
    is the source of the draw; here the drawn 32-bit integer is a parameter. */
module Random {

  const TwoTo32: int := 0x1_0000_0000

  /** One value of `new Uint32Array(1)` after `crypto.getRandomValues`. */
  type Rand = x: int | 0 <= x < TwoTo32

  /** `float()`: the draw divided by 2^32. */
  function Float(rand: Rand): (r: real)
    ensures 0.0 <= r < 1.0
  {
    rand as real / TwoTo32 as real
  }

  /** `int(min = 0, max = 1)`: `Math.floor(float() * (max - min + 1)) + min`. */
  function Int(rand: Rand, min: int := 0, max: int := 1): int
  {
    (Float(rand) * (max - min + 1) as real).Floor + min
  }

  lemma FloorOfFraction(f: real, k: int)
    requires 0.0 <= f < 1.0 && k >= 1
    ensures 0 <= (f * k as real).Floor < k
  {
    assert 0.0 <= f * k as real;
    assert f * k as real < k as real by {
      assert (1.0 - f) * k as real > 0.0;
    }
  }

  /** For `min <= max` the result lies in `[min, max]`. */
  lemma IntInRange(rand: Rand, min: int, max: int)
    requires min <= max
    ensures min <= Int(rand, min, max) <= max
  {
    FloorOfFraction(Float(rand), max - min + 1);
  }

  /** With the defaults the result is 0 or 1. */
  lemma IntDefaultIsBit(rand: Rand)
    ensures Int(rand) == 0 || Int(rand) == 1
  {
    IntInRange(rand, 0, 1);
  }

  /** An empty range `max == min - 1` yields `min` whatever was drawn. */
  lemma IntEmptyRange(rand: Rand, min: int)
    ensures Int(rand, min, min - 1) == min
  {
    assert Float(rand) * 0.0 == 0.0;
  }
}
