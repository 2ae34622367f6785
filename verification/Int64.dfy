/** The 64-bit two's-complement integers behind every weight in the system. */
module Int64 {

  const MIN := -0x8000_0000_0000_0000
  const MAX := 0x7FFF_FFFF_FFFF_FFFF
  const WIDTH := 0x1_0000_0000_0000_0000

  type int64 = x: int | MIN <= x <= MAX

  /** The machine value of a mathematical sum or difference. */
  function Wrap(x: int): (r: int64)
    ensures MIN <= x <= MAX ==> r == x
  {
    (x - MIN) % WIDTH + MIN
  }

  /** How often x went round. */
  function Laps(x: int): (q: int)
    ensures x == Wrap(x) + q * WIDTH
  {
    (x - MIN) / WIDTH
  }

  /** Two numbers have the same machine value exactly when they differ by a multiple of the width. */
  lemma WrapSame(x: int, y: int, q: int)
    requires x == y + q * WIDTH
    ensures Wrap(x) == Wrap(y)
  {
    assert Wrap(x) - Wrap(y) == (q + Laps(y) - Laps(x)) * WIDTH;
  }

  /** Wrapping early or late makes no difference to a sum. */
  lemma WrapAdd(x: int, y: int)
    ensures Wrap(Wrap(x) + y) == Wrap(x + y)
  {
    WrapSame(x + y, Wrap(x) + y, Laps(x));
  }

  /** A shift by less than the width is always visible. */
  lemma WrapDiffers(x: int, d: int)
    requires d != 0 && -WIDTH < d < WIDTH
    ensures Wrap(x) != Wrap(x + d)
  {
    assert Wrap(x + d) - Wrap(x) == d + (Laps(x) - Laps(x + d)) * WIDTH;
  }
}
