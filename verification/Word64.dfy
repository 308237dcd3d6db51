/** Unsigned 64-bit values, which wrap around. */
module Word64 {

  const WIDTH: int := 0x1_0000_0000_0000_0000

  function Wrap(x: int): (r: int)
    ensures 0 <= r < WIDTH
  {
    x % WIDTH
  }

  /** The value modulo 2^64. */
  lemma WrapIsModulo(x: int)
    ensures 0 <= Wrap(x) < 0x1_0000_0000_0000_0000 && (x - Wrap(x)) % 0x1_0000_0000_0000_0000 == 0
  {
  }

  lemma WrapOnce(x: int, y: int)
    ensures Wrap(Wrap(x) + y) == Wrap(x + y)
  {
    var k := x / WIDTH;
    assert x == k * WIDTH + Wrap(x);
  }

  lemma WrapTimes(x: int, y: int)
    ensures Wrap(Wrap(x) * y) == Wrap(x * y)
  {
    var k := x / WIDTH;
    assert x == k * WIDTH + Wrap(x);
    assert x * y == Wrap(x) * y + (k * y) * WIDTH by {
      assert (k * WIDTH) * y == (k * y) * WIDTH;
      assert (k * WIDTH + Wrap(x)) * y == (k * WIDTH) * y + Wrap(x) * y;
    }
  }
}
