/** Go's `int64` arithmetic: results are reduced modulo 2^64 to the range from -2^63 up to 2^63. */
module Int64 {

  const TWO63: int := 0x8000_0000_0000_0000

  /** The value of an `int64` computation whose exact result is `x`. */
  function Wrap64(x: int): int {
    (x + TWO63) % (2 * TWO63) - TWO63
  }

  lemma WrapExact(x: int)
    ensures Wrap64(x) == x <==> -TWO63 <= x < TWO63
  {
  }

  lemma WrapAdd(a: int, b: int)
    ensures Wrap64(Wrap64(a) + Wrap64(b)) == Wrap64(a + b)
  {
  }
}
