/** Integers as the PostgreSQL wire format carries them. */
module Wire {
  import opened Wrappers

  function Power256(n: nat): (p: nat)
    ensures p > 0
  {
    if n == 0 then 1 else 256 * Power256(n - 1)
  }

  /** A whole number in `width` bytes, the most significant first, modulo the width: a negative one is
      sent in two's complement. */
  function BigEndian(n: int, width: nat): (b: seq<Byte>)
    ensures |b| == width
    decreases width
  {
    if width == 0 then [] else BigEndian(n / 256, width - 1) + [(n % 256) as Byte]
  }

  /** The numbers two's complement has room for. */
  predicate Fits(n: int, width: nat)
    requires width > 0
  {
    -128 * Power256(width - 1) <= n < 128 * Power256(width - 1)
  }

  lemma FitsShorter(n: int, width: nat)
    requires width > 1 && Fits(n, width)
    ensures Fits(n / 256, width - 1)
  {
    assert Power256(width - 1) == 256 * Power256(width - 2);
  }
}
