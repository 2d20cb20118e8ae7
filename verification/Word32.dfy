/** Unsigned 32-bit words: the ULONG and RING_IDX arithmetic of the driver, where every
    sum and difference wraps at 2^32. */
module Word32 {

  type u32 = x: int | 0 <= x < 0x1_0000_0000

  const MODULUS: int := 0x1_0000_0000

  /** The word that stands for an unbounded count. */
  function Wrap(x: int): u32 {
    x % 0x1_0000_0000
  }

  function Add(a: u32, b: int): u32 {
    Wrap(a + b)
  }

  function Sub(a: u32, b: u32): u32 {
    Wrap(a - b)
  }

  function Min(a: int, b: int): int {
    if a < b then a else b
  }

  /** `x + k * 2^32` and `x` are the same word. */
  lemma WrapPeriodic(x: int, k: int)
    ensures Wrap(x + k * MODULUS) == Wrap(x)
  {
    var q := x / MODULUS;
    assert x + k * MODULUS == (q + k) * MODULUS + x % MODULUS;
    QuotientUnique(x + k * MODULUS, q + k, x % MODULUS);
  }

  lemma QuotientUnique(x: int, q: int, r: int)
    requires x == q * MODULUS + r && 0 <= r < MODULUS
    ensures x % MODULUS == r && x / MODULUS == q
  {
  }

  /** A difference of two free-running counters is exact as long as the true distance fits
      one word, however often each counter has wrapped. */
  lemma SubOfWrapped(a: int, b: int)
    ensures Sub(Wrap(a), Wrap(b)) == Wrap(a - b)
    ensures 0 <= a - b < MODULUS ==> Sub(Wrap(a), Wrap(b)) == a - b
  {
    var k := b / MODULUS - a / MODULUS;
    assert Wrap(a) - Wrap(b) == (a - b) + k * MODULUS;
    WrapPeriodic(a - b, k);
  }

  /** The same, read off two index variables. */
  lemma SubExact(x: u32, y: u32, a: int, b: int)
    requires x == Wrap(a) && y == Wrap(b) && 0 <= a - b < MODULUS
    ensures Sub(x, y) == a - b
  {
    SubOfWrapped(a, b);
  }

  lemma AddOfWrapped(a: int, n: int)
    ensures Add(Wrap(a), n) == Wrap(a + n)
  {
    var k := -(a / MODULUS);
    assert Wrap(a) + n == (a + n) + k * MODULUS;
    WrapPeriodic(a + n, k);
  }

  /** Two counters less than 2^32 apart that wrap to the same word are equal. */
  lemma WrapInjective(a: int, b: int)
    requires Wrap(a) == Wrap(b) && -MODULUS < a - b < MODULUS
    ensures a == b
  {
    var k := a / MODULUS - b / MODULUS;
    assert a - b == k * MODULUS;
  }

  /** Reducing a wrapped counter by a ring size that divides 2^32 gives the same slot as
      reducing the unbounded counter. */
  lemma SlotOfWrapped(a: int, size: int)
    requires size > 0 && MODULUS % size == 0
    ensures Wrap(a) % size == a % size
  {
    var c := MODULUS / size;
    assert MODULUS == size * c;
    var q := a / MODULUS;
    assert a == Wrap(a) + q * MODULUS;
    assert q * MODULUS == (q * c) * size by { assert q * (size * c) == (q * c) * size; }
    ModShift(Wrap(a), q * c, size);
  }

  lemma ModShift(x: int, k: int, size: int)
    requires size > 0
    ensures (x + k * size) % size == x % size
  {
    var q := x / size;
    var r := x % size;
    assert x == q * size + r;
    var y := x + k * size;
    assert y == (q + k) * size + r by { assert (q + k) * size == q * size + k * size; }
    var d := y / size - (q + k);
    var e := y % size;
    assert y == (y / size) * size + e;
    assert (y / size) * size == d * size + (q + k) * size by {
      assert (d + (q + k)) * size == d * size + (q + k) * size;
    }
    assert d * size == r - e;
    MultipleInsideRange(d, size);
  }

  lemma MultipleInsideRange(d: int, size: int)
    requires size > 0 && -size < d * size < size
    ensures d == 0
  {
  }

  /** MASK_XENCONS_IDX(idx, ring), `idx & (sizeof(ring) - 1)`, on the two ring sizes of
      struct xencons_interface is reduction modulo the size. */
  lemma MaskIsRemainder(idx: bv32)
    ensures idx & 1023 == idx % 1024
    ensures idx & 2047 == idx % 2048
  {
  }

  lemma WrapOfWord(x: u32)
    ensures Wrap(x) == x
  {
  }

  /** Unsigned 32-bit sums and differences: they wrap at 4294967296. */
  lemma WordsWrap(a: u32, b: u32)
    ensures Add(a, b) == if a + b < 4294967296 then a + b else a + b - 4294967296
    ensures Sub(a, b) == if a >= b then a - b else a - b + 4294967296
  {
    if a + b >= 4294967296 {
      WrapPeriodic(a + b - 4294967296, 1);
    }
    if a < b {
      WrapPeriodic(a - b + 4294967296, -1);
    }
  }
}
