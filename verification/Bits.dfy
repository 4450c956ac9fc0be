/** JavaScript's 32-bit integer operators, spelled out over the integers. */
module Bits {

  const TWO_32: int := 0x1_0000_0000

  function Pow2(n: nat): (p: nat)
    ensures p > 0
  {
    if n == 0 then 1 else 2 * Pow2(n - 1)
  }

  function ToUint32(x: int): (u: nat)
    ensures u < TWO_32
  {
    x % TWO_32
  }

  function ToInt32(x: int): (i: int)
    ensures -0x8000_0000 <= i < 0x8000_0000
  {
    var u := ToUint32(x);
    if u < 0x8000_0000 then u else u - TWO_32
  }

  /** x << n */
  function ShiftLeft(x: int, n: nat): int {
    ToInt32(ToInt32(x) * Pow2(n % 32))
  }

  /** Bitwise "and" of two naturals. */
  function And(x: nat, y: nat): nat {
    if x == 0 || y == 0 then 0 else 2 * And(x / 2, y / 2) + (x % 2) * (y % 2)
  }

  /** x & y, on the two's complement patterns. */
  function BitAnd(x: int, y: int): int {
    ToInt32(And(ToUint32(x), ToUint32(y)))
  }

  // ---------------------------------------------------------------- arithmetic

  lemma Times(d: nat, a: nat)
    requires a >= 1
    ensures d * a >= d
  {
  }

  /** Quotient and remainder are the only ones that fit. */
  lemma DivMod(x: int, d: nat, q: int, r: int)
    requires d > 0 && x == d * q + r && 0 <= r < d
    ensures x / d == q && x % d == r
  {
    var (q', r') := (x / d, x % d);
    assert x == d * q' + r';
    assert d * (q - q') == d * q - d * q' == r' - r;
    assert d * (q' - q) == d * q' - d * q == r - r';
    if q > q' { Times(d, q - q'); }
    if q < q' { Times(d, q' - q); }
  }

  lemma ModOfDouble(x: nat, m: nat)
    requires m > 0
    ensures x % (2 * m) == 2 * (x / 2 % m) + x % 2
  {
    var (half, bit) := (x / 2, x % 2);
    var (q, r) := (half / m, half % m);
    assert half == m * q + r;
    assert x == 2 * m * q + (2 * r + bit) by {
      assert x == 2 * half + bit;
      assert 2 * (m * q) == 2 * m * q;
    }
    DivMod(x, 2 * m, q, 2 * r + bit);
  }

  lemma {:induction false} PowersDivide(n: nat, k: nat)
    requires k <= n
    ensures Pow2(n) >= Pow2(k) && Pow2(n) == Pow2(n - k) * Pow2(k)
    decreases n
  {
    if k < n {
      PowersDivide(n - 1, k);
      assert Pow2(n) == 2 * (Pow2(n - 1 - k) * Pow2(k)) == 2 * Pow2(n - 1 - k) * Pow2(k);
    }
  }

  lemma AndUnfolds(x: nat, y: nat)
    requires x > 0 && y > 0
    ensures And(x, y) == 2 * And(x / 2, y / 2) + (x % 2) * (y % 2)
  {
  }

  /** One bit more, above a mask's zeros. */
  lemma MaskedBelow(x: nat, top: nat, low: nat)
    requires x > 0 && 0 < low < top && And(x / 2, top - low) == x / 2 - x / 2 % low
    ensures And(x, 2 * top - 2 * low) == x - x % (2 * low)
  {
    hide And;
    var mask := 2 * top - 2 * low;
    AndUnfolds(x, mask);
    assert mask / 2 == top - low && mask % 2 == 0;
    ModOfDouble(x, low);
  }

  /** One bit more, where the mask has ones only. */
  lemma MaskedByOnes(x: nat, top: nat)
    requires x > 0 && top > 0 && And(x / 2, top - 1) == x / 2
    ensures And(x, 2 * top - 1) == x
  {
    hide And;
    var mask := 2 * top - 1;
    AndUnfolds(x, mask);
    assert mask / 2 == top - 1 && mask % 2 == 1;
  }

  lemma PowerUp(n: nat)
    requires n > 0
    ensures Pow2(n) == 2 * Pow2(n - 1)
  {
  }

  lemma AndOfZero(x: nat, y: nat)
    requires x == 0 || y == 0
    ensures And(x, y) == 0
  {
  }

  /** Masking with ones above bit k clears the bits below it. */
  lemma {:induction false} AndWithHighOnes(x: nat, n: nat, k: nat)
    requires k <= n && x < Pow2(n)
    ensures Pow2(k) <= Pow2(n) && And(x, Pow2(n) - Pow2(k)) == x - x % Pow2(k)
    decreases n
  {
    hide Pow2, And;
    PowersDivide(n, k);
    if x == 0 || k == n {
      AndOfZero(x, Pow2(n) - Pow2(k));
      DivMod(x, Pow2(k), 0, x);
    } else if k == 0 {
      One();
      PowerUp(n);
      AndWithHighOnes(x / 2, n - 1, 0);
      MaskedByOnes(x, Pow2(n - 1));
    } else {
      PowerUp(n);
      PowerUp(k);
      AndWithHighOnes(x / 2, n - 1, k - 1);
      PowersDiffer(n - 1, k - 1);
      MaskedBelow(x, Pow2(n - 1), Pow2(k - 1));
    }
  }

  lemma One()
    ensures Pow2(0) == 1
  {
  }

  lemma PowersDiffer(n: nat, k: nat)
    requires k < n
    ensures Pow2(k) < Pow2(n)
  {
    PowersDivide(n - 1, k);
  }

  lemma Pow2Of32()
    ensures Pow2(32) == TWO_32
  {
    assert Pow2(8) == 0x100;
    assert Pow2(16) == 0x10000;
    assert Pow2(24) == 0x100_0000;
  }

  lemma PatternRoundTrip(u: nat)
    requires u < TWO_32
    ensures ToUint32(ToInt32(u)) == u
  {
    DivMod(u, TWO_32, 0, u);
    if u >= 0x8000_0000 { DivMod(u - TWO_32, TWO_32, -1, u); }
  }

  /** The netmask of a prefix length, as the source computes it. */
  function Mask(bits: nat): int
    requires bits <= 32
  {
    if bits == 0 then 0 else ToUint32(ShiftLeft(0xffff_ffff, 32 - bits))
  }

  /** For every prefix length, the signed shift leaves ones in the prefix and zeros after it. */
  lemma MaskIsPrefix(bits: nat)
    requires 1 <= bits <= 32
    ensures Pow2(32 - bits) <= Pow2(31) < TWO_32
    ensures Mask(bits) == TWO_32 - Pow2(32 - bits)
  {
    hide Pow2, ToInt32, ToUint32;
    var k := 32 - bits;
    HalfOf32();
    PowersDivide(31, k);
    AllOnes();
    assert k % 32 == k;
    var low: int := Pow2(k);
    assert -1 * Pow2(k) == -low;
    NegativeWord(low);
  }

  lemma HalfOf32()
    ensures Pow2(31) == 0x8000_0000 && Pow2(32) == TWO_32
  {
    Pow2Of32();
  }

  lemma AllOnes()
    ensures ToInt32(0xffff_ffff) == -1
  {
    DivMod(0xffff_ffff, TWO_32, 0, 0xffff_ffff);
  }

  /** A negative number that fits keeps its value, and its pattern is its distance from the end. */
  lemma NegativeWord(low: int)
    requires 0 < low <= 0x8000_0000
    ensures ToInt32(-low) == -low && ToUint32(-low) == TWO_32 - low
  {
    DivMod(-low, TWO_32, -1, TWO_32 - low);
  }

  /** The mask test: value and base agree on the first `bits` bits. */
  predicate SamePrefix(value: int, base: int, bits: nat)
    requires bits <= 32
  {
    ToUint32(BitAnd(value, Mask(bits))) == ToUint32(BitAnd(base, Mask(bits)))
  }

  lemma MaskedValue(value: nat, bits: nat)
    requires value < TWO_32 && 1 <= bits <= 32
    ensures ToUint32(BitAnd(value, Mask(bits))) == value - value % Pow2(32 - bits)
  {
    hide Pow2, And, Mask, ToInt32, ToUint32;
    var k := 32 - bits;
    HalfOf32();
    MaskIsPrefix(bits);
    WordIsItself(value);
    WordIsItself(TWO_32 - Pow2(k));
    AndWithHighOnes(value, 32, k);
    Remainder(value, Pow2(k));
    PatternRoundTrip(value - value % Pow2(k));
  }

  lemma WordIsItself(u: nat)
    requires u < TWO_32
    ensures ToUint32(u) == u
  {
    DivMod(u, TWO_32, 0, u);
  }

  lemma Remainder(value: nat, d: nat)
    requires d > 0
    ensures 0 <= value % d <= value
  {
    assert value == d * (value / d) + value % d;
  }

  /** For every prefix length 1..32 the mask test is membership in the block of addresses around the base. */
  lemma SamePrefixIsInterval(value: nat, base: nat, bits: nat)
    requires value < TWO_32 && base < TWO_32 && 1 <= bits <= 32
    ensures
      var size := Pow2(32 - bits);
      var first := base - base % size;
      SamePrefix(value, base, bits) <==> first <= value < first + size
  {
    MaskedValue(value, bits);
    MaskedValue(base, bits);
    BlocksAreIntervals(value, base, Pow2(32 - bits));
  }

  lemma BlocksAreIntervals(value: int, base: int, size: nat)
    requires size > 0
    ensures value - value % size == base - base % size <==> base - base % size <= value < base - base % size + size
  {
    var p := base / size;
    assert base - base % size == size * p;
    if size * p <= value < size * p + size { DivMod(value, size, p, value - size * p); }
  }
}
