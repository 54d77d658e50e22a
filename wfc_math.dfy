/** Integer helpers of WFCMath.h: the always-positive modulo, Min/Max/Clamp,
    and the table-driven bit counter. Fixed-width unsigned integers are
    modelled as bounded naturals. */
module WfcMath {

  /** `%` on C++ signed integers truncates toward zero: the remainder takes
      the sign of the numerator and has the magnitude of |n| mod |d|. Dafny's
      `%` is Euclidean, so the C operator is written out here. */
  function CRem(n: int, d: int): (r: int)
    requires d != 0
    ensures n >= 0 ==> 0 <= r < Abs(d)
    ensures n < 0 ==> -Abs(d) < r <= 0
  {
    if n >= 0 then n % Abs(d) else -((-n) % Abs(d))
  }

  function Abs(x: int): int { if x < 0 then -x else x }

  /** `/` on C++ signed integers, truncating toward zero. */
  function CDiv(n: int, d: int): int
    requires d != 0
  {
    if (n >= 0) == (d > 0) then Abs(n) / Abs(d) else -(Abs(n) / Abs(d))
  }

  /** On a non-negative numerator and a positive denominator the C operators
      agree with the Euclidean ones. */
  lemma CNonNegative(n: int, d: int)
    requires n >= 0 && d > 0
    ensures CDiv(n, d) == n / d && CRem(n, d) == n % d
  {
  }

  /** PositiveModulo: the C remainder, moved up by the denominator when it is
      negative. For a positive denominator it is the mathematical residue. */
  function PositiveModulo(n: int, d: int): (r: int)
    requires d != 0
    ensures d > 0 ==> 0 <= r < d && r == n % d
    ensures d > 0 && 0 <= n < d ==> r == n
  {
    var m := CRem(n, d);
    CRemResidue(n, d);
    InRangeMod(n, d);
    if m < 0 then m + d else m
  }

  lemma InRangeMod(n: int, d: int)
    ensures d > 0 && 0 <= n < d ==> n % d == n
  {
    if d > 0 && 0 <= n < d { LemmaDivModUnique(n, d, 0, n); }
  }

  /** For d > 0 the C remainder is n % d, or n % d - d when n is negative and
      not a multiple of d. */
  lemma CRemResidue(n: int, d: int)
    requires d != 0
    ensures d > 0 && CRem(n, d) < 0 ==> CRem(n, d) + d == n % d
    ensures d > 0 && CRem(n, d) >= 0 ==> CRem(n, d) == n % d
  {
    if n < 0 && d > 0 {
      var m := -n;
      var q, r := m / d, m % d;
      assert m == d * q + r;
      if r == 0 {
        LemmaDivModUnique(n, d, -q, 0);
      } else {
        LemmaDivModUnique(n, d, -q - 1, d - r);
      }
    }
  }

  function Min(a: int, b: int): (r: int)
    ensures r <= a && r <= b && (r == a || r == b)
  {
    if a < b then a else b
  }

  function Max(a: int, b: int): (r: int)
    ensures r >= a && r >= b && (r == a || r == b)
  {
    if a > b then a else b
  }

  /** Clamp(x, lo, hi) = Min(hi, Max(lo, x)). */
  function Clamp(x: int, lo: int, hi: int): (r: int)
    ensures lo <= hi ==> lo <= r <= hi
    ensures lo <= x <= hi ==> r == x
    ensures lo <= hi && x < lo ==> r == lo
    ensures lo <= hi && x > hi ==> r == hi
    ensures lo > hi ==> r == hi
  {
    Min(hi, Max(lo, x))
  }

  // ---------------------------------------------------------------------
  // Bit counting.

  /** Number of one bits of a natural number: the reference definition
      (taken as 0 below zero, so that quotients need no sign proof). */
  function Popcount(u: int): nat
    decreases if u < 0 then 0 else u
  {
    if u <= 0 then 0 else u % 2 + Popcount(u / 2)
  }

  function Pow2(n: nat): (r: nat)
    ensures r >= 1
  {
    if n == 0 then 1 else 2 * Pow2(n - 1)
  }

  const NibbleLookup: seq<nat> := [0, 1, 1, 2, 1, 2, 2, 3, 1, 2, 2, 3, 2, 3, 3, 4]

  /** CountBits(uint8_t): table lookup on the low and the high nibble. */
  function CountBits8(u: nat): (r: nat)
    requires u < 0x100
  {
    NibbleLookup[u % 16] + NibbleLookup[u / 16]
  }

  /** The 16-, 32- and 64-bit versions add the counts of the two halves. */
  function CountBits16(u: nat): (r: nat)
    requires u < 0x1_0000
  {
    CountBits8(u % 0x100) + CountBits8(u / 0x100)
  }

  function CountBits32(u: nat): (r: nat)
    requires u < 0x1_0000_0000
  {
    CountBits16(u % 0x1_0000) + CountBits16(u / 0x1_0000)
  }

  function CountBits64(u: nat): (r: nat)
    requires u < 0x1_0000_0000_0000_0000
  {
    CountBits32(u % 0x1_0000_0000) + CountBits32(u / 0x1_0000_0000)
  }

  /** Pop of `b + 2k` for one low bit b. */
  lemma PopcountStep(b: nat, k: nat)
    requires b < 2
    ensures Popcount(b + 2 * k) == b + Popcount(k)
  {
    var u := b + 2 * k;
    if u != 0 {
      assert u % 2 == b && u / 2 == k;
    }
  }

  /** Quotient and remainder are unique. */
  lemma LemmaDivModUnique(u: int, m: int, q: int, r: int)
    requires m > 0 && 0 <= r < m && u == r + m * q
    ensures u / m == q && u % m == r
  {
    var q0, r0 := u / m, u % m;
    assert u == r0 + m * q0;
    MulNonNeg(q - q0 - 1, m);
    MulNonNeg(q0 - q - 1, m);
    assert (q - q0 - 1) * m == m * q - m * q0 - m;
    assert (q0 - q - 1) * m == m * q0 - m * q - m;
  }

  lemma MulNonNeg(a: int, w: int)
    requires w >= 0
    ensures a >= 0 ==> a * w >= 0
  {
  }

  /** An index below w * h has a row below h. */
  lemma DivBelow(i: int, w: int, h: int)
    requires w > 0 && 0 <= i < w * h
    ensures 0 <= i / w < h
  {
    var q := i / w;
    assert i == q * w + i % w;
    MulNonNeg(q - h, w);
    assert (q - h) * w == q * w - h * w;
  }

  /** Row q and column c below w give an index below w * h. */
  lemma IndexBelow(q: int, c: int, w: int, h: int)
    requires 0 <= q < h && 0 <= c < w
    ensures 0 <= q * w + c < w * h
  {
    MulNonNeg(q, w);
    MulNonNeg(h - 1 - q, w);
    assert (h - 1 - q) * w == h * w - w - q * w;
  }

  /** Placing hi above the k low bits of lo adds their one bits. */
  lemma {:induction false} PopcountConcat(u: nat, lo: nat, hi: nat, k: nat)
    requires lo < Pow2(k) && u == lo + Pow2(k) * hi
    ensures Popcount(u) == Popcount(lo) + Popcount(hi)
  {
    if k == 0 {
      assert lo == 0;
    } else {
      var p := Pow2(k - 1);
      var b, h := lo % 2, lo / 2;
      var v := h + p * hi;
      assert lo == b + 2 * h;
      assert h < p;
      assert Pow2(k) * hi == 2 * (p * hi);
      assert u == b + 2 * v;
      PopcountConcat(v, h, hi, k - 1);
      PopcountStep(b, v);
      PopcountStep(b, h);
    }
  }

  lemma DivModDecompose(u: nat, m: nat)
    requires m > 0
    ensures u == u % m + m * (u / m)
    ensures u / m >= 0
  {
    var q := u / m;
    assert u == m * q + u % m;
    MulNonNeg(-q - 1, m);
    assert (-q - 1) * m == -(m * q) - m;
  }

  lemma NibbleIsPopcount(v: nat)
    requires v < 16
    ensures NibbleLookup[v] == Popcount(v)
  {
    if v == 0 {} else if v == 1 {} else if v == 2 {} else if v == 3 {}
    else if v == 4 {} else if v == 5 {} else if v == 6 {} else if v == 7 {}
    else if v == 8 {} else if v == 9 {} else if v == 10 {} else if v == 11 {}
    else if v == 12 {} else if v == 13 {} else if v == 14 {} else {}
  }

  /** Splitting a number at bit k splits its one bits. */
  lemma PopcountSplit(u: nat, k: nat, m: nat)
    requires m == Pow2(k)
    ensures Popcount(u) == Popcount(u % m) + Popcount(u / m)
  {
    DivModDecompose(u, m);
    var lo: nat, hi: nat := u % m, u / m;
    PopcountConcat(u, lo, hi, k);
  }

  lemma CountBits8IsPopcount(u: nat)
    requires u < 0x100
    ensures CountBits8(u) == Popcount(u)
  {
    NibbleIsPopcount(u % 16);
    NibbleIsPopcount(u / 16);
    Pow2Values();
    PopcountSplit(u, 4, 16);
  }

  lemma CountBits16IsPopcount(u: nat)
    requires u < 0x1_0000
    ensures CountBits16(u) == Popcount(u)
  {
    DivBelow(u, 0x100, 0x100);
    CountBits8IsPopcount(u % 0x100);
    CountBits8IsPopcount(u / 0x100);
    Pow2Values();
    PopcountSplit(u, 8, 0x100);
  }

  lemma CountBits32IsPopcount(u: nat)
    requires u < 0x1_0000_0000
    ensures CountBits32(u) == Popcount(u)
  {
    DivBelow(u, 0x1_0000, 0x1_0000);
    CountBits16IsPopcount(u % 0x1_0000);
    CountBits16IsPopcount(u / 0x1_0000);
    Pow2Values();
    PopcountSplit(u, 16, 0x1_0000);
  }

  /** CountBits on 64-bit words is the number of one bits. */
  lemma CountBits64IsPopcount(u: nat)
    requires u < 0x1_0000_0000_0000_0000
    ensures CountBits64(u) == Popcount(u)
  {
    DivBelow(u, 0x1_0000_0000, 0x1_0000_0000);
    CountBits32IsPopcount(u % 0x1_0000_0000);
    CountBits32IsPopcount(u / 0x1_0000_0000);
    Pow2Values();
    PopcountSplit(u, 32, 0x1_0000_0000);
  }

  lemma Pow2Values()
    ensures Pow2(4) == 16 && Pow2(8) == 0x100 && Pow2(16) == 0x1_0000
    ensures Pow2(32) == 0x1_0000_0000
  {
    assert Pow2(2) == 4;
    assert Pow2(4) == 16 by { Pow2Add(2, 2); }
    assert Pow2(8) == 0x100 by { Pow2Add(4, 4); }
    assert Pow2(16) == 0x1_0000 by { Pow2Add(8, 8); }
    assert Pow2(32) == 0x1_0000_0000 by { Pow2Add(16, 16); }
  }

  lemma {:induction false} Pow2Add(a: nat, b: nat)
    ensures Pow2(a + b) == Pow2(a) * Pow2(b)
  {
    if a > 0 { Pow2Add(a - 1, b); }
  }
}
