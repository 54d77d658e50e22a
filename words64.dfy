/** 64-bit unsigned words (uint64_t) as their values, 0 up to 2^64 - 1.
    Addition, subtraction and multiplication wrap around modulo 2^64. The
    bitwise operators are computed on the value one low bit at a time; each
    is proved to act bit by bit as the C++ operator does, and two words
    with the same 64 bits are equal, so their identities follow one bit at
    a time. */
module Words64 {
  import opened WfcMath

  const WIDTH: nat := 64

  /** 2^64: uint64_t arithmetic wraps around modulo this. */
  const RANGE: nat := 0x1_0000_0000_0000_0000

  type Word = n: nat | n < RANGE

  lemma Pow2Width()
    ensures Pow2(WIDTH) == RANGE
  {
    Pow2Values();
    Pow2Add(32, 32);
  }

  // ---------------------------------------------------------------------
  // Arithmetic

  function Add(a: Word, b: Word): Word
  {
    (a + b) % RANGE
  }

  function Sub(a: Word, b: Word): Word
  {
    (a - b) % RANGE
  }

  function Mul(a: Word, b: Word): Word
  {
    (a * b) % RANGE
  }

  // ---------------------------------------------------------------------
  // The bitwise operators on the low n bits of numbers

  function XorN(a: nat, b: nat, n: nat): nat
  {
    if n == 0 then 0 else (a % 2 + b % 2) % 2 + 2 * XorN(a / 2, b / 2, n - 1)
  }

  function OrN(a: nat, b: nat, n: nat): nat
  {
    if n == 0 then 0 else (a % 2 + b % 2 + 1) / 2 + 2 * OrN(a / 2, b / 2, n - 1)
  }

  function NotN(x: nat, n: nat): nat
  {
    if n == 0 then 0 else (1 - x % 2) + 2 * NotN(x / 2, n - 1)
  }

  /** The low n bits of x. */
  function LowN(x: nat, n: nat): nat
  {
    if n == 0 then 0 else x % 2 + 2 * LowN(x / 2, n - 1)
  }

  /** The low n bits of x shifted left by k. */
  function ShlN(x: nat, k: nat, n: nat): nat
  {
    if n == 0 then 0 else if k == 0 then LowN(x, n) else 2 * ShlN(x, k - 1, n - 1)
  }

  /** x shifted right by k. */
  function ShrN(x: nat, k: nat): nat
  {
    if k == 0 then x else ShrN(x / 2, k - 1)
  }

  // The bounds of the bitwise operators, proved apart from the functions
  // so that an unfolded call carries no bound of its own.

  lemma {:induction false} XorNBelow(a: nat, b: nat, n: nat)
    ensures XorN(a, b, n) < Pow2(n)
  {
    if n > 0 {
      XorNBelow(a / 2, b / 2, n - 1);
    }
  }

  lemma {:induction false} OrNBelow(a: nat, b: nat, n: nat)
    ensures OrN(a, b, n) < Pow2(n)
  {
    if n > 0 {
      OrNBelow(a / 2, b / 2, n - 1);
    }
  }

  lemma {:induction false} NotNBelow(x: nat, n: nat)
    ensures NotN(x, n) < Pow2(n)
  {
    if n > 0 {
      NotNBelow(x / 2, n - 1);
    }
  }

  lemma {:induction false} LowNBelow(x: nat, n: nat)
    ensures LowN(x, n) < Pow2(n)
  {
    if n > 0 {
      LowNBelow(x / 2, n - 1);
    }
  }

  lemma {:induction false} ShlNBelow(x: nat, k: nat, n: nat)
    ensures ShlN(x, k, n) < Pow2(n)
  {
    if n > 0 {
      if k == 0 {
        LowNBelow(x, n);
      } else {
        ShlNBelow(x, k - 1, n - 1);
      }
    }
  }

  lemma {:induction false} ShrNBelow(x: nat, k: nat)
    ensures ShrN(x, k) <= x
  {
    if k > 0 {
      ShrNBelow(x / 2, k - 1);
    }
  }

  // ---------------------------------------------------------------------
  // Bitwise operators

  function Xor(a: Word, b: Word): Word
  {
    Pow2Width();
    XorNBelow(a, b, WIDTH);
    XorN(a, b, WIDTH)
  }

  function Or(a: Word, b: Word): Word
  {
    Pow2Width();
    OrNBelow(a, b, WIDTH);
    OrN(a, b, WIDTH)
  }

  function Not(x: Word): Word
  {
    Pow2Width();
    NotNBelow(x, WIDTH);
    NotN(x, WIDTH)
  }

  /** x << k, keeping the low 64 bits. */
  function Shl(x: Word, k: nat): Word
  {
    Pow2Width();
    ShlNBelow(x, k, WIDTH);
    ShlN(x, k, WIDTH)
  }

  function Shr(x: Word, k: nat): Word
  {
    ShrNBelow(x, k);
    ShrN(x, k)
  }

  /** rotl(x, k) = (x << k) | (x >> (width - k)), as the source writes it
      for amounts strictly between zero and the width. */
  function Rotl(x: Word, k: nat): Word
    requires 0 < k < WIDTH
  {
    Or(Shl(x, k), Shr(x, WIDTH - k))
  }

  // ---------------------------------------------------------------------
  // Bits

  /** Bit i of a number. */
  function Bit(n: nat, i: nat): bool
  {
    (n / Pow2(i)) % 2 == 1
  }

  /** Dividing by 2^(k+1) is halving and then dividing by 2^k. */
  lemma DivPow2Swap(n: nat, k: nat)
    ensures n / Pow2(k + 1) == (n / 2) / Pow2(k)
  {
    var p := Pow2(k);
    var h := n / 2;
    DivModDecompose(n, 2);
    DivModDecompose(h, p);
    var r := n % 2 + 2 * (h % p);
    assert Pow2(k + 1) == 2 * p;
    assert n == r + (2 * p) * (h / p);
    LemmaDivModUnique(n, 2 * p, h / p, r);
  }

  /** Bit 0 of a number is its remainder by 2, and bit i + 1 is bit i of
      its half. */
  lemma BitHalf(x: nat, i: nat)
    ensures Bit(x, 0) == (x % 2 == 1)
    ensures Bit(x, i + 1) == Bit(x / 2, i)
  {
    DivPow2Swap(x, i);
  }

  /** The bits of c + 2r, for a low bit c: c, then the bits of r. */
  lemma BitStep(c: nat, r: nat, i: nat)
    requires c < 2
    ensures Bit(c + 2 * r, 0) == (c == 1)
    ensures Bit(c + 2 * r, i + 1) == Bit(r, i)
  {
    BitHalf(c + 2 * r, i);
    LemmaDivModUnique(c + 2 * r, 2, r, c);
  }

  /** A number below 2^n has no bit set from bit n on. */
  lemma HighBitClear(x: nat, n: nat, j: nat)
    requires x < Pow2(n) && j >= n
    ensures !Bit(x, j)
  {
    Pow2Add(n, j - n);
    MulNonNeg(Pow2(j - n) - 1, Pow2(n));
    assert Pow2(n) * Pow2(j - n) == Pow2(n) + (Pow2(j - n) - 1) * Pow2(n);
    LemmaDivModUnique(x, Pow2(j), 0, x);
  }

  /** Two numbers below 2^n with the same n low bits are equal. */
  lemma {:induction false} BitsDetermine(x: nat, y: nat, n: nat)
    requires x < Pow2(n) && y < Pow2(n)
    requires forall i | 0 <= i < n :: Bit(x, i) == Bit(y, i)
    ensures x == y
  {
    if n > 0 {
      BitHalf(x, 0);
      BitHalf(y, 0);
      assert Bit(x, 0) == Bit(y, 0);
      forall i | 0 <= i < n - 1
        ensures Bit(x / 2, i) == Bit(y / 2, i)
      {
        BitHalf(x, i);
        BitHalf(y, i);
        assert Bit(x, i + 1) == Bit(y, i + 1);
      }
      BitsDetermine(x / 2, y / 2, n - 1);
    }
  }

  /** Two words with the same 64 bits are equal. */
  lemma WordsEqual(x: Word, y: Word)
    requires forall i | 0 <= i < WIDTH :: Bit(x, i) == Bit(y, i)
    ensures x == y
  {
    Pow2Width();
    BitsDetermine(x, y, WIDTH);
  }

  /** Zero has no bit set. */
  lemma ZeroBit(i: nat)
    ensures !Bit(0, i)
  {
  }

  // ---------------------------------------------------------------------
  // The operators bit by bit

  lemma {:induction false} XorNBit(a: nat, b: nat, n: nat, i: nat)
    requires i < n
    ensures Bit(XorN(a, b, n), i) == (Bit(a, i) != Bit(b, i))
  {
    var c := (a % 2 + b % 2) % 2;
    var r := XorN(a / 2, b / 2, n - 1);
    if i == 0 {
      BitHalf(a, 0);
      BitHalf(b, 0);
      BitStep(c, r, 0);
    } else {
      BitHalf(a, i - 1);
      BitHalf(b, i - 1);
      BitStep(c, r, i - 1);
      XorNBit(a / 2, b / 2, n - 1, i - 1);
    }
  }

  lemma {:induction false} OrNBit(a: nat, b: nat, n: nat, i: nat)
    requires i < n
    ensures Bit(OrN(a, b, n), i) == (Bit(a, i) || Bit(b, i))
  {
    var c := (a % 2 + b % 2 + 1) / 2;
    var r := OrN(a / 2, b / 2, n - 1);
    if i == 0 {
      BitHalf(a, 0);
      BitHalf(b, 0);
      BitStep(c, r, 0);
    } else {
      BitHalf(a, i - 1);
      BitHalf(b, i - 1);
      BitStep(c, r, i - 1);
      OrNBit(a / 2, b / 2, n - 1, i - 1);
    }
  }

  lemma {:induction false} NotNBit(x: nat, n: nat, i: nat)
    requires i < n
    ensures Bit(NotN(x, n), i) == !Bit(x, i)
  {
    var c := 1 - x % 2;
    var r := NotN(x / 2, n - 1);
    if i == 0 {
      BitHalf(x, 0);
      BitStep(c, r, 0);
    } else {
      BitHalf(x, i - 1);
      BitStep(c, r, i - 1);
      NotNBit(x / 2, n - 1, i - 1);
    }
  }

  lemma {:induction false} LowNBit(x: nat, n: nat, i: nat)
    requires i < n
    ensures Bit(LowN(x, n), i) == Bit(x, i)
  {
    var r := LowN(x / 2, n - 1);
    if i == 0 {
      BitHalf(x, 0);
      BitStep(x % 2, r, 0);
    } else {
      BitHalf(x, i - 1);
      BitStep(x % 2, r, i - 1);
      LowNBit(x / 2, n - 1, i - 1);
    }
  }

  lemma {:induction false} ShlNBit(x: nat, k: nat, n: nat, i: nat)
    requires i < n
    ensures Bit(ShlN(x, k, n), i) == (i >= k && Bit(x, i - k))
  {
    if k == 0 {
      LowNBit(x, n, i);
    } else {
      var r := ShlN(x, k - 1, n - 1);
      if i == 0 {
        BitStep(0, r, 0);
      } else {
        BitStep(0, r, i - 1);
        ShlNBit(x, k - 1, n - 1, i - 1);
      }
    }
  }

  lemma {:induction false} ShrNBit(x: nat, k: nat, i: nat)
    ensures Bit(ShrN(x, k), i) == Bit(x, i + k)
  {
    if k > 0 {
      ShrNBit(x / 2, k - 1, i);
      BitHalf(x, i + k - 1);
    }
  }

  /** Bit i of a ^ b is set when exactly one of the bits i of a and b is. */
  lemma XorBit(a: Word, b: Word, i: nat)
    requires i < WIDTH
    ensures Bit(Xor(a, b), i) == (Bit(a, i) != Bit(b, i))
  {
    XorNBit(a, b, WIDTH, i);
  }

  /** Bit i of a | b is set when either bit i is. */
  lemma OrBit(a: Word, b: Word, i: nat)
    requires i < WIDTH
    ensures Bit(Or(a, b), i) == (Bit(a, i) || Bit(b, i))
  {
    OrNBit(a, b, WIDTH, i);
  }

  /** Bit i of ~x is the flipped bit i of x. */
  lemma NotBit(x: Word, i: nat)
    requires i < WIDTH
    ensures Bit(Not(x), i) == !Bit(x, i)
  {
    NotNBit(x, WIDTH, i);
  }

  /** Bit i of x << k is bit i - k of x, and the low k bits are clear. */
  lemma ShlBit(x: Word, k: nat, i: nat)
    requires i < WIDTH
    ensures Bit(Shl(x, k), i) == (i >= k && Bit(x, i - k))
  {
    ShlNBit(x, k, WIDTH, i);
  }

  /** Bit i of x >> k is bit i + k of x, and the high k bits are clear. */
  lemma ShrBit(x: Word, k: nat, i: nat)
    requires i < WIDTH
    ensures Bit(Shr(x, k), i) == (i + k < WIDTH && Bit(x, i + k))
  {
    ShrNBit(x, k, i);
    if i + k >= WIDTH {
      Pow2Width();
      HighBitClear(x, WIDTH, i + k);
    }
  }

  /** rotl is the left rotation: bit i of rotl(x, k) is bit i - k of x,
      taken round the end. */
  lemma RotlBit(x: Word, k: nat, i: nat)
    requires 0 < k < WIDTH && i < WIDTH
    ensures Bit(Rotl(x, k), i) == if i >= k then Bit(x, i - k) else Bit(x, i + WIDTH - k)
  {
    OrBit(Shl(x, k), Shr(x, WIDTH - k), i);
    ShlBit(x, k, i);
    ShrBit(x, WIDTH - k, i);
  }

  // ---------------------------------------------------------------------
  // Identities

  /** The complement of zero's n low bits is 2^n - 1. */
  lemma {:induction false} NotNZero(n: nat)
    ensures NotN(0, n) == Pow2(n) - 1
  {
    if n > 0 {
      NotNZero(n - 1);
    }
  }

  /** ~0 is the largest word. */
  lemma NotZero()
    ensures Not(0) == RANGE - 1
  {
    Pow2Width();
    NotNZero(WIDTH);
  }

  /** Exclusive or is commutative and associative, clears a word xor'ed
      with itself and leaves a word xor'ed with zero alone. */
  lemma XorLaws(a: Word, b: Word, c: Word)
    ensures Xor(a, b) == Xor(b, a)
    ensures Xor(Xor(a, b), c) == Xor(a, Xor(b, c))
    ensures Xor(a, a) == 0 && Xor(a, 0) == a
  {
    forall i | 0 <= i < WIDTH
      ensures Bit(Xor(a, b), i) == Bit(Xor(b, a), i)
      ensures Bit(Xor(Xor(a, b), c), i) == Bit(Xor(a, Xor(b, c)), i)
      ensures Bit(Xor(a, a), i) == Bit(0, i) && Bit(Xor(a, 0), i) == Bit(a, i)
    {
      XorBit(a, b, i);
      XorBit(b, a, i);
      XorBit(Xor(a, b), c, i);
      XorBit(b, c, i);
      XorBit(a, Xor(b, c), i);
      XorBit(a, a, i);
      XorBit(a, 0, i);
      ZeroBit(i);
    }
    WordsEqual(Xor(a, b), Xor(b, a));
    WordsEqual(Xor(Xor(a, b), c), Xor(a, Xor(b, c)));
    WordsEqual(Xor(a, a), 0);
    WordsEqual(Xor(a, 0), a);
  }

  /** Xor'ing the same word in twice, on either side, cancels out. */
  lemma XorCancel(a: Word, b: Word)
    ensures Xor(Xor(a, b), b) == a && Xor(Xor(b, a), b) == a
    ensures Xor(b, Xor(b, a)) == a && Xor(b, Xor(a, b)) == a
  {
    XorLaws(a, b, b);
    XorLaws(b, b, a);
    XorLaws(b, a, b);
    XorLaws(a, b, a);
    XorLaws(0, a, a);
  }

  /** A shift distributes over exclusive or. */
  lemma ShlXor(a: Word, b: Word, k: nat)
    ensures Shl(Xor(a, b), k) == Xor(Shl(a, k), Shl(b, k))
  {
    forall i | 0 <= i < WIDTH
      ensures Bit(Shl(Xor(a, b), k), i) == Bit(Xor(Shl(a, k), Shl(b, k)), i)
    {
      ShlBit(Xor(a, b), k, i);
      if i >= k {
        XorBit(a, b, i - k);
      }
      XorBit(Shl(a, k), Shl(b, k), i);
      ShlBit(a, k, i);
      ShlBit(b, k, i);
    }
    WordsEqual(Shl(Xor(a, b), k), Xor(Shl(a, k), Shl(b, k)));
  }

  /** Shifting zero gives zero. */
  lemma ShlZero(k: nat)
    ensures Shl(0, k) == 0
  {
    forall i | 0 <= i < WIDTH
      ensures Bit(Shl(0, k), i) == Bit(0, i)
    {
      ShlBit(0, k, i);
      ZeroBit(i);
      if i >= k {
        ZeroBit(i - k);
      }
    }
    WordsEqual(Shl(0, k), 0);
  }

  /** The low n bits of a number below 2^n are the number. */
  lemma {:induction false} LowNKeeps(x: nat, n: nat)
    requires x < Pow2(n)
    ensures LowN(x, n) == x
  {
    if n > 0 {
      LowNKeeps(x / 2, n - 1);
    }
  }

  /** Shifting the n low bits by n or more clears them. */
  lemma {:induction false} ShlNWide(x: nat, k: nat, n: nat)
    requires k >= n
    ensures ShlN(x, k, n) == 0
  {
    if n > 0 {
      ShlNWide(x, k - 1, n - 1);
    }
  }

  /** A shift by zero keeps the word. */
  lemma ShlNone(x: Word)
    ensures Shl(x, 0) == x
  {
    Pow2Width();
    LowNKeeps(x, WIDTH);
  }

  /** A shift by the width or more clears the word. */
  lemma ShlWide(x: Word, k: nat)
    requires k >= WIDTH
    ensures Shl(x, k) == 0
  {
    ShlNWide(x, k, WIDTH);
  }

  /** Shifting twice is shifting by the sum. */
  lemma ShlShl(x: Word, j: nat, k: nat)
    ensures Shl(Shl(x, j), k) == Shl(x, j + k)
  {
    forall i | 0 <= i < WIDTH
      ensures Bit(Shl(Shl(x, j), k), i) == Bit(Shl(x, j + k), i)
    {
      ShlBit(Shl(x, j), k, i);
      if i >= k {
        ShlBit(x, j, i - k);
      }
      ShlBit(x, j + k, i);
    }
    WordsEqual(Shl(Shl(x, j), k), Shl(x, j + k));
  }

  /** Rotating by k and then by the rest of the width gives the word
      back. */
  lemma RotlRoundTrip(x: Word, k: nat)
    requires 0 < k < WIDTH
    ensures Rotl(Rotl(x, k), WIDTH - k) == x
  {
    var y := Rotl(x, k);
    forall i | 0 <= i < WIDTH
      ensures Bit(Rotl(y, WIDTH - k), i) == Bit(x, i)
    {
      RotlBit(y, WIDTH - k, i);
      if i >= WIDTH - k {
        RotlBit(x, k, i - (WIDTH - k));
      } else {
        RotlBit(x, k, i + k);
      }
    }
    WordsEqual(Rotl(y, WIDTH - k), x);
  }

  /** rotl clears no word but zero. */
  lemma RotlZero(x: Word, k: nat)
    requires 0 < k < WIDTH
    ensures Rotl(x, k) == 0 <==> x == 0
  {
    forall i | 0 <= i < WIDTH
      ensures Bit(Rotl(0, k), i) == Bit(0, i)
    {
      RotlBit(0, k, i);
      ZeroBit(i);
      ZeroBit(i + WIDTH - k);
      if i >= k {
        ZeroBit(i - k);
      }
    }
    WordsEqual(Rotl(0, k), 0);
    RotlRoundTrip(x, k);
    forall i | 0 <= i < WIDTH
      ensures Bit(Rotl(0, WIDTH - k), i) == Bit(0, i)
    {
      RotlBit(0, WIDTH - k, i);
      ZeroBit(i);
      ZeroBit(i + k);
      if i >= WIDTH - k {
        ZeroBit(i - (WIDTH - k));
      }
    }
    WordsEqual(Rotl(0, WIDTH - k), 0);
  }

  // ---------------------------------------------------------------------
  // The inverse of x ^ (x << a)

  /** The exclusive or of y shifted left by s, s + a, s + 2a, ... while the
      amount stays below the width. */
  function UnshiftFrom(y: Word, a: nat, s: nat): Word
    requires 0 < a
    decreases WIDTH - s
  {
    if s >= WIDTH then 0 else Xor(Shl(y, s), UnshiftFrom(y, a, s + a))
  }

  /** Undoing y = x ^ (x << a). */
  function Unshift(y: Word, a: nat): Word
    requires 0 < a
  {
    UnshiftFrom(y, a, 0)
  }

  /** Summed from s, the shifts of x ^ (x << a) telescope to x << s. */
  lemma {:induction false} UnshiftTelescopes(x: Word, a: nat, s: nat)
    requires 0 < a
    ensures UnshiftFrom(Xor(x, Shl(x, a)), a, s) == Shl(x, s)
    decreases WIDTH - s
  {
    if s >= WIDTH {
      ShlWide(x, s);
    } else {
      UnshiftTelescopes(x, a, s + a);
      ShlXor(x, Shl(x, a), s);
      ShlShl(x, a, s);
      XorLaws(Shl(x, s), Shl(x, s + a), Shl(x, s + a));
      XorLaws(Shl(x, s + a), Shl(x, s + a), 0);
      XorLaws(Shl(x, s), 0, 0);
    }
  }

  /** Shifting the sum from s by a gives the sum from s + a. */
  lemma {:induction false} UnshiftShifted(y: Word, a: nat, s: nat)
    requires 0 < a
    ensures Shl(UnshiftFrom(y, a, s), a) == UnshiftFrom(y, a, s + a)
    decreases WIDTH - s
  {
    if s >= WIDTH {
      ShlZero(a);
    } else {
      var rest := UnshiftFrom(y, a, s + a);
      UnshiftShifted(y, a, s + a);
      ShlXor(Shl(y, s), rest, a);
      ShlShl(y, s, a);
      if s + a >= WIDTH {
        ShlWide(y, s + a);
        XorLaws(0, 0, 0);
      }
    }
  }

  /** Unshift inverts x ^ (x << a) from both sides. */
  lemma UnshiftInverts(x: Word, y: Word, a: nat)
    requires 0 < a
    ensures Unshift(Xor(x, Shl(x, a)), a) == x
    ensures Xor(Unshift(y, a), Shl(Unshift(y, a), a)) == y
  {
    UnshiftTelescopes(x, a, 0);
    ShlNone(x);
    var u := Unshift(y, a);
    UnshiftShifted(y, a, 0);
    ShlNone(y);
    assert u == Xor(y, UnshiftFrom(y, a, a));
    XorLaws(y, UnshiftFrom(y, a, a), UnshiftFrom(y, a, a));
    XorLaws(UnshiftFrom(y, a, a), UnshiftFrom(y, a, a), 0);
    XorLaws(y, 0, 0);
  }
}
