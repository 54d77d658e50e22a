/** The xoshiro generators of xoshiro.hpp over 64-bit state words: the
    four-word engine xoshiro_x4 and the eight-word engine xoshiro_x8, whose
    advance() updates the state words in place, with the shift amount a and
    the rotation amount b as parameters, and the plus, star and starstar
    output functors layered on them. */
module Xoshiro {
  import opened Words64

  /** The shift and rotation amounts advance() uses: a left shift within
      the word and a rotation rotl accepts. */
  predicate Amounts(a: nat, b: nat)
  {
    0 < a < WIDTH && 0 < b < WIDTH
  }

  /** The amounts of the 64-bit instantiations: xoshiro256 uses 17 and 45,
      xoshiro512 uses 11 and 21. */
  const X4_SHIFT: nat := 17
  const X4_ROTATE: nat := 45
  const X8_SHIFT: nat := 11
  const X8_ROTATE: nat := 21

  /** The single-seed constructors discard the first 16 states. */
  const WARM_UP: nat := 16

  /** min() of every generator. */
  function Min(): Word
  {
    0
  }

  /** max() of every generator: ~0, the largest value. */
  function Max(): (r: Word)
    ensures r == RANGE - 1
  {
    NotZero();
    Not(0)
  }

  /** Every output lies between min() and max(). */
  lemma OutputBounds(w: Word)
    ensures Min() <= w <= Max()
  {
  }

  /** The starstar output's rotation in every instantiation; it multiplies
      by 5 before and by 9 after. */
  const STARSTAR_ROTATE: nat := 7

  /** The starstar scrambler: rotl(w * 5, 7) * 9. */
  function StarStar(w: Word): Word
  {
    Mul(Rotl(Mul(w, 5), STARSTAR_ROTATE), 9)
  }

  /** A step function applied n times. */
  function Iterate<S>(f: S -> S, s: S, n: nat): S
  {
    if n == 0 then s else f(Iterate(f, s, n - 1))
  }

  /** A property every step keeps holds after any number of steps. */
  lemma {:induction false} IterateKeeps<S>(f: S -> S, p: S -> bool, s: S, n: nat)
    requires p(s)
    requires forall x :: p(x) ==> p(f(x))
    ensures p(Iterate(f, s, n))
  {
    if n > 0 {
      IterateKeeps(f, p, s, n - 1);
    }
  }

  // ---------------------------------------------------------------------
  // xoshiro_x4

  datatype State4 = State4(s0: Word, s1: Word, s2: Word, s3: Word)

  function Zero4(): State4
  {
    State4(0, 0, 0, 0)
  }

  /** advance() of xoshiro_x4 as one function of the old words: the
      source's six updates composed. */
  function Advance4(s: State4, a: nat, b: nat): State4
    requires Amounts(a, b)
  {
    var t := Shl(s.s1, a);
    var s2 := Xor(s.s2, s.s0);
    var s3 := Xor(s.s3, s.s1);
    State4(Xor(s.s0, s3), Xor(s.s1, s2), Xor(s2, t), Rotl(s3, b))
  }

  /** Undoing advance() of xoshiro_x4: s3 ^ s1 comes back from the rotated
      word, then s0; the new s1 ^ s2 is s1 ^ (s1 << a), which gives s1;
      then s2 and s3 follow. */
  function Retreat4(n: State4, a: nat, b: nat): State4
    requires Amounts(a, b)
  {
    var u := Rotl(n.s3, WIDTH - b);
    var s0 := Xor(n.s0, u);
    var s1 := Unshift(Xor(n.s1, n.s2), a);
    State4(s0, s1, Xor(Xor(n.s1, s1), s0), Xor(u, s1))
  }

  /** Retreat4 undoes Advance4. */
  lemma Retreat4Advance4(s: State4, a: nat, b: nat)
    requires Amounts(a, b)
    ensures Retreat4(Advance4(s, a, b), a, b) == s
  {
    var t, x2, x3 := Shl(s.s1, a), Xor(s.s2, s.s0), Xor(s.s3, s.s1);
    RotlRoundTrip(x3, b);
    XorCancel(s.s0, x3);
    XorLaws(s.s1, x2, Xor(x2, t));
    XorCancel(t, x2);
    UnshiftInverts(s.s1, 0, a);
    XorCancel(x2, s.s1);
    XorCancel(s.s2, s.s0);
    XorCancel(s.s3, s.s1);
  }

  /** Advance4 undoes Retreat4: advance() is a bijection of the states. */
  lemma Advance4Retreat4(n: State4, a: nat, b: nat)
    requires Amounts(a, b)
    ensures Advance4(Retreat4(n, a, b), a, b) == n
  {
    var u := Rotl(n.s3, WIDTH - b);
    var v := Unshift(Xor(n.s1, n.s2), a);
    var s0 := Xor(n.s0, u);
    RotlRoundTrip(n.s3, WIDTH - b);
    XorCancel(Xor(n.s1, v), s0);
    XorCancel(u, v);
    XorCancel(n.s0, u);
    XorCancel(n.s1, v);
    UnshiftInverts(0, Xor(n.s1, n.s2), a);
    XorLaws(n.s1, v, Shl(v, a));
    XorCancel(n.s2, n.s1);
  }

  lemma ZeroFixed4(a: nat, b: nat)
    requires Amounts(a, b)
    ensures Advance4(Zero4(), a, b) == Zero4()
  {
    RotlZero(0, b);
    ShlZero(a);
    XorLaws(0, 0, 0);
  }

  /** advance() maps the all-zero state to itself and no other state to
      it, so a state that is not all zero never becomes all zero. */
  lemma Advance4Nonzero(s: State4, a: nat, b: nat)
    requires Amounts(a, b)
    ensures Advance4(s, a, b) == Zero4() <==> s == Zero4()
  {
    Retreat4Advance4(s, a, b);
    Retreat4Advance4(Zero4(), a, b);
    ZeroFixed4(a, b);
  }

  /** advance() as a step function. */
  function Step4(a: nat, b: nat): State4 -> State4
    requires Amounts(a, b)
  {
    (x: State4) => Advance4(x, a, b)
  }

  /** advance() applied n times. */
  function Advance4Times(s: State4, a: nat, b: nat, n: nat): State4
    requires Amounts(a, b)
  {
    Iterate(Step4(a, b), s, n)
  }

  /** One more advance after n of them makes n + 1. */
  lemma Advance4TimesNext(s: State4, a: nat, b: nat, n: nat, p: State4, q: State4)
    requires Amounts(a, b) && p == Advance4Times(s, a, b, n) && q == Advance4(p, a, b)
    ensures q == Advance4Times(s, a, b, n + 1)
  {
  }

  /** A state that is not all zero stays so however often it advances. */
  lemma Advance4TimesNonzero(s: State4, a: nat, b: nat, n: nat)
    requires Amounts(a, b) && s != Zero4()
    ensures Advance4Times(s, a, b, n) != Zero4()
  {
    var f := Step4(a, b);
    var nonzero := (x: State4) => x != Zero4();
    forall x | nonzero(x)
      ensures nonzero(f(x))
    {
      Advance4Nonzero(x, a, b);
    }
    IterateKeeps(f, nonzero, s, n);
  }

  /** The four-word constructor: the words as given, except that an
      all-zero seed gets 1 as its last word. */
  function Seed4(w: State4): State4
  {
    if w.s0 != 0 || w.s1 != 0 || w.s2 != 0 || w.s3 != 0 then w else w.(s3 := 1)
  }

  /** The seeded state is never all zero, keeps a seed that is not all
      zero, and turns the all-zero seed into 0, 0, 0, 1. */
  lemma Seed4Meaning(w: State4)
    ensures Seed4(w) != Zero4()
    ensures w != Zero4() ==> Seed4(w) == w
    ensures w == Zero4() ==> Seed4(w) == State4(0, 0, 0, 1)
  {
  }

  /** The words the single-seed constructor of xoshiro_x4 derives from its
      seed, with 64-bit wrap-around. */
  function SeedWords4(seed: Word): State4
  {
    State4(Add(0x01d353e5f3993bb0, seed), Mul(0x7b9c0df6cb193b20, Add(seed, 1)),
           Sub(0xfdfcaa91110765b6, seed), Mul(0x2d24cbe0ef44dcd2, Sub(seed, 1)))
  }

  /** xoshiro_x4: four state words updated in place by advance(). */
  class Engine4 {
    var s0: Word
    var s1: Word
    var s2: Word
    var s3: Word
    const a: nat
    const b: nat

    function State(): State4
      reads this
    {
      State4(s0, s1, s2, s3)
    }

    /** The amounts are usable and the state is not all zero, the states a
        xoshiro generator never leaves. */
    ghost predicate Valid()
      reads this
    {
      Amounts(a, b) && State() != Zero4()
    }

    /** xoshiro_x4(s0, s1, s2, s3). */
    constructor FromWords(a: nat, b: nat, w0: Word, w1: Word, w2: Word, w3: Word)
      requires Amounts(a, b)
      ensures this.a == a && this.b == b
      ensures State() == Seed4(State4(w0, w1, w2, w3))
      ensures Valid()
    {
      this.a, this.b := a, b;
      s0, s1, s2 := w0, w1, w2;
      s3 := if w0 != 0 || w1 != 0 || w2 != 0 || w3 != 0 then w3 else 1;
      Seed4Meaning(State4(w0, w1, w2, w3));
    }

    /** xoshiro_x4(seed): the derived words, then 16 advances. */
    constructor (a: nat, b: nat, seed: Word)
      requires Amounts(a, b)
      ensures this.a == a && this.b == b
      ensures State() == Advance4Times(Seed4(SeedWords4(seed)), a, b, WARM_UP)
      ensures Valid()
    {
      var w := SeedWords4(seed);
      this.a, this.b := a, b;
      var st := Seed4(w);
      s0, s1, s2, s3 := st.s0, st.s1, st.s2, st.s3;
      new;
      ghost var start := State();
      var i := 0;
      while i < WARM_UP
        invariant 0 <= i <= WARM_UP
        invariant State() == Advance4Times(start, a, b, i)
      {
        ghost var before := State();
        Advance();
        Advance4TimesNext(start, a, b, i, before, State());
        i := i + 1;
      }
      Seed4Meaning(w);
      Advance4TimesNonzero(start, a, b, WARM_UP);
    }

    /** advance(): the source's sequence of in-place updates. */
    method Advance()
      requires Amounts(a, b)
      modifies this
      ensures State() == Advance4(old(State()), a, b)
    {
      var t := Shl(s1, a);
      s2 := Xor(s2, s0);
      s3 := Xor(s3, s1);
      s1 := Xor(s1, s2);
      s0 := Xor(s0, s3);
      s2 := Xor(s2, t);
      s3 := Rotl(s3, b);
    }

    /** operator==: every state word equal. */
    function Equals(rhs: Engine4): (r: bool)
      reads this, rhs
      ensures r <==> State() == rhs.State()
    {
      s0 == rhs.s0 && s1 == rhs.s1 && s2 == rhs.s2 && s3 == rhs.s3
    }

    /** operator!=, the negation of operator==. */
    function NotEquals(rhs: Engine4): (r: bool)
      reads this, rhs
      ensures r <==> State() != rhs.State()
    {
      !Equals(rhs)
    }

    /** xoshiro_plus's operator(): s0 + s3 of the state before the
        advance, wrapping around. */
    method NextPlus() returns (r: Word)
      requires Valid()
      modifies this
      ensures r == (old(s0) + old(s3)) % RANGE
      ensures State() == Advance4(old(State()), a, b) && Valid()
    {
      r := Add(s0, s3);
      Advance4Nonzero(State(), a, b);
      Advance();
    }

    /** xoshiro_star's operator(): s1 * mult of the state before the
        advance, wrapping around. */
    method NextStar(mult: Word) returns (r: Word)
      requires Valid()
      modifies this
      ensures r == (old(s1) * mult) % RANGE
      ensures State() == Advance4(old(State()), a, b) && Valid()
    {
      r := Mul(s1, mult);
      Advance4Nonzero(State(), a, b);
      Advance();
    }

    /** xoshiro_starstar's operator(): the scrambled s1 of the state before
        the advance. */
    method NextStarStar() returns (r: Word)
      requires Valid()
      modifies this
      ensures r == StarStar(old(s1))
      ensures State() == Advance4(old(State()), a, b) && Valid()
    {
      r := Mul(Rotl(Mul(s1, 5), STARSTAR_ROTATE), 9);
      Advance4Nonzero(State(), a, b);
      Advance();
    }
  }

  // ---------------------------------------------------------------------
  // xoshiro_x8

  datatype State8 = State8(s0: Word, s1: Word, s2: Word, s3: Word, s4: Word, s5: Word, s6: Word, s7: Word)

  function Zero8(): State8
  {
    State8(0, 0, 0, 0, 0, 0, 0, 0)
  }

  /** advance() of xoshiro_x8 as one function of the old words: the
      source's eleven updates composed. */
  function Advance8(s: State8, a: nat, b: nat): State8
    requires Amounts(a, b)
  {
    var t := Shl(s.s1, a);
    var s2 := Xor(s.s2, s.s0);
    var s5 := Xor(s.s5, s.s1);
    var s7 := Xor(s.s7, s.s3);
    State8(Xor(s.s0, s.s6), Xor(s.s1, s2), s2, Xor(s.s3, s.s4), Xor(s.s4, s5), s5,
           Xor(Xor(s.s6, s7), t), Rotl(s7, b))
  }

  /** Undoing advance() of xoshiro_x8: s1 is the new s1 ^ s2, s7 ^ s3
      comes back from the rotated word, and the rest follow one by one. */
  function Retreat8(n: State8, a: nat, b: nat): State8
    requires Amounts(a, b)
  {
    var p := Rotl(n.s7, WIDTH - b);
    var s1 := Xor(n.s1, n.s2);
    var s6 := Xor(Xor(n.s6, Shl(s1, a)), p);
    var s0 := Xor(n.s0, s6);
    var s5 := Xor(n.s5, s1);
    var s4 := Xor(n.s4, n.s5);
    var s3 := Xor(n.s3, s4);
    State8(s0, s1, Xor(n.s2, s0), s3, s4, s5, s6, Xor(p, s3))
  }

  lemma Retreat8Advance8(s: State8, a: nat, b: nat)
    requires Amounts(a, b)
    ensures Retreat8(Advance8(s, a, b), a, b) == s
  {
    var t, x2, x5, x7 := Shl(s.s1, a), Xor(s.s2, s.s0), Xor(s.s5, s.s1), Xor(s.s7, s.s3);
    RotlRoundTrip(x7, b);
    XorCancel(s.s1, x2);
    XorCancel(Xor(s.s6, x7), t);
    XorCancel(s.s6, x7);
    XorCancel(s.s0, s.s6);
    XorCancel(s.s5, s.s1);
    XorCancel(s.s4, x5);
    XorCancel(s.s3, s.s4);
    XorCancel(s.s2, s.s0);
    XorCancel(s.s7, s.s3);
  }

  lemma Advance8Retreat8(n: State8, a: nat, b: nat)
    requires Amounts(a, b)
    ensures Advance8(Retreat8(n, a, b), a, b) == n
  {
    var r := Retreat8(n, a, b);
    var p, t := Rotl(n.s7, WIDTH - b), Shl(r.s1, a);
    RotlRoundTrip(n.s7, WIDTH - b);
    XorCancel(n.s2, r.s0);
    XorCancel(n.s5, r.s1);
    XorCancel(p, r.s3);
    XorCancel(n.s0, r.s6);
    XorCancel(n.s1, n.s2);
    XorCancel(n.s3, r.s4);
    XorCancel(n.s4, n.s5);
    XorCancel(Xor(n.s6, t), p);
    XorCancel(n.s6, t);
  }

  lemma ZeroFixed8(a: nat, b: nat)
    requires Amounts(a, b)
    ensures Advance8(Zero8(), a, b) == Zero8()
  {
    RotlZero(0, b);
    ShlZero(a);
    XorLaws(0, 0, 0);
  }

  /** advance() maps the all-zero state to itself and no other state to
      it. */
  lemma Advance8Nonzero(s: State8, a: nat, b: nat)
    requires Amounts(a, b)
    ensures Advance8(s, a, b) == Zero8() <==> s == Zero8()
  {
    Retreat8Advance8(s, a, b);
    Retreat8Advance8(Zero8(), a, b);
    ZeroFixed8(a, b);
  }

  /** advance() as a step function. */
  function Step8(a: nat, b: nat): State8 -> State8
    requires Amounts(a, b)
  {
    (x: State8) => Advance8(x, a, b)
  }

  /** advance() applied n times. */
  function Advance8Times(s: State8, a: nat, b: nat, n: nat): State8
    requires Amounts(a, b)
  {
    Iterate(Step8(a, b), s, n)
  }

  /** One more advance after n of them makes n + 1. */
  lemma Advance8TimesNext(s: State8, a: nat, b: nat, n: nat, p: State8, q: State8)
    requires Amounts(a, b) && p == Advance8Times(s, a, b, n) && q == Advance8(p, a, b)
    ensures q == Advance8Times(s, a, b, n + 1)
  {
  }

  /** A state that is not all zero stays so however often it advances. */
  lemma Advance8TimesNonzero(s: State8, a: nat, b: nat, n: nat)
    requires Amounts(a, b) && s != Zero8()
    ensures Advance8Times(s, a, b, n) != Zero8()
  {
    var f := Step8(a, b);
    var nonzero := (x: State8) => x != Zero8();
    forall x | nonzero(x)
      ensures nonzero(f(x))
    {
      Advance8Nonzero(x, a, b);
    }
    IterateKeeps(f, nonzero, s, n);
  }

  predicate Nonzero8(w: State8)
  {
    w.s0 != 0 || w.s1 != 0 || w.s2 != 0 || w.s3 != 0 ||
    w.s4 != 0 || w.s5 != 0 || w.s6 != 0 || w.s7 != 0
  }

  /** The eight-word constructor: an all-zero seed gets 1 as its last
      word. */
  function Seed8(w: State8): State8
  {
    if Nonzero8(w) then w else w.(s7 := 1)
  }

  lemma Seed8Meaning(w: State8)
    ensures Seed8(w) != Zero8()
    ensures w != Zero8() ==> Seed8(w) == w
    ensures w == Zero8() ==> Seed8(w) == State8(0, 0, 0, 0, 0, 0, 0, 1)
  {
  }

  /** The words the single-seed constructor of xoshiro_x8 derives from its
      seed. */
  function SeedWords8(seed: Word): State8
  {
    State8(Add(0x1ced436497db2a59, seed), Mul(0x75474f85d8a6892c, Add(seed, 1)),
           Sub(0xa0fef4b8094c9c86, seed), Mul(0x748fa1a9bb555169, Sub(seed, 1)),
           Add(0xd7a59a6d64e66858, seed), Mul(0xf03b7efdb73db601, Add(seed, 1)),
           Sub(0xfab342a99dd71962, seed), Mul(0x8a6921456faa6b54, Sub(seed, 1)))
  }

  /** xoshiro_x8: eight state words updated in place by advance(). */
  class Engine8 {
    var s0: Word
    var s1: Word
    var s2: Word
    var s3: Word
    var s4: Word
    var s5: Word
    var s6: Word
    var s7: Word
    const a: nat
    const b: nat

    function State(): State8
      reads this
    {
      State8(s0, s1, s2, s3, s4, s5, s6, s7)
    }

    ghost predicate Valid()
      reads this
    {
      Amounts(a, b) && State() != Zero8()
    }

    /** xoshiro_x8(s0, ..., s7). */
    constructor FromWords(a: nat, b: nat, w: State8)
      requires Amounts(a, b)
      ensures this.a == a && this.b == b
      ensures State() == Seed8(w)
      ensures Valid()
    {
      this.a, this.b := a, b;
      s0, s1, s2, s3, s4, s5, s6 := w.s0, w.s1, w.s2, w.s3, w.s4, w.s5, w.s6;
      s7 := if Nonzero8(w) then w.s7 else 1;
      Seed8Meaning(w);
    }

    /** xoshiro_x8(seed): the derived words, then 16 advances. */
    constructor (a: nat, b: nat, seed: Word)
      requires Amounts(a, b)
      ensures this.a == a && this.b == b
      ensures State() == Advance8Times(Seed8(SeedWords8(seed)), a, b, WARM_UP)
      ensures Valid()
    {
      var w := SeedWords8(seed);
      this.a, this.b := a, b;
      var st := Seed8(w);
      s0, s1, s2, s3, s4, s5, s6, s7 := st.s0, st.s1, st.s2, st.s3, st.s4, st.s5, st.s6, st.s7;
      new;
      ghost var start := State();
      var i := 0;
      while i < WARM_UP
        invariant 0 <= i <= WARM_UP
        invariant State() == Advance8Times(start, a, b, i)
      {
        ghost var before := State();
        Advance();
        Advance8TimesNext(start, a, b, i, before, State());
        i := i + 1;
      }
      Seed8Meaning(w);
      Advance8TimesNonzero(start, a, b, WARM_UP);
    }

    /** advance(): the source's sequence of in-place updates. */
    method Advance()
      requires Amounts(a, b)
      modifies this
      ensures State() == Advance8(old(State()), a, b)
    {
      var t := Shl(s1, a);
      s2 := Xor(s2, s0);
      s5 := Xor(s5, s1);
      s1 := Xor(s1, s2);
      s7 := Xor(s7, s3);
      s3 := Xor(s3, s4);
      s4 := Xor(s4, s5);
      s0 := Xor(s0, s6);
      s6 := Xor(s6, s7);
      s6 := Xor(s6, t);
      s7 := Rotl(s7, b);
    }

    /** operator==: every state word equal. */
    function Equals(rhs: Engine8): (r: bool)
      reads this, rhs
      ensures r <==> State() == rhs.State()
    {
      s0 == rhs.s0 && s1 == rhs.s1 && s2 == rhs.s2 && s3 == rhs.s3 &&
      s4 == rhs.s4 && s5 == rhs.s5 && s6 == rhs.s6 && s7 == rhs.s7
    }

    /** operator!=, the negation of operator==. */
    function NotEquals(rhs: Engine8): (r: bool)
      reads this, rhs
      ensures r <==> State() != rhs.State()
    {
      !Equals(rhs)
    }

    /** xoshiro_plus's operator(): s0 + s3 of the state before the
        advance, wrapping around. */
    method NextPlus() returns (r: Word)
      requires Valid()
      modifies this
      ensures r == (old(s0) + old(s3)) % RANGE
      ensures State() == Advance8(old(State()), a, b) && Valid()
    {
      r := Add(s0, s3);
      Advance8Nonzero(State(), a, b);
      Advance();
    }

    /** xoshiro_star's operator(): s1 * mult before the advance. */
    method NextStar(mult: Word) returns (r: Word)
      requires Valid()
      modifies this
      ensures r == (old(s1) * mult) % RANGE
      ensures State() == Advance8(old(State()), a, b) && Valid()
    {
      r := Mul(s1, mult);
      Advance8Nonzero(State(), a, b);
      Advance();
    }

    /** xoshiro_starstar's operator(): the scrambled s1 before the
        advance. */
    method NextStarStar() returns (r: Word)
      requires Valid()
      modifies this
      ensures r == StarStar(old(s1))
      ensures State() == Advance8(old(State()), a, b) && Valid()
    {
      r := Mul(Rotl(Mul(s1, 5), STARSTAR_ROTATE), 9);
      Advance8Nonzero(State(), a, b);
      Advance();
    }
  }
}
