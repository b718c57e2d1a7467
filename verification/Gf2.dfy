/**
 Polynomials over GF(2) modulo the CRC polynomial (crc32.c, `multmodp`, `x2nmodp`), reflected:
 the coefficient of `x^0` is the most significant of 32 bits.
 */
module Gf2 {
  type Word = bv32

  /** The CRC polynomial without `x^32`. */
  const POLY: Word := 0xedb88320

  /** The polynomial 1. */
  const ONE: Word := 0x80000000

  /** The sum of polynomials. */
  function Add(a: Word, b: Word): Word {
    a ^ b
  }

  function Half(a: Word): Word {
    a >> 1
  }

  predicate Odd(a: Word) {
    a & 1 == 1
  }

  /** Multiply by `x`. */
  function MulX(a: Word): Word {
    if Odd(a) then Add(Half(a), POLY) else Half(a)
  }

  /** Multiply by `x^n`. */
  function MulXN(a: Word, n: nat): Word {
    if n == 0 then a else MulX(MulXN(a, n - 1))
  }

  /** `a * b`, for `a` of `n` coefficients: the sum of `x^i * b` for the coefficients of `a`. */
  function Mul(a: Word, b: Word, n: nat): Word {
    if n == 0 then 0
    else if Odd(a) then Add(Mul(Half(a), b, n - 1), MulXN(b, n - 1))
    else Mul(Half(a), b, n - 1)
  }

  /** `x^n`. */
  function X(n: nat): Word {
    MulXN(ONE, n)
  }

  // ------------------------------------------------------------ sums

  lemma AddAssociates(a: Word, b: Word, c: Word)
    ensures Add(Add(a, b), c) == Add(a, Add(b, c))
  {
    assert Add(Add(a, b), c) == (a ^ b) ^ c;
    assert Add(a, Add(b, c)) == a ^ (b ^ c);
    XorAssociates(a, b, c);
  }

  lemma XorAssociates(a: Word, b: Word, c: Word)
    ensures (a ^ b) ^ c == a ^ (b ^ c)
  {
  }

  lemma AddCancels(a: Word, b: Word)
    ensures Add(a, b) == Add(b, a) && Add(a, a) == 0 && Add(a, 0) == a && Add(0, a) == a
  {
  }

  lemma AddBasics(a: Word, b: Word, c: Word)
    ensures Add(a, b) == Add(b, a) && Add(Add(a, b), c) == Add(a, Add(b, c)) && Add(a, a) == 0 && Add(a, 0) == a && Add(0, a) == a
  {
    hide Add;
    AddAssociates(a, b, c);
    AddCancels(a, b);
  }

  lemma AddLaws(a: Word, b: Word, c: Word, d: Word)
    ensures Add(a, b) == Add(b, a) && Add(Add(a, b), c) == Add(a, Add(b, c)) && Add(a, a) == 0 && Add(a, 0) == a && Add(0, a) == a
    ensures Add(Add(a, b), Add(c, d)) == Add(Add(a, c), Add(b, d))
  {
    hide Add;
    AddBasics(a, b, c);
    AddBasics(a, b, Add(c, d));
    AddBasics(b, c, d);
    AddBasics(c, b, d);
    AddBasics(a, c, Add(b, d));
  }

  lemma HalfSum(a: Word, b: Word)
    ensures Half(Add(a, b)) == Add(Half(a), Half(b)) && (Odd(Add(a, b)) <==> Odd(a) != Odd(b))
  {
  }

  // ------------------------------------------------------------ multiplying by powers of x

  lemma MulXSum(a: Word, b: Word)
    ensures MulX(Add(a, b)) == Add(MulX(a), MulX(b))
  {
    hide Add, Half, Odd;
    HalfSum(a, b);
    var h, g := Half(a), Half(b);
    AddLaws(h, POLY, g, POLY);
    AddLaws(h, g, POLY, 0);
    AddLaws(h, POLY, g, 0);
    AddLaws(Add(h, g), 0, 0, 0);
    AddLaws(POLY, g, 0, 0);
  }

  lemma ZeroX()
    ensures MulX(0) == 0
  {
  }

  lemma {:induction false} MulXNSum(a: Word, b: Word, n: nat)
    ensures MulXN(Add(a, b), n) == Add(MulXN(a, n), MulXN(b, n))
  {
    hide MulX, Add;
    if n > 0 {
      MulXNSum(a, b, n - 1);
      MulXSum(MulXN(a, n - 1), MulXN(b, n - 1));
    }
  }

  lemma {:induction false} MulXNZero(n: nat)
    ensures MulXN(0, n) == 0
  {
    hide MulX;
    if n > 0 {
      MulXNZero(n - 1);
      ZeroX();
    }
  }

  lemma {:induction false} MulXNMore(a: Word, m: nat, n: nat)
    ensures MulXN(MulXN(a, m), n) == MulXN(a, m + n)
  {
    hide MulX;
    if n > 0 { MulXNMore(a, m, n - 1); }
  }

  lemma MulXNext(a: Word, n: nat)
    ensures MulXN(MulX(a), n) == MulX(MulXN(a, n))
  {
    hide MulX;
    assert MulXN(a, 0) == a;
    assert MulXN(a, 1) == MulX(a);
    MulXNMore(a, 1, n);
  }

  // ------------------------------------------------------------ multiplying

  lemma {:induction false} MulSumRight(a: Word, u: Word, v: Word, n: nat)
    ensures Mul(a, Add(u, v), n) == Add(Mul(a, u, n), Mul(a, v, n))
    decreases n
  {
    hide MulXN, Add, Half, Odd;
    if n > 0 {
      MulSumRight(Half(a), u, v, n - 1);
      MulXNSum(u, v, n - 1);
      AddLaws(Mul(Half(a), u, n - 1), Mul(Half(a), v, n - 1), MulXN(u, n - 1), MulXN(v, n - 1));
    } else {
      AddLaws(0, 0, 0, 0);
    }
  }

  lemma {:induction false} MulMulX(a: Word, v: Word, n: nat)
    ensures Mul(a, MulX(v), n) == MulX(Mul(a, v, n))
    decreases n
  {
    hide MulX, MulXN, Add, Half, Odd;
    if n > 0 {
      MulMulX(Half(a), v, n - 1);
      MulXNext(v, n - 1);
      MulXSum(Mul(Half(a), v, n - 1), MulXN(v, n - 1));
    } else {
      ZeroX();
    }
  }

  lemma {:induction false} MulMulXN(a: Word, v: Word, n: nat, k: nat)
    ensures Mul(a, MulXN(v, k), n) == MulXN(Mul(a, v, n), k)
  {
    hide MulX, Mul;
    if k > 0 {
      MulMulXN(a, v, n, k - 1);
      MulMulX(a, MulXN(v, k - 1), n);
    }
  }

  lemma {:induction false} MulZero(a: Word, n: nat)
    ensures Mul(a, 0, n) == 0
    decreases n
  {
    hide MulXN, Add, Half, Odd;
    if n > 0 {
      MulZero(Half(a), n - 1);
      MulXNZero(n - 1);
      AddLaws(0, 0, 0, 0);
    }
  }

  /** Multiplications commute with each other. */
  lemma {:induction false} MulMul(a: Word, b: Word, c: Word, m: nat, n: nat)
    ensures Mul(a, Mul(b, c, n), m) == Mul(b, Mul(a, c, m), n)
    decreases n
  {
    hide MulXN, Add, Half, Odd;
    if n == 0 {
      MulZero(a, m);
    } else {
      MulMul(a, Half(b), c, m, n - 1);
      if Odd(b) {
        MulSumRight(a, Mul(Half(b), c, n - 1), MulXN(c, n - 1), m);
        MulMulXN(a, c, m, n - 1);
      }
    }
  }

  // ------------------------------------------------------------ one is one

  function Twice(a: Word): Word {
    a << 1
  }

  /** Shift left by `k`. */
  function Up(a: Word, k: nat): Word
    decreases k
  {
    if k == 0 then a else Up(Twice(a), k - 1)
  }

  lemma {:induction false} UpSum(a: Word, b: Word, k: nat)
    ensures Up(Add(a, b), k) == Add(Up(a, k), Up(b, k))
    decreases k
  {
    hide Add, Twice;
    if k > 0 {
      TwiceSum(a, b);
      UpSum(Twice(a), Twice(b), k - 1);
    }
  }

  lemma TwiceSum(a: Word, b: Word)
    ensures Twice(Add(a, b)) == Add(Twice(a), Twice(b))
  {
  }

  lemma HalfAndBit(a: Word)
    ensures Odd(a) ==> a == Add(Twice(Half(a)), 1)
    ensures !Odd(a) ==> a == Twice(Half(a))
  {
  }

  lemma UpAll(a: Word)
    ensures Up(a, 32) == 0
  {
    assert Up(a, 32) == Up(a << 8, 24) by { UpEight(a, 24); }
    UpEight(a << 8, 16);
    UpEight(a << 8 << 8, 8);
    UpEight(a << 8 << 8 << 8, 0);
    assert a << 8 << 8 << 8 << 8 == 0;
  }

  lemma UpEight(a: Word, k: nat)
    ensures Up(a, k + 8) == Up(a << 8, k)
  {
    hide Twice;
    var a1 := Twice(a);
    var a2 := Twice(a1);
    var a3 := Twice(a2);
    var a4 := Twice(a3);
    var a5 := Twice(a4);
    var a6 := Twice(a5);
    var a7 := Twice(a6);
    assert Up(a, k + 8) == Up(a1, k + 7) == Up(a2, k + 6) == Up(a3, k + 5) == Up(a4, k + 4);
    assert Up(a4, k + 4) == Up(a5, k + 3) == Up(a6, k + 2) == Up(a7, k + 1) == Up(Twice(a7), k);
    EightTimes(a);
  }

  lemma EightTimes(a: Word)
    ensures Twice(Twice(Twice(Twice(Twice(Twice(Twice(Twice(a)))))))) == a << 8
  {
  }

  /** The coefficient of `x^(31-j)`. */
  function Bit(j: nat): Word {
    if j == 0 then 1 else Twice(Bit(j - 1))
  }

  lemma BitHalf(j: nat)
    requires 1 <= j <= 31
    ensures !Odd(Bit(j)) && Half(Bit(j)) == Bit(j - 1)
  {
    hide Odd, Half, Twice;
    BitSmall(j - 1);
    TwiceHalf(Bit(j - 1));
  }

  lemma TwiceHalf(a: Word)
    requires a <= 0x40000000
    ensures !Odd(Twice(a)) && Half(Twice(a)) == a
  {
  }

  /** The values of `Bit`. */
  function BitValue(j: nat): Word {
    match j
    case 0 => 0x1
    case 1 => 0x2
    case 2 => 0x4
    case 3 => 0x8
    case 4 => 0x10
    case 5 => 0x20
    case 6 => 0x40
    case 7 => 0x80
    case 8 => 0x100
    case 9 => 0x200
    case 10 => 0x400
    case 11 => 0x800
    case 12 => 0x1000
    case 13 => 0x2000
    case 14 => 0x4000
    case 15 => 0x8000
    case 16 => 0x10000
    case 17 => 0x20000
    case 18 => 0x40000
    case 19 => 0x80000
    case 20 => 0x100000
    case 21 => 0x200000
    case 22 => 0x400000
    case 23 => 0x800000
    case 24 => 0x1000000
    case 25 => 0x2000000
    case 26 => 0x4000000
    case 27 => 0x8000000
    case 28 => 0x10000000
    case 29 => 0x20000000
    case 30 => 0x40000000
    case _ => 0x80000000
  }

  lemma BitValueNext(j: nat)
    requires 1 <= j <= 31
    ensures BitValue(j) == Twice(BitValue(j - 1)) && BitValue(j - 1) <= 0x40000000
  {
  }

  lemma {:induction false} BitIs(j: nat)
    requires j <= 31
    ensures Bit(j) == BitValue(j)
  {
    hide Twice;
    if j > 0 {
      BitIs(j - 1);
      BitValueNext(j);
    }
  }

  lemma BitSmall(j: nat)
    requires j <= 30
    ensures Bit(j) <= 0x40000000
  {
    hide Bit, BitValue, Twice;
    BitIs(j);
    BitValueNext(j + 1);
  }

  /** The powers of `x` below 32. */
  lemma {:induction false} LowPowers(k: nat)
    requires k <= 31
    ensures X(k) == Bit(31 - k)
  {
    hide Odd, Half, Twice, Bit, BitValue;
    if k == 0 {
      assert Bit(31) == ONE by { BitIs(31); LastBit(); }
    } else {
      LowPowers(k - 1);
      BitHalf(32 - k);
    }
  }

  lemma LastBit()
    ensures BitValue(31) == ONE
  {
  }

  lemma {:induction false} UpBit(k: nat, j: nat)
    ensures Up(Bit(j), k) == Bit(j + k)
    decreases k
  {
    hide Twice;
    if k > 0 { UpBit(k - 1, j + 1); }
  }

  lemma {:induction false} MulOneUp(a: Word, n: nat)
    requires n <= 32
    ensures Mul(a, ONE, n) == Up(a, 32 - n)
    decreases n
  {
    hide Odd, Half, Twice, Add, MulXN, Bit;
    if n == 0 {
      UpAll(a);
    } else {
      MulOneUp(Half(a), n - 1);
      HalfAndBit(a);
      assert Up(Twice(Half(a)), 32 - n) == Up(Half(a), 33 - n);
      if Odd(a) {
        LowPowers(n - 1);
        UpSum(Twice(Half(a)), 1, 32 - n);
        assert Bit(0) == 1 by { FirstBit(); }
        UpBit(32 - n, 0);
      }
    }
  }

  lemma FirstBit()
    ensures Bit(0) == 1
  {
  }

  lemma MulOne(a: Word)
    ensures Mul(a, ONE, 32) == a
  {
    hide Mul;
    MulOneUp(a, 32);
  }

  lemma MulCommutes(a: Word, b: Word)
    ensures Mul(a, b, 32) == Mul(b, a, 32)
  {
    hide Mul;
    MulMul(a, b, ONE, 32, 32);
    MulOne(a);
    MulOne(b);
  }

  /** Multiplying by `x^n` is multiplying by `x` `n` times. */
  lemma MulPower(v: Word, n: nat)
    ensures Mul(X(n), v, 32) == MulXN(v, n)
  {
    hide Mul, MulXN;
    MulCommutes(X(n), v);
    MulMulXN(v, ONE, 32, n);
    MulOne(v);
  }

  lemma PowersMultiply(m: nat, n: nat)
    ensures Mul(X(m), X(n), 32) == X(m + n)
  {
    hide Mul, MulXN;
    MulPower(X(n), m);
    MulXNMore(ONE, n, m);
  }
}
