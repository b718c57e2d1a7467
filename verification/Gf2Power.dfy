/**
 Powers of `x` with large exponents: squaring, and `x^(2^32) == x` modulo the CRC polynomial, on
 which the index `k & 31` of `x2nmodp` rests.
 */
module Gf2Power {
  import opened Bits
  import opened Gf2

  function Square(a: Word): Word {
    Mul(a, a, 32)
  }

  // ------------------------------------------------------------ squares of sums

  lemma MulSumLeft(u: Word, v: Word, b: Word)
    ensures Mul(Add(u, v), b, 32) == Add(Mul(u, b, 32), Mul(v, b, 32))
  {
    hide Mul, Add;
    MulCommutes(Add(u, v), b);
    MulSumRight(b, u, v, 32);
    MulCommutes(b, u);
    MulCommutes(b, v);
  }

  lemma SquareSum(u: Word, v: Word)
    ensures Square(Add(u, v)) == Add(Square(u), Square(v))
  {
    hide Mul, Add;
    var s := Add(u, v);
    MulSumLeft(u, v, s);
    MulSumRight(u, u, v, 32);
    MulSumRight(v, u, v, 32);
    MulCommutes(u, v);
    var uu, uv, vv := Mul(u, u, 32), Mul(u, v, 32), Mul(v, v, 32);
    AddLaws(uu, uv, vv, uv);
    AddLaws(uu, uv, uv, vv);
    AddLaws(vv, uv, 0, 0);
    AddLaws(uv, vv, 0, 0);
    AddLaws(Add(uu, vv), 0, 0, 0);
  }

  /** The sum of `x^(2i)` for the `n` coefficients of `a`. */
  function Spread(a: Word, n: nat): Word {
    if n == 0 then 0
    else if Odd(a) then Add(Spread(Half(a), n - 1), X(2 * (n - 1)))
    else Spread(Half(a), n - 1)
  }

  lemma SquarePower(i: nat)
    ensures Square(X(i)) == X(2 * i)
  {
    hide Mul, X;
    PowersMultiply(i, i);
    assert i + i == 2 * i;
  }

  lemma {:induction false} SpreadIs(a: Word, n: nat)
    ensures Square(Mul(a, ONE, n)) == Spread(a, n)
    decreases n
  {
    hide Add, Odd, Half, MulXN, Square;
    if n == 0 {
      assert Square(0) == 0 by { MulZero(0, 32); SquareZero(); }
    } else {
      SpreadIs(Half(a), n - 1);
      if Odd(a) {
        SquareSum(Mul(Half(a), ONE, n - 1), X(n - 1));
        SquarePower(n - 1);
      }
    }
  }

  lemma SquareZero()
    requires Mul(0, 0, 32) == 0
    ensures Square(0) == 0
  {
  }

  lemma SquareIsSpread(a: Word)
    ensures Square(a) == Spread(a, 32)
  {
    hide Square, Mul, Spread;
    SpreadIs(a, 32);
    MulOne(a);
  }

  // ------------------------------------------------------------ squares four coefficients at a time

  function Halves(a: Word, k: nat): Word
    decreases k
  {
    if k == 0 then a else Halves(Half(a), k - 1)
  }

  lemma {:induction false} SpreadSplit(a: Word, m: nat, k: nat)
    ensures Spread(a, m + k) == Add(Spread(Halves(a, k), m), MulXN(Spread(a, k), 2 * m))
    decreases k
  {
    hide Add, Odd, Half, MulXN;
    var top := Spread(Halves(a, k), m);
    if k == 0 {
      MulXNZero(2 * m);
      AddLaws(top, 0, 0, 0);
    } else {
      SpreadSplit(Half(a), m, k - 1);
      if Odd(a) {
        MulXNSum(Spread(Half(a), k - 1), X(2 * (k - 1)), 2 * m);
        MulXNMore(ONE, 2 * (k - 1), 2 * m);
        AddLaws(top, MulXN(Spread(Half(a), k - 1), 2 * m), X(2 * (m + k - 1)), 0);
      }
    }
  }

  /** Horner's rule on groups of four coefficients, the last group first. */
  function Groups(a: Word, v: Word, n: nat): Word
    decreases n
  {
    if n == 0 then v else Groups(Halves(a, 4), Add(MulXN(v, 8), Spread(a, 4)), n - 1)
  }

  lemma {:induction false} GroupsIs(a: Word, v: Word, n: nat)
    ensures Groups(a, v, n) == Add(MulXN(v, 8 * n), Spread(a, 4 * n))
    decreases n
  {
    hide Add, MulXN, Spread, Halves;
    if n == 0 {
      assert MulXN(v, 0) == v && Spread(a, 0) == 0 by { NothingSpread(a, v); }
      AddLaws(v, 0, 0, 0);
    } else {
      var w := Add(MulXN(v, 8), Spread(a, 4));
      GroupsIs(Halves(a, 4), w, n - 1);
      MulXNSum(MulXN(v, 8), Spread(a, 4), 8 * (n - 1));
      MulXNMore(v, 8, 8 * (n - 1));
      SpreadSplit(a, 4 * (n - 1), 4);
      var x, y, z := MulXN(v, 8 * n), MulXN(Spread(a, 4), 8 * (n - 1)), Spread(Halves(a, 4), 4 * (n - 1));
      AddLaws(x, y, z, 0);
      AddLaws(y, z, 0, 0);
    }
  }

  lemma NothingSpread(a: Word, v: Word)
    ensures MulXN(v, 0) == v && Spread(a, 0) == 0
  {
  }

  // ------------------------------------------------------------ squares by machine operations

  function ShiftX(a: Word): Word {
    if a & 1 == 1 then (a >> 1) ^ 0xedb88320 else a >> 1
  }

  function ShiftX8(a: Word): Word {
    ShiftX(ShiftX(ShiftX(ShiftX(ShiftX(ShiftX(ShiftX(ShiftX(a))))))))
  }

  function Four(h: Word): Word {
    ((h & 8) << 28) ^ ((h & 4) << 27) ^ ((h & 2) << 26) ^ ((h & 1) << 25)
  }

  function Horner(a: Word, v: Word): Word {
    Add(ShiftX8(v), Four(a))
  }

  function Down(a: Word): Word {
    a >> 4
  }

  /** The last eight coefficients of `a`. */
  function Eight(a: Word, v: Word): Word {
    Horner(Down(a), Horner(a, v))
  }

  /** The coefficients in front of the last eight. */
  function DownEight(a: Word): Word {
    Down(Down(a))
  }

  function FastSquare(a: Word): Word {
    var b := DownEight(a);
    var c := DownEight(b);
    Eight(DownEight(c), Eight(c, Eight(b, Eight(a, 0))))
  }

  lemma ShiftXIs(a: Word)
    ensures ShiftX(a) == MulX(a)
  {
  }

  lemma ShiftX8Is(a: Word)
    ensures ShiftX8(a) == MulXN(a, 8)
  {
    hide MulX, ShiftX;
    var a1 := MulX(a);
    var a2 := MulX(a1);
    var a3 := MulX(a2);
    var a4 := MulX(a3);
    var a5 := MulX(a4);
    var a6 := MulX(a5);
    var a7 := MulX(a6);
    ShiftXIs(a);
    ShiftXIs(a1);
    ShiftXIs(a2);
    ShiftXIs(a3);
    ShiftXIs(a4);
    ShiftXIs(a5);
    ShiftXIs(a6);
    ShiftXIs(a7);
    assert MulXN(a, 0) == a && MulXN(a, 1) == a1 && MulXN(a, 2) == a2 && MulXN(a, 3) == a3 && MulXN(a, 4) == a4;
    assert MulXN(a, 5) == a5 && MulXN(a, 6) == a6 && MulXN(a, 7) == a7;
  }

  lemma FourthBits(a: Word)
    ensures (a & 8) << 28 == if Odd(Half(Half(Half(a)))) then 0x80000000 else 0
    ensures (a & 4) << 27 == if Odd(Half(Half(a))) then 0x20000000 else 0
  {
  }

  lemma FirstBits(a: Word)
    ensures (a & 2) << 26 == if Odd(Half(a)) then 0x8000000 else 0
    ensures (a & 1) << 25 == if Odd(a) then 0x2000000 else 0
  {
  }

  lemma SmallEven()
    ensures X(0) == 0x80000000 && X(2) == 0x20000000 && X(4) == 0x8000000 && X(6) == 0x2000000
  {
    hide Bit, MulXN;
    LowPowers(0);
    LowPowers(2);
    LowPowers(4);
    LowPowers(6);
    BitIs(31);
    BitIs(29);
    BitIs(27);
    BitIs(25);
  }

  function When(c: bool, a: Word): Word {
    if c then a else 0
  }

  lemma FourIs(a: Word)
    ensures Four(a) == Spread(a, 4)
  {
    hide Half, Odd, Add, X, Four;
    var b := Half(a);
    var c := Half(b);
    var d := Half(c);
    SmallEven();
    FourSum(a);
    SpreadStep(d, 1, 0x80000000);
    SpreadStep(c, 2, 0x20000000);
    SpreadStep(b, 3, 0x8000000);
    SpreadStep(a, 4, 0x2000000);
    assert Spread(Half(d), 0) == 0;
    AddLaws(When(Odd(d), 0x80000000), 0, 0, 0);
  }

  lemma FourSum(a: Word)
    ensures Four(a) == Add(Add(Add(When(Odd(Half(Half(Half(a)))), 0x80000000), When(Odd(Half(Half(a))), 0x20000000)),
                               When(Odd(Half(a)), 0x8000000)), When(Odd(a), 0x2000000))
  {
    hide Half, Odd;
    FourthBits(a);
    FirstBits(a);
  }

  lemma SpreadStep(a: Word, n: nat, x: Word)
    requires n > 0 && x == X(2 * (n - 1))
    ensures Spread(a, n) == Add(Spread(Half(a), n - 1), When(Odd(a), x))
  {
    hide Half, Odd, Add, X;
    AddLaws(Spread(Half(a), n - 1), 0, 0, 0);
  }

  lemma HornerIs(a: Word, v: Word)
    ensures Horner(a, v) == Add(MulXN(v, 8), Spread(a, 4))
  {
    hide ShiftX8, Four, MulXN, Spread, Add;
    ShiftX8Is(v);
    FourIs(a);
  }

  lemma FourShift(a: Word)
    ensures Halves(a, 4) == Down(a)
  {
    var b := Half(a);
    var c := Half(b);
    var d := Half(c);
    assert Halves(a, 4) == Halves(b, 3) == Halves(c, 2) == Halves(d, 1) == Halves(Half(d), 0);
  }

  lemma NextGroup(a: Word, v: Word, n: nat)
    requires n > 0
    ensures Groups(a, v, n) == Groups(Down(a), Horner(a, v), n - 1)
  {
    hide Horner, Halves, Add, MulXN, Spread, Down;
    HornerIs(a, v);
    FourShift(a);
  }

  lemma FastSquareIs(a: Word)
    ensures FastSquare(a) == Square(a)
  {
    hide Horner, Groups, Square, Spread, Down;
    var a1 := Down(a);
    var a2 := Down(a1);
    var a3 := Down(a2);
    var a4 := Down(a3);
    var a5 := Down(a4);
    var a6 := Down(a5);
    var a7 := Down(a6);
    var v1 := Horner(a, 0);
    var v2 := Horner(a1, v1);
    var v3 := Horner(a2, v2);
    var v4 := Horner(a3, v3);
    var v5 := Horner(a4, v4);
    var v6 := Horner(a5, v5);
    var v7 := Horner(a6, v6);
    NextGroup(a, 0, 8);
    NextGroup(a1, v1, 7);
    NextGroup(a2, v2, 6);
    NextGroup(a3, v3, 5);
    NextGroup(a4, v4, 4);
    NextGroup(a5, v5, 3);
    NextGroup(a6, v6, 2);
    NextGroup(a7, v7, 1);
    AllGroups(a, Down(a7), Horner(a7, v7));
    SquareIsSpread(a);
  }

  lemma AllGroups(a: Word, b: Word, r: Word)
    requires Groups(a, 0, 8) == Groups(b, r, 0)
    ensures r == Spread(a, 32)
  {
    hide Spread, MulXN, Add;
    GroupsIs(a, 0, 8);
    MulXNZero(64);
    AddLaws(Spread(a, 32), 0, 0, 0);
  }

  // ------------------------------------------------------------ thirty-two squarings

  /** `x^(2^j)`, the entries of `x2n_table`, and once more `x`. */
  function Repeated(j: nat): Word {
    match j
    case 0 => 0x40000000
    case 1 => 0x20000000
    case 2 => 0x8000000
    case 3 => 0x800000
    case 4 => 0x8000
    case 5 => 0xedb88320
    case 6 => 0xb1e6b092
    case 7 => 0xa06a2517
    case 8 => 0xed627dae
    case 9 => 0x88d14467
    case 10 => 0xd7bbfe6a
    case 11 => 0xec447f11
    case 12 => 0x8e7ea170
    case 13 => 0x6427800e
    case 14 => 0x4d47bae0
    case 15 => 0x9fe548f
    case 16 => 0x83852d0f
    case 17 => 0x30362f1a
    case 18 => 0x7b5a9cc3
    case 19 => 0x31fec169
    case 20 => 0x9fec022a
    case 21 => 0x6c8dedc4
    case 22 => 0x15d6874d
    case 23 => 0x5fde7a4e
    case 24 => 0xbad90e37
    case 25 => 0x2e4e5eef
    case 26 => 0x4eaba214
    case 27 => 0xa8a472c0
    case 28 => 0x429a969e
    case 29 => 0x148d302a
    case 30 => 0xc40ba6d0
    case 31 => 0xc4e22c3c
    case _ => 0x40000000
  }

  lemma Squaring0()
    ensures FastSquare(0x40000000) == 0x20000000
  {
    assert Eight(0x40000000, 0x0) == 0x0;
    assert Eight(0x400000, 0x0) == 0x0;
    assert Eight(0x4000, 0x0) == 0x0;
    assert Eight(0x40, 0x0) == 0x20000000;
  }

  lemma Squaring1()
    ensures FastSquare(0x20000000) == 0x8000000
  {
    assert Eight(0x20000000, 0x0) == 0x0;
    assert Eight(0x200000, 0x0) == 0x0;
    assert Eight(0x2000, 0x0) == 0x0;
    assert Eight(0x20, 0x0) == 0x8000000;
  }

  lemma Squaring2()
    ensures FastSquare(0x8000000) == 0x800000
  {
    assert Eight(0x8000000, 0x0) == 0x0;
    assert Eight(0x80000, 0x0) == 0x0;
    assert Eight(0x800, 0x0) == 0x0;
    assert Eight(0x8, 0x0) == 0x800000;
  }

  lemma Squaring3()
    ensures FastSquare(0x800000) == 0x8000
  {
    assert Eight(0x800000, 0x0) == 0x0;
    assert Eight(0x8000, 0x0) == 0x0;
    assert Eight(0x80, 0x0) == 0x80000000;
    assert Eight(0x0, 0x80000000) == 0x8000;
  }

  lemma Squaring4()
    ensures FastSquare(0x8000) == 0xedb88320
  {
    assert Eight(0x8000, 0x0) == 0x0;
    assert Eight(0x80, 0x0) == 0x80000000;
    assert Eight(0x0, 0x80000000) == 0x8000;
    assert Eight(0x0, 0x8000) == 0xedb88320;
  }

  lemma Squaring5()
    ensures FastSquare(0xedb88320) == 0xb1e6b092
  {
    assert Eight(0xedb88320, 0x0) == 0x8000000;
    assert Eight(0xedb883, 0x8000000) == 0x800a0800;
    assert Eight(0xedb8, 0x800a0800) == 0x845b0838;
    assert Eight(0xed, 0x845b0838) == 0xb1e6b092;
  }

  lemma Squaring6()
    ensures FastSquare(0xb1e6b092) == 0xa06a2517
  {
    assert Eight(0xb1e6b092, 0x0) == 0x82080000;
    assert Eight(0xb1e6b0, 0x82080000) == 0x8a008208;
    assert Eight(0xb1e6, 0x8a008208) == 0x6347e204;
    assert Eight(0xb1, 0x6347e204) == 0xa06a2517;
  }

  lemma Squaring7()
    ensures FastSquare(0xa06a2517) == 0xed627dae
  {
    assert Eight(0xa06a2517, 0x0) == 0x22a0000;
    assert Eight(0xa06a25, 0x22a0000) == 0x822022a;
    assert Eight(0xa06a, 0x822022a) == 0xa9eda526;
    assert Eight(0xa0, 0xa9eda526) == 0xed627dae;
  }

  lemma Squaring8()
    ensures FastSquare(0xed627dae) == 0x88d14467
  {
    assert Eight(0xed627dae, 0x0) == 0x88a80000;
    assert Eight(0xed627d, 0x88a80000) == 0x2aa288a8;
    assert Eight(0xed62, 0x2aa288a8) == 0xadb51751;
    assert Eight(0xed, 0xadb51751) == 0x88d14467;
  }

  lemma Squaring9()
    ensures FastSquare(0x88d14467) == 0xd7bbfe6a
  {
    assert Eight(0x88d14467, 0x0) == 0x282a0000;
    assert Eight(0x88d144, 0x282a0000) == 0x2020282a;
    assert Eight(0x88d1, 0x2020282a) == 0xf8dc44f2;
    assert Eight(0x88, 0xf8dc44f2) == 0xd7bbfe6a;
  }

  lemma Squaring10()
    ensures FastSquare(0xd7bbfe6a) == 0xec447f11
  {
    assert Eight(0xd7bbfe6a, 0x0) == 0x28880000;
    assert Eight(0xd7bbfe, 0x28880000) == 0xaaa82888;
    assert Eight(0xd7bb, 0xaaa82888) == 0x4c651011;
    assert Eight(0xd7, 0x4c651011) == 0xec447f11;
  }

  lemma Squaring11()
    ensures FastSquare(0xec447f11) == 0x8e7ea170
  {
    assert Eight(0xec447f11, 0x0) == 0x2020000;
    assert Eight(0xec447f, 0x2020000) == 0x2aaa0202;
    assert Eight(0xec44, 0x2aaa0202) == 0xfc182904;
    assert Eight(0xec, 0xfc182904) == 0x8e7ea170;
  }

  lemma Squaring12()
    ensures FastSquare(0x8e7ea170) == 0x6427800e
  {
    assert Eight(0x8e7ea170, 0x0) == 0x2a000000;
    assert Eight(0x8e7ea1, 0x2a000000) == 0x88022a00;
    assert Eight(0x8e7e, 0x88022a00) == 0xf11341d4;
    assert Eight(0x8e, 0xf11341d4) == 0x6427800e;
  }

  lemma Squaring13()
    ensures FastSquare(0x6427800e) == 0x4d47bae0
  {
    assert Eight(0x6427800e, 0x0) == 0xa80000;
    assert Eight(0x642780, 0xa80000) == 0x800000a8;
    assert Eight(0x6427, 0x800000a8) == 0x6ef4b6e1;
    assert Eight(0x64, 0x6ef4b6e1) == 0x4d47bae0;
  }

  lemma Squaring14()
    ensures FastSquare(0x4d47bae0) == 0x9fe548f
  {
    assert Eight(0x4d47bae0, 0x0) == 0xa8000000;
    assert Eight(0x4d47ba, 0xa8000000) == 0x8a88a800;
    assert Eight(0x4d47, 0x8a88a800) == 0xf827a152;
    assert Eight(0x4d, 0xf827a152) == 0x9fe548f;
  }

  lemma Squaring15()
    ensures FastSquare(0x9fe548f) == 0x83852d0f
  {
    assert Eight(0x9fe548f, 0x0) == 0x80aa0000;
    assert Eight(0x9fe54, 0x80aa0000) == 0x222080aa;
    assert Eight(0x9fe, 0x222080aa) == 0x13f8f563;
    assert Eight(0x9, 0x13f8f563) == 0x83852d0f;
  }

  lemma Squaring16()
    ensures FastSquare(0x83852d0f) == 0x30362f1a
  {
    assert Eight(0x83852d0f, 0x0) == 0xaa0000;
    assert Eight(0x83852d, 0xaa0000) == 0x8a200aa;
    assert Eight(0x8385, 0x8a200aa) == 0xd4ca5cc1;
    assert Eight(0x83, 0xd4ca5cc1) == 0x30362f1a;
  }

  lemma Squaring17()
    ensures FastSquare(0x30362f1a) == 0x7b5a9cc3
  {
    assert Eight(0x30362f1a, 0x0) == 0x2880000;
    assert Eight(0x30362f, 0x2880000) == 0x8aa0288;
    assert Eight(0x3036, 0x8aa0288) == 0x177c7bc5;
    assert Eight(0x30, 0x177c7bc5) == 0x7b5a9cc3;
  }

  lemma Squaring18()
    ensures FastSquare(0x7b5a9cc3) == 0x31fec169
  {
    assert Eight(0x7b5a9cc3, 0x0) == 0xa00a0000;
    assert Eight(0x7b5a9c, 0xa00a0000) == 0x82a0a00a;
    assert Eight(0x7b5a, 0x82a0a00a) == 0xeb1c9c2;
    assert Eight(0x7b, 0xeb1c9c2) == 0x31fec169;
  }

  lemma Squaring19()
    ensures FastSquare(0x31fec169) == 0x9fec022a
  {
    assert Eight(0x31fec169, 0x0) == 0x28820000;
    assert Eight(0x31fec1, 0x28820000) == 0xa0022882;
    assert Eight(0x31fe, 0xa0022882) == 0x96a8f231;
    assert Eight(0x31, 0x96a8f231) == 0x9fec022a;
  }

  lemma Squaring20()
    ensures FastSquare(0x9fec022a) == 0x6c8dedc4
  {
    assert Eight(0x9fec022a, 0x0) == 0x8880000;
    assert Eight(0x9fec02, 0x8880000) == 0x80888;
    assert Eight(0x9fec, 0x80888) == 0x55219a79;
    assert Eight(0x9f, 0x55219a79) == 0x6c8dedc4;
  }

  lemma Squaring21()
    ensures FastSquare(0x6c8dedc4) == 0x15d6874d
  {
    assert Eight(0x6c8dedc4, 0x0) == 0xa0200000;
    assert Eight(0x6c8ded, 0xa0200000) == 0xa8a2a020;
    assert Eight(0x6c8d, 0xa8a2a020) == 0xc3f02fe8;
    assert Eight(0x6c, 0xc3f02fe8) == 0x15d6874d;
  }

  lemma Squaring22()
    ensures FastSquare(0x15d6874d) == 0x5fde7a4e
  {
    assert Eight(0x15d6874d, 0x0) == 0x20a20000;
    assert Eight(0x15d687, 0x20a20000) == 0x802a20a2;
    assert Eight(0x15d6, 0x802a20a2) == 0x5777e89;
    assert Eight(0x15, 0x5777e89) == 0x5fde7a4e;
  }

  lemma Squaring23()
    ensures FastSquare(0x5fde7a4e) == 0xbad90e37
  {
    assert Eight(0x5fde7a4e, 0x0) == 0x20a80000;
    assert Eight(0x5fde7a, 0x20a80000) == 0x2a8820a8;
    assert Eight(0x5fde, 0x2a8820a8) == 0xff183ca1;
    assert Eight(0x5f, 0xff183ca1) == 0xbad90e37;
  }

  lemma Squaring24()
    ensures FastSquare(0xbad90e37) == 0x2e4e5eef
  {
    assert Eight(0xbad90e37, 0x0) == 0xa2a0000;
    assert Eight(0xbad90e, 0xa2a0000) == 0xa80a2a;
    assert Eight(0xbad9, 0xa80a2a) == 0x2d3c259e;
    assert Eight(0xba, 0x2d3c259e) == 0x2e4e5eef;
  }

  lemma Squaring25()
    ensures FastSquare(0x2e4e5eef) == 0x4eaba214
  {
    assert Eight(0x2e4e5eef, 0x0) == 0xa8aa0000;
    assert Eight(0x2e4e5e, 0xa8aa0000) == 0x22a8a8aa;
    assert Eight(0x2e4e, 0x22a8a8aa) == 0xac4d5d11;
    assert Eight(0x2e, 0xac4d5d11) == 0x4eaba214;
  }

  lemma Squaring26()
    ensures FastSquare(0x4eaba214) == 0xa8a472c0
  {
    assert Eight(0x4eaba214, 0x0) == 0x2200000;
    assert Eight(0x4eaba2, 0x2200000) == 0x88080220;
    assert Eight(0x4eab, 0x88080220) == 0xf300cd86;
    assert Eight(0x4e, 0xf300cd86) == 0xa8a472c0;
  }

  lemma Squaring27()
    ensures FastSquare(0xa8a472c0) == 0x429a969e
  {
    assert Eight(0xa8a472c0, 0x0) == 0xa0000000;
    assert Eight(0xa8a472, 0xa0000000) == 0x2a08a000;
    assert Eight(0xa8a4, 0x2a08a000) == 0x5ef689e0;
    assert Eight(0xa8, 0x5ef689e0) == 0x429a969e;
  }

  lemma Squaring28()
    ensures FastSquare(0x429a969e) == 0x148d302a
  {
    assert Eight(0x429a969e, 0x0) == 0x82a80000;
    assert Eight(0x429a96, 0x82a80000) == 0x822882a8;
    assert Eight(0x429a, 0x822882a8) == 0xe7e056c5;
    assert Eight(0x42, 0xe7e056c5) == 0x148d302a;
  }

  lemma Squaring29()
    ensures FastSquare(0x148d302a) == 0xc40ba6d0
  {
    assert Eight(0x148d302a, 0x0) == 0x8880000;
    assert Eight(0x148d30, 0x8880000) == 0xa000888;
    assert Eight(0x148d, 0xa000888) == 0x7d239071;
    assert Eight(0x14, 0x7d239071) == 0xc40ba6d0;
  }

  lemma Squaring30()
    ensures FastSquare(0xc40ba6d0) == 0xc4e22c3c
  {
    assert Eight(0xc40ba6d0, 0x0) == 0xa2000000;
    assert Eight(0xc40ba6, 0xa2000000) == 0x8828a200;
    assert Eight(0xc40b, 0x8828a200) == 0x38524aec;
    assert Eight(0xc4, 0x38524aec) == 0xc4e22c3c;
  }

  lemma Squaring31()
    ensures FastSquare(0xc4e22c3c) == 0x40000000
  {
    assert Eight(0xc4e22c3c, 0x0) == 0xaa00000;
    assert Eight(0xc4e22c, 0xaa00000) == 0x8a00aa0;
    assert Eight(0xc4e2, 0x8a00aa0) == 0xe6da5d57;
    assert Eight(0xc4, 0xe6da5d57) == 0x40000000;
  }

  lemma Squaring(j: nat)
    requires j < 32
    ensures Square(Repeated(j)) == Repeated(j + 1)
  {
    hide Square, FastSquare;
    FastSquareIs(Repeated(j));
    match j {
      case 0 => Squaring0();
      case 1 => Squaring1();
      case 2 => Squaring2();
      case 3 => Squaring3();
      case 4 => Squaring4();
      case 5 => Squaring5();
      case 6 => Squaring6();
      case 7 => Squaring7();
      case 8 => Squaring8();
      case 9 => Squaring9();
      case 10 => Squaring10();
      case 11 => Squaring11();
      case 12 => Squaring12();
      case 13 => Squaring13();
      case 14 => Squaring14();
      case 15 => Squaring15();
      case 16 => Squaring16();
      case 17 => Squaring17();
      case 18 => Squaring18();
      case 19 => Squaring19();
      case 20 => Squaring20();
      case 21 => Squaring21();
      case 22 => Squaring22();
      case 23 => Squaring23();
      case 24 => Squaring24();
      case 25 => Squaring25();
      case 26 => Squaring26();
      case 27 => Squaring27();
      case 28 => Squaring28();
      case 29 => Squaring29();
      case 30 => Squaring30();
      case _ => Squaring31();
    }
  }

  lemma FirstPower()
    ensures X(1) == Repeated(0) && Repeated(32) == Repeated(0)
  {
    hide Bit, MulXN;
    LowPowers(1);
    BitIs(30);
  }

  lemma {:induction false} RepeatedIs(j: nat)
    requires j <= 32
    ensures X(Pow2(j)) == Repeated(j)
  {
    hide Repeated, Square, X;
    if j == 0 {
      FirstPower();
    } else {
      RepeatedIs(j - 1);
      Squaring(j - 1);
      SquarePower(Pow2(j - 1));
    }
  }

  /** `x^(2^32) == x`, so only the exponent of 2 modulo 32 matters. */
  lemma {:induction false} Period(k: nat)
    ensures X(Pow2(k + 32)) == X(Pow2(k))
  {
    hide Repeated, X, Square;
    if k == 0 {
      RepeatedIs(32);
      RepeatedIs(0);
      FirstPower();
    } else {
      Period(k - 1);
      SquarePower(Pow2(k - 1));
      SquarePower(Pow2(k + 31));
    }
  }

  lemma {:induction false} ModPeriod(k: nat)
    ensures X(Pow2(k)) == X(Pow2(k % 32))
  {
    hide X;
    if k >= 32 {
      ModPeriod(k - 32);
      Period(k - 32);
      assert (k - 32) % 32 == k % 32;
    }
  }
}
