/**
 The arithmetic and the tables of crc32.c: `multmodp`, `x2nmodp`, `make_crc_table`, `braid`.
 */
module CrcTables {
  import opened Bits
  import opened Gf2
  import opened Gf2Power
  import opened Crc32

  // ------------------------------------------------------------ the bits of a multiplier

  lemma {:induction false} HalvesMore(a: Word, k: nat)
    ensures Half(Halves(a, k)) == Halves(a, k + 1)
    decreases k
  {
    hide Half;
    if k > 0 { HalvesMore(Half(a), k - 1); }
  }

  predicate Meets(a: Word, m: Word) {
    a & m != 0
  }

  function Before(m: Word): Word {
    m - 1
  }

  function WithOne(m: Word): Word {
    Twice(m) ^ 1
  }

  lemma MeetsTwice(a: Word, x: Word)
    ensures Meets(a, Twice(x)) <==> Meets(Half(a), x)
  {
  }

  lemma {:induction false} TestBit(a: Word, j: nat)
    ensures Meets(a, Bit(j)) <==> Odd(Halves(a, j))
    decreases j
  {
    hide Half, Odd, Twice, Meets;
    if j == 0 {
      LowTest(a);
    } else {
      MeetsTwice(a, Bit(j - 1));
      TestBit(Half(a), j - 1);
    }
  }

  lemma LowTest(a: Word)
    ensures Meets(a, Bit(0)) <==> Odd(a)
  {
  }

  /** The last `j` bits are zero. */
  predicate Clear(a: Word, j: nat)
    decreases j
  {
    j == 0 || (!Odd(a) && Clear(Half(a), j - 1))
  }

  function Mask(j: nat): Word {
    if j == 0 then 0 else WithOne(Mask(j - 1))
  }

  lemma {:induction false} MaskIs(j: nat)
    requires j <= 31
    ensures Before(Bit(j)) == Mask(j) && Short(Mask(j))
  {
    hide Bit, Twice, Before, WithOne, Short, Some;
    if j == 0 {
      assert Bit(0) == 1 by { FirstBit(); }
      NoMask();
    } else {
      MaskIs(j - 1);
      assert Some(Bit(j - 1)) by { SomeBit(j - 1); }
      assert Bit(j) == Twice(Bit(j - 1)) by { BitTwice(j); }
      MaskStep(Bit(j - 1));
    }
  }

  lemma BitTwice(j: nat)
    requires j > 0
    ensures Bit(j) == Twice(Bit(j - 1))
  {
  }

  predicate Short(y: Word) {
    y < 0x80000000
  }

  predicate Some(x: Word) {
    0 < x <= 0x40000000
  }

  lemma NoMask()
    ensures Before(1) == 0 && Short(0)
  {
  }

  lemma SomeBit(j: nat)
    requires j <= 30
    ensures Some(Bit(j))
  {
    hide Bit, BitValue, Some;
    BitIs(j);
    BitValueSome(j);
  }

  lemma BitValueSome(j: nat)
    requires j <= 30
    ensures Some(BitValue(j))
  {
  }

  lemma MaskStep(x: Word)
    requires Some(x)
    ensures Before(Twice(x)) == WithOne(Before(x)) && Short(Before(Twice(x)))
  {
  }

  lemma MeetsMask(a: Word, y: Word)
    requires Short(y)
    ensures !Meets(a, WithOne(y)) <==> !Odd(a) && !Meets(Half(a), y)
  {
    hide Half;
    MeetsTwice(a, y);
    TwiceEven(a, y);
    AndSum(a, Twice(y), 1);
    EvenBit(a & Twice(y), a & 1);
  }

  lemma AndSum(a: Word, x: Word, y: Word)
    ensures a & (x ^ y) == (a & x) ^ (a & y)
  {
  }

  lemma EvenBit(p: Word, q: Word)
    requires p & 1 == 0 && (q == 0 || q == 1)
    ensures p ^ q == 0 <==> p == 0 && q == 0
  {
  }

  lemma TwiceEven(a: Word, y: Word)
    ensures (a & Twice(y)) & 1 == 0 && (a & 1 == 0 || a & 1 == 1)
  {
  }

  lemma {:induction false} ClearByMask(a: Word, j: nat)
    requires j <= 31
    ensures !Meets(a, Mask(j)) <==> Clear(a, j)
    decreases j
  {
    hide Half, Odd, Twice, Bit, Meets, WithOne, Short;
    if j > 0 {
      MaskIs(j - 1);
      MeetsMask(a, Mask(j - 1));
      ClearByMask(Half(a), j - 1);
    } else {
      AndNothing(a);
    }
  }

  lemma AndNothing(a: Word)
    ensures !Meets(a, 0)
  {
  }

  lemma {:induction false} ClearNext(a: Word, j: nat)
    ensures Clear(a, j + 1) <==> Clear(a, j) && !Odd(Halves(a, j))
    decreases j
  {
    hide Half, Odd;
    if j > 0 { ClearNext(Half(a), j - 1); }
  }

  lemma {:induction false} MulClear(a: Word, b: Word, n: nat, j: nat)
    requires j <= n && Clear(a, j)
    ensures Mul(a, b, n) == Mul(Halves(a, j), b, n - j)
    decreases j
  {
    hide Half, Odd, Add, MulXN;
    if j > 0 { MulClear(Half(a), b, n - 1, j - 1); }
  }

  lemma {:induction false} MulSome(a: Word, b: Word, n: nat)
    requires Clear(a, n)
    ensures Mul(a, b, n) == 0
    decreases n
  {
    hide Half, Odd, Add, MulXN;
    if n > 0 { MulSome(Half(a), b, n - 1); }
  }

  lemma NotClear(a: Word)
    requires a != 0
    ensures !Clear(a, 32)
  {
    hide Mul, Clear;
    if Clear(a, 32) {
      MulSome(a, ONE, 32);
      MulOne(a);
    }
  }

  /** `multmodp`. */
  method MultModP(a: Word, b0: Word) returns (p: Word)
    requires a != 0
    ensures p == Mul(a, b0, 32)
  {
    hide Half, Odd, Add, MulX, Bit, Twice, Mask, Halves, Clear, Mul, Meets, Before, Short;
    var m, b := ONE, b0;
    p := 0;
    ghost var i := 0;
    MulStart(a, b0);
    while true
      invariant 0 <= i < 32 && m == Bit(31 - i) && b == MulXN(b0, i) && p == Mul(Halves(a, 32 - i), b0, i) && !Clear(a, 32 - i)
      decreases 32 - i
    {
      TestBit(a, 31 - i);
      MaskIs(31 - i);
      ClearByMask(a, 31 - i);
      ClearNext(a, 31 - i);
      MulNext(a, b0, i);
      if Meets(a, m) {
        p := Add(p, b);
        if !Meets(a, Before(m)) {
          MulClear(a, b0, 32, 31 - i);
          return;
        }
      }
      assert i < 31 by { ClearNothing(a); }
      BitHalf(31 - i);
      m := Half(m);
      b := MulX(b);
      i := i + 1;
    }
  }

  lemma ClearNothing(a: Word)
    ensures Clear(a, 0)
  {
  }

  lemma MulStart(a: Word, b: Word)
    requires a != 0
    ensures ONE == Bit(31) && MulXN(b, 0) == b && Mul(Halves(a, 32), b, 0) == 0 && !Clear(a, 32)
  {
    hide Bit, Halves, Clear;
    BitIs(31);
    LastBit();
    NotClear(a);
  }

  lemma MulNext(a: Word, b: Word, i: nat)
    requires i < 32
    ensures Odd(Halves(a, 31 - i)) ==> Mul(Halves(a, 31 - i), b, i + 1) == Add(Mul(Halves(a, 32 - i), b, i), MulXN(b, i))
    ensures !Odd(Halves(a, 31 - i)) ==> Mul(Halves(a, 31 - i), b, i + 1) == Mul(Halves(a, 32 - i), b, i)
  {
    hide Half, Odd, Add, MulXN, Halves;
    HalvesMore(a, 31 - i);
  }

  // ------------------------------------------------------------ powers

  lemma NonZeroX(a: Word)
    requires a != 0
    ensures MulX(a) != 0
  {
    assert a & 1 == 1 ==> (a >> 1) ^ POLY != 0;
    assert a & 1 != 1 ==> a >> 1 != 0;
  }

  lemma {:induction false} PowerNotZero(n: nat)
    ensures X(n) != 0
  {
    hide MulX;
    if n > 0 {
      PowerNotZero(n - 1);
      NonZeroX(X(n - 1));
    }
  }

  /** `x2n_table`. */
  ghost predicate PowersOk(t: seq<Word>) {
    |t| == 32 && forall j | 0 <= j < 32 :: t[j] == X(Pow2(j))
  }

  lemma StartPower()
    ensures X(Pow2(0)) == 0x40000000
  {
    FirstPower();
  }

  method MakePowers() returns (t: array<Word>)
    ensures fresh(t) && PowersOk(t[..])
  {
    hide X, Mul, Pow2;
    t := new Word[32];
    var p := 0x40000000;
    assert p == X(Pow2(0)) by { StartPower(); }
    t[0] := p;
    for n := 1 to 32
      invariant p == X(Pow2(n - 1)) && forall j | 0 <= j < n :: t[j] == X(Pow2(j))
    {
      PowerNotZero(Pow2(n - 1));
      p := MultModP(p, p);
      PowersMultiply(Pow2(n - 1), Pow2(n - 1));
      NextPower(n - 1);
      t[n] := p;
    }
  }

  /** `x2nmodp`: `x^(n * 2^k)`. */
  method X2nModP(t: array<Word>, n0: nat, k0: nat) returns (p: Word)
    requires PowersOk(t[..])
    ensures p == X(n0 * Pow2(k0))
  {
    hide X, Mul, Pow2;
    p := ONE;
    ghost var e: nat := 0;
    assert X(0) == ONE by { NoFactor(); }
    var n: nat, k: nat := n0, k0;
    while n != 0
      invariant p == X(e) && e + n * Pow2(k) == n0 * Pow2(k0)
    {
      if n % 2 == 1 {
        PowerNotZero(Pow2(k % 32));
        assert t[..][k % 32] == X(Pow2(k % 32));
        p := MultModP(t[k % 32], p);
        ModPeriod(k);
        PowersMultiply(Pow2(k), e);
        e := Pow2(k) + e;
      }
      HalfExponent(n, Pow2(k), Pow2(k + 1)) by { NextPower(k); }
      n := n / 2;
      k := k + 1;
    }
  }

  lemma NoFactor()
    ensures X(0) == ONE
  {
  }

  lemma NextPower(k: nat)
    ensures Pow2(k + 1) == 2 * Pow2(k)
  {
  }

  lemma HalfExponent(n: nat, a: nat, b: nat)
    requires b == 2 * a
    ensures n * a == (n / 2) * b + if n % 2 == 1 then a else 0
  {
    var h := n / 2;
    assert n == 2 * h + n % 2;
    assert n * a == (2 * h) * a + (n % 2) * a by { Distribute(2 * h, n % 2, a); }
    assert (2 * h) * a == h * b;
  }

  // ------------------------------------------------------------ tables

  lemma ByteBack(b: bv8, i: nat)
    requires b as nat == i
    ensures i < 256 && i as bv8 == b
  {
  }

  /** The first part of `make_crc_table`. */
  method MakeTable() returns (t: array<Word>)
    ensures fresh(t) && TableOk(t[..])
  {
    hide MulX, Wide;
    t := new Word[256];
    for i := 0 to 256
      invariant forall b: bv8 | b as nat < i :: t[b as nat] == MulXN(Wide(b), 8)
    {
      var p := Wide(i as bv8);
      for j := 0 to 8
        invariant p == MulXN(Wide(i as bv8), j)
      {
        p := MulX(p);
      }
      t[i] := p;
      forall b: bv8 | b as nat < i + 1 ensures t[b as nat] == MulXN(Wide(b), 8) {
        if b as nat == i { ByteBack(b, i); }
      }
    }
  }

  /** `crc_braid_table`: a byte at place `k` of a word, followed by the rest of `n` words. */
  ghost predicate BraidOk(t: seq<Word>, n: nat) {
    |t| == 2048 && n >= 1 && forall k: nat, b: bv8 | k < 8 :: BraidAt(t, k, b) == MulXN(Wide(b), 64 * n - 8 * k)
  }

  function BraidAt(t: seq<Word>, k: nat, b: bv8): Word
    requires |t| == 2048 && k < 8
  {
    t[256 * k + b as nat]
  }

  /** The byte as the coefficients of `x^0` to `x^7`. */
  function Top(b: bv8): Word {
    Wide(b) << 24
  }

  lemma TopByte(b: bv8)
    ensures MulXN(Top(b), 24) == Wide(b)
  {
    hide MulXN;
    var a := Top(b);
    assert LowByte(a) == 0 && HighBytes(a) == Wide(b) << 16;
    HighShift(a);
    assert LowByte(Wide(b) << 16) == 0 && HighBytes(Wide(b) << 16) == Wide(b) << 8;
    HighShift(Wide(b) << 16);
    assert LowByte(Wide(b) << 8) == 0 && HighBytes(Wide(b) << 8) == Wide(b);
    HighShift(Wide(b) << 8);
    MulXNMore(a, 8, 8);
    MulXNMore(a, 16, 8);
  }

  lemma BraidEntry(b: bv8, m: nat)
    ensures Mul(Top(b), X(24 + m), 32) == MulXN(Wide(b), m)
  {
    hide MulXN, Mul, Wide, Top;
    MulCommutes(Top(b), X(24 + m));
    MulPower(Top(b), 24 + m);
    MulXNMore(Top(b), 24, m);
    TopByte(b);
  }

  /** Row `k` of the table that `braid` makes. */
  method BraidRow(t: array<Word>, powers: array<Word>, n: nat, k: nat)
    requires t.Length == 2048 && PowersOk(powers[..]) && n >= 1 && k < 8 && t != powers
    modifies t
    ensures forall b: bv8 :: BraidAt(t[..], k, b) == MulXN(Wide(b), 64 * n - 8 * k)
    ensures forall i | 0 <= i < 256 * k || 256 * k + 256 <= i < 2048 :: t[i] == old(t[i])
  {
    hide MulXN, Wide, Mul, X, Top;
    var p := X2nModP(powers, (n * 8 + 3 - k) * 8, 0);
    assert p == X(24 + (64 * n - 8 * k)) by { Exponent(n, k); }
    t[256 * k] := 0;
    assert MulXN(Wide(0), 64 * n - 8 * k) == 0 by { NoByte(64 * n - 8 * k); }
    for i := 1 to 256
      invariant forall b: bv8 | b as nat < i :: t[256 * k + b as nat] == MulXN(Wide(b), 64 * n - 8 * k)
      invariant forall j | 0 <= j < 256 * k || 256 * k + 256 <= j < 2048 :: t[j] == old(t[j])
    {
      TopNotZero(i);
      t[256 * k + i] := MultModP(Top(i as bv8), p);
      BraidEntry(i as bv8, 64 * n - 8 * k);
      forall b: bv8 | b as nat < i + 1 ensures t[256 * k + b as nat] == MulXN(Wide(b), 64 * n - 8 * k) {
        if b as nat == i { ByteBack(b, i); }
      }
    }
  }

  lemma Exponent(n: nat, k: nat)
    requires n >= 1 && k < 8
    ensures (n * 8 + 3 - k) * 8 * Pow2(0) == 24 + (64 * n - 8 * k)
  {
  }

  lemma NoByte(m: nat)
    ensures MulXN(Wide(0), m) == 0
  {
    MulXNZero(m);
  }

  lemma NotZero(i: nat)
    requires 1 <= i < 256
    ensures i as bv8 != 0
  {
  }

  lemma TopNotZero(i: nat)
    requires 1 <= i < 256
    ensures Top(i as bv8) != 0
  {
    NotZero(i);
    TopOf(i as bv8);
  }

  lemma TopOf(b: bv8)
    requires b != 0
    ensures Top(b) != 0
  {
  }

  /** `braid`, for words of eight bytes. */
  method MakeBraid(powers: array<Word>, n: nat) returns (t: array<Word>)
    requires PowersOk(powers[..]) && n >= 1
    ensures fresh(t) && BraidOk(t[..], n)
  {
    hide MulXN, Wide;
    t := new Word[2048];
    for k := 0 to 8
      invariant forall j: nat, b: bv8 | j < k :: BraidAt(t[..], j, b) == MulXN(Wide(b), 64 * n - 8 * j)
    {
      ghost var s := t[..];
      BraidRow(t, powers, n, k);
      forall j: nat, b: bv8 | j < k ensures BraidAt(t[..], j, b) == BraidAt(s, j, b) {
      }
    }
  }
}
