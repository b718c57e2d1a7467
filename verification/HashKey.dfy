/**
 The running hash key of `deflate` (deflate.c, `UPDATE_HASH`): three bytes, each shifted
 by a third of the key's width or more, so that a fourth byte drops out of the key.
 */
module HashKey {
  import opened Bits

  /** Exclusive or. */
  function Xor(a: nat, b: nat): nat
    decreases a + b
  {
    if a == 0 && b == 0 then 0 else (if a % 2 == b % 2 then 0 else 1) + 2 * Xor(a / 2, b / 2)
  }

  lemma XorStep(a: nat, b: nat)
    ensures Xor(a, b) % 2 == (if a % 2 == b % 2 then 0 else 1) && Xor(a, b) / 2 == Xor(a / 2, b / 2)
  {
  }

  lemma {:induction false} XorAgree(a: nat, a': nat, b: nat, n: nat)
    requires Low(a, n) == Low(a', n)
    ensures Low(Xor(a, b), n) == Low(Xor(a', b), n)
  {
    if n > 0 {
      LowStep(a, a', n);
      XorStep(a, b);
      XorStep(a', b);
      XorAgree(a / 2, a' / 2, b / 2, n - 1);
    }
  }

  lemma LowStep(a: nat, a': nat, n: nat)
    requires n > 0
    ensures Low(a, n) == Low(a', n) <==> a % 2 == a' % 2 && Low(a / 2, n - 1) == Low(a' / 2, n - 1)
  {
  }

  lemma {:induction false} XorCancel(a: nat, b: nat, b': nat, n: nat)
    requires Low(Xor(a, b), n) == Low(Xor(a, b'), n)
    ensures Low(b, n) == Low(b', n)
  {
    if n > 0 {
      XorStep(a, b);
      XorStep(a, b');
      LowStep(Xor(a, b), Xor(a, b'), n);
      XorCancel(a / 2, b / 2, b' / 2, n - 1);
    }
  }

  lemma {:induction false} XorZero(a: nat)
    ensures Xor(0, a) == a
  {
    if a > 0 { XorZero(a / 2); }
  }

  lemma {:induction false} ShiftAgree(a: nat, a': nat, n: nat, s: nat)
    requires Low(a, n) == Low(a', n)
    ensures Low(a * Pow2(s), n + s) == Low(a' * Pow2(s), n + s)
  {
    hide Low;
    if s > 0 {
      ShiftAgree(a, a', n, s - 1);
      TwiceShifted(a, Pow2(s - 1));
      TwiceShifted(a', Pow2(s - 1));
      LowStep(a * Pow2(s), a' * Pow2(s), n + s);
    }
  }

  lemma TwiceShifted(a: nat, p: nat)
    ensures (a * (2 * p)) % 2 == 0 && (a * (2 * p)) / 2 == a * p
  {
    assert a * (2 * p) == 2 * (a * p);
  }

  lemma LowLess(a: nat, a': nat, m: nat, n: nat)
    requires Low(a, n) == Low(a', n) && m <= n
    ensures Low(a, m) == Low(a', m)
  {
    LowLow(a, n, m);
    LowLow(a', n, m);
  }

  /** Keys of `bits` bits. */
  datatype Hashing = Hashing(bits: nat) {
    predicate Valid() { 8 <= bits <= 16 }

    function Shift(): nat { (bits + 2) / 3 }

    function Size(): nat { Pow2(bits) }

    function Update(h: nat, c: Byte): (r: nat)
      ensures r < Size()
    {
      Low(Xor(h * Pow2(Shift()), c), bits)
    }

    function Key(a: Byte, b: Byte, c: Byte): (r: nat)
      ensures r < Size()
    {
      Update(Update(Update(0, a), b), c)
    }

    /** One more byte is enough for the key of `a`, `b` and that byte. */
    ghost predicate Primed(h: nat, a: Byte, b: Byte) {
      Low(h, 2 * Shift()) == Low(Update(Update(0, a), b), 2 * Shift())
    }

    lemma UpdateAgree(h: nat, h': nat, c: Byte, m: nat)
      requires Low(h, m) == Low(h', m)
      ensures Low(Update(h, c), m + Shift()) == Low(Update(h', c), m + Shift())
      ensures m + Shift() >= bits ==> Update(h, c) == Update(h', c)
    {
      hide Low, Xor, Pow2;
      var s := Shift();
      var x, x' := Xor(h * Pow2(s), c), Xor(h' * Pow2(s), c);
      ShiftAgree(h, h', m, s);
      XorAgree(h * Pow2(s), h' * Pow2(s), c, m + s);
      LowLow(x, bits, m + s);
      LowLow(x', bits, m + s);
      LowLess(x, x', if bits < m + s then bits else m + s, m + s);
    }

    /** The third byte completes the key. */
    lemma PrimedKey(h: nat, a: Byte, b: Byte, c: Byte)
      requires Primed(h, a, b)
      ensures Update(h, c) == Key(a, b, c)
    {
      hide Low, Update;
      UpdateAgree(h, Update(Update(0, a), b), c, 2 * Shift());
    }

    /** The key of three bytes is ready for the byte after them. */
    lemma KeyPrimes(a: Byte, b: Byte, c: Byte)
      ensures Primed(Key(a, b, c), b, c)
    {
      hide Low, Update;
      var h, h' := Update(0, a), 0;
      assert Low(h, 0) == Low(h', 0) by { NoBitsLow(h); NoBitsLow(h'); }
      UpdateAgree(h, h', b, 0);
      UpdateAgree(Update(h, b), Update(h', b), c, Shift());
    }

    /** Starting afresh with two bytes. */
    lemma StartPrimes(a: Byte, b: Byte)
      requires Valid()
      ensures Primed(Update(a, b), a, b)
    {
      hide Low, Xor;
      XorZero(a);
      assert 0 * Pow2(Shift()) == 0;
      assert Pow2(8) == 256;
      Pow2Mono(8, bits);
      LowSmall(a, bits);
    }

    /** Strings with the same key and the same first two bytes agree in the third. */
    lemma ThirdByte(a: Byte, b: Byte, c: Byte, c': Byte)
      requires Valid() && Key(a, b, c) == Key(a, b, c')
      ensures c == c'
    {
      hide Low, Xor, Pow2;
      var x := Update(Update(0, a), b) * Pow2(Shift());
      XorCancel(x, c, c', bits);
      LowLess(c, c', 8, bits);
      assert Pow2(8) == 256 by { SmallPowers(); }
      LowSmall(c, 8);
      LowSmall(c', 8);
    }
  }

  lemma NoBitsLow(x: nat)
    ensures Low(x, 0) == 0
  {
  }

}
