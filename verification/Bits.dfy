/**
 Bit-level arithmetic shared by the codec modules.

 Machine words are modelled as natural numbers.  `Low(x, n)` is the C expression
 `x & ((1 << n) - 1)`, `Shr(x, n)` is `x >> n`, and `Rev(n, x)` is the reversal of the
 low `n` bits of `x`.  A stream of bits is a `seq<bool>`, first bit first; `Num` reads a
 stream as a number whose least significant bit is the first bit of the stream, which is
 how deflate packs everything except Huffman codes (section 3.1.1 of RFC 1951).
 */
module Bits {
  datatype Option<+T> = None | Some(value: T)

  type Byte = x: nat | x < 256

  function Pow2(n: nat): (r: nat)
    ensures r >= 1
  {
    if n == 0 then 1 else 2 * Pow2(n - 1)
  }

  /** The low `n` bits of `x`. */
  function Low(x: nat, n: nat): (r: nat)
    ensures r < Pow2(n)
    ensures r <= x
  {
    if n == 0 then 0 else x % 2 + 2 * Low(x / 2, n - 1)
  }

  /** `x` shifted right by `n` bits. */
  function Shr(x: nat, n: nat): (r: nat)
    ensures r <= x
  {
    if n == 0 then x else Shr(x / 2, n - 1)
  }

  /** The low `n` bits of `x` in the opposite order. */
  function Rev(n: nat, x: nat): (r: nat)
    ensures r < Pow2(n)
  {
    if n == 0 then 0 else (if x % 2 == 1 then Pow2(n - 1) else 0) + Rev(n - 1, x / 2)
  }

  lemma {:induction false} Pow2Add(a: nat, b: nat)
    ensures Pow2(a + b) == Pow2(a) * Pow2(b)
  {
    if a != 0 {
      Pow2Add(a - 1, b);
      assert Pow2(a + b) == 2 * Pow2(a - 1 + b);
      MulAssoc2(Pow2(a - 1), Pow2(b));
    }
  }

  lemma {:induction false} Pow2Mono(a: nat, b: nat)
    requires a <= b
    ensures Pow2(a) <= Pow2(b)
    ensures a < b ==> 2 * Pow2(a) <= Pow2(b)
    decreases b
  {
    if a < b { Pow2Mono(a, b - 1); }
  }

  lemma SmallPowers()
    ensures Pow2(0) == 1 && Pow2(1) == 2 && Pow2(2) == 4 && Pow2(3) == 8 && Pow2(4) == 16 && Pow2(5) == 32 && Pow2(6) == 64
    ensures Pow2(7) == 128 && Pow2(8) == 256 && Pow2(9) == 512
  {
    assert Pow2(5) == 32;
  }

  /** The sizes of windows and buffers. */
  lemma SizeRange(n: nat)
    requires 7 <= n <= 15
    ensures 128 <= Pow2(n) <= 32768 && (n >= 8 ==> Pow2(n) >= 256) && (n >= 9 ==> Pow2(n) >= 512)
  {
    SmallPowers();
    assert Pow2(15) == 32768;
    Pow2Mono(7, n);
    if n >= 8 { Pow2Mono(8, n); }
    if n >= 9 { Pow2Mono(9, n); }
    Pow2Mono(n, 15);
  }

  /** `Low` and `Shr` are the remainder and the quotient by `Pow2(n)`. */
  lemma {:induction false} Split(x: nat, n: nat)
    ensures x == Low(x, n) + Pow2(n) * Shr(x, n)
  {
    if n != 0 {
      Split(x / 2, n - 1);
      MulAssoc2(Pow2(n - 1), Shr(x / 2, n - 1));
      assert x == x % 2 + 2 * (x / 2);
    }
  }

  /** The decomposition of `Split` is unique. */
  lemma {:induction false} SplitUnique(lo: nat, hi: nat, n: nat)
    requires lo < Pow2(n)
    ensures Low(lo + Pow2(n) * hi, n) == lo
    ensures Shr(lo + Pow2(n) * hi, n) == hi
  {
    if n == 0 {
      assert Pow2(0) * hi == hi;
    } else {
      var x := lo + Pow2(n) * hi;
      MulAssoc2(Pow2(n - 1), hi);
      assert x / 2 == lo / 2 + Pow2(n - 1) * hi && x % 2 == lo % 2;
      SplitUnique(lo / 2, hi, n - 1);
    }
  }

  lemma {:induction false} LowSmall(x: nat, n: nat)
    requires x < Pow2(n)
    ensures Low(x, n) == x && Shr(x, n) == 0
  {
    assert x + Pow2(n) * 0 == x;
    SplitUnique(x, 0, n);
  }

  lemma {:induction false} LowMod(x: nat, n: nat)
    ensures Low(x, n) == x % Pow2(n)
    ensures Shr(x, n) == x / Pow2(n)
  {
    Split(x, n);
    DivModUnique(x, Pow2(n), Shr(x, n), Low(x, n));
  }

  lemma DivModUnique(x: int, d: int, q: int, r: int)
    requires 0 <= r < d && x == r + d * q
    ensures x % d == r && x / d == q
  {
    var q', r' := x / d, x % d;
    assert d * (q - q') == r' - r;
    MulBound(d, q - q');
  }

  lemma MulBound(d: int, k: int)
    requires d > 0
    ensures k >= 1 ==> d * k >= d
    ensures k <= -1 ==> d * k <= -d
  {
    if k >= 1 {
      assert d * k == d + d * (k - 1);
    } else if k <= -1 {
      assert d * k == -d + d * (k + 1);
    }
  }

  lemma Distribute(a: int, b: int, w: int)
    ensures (a + b) * w == a * w + b * w
  {
  }

  lemma MulAssoc2(a: nat, b: nat)
    ensures (2 * a) * b == 2 * (a * b)
  {
  }

  /** Taking low bits twice keeps the fewer. */
  lemma {:induction false} LowLow(x: nat, m: nat, n: nat)
    ensures Low(Low(x, m), n) == Low(x, if m < n then m else n)
  {
    if n == 0 || m == 0 {
      if m == 0 { LowZero(n); }
    } else {
      assert Low(x, m) % 2 == x % 2 && Low(x, m) / 2 == Low(x / 2, m - 1);
      LowLow(x / 2, m - 1, n - 1);
    }
  }

  lemma {:induction false} LowZero(n: nat)
    ensures Low(0, n) == 0 && Shr(0, n) == 0
  {
    LowSmall(0, n);
  }

  lemma {:induction false} ShrShr(x: nat, m: nat, n: nat)
    ensures Shr(Shr(x, m), n) == Shr(x, m + n)
  {
    if m != 0 { ShrShr(x / 2, m - 1, n); }
  }

  /** The low `m + n` bits are the low `m` bits and then `n` more. */
  lemma {:induction false} LowAdd(x: nat, m: nat, n: nat)
    ensures Low(x, m + n) == Low(x, m) + Pow2(m) * Low(Shr(x, m), n)
    ensures Shr(Low(x, m + n), m) == Low(Shr(x, m), n)
    ensures Low(Low(x, m + n), m) == Low(x, m)
  {
    LowAddNum(x, m, n);
    SplitUnique(Low(x, m), Low(Shr(x, m), n), m);
  }

  lemma {:induction false} LowAddNum(x: nat, m: nat, n: nat)
    ensures Low(x, m + n) == Low(x, m) + Pow2(m) * Low(Shr(x, m), n)
  {
    if m == 0 {
      assert Pow2(0) * Low(x, n) == Low(x, n);
    } else {
      LowAddNum(x / 2, m - 1, n);
      var y := Low(Shr(x / 2, m - 1), n);
      MulAssoc2(Pow2(m - 1), y);
      assert Low(x, m + n) == x % 2 + 2 * Low(x / 2, m - 1 + n);
      assert Low(x, m) == x % 2 + 2 * Low(x / 2, m - 1);
      assert Pow2(m) * y == 2 * (Pow2(m - 1) * y);
    }
  }

  // ---------------------------------------------------------------- reversal

  lemma {:induction false} RevLow(n: nat, x: nat)
    ensures Rev(n, Low(x, n)) == Rev(n, x)
  {
    if n != 0 {
      assert Low(x, n) % 2 == x % 2 && Low(x, n) / 2 == Low(x / 2, n - 1);
      RevLow(n - 1, x / 2);
    }
  }

  lemma RevStep(n: nat, x: nat)
    ensures n == 0 ==> Rev(n, x) == 0 && Low(x, n) == 0
    ensures n > 0 ==> Rev(n, x) == Rev(n - 1, x / 2) + Pow2(n - 1) * (x % 2)
    ensures n > 0 ==> Low(x, n) == x % 2 + 2 * Low(x / 2, n - 1)
  {
    assert x % 2 == 0 || x % 2 == 1;
  }

  /** Reversal read from the other end. */
  lemma {:induction false} RevHigh(n: nat, lo: nat, hi: nat)
    requires lo < Pow2(n) && hi < 2
    ensures Rev(n + 1, lo + Pow2(n) * hi) == 2 * Rev(n, lo) + hi
  {
    if n == 0 {
      assert lo == 0 && Pow2(0) * hi == hi;
      assert Rev(1, hi) == (if hi % 2 == 1 then Pow2(0) else 0) + Rev(0, hi / 2);
    } else {
      var x := lo + Pow2(n) * hi;
      MulAssoc2(Pow2(n - 1), hi);
      assert x / 2 == lo / 2 + Pow2(n - 1) * hi && x % 2 == lo % 2;
      RevHigh(n - 1, lo / 2, hi);
      assert Rev(n + 1, x) == (if x % 2 == 1 then Pow2(n) else 0) + Rev(n, x / 2);
      assert Rev(n, lo) == (if lo % 2 == 1 then Pow2(n - 1) else 0) + Rev(n - 1, lo / 2);
    }
  }

  lemma {:induction false} RevRev(n: nat, x: nat)
    ensures Rev(n, Rev(n, x)) == Low(x, n)
  {
    hide *;
    RevStep(n, x);
    RevStep(n, Rev(n, x));
    if n != 0 {
      RevHigh(n - 1, Rev(n - 1, x / 2), x % 2);
      RevRev(n - 1, x / 2);
    }
  }

  /** The top `m` bits of the reversal are the reversal of the low `m` bits. */
  lemma {:induction false} RevTop(m: nat, k: nat, x: nat)
    ensures Rev(m + k, x) == Rev(m, x) * Pow2(k) + Rev(k, Shr(x, m))
  {
    if m == 0 {
      assert Rev(0, x) == 0;
    } else {
      RevTop(m - 1, k, x / 2);
      Pow2Add(m - 1, k);
      var t, u := if x % 2 == 1 then Pow2(m - 1) else 0, Rev(m - 1, x / 2);
      assert Rev(m + k, x) == (if x % 2 == 1 then Pow2(m - 1 + k) else 0) + Rev(m - 1 + k, x / 2);
      assert Rev(m, x) == t + u;
      Distribute(t, u, Pow2(k));
    }
  }

  /** Appending zero bits to a code does not change its reversal. */
  lemma {:induction false} RevShift(m: nat, k: nat, c: nat)
    ensures Rev(m + k, c * Pow2(k)) == Rev(m, c)
  {
    if k == 0 {
    } else {
      RevShift(m, k - 1, c);
      MulAssoc2(Pow2(k - 1), c);
      assert c * Pow2(k) == 2 * (c * Pow2(k - 1));
    }
  }

  // ---------------------------------------------------------------- streams

  /** The number whose bits are `b`, least significant first. */
  function Num(b: seq<bool>): (r: nat)
    ensures r < Pow2(|b|)
  {
    if b == [] then 0 else (if b[0] then 1 else 0) + 2 * Num(b[1..])
  }

  /** The low `n` bits of `x`, least significant first. */
  function ToBits(x: nat, n: nat): (b: seq<bool>)
    ensures |b| == n
  {
    if n == 0 then [] else [x % 2 == 1] + ToBits(x / 2, n - 1)
  }

  function BytesToBits(s: seq<Byte>): (b: seq<bool>)
    ensures |b| == 8 * |s|
  {
    if s == [] then [] else ToBits(s[0], 8) + BytesToBits(s[1..])
  }

  lemma {:induction false} NumToBits(x: nat, n: nat)
    ensures Num(ToBits(x, n)) == Low(x, n)
  {
    if n != 0 {
      NumToBits(x / 2, n - 1);
      assert ToBits(x, n)[1..] == ToBits(x / 2, n - 1);
    }
  }

  lemma {:induction false} ToBitsNum(b: seq<bool>)
    ensures ToBits(Num(b), |b|) == b
  {
    if b != [] {
      ToBitsNum(b[1..]);
      assert b == [b[0]] + b[1..];
    }
  }

  /** Reading a concatenation. */
  lemma {:induction false} NumConcat(a: seq<bool>, b: seq<bool>)
    ensures Num(a + b) == Num(a) + Pow2(|a|) * Num(b)
  {
    if a == [] {
      assert a + b == b;
      assert Pow2(0) * Num(b) == Num(b);
    } else {
      var t, first := a[1..], if a[0] then 1 else 0;
      NumConcat(t, b);
      assert (a + b)[1..] == t + b;
      assert Num(a + b) == first + 2 * Num(t + b);
      MulAssoc2(Pow2(|t|), Num(b));
      assert Pow2(|a|) == 2 * Pow2(|t|);
    }
  }

  /** Low bits of a stream's number are its first bits, and the rest are what follows. */
  lemma {:induction false} NumTake(b: seq<bool>, n: nat)
    requires n <= |b|
    ensures Low(Num(b), n) == Num(b[..n])
    ensures Shr(Num(b), n) == Num(b[n..])
  {
    assert b == b[..n] + b[n..];
    NumConcat(b[..n], b[n..]);
    SplitUnique(Num(b[..n]), Num(b[n..]), n);
  }

  lemma {:induction false} ToBitsLow(x: nat, n: nat)
    ensures ToBits(Low(x, n), n) == ToBits(x, n)
  {
    if n != 0 {
      assert Low(x, n) % 2 == x % 2 && Low(x, n) / 2 == Low(x / 2, n - 1);
      ToBitsLow(x / 2, n - 1);
    }
  }

  lemma {:induction false} ToBitsSplit(x: nat, m: nat, n: nat)
    ensures ToBits(x, m + n) == ToBits(x, m) + ToBits(Shr(x, m), n)
  {
    if m != 0 {
      ToBitsSplit(x / 2, m - 1, n);
      var first, mid, rest := [x % 2 == 1], ToBits(x / 2, m - 1), ToBits(Shr(x / 2, m - 1), n);
      assert ToBits(x, m + n) == first + ToBits(x / 2, m - 1 + n);
      assert first + (mid + rest) == (first + mid) + rest;
    } else {
      assert ToBits(x, 0) + ToBits(Shr(x, 0), n) == ToBits(x, n);
    }
  }

  lemma {:induction false} BytesToBitsConcat(a: seq<Byte>, b: seq<Byte>)
    ensures BytesToBits(a + b) == BytesToBits(a) + BytesToBits(b)
  {
    if a == [] {
      assert a + b == b;
    } else {
      BytesToBitsConcat(a[1..], b);
      assert (a + b)[1..] == a[1..] + b && (a + b)[0] == a[0];
      var x, y, z := ToBits(a[0], 8), BytesToBits(a[1..]), BytesToBits(b);
      assert BytesToBits(a + b) == x + (y + z);
      assert x + (y + z) == (x + y) + z;
    }
  }
}
