/**
 The Adler-32 checksum (adler32.c; section 2.2 of RFC 1950).  Sums are only reduced after
 thousands of bytes, by division or by shifts, and checksums can be combined.
 */
module Adler32 {
  import opened Bits

  const BASE := 65521
  const NMAX := 5552
  const LIMIT := 0x1_0000_0000

  /** The two sums of a checksum. */
  datatype Pair = Pair(a: nat, b: nat) {
    function Reduced(): Pair { Pair(a % BASE, b % BASE) }

    predicate Valid() { a < BASE && b < BASE }
  }

  /** The definition: reduced after every byte. */
  function Checksum(p: Pair, s: seq<Byte>): Pair
    decreases |s|
  {
    if s == [] then p else
      var a := (p.a + s[0]) % BASE;
      Checksum(Pair(a, (p.b + a) % BASE), s[1..])
  }

  /** The same sums without reducing. */
  function Sums(p: Pair, s: seq<Byte>): Pair
    decreases |s|
  {
    if s == [] then p else Sums(Pair(p.a + s[0], p.b + p.a + s[0]), s[1..])
  }

  // ------------------------------------------------------------ reducing late

  ghost predicate Congruent(x: int, y: int) {
    x % BASE == y % BASE
  }

  ghost predicate Same(p: Pair, q: Pair) {
    Congruent(p.a, q.a) && Congruent(p.b, q.b)
  }

  lemma CongruentSum(x: int, y: int, u: int, v: int)
    requires Congruent(x, y) && Congruent(u, v)
    ensures Congruent(x + u, y + v)
  {
    ModOf(x);
    ModOf(y);
    ModOf(u);
    ModOf(v);
    var k := x / BASE - y / BASE + u / BASE - v / BASE;
    assert x + u == (y + v) + BASE * k;
    ModShift(y + v, k);
  }

  lemma ModOf(x: int)
    ensures x == BASE * (x / BASE) + x % BASE && 0 <= x % BASE < BASE
  {
  }

  lemma ModShift(x: int, k: int)
    ensures (x + BASE * k) % BASE == x % BASE
  {
    ModOf(x);
    DivModUnique(x + BASE * k, BASE, x / BASE + k, x % BASE);
  }

  lemma CongruentMod(x: int)
    ensures Congruent(x % BASE, x)
  {
    ModOf(x);
    DivModUnique(x % BASE, BASE, 0, x % BASE);
  }

  /** Sums that agree modulo the base go on to agree. */
  lemma {:induction false} SumsSame(p: Pair, q: Pair, s: seq<Byte>)
    requires Same(p, q)
    ensures Same(Sums(p, s), Sums(q, s))
    decreases |s|
  {
    hide Congruent;
    if s != [] {
      SameStep(p, q, s[0]);
      SumsSame(Pair(p.a + s[0], p.b + p.a + s[0]), Pair(q.a + s[0], q.b + q.a + s[0]), s[1..]);
    }
  }

  lemma SameStep(p: Pair, q: Pair, x: Byte)
    requires Same(p, q)
    ensures Same(Pair(p.a + x, p.b + p.a + x), Pair(q.a + x, q.b + q.a + x))
  {
    hide Congruent;
    Itself(x);
    CongruentSum(p.a, q.a, x, x);
    CongruentSum(p.b, q.b, p.a + x, q.a + x);
  }

  lemma Itself(x: int)
    ensures Congruent(x, x)
  {
  }

  lemma {:induction false} ChecksumSame(p: Pair, q: Pair, s: seq<Byte>)
    requires Same(p, q) && p.Valid()
    ensures Same(Checksum(p, s), Sums(q, s)) && Checksum(p, s).Valid()
    decreases |s|
  {
    hide Congruent;
    if s != [] {
      var a := (p.a + s[0]) % BASE;
      var r := Pair(a, (p.b + a) % BASE);
      SameStep(p, q, s[0]);
      ReduceStep(p, s[0]);
      SameTrans(r, Pair(p.a + s[0], p.b + p.a + s[0]), Pair(q.a + s[0], q.b + q.a + s[0]));
      ChecksumSame(r, Pair(q.a + s[0], q.b + q.a + s[0]), s[1..]);
    }
  }

  lemma ReduceStep(p: Pair, x: Byte)
    ensures var a := (p.a + x) % BASE; Same(Pair(a, (p.b + a) % BASE), Pair(p.a + x, p.b + p.a + x))
  {
    hide Congruent;
    var a := (p.a + x) % BASE;
    CongruentMod(p.a + x);
    CongruentMod(p.b + a);
    Itself(p.b);
    CongruentSum(p.b, p.b, a, p.a + x);
    CongruentTrans((p.b + a) % BASE, p.b + a, p.b + (p.a + x));
  }

  lemma CongruentTrans(x: int, y: int, z: int)
    requires Congruent(x, y) && Congruent(y, z)
    ensures Congruent(x, z)
  {
  }

  lemma SameTrans(p: Pair, q: Pair, r: Pair)
    requires Same(p, q) && Same(q, r)
    ensures Same(p, r)
  {
  }

  /** Reducing once at the end gives the checksum. */
  lemma ReducedOnce(p: Pair, q: Pair, s: seq<Byte>)
    requires p.Valid() && Same(p, q)
    ensures Sums(q, s).Reduced() == Checksum(p, s)
  {
    hide Sums, Checksum;
    ChecksumSame(p, q, s);
    var c := Checksum(p, s);
    DivModUnique(c.a, BASE, 0, c.a);
    DivModUnique(c.b, BASE, 0, c.b);
  }

  // ------------------------------------------------------------ no overflow

  /** What `n` bytes may add to the second sum. */
  function Growth(a: nat, n: nat): nat {
    if n == 0 then 0 else Growth(a, n - 1) + a + 255 * n
  }

  lemma {:induction false} SumsBounded(p: Pair, s: seq<Byte>)
    ensures Sums(p, s).a <= p.a + 255 * |s| && Sums(p, s).b <= p.b + Growth(p.a, |s|)
    decreases |s|
  {
    if s != [] {
      SumsBounded(Pair(p.a + s[0], p.b + p.a + s[0]), s[1..]);
      GrowthMore(p.a, s[0], |s| - 1);
    }
  }

  lemma {:induction false} GrowthMore(a: nat, x: nat, n: nat)
    requires x <= 255
    ensures x + a + Growth(a + x, n) <= Growth(a, n + 1)
  {
    if n > 0 { GrowthMore(a, x, n - 1); }
  }

  lemma {:induction false} GrowthIs(a: nat, n: nat)
    ensures 2 * Growth(a, n) == 2 * n * a + 255 * (n * (n + 1))
  {
    if n > 0 {
      GrowthIs(a, n - 1);
      GrowthStep(a, n);
    }
  }

  lemma GrowthStep(a: nat, n: nat)
    requires n > 0
    ensures 2 * (n - 1) * a + 255 * ((n - 1) * n) + 2 * (a + 255 * n) == 2 * n * a + 255 * (n * (n + 1))
  {
    assert 2 * n * a == 2 * (n - 1) * a + 2 * a;
    assert n * (n + 1) == (n - 1) * n + 2 * n;
  }

  /** After as many as `NMAX` bytes the sums still fit 32 bits. */
  lemma NoOverflow(p: Pair, s: seq<Byte>)
    requires p.a < 65536 && p.b < 65536 && |s| <= NMAX
    ensures Sums(p, s).a < LIMIT && Sums(p, s).b < LIMIT
  {
    hide Sums, Growth;
    SumsBounded(p, s);
    GrowthUp(p.a, |s|);
    GrowthIs(65535, NMAX);
  }

  lemma {:induction false} GrowthMono(a: nat, m: nat, n: nat)
    requires m <= n
    ensures Growth(a, m) <= Growth(a, n)
    decreases n
  {
    if m < n { GrowthMono(a, m, n - 1); }
  }

  lemma {:induction false} GrowthBigger(a: nat, c: nat, n: nat)
    requires a <= c
    ensures Growth(a, n) <= Growth(c, n)
  {
    if n > 0 { GrowthBigger(a, c, n - 1); }
  }

  lemma GrowthUp(a: nat, n: nat)
    requires a <= 65535 && n <= NMAX
    ensures Growth(a, n) <= Growth(65535, NMAX)
  {
    hide Growth;
    GrowthMono(a, n, NMAX);
    GrowthBigger(a, 65535, NMAX);
  }

  /** One byte more and they would not fit. */
  lemma NmaxIsLargest()
    ensures (BASE - 1) + Growth(BASE - 1, NMAX) < LIMIT <= (BASE - 1) + Growth(BASE - 1, NMAX + 1)
  {
    hide Growth;
    GrowthIs(BASE - 1, NMAX);
    GrowthIs(BASE - 1, NMAX + 1);
  }

  // ------------------------------------------------------------ reducing without division

  /** `CHOP`: 65536 is 15 modulo the base. */
  function Chop(a: nat): nat {
    a % 65536 + (16 * (a / 65536) - a / 65536)
  }

  /** `MOD28`. */
  function Mod28(a: nat): nat {
    var c := Chop(a);
    if c >= BASE then c - BASE else c
  }

  /** `MOD`. */
  function Mod(a: nat): nat {
    Mod28(Chop(a))
  }

  /** `MOD63`: 2^32 is 225 modulo the base. */
  function Mod63(a: nat): nat {
    var high := a / LIMIT;
    var c := Chop(Chop(a % LIMIT + (256 * high - 32 * high + high)));
    if c >= BASE then c - BASE else c
  }

  lemma ChopSame(a: nat)
    ensures Congruent(Chop(a), a) && Chop(a) <= 65535 + 15 * (a / 65536)
  {
    var q := a / 65536;
    assert a == 65536 * q + a % 65536;
    assert a == Chop(a) + BASE * q;
    ModShift(Chop(a), q);
  }

  lemma SubtractOnce(c: nat, a: nat)
    requires Congruent(c, a) && c < 2 * BASE
    ensures (if c >= BASE then c - BASE else c) == a % BASE
  {
    if c >= BASE {
      DivModUnique(c, BASE, 1, c - BASE);
    } else {
      DivModUnique(c, BASE, 0, c);
    }
  }

  /** Exactly below 4368 * 65536, or up to a little more, one `CHOP` is enough; 28 bits are. */
  lemma Mod28Is(a: nat)
    requires a < 0x1000_0000
    ensures Mod28(a) == a % BASE
  {
    hide Chop, Congruent;
    ChopSame(a);
    assert a / 65536 < 4096;
    SubtractOnce(Chop(a), a);
  }

  lemma ModIs(a: nat)
    requires a < LIMIT
    ensures Mod(a) == a % BASE
  {
    hide Chop, Congruent;
    ChopSame(a);
    assert a / 65536 < 65536;
    Mod28Is(Chop(a));
    ChopMod(a);
  }

  lemma ChopMod(a: nat)
    ensures Chop(a) % BASE == a % BASE
  {
    hide Chop;
    ChopSame(a);
  }

  lemma Mod63Is(a: nat)
    requires a < 0x8000_0000_0000_0000
    ensures Mod63(a) == a % BASE
  {
    hide Chop, Congruent;
    var high := a / LIMIT;
    var c := a % LIMIT + (256 * high - 32 * high + high);
    assert a == LIMIT * high + a % LIMIT;
    assert high < 0x8000_0000;
    assert LIMIT - 225 == BASE * 65551;
    assert a == c + BASE * (65551 * high);
    assert Congruent(c, a) by { Shifted(c, 65551 * high, a); }
    ChopSame(c);
    assert c < 0x80_0000_0000;
    ChopSame(Chop(c));
    CongruentTrans(Chop(Chop(c)), Chop(c), c);
    CongruentTrans(Chop(Chop(c)), c, a);
    assert Chop(c) / 65536 <= 1921;
    SubtractOnce(Chop(Chop(c)), a);
  }

  lemma Shifted(c: nat, k: nat, a: nat)
    requires a == c + BASE * k
    ensures Congruent(c, a)
  {
    ModShift(c, k);
  }

  // ------------------------------------------------------------ adler32_z

  function Split(adler: nat): (p: Pair)
    requires adler < LIMIT
    ensures p.a < 65536 && p.b < 65536
  {
    Pair(adler % 65536, adler / 65536 % 65536)
  }

  function Join(p: Pair): (r: nat)
    requires p.a < 65536 && p.b < 65536
    ensures r < LIMIT && Split(r) == p
  {
    DivModUnique(p.a + 65536 * p.b, 65536, p.b, p.a);
    DivModUnique(p.b, 65536, 0, p.b);
    p.a + 65536 * p.b
  }

  lemma {:induction false} SumsConcat(p: Pair, s: seq<Byte>, t: seq<Byte>)
    ensures Sums(p, s + t) == Sums(Sums(p, s), t)
    decreases |s|
  {
    if s == [] {
      assert s + t == t;
    } else {
      assert (s + t)[1..] == s[1..] + t;
      SumsConcat(Pair(p.a + s[0], p.b + p.a + s[0]), s[1..], t);
    }
  }

  /** Add up the bytes from `i` to `j`; no partial sum overflows. */
  method AddBytes(p: Pair, buf: seq<Byte>, i: nat, j: nat) returns (q: Pair)
    requires p.a < 65536 && p.b < 65536 && i <= j <= |buf| && j - i <= NMAX
    ensures q == Sums(p, buf[i..j]) && q.a < LIMIT && q.b < LIMIT
  {
    hide Sums;
    var adler: nat, sum2: nat := p.a, p.b;
    assert Sums(p, buf[i..i]) == p by { NoBytes(p); assert buf[i..i] == []; }
    for k := i to j
      invariant Pair(adler, sum2) == Sums(p, buf[i..k]) && adler < LIMIT && sum2 < LIMIT
    {
      NoOverflow(p, buf[i..k + 1]);
      SumsConcat(p, buf[i..k], [buf[k]]);
      assert buf[i..k] + [buf[k]] == buf[i..k + 1];
      OneByte(Pair(adler, sum2), buf[k]);
      adler := adler + buf[k];
      sum2 := sum2 + adler;
    }
    q := Pair(adler, sum2);
  }

  lemma NoBytes(p: Pair)
    ensures Sums(p, []) == p
  {
  }

  lemma OneByte(p: Pair, x: Byte)
    ensures Sums(p, [x]) == Pair(p.a + x, p.b + p.a + x)
  {
    assert [x][1..] == [];
    NoBytes(Pair(p.a + x, p.b + p.a + x));
  }

  lemma SameReduced(p: Pair, q: Pair)
    requires Same(p, q)
    ensures p.Reduced() == q.Reduced() && Same(p.Reduced(), q) && p.Reduced().Valid()
  {
    CongruentMod(p.a);
    CongruentMod(p.b);
  }

  /** Blocks of `NMAX` bytes, each reduced once. */
  method Blocks(p: Pair, buf: seq<Byte>) returns (q: Pair)
    requires p.a < 65536 && p.b < 65536 && |buf| >= 16
    ensures q == Sums(p, buf).Reduced()
  {
    hide Sums, Congruent;
    q := p;
    var i := 0;
    assert buf[..0] == [];
    NoBytes(p);
    Itself(p.a);
    Itself(p.b);
    while |buf| - i >= NMAX
      invariant 0 <= i <= |buf| && q.a < 65536 && q.b < 65536 && Same(q, Sums(p, buf[..i])) && (i > 0 ==> q.Valid())
    {
      ghost var before := q;
      q := AddBytes(q, buf, i, i + NMAX);
      Continued(p, before, buf, i, i + NMAX);
      ModIs(q.a);
      ModIs(q.b);
      SameReduced(q, Sums(p, buf[..i + NMAX]));
      q := Pair(Mod(q.a), Mod(q.b));
      i := i + NMAX;
    }
    if i < |buf| {
      ghost var before := q;
      q := AddBytes(q, buf, i, |buf|);
      Continued(p, before, buf, i, |buf|);
      ModIs(q.a);
      ModIs(q.b);
      SameReduced(q, Sums(p, buf[..|buf|]));
      q := Pair(Mod(q.a), Mod(q.b));
    } else {
      AlreadyReduced(q);
      SameReduced(q, Sums(p, buf[..i]));
    }
    assert buf[..|buf|] == buf;
  }

  lemma AlreadyReduced(q: Pair)
    requires q.Valid()
    ensures q.Reduced() == q
  {
    DivModUnique(q.a, BASE, 0, q.a);
    DivModUnique(q.b, BASE, 0, q.b);
  }

  lemma Continued(p: Pair, q: Pair, buf: seq<Byte>, i: nat, j: nat)
    requires i <= j <= |buf| && Same(q, Sums(p, buf[..i]))
    ensures Same(Sums(q, buf[i..j]), Sums(p, buf[..j]))
  {
    hide Sums, Congruent;
    SumsSame(q, Sums(p, buf[..i]), buf[i..j]);
    SumsConcat(p, buf[..i], buf[i..j]);
    assert buf[..i] + buf[i..j] == buf[..j];
  }

  /** A single byte is added without division. */
  function AddOne(p: Pair, x: Byte): Pair {
    var a := if p.a + x >= BASE then p.a + x - BASE else p.a + x;
    var b := if p.b + a >= BASE then p.b + a - BASE else p.b + a;
    Pair(a, b)
  }

  /** When adding a single byte gives reduced sums. */
  predicate Settles(p: Pair, x: Byte) {
    p.b + (p.a + x) % BASE < 2 * BASE
  }

  lemma AddOneIs(p: Pair, x: Byte)
    requires p.a < 65536 && p.b < 65536
    ensures AddOne(p, x).a < 65536 && AddOne(p, x).b < 65536 && Same(AddOne(p, x), Sums(p, [x]))
    ensures AddOne(p, x) == Sums(p, [x]).Reduced() <==> Settles(p, x)
  {
    OneByte(p, x);
    Itself(p.a + x);
    SubtractOnce(p.a + x, p.a + x);
    var a := (p.a + x) % BASE;
    var c := p.b + a;
    CongruentMod(p.a + x);
    Itself(p.b);
    CongruentSum(p.b, p.b, a, p.a + x);
    if c < 2 * BASE {
      SubtractOnce(c, p.b + p.a + x);
    } else {
      ModShift(c - BASE, 1);
      ModOf(p.b + p.a + x);
    }
  }

  /** A zero byte added to the second sum 65535, which no valid checksum has, leaves a sum beyond the base. */
  lemma NotSettled()
    ensures !Settles(Pair(65520, 65535), 0) && AddOne(Pair(65520, 65535), 0) == Pair(65520, 65534)
    ensures AddOne(Pair(65520, 65535), 0) != Sums(Pair(65520, 65535), [0]).Reduced() && !AddOne(Pair(65520, 65535), 0).Valid()
  {
    AddOneIs(Pair(65520, 65535), 0);
  }

  /**
   `adler32_z`.  For any 32-bit value to start from the sums are right modulo the base; they
   are reduced but for one case, a single byte added to a second sum beyond the base.
   */
  method AdlerZ(adler: nat, buf: seq<Byte>) returns (r: nat)
    requires adler < LIMIT
    ensures r < LIMIT && Same(Split(r), Sums(Split(adler), buf))
    ensures Split(r) == Sums(Split(adler), buf).Reduced() <==> (|buf| == 1 ==> Settles(Split(adler), buf[0]))
    ensures Split(adler).Valid() ==> Split(r) == Checksum(Split(adler), buf)
  {
    hide Sums, Congruent, Checksum;
    var p := Split(adler);
    if p.Valid() {
      Itself(p.a);
      Itself(p.b);
      ReducedOnce(p, p, buf);
    }
    if |buf| == 1 {
      AddOneIs(p, buf[0]);
      if p.Valid() { ModOf(p.a + buf[0]); }
      assert buf == [buf[0]];
      return Join(AddOne(p, buf[0]));
    }
    var q := Reduce(p, buf);
    SameReduced(Sums(p, buf), Sums(p, buf)) by { Itself(Sums(p, buf).a); Itself(Sums(p, buf).b); }
    r := Join(q);
  }

  /** `adler32_z` on such an input. */
  method UnreducedByte() returns (r: nat)
    ensures r < LIMIT && Split(r) != Sums(Pair(65520, 65535), [0]).Reduced()
  {
    NotSettled();
    r := AdlerZ(Join(Pair(65520, 65535)), [0]);
  }

  method Reduce(p: Pair, buf: seq<Byte>) returns (q: Pair)
    requires p.a < 65536 && p.b < 65536 && |buf| != 1
    ensures q == Sums(p, buf).Reduced()
  {
    hide Sums, Growth;
    if |buf| < 16 {
      SumsBounded(p, buf);
      ShortGrowth(p.a, |buf|);
      q := AddBytes(p, buf, 0, |buf|);
      assert buf[0..|buf|] == buf;
      Itself(q.a);
      SubtractOnce(q.a, q.a);
      Mod28Is(q.b);
      q := Pair(if q.a >= BASE then q.a - BASE else q.a, Mod28(q.b));
    } else {
      q := Blocks(p, buf);
    }
  }

  lemma ShortGrowth(a: nat, n: nat)
    requires a <= 65535 && n <= 15
    ensures Growth(a, n) + 65536 < 0x1000_0000 && a + 255 * n < 2 * BASE
  {
    hide Growth;
    GrowthMono(a, n, 15);
    GrowthBigger(a, 65535, 15);
    GrowthIs(65535, 15);
  }

  // ------------------------------------------------------------ combining

  /** The sums of `s` from `p` on, in terms of those from (1, 0) on. */
  lemma {:induction false} SumsFrom(p: Pair, s: seq<Byte>)
    ensures Sums(p, s).a + 1 == p.a + Sums(Pair(1, 0), s).a
    ensures Sums(p, s).b + |s| == p.b + |s| * p.a + Sums(Pair(1, 0), s).b
    decreases |s|
  {
    if s == [] {
      assert 0 * p.a == 0;
    } else {
      var x: nat, n := s[0], |s| - 1;
      SumsFrom(Pair(p.a + x, p.b + p.a + x), s[1..]);
      SumsFrom(Pair(1 + x, 1 + x), s[1..]);
      FromStep(p.a, x, n);
    }
  }

  lemma FromStep(a: nat, x: nat, n: nat)
    ensures (n + 1) * a == n * (a + x) - n * (1 + x) + a + n
  {
    assert n * (a + x) == n * a + n * x;
    assert n * (1 + x) == n + n * x;
    assert (n + 1) * a == n * a + a;
  }

  /** `adler32_combine_`; for a negative length a value that is no checksum. */
  method Combine(adler1: nat, adler2: nat, len2: int, ghost a: seq<Byte>, ghost b: seq<Byte>) returns (r: nat)
    requires adler1 < LIMIT && adler2 < LIMIT && -0x8000_0000_0000_0000 <= len2 < 0x8000_0000_0000_0000
    ensures len2 < 0 ==> r == 0xffff_ffff && !Split(r).Valid()
    ensures Split(adler1) == Checksum(Pair(1, 0), a) && Split(adler2) == Checksum(Pair(1, 0), b) && len2 == |b| ==>
              r < LIMIT && Split(r) == Checksum(Pair(1, 0), a + b)
  {
    hide Checksum;
    if len2 < 0 { return 0xffff_ffff; }
    r := CombineSums(adler1, adler2, len2, a, b);
  }

  /** The part of `adler32_combine_` behind its check. */
  method CombineSums(adler1: nat, adler2: nat, len2: nat, ghost a: seq<Byte>, ghost b: seq<Byte>) returns (r: nat)
    requires adler1 < LIMIT && adler2 < LIMIT && len2 < 0x8000_0000_0000_0000
    ensures Split(adler1) == Checksum(Pair(1, 0), a) && Split(adler2) == Checksum(Pair(1, 0), b) && len2 == |b| ==>
              r < LIMIT && Split(r) == Checksum(Pair(1, 0), a + b)
  {
    hide Checksum, Sums, Congruent;
    var rem := Mod63(len2);
    Mod63Is(len2);
    var p, q := Split(adler1), Split(adler2);
    var sum1 := p.a;
    ProductFits(rem, sum1);
    var sum2 := Mod(rem * sum1);
    ModIs(rem * sum1);
    sum1 := sum1 + q.a + BASE - 1;
    sum2 := sum2 + p.b + q.b + BASE - rem;
    if sum1 >= BASE { sum1 := sum1 - BASE; }
    if sum1 >= BASE { sum1 := sum1 - BASE; }
    if sum2 >= 2 * BASE { sum2 := sum2 - 2 * BASE; }
    if sum2 >= BASE { sum2 := sum2 - BASE; }
    r := sum1 + 65536 * sum2;
    if p == Checksum(Pair(1, 0), a) && q == Checksum(Pair(1, 0), b) && len2 == |b| {
      Combined(p, q, a, b, rem, rem * p.a % BASE, sum1, sum2);
      assert r == Join(Pair(sum1, sum2));
    }
  }

  lemma ProductFits(rem: nat, x: nat)
    requires rem < BASE && x < 65536
    ensures rem * x < LIMIT
  {
    Distribute(65520 - rem, rem, x);
    ProductNonNegative(65520 - rem, x);
  }

  lemma Combined(p: Pair, q: Pair, a: seq<Byte>, b: seq<Byte>, rem: nat, m: nat, sum1: nat, sum2: nat)
    requires p == Checksum(Pair(1, 0), a) && q == Checksum(Pair(1, 0), b) && rem == |b| % BASE && m == rem * p.a % BASE
    requires var s := p.a + q.a + BASE - 1; sum1 == if s >= 2 * BASE then s - 2 * BASE else if s >= BASE then s - BASE else s
    requires var s := m + p.b + q.b + BASE - rem;
             sum2 == if s >= 3 * BASE then s - 3 * BASE else if s >= 2 * BASE then s - 2 * BASE else if s >= BASE then s - BASE else s
    ensures p.Valid() && q.Valid() && sum1 < BASE && sum2 < BASE && Pair(sum1, sum2) == Checksum(Pair(1, 0), a + b)
  {
    hide Checksum, Sums, Congruent;
    var one := Pair(1, 0);
    Itself(1);
    Itself(0);
    ChecksumSame(one, one, a);
    ChecksumSame(one, one, b);
    ReducedOnce(one, one, a + b);
    var x, y, z := Sums(one, a), Sums(one, b), Sums(one, a + b);
    SumsConcat(one, a, b);
    SumsFrom(x, b);
    FirstSums(p.a, q.a, x.a, y.a);
    ThreeTimes(p.a + q.a + BASE - 1, z.a);
    SecondSums(p, q, x, y, rem, |b|, m);
    ThreeTimes(m + p.b + q.b + BASE - rem, z.b);
  }

  lemma ProductNonNegative(x: nat, y: nat)
    ensures x * y >= 0
  {
  }

  lemma FirstSums(a: nat, c: nat, x: nat, y: nat)
    requires Congruent(a, x) && Congruent(c, y)
    ensures Congruent(a + c + BASE - 1, x + y - 1)
  {
    hide Congruent;
    CongruentSum(a, x, c, y);
    assert Congruent(BASE - 1, -1) by { MinusOne(); }
    CongruentSum(a + c, x + y, BASE - 1, -1);
  }

  lemma MinusOne()
    ensures Congruent(BASE - 1, -1)
  {
  }

  lemma SecondSums(p: Pair, q: Pair, x: Pair, y: Pair, rem: nat, n: nat, m: nat)
    requires Same(p, x) && Same(q, y) && rem == n % BASE && m == rem * p.a % BASE
    ensures Congruent(m + p.b + q.b + BASE - rem, x.b + n * x.a + y.b - n)
  {
    hide Congruent;
    CongruentMod(n);
    CongruentProduct(rem, n, p.a, x.a);
    CongruentMod(rem * p.a);
    CongruentTrans(m, rem * p.a, n * x.a);
    CongruentSum(m, n * x.a, p.b, x.b);
    CongruentSum(m + p.b, n * x.a + x.b, q.b, y.b);
    assert Congruent(BASE - rem, 0 - n) by { Negated(rem, n); }
    CongruentSum(m + p.b + q.b, n * x.a + x.b + y.b, BASE - rem, 0 - n);
  }

  lemma Negated(rem: nat, n: nat)
    requires rem == n % BASE
    ensures Congruent(BASE - rem, 0 - n)
  {
    ModOf(n);
    assert BASE - rem == 0 - n + BASE * (1 + n / BASE);
    ModShift(0 - n, 1 + n / BASE);
  }

  lemma CongruentProduct(x: nat, y: nat, u: nat, v: nat)
    requires Congruent(x, y) && Congruent(u, v)
    ensures Congruent(x * u, y * v)
  {
    CongruentTimes(x, y, u);
    CongruentTimes(u, v, y);
    assert u * y == y * u && v * y == y * v;
  }

  lemma CongruentTimes(x: nat, y: nat, u: nat)
    requires Congruent(x, y)
    ensures Congruent(x * u, y * u)
  {
    ModOf(x);
    ModOf(y);
    var k := x / BASE - y / BASE;
    assert x == y + BASE * k;
    Distribute(y, BASE * k, u);
    Regrouped(BASE, k, u);
    ModShift(y * u, k * u);
  }

  lemma Regrouped(x: int, k: int, u: int)
    ensures (x * k) * u == x * (k * u)
  {
  }

  lemma ThreeTimes(s: nat, z: int)
    requires s < 4 * BASE && Congruent(s, z)
    ensures (if s >= 3 * BASE then s - 3 * BASE else if s >= 2 * BASE then s - 2 * BASE else if s >= BASE then s - BASE else s) == z % BASE
  {
    if s >= 3 * BASE {
      DivModUnique(s, BASE, 3, s - 3 * BASE);
    } else if s >= 2 * BASE {
      DivModUnique(s, BASE, 2, s - 2 * BASE);
    } else if s >= BASE {
      DivModUnique(s, BASE, 1, s - BASE);
    } else {
      DivModUnique(s, BASE, 0, s);
    }
  }

  // ------------------------------------------------------------ a known value

  /** The checksum of "abc" from one on is 0x24d0127. */
  lemma KnownChecksum()
    ensures 0x24d0127 < LIMIT && Split(1) == Pair(1, 0) && Split(0x24d0127) == Checksum(Pair(1, 0), [97, 98, 99])
  {
    hide Checksum;
    var s: seq<Byte> := [97, 98, 99];
    OneMore(Pair(1, 0), s, 0);
    OneMore(Pair(98, 98), s, 1);
    OneMore(Pair(196, 294), s, 2);
    assert s[0..] == s && s[3..] == [];
    NoneMore(Pair(295, 589));
  }

  lemma OneMore(p: Pair, s: seq<Byte>, i: nat)
    requires i < |s|
    ensures Checksum(p, s[i..]) == var a := (p.a + s[i]) % BASE; Checksum(Pair(a, (p.b + a) % BASE), s[i + 1..])
  {
    assert s[i..][0] == s[i] && s[i..][1..] == s[i + 1..];
  }

  lemma NoneMore(p: Pair)
    ensures Checksum(p, []) == p
  {
  }
}
