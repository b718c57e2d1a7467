/**
 The CRC of eight-byte words (crc32.c, `crc_word`), and of several interleaved braids of words.
 */
module CrcWords {
  import opened Gf2
  import opened Crc32

  /** `z_word_t`, taken as little endian: the least significant byte comes first. */
  type Long = bv64

  function Low(d: Long): bv8 {
    (d & 0xff) as bv8
  }

  function Rest(d: Long): Long {
    d >> 8
  }

  function Widen(a: Word): Long {
    a as bv64
  }

  function Sum(d: Long, e: Long): Long {
    d ^ e
  }

  /** The first `n` bytes of a word. */
  function WordBytes(d: Long, n: nat): (s: seq<bv8>)
    ensures |s| == n
    decreases n
  {
    if n == 0 then [] else [Low(d)] + WordBytes(Rest(d), n - 1)
  }

  function Dropped(d: Long, n: nat): Long
    decreases n
  {
    if n == 0 then d else Dropped(Rest(d), n - 1)
  }

  lemma AllDropped(d: Long)
    ensures Dropped(d, 8) == 0
  {
    var d1 := Rest(d);
    var d2 := Rest(d1);
    var d3 := Rest(d2);
    var d4 := Rest(d3);
    var d5 := Rest(d4);
    var d6 := Rest(d5);
    var d7 := Rest(d6);
    assert Dropped(d, 8) == Dropped(d1, 7) == Dropped(d2, 6) == Dropped(d3, 5) == Dropped(d4, 4);
    assert Dropped(d4, 4) == Dropped(d5, 3) == Dropped(d6, 2) == Dropped(d7, 1) == Dropped(Rest(d7), 0);
    assert Rest(d7) == 0;
  }

  // ------------------------------------------------------------ loading words

  /** The word at the start of `s`. */
  function Load(s: seq<bv8>): Long {
    if s == [] then 0 else Push(Load(s[1..]), s[0])
  }

  function Push(d: Long, b: bv8): Long {
    (d << 8) ^ (b as bv64)
  }

  lemma PushByte(d: Long, b: bv8)
    requires Dropped(d, 7) == 0
    ensures Low(Push(d, b)) == b && Rest(Push(d, b)) == d
  {
    SevenDropped(d);
    PushShort(d, b);
  }

  lemma PushShort(d: Long, b: bv8)
    requires d >> 56 == 0
    ensures (((d << 8) ^ (b as bv64)) & 0xff) as bv8 == b && ((d << 8) ^ (b as bv64)) >> 8 == d
  {
  }

  lemma SevenDropped(d: Long)
    ensures Dropped(d, 7) == d >> 56
  {
    var d1 := Rest(d);
    var d2 := Rest(d1);
    var d3 := Rest(d2);
    var d4 := Rest(d3);
    var d5 := Rest(d4);
    var d6 := Rest(d5);
    assert Dropped(d, 7) == Dropped(d1, 6) == Dropped(d2, 5) == Dropped(d3, 4) == Dropped(d4, 3);
    assert Dropped(d4, 3) == Dropped(d5, 2) == Dropped(d6, 1) == Dropped(Rest(d6), 0);
  }

  lemma {:induction false} DroppedMore(d: Long, m: nat, n: nat)
    requires Dropped(d, m) == 0 && m <= n
    ensures Dropped(d, n) == 0
    decreases n
  {
    hide Rest;
    if m == 0 {
      if n > 0 {
        assert Rest(0) == 0 by { ZeroRest(); }
        DroppedMore(0, 0, n - 1);
      }
    } else {
      DroppedMore(Rest(d), m - 1, n - 1);
    }
  }

  lemma ZeroRest()
    ensures Rest(0) == 0
  {
  }

  lemma {:induction false} LoadBytes(s: seq<bv8>)
    requires |s| <= 8
    ensures WordBytes(Load(s), |s|) == s && Dropped(Load(s), |s|) == 0
    decreases |s|
  {
    hide Low, Rest, Push;
    if s != [] {
      LoadBytes(s[1..]);
      var d := Load(s[1..]);
      DroppedMore(d, |s[1..]|, 7);
      PushByte(d, s[0]);
      assert s == [s[0]] + s[1..];
    }
  }

  // ------------------------------------------------------------ the CRC of a word

  lemma LowSum(d: Long, r: Word)
    ensures Low(Sum(d, Widen(r))) == LowByte(Add(r, Wide(Low(d)))) && Rest(Sum(d, Widen(r))) == Sum(Rest(d), Widen(HighBytes(r)))
  {
  }

  lemma SumAssociates(d: Long, e: Long, f: Long)
    ensures (d ^ e) ^ f == d ^ (e ^ f)
  {
  }

  lemma SumSum(d: Long, e: Long, f: Long)
    ensures Sum(Sum(d, e), f) == Sum(d, Sum(e, f))
  {
    assert Sum(Sum(d, e), f) == (d ^ e) ^ f;
    assert Sum(d, Sum(e, f)) == d ^ (e ^ f);
    SumAssociates(d, e, f);
  }

  lemma WidenAdd(a: Word, b: Word)
    ensures Sum(Widen(a), Widen(b)) == Widen(Add(a, b))
  {
  }

  lemma SumWiden(d: Long, a: Word, b: Word)
    ensures Sum(Sum(d, Widen(a)), Widen(b)) == Sum(d, Widen(Add(a, b)))
  {
    hide Widen, Add, Sum;
    WidenAdd(a, b);
    SumSum(d, Widen(a), Widen(b));
  }

  lemma SumNothing(d: Long)
    ensures Sum(d, Widen(0)) == d
  {
  }

  /** `crc_word`. */
  method CrcWord(t: array<Word>, data: Long) returns (crc: Word)
    requires TableOk(t[..])
    ensures crc == Register(0, WordBytes(data, 8))
  {
    hide Low, Rest, Sum, Widen, Add, Wide, LowByte, HighBytes, MulXN;
    var d := data;
    ghost var v, r := data, 0;
    SumNothing(data);
    for k := 0 to 8
      invariant d == Sum(v, Widen(r)) && Dropped(data, 8) == Dropped(v, 8 - k)
      invariant Register(0, WordBytes(data, 8)) == Register(r, WordBytes(v, 8 - k))
    {
      LowSum(v, r);
      var here := t[Low(d) as nat];
      SumWiden(Rest(v), HighBytes(r), here);
      d := Sum(Rest(d), Widen(here));
      TableStepIs(t[..], r, Low(v));
      assert WordBytes(v, 8 - k)[1..] == WordBytes(Rest(v), 7 - k);
      r := Add(HighBytes(r), here);
      v := Rest(v);
    }
    AllDropped(data);
    crc := Narrow(d);
    NarrowWiden(r);
  }

  function Narrow(d: Long): Word {
    (d & 0xffffffff) as bv32
  }

  lemma NarrowWiden(r: Word)
    ensures Narrow(Sum(0, Widen(r))) == r
  {
  }

  // ------------------------------------------------------------ a register added to a word

  lemma HeadSum(d: Long, c: Word)
    ensures Low(Sum(d, Widen(c))) as bv32 == Wide(Low(d)) ^ Wide(LowByte(c)) && Rest(Sum(d, Widen(c))) == Sum(Rest(d), Widen(HighBytes(c)))
  {
  }

  lemma HeadAdd(d: Long, c: Word)
    ensures Wide(Low(Sum(d, Widen(c)))) == Add(Wide(Low(d)), Wide(LowByte(c))) && Rest(Sum(d, Widen(c))) == Sum(Rest(d), Widen(HighBytes(c)))
  {
    HeadSum(d, c);
  }

  function Gone(c: Word, n: nat): bool
    decreases n
  {
    if n == 0 then c == 0 else Gone(HighBytes(c), n - 1)
  }

  lemma FourGone(c: Word)
    ensures Gone(c, 8)
  {
    var c1 := HighBytes(c);
    var c2 := HighBytes(c1);
    var c3 := HighBytes(c2);
    var c4 := HighBytes(c3);
    assert Gone(c, 8) == Gone(c1, 7) == Gone(c2, 6) == Gone(c3, 5) == Gone(c4, 4);
    assert c4 == 0;
    assert Gone(c4, 4) == Gone(0, 3) == Gone(0, 2) == Gone(0, 1) == Gone(0, 0);
  }

  /** Adding to the first bytes is starting from another register. */
  lemma {:induction false} AddedAhead(r: Word, d: Long, c: Word, n: nat)
    requires Gone(c, n)
    ensures Register(r, WordBytes(Sum(d, Widen(c)), n)) == Register(Add(r, c), WordBytes(d, n))
    decreases n
  {
    hide Low, Rest, Sum, Widen, Add, Wide, LowByte, HighBytes, MulXN;
    if n == 0 {
      AddLaws(r, 0, 0, 0);
    } else {
      var b, l := Wide(Low(d)), Wide(LowByte(c));
      HeadAdd(d, c);
      assert WordBytes(d, n)[1..] == WordBytes(Rest(d), n - 1);
      assert WordBytes(Sum(d, Widen(c)), n)[1..] == WordBytes(Sum(Rest(d), Widen(HighBytes(c))), n - 1);
      AddedAhead(MulXN(Add(r, Add(b, l)), 8), Rest(d), HighBytes(c), n - 1);
      CarryByte(r, b, c);
    }
  }

  lemma CarryByte(r: Word, b: Word, c: Word)
    ensures Add(MulXN(Add(r, Add(b, Wide(LowByte(c)))), 8), HighBytes(c)) == MulXN(Add(Add(r, c), b), 8)
  {
    hide Add, Wide, LowByte, HighBytes, MulXN;
    var l := Wide(LowByte(c));
    ByteStep(c);
    MulXNSum(Add(r, b), l, 8);
    MulXNSum(Add(r, b), c, 8);
    AddLaws(r, b, l, 0);
    AddLaws(r, c, b, 0);
    AddLaws(r, b, c, 0);
    AddLaws(c, b, 0, 0);
    var p, h, q := MulXN(Add(r, b), 8), HighBytes(c), MulXN(l, 8);
    AddLaws(p, q, h, 0);
    AddLaws(q, h, 0, 0);
  }

  lemma WordFrom(d: Long, c: Word)
    ensures Register(0, WordBytes(Sum(d, Widen(c)), 8)) == Register(c, WordBytes(d, 8))
  {
    hide Register, WordBytes, Sum, Widen, Add;
    FourGone(c);
    AddedAhead(0, d, c, 8);
    AddLaws(c, 0, 0, 0);
  }
}
