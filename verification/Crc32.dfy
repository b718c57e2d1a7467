/**
 The CRC of crc32.c as a shift register, a byte at a time with a table, and its linearity.
 */
module Crc32 {
  import opened Gf2

  function Wide(b: bv8): Word {
    b as bv32
  }

  function LowByte(a: Word): bv8 {
    (a & 0xff) as bv8
  }

  function HighBytes(a: Word): Word {
    a >> 8
  }

  // ------------------------------------------------------------ bit by bit

  /** One bit into the shift register. */
  function ShiftIn(r: Word, bit: bool): Word {
    MulX(if bit then Add(r, 1) else r)
  }

  function BitCrc(r: Word, bits: seq<bool>): Word
    decreases |bits|
  {
    if bits == [] then r else BitCrc(ShiftIn(r, bits[0]), bits[1..])
  }

  /** The last `n` bits of `a`, the least significant first. */
  function BitsOf(a: Word, n: nat): seq<bool>
    decreases n
  {
    if n == 0 then [] else [Odd(a)] + BitsOf(Half(a), n - 1)
  }

  function BytesBits(s: seq<bv8>): seq<bool> {
    if s == [] then [] else BitsOf(Wide(s[0]), 8) + BytesBits(s[1..])
  }

  /** The register after the bytes `s`, without conditioning. */
  function Register(r: Word, s: seq<bv8>): Word
    decreases |s|
  {
    if s == [] then r else Register(MulXN(Add(r, Wide(s[0])), 8), s[1..])
  }

  function Below(a: Word, n: nat): bool
    decreases n
  {
    if n == 0 then a == 0 else Below(Half(a), n - 1)
  }

  lemma OddEven(a: Word)
    ensures MulX(Twice(Half(a))) == Half(a)
  {
    EvenHalf(a);
  }

  lemma EvenHalf(a: Word)
    ensures !Odd(Twice(Half(a))) && Half(Twice(Half(a))) == Half(a)
  {
  }

  /** Feeding the bits one by one is adding all of them and then shifting. */
  lemma {:induction false} BitsTogether(r: Word, a: Word, n: nat)
    requires Below(a, n)
    ensures BitCrc(r, BitsOf(a, n)) == MulXN(Add(r, a), n)
    decreases n
  {
    hide Add, Half, Odd, Twice, MulX;
    if n == 0 {
      AddLaws(r, 0, 0, 0);
    } else {
      var r1 := ShiftIn(r, Odd(a));
      assert BitsOf(a, n)[1..] == BitsOf(Half(a), n - 1);
      BitsTogether(r1, Half(a), n - 1);
      FirstBitIn(r, a);
      MulXNext(Add(r, a), n - 1);
    }
  }

  lemma FirstBitIn(r: Word, a: Word)
    ensures Add(ShiftIn(r, Odd(a)), Half(a)) == MulX(Add(r, a))
  {
    hide Add, Half, Odd, Twice, MulX;
    HalfAndBit(a);
    OddEven(a);
    var e := Twice(Half(a));
    if Odd(a) {
      MulXSum(Add(r, 1), e);
      AddLaws(e, 1, 0, 0);
      AddLaws(r, 1, e, 0);
    } else {
      MulXSum(r, e);
    }
  }

  lemma ByteBelow(b: bv8)
    ensures Below(Wide(b), 8)
  {
    var a := Wide(b);
    var a1 := Half(a);
    var a2 := Half(a1);
    var a3 := Half(a2);
    var a4 := Half(a3);
    var a5 := Half(a4);
    var a6 := Half(a5);
    var a7 := Half(a6);
    assert Below(a, 8) == Below(a1, 7) == Below(a2, 6) == Below(a3, 5) == Below(a4, 4);
    assert Below(a4, 4) == Below(a5, 3) == Below(a6, 2) == Below(a7, 1) == Below(Half(a7), 0);
    assert Half(a7) == 0;
  }

  lemma {:induction false} BitCrcConcat(r: Word, a: seq<bool>, b: seq<bool>)
    ensures BitCrc(r, a + b) == BitCrc(BitCrc(r, a), b)
    decreases |a|
  {
    hide ShiftIn;
    if a == [] {
      assert a + b == b;
    } else {
      assert (a + b)[1..] == a[1..] + b;
      BitCrcConcat(ShiftIn(r, a[0]), a[1..], b);
    }
  }

  /** The register, a byte at a time, is the shift register fed with all the bits. */
  lemma {:induction false} RegisterIsBitwise(r: Word, s: seq<bv8>)
    ensures Register(r, s) == BitCrc(r, BytesBits(s))
    decreases |s|
  {
    hide Add, Wide, BitsOf, MulXN, Below;
    if s != [] {
      ByteBelow(s[0]);
      BitsTogether(r, Wide(s[0]), 8);
      BitCrcConcat(r, BitsOf(Wide(s[0]), 8), BytesBits(s[1..]));
      RegisterIsBitwise(MulXN(Add(r, Wide(s[0])), 8), s[1..]);
    }
  }

  // ------------------------------------------------------------ a table for bytes

  /** `crc_table`. */
  ghost predicate TableOk(t: seq<Word>) {
    |t| == 256 && forall b: bv8 :: t[b as nat] == MulXN(Wide(b), 8)
  }

  lemma Eight(a: Word)
    ensures MulXN(a, 8) == MulX(MulX(MulX(MulX(MulX(MulX(MulX(MulX(a))))))))
  {
    hide MulX;
    assert MulXN(a, 0) == a && MulXN(a, 1) == MulX(a);
    assert MulXN(a, 2) == MulX(MulX(a)) && MulXN(a, 3) == MulX(MulX(MulX(a)));
    assert MulXN(a, 4) == MulX(MulX(MulX(MulX(a)))) && MulXN(a, 5) == MulX(MulX(MulX(MulX(MulX(a)))));
    assert MulXN(a, 6) == MulX(MulX(MulX(MulX(MulX(MulX(a))))));
    assert MulXN(a, 7) == MulX(MulX(MulX(MulX(MulX(MulX(MulX(a)))))));
  }

  /** With a zero byte shifted out there is nothing to reduce. */
  lemma HighShift(a: Word)
    requires LowByte(a) == 0
    ensures MulXN(a, 8) == HighBytes(a)
  {
    Eight(a);
    EightShifts(a);
  }

  lemma EightShifts(a: Word)
    requires a & 0xff == 0
    ensures MulX(MulX(MulX(MulX(MulX(MulX(MulX(MulX(a)))))))) == a >> 8
  {
  }

  lemma SplitByte(a: Word)
    ensures a == Add(a & 0xffffff00, Wide(LowByte(a))) && LowByte(a & 0xffffff00) == 0 && HighBytes(a & 0xffffff00) == HighBytes(a)
  {
  }

  lemma ByteStep(a: Word)
    ensures MulXN(a, 8) == Add(HighBytes(a), MulXN(Wide(LowByte(a)), 8))
  {
    hide Add, Wide, LowByte, HighBytes, MulXN;
    SplitByte(a);
    MulXNSum(a & 0xffffff00, Wide(LowByte(a)), 8);
    HighShift(a & 0xffffff00);
  }

  /** One byte by table lookup. */
  function TableStep(t: seq<Word>, r: Word, b: bv8): Word
    requires |t| == 256
  {
    Add(HighBytes(r), t[LowByte(Add(r, Wide(b))) as nat])
  }

  lemma TableStepIs(t: seq<Word>, r: Word, b: bv8)
    requires TableOk(t)
    ensures TableStep(t, r, b) == MulXN(Add(r, Wide(b)), 8)
  {
    hide Add, Wide, LowByte, HighBytes, MulXN;
    ByteStep(Add(r, Wide(b)));
    assert HighBytes(Add(r, Wide(b))) == HighBytes(r) by { HighUnchanged(r, b); }
  }

  lemma HighUnchanged(r: Word, b: bv8)
    ensures HighBytes(Add(r, Wide(b))) == HighBytes(r)
  {
  }

  // ------------------------------------------------------------ linearity

  lemma {:induction false} RegisterSplit(r: Word, s: seq<bv8>)
    ensures Register(r, s) == Add(MulXN(r, 8 * |s|), Register(0, s))
    decreases |s|
  {
    hide Add, Wide, MulXN;
    if s == [] {
      assert MulXN(r, 0) == r by { NoPower(r); }
      AddLaws(r, 0, 0, 0);
    } else {
      var w, k := Wide(s[0]), 8 * |s[1..]|;
      RegisterSplit(MulXN(Add(r, w), 8), s[1..]);
      RegisterSplit(MulXN(Add(0, w), 8), s[1..]);
      AddLaws(w, 0, 0, 0);
      MulXNSum(r, w, 8);
      MulXNSum(MulXN(r, 8), MulXN(w, 8), k);
      MulXNMore(r, 8, k);
      AddLaws(MulXN(r, 8 * |s|), MulXN(MulXN(w, 8), k), Register(0, s[1..]), 0);
    }
  }

  lemma NoPower(r: Word)
    ensures MulXN(r, 0) == r
  {
  }

  lemma {:induction false} RegisterConcat(r: Word, a: seq<bv8>, b: seq<bv8>)
    ensures Register(r, a + b) == Register(Register(r, a), b)
    decreases |a|
  {
    hide Add, Wide, MulXN;
    if a == [] {
      assert a + b == b;
    } else {
      assert (a + b)[1..] == a[1..] + b;
      RegisterConcat(MulXN(Add(r, Wide(a[0])), 8), a[1..], b);
    }
  }
}
