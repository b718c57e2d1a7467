/**
 `crc32_z` (crc32.c): the CRC on several interleaved braids of eight-byte words, and the
 combination of CRCs.
 */
module CrcBraid {
  import opened Bits
  import opened Gf2
  import opened Crc32
  import opened CrcWords
  import opened CrcTables

  // ------------------------------------------------------------ sums over braids

  /** The braids `cs`, one word apart from each other, brought to the end of the last one. */
  function Braids(cs: seq<Word>): Word {
    if cs == [] then 0 else Add(MulXN(cs[0], 64 * (|cs| - 1)), Braids(cs[1..]))
  }

  function Sums(xs: seq<Word>, bs: seq<Word>): (r: seq<Word>)
    requires |xs| == |bs|
    ensures |r| == |xs|
  {
    seq(|xs|, i requires 0 <= i < |xs| => Add(xs[i], bs[i]))
  }

  function Powers(xs: seq<Word>, k: nat): (r: seq<Word>)
    ensures |r| == |xs|
  {
    seq(|xs|, i requires 0 <= i < |xs| => MulXN(xs[i], k))
  }

  lemma {:induction false} BraidsSum(xs: seq<Word>, bs: seq<Word>)
    requires |xs| == |bs|
    ensures Braids(Sums(xs, bs)) == Add(Braids(xs), Braids(bs))
    decreases |xs|
  {
    hide Add, MulXN;
    if xs == [] {
      AddLaws(0, 0, 0, 0);
    } else {
      var k := 64 * (|xs| - 1);
      assert Sums(xs, bs)[1..] == Sums(xs[1..], bs[1..]);
      BraidsSum(xs[1..], bs[1..]);
      MulXNSum(xs[0], bs[0], k);
      AddLaws(MulXN(xs[0], k), MulXN(bs[0], k), Braids(xs[1..]), Braids(bs[1..]));
    }
  }

  lemma {:induction false} BraidsPower(xs: seq<Word>, k: nat)
    ensures Braids(Powers(xs, k)) == MulXN(Braids(xs), k)
    decreases |xs|
  {
    hide Add, MulXN;
    if xs == [] {
      MulXNZero(k);
    } else {
      var m := 64 * (|xs| - 1);
      assert Powers(xs, k)[1..] == Powers(xs[1..], k);
      BraidsPower(xs[1..], k);
      MulXNSum(MulXN(xs[0], m), Braids(xs[1..]), k);
      MulXNMore(xs[0], m, k);
      MulXNMore(xs[0], k, m);
    }
  }

  // ------------------------------------------------------------ blocks of words

  /** The bytes of `ws` words. */
  function BlockBytes(ws: seq<Long>): (s: seq<bv8>)
    ensures |s| == 8 * |ws|
  {
    if ws == [] then [] else WordBytes(ws[0], 8) + BlockBytes(ws[1..])
  }

  /** The CRC of each word by itself. */
  function WordCrcs(ws: seq<Long>): (r: seq<Word>)
    ensures |r| == |ws|
  {
    seq(|ws|, i requires 0 <= i < |ws| => Register(0, WordBytes(ws[i], 8)))
  }

  lemma {:induction false} BlockCrc(r: Word, ws: seq<Long>)
    ensures Register(r, BlockBytes(ws)) == Add(MulXN(r, 64 * |ws|), Braids(WordCrcs(ws)))
    decreases |ws|
  {
    hide Add, MulXN, WordBytes, Register;
    if ws == [] {
      assert MulXN(r, 0) == r && Register(r, []) == r by { NoPower(r); NoBytes(r); }
      AddLaws(r, 0, 0, 0);
    } else {
      var s := WordBytes(ws[0], 8);
      var c, k := Register(0, s), 64 * (|ws| - 1);
      RegisterConcat(r, s, BlockBytes(ws[1..]));
      RegisterSplit(r, s);
      BlockCrc(Add(MulXN(r, 64), c), ws[1..]);
      MulXNSum(MulXN(r, 64), c, k);
      MulXNMore(r, 64, k);
      assert WordCrcs(ws)[1..] == WordCrcs(ws[1..]);
      AddLaws(MulXN(r, 64 * |ws|), MulXN(c, k), Braids(WordCrcs(ws[1..])), 0);
    }
  }

  lemma NoBytes(r: Word)
    ensures Register(r, []) == r
  {
  }

  /** The braids `cs` hold the register `r`. */
  ghost predicate Holds(cs: seq<Word>, r: Word) {
    cs != [] && Braids(cs) == MulXN(r, 64 * (|cs| - 1))
  }

  /** What a block makes of the braids. */
  function NextBraids(cs: seq<Word>, ws: seq<Long>): seq<Word>
    requires |cs| == |ws| > 0
  {
    Powers(Sums(Powers(cs, 64), WordCrcs(ws)), 64 * (|cs| - 1))
  }

  lemma HoldsNext(cs: seq<Word>, r: Word, ws: seq<Long>)
    requires Holds(cs, r) && |cs| == |ws|
    ensures Holds(NextBraids(cs, ws), Register(r, BlockBytes(ws)))
  {
    hide Add, MulXN, Braids, Sums, Powers, WordCrcs, Register, BlockBytes;
    var k := 64 * (|cs| - 1);
    BraidsPower(Sums(Powers(cs, 64), WordCrcs(ws)), k);
    BraidsSum(Powers(cs, 64), WordCrcs(ws));
    BraidsPower(cs, 64);
    MulXNMore(r, k, 64);
    BlockCrc(r, ws);
  }

  lemma {:induction false} ZeroBraids(n: nat)
    ensures Braids(Zeros(n)) == 0
  {
    hide Add, MulXN;
    if n > 0 {
      assert Zeros(n)[1..] == Zeros(n - 1);
      ZeroBraids(n - 1);
      MulXNZero(64 * (n - 1));
      AddLaws(0, 0, 0, 0);
    }
  }

  function Zeros(n: nat): (s: seq<Word>)
    ensures |s| == n
  {
    seq(n, i => 0)
  }

  lemma HoldsStart(r: Word, n: nat)
    requires n >= 1
    ensures Holds([r] + Zeros(n - 1), r)
  {
    hide Add, MulXN;
    var cs := [r] + Zeros(n - 1);
    assert cs[1..] == Zeros(n - 1);
    ZeroBraids(n - 1);
    AddLaws(MulXN(r, 64 * (n - 1)), 0, 0, 0);
  }

  // ------------------------------------------------------------ the last block

  /** The register after the words, each with its braid added. */
  function Finish(cs: seq<Word>, ws: seq<Long>, r: Word): Word
    requires |cs| == |ws|
    decreases |cs|
  {
    if cs == [] then r else Finish(cs[1..], ws[1..], Register(Add(cs[0], r), WordBytes(ws[0], 8)))
  }

  lemma {:induction false} FinishIs(cs: seq<Word>, ws: seq<Long>, r: Word)
    requires |cs| == |ws|
    ensures Finish(cs, ws, r) == Add(MulXN(r, 64 * |cs|), Add(MulXN(Braids(cs), 64), Braids(WordCrcs(ws))))
    decreases |cs|
  {
    hide Add, MulXN, WordBytes, Register;
    if cs == [] {
      assert MulXN(r, 0) == r by { NoPower(r); }
      MulXNZero(64);
      AddLaws(r, 0, 0, 0);
      AddLaws(0, 0, 0, 0);
    } else {
      var s := WordBytes(ws[0], 8);
      var c, k := Register(0, s), 64 * (|cs| - 1);
      var a := Add(cs[0], r);
      RegisterSplit(a, s);
      FinishIs(cs[1..], ws[1..], Add(MulXN(a, 64), c));
      assert WordCrcs(ws)[1..] == WordCrcs(ws[1..]);
      FinishSum(cs[0], r, c, k, Braids(cs[1..]), Braids(WordCrcs(ws[1..])));
    }
  }

  lemma FinishSum(b: Word, r: Word, c: Word, k: nat, bs: Word, cs: Word)
    ensures Add(MulXN(Add(MulXN(Add(b, r), 64), c), k), Add(MulXN(bs, 64), cs))
         == Add(MulXN(r, 64 + k), Add(MulXN(Add(MulXN(b, k), bs), 64), Add(MulXN(c, k), cs)))
  {
    hide Add, MulXN;
    FirstBraid(b, r, c, k);
    OtherBraids(b, k, bs);
    Rearrange(MulXN(b, 64 + k), MulXN(r, 64 + k), MulXN(c, k), MulXN(bs, 64), cs);
  }

  lemma FirstBraid(b: Word, r: Word, c: Word, k: nat)
    ensures MulXN(Add(MulXN(Add(b, r), 64), c), k) == Add(Add(MulXN(b, 64 + k), MulXN(r, 64 + k)), MulXN(c, k))
  {
    hide Add, MulXN;
    MulXNSum(MulXN(Add(b, r), 64), c, k);
    MulXNMore(Add(b, r), 64, k);
    MulXNSum(b, r, 64 + k);
  }

  lemma OtherBraids(b: Word, k: nat, bs: Word)
    ensures MulXN(Add(MulXN(b, k), bs), 64) == Add(MulXN(b, 64 + k), MulXN(bs, 64))
  {
    hide Add, MulXN;
    MulXNSum(MulXN(b, k), bs, 64);
    MulXNMore(b, k, 64);
  }

  lemma Rearrange(b: Word, r: Word, c: Word, d: Word, e: Word)
    ensures Add(Add(Add(b, r), c), Add(d, e)) == Add(r, Add(Add(b, d), Add(c, e)))
  {
    hide Add;
    AddLaws(b, r, c, 0);
    AddLaws(r, b, c, 0);
    AddLaws(r, Add(b, c), Add(d, e), 0);
    AddLaws(b, c, d, e);
  }

  /** The last block, with the braids, gives the register after it. */
  lemma HoldsFinish(cs: seq<Word>, r: Word, ws: seq<Long>)
    requires Holds(cs, r) && |cs| == |ws|
    ensures Finish(cs, ws, 0) == Register(r, BlockBytes(ws))
  {
    hide Add, MulXN, Braids, WordCrcs, Register, BlockBytes, Finish;
    FinishIs(cs, ws, 0);
    MulXNZero(64 * |cs|);
    BlockCrc(r, ws);
    MulXNMore(r, 64 * (|cs| - 1), 64);
    AddLaws(Add(MulXN(r, 64 * |cs|), Braids(WordCrcs(ws))), 0, 0, 0);
  }

  // ------------------------------------------------------------ the words of the buffer

  function Words(buf: seq<bv8>, p: nat, n: nat): (ws: seq<Long>)
    requires p + 8 * n <= |buf|
    ensures |ws| == n
  {
    seq(n, i requires 0 <= i < n => Load(buf[p + 8 * i..p + 8 * i + 8]))
  }

  lemma {:induction false} WordsBytes(buf: seq<bv8>, p: nat, n: nat)
    requires p + 8 * n <= |buf|
    ensures BlockBytes(Words(buf, p, n)) == buf[p..p + 8 * n]
    decreases n
  {
    hide Load, WordBytes;
    if n > 0 {
      WordsBytes(buf, p + 8, n - 1);
      assert Words(buf, p, n)[1..] == Words(buf, p + 8, n - 1) by { WordsTail(buf, p, n); }
      LoadBytes(buf[p..p + 8]);
      assert buf[p..p + 8 * n] == buf[p..p + 8] + buf[p + 8..p + 8 * n];
    }
  }

  lemma WordsTail(buf: seq<bv8>, p: nat, n: nat)
    requires p + 8 * n <= |buf| && n > 0
    ensures Words(buf, p, n)[1..] == Words(buf, p + 8, n - 1)
  {
    hide Load;
    forall i | 0 <= i < n - 1 ensures Words(buf, p, n)[1..][i] == Words(buf, p + 8, n - 1)[i] {
      assert p + 8 * (i + 1) == p + 8 + 8 * i;
    }
  }

  // ------------------------------------------------------------ one braid

  lemma NextByte(v: Long, j: nat, m: nat)
    requires j > 0
    ensures MulXN(Register(0, WordBytes(v, j)), m)
         == Add(MulXN(Wide(CrcWords.Low(v)), 8 * j + m), MulXN(Register(0, WordBytes(Rest(v), j - 1)), m))
  {
    hide Add, MulXN, Wide, CrcWords.Low, Rest;
    var b, s := Wide(CrcWords.Low(v)), WordBytes(Rest(v), j - 1);
    assert WordBytes(v, j)[1..] == s;
    AddLaws(b, 0, 0, 0);
    RegisterSplit(MulXN(b, 8), s);
    MulXNMore(b, 8, 8 * (j - 1));
    MulXNSum(MulXN(b, 8 * j), Register(0, s), m);
    MulXNMore(b, 8 * j, m);
  }

  /** A word by the braid table: its CRC followed by `n - 1` words of zeros. */
  method BraidWord(braid: array<Word>, n: nat, word: Long) returns (crc: Word)
    requires BraidOk(braid[..], n)
    ensures crc == MulXN(Register(0, WordBytes(word, 8)), 64 * (n - 1))
  {
    hide Add, MulXN, Wide, CrcWords.Low, Rest, Register, WordBytes;
    ghost var m, want := 64 * (n - 1), MulXN(Register(0, WordBytes(word, 8)), 64 * (n - 1));
    crc := braid[CrcWords.Low(word) as nat];
    assert crc == BraidAt(braid[..], 0, CrcWords.Low(word));
    NextByte(word, 8, m);
    var v := Rest(word);
    for k := 1 to 8
      invariant Add(crc, MulXN(Register(0, WordBytes(v, 8 - k)), m)) == want
    {
      var here := braid[256 * k + CrcWords.Low(v) as nat];
      assert here == BraidAt(braid[..], k, CrcWords.Low(v));
      NextByte(v, 8 - k, m);
      AddLaws(crc, here, MulXN(Register(0, WordBytes(Rest(v), 7 - k)), m), 0);
      crc := Add(crc, here);
      v := Rest(v);
    }
    NothingLeft(v, m);
    AddLaws(crc, 0, 0, 0);
  }

  lemma NothingLeft(v: Long, m: nat)
    ensures MulXN(Register(0, WordBytes(v, 0)), m) == 0
  {
    MulXNZero(m);
  }

  lemma NextBraid(c: Word, w: Long, m: nat)
    ensures MulXN(Register(0, WordBytes(Sum(w, Widen(c)), 8)), m) == MulXN(Add(MulXN(c, 64), Register(0, WordBytes(w, 8))), m)
  {
    hide Add, MulXN, Register, WordBytes, Sum, Widen;
    WordFrom(w, c);
    RegisterSplit(c, WordBytes(w, 8));
  }

  // ------------------------------------------------------------ blocks

  /** One block: each braid takes its word. */
  method StepBraids(braid: array<Word>, cs: array<Word>, buf: seq<bv8>, p: nat)
    requires cs.Length >= 1 && BraidOk(braid[..], cs.Length) && p + 8 * cs.Length <= |buf| && braid != cs
    modifies cs
    ensures cs[..] == NextBraids(old(cs[..]), Words(buf, p, cs.Length))
  {
    hide Add, MulXN, Register, WordBytes, Sum, Widen, Load, BraidOk;
    var n := cs.Length;
    ghost var old', ws := cs[..], Words(buf, p, n);
    for i := 0 to n
      invariant forall j | 0 <= j < i :: cs[j] == NextBraids(old', ws)[j]
      invariant forall j | i <= j < n :: cs[j] == old'[j]
    {
      var w := Load(buf[p + 8 * i..p + 8 * i + 8]);
      NextBraid(cs[i], w, 64 * (n - 1));
      cs[i] := BraidWord(braid, n, Sum(w, Widen(cs[i])));
    }
  }

  /** The last block: the braids are joined. */
  method JoinBraids(t: array<Word>, cs: array<Word>, buf: seq<bv8>, p: nat) returns (crc: Word)
    requires TableOk(t[..]) && p + 8 * cs.Length <= |buf|
    ensures crc == Finish(cs[..], Words(buf, p, cs.Length), 0)
  {
    hide Add, MulXN, Register, WordBytes, Sum, Widen, Load, TableOk;
    crc := 0;
    ghost var ws := Words(buf, p, cs.Length);
    for i := 0 to cs.Length
      invariant Finish(cs[i..], ws[i..], crc) == Finish(cs[..], ws, 0)
    {
      var w := Load(buf[p + 8 * i..p + 8 * i + 8]);
      SumWiden(w, cs[i], crc);
      WordFrom(w, Add(cs[i], crc));
      assert cs[i..][1..] == cs[i + 1..] && ws[i..][1..] == ws[i + 1..] && ws[i..][0] == w;
      crc := CrcWord(t, Sum(Sum(w, Widen(cs[i])), Widen(crc)));
    }
  }

  /** As many blocks of `n` words as there are. */
  method BraidedBlocks(t: array<Word>, braid: array<Word>, n: nat, crc0: Word, buf: seq<bv8>, pos: nat, blocks: nat)
    returns (crc: Word, end: nat)
    requires TableOk(t[..]) && BraidOk(braid[..], n) && n >= 1 && blocks >= 1 && pos + blocks * (8 * n) <= |buf|
    ensures pos <= end <= |buf| && crc == Register(crc0, buf[pos..end])
  {
    hide Add, MulXN, Register, Load, TableOk, BraidOk, Holds, Finish, NextBraids, Words;
    var cs := new Word[n](i => if i == 0 then crc0 else 0);
    assert cs[..] == [crc0] + Zeros(n - 1);
    HoldsStart(crc0, n);
    end := pos;
    ghost var r := crc0;
    assert r == Register(crc0, buf[pos..pos]) by { NoBytes(crc0); assert buf[pos..pos] == []; }
    var left := blocks;
    while left > 1
      invariant 1 <= left && pos <= end && end + left * (8 * n) <= |buf| && Holds(cs[..], r) && r == Register(crc0, buf[pos..end])
    {
      OneBlock(left, 8 * n);
      ghost var old' := cs[..];
      StepBraids(braid, cs, buf, end);
      HoldsNext(old', r, Words(buf, end, n));
      WordsBytes(buf, end, n);
      RegisterConcat(crc0, buf[pos..end], buf[end..end + 8 * n]);
      assert buf[pos..end] + buf[end..end + 8 * n] == buf[pos..end + 8 * n];
      r := Register(r, buf[end..end + 8 * n]);
      end := end + 8 * n;
      left := left - 1;
    }
    crc := JoinBraids(t, cs, buf, end);
    HoldsFinish(cs[..], r, Words(buf, end, n));
    WordsBytes(buf, end, n);
    RegisterConcat(crc0, buf[pos..end], buf[end..end + 8 * n]);
    assert buf[pos..end] + buf[end..end + 8 * n] == buf[pos..end + 8 * n];
    end := end + 8 * n;
  }

  lemma OneBlock(left: nat, size: nat)
    requires left >= 1
    ensures left * size == (left - 1) * size + size
  {
  }

  // ------------------------------------------------------------ the whole buffer

  const FULL: Word := 0xffffffff

  /** The CRC of `s` from `crc` on, with the complement before and after. */
  function Crc(crc: Word, s: seq<bv8>): Word {
    Add(Register(Add(crc, FULL), s), FULL)
  }

  /** A byte at a time, as far as `end`. */
  method Bytewise(t: array<Word>, crc0: Word, buf: seq<bv8>, pos: nat, end: nat) returns (crc: Word)
    requires TableOk(t[..]) && pos <= end <= |buf|
    ensures crc == Register(crc0, buf[pos..end])
  {
    hide Add, Wide, LowByte, HighBytes, MulXN, TableOk;
    crc := crc0;
    assert buf[pos..pos] == [];
    for i := pos to end
      invariant crc == Register(crc0, buf[pos..i])
    {
      TableStepIs(t[..], crc, buf[i]);
      TableSize(t[..]);
      crc := Add(HighBytes(crc), t[LowByte(Add(crc, Wide(buf[i]))) as nat]);
      RegisterConcat(crc0, buf[pos..i], [buf[i]]);
      assert [buf[i]][1..] == [] && buf[pos..i] + [buf[i]] == buf[pos..i + 1];
    }
  }

  lemma TableSize(t: seq<Word>)
    requires TableOk(t)
    ensures |t| == 256
  {
  }

  /** `crc32_z` for a buffer at address `addr`: `n` braids where there are bytes enough for them. */
  method Crc32Z(t: array<Word>, braid: array<Word>, n: nat, crc0: Word, buf: seq<bv8>, addr: nat) returns (crc: Word)
    requires TableOk(t[..]) && BraidOk(braid[..], n) && n >= 1
    ensures crc == Crc(crc0, buf)
  {
    hide Add, MulXN, Register, TableOk, BraidOk;
    crc := Add(crc0, FULL);
    ghost var r0 := crc;
    var pos := 0;
    assert Register(r0, buf[0..0]) == r0 by { NoBytes(r0); assert buf[0..0] == []; }
    if |buf| >= 8 * n + 7 {
      var skip := (8 - addr % 8) % 8;
      crc := Bytewise(t, crc, buf, 0, skip);
      pos := skip;
      ghost var p0 := pos;
      var blocks := (|buf| - pos) / (8 * n);
      BlocksFit(|buf| - pos, 8 * n);
      crc, pos := BraidedBlocks(t, braid, n, crc, buf, pos, blocks);
      RegisterConcat(r0, buf[0..p0], buf[p0..pos]);
      assert buf[0..p0] + buf[p0..pos] == buf[0..pos];
    }
    crc := Bytewise(t, crc, buf, pos, |buf|);
    RegisterConcat(r0, buf[0..pos], buf[pos..|buf|]);
    assert buf[0..pos] + buf[pos..|buf|] == buf;
    crc := Add(crc, FULL);
  }

  lemma BlocksFit(len: nat, size: nat)
    requires len >= size > 0
    ensures len / size >= 1 && (len / size) * size <= len
  {
    var q, r := len / size, len % size;
    assert len == size * q + r;
    assert size * q == q * size;
    if q <= 0 { MulBound(size, q); }
  }

  // ------------------------------------------------------------ combining

  /** `crc32_combine_gen64`. */
  method CombineGen(powers: array<Word>, len2: int) returns (op: Word)
    requires PowersOk(powers[..])
    ensures len2 < 0 ==> op == 0
    ensures len2 >= 0 ==> op == X(8 * len2)
  {
    hide X;
    if len2 < 0 { return 0; }
    op := X2nModP(powers, len2, 3);
    EightTimesLength(len2);
  }

  lemma EightTimesLength(n: nat)
    ensures n * Pow2(3) == 8 * n
  {
    SmallPowers();
  }

  /** `crc32_combine_op`. */
  method CombineOp(crc1: Word, crc2: Word, op: Word) returns (crc: Word)
    ensures op == 0 ==> crc == 0
    ensures op != 0 ==> crc == Add(Mul(op, crc1, 32), crc2)
  {
    if op == 0 { return 0; }
    var p := MultModP(op, crc1);
    crc := Add(p, crc2);
  }

  /** `crc32_combine64`, for the CRCs of two buffers: the CRC of the one followed by the other. */
  method Combine(powers: array<Word>, crc1: Word, crc2: Word, len2: int, ghost a: seq<bv8>, ghost b: seq<bv8>) returns (crc: Word)
    requires PowersOk(powers[..])
    ensures crc1 == Crc(0, a) && crc2 == Crc(0, b) && len2 == |b| ==> crc == Crc(0, a + b)
    ensures len2 < 0 ==> crc == 0
  {
    hide X, Mul, Crc, PowersOk;
    var op := CombineGen(powers, len2);
    crc := CombineOp(crc1, crc2, op);
    if crc1 == Crc(0, a) && crc2 == Crc(0, b) && len2 == |b| {
      PowerNotZero(8 * len2);
      CrcOfBoth(a, b);
    }
  }

  lemma CrcOfBoth(a: seq<bv8>, b: seq<bv8>)
    ensures Crc(0, a + b) == Add(Mul(X(8 * |b|), Crc(0, a), 32), Crc(0, b))
  {
    hide X, Mul, MulXN, Register, Add;
    var k := 8 * |b|;
    AddLaws(FULL, 0, 0, 0);
    var ra, rb := Register(FULL, a), Register(0, b);
    MulPower(Crc(0, a), k);
    MulXNSum(ra, FULL, k);
    RegisterConcat(FULL, a, b);
    RegisterSplit(ra, b);
    RegisterSplit(FULL, b);
    ComplementTwice(MulXN(ra, k), MulXN(FULL, k), rb);
  }

  lemma ComplementTwice(x: Word, y: Word, z: Word)
    ensures Add(Add(x, z), FULL) == Add(Add(x, y), Add(Add(y, z), FULL))
  {
    hide Add;
    AddLaws(x, y, Add(y, z), FULL);
    AddLaws(x, y, Add(Add(y, z), FULL), 0);
    AddLaws(y, Add(y, z), FULL, 0);
    AddLaws(y, y, z, 0);
    AddLaws(z, 0, 0, 0);
    AddLaws(x, z, FULL, 0);
  }

  // ------------------------------------------------------------ a known value

  /** Eight steps of the register, written out. */
  lemma EightSteps(a: Word)
    ensures MulXN(a, 8) == MulX(MulX(MulX(MulX(MulX(MulX(MulX(MulX(a))))))))
  {
    hide MulX;
    assert MulXN(a, 2) == MulX(MulXN(a, 1)) && MulXN(a, 1) == MulX(MulXN(a, 0));
    assert MulXN(a, 4) == MulX(MulXN(a, 3)) && MulXN(a, 3) == MulX(MulXN(a, 2));
    assert MulXN(a, 6) == MulX(MulXN(a, 5)) && MulXN(a, 5) == MulX(MulXN(a, 4));
    assert MulXN(a, 8) == MulX(MulXN(a, 7)) && MulXN(a, 7) == MulX(MulXN(a, 6));
  }

  /** The byte at `i` takes the register from `r` to `r1`. */
  lemma ByteIn(s: seq<bv8>, i: nat, x: bv8, r: Word, r1: Word)
    requires i < |s| && s[i] == x && MulX(MulX(MulX(MulX(MulX(MulX(MulX(MulX(Add(r, Wide(x)))))))))) == r1
    ensures Register(r, s[i..]) == Register(r1, s[i + 1..])
  {
    hide Add, Wide, MulXN, MulX;
    EightSteps(Add(r, Wide(x)));
    assert s[i..][0] == s[i] && s[i..][1..] == s[i + 1..];
  }

  /** The check value of this CRC: that of the digits one to nine. */
  lemma CheckValue()
    ensures Crc(0, [0x31, 0x32, 0x33, 0x34, 0x35, 0x36, 0x37, 0x38, 0x39]) == 0xcbf43926
  {
    hide MulXN, Register;
    var s: seq<bv8> := [0x31, 0x32, 0x33, 0x34, 0x35, 0x36, 0x37, 0x38, 0x39];
    ByteIn(s, 0, 0x31, 0xffffffff, 0x7c231048);
    ByteIn(s, 1, 0x32, 0x7c231048, 0xb0acbb32);
    ByteIn(s, 2, 0x33, 0xb0acbb32, 0x77b79c2d);
    ByteIn(s, 3, 0x34, 0x77b79c2d, 0x641c1f5c);
    ByteIn(s, 4, 0x35, 0x641c1f5c, 0x340ac5e3);
    ByteIn(s, 5, 0x36, 0x340ac5e3, 0xf68d2c9e);
    ByteIn(s, 6, 0x37, 0xf68d2c9e, 0xaffc9660);
    ByteIn(s, 7, 0x38, 0xaffc9660, 0x651f2550);
    ByteIn(s, 8, 0x39, 0x651f2550, 0x340bc6d9);
    assert s[0..] == s && s[9..] == [];
    NoBytes(0x340bc6d9);
  }
}
