/**
 How many bits the accumulator may hold when `inflate` calls `inflate_fast`.

 The comment in inffast.c asks for less than eight.  That is so for every block whose
 literal/length code has no word of more than eight bits, and for no other: while `inflate`
 waits for the rest of a longer word it keeps what it has of it.
 */
module FastEntry {
  import opened Bits
  import opened CanonicalCode
  import opened InflateTable
  import opened InflateSpec
  import opened InflateFixed
  import opened BitInput
  import opened InflateSteps
  import opened RawInflate
  import opened InflateStream
  import opened BitOutput
  import opened TreeOutput
  import opened BlockData
  import opened BlockMeaning
  import opened StaticTrees
  import opened BlockOutput

  // ------------------------------------------------------------ when eight bits may be held

  /** The first `n` bits of a longer word are not a word, and not the start of nothing. */
  lemma PartOfWord(lens: seq<nat>, s: nat, n: nat)
    requires Usable(LENS, lens) && s < |lens| && n < lens[s] && lens[s] > 1
    ensures Find(LENS, lens, ToBits(Rev(lens[s], Code(lens, s)), n)) == None
  {
    hide Rev, Code, Low, Num, ToBits, Kraft;
    UsableFits(LENS, lens);
    var w := Rev(lens[s], Code(lens, s));
    var t := ToBits(w, n);
    NumToBits(w, n);
    LowSmall(w, lens[s]);
    forall i: nat | CodeAt(lens, i, t) ensures false {
      LowLow(w, n, lens[i]);
      assert Matches(lens, i, w) && Matches(lens, s, w);
      MatchUnique(lens, i, s, w);
    }
  }

  /** Eight bits are enough to tell, if no word is longer. */
  lemma EightTell(lens: seq<nat>, t: seq<bool>)
    requires Usable(LENS, lens) && |t| >= 8 && forall s | 0 <= s < |lens| :: lens[s] <= 8
    ensures Find(LENS, lens, t) != None
  {
    hide Rev, Code, Low, Num, Kraft;
    if Complete(lens) {
      var s := CompleteCovers(lens, Num(t));
      assert CodeAt(lens, s, t);
    } else if !NoMatch(lens, Num(t)) {
      var s: nat :| Matches(lens, s, Num(t));
      assert CodeAt(lens, s, t);
    }
  }

  /** The states in mode LEN between two calls, for a block with these codes. */
  ghost predicate WaitsInBlock(r: Regs, codes: Codes) {
    r.mode == LEN && r.codes == codes && r.hold < Pow2(r.bits) && Lean(r)
  }

  /** Exactly the codes without words of more than eight bits keep the accumulator below eight bits. */
  lemma EntryBits(codes: Codes)
    requires UsableCodes(codes)
    ensures (forall r: Regs | WaitsInBlock(r, codes) :: r.bits < 8) <==> (forall s | 0 <= s < |codes.llens| :: codes.llens[s] <= 8)
  {
    hide ToBits, Find, Usable, Lean;
    if s :| 0 <= s < |codes.llens| && codes.llens[s] > 8 {
      var r := LongHeld(codes, s);
      assert WaitsInBlock(r, codes) && r.bits == 8;
    } else {
      forall r: Regs | WaitsInBlock(r, codes) ensures r.bits < 8 { ShortHeld(r, codes); }
    }
  }

  lemma ShortHeld(r: Regs, codes: Codes)
    requires UsableCodes(codes) && WaitsInBlock(r, codes) && forall s | 0 <= s < |codes.llens| :: codes.llens[s] <= 8
    ensures r.bits < 8
  {
    hide ToBits, Find, Lean, Rejected;
    LenLean(r);
    if r.bits >= 8 { EightTell(codes.llens, ToBits(r.hold, r.bits)); }
  }

  lemma LongHeld(codes: Codes, s: nat) returns (r: Regs)
    requires UsableCodes(codes) && s < |codes.llens| && codes.llens[s] > 8
    ensures WaitsInBlock(r, codes) && r.bits == 8
  {
    hide ToBits, Find, Rejected, Rev, Code;
    var w := Rev(codes.llens[s], Code(codes.llens, s));
    PartOfWord(codes.llens, s, 8);
    ToBitsLow(w, 8);
    r := Regs(LEN, false, 0, 0, 0, 0, 0, 0, codes, [], [], [], 0, Low(w, 8), 8, []);
  }

  // ------------------------------------------------------------ a run that comes to it

  /** `n` times the literal `x`. */
  function Literals(x: Byte, n: nat): seq<Token> {
    seq(n, i => Literal(x))
  }

  lemma LiteralsReach(x: Byte, n: nat, out: seq<Byte>)
    ensures AllReach(Literals(x, n), out) && |ExpandAll(Literals(x, n), out)| == |out| + n
  {
    if n > 0 {
      assert Literals(x, n)[1..] == Literals(x, n - 1);
      LiteralsReach(x, n - 1, out + [x]);
    }
  }

  lemma LiteralsNear(x: Byte, n: nat)
    ensures AllNear(Literals(x, n), 0)
  {
  }

  lemma LiteralsReady(k: Trees, n: nat)
    requires Fixed(k.lcode, k.llen, FixedCodes().llens, 288)
    ensures AllHaveWords(k, FixedCodes(), Literals(200, n)) && AllTokensSendable(k, Literals(200, n))
    ensures HasWord(k.lcode, k.llen, FixedCodes().llens, 200) && Sendable(k.lcode, k.llen, 200) && 200 < |k.lcode|
  {
    hide HasWord, Sendable, FixedCodes;
    WordSendable(k.lcode, k.llen, FixedCodes().llens, 200);
  }

  /** A block with the fixed codes that breaks off after eight bits of a word of nine. */
  ghost function BrokenOff(k: Trees): seq<bool>
    requires Fixed(k.lcode, k.llen, FixedCodes().llens, 288)
  {
    LiteralsReady(k, 5);
    ToBits(TypeField(1, false), 3) + (TokensBits(k, Literals(200, 5)) + ToBits(k.lcode[200], 8))
  }

  /** The decoder stops there, with the eight bits unread. */
  lemma StopsInWord(k: Trees)
    requires Fixed(k.lcode, k.llen, FixedCodes().llens, 288)
    ensures var d := Run(Core(Type, false, [], BrokenOff(k), 0));
            d.mode == Len(FixedCodes()) && |d.input| == 8 && |d.out| == 5
  {
    hide Step, Follows, Near, AllNear, ToBits, TokensBits, HasWord, Sendable, AllHaveWords, AllTokensSendable, Usable, Fixed, FixedCodes, Rev, Find;
    LiteralsReady(k, 5);
    LiteralsReach(200, 5, []);
    FixedUsable();
    var rest := ToBits(k.lcode[200], 8);
    var c := Core(Type, false, [], BrokenOff(k), 0);
    var d := Core(Len(FixedCodes()), false, [], TokensBits(k, Literals(200, 5)) + rest, 0);
    TypeRead(c, 1, false, d.input);
    FollowsStep(c);
    LiteralsNear(200, 5);
    TokensRead(d, k, Literals(200, 5), rest, 0);
    var e := d.(out := ExpandAll(Literals(200, 5), []), input := rest);
    NearFollows(d, e, 0);
    FollowsTrans(c, d, e);
    FollowsRun(c, e);
    NineBits(k);
    NoStep(e);
  }

  lemma NineBits(k: Trees)
    requires HasWord(k.lcode, k.llen, FixedCodes().llens, 200)
    ensures Find(LENS, FixedCodes().llens, ToBits(k.lcode[200], 8)) == None
  {
    hide ToBits, Rev, Find, Rejected;
    FixedUsable();
    assert FixedCodes().llens[200] == 9;
    PartOfWord(FixedCodes().llens, 200, 8);
  }

  lemma NoStep(e: Core)
    requires e.mode.Len? && Readable(e.mode.codes) && Find(LENS, e.mode.codes.llens, e.input) == None
    ensures Run(e) == e
  {
    hide Find;
  }

  /** Seven bytes of input that end in the middle of a word. */
  method WriteBrokenOff() returns (bytes: seq<Byte>, ghost k: Trees)
    ensures Fixed(k.lcode, k.llen, FixedCodes().llens, 288) && BytesToBits(bytes) == BrokenOff(k)
  {
    hide BitWriter.Bits, BitWriter.Valid, Fixed, FixedCodes, TokensBits, TokenBits, WordBits, ToBits, Sendable, HasWord, AllTokensSendable,
      BytesToBits, TokenSendable;
    var lc, ll := StaticLengthTree();
    var code, len := lc[..], ll[..];
    k := Trees(code, len, [], []);
    LiteralsReady(k, 5);
    var w := new BitWriter();
    w.SendBits(TypeField(1, false), 3);
    ghost var start := ToBits(TypeField(1, false), 3);
    assert [] + start == start;
    NoLiterals(k, start);
    for i := 0 to 5
      invariant w.Valid() && AllTokensSendable(k, Literals(200, i)) && w.Bits() == start + TokensBits(k, Literals(200, i))
      invariant fresh(w)
    {
      SendCode(w, code, len, 200);
      OneMoreLiteral(k, start, i);
    }
    ghost var five := TokensBits(k, Literals(200, 5));
    LowByte(code[200]);
    w.SendBits(code[200] % 256, 8);
    Append(start, five, ToBits(code[200], 8));
    bytes := FlushWhole(w, k);
  }

  /** The bits are a whole number of bytes. */
  method FlushWhole(w: BitWriter, ghost k: Trees) returns (bytes: seq<Byte>)
    requires w.Valid() && Fixed(k.lcode, k.llen, FixedCodes().llens, 288) && w.Bits() == BrokenOff(k)
    modifies w
    ensures BytesToBits(bytes) == BrokenOff(k)
  {
    hide Fixed, FixedCodes, BytesToBits, ToBits, BrokenOff;
    BrokenOffSize(k);
    w.BiFlush();
    bytes := w.out + w.pending;
    NoBitsMore(w.biBuf, BytesToBits(bytes));
  }

  lemma BrokenOffSize(k: Trees)
    requires Fixed(k.lcode, k.llen, FixedCodes().llens, 288)
    ensures |BrokenOff(k)| == 56
  {
    hide Fixed, FixedCodes, ToBits, TokensBits, HasWord, Sendable, AllTokensSendable;
    LiteralsReady(k, 5);
    LiteralsSize(k, 5);
  }

  lemma {:induction false} LiteralsSize(k: Trees, n: nat)
    requires Fixed(k.lcode, k.llen, FixedCodes().llens, 288)
    ensures AllTokensSendable(k, Literals(200, n)) && |TokensBits(k, Literals(200, n))| == 9 * n
  {
    hide Fixed, FixedCodes, ToBits, HasWord, Sendable;
    LiteralsReady(k, n);
    if n > 0 {
      LiteralsSize(k, n - 1);
      OneMoreLiteral(k, [], n - 1);
      assert [] + TokensBits(k, Literals(200, n - 1)) == TokensBits(k, Literals(200, n - 1));
      assert [] + TokensBits(k, Literals(200, n)) == TokensBits(k, Literals(200, n));
      NineLong(k);
    }
  }

  lemma NineLong(k: Trees)
    requires HasWord(k.lcode, k.llen, FixedCodes().llens, 200)
    ensures |WordBits(k.lcode, k.llen, 200)| == 9
  {
    hide Rev, Code;
  }

  lemma NoLiterals(k: Trees, start: seq<bool>)
    ensures AllTokensSendable(k, Literals(200, 0)) && start + TokensBits(k, Literals(200, 0)) == start
  {
    assert Literals(200, 0) == [];
  }

  lemma OneMoreLiteral(k: Trees, start: seq<bool>, n: nat)
    requires Fixed(k.lcode, k.llen, FixedCodes().llens, 288)
    ensures AllTokensSendable(k, Literals(200, n)) && AllTokensSendable(k, Literals(200, n + 1)) && 200 < |k.lcode| && 200 < |k.llen|
    ensures start + TokensBits(k, Literals(200, n)) + WordBits(k.lcode, k.llen, 200) == start + TokensBits(k, Literals(200, n + 1))
  {
    hide Fixed, FixedCodes, WordBits, HasWord;
    LiteralsReady(k, n);
    LiteralsReady(k, n + 1);
    var ts := Literals(200, n + 1);
    assert ts[..n] == Literals(200, n);
    MoreTokens(k, ts, n, start);
    assert ts[..n + 1] == ts;
  }

  lemma LowByte(x: nat)
    ensures x % 256 < Pow2(8) && ToBits(x % 256, 8) == ToBits(x, 8)
  {
    hide ToBits;
    SmallPowers();
    LowMod(x, 8);
    ToBitsLow(x, 8);
  }

  /** What the first call leaves behind. */
  lemma HoldsEight(z: Inflater, c: Core, rest: seq<Byte>, room: nat)
    requires Follows(c, Before(z, rest, []).(floor := 0)) && Run(c).mode == Len(FixedCodes()) && |Run(c).input| == 8 && |Run(c).out| < room
    requires Step(Before(z, rest, [])) == None || |Before(z, rest, []).out| >= room
    ensures z.mode == LEN && |Unread(z.Snap().(input := rest))| == 8
  {
    hide Step, Follows, StreamOf, FixedCodes;
    var d := Before(z, rest, []).(floor := 0);
    FollowsRun(c, d);
    OutputGrows(d);
    WaitsAnyFloor(Before(z, rest, []), 0);
    assert Run(d) == d;
    assert d.input == Unread(z.Snap().(input := rest)) + [];
  }

  method FirstCall(bytes: seq<Byte>, ghost c: Core) returns (z: Inflater)
    requires c == InflateStream.Start(bytes) && Run(c).mode == Len(FixedCodes()) && |Run(c).input| == 8 && |Run(c).out| == 5
    ensures fresh(z) && fresh(z.b) && Idle(z) && z.mode == LEN && z.b.bits == 8
  {
    hide Step, Follows, BytesToBits, Abs, Idle, FixedCodes, Run, Floor, InflateSteps.Whole, StreamOf, Inflater.Valid, Pow2;
    z := new Inflater(15);
    FreshIdle(z);
    StartsAt(z, bytes);
    NothingWhole();
    NoFloor(z.Size());
    var rest, out, ret := Inflate(z, bytes, 1000, false, []);
    IdleFloor(z, rest);
    HoldsEight(z, c, rest, 1000);
    OnlyHeld(z);
  }

  lemma NothingWhole()
    ensures InflateSteps.Whole([])
  {
  }

  lemma NoFloor(n: nat)
    ensures Floor(0, n) == 0
  {
  }

  lemma OnlyHeld(z: Inflater)
    requires |Unread(z.Snap().(input := []))| == 8
    ensures z.b.bits == 8
  {
  }

  /**
   Two calls: the first one ends in the middle of a word, and the second one, with six bytes and
   room for 258, begins where `inflate` calls `inflate_fast`, with eight bits in the accumulator.
   */
  method LateEntry() returns (z: Inflater)
    ensures fresh(z) && z.Valid() && Lean(z.Snap()) && z.mode == LEN && |z.b.input| >= 6 && z.left >= 258
    ensures z.b.bits == 8
  {
    hide Step, Follows, BytesToBits, Idle, BrokenOff, Fixed, FixedCodes, Run, Lean, StreamOf, Inflater.Valid;
    ghost var k;
    var bytes;
    bytes, k := WriteBrokenOff();
    StopsInWord(k);
    z := FirstCall(bytes, InflateStream.Start(bytes));
    BeginCall(z, [0, 0, 0, 0, 0, 0], 258);
  }
}
