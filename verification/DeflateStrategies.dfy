/**
 The compression functions of deflate.c: `deflate_fast`, `deflate_slow`, `deflate_rle` and
 `deflate_huff`.  Whatever they choose to tell as a match, the symbols stand for the input.
 */
module DeflateStrategies {
  import opened Bits
  import opened InflateSpec
  import opened BitOutput
  import opened BlockData
  import opened BlockMeaning
  import opened BlockOutput
  import opened HashKey
  import opened HashChains
  import opened MatchSearch
  import opened DeflateWindow
  import opened Lz77

  const TOO_FAR := 4096

  datatype Flush = NoFlush | PartialFlush | SyncFlush | FullFlush | Finish | BlockFlush

  datatype Strategy = DefaultStrategy | Filtered | HuffmanOnly | RunLengths | FixedOnly

  datatype BlockState = NeedMore | BlockDone | FinishStarted | FinishDone

  /** `configuration_table`. */
  function Configuration(level: nat): Tuning {
    match level
    case 0 => Tuning(0, 0, 0, 0)
    case 1 => Tuning(4, 4, 8, 4)
    case 2 => Tuning(4, 5, 16, 8)
    case 3 => Tuning(4, 6, 32, 32)
    case 4 => Tuning(4, 4, 16, 16)
    case 5 => Tuning(8, 16, 32, 32)
    case 6 => Tuning(8, 16, 128, 128)
    case 7 => Tuning(8, 32, 128, 256)
    case 8 => Tuning(32, 128, 258, 1024)
    case _ => Tuning(32, 258, 258, 4096)
  }

  /** One more symbol: the match, or the byte if there is none. */
  ghost predicate Adds(ts: seq<Token>, us: seq<Token>, len: nat, dist: int, x: Byte) {
    && |us| == |ts| + 1 && us[..|ts|] == ts
    && if len >= MIN_MATCH then us[|ts|].Copy? && us[|ts|].dist == dist && us[|ts|].length == len else us[|ts|] == Literal(x)
  }

  /** A short match is dropped if it is three bytes from far away, or for the strategy `Z_FILTERED`. */
  function Kept(f: Found, s: nat, filtered: bool): nat {
    if f.len <= 5 && (filtered || (f.len == MIN_MATCH && s - f.start > TOO_FAR)) then MIN_MATCH - 1 else f.len
  }

  class Compressor {
    const d: Dictionary
    const b: BlockWriter
    const level: nat
    const strategy: Strategy
    var matchLength: nat
    var prevLength: nat
    var prevMatch: int
    var matchAvailable: bool
    var availOut: nat

    /** The last block is sent (`FINISH_STATE`), and the flush of the call before. */
    var finishing: bool
    var lastFlush: int

    ghost predicate Apart() {
      && b.symEnd > 0 && b.symEnd % 3 == 0 && d.Rep() !! b.Rep() && this !in d.Rep() && this !in b.Rep()
      && (level > 0 ==> d.tuning.maxChain >= 4)
    }

    /** `deflateInit2`, for a stream without a header. */
    constructor (level: nat, windowBits: nat, memLevel: nat, strategy: Strategy)
      requires level <= 9 && 9 <= windowBits <= 15 && 1 <= memLevel <= 9
      ensures Apart() && d.Valid() && d.Ready() && b.Valid() && Sent() && Tells(0) && d.given == [] && d.input == [] && d.Pos() == Block() == 0
      ensures d.wSize == Pow2(windowBits) && d.tuning == Configuration(level) && this.level == level && this.strategy == strategy
      ensures matchLength == prevLength == 2 && !matchAvailable && !finishing && b.w.out == b.w.pending == [] && b.tokens == []
      ensures d.at == {} && d.insert == 0 && b.w.biValid == 0 && b.w.Bits() == []
      ensures fresh(d.Rep()) && fresh(b.Rep())
    {
      hide BlockWriter.Valid, Dictionary.Valid, Means, Told, BitWriter.Bits, Pow2;
      SizeRange(windowBits);
      SizeRange(memLevel + 6);
      this.level, this.strategy := level, strategy;
      d := new Dictionary(Hashing(memLevel + 7), Pow2(windowBits), Configuration(level));
      b := new BlockWriter(Pow2(memLevel + 6));
      matchLength, prevLength, prevMatch, matchAvailable, availOut := MIN_MATCH - 1, MIN_MATCH - 1, 0, false, 0;
      finishing, lastFlush := false, -2;
      new;
      MeansNothing(d.wSize);
      ToldNone(d.wSize, [], 0);
    }

    /** Where the block began in the input. */
    ghost function Block(): int
      reads d`base, d`blockStart
    {
      d.base + d.blockStart
    }

    /** What was sent stands for the input before the block. */
    ghost predicate Sent()
      reads d`base, d`blockStart, d`given, b.w
    {
      0 <= Block() <= |d.given| && Means(d.wSize, 0, b.w.Bits(), false, [], d.given[..Block()])
    }

    /** The output so far and the room for more: what the caller provided. */
    ghost function Room(): nat
      reads `availOut, b.w
    {
      |b.w.out| + availOut
    }

    /** The bits that were sent, less 64 for each byte of input that they stand for. */
    ghost function Spent(): int
      reads d`base, d`blockStart, b.w
    {
      |b.w.Bits()| - 64 * Block()
    }

    /** The symbols of the block stand for the input up to the `n`-th byte. */
    ghost predicate Tells(n: int)
      reads d`base, d`blockStart, d`given, b`tokens
    {
      Told(d.wSize, b.tokens, d.given, Block(), n)
    }

    /** The bytes of the block, if they are still in the window. */
    method BlockBytes() returns (buf: Option<seq<Byte>>)
      requires d.Holds() && d.Shape()
      ensures buf.Some? <==> d.blockStart >= 0
      ensures buf.Some? ==> 0 <= Block() <= d.Pos() <= |d.given| && buf.value == d.given[Block()..d.Pos()] && |buf.value| == d.strstart - d.blockStart
    {
      if d.blockStart >= 0 {
        buf := Some(d.window[d.blockStart..d.strstart]);
        SliceHeld(d.window[..], d.strstart, d.lookahead, d.given, d.base, d.blockStart);
      } else {
        buf := None;
      }
    }

    /** End the block. */
    method SendBlock(last: bool)
      requires level > 0 && Apart() && d.Shape() && d.Holds() && b.Valid() && Sent() && Tells(d.Pos()) && d.Pos() <= |d.given| && b.w.pending == []
      requires d.blockStart >= 0 ==> d.strstart - d.blockStart < 65536
      modifies b.Rep()
      ensures b.Valid() && b.tokens == [] && |b.w.pending| <= 4 * b.litBufsize
      ensures b.w.out == old(b.w.out) && |b.w.Bits()| <= old(|b.w.Bits()|) + 31 * (d.Pos() - Block()) + 27 + if last then 7 else 0
      ensures !last ==> Means(d.wSize, 0, b.w.Bits(), false, [], d.given[..d.Pos()])
      ensures last ==> Whole(d.wSize, b.w.Bits(), d.given[..d.Pos()]) && b.w.biValid == 0
    {
      hide BlockWriter.Shape, BlockWriter.Tallied, BitWriter.Valid, BitWriter.Bits, Dictionary.Shape, HoldsIn, Represents, AllRepresent,
        Encodings.Chosen, Encodings.FixedChosen, ReadyToSend, FixedCodes, Means, Told, Whole, ToBits, Padding, StoredBits, StaticBits, AllReach,
        ExpandAll;
      var buf := BlockBytes();
      ghost var bits0, ts := b.w.Bits(), b.tokens;
      FewTold();
      ghost var bits, e, sizes := b.FlushBlock(buf, d.strstart - d.blockStart, last, level, strategy.FixedOnly?);
      MeansBlock(d.wSize, bits0, bits, last, ts, buf, d.given, Block(), d.Pos());
      if last { WholeBy(d.wSize, bits0 + bits, d.given[..d.Pos()]); } else { NothingMore(bits0 + bits); }
    }

    lemma GoodSymbols()
      requires b.Valid()
      ensures forall j | 0 <= j < |b.tokens| :: GoodToken(b.tokens[j])
    {
    }

    lemma FewTold()
      requires b.Valid() && Tells(d.Pos())
      ensures |b.tokens| <= d.Pos() - Block() && (b.tokens != [] ==> Block() < d.Pos())
    {
      hide BlockWriter.Valid, Told;
      GoodSymbols();
      ToldFew(d.wSize, b.tokens, d.given, Block(), d.Pos());
    }

    /** `FLUSH_BLOCK_ONLY`. */
    method FlushBlockOnly(last: bool)
      requires level > 0 && Apart() && d.Shape() && d.Holds() && b.Valid() && Sent() && Tells(d.Pos()) && b.w.pending == []
      requires !last ==> b.tokens != []
      requires d.blockStart >= 0 ==> d.strstart - d.blockStart < 65536
      modifies `availOut, d`blockStart, b.Rep()
      ensures d.Holds() && b.Valid() && b.tokens == [] && Block() == d.Pos() <= |d.given| && Tells(d.Pos())
      ensures !last ==> Sent()
      ensures last ==> Whole(d.wSize, b.w.Bits(), d.given[..d.Pos()]) && b.w.biValid == 0
      ensures availOut > 0 ==> b.w.pending == []
      ensures Room() == old(Room()) && Spent() <= old(Spent()) + if last then 34 else 0
    {
      hide BlockWriter.Shape, BlockWriter.Tallied, BitWriter.Valid, BitWriter.Bits, Dictionary.Shape, Dictionary.Chains, Dictionary.Ready,
        HoldsIn, Means, Told, Whole;
      HoldsBlock(d.window[..], d.strstart, d.lookahead, d.given, d.base, d.blockStart);
      FewTold();
      SendBlock(last);
      d.blockStart := d.strstart;
      ToldNone(d.wSize, d.given, d.Pos());
      availOut := b.w.FlushPending(availOut);
    }

    // ---------------------------------------------------------- telling symbols

    /** All is in order, and the symbols stand for the input up to the `n`-th byte. */
    ghost predicate Going(n: int)
      reads d.Rep(), b.Rep()
    {
      Apart() && d.Valid() && b.Valid() && b.symNext < b.symEnd && Sent() && Tells(n)
    }

    /** `_tr_tally_lit`. */
    method TellByte(x: Byte, ghost n: int) returns (full: bool)
      requires Apart() && b.Valid() && b.symNext < b.symEnd && Tells(n) && 0 <= n < |d.given| && x == d.given[n]
      modifies b.Rep()
      ensures b.w.Bits() == old(b.w.Bits()) && b.w.pending == old(b.w.pending) && b.w.out == old(b.w.out) && b.tokens == old(b.tokens) + [TokenOf(0, x)]
      ensures b.Valid() && Tells(n + 1) && (if full then b.symNext == b.symEnd else b.symNext < b.symEnd)
    {
      hide BlockWriter.Shape, BitWriter.Valid, Told, TokenOf;
      TellLiteral(d.wSize, b.tokens, d.given, Block(), n, x);
      RoomForOne(b.symNext, |b.tokens|, b.symEnd);
      full := b.Tally(0, x);
    }

    /** `_tr_tally_dist`, for a match of length `lc + 3`. */
    method TellMatch(dist: nat, lc: Byte, ghost n: int) returns (full: bool)
      requires Apart() && b.Valid() && b.symNext < b.symEnd && Tells(n) && dist <= d.wSize <= 32768 && Repeats(d.given, n, dist, lc + 3)
      modifies b.Rep()
      ensures b.w.Bits() == old(b.w.Bits()) && b.w.pending == old(b.w.pending) && b.w.out == old(b.w.out)
      ensures b.tokens == old(b.tokens) + [TokenOf(dist, lc)]
      ensures b.Valid() && Tells(n + lc + 3) && (if full then b.symNext == b.symEnd else b.symNext < b.symEnd)
    {
      hide BlockWriter.Shape, BitWriter.Valid, Told, TokenOf, Repeats;
      TellCopy(d.wSize, b.tokens, d.given, Block(), n, dist, lc);
      RoomForOne(b.symNext, |b.tokens|, b.symEnd);
      full := b.Tally(dist, lc);
    }

    // ---------------------------------------------------------- what the functions have in common

    /** Read more input; what was told stays told. */
    method Fill(ghost n: int)
      requires Apart() && d.Valid() && d.lookahead < MIN_LOOKAHEAD && b.Valid() && Sent() && Tells(n)
      modifies d`strstart, d`lookahead, d`insert, d`insH, d`matchStart, d`blockStart, d`highWater, d`input, d`given, d`base, d`at,
        d.window, d.head, d.prev
      ensures Room() == old(Room()) && Spent() == old(Spent())
      ensures d.Valid() && (old(d.Ready()) ==> d.Ready()) && b.Valid() && Sent() && Tells(n)
      ensures d.strstart <= 2 * d.wSize - MIN_LOOKAHEAD && (d.lookahead >= MIN_LOOKAHEAD || d.input == [])
      ensures d.lookahead + |d.input| == old(d.lookahead + |d.input|) && d.lookahead >= old(d.lookahead)
      ensures d.given + d.input == old(d.given + d.input) && old(d.given) <= d.given
      ensures d.Pos() == old(d.Pos()) && Block() == old(Block()) && d.base + d.matchStart == old(d.base + d.matchStart)
      ensures old(d.strstart) > 0 ==> d.strstart > 0
      ensures d.base == old(d.base) || d.strstart >= d.wSize - MIN_LOOKAHEAD
    {
      hide HoldsIn, ChainsIn, ReadyIn, Dictionary.Shape, BlockWriter.Valid, Means, Told, BitWriter.Bits;
      ghost var given, input, block := d.given, d.input, Block();
      Ahead(d.window[..], d.strstart, d.lookahead, d.given, d.base, d.blockStart);
      d.FillWindow();
      Ahead(d.window[..], d.strstart, d.lookahead, d.given, d.base, d.blockStart);
      PrefixOfBoth(given, input, d.given, d.input);
      ToldMore(d.wSize, b.tokens, given, d.given, block, n);
      assert d.given[..block] == given[..block];
    }

    /** All the input was compressed and the last block is sent. */
    ghost predicate Finished()
      reads d.Rep(), b.Rep()
    {
      && Apart() && d.Valid() && b.Valid() && d.lookahead == 0 && d.Pos() == |d.given|
      && Whole(d.wSize, b.w.Bits(), d.given) && b.w.biValid == 0
    }

    /** What a compression function leaves behind, `n` being how far the symbols tell. */
    ghost predicate Left(flush: Flush, r: BlockState, n: int)
      reads `availOut, d.Rep(), b.Rep()
    {
      && (r.FinishStarted? || r.FinishDone? ==> flush.Finish? && Finished() && d.input == [])
      && (r.FinishStarted? ==> availOut == 0) && (r.FinishDone? ==> b.w.pending == [] && (level > 0 ==> availOut > 0))
      && (r.NeedMore? || r.BlockDone? ==> Going(n))
      && (r.NeedMore? ==> availOut == 0 || (flush.NoFlush? && d.input == []))
      && (r.BlockDone? ==> !flush.NoFlush? && !flush.Finish? && d.lookahead == 0 && d.input == [] && b.tokens == [])
    }

    /** What is left to do when all input is told, with the strings still to insert. */
    method Conclude(flush: Flush, insert: nat) returns (r: BlockState)
      requires level > 0 && Apart() && d.Valid() && b.Valid() && Sent() && Tells(d.Pos()) && d.strstart <= 2 * d.wSize - MIN_LOOKAHEAD
      requires d.lookahead == 0 && d.input == [] && insert <= d.strstart && insert < MIN_MATCH && !flush.NoFlush? && b.w.pending == []
      modifies `availOut, d`insert, d`blockStart, b.Rep()
      ensures Left(flush, r, d.Pos()) && d.Ready() && b.tokens == [] && d.blockStart == d.strstart
      ensures Room() == old(Room()) && Spent() <= old(Spent()) + if r.FinishStarted? || r.FinishDone? then 34 else 0
    {
      hide HoldsIn, ChainsIn, ReadyIn, Dictionary.Shape, BlockWriter.Shape, BlockWriter.Valid, BitWriter.Bits, Means, Told, Whole;
      assert 512 <= d.wSize <= 32768 by { d.Sizes(); }
      Ahead(d.window[..], d.strstart, d.lookahead, d.given, d.base, d.blockStart);
      AllBehind(d.k, d.wSize, d.window[..], d.head[..], d.prev[..], d.strstart, d.insert, insert, d.at, d.insH);
      d.insert := insert;
      if flush.Finish? {
        FlushBlockOnly(true);
        assert d.given[..d.Pos()] == d.given;
        return if availOut == 0 then FinishStarted else FinishDone;
      }
      NoSymbols();
      if b.symNext != 0 {
        FlushBlockOnly(false);
        NoSymbols();
        if availOut == 0 { return NeedMore; }
      }
      ToldNothing(d.wSize, d.given, Block(), d.Pos());
      return BlockDone;
    }

    lemma NoSymbols()
      requires b.Valid()
      ensures b.symNext == 0 <==> b.tokens == []
    {
      hide BlockWriter.Shape, BitWriter.Valid, Packed;
    }

    // ---------------------------------------------------------- deflate_fast

    /** The longest match along the chain from `hashHead`, as a repetition in the input. */
    method Longest(hashHead: nat, toBeat: nat) returns (len: nat)
      requires d.Shape() && d.Holds() && d.Past(d.strstart + d.lookahead) && d.strstart <= 2 * d.wSize - MIN_LOOKAHEAD
      requires 0 < hashHead < d.strstart && d.OnChain(hashHead) && d.strstart - hashHead <= d.MaxDist() && 1 <= toBeat <= MAX_MATCH && d.tuning.maxChain >= 4
      modifies d`matchStart
      ensures Least(toBeat, d.lookahead) <= len <= d.lookahead && len <= MAX_MATCH
      ensures len > toBeat ==> Repeats(d.given, d.Pos(), d.strstart - d.matchStart, len) && 1 <= d.strstart - d.matchStart <= d.MaxDist() && d.matchStart >= 0
      ensures Found(len, d.matchStart)
           == BestFrom(d.window[..], d.wSize, d.prev[..], d.strstart, d.lookahead, d.tuning, hashHead, toBeat, old(d.matchStart))
    {
      hide BestFrom, Linked, Dictionary.OnChain, ReadyIn, HoldsIn, Search, Same, Repeats, Hashing.Size;
      ChainsPast(d.k, d.wSize, d.window[..], d.head[..], d.prev[..], d.strstart, d.lookahead, d.insert, d.at);
      len := d.LongestMatch(hashHead, toBeat);
      if len > toBeat {
        SameRepeats(d.window[..], d.strstart, d.lookahead, d.given, d.base, d.blockStart, d.matchStart, len);
      }
    }

    /** A literal for the byte at `strstart`, whose string is inserted already. */
    method TakeLiteral() returns (full: bool)
      requires Apart() && d.Shape() && d.Holds() && d.Past(d.strstart + d.lookahead) && d.lookahead > 0
      requires b.Valid() && b.symNext < b.symEnd && Tells(d.Pos())
      modifies d`strstart, d`lookahead, b.Rep()
      ensures b.w.Bits() == old(b.w.Bits()) && b.w.pending == old(b.w.pending) && b.w.out == old(b.w.out)
      ensures d.Holds() && d.Chains() && d.Ready() && b.Valid() && Tells(d.Pos()) && (if full then b.symNext == b.symEnd else b.symNext < b.symEnd)
      ensures d.lookahead == old(d.lookahead) - 1 && d.strstart == old(d.strstart) + 1
      ensures d.strstart <= d.window.Length && Adds(old(b.tokens), b.tokens, 0, 0, d.window[d.strstart - 1])
    {
      hide HoldsIn, ChainsIn, ReadyIn, Dictionary.Shape, BlockWriter.Valid, Told;
      ByteHeld(d.window[..], d.strstart, d.lookahead, d.given, d.base, d.blockStart, d.strstart);
      full := TellByte(d.window[d.strstart], d.Pos());
      HoldsOn(d.window[..], d.strstart, d.lookahead, d.given, d.base, d.blockStart, 1);
      d.lookahead := d.lookahead - 1;
      d.strstart := d.strstart + 1;
    }

    /** The match at `strstart` that was found. */
    method TakeMatch() returns (full: bool)
      requires Apart() && d.Shape() && d.Holds() && d.Past(d.strstart + d.lookahead) && d.strstart <= 2 * d.wSize - MIN_LOOKAHEAD
      requires MIN_MATCH <= matchLength <= MAX_MATCH && matchLength <= d.lookahead && 1 <= d.strstart - d.matchStart <= d.wSize <= 32768
      requires Repeats(d.given, d.Pos(), d.strstart - d.matchStart, matchLength)
      requires b.Valid() && b.symNext < b.symEnd && Tells(d.Pos())
      modifies `matchLength, d`strstart, d`lookahead, d`insH, d`at, d.head, d.prev, b.Rep()
      ensures b.w.Bits() == old(b.w.Bits()) && b.w.pending == old(b.w.pending) && b.w.out == old(b.w.out)
      ensures d.Holds() && d.Chains() && d.Ready() && b.Valid() && Tells(d.Pos()) && (if full then b.symNext == b.symEnd else b.symNext < b.symEnd)
      ensures d.lookahead == old(d.lookahead - matchLength) && d.strstart == old(d.strstart + matchLength) && matchLength == 0
      ensures Adds(old(b.tokens), b.tokens, old(matchLength), old(d.strstart - d.matchStart), 0)
    {
      hide HoldsIn, ChainsIn, ReadyIn, Dictionary.Shape, BlockWriter.Valid, Told, Repeats;
      full := TellMatch(d.strstart - d.matchStart, matchLength - MIN_MATCH, d.Pos());
      d.SkipMatch(matchLength);
      matchLength := 0;
    }

    /** Look for a match at `strstart`. */
    method FastFind()
      requires d.Valid() && d.Ready() && d.tuning.maxChain >= 4
      requires d.lookahead > 0 && d.strstart <= 2 * d.wSize - MIN_LOOKAHEAD && matchLength < MIN_MATCH && prevLength == MIN_MATCH - 1
      modifies `matchLength, d`insH, d`at, d`matchStart, d.head, d.prev
      ensures d.Past(d.strstart + d.lookahead) && d.Holds() && d.strstart + d.lookahead <= d.window.Length
      ensures var f := old(d.Best(prevLength)); if f.len < MIN_MATCH then matchLength < MIN_MATCH else matchLength == f.len && d.matchStart == f.start
      ensures matchLength >= MIN_MATCH ==> matchLength <= MAX_MATCH && matchLength <= d.lookahead
      ensures matchLength >= MIN_MATCH ==> Repeats(d.given, d.Pos(), d.strstart - d.matchStart, matchLength) && 1 <= d.strstart - d.matchStart <= d.MaxDist()
    {
      hide HoldsIn, ChainsIn, ReadyIn, Dictionary.Shape, Dictionary.OnChain, Dictionary.Past, Repeats, Dictionary.Candidate, Search, Hashing.Size;
      assert 512 <= d.wSize <= 32768 && d.window.Length == 2 * d.wSize by { d.Sizes(); }
      var hashHead := d.InsertHere();
      if hashHead != 0 && d.strstart - hashHead <= d.MaxDist() {
        matchLength := Longest(hashHead, prevLength);
      }
    }

    /** One round of `deflate_fast`: a match or a literal. */
    method FastStep() returns (full: bool)
      requires level > 0 && Apart() && d.Valid() && d.Ready() && b.Valid() && b.symNext < b.symEnd && Tells(d.Pos())
      requires d.lookahead > 0 && d.strstart <= 2 * d.wSize - MIN_LOOKAHEAD && matchLength < MIN_MATCH && prevLength == MIN_MATCH - 1
      modifies `matchLength, d`strstart, d`lookahead, d`insH, d`at, d`matchStart, d.head, d.prev, b.Rep()
      ensures b.w.Bits() == old(b.w.Bits()) && b.w.pending == old(b.w.pending) && b.w.out == old(b.w.out)
      ensures d.Valid() && d.Ready() && b.Valid() && Tells(d.Pos()) && (if full then b.symNext == b.symEnd else b.symNext < b.symEnd) && matchLength < MIN_MATCH
      ensures d.lookahead < old(d.lookahead) && d.strstart + d.lookahead == old(d.strstart + d.lookahead) && d.strstart < 2 * d.wSize
      ensures var f := old(d.Best(prevLength));
              old(d.strstart) < d.window.Length && Adds(old(b.tokens), b.tokens, f.len, old(d.strstart) - f.start, d.window[old(d.strstart)])
    {
      hide HoldsIn, ChainsIn, ReadyIn, Dictionary.Shape, Dictionary.OnChain, Dictionary.Past, BlockWriter.Valid, Told, Repeats, Dictionary.Best;
      assert 512 <= d.wSize <= 32768 && d.window.Length == 2 * d.wSize by { d.Sizes(); }
      FastFind();
      if matchLength >= MIN_MATCH {
        full := TakeMatch();
      } else {
        full := TakeLiteral();
      }
    }

    /** End the block if there is no room for another symbol. */
    method FlushIfFull(full: bool) returns (stop: bool)
      requires level > 0 && Apart() && d.Shape() && d.Holds() && b.Valid() && Sent() && Tells(d.Pos()) && b.w.pending == []
      requires d.blockStart >= 0 ==> d.strstart - d.blockStart < 65536
      requires if full then b.symNext == b.symEnd else b.symNext < b.symEnd
      modifies `availOut, d`blockStart, b.Rep()
      ensures d.Holds() && b.Valid() && b.symNext < b.symEnd && Sent() && Tells(d.Pos()) && (if stop then availOut == 0 else b.w.pending == [])
      ensures if full then b.tokens == [] && d.blockStart == d.strstart else b.tokens == old(b.tokens) && d.blockStart == old(d.blockStart)
      ensures Room() == old(Room()) && Spent() <= old(Spent())
    {
      hide HoldsIn, Dictionary.Shape, BlockWriter.Valid, BitWriter.Bits, Means, Told;
      stop := false;
      if full {
        NoSymbols();
        FlushBlockOnly(false);
        NoSymbols();
        stop := availOut == 0;
      }
    }

    /** A symbol, and the end of the block if there is no room for another. */
    method FastRound() returns (stop: bool)
      requires level > 0 && b.w.pending == [] && Going(d.Pos()) && d.Ready() && matchLength < MIN_MATCH && prevLength == MIN_MATCH - 1
      requires d.lookahead > 0 && d.strstart <= 2 * d.wSize - MIN_LOOKAHEAD
      modifies `availOut, `matchLength, d`blockStart, d`strstart, d`lookahead, d`insH, d`at, d`matchStart, d.head, d.prev, b.Rep()
      ensures Going(d.Pos()) && d.Ready() && matchLength < MIN_MATCH && d.lookahead < old(d.lookahead) && (if stop then availOut == 0 else b.w.pending == [])
      ensures Room() == old(Room()) && Spent() <= old(Spent())
    {
      hide HoldsIn, ChainsIn, ReadyIn, Dictionary.Shape, BlockWriter.Valid, Compressor.Tells, Means, BitWriter.Bits;
      assert 512 <= d.wSize <= 32768 by { d.Sizes(); }
      var full := FastStep();
      stop := FlushIfFull(full);
    }

    /** `deflate_fast`. */
    method DeflateFast(flush: Flush) returns (r: BlockState)
      requires level > 0 && b.w.pending == [] && Going(d.Pos()) && d.Ready() && matchLength < MIN_MATCH && prevLength == MIN_MATCH - 1
      modifies `availOut, `matchLength, d.Rep(), b.Rep()
      ensures Left(flush, r, d.Pos()) && d.Ready() && matchLength < MIN_MATCH && d.given + d.input == old(d.given + d.input)
      ensures Room() == old(Room()) && Spent() <= old(Spent()) + if r.FinishStarted? || r.FinishDone? then 34 else 0
    {
      hide Dictionary.Valid, Dictionary.Ready, BlockWriter.Valid, Compressor.Sent, Compressor.Tells, Compressor.Spent, Compressor.Room, Compressor.Finished;
      while true
        invariant Room() == old(Room()) && Spent() <= old(Spent())
        invariant b.w.pending == [] && Going(d.Pos()) && d.Ready() && matchLength < MIN_MATCH && d.given + d.input == old(d.given + d.input)
        decreases d.lookahead + |d.input|
      {
        if d.lookahead < MIN_LOOKAHEAD {
          Fill(d.Pos());
          if d.lookahead < MIN_LOOKAHEAD && flush.NoFlush? { return NeedMore; }
          if d.lookahead == 0 { break; }
        }
        d.EnoughRoom();
        var stop := FastRound();
        if stop { return NeedMore; }
      }
      r := Conclude(flush, Least(d.strstart, MIN_MATCH - 1));
    }

    // ---------------------------------------------------------- deflate_slow

    /** How far the symbols tell when the byte before `strstart` may still be waiting. */
    ghost function Point(): int
      reads `matchAvailable, d`base, d`strstart
    {
      d.Pos() - if matchAvailable then 1 else 0
    }

    /** A match that waits is one for the position before `strstart`. */
    ghost predicate Deferred()
      reads `matchAvailable, `matchLength, d`base, d`strstart, d`matchStart, d`given
    {
      && (matchAvailable ==> d.strstart > 0)
      && Waiting(d.given, d.Pos() - 1, matchAvailable, matchLength, d.strstart - 1 - d.matchStart, d.wSize - MIN_LOOKAHEAD)
      && (matchLength >= MIN_MATCH ==> d.matchStart >= -1)
    }

    /** The match at `strstart`, which is looked for only if the one before is not long enough. */
    ghost function Offered(): Found
      requires d.Shape() && d.strstart + d.lookahead <= d.window.Length && d.strstart <= 2 * d.wSize - MIN_LOOKAHEAD && d.tuning.maxChain >= 4
      reads `matchLength, d`strstart, d`lookahead, d`matchStart, d.window, d.head, d.prev
    {
      if matchLength < d.tuning.maxLazy then d.Best(matchLength) else Found(MIN_MATCH - 1, d.matchStart)
    }

    /** Look for a match at `strstart` that is longer than the one before. */
    method SlowFind()
      requires d.Valid() && d.Ready() && d.lookahead > 0 && d.strstart <= 2 * d.wSize - MIN_LOOKAHEAD && 2 <= matchLength <= MAX_MATCH && d.tuning.maxChain >= 4
      modifies `matchLength, `prevLength, `prevMatch, d`insH, d`at, d`matchStart, d.head, d.prev
      ensures d.Past(d.strstart + d.lookahead) && d.Holds() && prevLength == old(matchLength) && prevMatch == old(d.matchStart)
      ensures 2 <= matchLength <= MAX_MATCH
      ensures var f := old(Offered()); matchLength == Kept(f, d.strstart, strategy.Filtered?) && d.matchStart == f.start
      ensures matchLength > prevLength ==> Waiting(d.given, d.Pos(), true, matchLength, d.strstart - d.matchStart, d.wSize - MIN_LOOKAHEAD) && d.matchStart >= 0
    {
      hide HoldsIn, ChainsIn, ReadyIn, Dictionary.Shape, Dictionary.OnChain, Dictionary.Past, Repeats, Dictionary.Candidate, Search, Hashing.Size;
      assert 512 <= d.wSize <= 32768 && d.window.Length == 2 * d.wSize by { d.Sizes(); }
      var hashHead := d.InsertHere();
      prevLength, prevMatch := matchLength, d.matchStart;
      matchLength := MIN_MATCH - 1;
      if hashHead != 0 && prevLength < d.tuning.maxLazy && d.strstart - hashHead <= d.MaxDist() {
        matchLength := Longest(hashHead, prevLength);
        if matchLength <= 5 && (strategy.Filtered? || (matchLength == MIN_MATCH && d.strstart - d.matchStart > TOO_FAR)) {
          matchLength := MIN_MATCH - 1;
        }
      }
    }

    /** The match that waited is not bettered: tell it. */
    method TakeLazy() returns (full: bool)
      requires Apart() && d.Shape() && d.Holds() && d.Past(d.strstart + d.lookahead) && d.strstart > 0
      requires b.Valid() && b.symNext < b.symEnd && Tells(d.Pos() - 1) && prevLength >= MIN_MATCH
      requires Waiting(d.given, d.Pos() - 1, true, prevLength, d.strstart - 1 - prevMatch, d.wSize - MIN_LOOKAHEAD)
      modifies `matchLength, `matchAvailable, d`strstart, d`lookahead, d`insH, d`at, d.head, d.prev, b.Rep()
      ensures b.w.Bits() == old(b.w.Bits()) && b.w.pending == old(b.w.pending) && b.w.out == old(b.w.out)
      ensures d.Holds() && d.Chains() && d.Ready() && b.Valid() && Tells(d.Pos()) && (if full then b.symNext == b.symEnd else b.symNext < b.symEnd)
      ensures d.lookahead < old(d.lookahead) && d.strstart + d.lookahead == old(d.strstart + d.lookahead) && d.strstart < old(d.strstart) + MAX_MATCH
      ensures matchLength == 2 && !matchAvailable && d.strstart == old(d.strstart) + prevLength - 1
      ensures Adds(old(b.tokens), b.tokens, prevLength, old(d.strstart) - 1 - prevMatch, 0)
    {
      hide HoldsIn, ChainsIn, ReadyIn, Dictionary.Shape, BlockWriter.Valid, Told, Repeats;
      Ahead(d.window[..], d.strstart, d.lookahead, d.given, d.base, d.blockStart);
      RepeatsFacts(d.given, d.Pos() - 1, d.strstart - 1 - prevMatch, prevLength);
      assert 512 <= d.wSize <= 32768 by { d.Sizes(); }
      full := TellMatch(d.strstart - 1 - prevMatch, prevLength - MIN_MATCH, d.Pos() - 1);
      d.SkipLazy(prevLength);
      matchAvailable, matchLength := false, MIN_MATCH - 1;
    }

    /** Tell the byte before `strstart` as a literal. */
    method TellLate() returns (full: bool)
      requires Apart() && d.Shape() && d.Holds() && d.strstart > 0 && b.Valid() && b.symNext < b.symEnd && Tells(d.Pos() - 1)
      modifies b.Rep()
      ensures b.w.Bits() == old(b.w.Bits()) && b.w.pending == old(b.w.pending) && b.w.out == old(b.w.out)
      ensures b.Valid() && Tells(d.Pos()) && (if full then b.symNext == b.symEnd else b.symNext < b.symEnd)
      ensures d.strstart <= d.window.Length && Adds(old(b.tokens), b.tokens, 0, 0, d.window[d.strstart - 1])
    {
      hide HoldsIn, Dictionary.Shape, BlockWriter.Valid, Told;
      ByteHeld(d.window[..], d.strstart, d.lookahead, d.given, d.base, d.blockStart, d.strstart - 1);
      full := TellByte(d.window[d.strstart - 1], d.Pos() - 1);
    }

    /** On to the next position. */
    method Advance()
      requires d.Shape() && d.Holds() && d.Past(d.strstart + d.lookahead) && d.lookahead > 0
      modifies d`strstart, d`lookahead
      ensures d.Holds() && d.Chains() && d.Ready() && d.strstart == old(d.strstart) + 1 && d.lookahead == old(d.lookahead) - 1
    {
      hide HoldsIn, ChainsIn, ReadyIn, Dictionary.Shape;
      HoldsOn(d.window[..], d.strstart, d.lookahead, d.given, d.base, d.blockStart, 1);
      d.strstart := d.strstart + 1;
      d.lookahead := d.lookahead - 1;
    }

    /** There was no match at the previous position, or a worse one: its byte is told as a literal. */
    method SlowLiteral() returns (stop: bool, ghost told: seq<Token>)
      requires level > 0 && b.w.pending == [] && Apart() && d.Shape() && d.Holds() && d.Past(d.strstart + d.lookahead) && d.lookahead > 0 && d.highWater <= 2 * d.wSize
      requires 0 < d.strstart <= 2 * d.wSize - MIN_LOOKAHEAD
      requires b.Valid() && b.symNext < b.symEnd && Sent() && Tells(d.Pos() - 1)
      modifies `availOut, d`blockStart, d`strstart, d`lookahead, b.Rep()
      ensures Going(d.Pos() - 1) && d.Ready() && (if stop then availOut == 0 else b.w.pending == [])
      ensures d.strstart == old(d.strstart) + 1 && d.lookahead == old(d.lookahead) - 1
      ensures Room() == old(Room()) && Spent() <= old(Spent())
      ensures d.strstart - 1 <= d.window.Length && Adds(old(b.tokens), told, 0, 0, d.window[d.strstart - 2]) && (b.tokens == [] || b.tokens == told)
    {
      hide HoldsIn, ChainsIn, ReadyIn, Dictionary.Shape, Dictionary.Past, BlockWriter.Valid, BitWriter.Bits, Means, Told;
      assert 512 <= d.wSize <= 32768 by { d.Sizes(); }
      var full := TellLate();
      told := b.tokens;
      stop := FlushIfFull(full);
      Advance();
      stop := availOut == 0;
    }

    /** The match of the position before is told, and the block ended if there is no room for another symbol. */
    method SlowMatch() returns (stop: bool, ghost told: seq<Token>)
      requires level > 0 && b.w.pending == [] && Apart() && d.Shape() && d.Holds() && d.Past(d.strstart + d.lookahead) && d.highWater <= 2 * d.wSize
      requires 0 < d.strstart <= 2 * d.wSize - MIN_LOOKAHEAD && prevLength >= MIN_MATCH
      requires b.Valid() && b.symNext < b.symEnd && Sent() && Tells(d.Pos() - 1)
      requires Waiting(d.given, d.Pos() - 1, true, prevLength, d.strstart - 1 - prevMatch, d.wSize - MIN_LOOKAHEAD)
      modifies `availOut, `matchLength, `matchAvailable, d`blockStart, d`strstart, d`lookahead, d`insH, d`at, d.head, d.prev, b.Rep()
      ensures Going(d.Pos()) && d.Ready() && d.lookahead < old(d.lookahead) && (if stop then availOut == 0 else b.w.pending == [])
      ensures matchLength == 2 && !matchAvailable && d.strstart == old(d.strstart) + prevLength - 1
      ensures Room() == old(Room()) && Spent() <= old(Spent())
      ensures Adds(old(b.tokens), told, prevLength, old(d.strstart) - 1 - prevMatch, 0) && (b.tokens == [] || b.tokens == told)
    {
      hide HoldsIn, ChainsIn, ReadyIn, Dictionary.Shape, Dictionary.Past, BlockWriter.Valid, BitWriter.Bits, Means, Told, Waiting;
      assert 512 <= d.wSize <= 32768 by { d.Sizes(); }
      var full := TakeLazy();
      told := b.tokens;
      stop := FlushIfFull(full);
    }

    /** One round of `deflate_slow`: the match that waits is told unless the next is longer. */
    method SlowRound() returns (stop: bool, ghost told: seq<Token>)
      requires level > 0 && b.w.pending == [] && Going(Point()) && d.Ready() && Deferred() && d.lookahead > 0 && d.strstart <= 2 * d.wSize - MIN_LOOKAHEAD
      modifies `availOut, `matchLength, `prevLength, `prevMatch, `matchAvailable,
        d`blockStart, d`strstart, d`lookahead, d`insH, d`at, d`matchStart, d.head, d.prev, b.Rep()
      ensures Going(Point()) && d.Ready() && Deferred() && d.lookahead < old(d.lookahead) && (if stop then availOut == 0 else b.w.pending == [])
      ensures Room() == old(Room()) && Spent() <= old(Spent()) && (b.tokens == [] || b.tokens == told)
      ensures var f := old(Offered()); var len := Kept(f, old(d.strstart), strategy.Filtered?);
              if old(matchLength) >= MIN_MATCH && len <= old(matchLength) then
                && !matchAvailable && matchLength == 2 && d.strstart == old(d.strstart) + old(matchLength) - 1
                && Adds(old(b.tokens), told, old(matchLength), old(d.strstart - 1 - d.matchStart), 0)
              else
                && matchAvailable && matchLength == len && d.matchStart == f.start && d.strstart == old(d.strstart) + 1
                && if old(matchAvailable) then 2 <= d.strstart <= d.window.Length && Adds(old(b.tokens), told, 0, 0, d.window[d.strstart - 2])
                   else told == old(b.tokens)
    {
      hide HoldsIn, ChainsIn, ReadyIn, Dictionary.Shape, Dictionary.Past, BlockWriter.Valid, BitWriter.Bits, Means, Told, Repeats, Adds,
        Compressor.Offered, Kept, Compressor.Sent, Compressor.Tells, Compressor.Room, Compressor.Spent;
      assert 512 <= d.wSize && d.window.Length == 2 * d.wSize by { d.Sizes(); }
      SlowFind();
      if prevLength >= MIN_MATCH && matchLength <= prevLength {
        stop, told := SlowMatch();
      } else if matchAvailable {
        stop, told := SlowLiteral();
      } else {
        matchAvailable := true;
        told := b.tokens;
        Advance();
        stop := false;
      }
    }

    /** Read more input while a byte or a match may be waiting. */
    method FillSlow()
      requires Going(Point()) && d.Ready() && Deferred() && d.lookahead < MIN_LOOKAHEAD
      modifies d.Rep()
      ensures Room() == old(Room()) && Spent() == old(Spent())
      ensures Going(Point()) && d.Ready() && Deferred()
      ensures d.strstart <= 2 * d.wSize - MIN_LOOKAHEAD && (d.lookahead >= MIN_LOOKAHEAD || d.input == [])
      ensures d.lookahead + |d.input| == old(d.lookahead + |d.input|) && d.given + d.input == old(d.given + d.input)
    {
      hide Dictionary.Valid, Dictionary.Ready, BlockWriter.Valid, BlockWriter.Rep, Means, BitWriter.Bits, Compressor.Tells, Repeats;
      ghost var given := d.given;
      Fill(Point());
      if matchLength >= MIN_MATCH { RepeatsMore(given, d.given, d.Pos() - 1, d.strstart - 1 - d.matchStart, matchLength); }
    }

    /** The byte that waits at the end of the input is told as a literal. */
    method TellLast()
      requires Apart() && d.Valid() && b.Valid() && b.symNext < b.symEnd && Sent() && Tells(Point()) && Deferred() && d.lookahead == 0
      modifies `matchAvailable, b.Rep()
      ensures b.w.Bits() == old(b.w.Bits())
      ensures b.w.pending == old(b.w.pending) && b.w.out == old(b.w.out) && b.Valid() && Sent() && Tells(d.Pos()) && !matchAvailable && Deferred()
    {
      hide HoldsIn, ChainsIn, Dictionary.Shape, BlockWriter.Valid, BitWriter.Bits, Means, Told, Repeats;
      Ahead(d.window[..], d.strstart, d.lookahead, d.given, d.base, d.blockStart);
      if matchLength >= MIN_MATCH { RepeatsFacts(d.given, d.Pos() - 1, d.strstart - 1 - d.matchStart, matchLength); }
      if matchAvailable {
        var full := TellLate();
        matchAvailable := false;
      }
    }

    method EndSlow(flush: Flush) returns (r: BlockState)
      requires level > 0 && b.w.pending == [] && Going(Point()) && Deferred() && d.lookahead == 0 && d.input == [] && !flush.NoFlush?
      requires d.strstart <= 2 * d.wSize - MIN_LOOKAHEAD
      modifies `availOut, `matchAvailable, d`insert, d`blockStart, b.Rep()
      ensures Left(flush, r, Point()) && d.Ready() && Deferred() && !matchAvailable
      ensures Room() == old(Room()) && Spent() <= old(Spent()) + if r.FinishStarted? || r.FinishDone? then 34 else 0
    {
      hide Dictionary.Valid, Dictionary.Ready, BlockWriter.Valid, Compressor.Sent, Compressor.Tells, Compressor.Finished, Waiting;
      TellLast();
      r := Conclude(flush, Least(d.strstart, MIN_MATCH - 1));
    }

    /** `deflate_slow`. */
    method DeflateSlow(flush: Flush) returns (r: BlockState)
      requires level > 0 && b.w.pending == [] && Going(Point()) && d.Ready() && Deferred()
      modifies `availOut, `matchLength, `prevLength, `prevMatch, `matchAvailable, d.Rep(), b.Rep()
      ensures Left(flush, r, Point()) && d.Ready() && Deferred() && d.given + d.input == old(d.given + d.input)
      ensures r.BlockDone? ==> !matchAvailable
      ensures Room() == old(Room()) && Spent() <= old(Spent()) + if r.FinishStarted? || r.FinishDone? then 34 else 0
    {
      hide Dictionary.Valid, Dictionary.Ready, BlockWriter.Valid, Compressor.Sent, Compressor.Tells, Compressor.Spent, Compressor.Room, Compressor.Finished, Compressor.Deferred;
      while true
        invariant Room() == old(Room()) && Spent() <= old(Spent())
        invariant b.w.pending == [] && Going(Point()) && d.Ready() && Deferred() && d.given + d.input == old(d.given + d.input)
        decreases d.lookahead + |d.input|
      {
        if d.lookahead < MIN_LOOKAHEAD {
          FillSlow();
          if d.lookahead < MIN_LOOKAHEAD && flush.NoFlush? { return NeedMore; }
          if d.lookahead == 0 { break; }
        }
        d.EnoughRoom();
        var stop, told := SlowRound();
        if stop { return NeedMore; }
      }
      r := EndSlow(flush);
    }

    // ---------------------------------------------------------- deflate_rle and deflate_huff

    /** One round of `deflate_rle`: a run as a match at distance one, or a literal. */
    method RleStep() returns (full: bool)
      requires Apart() && d.Valid() && b.Valid() && b.symNext < b.symEnd && Tells(d.Pos())
      requires d.lookahead > 0 && d.strstart + MAX_MATCH < 2 * d.wSize
      modifies `matchLength, d`strstart, d`lookahead, b.Rep()
      ensures b.w.Bits() == old(b.w.Bits()) && b.w.pending == old(b.w.pending) && b.w.out == old(b.w.out)
      ensures d.Valid() && b.Valid() && Tells(d.Pos()) && (if full then b.symNext == b.symEnd else b.symNext < b.symEnd)
      ensures d.lookahead < old(d.lookahead) && d.strstart < 2 * d.wSize
    {
      hide HoldsIn, ChainsIn, Dictionary.Shape, BlockWriter.Valid, Told, Repeats, MatchLen;
      d.EnoughRoom();
      matchLength := d.RunLength();
      if matchLength >= MIN_MATCH {
        RunRepeats();
        assert 512 <= d.wSize <= 32768 by { d.Sizes(); }
        full := TellMatch(1, matchLength - MIN_MATCH, d.Pos());
        d.Skip(matchLength);
        matchLength := 0;
      } else {
        full := TellNext();
      }
    }

    lemma RunRepeats()
      requires d.Shape() && d.Holds() && 0 < d.strstart && d.strstart + MAX_MATCH < 2 * d.wSize && MIN_MATCH <= matchLength
      requires matchLength == Least(MatchLen(d.window[..], d.strstart - 1, d.strstart), d.lookahead)
      ensures Repeats(d.given, d.Pos(), 1, matchLength) && matchLength <= MAX_MATCH
    {
      hide HoldsIn, MatchLen, Repeats, Same;
      var n := MatchLen(d.window[..], d.strstart - 1, d.strstart);
      MatchLenSame(d.window[..], d.strstart - 1, d.strstart);
      SameLess(d.window[..], d.strstart - 1, d.strstart, n, matchLength);
      SameRepeats(d.window[..], d.strstart, d.lookahead, d.given, d.base, d.blockStart, d.strstart - 1, matchLength);
    }

    /** A literal for the byte at `strstart`, without inserting any string. */
    method TellNext() returns (full: bool)
      requires Apart() && d.Valid() && b.Valid() && b.symNext < b.symEnd && Tells(d.Pos()) && d.lookahead > 0
      modifies d`strstart, d`lookahead, b.Rep()
      ensures b.w.Bits() == old(b.w.Bits()) && b.w.pending == old(b.w.pending) && b.w.out == old(b.w.out) && |b.tokens| == old(|b.tokens|) + 1
      ensures d.Valid() && b.Valid() && Tells(d.Pos()) && (if full then b.symNext == b.symEnd else b.symNext < b.symEnd)
      ensures d.lookahead == old(d.lookahead) - 1 && d.strstart == old(d.strstart) + 1
    {
      hide HoldsIn, ChainsIn, Dictionary.Shape, BlockWriter.Valid, Told;
      ByteHeld(d.window[..], d.strstart, d.lookahead, d.given, d.base, d.blockStart, d.strstart);
      full := TellByte(d.window[d.strstart], d.Pos());
      d.Skip(1);
    }

    method RleRound() returns (stop: bool)
      requires level > 0 && b.w.pending == [] && Going(d.Pos()) && d.lookahead > 0 && d.strstart + MAX_MATCH < 2 * d.wSize
      modifies `availOut, `matchLength, d`blockStart, d`strstart, d`lookahead, b.Rep()
      ensures Going(d.Pos()) && d.lookahead < old(d.lookahead) && (if stop then availOut == 0 else b.w.pending == [])
      ensures Room() == old(Room()) && Spent() <= old(Spent())
    {
      hide HoldsIn, ChainsIn, Dictionary.Shape, BlockWriter.Valid, Compressor.Tells, Means, BitWriter.Bits;
      assert 512 <= d.wSize <= 32768 by { d.Sizes(); }
      var full := RleStep();
      stop := FlushIfFull(full);
    }

    /** `deflate_rle`. */
    method DeflateRle(flush: Flush) returns (r: BlockState)
      requires level > 0 && b.w.pending == [] && Going(d.Pos())
      modifies `availOut, `matchLength, d.Rep(), b.Rep()
      ensures Left(flush, r, d.Pos()) && d.given + d.input == old(d.given + d.input)
      ensures Room() == old(Room()) && Spent() <= old(Spent()) + if r.FinishStarted? || r.FinishDone? then 34 else 0
    {
      hide Dictionary.Valid, Dictionary.Ready, BlockWriter.Valid, Compressor.Sent, Compressor.Tells, Compressor.Spent, Compressor.Room, Compressor.Finished;
      while true
        invariant Room() == old(Room()) && Spent() <= old(Spent())
        invariant b.w.pending == [] && Going(d.Pos()) && d.given + d.input == old(d.given + d.input)
        decreases d.lookahead + |d.input|
      {
        if d.lookahead <= MAX_MATCH {
          Fill(d.Pos());
          if d.lookahead <= MAX_MATCH && flush.NoFlush? { return NeedMore; }
          if d.lookahead == 0 { break; }
        }
        d.EnoughRoom();
        var stop := RleRound();
        if stop { return NeedMore; }
      }
      r := Conclude(flush, 0);
    }

    /** Every symbol of the block is a literal. */
    ghost predicate LiteralsOnly()
      reads d`base, d`strstart, d`blockStart, b`tokens
    {
      |b.tokens| == d.strstart - d.blockStart
    }

    method HuffRound() returns (stop: bool)
      requires level > 0 && b.w.pending == [] && Going(d.Pos()) && LiteralsOnly() && d.lookahead > 0
      modifies `availOut, d`blockStart, d`strstart, d`lookahead, b.Rep()
      ensures Going(d.Pos()) && LiteralsOnly() && d.lookahead < old(d.lookahead) && (if stop then availOut == 0 else b.w.pending == [])
      ensures Room() == old(Room()) && Spent() <= old(Spent())
    {
      hide HoldsIn, ChainsIn, Dictionary.Shape, BlockWriter.Valid, Compressor.Tells, Means, BitWriter.Bits;
      var full := TellNext();
      FewSymbols();
      stop := FlushIfFull(full);
    }

    lemma FewSymbols()
      requires b.Valid()
      ensures |b.tokens| < 65536
    {
    }

    /** `deflate_huff`. */
    method DeflateHuff(flush: Flush) returns (r: BlockState)
      requires level > 0 && b.w.pending == [] && Going(d.Pos()) && LiteralsOnly()
      modifies `availOut, `matchLength, d.Rep(), b.Rep()
      ensures Left(flush, r, d.Pos()) && LiteralsOnly() && d.given + d.input == old(d.given + d.input)
      ensures Room() == old(Room()) && Spent() <= old(Spent()) + if r.FinishStarted? || r.FinishDone? then 34 else 0
    {
      hide Dictionary.Valid, Dictionary.Ready, BlockWriter.Valid, Compressor.Sent, Compressor.Tells, Compressor.Spent, Compressor.Room, Compressor.Finished;
      while true
        invariant Room() == old(Room()) && Spent() <= old(Spent())
        invariant b.w.pending == [] && Going(d.Pos()) && LiteralsOnly() && d.given + d.input == old(d.given + d.input)
        decreases d.lookahead + |d.input|
      {
        if d.lookahead == 0 {
          Fill(d.Pos());
          if d.lookahead == 0 {
            if flush.NoFlush? { return NeedMore; }
            break;
          }
        }
        matchLength := 0;
        var stop := HuffRound();
        if stop { return NeedMore; }
      }
      r := Conclude(flush, 0);
    }
  }

  lemma NothingMore(s: seq<bool>)
    ensures s + [] == s
  {
  }

  lemma RoomForOne(next: nat, n: nat, end: nat)
    requires next == 3 * n < end && end % 3 == 0
    ensures next + 3 <= end
  {
  }

  lemma ChainsPast(k: Hashing, w: nat, win: seq<Byte>, head: seq<nat>, prev: seq<nat>, start: nat, ahead: nat, insert: nat, at: set<nat>)
    requires ahead > 0 && ChainsIn(k, w, win, head, prev, start + 1, ahead - 1, insert, at)
    ensures Linked(k, w, head, prev, win[..start + ahead], at) && forall p | p in at :: p <= start
  {
    hide Linked;
    assert start + 1 + (ahead - 1) == start + ahead;
  }

  /** A match in the window is a repetition in the input. */
  lemma SameRepeats(win: seq<Byte>, start: nat, ahead: nat, given: seq<Byte>, base: nat, block: int, m: nat, len: nat)
    requires HoldsIn(win, start, ahead, given, base, block) && m < start && Same(win, m, start, len) && len <= ahead
    ensures Repeats(given, base + start, start - m, len)
  {
    forall j | base + start <= j < base + start + len ensures given[j] == given[j - (start - m)] {
      var i := j - base;
      ByteHeld(win, start, ahead, given, base, block, i);
      ByteHeld(win, start, ahead, given, base, block, i - (start - m));
      assert win[i] == win[i - (start - m)];
    }
  }

  lemma Ahead(win: seq<Byte>, start: nat, ahead: nat, given: seq<Byte>, base: nat, block: int)
    requires HoldsIn(win, start, ahead, given, base, block)
    ensures ahead == |given| - (base + start) && start + ahead <= |win|
  {
  }

  lemma PrefixOfBoth(a: seq<Byte>, b: seq<Byte>, a': seq<Byte>, b': seq<Byte>)
    requires a + b == a' + b' && |a| <= |a'|
    ensures a <= a' && |a| + |b| == |a'| + |b'|
  {
    assert a == (a + b)[..|a|] == (a' + b')[..|a|] == a'[..|a|];
    assert |a + b| == |a' + b'|;
  }

  /** With no input ahead, no string of the last two positions is inserted. */
  lemma AllBehind(k: Hashing, w: nat, win: seq<Byte>, head: seq<nat>, prev: seq<nat>, start: nat, insert: nat, insert': nat, at: set<nat>, insH: nat)
    requires ChainsIn(k, w, win, head, prev, start, 0, insert, at) && insert' <= start && insert' < MIN_MATCH
    ensures ChainsIn(k, w, win, head, prev, start, 0, insert', at) && ReadyIn(k, win, start, 0, insert', insH)
  {
    hide Leads, LeadsBack, Hashing.Size;
  }

  /** The bytes of the block are the input since it began. */
  lemma SliceHeld(win: seq<Byte>, start: nat, ahead: nat, given: seq<Byte>, base: nat, block: nat)
    requires HoldsIn(win, start, ahead, given, base, block)
    ensures block <= start <= |win| && base + start <= |given| && win[block..start] == given[base + block..base + start]
  {
    forall i | 0 <= i < start - block ensures win[block..start][i] == given[base + block..base + start][i] {
      ByteHeld(win, start, ahead, given, base, block, block + i);
    }
  }

  /** A match of at least three bytes is one for the position `n` of the input. */
  ghost predicate Waiting(given: seq<Byte>, n: int, available: bool, len: nat, dist: int, far: int) {
    2 <= len <= MAX_MATCH && (len >= MIN_MATCH ==> available && 1 <= dist <= far && Repeats(given, n, dist, len))
  }
}
