/**
 `deflate` (deflate.c) for a stream without header and trailer, called any number of times, and
 the round trip: what it wrote, `inflate` turns back into the input.
 */
module DeflateStream {
  import opened Bits
  import opened InflateSpec
  import InflateStream
  import InflateSteps
  import opened BitOutput
  import opened BlockData
  import opened BlockMeaning
  import opened BlockOutput
  import opened PendingRoom
  import opened MatchSearch
  import opened DeflateWindow
  import opened Lz77
  import opened DeflateStrategies
  import opened StoredStrategy
  import FlushPoint
  import SyncSearch

  datatype Status = Ok | StreamEnd | StreamError | BufError

  function FlushValue(f: Flush): int {
    match f
    case NoFlush => 0
    case PartialFlush => 1
    case SyncFlush => 2
    case FullFlush => 3
    case Finish => 4
    case BlockFlush => 5
  }

  /** `RANK`. */
  function Rank(f: int): int {
    2 * f - if f > 4 then 9 else 0
  }

  /** What the compression function in use relies on from call to call. */
  ghost predicate Suited(c: Compressor)
    reads c`matchAvailable, c`matchLength, c`prevLength, c.d.Rep(), c.b.Rep()
  {
    if c.level == 0 then !c.matchAvailable && Storing(c)
    else if c.strategy.HuffmanOnly? then !c.matchAvailable && c.LiteralsOnly()
    else if c.strategy.RunLengths? then !c.matchAvailable
    else if c.level <= 3 then c.d.Ready() && c.matchLength < MIN_MATCH && c.prevLength == MIN_MATCH - 1 && !c.matchAvailable
    else c.d.Ready() && c.Deferred()
  }

  /** How far what was sent and the symbols of the block tell. */
  ghost function Reach(c: Compressor): int
    reads c`matchAvailable, c.d.Rep()
  {
    if c.level == 0 then c.Block() else c.Point()
  }

  ghost predicate InOrder(c: Compressor)
    reads c`finishing, c`matchAvailable, c`matchLength, c`prevLength, c.d.Rep(), c.b.Rep()
  {
    if c.finishing then c.Finished() else c.Going(Reach(c)) && Suited(c)
  }

  /** The compression function for the level and the strategy. */
  method Compress(c: Compressor, flush: Flush) returns (r: BlockState)
    requires c.Going(Reach(c)) && Suited(c) && c.b.w.pending == []
    modifies c`availOut, c`matchLength, c`prevLength, c`prevMatch, c`matchAvailable, c.d.Rep(), c.b.Rep()
    ensures c.Room() == old(c.Room()) && c.Spent() <= old(c.Spent()) + if r.FinishStarted? || r.FinishDone? then 42 else 0
    ensures c.Left(flush, r, Reach(c)) && (r.NeedMore? || r.BlockDone? ==> Suited(c)) && c.d.given + c.d.input == old(c.d.given + c.d.input)
    ensures r.BlockDone? ==> !c.matchAvailable && Reach(c) == c.d.Pos()
  {
    hide Dictionary.Valid, Dictionary.Ready, BlockWriter.Valid, Compressor.Sent, Compressor.Tells, Compressor.Finished, Compressor.Deferred;
    if c.level == 0 {
      r := DeflateStored(c, flush);
    } else if c.strategy.HuffmanOnly? {
      r := c.DeflateHuff(flush);
    } else if c.strategy.RunLengths? {
      r := c.DeflateRle(flush);
    } else if c.level <= 3 {
      r := c.DeflateFast(flush);
    } else {
      r := c.DeflateSlow(flush);
    }
  }

  /** An empty block with the fixed codes. */
  method SendAlign(c: Compressor)
    requires c.b.Valid() && c.Sent()
    modifies c.b.w
    ensures c.b.w.out == old(c.b.w.out) && |c.b.w.Bits()| <= old(|c.b.w.Bits()|) + 42
    ensures c.b.Valid() && c.Sent() && c.b.w.biValid < 8
    ensures ReadyToSend(c.b.statics, FixedCodes(), []) && c.b.w.Bits() == old(c.b.w.Bits()) + StaticBits(c.b.statics, [], false)
  {
    hide BlockWriter.Shape, BlockWriter.Tallied, BitWriter.Valid, BitWriter.Bits, Means, StaticBits, ReadyToSend, FixedCodes;
    ghost var bits := c.b.w.Bits();
    c.b.Align();
    NothingMeans(c.d.wSize, bits, c.b.statics, c.d.given[..c.Block()]);
    FixedBlockSize(c.b.statics, [], false);
  }

  /** An empty stored block. */
  method SendEmpty(c: Compressor)
    requires c.b.Valid() && c.Sent()
    modifies c.b.w
    ensures c.b.w.out == old(c.b.w.out) && |c.b.w.Bits()| <= old(|c.b.w.Bits()|) + 42
    ensures c.b.Valid() && c.Sent() && c.b.w.biValid == 0 && SyncSearch.EndsWith(c.b.w.pending, 4)
  {
    hide BlockWriter.Shape, BlockWriter.Tallied, BitWriter.Valid, BitWriter.Bits, Means, StoredBits;
    ghost var bits, x := c.b.w.Bits(), c.d.given[..c.Block()];
    c.b.StoredBlock([], false);
    StoredMeans(c.d.wSize, |bits|, [], false, x);
    assert x + [] == x;
    MeansMore(c.d.wSize, bits, StoredBits(|bits|, [], false), false, x, x);
    StoredBlockSize(|bits|, [], false);
  }

  lemma NothingMeans(w: nat, bits: seq<bool>, k: Trees, x: seq<Byte>)
    requires ReadyToSend(k, FixedCodes(), []) && Means(w, 0, bits, false, [], x)
    ensures AllTokensSendable(k, []) && Means(w, 0, bits + StaticBits(k, [], false), false, [], x)
  {
    hide Means, FixedCodes, StaticBits, HasWord;
    StaticMeans(w, |bits|, k, [], false, x);
    MeansMore(w, bits, StaticBits(k, [], false), false, x, x);
  }

  /** The bits end with an empty block with the fixed codes, and those before it mean `x`. */
  ghost predicate Aligned(w: nat, bits: seq<bool>, k: Trees, x: seq<Byte>) {
    && ReadyToSend(k, FixedCodes(), [])
    && |bits| >= 10 && Means(w, 0, bits[..|bits| - 10], false, [], x) && bits[|bits| - 10..] == StaticBits(k, [], false)
  }

  lemma AlignedIs(w: nat, bits: seq<bool>, k: Trees, x: seq<Byte>)
    requires ReadyToSend(k, FixedCodes(), []) && Means(w, 0, bits, false, [], x)
    ensures AllTokensSendable(k, []) && Aligned(w, bits + StaticBits(k, [], false), k, x)
  {
    hide Means, FixedCodes, StaticBits, HasWord;
    FlushPoint.BeginningQuiet(k, x, 0);
    var s := StaticBits(k, [], false);
    assert (bits + s)[..|bits|] == bits && (bits + s)[|bits|..] == s;
  }

  /** With nothing ahead and nothing untold, all that was given was sent. */
  lemma TheEnd(c: Compressor)
    requires c.d.Valid() && c.d.lookahead == 0 && c.Block() == c.d.Pos()
    ensures c.Block() == |c.d.given| && c.d.given[..c.Block()] == c.d.given
  {
    hide ChainsIn, ReadyIn, Dictionary.Shape;
  }

  /** The mark that ends a flush: an empty block, after a full flush also a new history. */
  method Mark(c: Compressor, flush: Flush)
    requires c.Going(c.d.Pos()) && Suited(c) && !c.matchAvailable && c.d.lookahead == 0 && c.b.tokens == []
    modifies c.d.Rep(), c.b.Rep()
    ensures c.b.w.out == old(c.b.w.out) && c.Spent() <= old(c.Spent()) + 42
    ensures c.Going(c.d.Pos()) && Suited(c) && Reach(c) == c.d.Pos() && c.d.given == old(c.d.given) && c.d.input == old(c.d.input)
    ensures c.b.tokens == [] && c.d.lookahead == 0 && c.Block() == |c.d.given|
    ensures flush.PartialFlush? ==> c.b.w.biValid < 8 && Aligned(c.d.wSize, c.b.w.Bits(), c.b.statics, c.d.given)
    ensures flush.SyncFlush? || flush.FullFlush? ==> c.b.w.biValid == 0 && SyncSearch.EndsWith(c.b.w.pending, 4)
    ensures flush.FullFlush? ==> c.d.at == {} && c.d.strstart == c.d.insert == 0
  {
    hide HoldsIn, ChainsIn, ReadyIn, Dictionary.Shape, BlockWriter.Shape, BlockWriter.Tallied, BitWriter.Valid, BitWriter.Bits, Means, Told,
      StoredBits, StaticBits;
    ToldNothing(c.d.wSize, c.d.given, c.Block(), c.d.Pos());
    TheEnd(c);
    if flush.PartialFlush? {
      ghost var bits := c.b.w.Bits();
      SendAlign(c);
      AlignedIs(c.d.wSize, bits, c.b.statics, c.d.given);
    } else if !flush.BlockFlush? {
      SendEmpty(c);
      if flush.FullFlush? {
        c.d.Forget();
      }
    }
  }

  /** `flush_pending`. */
  method FlushOut(c: Compressor)
    requires InOrder(c)
    modifies c`availOut, c.b.w
    ensures c.Room() == old(c.Room()) && c.Spent() == old(c.Spent())
    ensures InOrder(c) && (c.availOut > 0 ==> c.b.w.pending == [])
    ensures c.d.given == old(c.d.given) && c.d.input == old(c.d.input) && c.b.w.biValid < 8 && c.b.w.Bits() == old(c.b.w.Bits())
    ensures old(c.b.w.biValid) < 8 ==> c.b.w.biValid == old(c.b.w.biValid) && c.b.w.out + c.b.w.pending == old(c.b.w.out + c.b.w.pending)
    ensures old(c.b.w.biValid) < 8 ==> (c.availOut > 0 <==> old(c.availOut > |c.b.w.pending|))
  {
    hide Dictionary.Valid, Dictionary.Ready, BlockWriter.Shape, BlockWriter.Tallied, BitWriter.Valid, BitWriter.Bits, Means, Whole, Told;
    c.availOut := c.b.w.FlushPending(c.availOut);
  }

  /**
   A flush that found room for all it wrote: the symbols are sent, the bytes are out, and the
   decoder that is given them produces the whole input so far.
   */
  ghost predicate Flushed(c: Compressor, flush: Flush)
    reads c.d.Rep(), c.b.Rep()
  {
    && c.b.tokens == [] && c.b.w.pending == [] && c.b.w.biValid < 8
    && c.d.input == [] && c.d.lookahead == 0 && c.Block() == |c.d.given|
    && (!flush.BlockFlush? ==> Run(InflateStream.Start(c.b.w.out)).out == c.d.given)
    && (flush.SyncFlush? || flush.FullFlush? ==> c.b.w.biValid == 0 && SyncSearch.EndsWith(c.b.w.out, 4))
    && (flush.FullFlush? ==> c.d.at == {} && c.d.strstart == c.d.insert == 0)
  }

  lemma WholeBytes(w: BitWriter)
    requires w.pending == [] && w.biValid == 0
    ensures w.Bits() == BytesToBits(w.out)
  {
    hide BytesToBits;
    assert w.out + w.pending == w.out;
  }

  lemma PartBytes(w: BitWriter)
    requires w.pending == []
    ensures w.Bits() == BytesToBits(w.out) + ToBits(w.biBuf, w.biValid) && |ToBits(w.biBuf, w.biValid)| == w.biValid
  {
    hide BytesToBits;
    assert w.out + w.pending == w.out;
  }

  lemma EndsStill(a: seq<Byte>, b: seq<Byte>)
    requires SyncSearch.EndsWith(b, 4)
    ensures SyncSearch.EndsWith(a + b, 4)
  {
    forall i | 0 <= i < 4 ensures (a + b)[|a + b| - 4 + i] == SyncSearch.Mark(i) {
      assert (a + b)[|a + b| - 4 + i] == b[|b| - 4 + i];
    }
  }

  lemma SyncDecodes(c: Compressor)
    requires c.Sent() && c.Block() == |c.d.given| && c.b.w.pending == [] && c.b.w.biValid == 0
    ensures Run(InflateStream.Start(c.b.w.out)).out == c.d.given
  {
    hide BitWriter.Bits, Means, Run, InflateStream.Start;
    WholeBytes(c.b.w);
    assert c.d.given[..c.Block()] == c.d.given;
    FlushPoint.WholeBytesDecode(c.d.wSize, c.b.w.out, c.d.given);
  }

  lemma PartialDecodes(c: Compressor)
    requires Aligned(c.d.wSize, c.b.w.Bits(), c.b.statics, c.d.given) && c.b.w.pending == [] && c.b.w.biValid < 8
    ensures Run(InflateStream.Start(c.b.w.out)).out == c.d.given
  {
    hide BitWriter.Bits, Means, Run, InflateStream.Start, ToBits, StaticBits, FixedCodes, HasWord, BytesToBits;
    PartBytes(c.b.w);
    var bits := c.b.w.Bits();
    assert bits[..|bits| - 10] + bits[|bits| - 10..] == bits;
    FlushPoint.AlignedDecode(c.d.wSize, bits[..|bits| - 10], c.b.statics, c.b.w.out, ToBits(c.b.w.biBuf, c.b.w.biValid), c.d.given);
  }

  /** Mark a flush, and hand out what there is room for. */
  method MarkFlush(c: Compressor, flush: Flush)
    requires !c.finishing && Reach(c) == c.d.Pos() && !flush.NoFlush? && !flush.Finish?
    requires c.Going(c.d.Pos()) && Suited(c) && !c.matchAvailable && c.d.lookahead == 0 && c.b.tokens == [] && c.d.input == []
    modifies c`availOut, c.d.Rep(), c.b.Rep()
    ensures c.Room() == old(c.Room()) && c.Spent() <= old(c.Spent()) + 42
    ensures InOrder(c) && c.d.given == old(c.d.given) && c.d.input == []
    ensures c.availOut > 0 ==> Flushed(c, flush)
  {
    hide Dictionary.Valid, Dictionary.Ready, BlockWriter.Valid, Compressor.Sent, Compressor.Tells, Compressor.Finished, Suited, Aligned, BitWriter.Bits,
      Run, InflateStream.Start, SyncSearch.EndsWith;
    Mark(c, flush);
    ghost var pending := c.b.w.pending;
    ghost var out := c.b.w.out;
    FlushOut(c);
    if c.availOut > 0 {
      if flush.PartialFlush? {
        PartialDecodes(c);
      } else if !flush.BlockFlush? {
        EndsStill(out, pending);
        assert c.b.w.out + [] == c.b.w.out;
        SyncDecodes(c);
      }
    }
  }

  /** Compress what there is, and mark a flush. */
  method Work(c: Compressor, flush: Flush) returns (r: BlockState)
    requires InOrder(c) && !c.finishing && c.b.w.pending == []
    modifies c, c.d.Rep(), c.b.Rep()
    ensures c.Room() == old(c.Room()) && c.Spent() <= old(c.Spent()) + 42
    ensures InOrder(c) && c.lastFlush == old(c.lastFlush) && c.d.given + c.d.input == old(c.d.given + c.d.input)
    ensures c.finishing <==> r.FinishStarted? || r.FinishDone?
    ensures c.finishing ==> flush.Finish? && c.d.input == []
    ensures r.FinishDone? ==> c.b.w.pending == []
    ensures flush.Finish? && !r.FinishDone? ==> c.availOut == 0 && !r.BlockDone?
    ensures r.NeedMore? ==> c.availOut == 0 || (flush.NoFlush? && c.d.input == [])
    ensures r.FinishStarted? ==> c.availOut == 0
    ensures r.BlockDone? ==> !flush.NoFlush? && (c.availOut > 0 ==> Flushed(c, flush))
  {
    hide Dictionary.Valid, Dictionary.Ready, BlockWriter.Valid, Compressor.Sent, Compressor.Tells, Compressor.Finished, Suited, Flushed;
    r := Compress(c, flush);
    if r.FinishStarted? || r.FinishDone? { c.finishing := true; }
    if r.BlockDone? {
      MarkFlush(c, flush);
    }
  }

  /** A bound for the bits that are yet to come out, whatever the level and the strategy. */
  ghost function Needed(c: Compressor): int
    reads c.d.Rep(), c.b.Rep()
  {
    c.b.w.Held() + 64 * (|c.d.given| + |c.d.input| - c.Block()) + 42
  }

  /** If the room was used up, there was not more of it than that. */
  lemma UsedUp(c: Compressor, spent: int, given: nat, out: nat, room: nat, needed: int, block: int, held: nat)
    requires c.availOut == 0 && c.Room() == out + room && c.Spent() <= spent + 42 && c.Block() <= given
    requires spent == 8 * out + held - 64 * block && needed == held + 64 * (given - block) + 42
    ensures 8 * room <= needed
  {
    hide BitWriter.Valid, ToBits, BytesToBits;
    assert |c.b.w.out + c.b.w.pending| >= |c.b.w.out|;
  }

  /** A call with nothing new: no input, and no stronger flush than the last. */
  ghost predicate Idle(c: Compressor, flush: Flush)
    reads c, c.d, c.b.w
  {
    c.b.w.pending == [] && c.d.input == [] && Rank(FlushValue(flush)) <= Rank(c.lastFlush) && !flush.Finish?
  }

  /** Input after the end of the stream, with room for what is still pending. */
  ghost predicate Late(c: Compressor)
    reads c, c.d, c.b.w
  {
    c.finishing && c.d.input != [] && c.availOut > |c.b.w.pending|
  }

  /** A call of `deflate`, as written. */
  method Answer(c: Compressor, flush: Flush) returns (ret: Status)
    requires InOrder(c)
    modifies c, c.d.Rep(), c.b.Rep()
    ensures c.finishing ==> old(c.finishing) || flush.Finish?
    ensures c.Room() == old(c.Room()) && c.Spent() <= old(c.Spent()) + 42
    ensures InOrder(c) && c.d.given + c.d.input == old(c.d.given + c.d.input) && (old(c.finishing) ==> c.finishing)
    ensures ret.StreamEnd? ==> flush.Finish? && c.finishing && c.d.input == [] && c.b.w.pending == []
    ensures ret.StreamError? <==> old(c.finishing) && !flush.Finish?
    ensures flush.Finish? && ret.Ok? ==> c.availOut == 0
    ensures ret.BufError? <==> !ret.StreamError? && old(c.availOut == 0 || Idle(c, flush) || Late(c))
    ensures ret.Ok? && c.availOut > 0 ==> if flush.NoFlush? then c.d.input == [] else Flushed(c, flush)
    ensures ret.StreamError? || old(c.availOut == 0) ==> c.lastFlush == old(c.lastFlush)
    ensures !ret.StreamError? && old(c.availOut > 0) ==> c.lastFlush == if ret.Ok? && c.availOut == 0 then -1 else FlushValue(flush)
  {
    hide Flushed, BitWriter.Bits, Compressor.Spent, Compressor.Room, Dictionary.Valid, BlockWriter.Valid, Compressor.Sent, Compressor.Tells, Compressor.Going, Suited, Whole;
    if c.finishing && !flush.Finish? { return StreamError; }
    if c.availOut == 0 { return BufError; }
    var oldFlush := c.lastFlush;
    c.lastFlush := FlushValue(flush);
    if c.b.w.pending != [] {
      FlushOut(c);
      if c.availOut == 0 {
        c.lastFlush := -1;
        return Ok;
      }
    } else if c.d.input == [] && Rank(FlushValue(flush)) <= Rank(oldFlush) && !flush.Finish? {
      return BufError;
    }
    if c.finishing && c.d.input != [] { return BufError; }
    ret := Proceed(c, flush);
  }

  lemma BlockWithin(c: Compressor)
    requires InOrder(c)
    ensures 0 <= c.Block() <= |c.d.given|
  {
    hide ChainsIn, ReadyIn, Dictionary.Shape, BlockWriter.Valid, Means, Whole, Told, Suited;
  }

  lemma HeldIs(c: Compressor)
    ensures c.Spent() == 8 * |c.b.w.out| + c.b.w.Held() - 64 * c.Block()
  {
    hide ToBits, BytesToBits;
    assert |c.b.w.out + c.b.w.pending| == |c.b.w.out| + |c.b.w.pending|;
  }

  lemma RoomIs(c: Compressor)
    ensures c.Room() == |c.b.w.out| + c.availOut
  {
  }

  /**
   A call of `deflate`.  With eight bytes of room for each byte that is yet to be compressed some
   room is left over, and a call with `Z_FINISH` ends the stream.  A call that has room left
   over took all the input, and if it was a flush the decoder has all of it.
   */
  method Deflate(c: Compressor, flush: Flush) returns (ret: Status)
    requires InOrder(c)
    modifies c, c.d.Rep(), c.b.Rep()
    ensures c.Spent() <= old(c.Spent()) + 42 && (c.finishing ==> old(c.finishing) || flush.Finish?)
    ensures flush.Finish? && !(old(c.finishing) && old(c.d.input) != []) && 8 * old(c.availOut) > old(Needed(c)) ==> ret.StreamEnd?
    ensures 8 * old(c.availOut) > old(Needed(c)) ==> c.availOut > 0
    ensures InOrder(c) && c.d.given + c.d.input == old(c.d.given + c.d.input) && (old(c.finishing) ==> c.finishing)
    ensures ret.StreamEnd? ==> flush.Finish? && c.finishing && c.d.input == [] && c.b.w.pending == []
    ensures ret.StreamError? <==> old(c.finishing) && !flush.Finish?
    ensures flush.Finish? && ret.Ok? ==> c.availOut == 0
    ensures ret.BufError? <==> !ret.StreamError? && old(c.availOut == 0 || Idle(c, flush) || Late(c))
    ensures ret.Ok? && c.availOut > 0 ==> if flush.NoFlush? then c.d.input == [] else Flushed(c, flush)
    ensures ret.StreamError? || old(c.availOut == 0) ==> c.lastFlush == old(c.lastFlush)
    ensures !ret.StreamError? && old(c.availOut > 0) ==> c.lastFlush == if ret.Ok? && c.availOut == 0 then -1 else FlushValue(flush)
  {
    hide Flushed, Dictionary.Valid, BlockWriter.Valid, Compressor.Going, Compressor.Finished, Compressor.Spent, Compressor.Room, Suited, BitWriter.Bits, InOrder;
    BlockWithin(c);
    HeldIs(c);
    ghost var spent, out, room, needed, block, held := c.Spent(), |c.b.w.out|, c.availOut, Needed(c), c.Block(), c.b.w.Held();
    ghost var given := |c.d.given| + |c.d.input|;
    RoomIs(c);
    ret := Answer(c, flush);
    BlockWithin(c);
    assert |c.d.given| + |c.d.input| == given by { assert |c.d.given + c.d.input| == |c.d.given| + |c.d.input|; }
    if c.availOut == 0 { UsedUp(c, spent, given, out, room, needed, block, held); }
  }

  /** The part of `deflate` after its checks. */
  method Proceed(c: Compressor, flush: Flush) returns (ret: Status)
    requires InOrder(c) && (c.finishing ==> flush.Finish? && c.d.input == []) && c.b.w.pending == [] && c.availOut > 0
    modifies c, c.d.Rep(), c.b.Rep()
    ensures c.finishing ==> old(c.finishing) || flush.Finish?
    ensures c.Room() == old(c.Room()) && c.Spent() <= old(c.Spent()) + 42
    ensures InOrder(c) && c.d.given + c.d.input == old(c.d.given + c.d.input) && (old(c.finishing) ==> c.finishing)
    ensures ret.Ok? || ret.StreamEnd?
    ensures ret.StreamEnd? ==> flush.Finish? && c.finishing && c.d.input == [] && c.b.w.pending == []
    ensures flush.Finish? && ret.Ok? ==> c.availOut == 0
    ensures ret.Ok? && c.availOut > 0 ==> if flush.NoFlush? then c.d.input == [] else Flushed(c, flush)
    ensures c.lastFlush == if ret.Ok? && c.availOut == 0 then -1 else old(c.lastFlush)
  {
    hide Flushed, Compressor.Spent, Compressor.Room, Dictionary.Valid, BlockWriter.Valid, Compressor.Sent, Compressor.Tells, Compressor.Going, Suited, Whole;
    if c.d.input != [] || c.d.lookahead != 0 || (!flush.NoFlush? && !c.finishing) {
      var r := Work(c, flush);
      if r.NeedMore? || r.FinishStarted? {
        if c.availOut == 0 { c.lastFlush := -1; }
        return Ok;
      }
      if r.BlockDone? && c.availOut == 0 {
        c.lastFlush := -1;
        return Ok;
      }
    }
    return if flush.Finish? then StreamEnd else Ok;
  }

  // ------------------------------------------------------------ whole sessions

  /** A call: more input, room for output, and how to flush. */
  datatype Call = Call(input: seq<Byte>, room: nat, flush: Flush)

  /** All the input of the calls. */
  ghost function Supplied(calls: seq<Call>): seq<Byte> {
    if calls == [] then [] else Supplied(calls[..|calls| - 1]) + calls[|calls| - 1].input
  }

  lemma SuppliedMore(calls: seq<Call>, i: nat)
    requires i < |calls|
    ensures Supplied(calls[..i + 1]) == Supplied(calls[..i]) + calls[i].input
  {
    assert calls[..i + 1][..i] == calls[..i];
  }

  /** The last call is the first to finish, and has room for whatever the stream may come to. */
  ghost predicate Concludes(calls: seq<Call>) {
    var n := |calls| - 1;
    && n >= 0 && calls[n].flush.Finish? && (forall i | 0 <= i < n :: !calls[i].flush.Finish?)
    && 8 * calls[n].room > 64 * |Supplied(calls)| + 42 * |calls|
  }

  /** A flush for which the decoder can produce all the input. */
  predicate Delivers(flush: Flush) {
    flush.PartialFlush? || flush.SyncFlush? || flush.FullFlush?
  }

  /** No call finishes, and the last brings input and flushes it, with room enough. */
  ghost predicate Delivered(calls: seq<Call>) {
    var n := |calls| - 1;
    && n >= 0 && Delivers(calls[n].flush) && calls[n].input != [] && (forall i | 0 <= i < n :: !calls[i].flush.Finish?)
    && 8 * calls[n].room > 64 * |Supplied(calls)| + 42 * |calls|
  }

  lemma NeededIs(c: Compressor, n: nat)
    requires InOrder(c) && c.Spent() <= 42 * n
    ensures Needed(c) <= 64 * |c.d.given + c.d.input| + 42 * (n + 1)
  {
    hide InOrder, BitWriter.Bits, Compressor.Spent;
    BlockWithin(c);
    HeldIs(c);
  }

  /** One call of a session: what is left of the input comes before what is new. */
  method NextCall(c: Compressor, call: Call) returns (ret: Status)
    requires InOrder(c)
    modifies c, c.d.Rep(), c.b.Rep()
    ensures c.Spent() <= old(c.Spent()) + 42 && (c.finishing ==> old(c.finishing) || call.flush.Finish?)
    ensures call.flush.Finish? && !old(c.finishing) && 8 * call.room > old(Needed(c)) + 64 * |call.input| ==> ret.StreamEnd?
    ensures InOrder(c) && c.d.given + c.d.input == old(c.d.given + c.d.input) + call.input
    ensures ret.StreamEnd? ==> c.finishing && c.d.input == [] && c.b.w.pending == []
    ensures ret.Ok? && c.availOut > 0 && Delivers(call.flush) ==> Flushed(c, call.flush) && !c.finishing
    ensures Delivers(call.flush) && call.input != [] && !old(c.finishing) && 8 * call.room > old(Needed(c)) + 64 * |call.input|
      ==> ret.Ok? && c.availOut > 0
  {
    hide Flushed, Dictionary.Shape, Dictionary.Holds, Dictionary.Chains, Dictionary.Ready, BlockWriter.Valid, Compressor.Sent, Compressor.Tells, Whole;
    BlockWithin(c);
    assert c.d.given + (c.d.input + call.input) == c.d.given + c.d.input + call.input;
    c.d.input := c.d.input + call.input;
    c.availOut := call.room;
    ret := Deflate(c, call.flush);
  }

  /** After the first `n` calls. */
  ghost predicate InSession(c: Compressor, calls: seq<Call>, n: nat)
    reads c, c.d.Rep(), c.b.Rep()
  {
    && n <= |calls| && InOrder(c) && c.d.given + c.d.input == Supplied(calls[..n]) && c.Spent() <= 42 * n
    && (c.finishing ==> exists j :: 0 <= j < n && calls[j].flush.Finish?)
  }

  method SessionCall(c: Compressor, calls: seq<Call>, i: nat) returns (ended: bool, flushed: bool)
    requires i < |calls| && InSession(c, calls, i)
    modifies c, c.d.Rep(), c.b.Rep()
    ensures InSession(c, calls, i + 1) && (ended ==> c.finishing && c.d.input == [] && c.b.w.pending == [])
    ensures i + 1 == |calls| && Concludes(calls) ==> ended
    ensures flushed ==> Run(InflateStream.Start(c.b.w.out)).out == Supplied(calls[..i + 1])
    ensures i + 1 == |calls| && Delivered(calls) ==> flushed
    ensures flushed && calls[i].flush.FullFlush? ==> Flushed(c, FullFlush) && !c.finishing
  {
    hide InOrder, Compressor.Spent, Needed, Run, InflateStream.Start;
    NeededIs(c, i);
    SuppliedMore(calls, i);
    assert calls[..|calls|] == calls;
    var ret := NextCall(c, calls[i]);
    ended := ret.StreamEnd?;
    flushed := ret.Ok? && c.availOut > 0 && Delivers(calls[i].flush);
    assert flushed ==> c.d.given + c.d.input == c.d.given;
  }

  lemma SessionStarts(c: Compressor, calls: seq<Call>)
    requires InOrder(c) && c.d.given == [] && c.d.input == [] && c.b.w.Bits() == [] && c.Block() == 0 && !c.finishing
    ensures InSession(c, calls, 0) && (Concludes(calls) || Delivered(calls) ==> calls != [])
  {
    hide InOrder, BitWriter.Bits;
    assert c.d.given + c.d.input == [];
  }

  lemma SessionEnds(c: Compressor, calls: seq<Call>)
    requires InSession(c, calls, |calls|) && c.finishing && c.d.input == [] && c.b.w.pending == []
    ensures Whole(c.d.wSize, BytesToBits(c.b.w.out), Supplied(calls))
  {
    hide InOrder, Whole, BytesToBits, Compressor.Spent;
    assert calls[..|calls|] == calls;
    AllOut(c);
  }

  /** All the calls of a session. */
  method Session(c: Compressor, calls: seq<Call>) returns (ended: bool, flushed: bool)
    requires InSession(c, calls, 0) && (Concludes(calls) || Delivered(calls) ==> calls != [])
    modifies c, c.d.Rep(), c.b.Rep()
    ensures InSession(c, calls, |calls|) && (ended ==> c.finishing && c.d.input == [] && c.b.w.pending == [])
    ensures (Concludes(calls) ==> ended) && (Delivered(calls) ==> flushed)
    ensures flushed ==> Run(InflateStream.Start(c.b.w.out)).out == Supplied(calls)
    ensures flushed && LastIsFull(calls) ==> Flushed(c, FullFlush) && !c.finishing
  {
    hide Flushed, Concludes, Delivered, InSession, Run, InflateStream.Start, Supplied;
    ended, flushed := false, false;
    for i := 0 to |calls|
      invariant InSession(c, calls, i)
      invariant ended ==> c.finishing && c.d.input == [] && c.b.w.pending == []
      invariant i == |calls| && Concludes(calls) ==> ended
      invariant i == |calls| && Delivered(calls) ==> flushed
      invariant flushed ==> Run(InflateStream.Start(c.b.w.out)).out == Supplied(calls[..i])
      invariant flushed ==> i > 0 && (calls[i - 1].flush.FullFlush? ==> Flushed(c, FullFlush) && !c.finishing)
    {
      ended, flushed := SessionCall(c, calls, i);
    }
    assert calls[..|calls|] == calls;
  }

  predicate LastIsFull(calls: seq<Call>) {
    calls != [] && calls[|calls| - 1].flush.FullFlush?
  }

  /**
   After a full flush nothing is left of what came before: with the output so far taken away, the
   compressor is in order as one that was given nothing yet.
   */
  method Restart(c: Compressor) returns (taken: seq<Byte>)
    requires InOrder(c) && Flushed(c, FullFlush) && !c.finishing
    modifies c.b.w`out, c.d`given, c.d`base
    ensures taken == old(c.b.w.out)
    ensures InOrder(c) && c.d.given == [] && c.d.input == [] && c.b.w.Bits() == [] && c.Block() == 0 && !c.finishing
  {
    hide HoldsIn, ChainsIn, ReadyIn, Dictionary.Shape, BlockWriter.Shape, BlockWriter.Tallied, BitWriter.Bits, Pow2, Means, Told, Repeats,
      Run, InflateStream.Start, SyncSearch.EndsWith;
    NothingAhead(c);
    ToldNothing(c.d.wSize, c.d.given, c.Block(), Reach(c));
    taken := c.b.w.out;
    c.b.w.out := [];
    c.d.given, c.d.base := [], 0;
    NothingHeld(c.d.window[..]);
    NothingSent(c.b.w);
    MeansNothing(c.d.wSize);
    ToldNone(c.d.wSize, [], 0);
    assert c.d.given[..0] == [];
  }

  lemma NothingAhead(c: Compressor)
    requires c.d.Valid() && c.d.strstart == c.d.lookahead == 0 && c.Block() == |c.d.given|
    ensures c.d.blockStart == 0 && c.d.Pos() == |c.d.given|
  {
    hide ChainsIn, Dictionary.Shape;
  }

  lemma NothingHeld(win: seq<Byte>)
    ensures HoldsIn(win, 0, 0, [], 0, 0)
  {
    assert win[..0] == [];
  }

  lemma NothingSent(w: BitWriter)
    requires w.out == w.pending == [] && w.biValid == 0
    ensures w.Bits() == []
  {
    assert w.out + w.pending == [];
  }

  /**
   Random access: a session that ends with a full flush and has room left over, and then another.
   The output of each stands alone for its own input.
   */
  method DeflateApart(level: nat, windowBits: nat, memLevel: nat, strategy: Strategy, calls: seq<Call>, more: seq<Call>)
    returns (first: seq<Byte>, flushed: bool, second: seq<Byte>, ended: bool)
    requires level <= 9 && 9 <= windowBits <= 15 && 1 <= memLevel <= 9 && LastIsFull(calls)
    ensures (Delivered(calls) ==> flushed) && (flushed && Concludes(more) ==> ended)
    ensures flushed ==> Run(InflateStream.Start(first)).out == Supplied(calls)
    ensures ended ==> flushed && Whole(Pow2(windowBits), BytesToBits(second), Supplied(more))
  {
    hide Compressor.Going, Compressor.Finished, Compressor.Spent, Suited, Whole, BytesToBits, Concludes, Delivered, InSession, InOrder, Run, InflateStream.Start, Dictionary.Valid, Dictionary.Ready, BlockWriter.Valid,
      Compressor.Sent, Compressor.Tells, Supplied;
    var c := new Compressor(level, windowBits, memLevel, strategy);
    FreshInOrder(c);
    SessionStarts(c, calls);
    var over;
    over, flushed := Session(c, calls);
    first, second, ended := c.b.w.out, [], false;
    if flushed {
      SessionOrder(c, calls);
      first := Restart(c);
      SessionStarts(c, more);
      var again;
      ended, again := Session(c, more);
      second := c.b.w.out;
      if ended { SessionEnds(c, more); }
    }
  }

  lemma SessionOrder(c: Compressor, calls: seq<Call>)
    requires InSession(c, calls, |calls|)
    ensures InOrder(c)
  {
  }

  /**
   Any sequence of calls for any level, window, memory level and strategy: if the
   last call reports the end of the stream, the decoder makes of the output all the input, and
   the last call does so if it is the one that is to finish and has room enough.  If the last call
   is a flush with room left over, the decoder makes of the output so far all the input so far.
   */
  method DeflateAll(level: nat, windowBits: nat, memLevel: nat, strategy: Strategy, calls: seq<Call>)
    returns (out: seq<Byte>, ended: bool, flushed: bool)
    requires level <= 9 && 9 <= windowBits <= 15 && 1 <= memLevel <= 9
    ensures Concludes(calls) ==> ended
    ensures ended ==> Whole(Pow2(windowBits), BytesToBits(out), Supplied(calls))
    ensures Delivered(calls) ==> flushed
    ensures flushed ==> Run(InflateStream.Start(out)).out == Supplied(calls)
  {
    hide Compressor.Going, Compressor.Finished, Compressor.Spent, Suited, Whole, BytesToBits, Concludes, Delivered, InSession, InOrder, Run, InflateStream.Start, Dictionary.Valid, Dictionary.Ready, BlockWriter.Valid,
      Compressor.Sent, Compressor.Tells, Supplied;
    var c := new Compressor(level, windowBits, memLevel, strategy);
    FreshInOrder(c);
    SessionStarts(c, calls);
    ended, flushed := Session(c, calls);
    out := c.b.w.out;
    if ended { SessionEnds(c, calls); }
  }

  lemma FreshInOrder(c: Compressor)
    requires c.Apart() && c.d.Valid() && c.d.Ready() && c.b.Valid() && c.Sent() && c.Tells(0) && c.d.Pos() == c.Block() == 0
    requires c.matchLength == c.prevLength == 2 && !c.matchAvailable && !c.finishing && c.b.tokens == []
    requires c.d.given == [] && c.d.at == {} && c.d.insert == 0 && c.b.w.biValid == 0
    ensures InOrder(c)
  {
    hide HoldsIn, ChainsIn, ReadyIn, Dictionary.Shape, BlockWriter.Shape, BitWriter.Valid, Packed, Means, Told, Repeats;
    Ahead(c.d.window[..], c.d.strstart, c.d.lookahead, c.d.given, c.d.base, c.d.blockStart);
  }

  /** At the end of the stream all that was sent is out. */
  lemma AllOut(c: Compressor)
    requires InOrder(c) && c.finishing && c.d.input == [] && c.b.w.pending == []
    ensures Whole(c.d.wSize, BytesToBits(c.b.w.out), c.d.given + c.d.input)
  {
    hide Whole, BytesToBits, ToBits, Dictionary.Valid, BlockWriter.Valid;
    assert c.b.w.out + [] == c.b.w.out;
    NoBitsMore(c.b.w.biBuf, BytesToBits(c.b.w.out));
    assert c.d.given + [] == c.d.given;
  }

  lemma WiderNotFar(c: Core, v: nat, w: nat)
    requires !InflateSpec.Far(c, Pow2(v)) && v <= w
    ensures !InflateSpec.Far(c, Pow2(w))
  {
    hide InflateSpec.Far, Pow2;
    Pow2Mono(v, w);
    if InflateSpec.Far(c, Pow2(w)) { FarMono(c, Pow2(v), Pow2(w)); }
  }

  /**
   The round trip: what `deflate` wrote, in any number of calls, `inflate` reads back, in any
   number of calls of its own, with the same window or a larger one.  It never reports an error, it produces nothing but the input,
   and when it is done, or when another call would bring nothing new, it has produced all of it.
   */
  method RoundTrip(level: nat, windowBits: nat, memLevel: nat, strategy: Strategy, calls: seq<Call>, decodeBits: nat, offers: seq<InflateStream.Offer>)
    returns (ended: bool, mode: InflateSteps.Phase, out: seq<Byte>, settled: bool, ret: InflateStream.Outcome)
    requires level <= 9 && 9 <= windowBits <= decodeBits <= 15 && 1 <= memLevel <= 9
    ensures Concludes(calls) ==> ended
    ensures ended ==> mode != InflateSteps.BAD && out <= Supplied(calls)
    ensures ended && settled ==> mode == InflateSteps.DONE
    ensures ended && offers != [] ==> ret != InflateStream.DATA_ERROR && (ret == InflateStream.STREAM_END <==> mode == InflateSteps.DONE)
    ensures ended && mode == InflateSteps.DONE ==> out == Supplied(calls)
  {
    hide Concludes, BytesToBits, Run, InflateSpec.Far, Pow2;
    var bytes, flushed;
    bytes, ended, flushed := DeflateAll(level, windowBits, memLevel, strategy, calls);
    var pos;
    if ended { WiderNotFar(InflateStream.Start(bytes), windowBits, decodeBits); }
    var idle;
    mode, out, pos, settled, ret, idle := InflateStream.InflateAll(decodeBits, bytes, offers);
  }
}
