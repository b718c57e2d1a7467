/**
 What a window of less than 32K changes.  The result of `inflate` depends on where its calls
 end exactly for the streams in which a match reaches back beyond the window: within a call all
 of its output is at hand, and after it only what the window keeps.
 */
module SmallWindow {
  import opened Bits
  import opened InflateSpec
  import opened BitInput
  import opened InflateSteps
  import opened RawInflate
  import opened InflateStream
  import opened InflateFixed
  import opened BitOutput
  import opened TreeOutput
  import opened BlockData
  import opened BlockMeaning
  import opened StaticTrees
  import opened BlockOutput
  import opened FastEntry

  // ------------------------------------------------------------ the machine

  /** At `d`, on its way from `c`, the machine copies from further back than `w`. */
  ghost predicate ReachesBack(c: Core, d: Core, w: nat) {
    Follows(c, d) && d.mode.Match? && w < d.mode.offset <= |d.out|
  }

  lemma {:induction false} BackIsFar(c: Core, d: Core, w: nat)
    requires ReachesBack(c, d, w)
    ensures Far(c, w)
    decreases |c.input|, Stage(c.mode), Pending(c.mode)
  {
    hide Step;
    if c != d { BackIsFar(Step(c).value, d, w); }
  }

  lemma {:induction false} FarReachesBack(c: Core, w: nat) returns (d: Core)
    requires Far(c, w)
    ensures ReachesBack(c, d, w)
    decreases |c.input|, Stage(c.mode), Pending(c.mode)
  {
    hide Step;
    if c.mode.Match? && w < c.mode.offset <= |c.out| {
      d := c;
    } else {
      d := FarReachesBack(Step(c).value, w);
    }
  }

  /** `Far` is that there is such a point. */
  lemma FarIs(c: Core, w: nat)
    ensures Far(c, w) <==> exists d :: ReachesBack(c, d, w)
  {
    hide Step, Far, Follows;
    if Far(c, w) { var d := FarReachesBack(c, w); }
    if d :| ReachesBack(c, d, w) { BackIsFar(c, d, w); }
  }

  /** Of two points on the way one comes after the other. */
  lemma {:induction false} SameWay(c: Core, d: Core, e: Core)
    requires Follows(c, d) && Follows(c, e)
    ensures Follows(d, e) || Follows(e, d)
    decreases |c.input|, Stage(c.mode), Pending(c.mode)
  {
    hide Step;
    if c != d && c != e { SameWay(Step(c).value, d, e); }
  }

  /** The next step writes a byte, or fails for want of history. */
  ghost predicate Writing(m: Mode) {
    m.Lit? || m.Match? || (m.Copy? && m.left > 0)
  }

  lemma WritesOrFails(c: Core)
    requires Writing(c.mode)
    ensures Step(c).Some? ==> |Step(c).value.out| == |c.out| + 1 || Step(c).value.mode == Bad
    ensures c.mode.Match? && 0 < c.mode.offset && c.mode.offset + c.floor <= |c.out| ==>
              Step(c).Some? && |Step(c).value.out| == |c.out| + 1
  {
    hide Value;
  }

  /** No other point with as much output and nothing to do but write is on the way. */
  lemma StopsAt(c: Core, d: Core, e: Core, w: nat)
    requires ReachesBack(c, d, w) && d.floor == 0 && Follows(c, e) && |e.out| <= |d.out|
    requires Step(e) == None || (|e.out| == |d.out| && Writing(e.mode))
    ensures e == d
  {
    hide Step;
    SameWay(c, d, e);
    if e != d {
      if Follows(e, d) {
        WritesOrFails(e);
        GrowsOn(Step(e).value, d);
        if Step(e).value.mode == Bad { AtRest(Step(e).value); }
      } else {
        WritesOrFails(d);
        GrowsOn(Step(d).value, e);
      }
    }
  }

  lemma {:induction false} KeepsFloor(c: Core, d: Core)
    requires Follows(c, d)
    ensures d.floor == c.floor
    decreases |c.input|, Stage(c.mode), Pending(c.mode)
  {
    hide Step;
    if c != d {
      StepKeepsFloor(c);
      KeepsFloor(Step(c).value, d);
    }
  }

  /** With the last `w` bytes at hand the machine fails there, with all of them it goes on. */
  lemma FailsThere(c: Core, d: Core, e: Core, w: nat)
    requires ReachesBack(c, d, w) && c.floor == 0
    requires Follows(d.(floor := Floor(|d.out|, w)), e.(floor := Floor(|d.out|, w)))
    requires Step(e) == None || |e.out| > |d.out|
    ensures e.mode == Bad && e.out == d.out && d.out < Run(c).out
  {
    hide Step, Run;
    var n := Floor(|d.out|, w);
    var b := d.(floor := n);
    FailsStep(b, w);
    AtRest(Step(b).value);
    WaitsAnyFloor(e, n);
    KeepsFloor(c, d);
    WritesOrFails(d);
    FollowsRun(c, d);
    OutputGrows(d);
    RunGoesOn(d);
  }

  lemma FailsStep(b: Core, w: nat)
    requires b.mode.Match? && w < b.mode.offset <= |b.out| && b.floor == Floor(|b.out|, w)
    ensures Step(b) == Some(b.(mode := Bad))
  {
  }

  lemma RunGoesOn(d: Core)
    requires Step(d).Some?
    ensures Step(d).value.out <= Run(d).out
  {
    hide Step;
    OutputGrows(Step(d).value);
  }

  // ------------------------------------------------------------ the calls

  /** What a call with all the input leaves of the machine. */
  lemma AfterCall(z: Inflater, x: seq<Byte>, room: nat, out: seq<Byte>)
    requires Step(Before(z, x, [])) == None || (|out| == room && WantsRoom(z))
    ensures Step(Before(z, x, [])) == None || (|out| == room && Writing(Before(z, x, []).mode))
    ensures Before(z, x, []).mode == Bad <==> z.mode == BAD
    ensures Before(z, x, []).mode == Done <==> z.mode == DONE
  {
    hide Step, StreamOf;
  }

  /** In one call the size of the window makes no difference: there is all the output that there is room for. */
  method InOneCall(wbits: nat, input: seq<Byte>, room: nat) returns (mode: Phase, out: seq<Byte>)
    requires 8 <= wbits <= 15
    ensures out <= Run(Start(input)).out && |out| == if room < |Run(Start(input)).out| then room else |Run(Start(input)).out|
    ensures room > |Run(Start(input)).out| ==>
              (mode == BAD <==> Run(Start(input)).mode == Bad) && (mode == DONE <==> Run(Start(input)).mode == Done)
  {
    hide Step, Follows, Run, Abs, BytesToBits, Idle, Pow2, Floor, WantsRoom, Writing;
    var z := new Inflater(wbits);
    FreshIdle(z);
    StartsAt(z, input);
    NoFloor(z.Size());
    assert input[0..] == input;
    var pos, ret;
    pos, out, ret := NextCall(z, input, 0, Offer(|input|, room, false));
    mode := z.mode;
    ghost var c, e := Start(input), Before(z, input[pos..], []);
    IdleFloor(z, input[pos..]);
    assert [] + out == out;
    AfterCall(z, input[pos..], room, out);
    FollowsRun(c, e.(floor := 0));
    OutputGrows(e.(floor := 0));
    WaitsAnyFloor(e, 0);
    RunOfNothing(e.(floor := 0));
  }

  lemma RunOfNothing(e: Core)
    ensures Step(e) == None ==> Run(e) == e
  {
    hide Step;
  }

  /** A first call that ends where the match begins. */
  method UpToMatch(wbits: nat, input: seq<Byte>, room: nat, ghost d: Core) returns (z: Inflater, pos: nat, out: seq<Byte>)
    requires 8 <= wbits <= 15 && ReachesBack(Start(input), d, Pow2(wbits)) && room == |d.out|
    ensures fresh(z) && fresh(z.b) && fresh(z.w) && fresh(z.w.buffer) && fresh(z.lens) && fresh(z.work) && fresh(z.codes)
    ensures Idle(z) && z.Size() == Pow2(wbits) && pos <= |input| && z.hist == out == d.out
    ensures Before(z, input[pos..], []) == d.(floor := Floor(|d.out|, Pow2(wbits)))
  {
    hide Step, Follows, Abs, BytesToBits, Idle, Pow2, Floor, WantsRoom, Writing;
    z := new Inflater(wbits);
    FreshIdle(z);
    StartsAt(z, input);
    NoFloor(z.Size());
    assert input[0..] == input;
    var ret;
    pos, out, ret := NextCall(z, input, 0, Offer(|input|, room, false));
    ghost var c, e := Start(input), Before(z, input[pos..], []);
    IdleFloor(z, input[pos..]);
    assert [] + out == out;
    AfterCall(z, input[pos..], room, out);
    WaitsAnyFloor(e, 0);
    KeepsFloor(c, d);
    StopsAt(c, d, e.(floor := 0), Pow2(wbits));
  }

  /**
   In two calls, the first with room for just what comes before the match, the stream is
   refused, although there is more to it.
   */
  method InTwoCalls(wbits: nat, input: seq<Byte>, room: nat, more: nat, ghost d: Core) returns (mode: Phase, out: seq<Byte>)
    requires 8 <= wbits <= 15 && ReachesBack(Start(input), d, Pow2(wbits)) && room == |d.out| && more > 0
    ensures mode == BAD && out == d.out && out < Run(Start(input)).out
  {
    hide Step, Follows, Run, Abs, BytesToBits, Idle, Pow2, Floor, WantsRoom, Writing, ReachesBack;
    var z, pos, head := UpToMatch(wbits, input, room, d);
    var pos', tail, ret := NextCall(z, input, pos, Offer(|input|, more, false));
    ghost var e := Before(z, input[pos'..], []);
    IdleFloor(z, input[pos'..]);
    AfterCall(z, input[pos'..], more, tail);
    FailsThere(Start(input), d, e, Pow2(wbits));
    mode, out := z.mode, head + tail;
  }

  // ------------------------------------------------------------ a stream that depends on it

  /** Three bytes from 257 bytes back, just beyond the smallest window. */
  function FarCopy(): Token {
    Token.Copy(257, 3)
  }

  lemma FarReady(k: Trees)
    requires Fixed(k.lcode, k.llen, FixedCodes().llens, 288) && Fixed(k.dcode, k.dlen, FixedCodes().dlens, 30)
    ensures TokenHasWords(k, FixedCodes(), FarCopy()) && TokenSendable(k, FarCopy())
    ensures AllHaveWords(k, FixedCodes(), Literals(200, 257)) && AllTokensSendable(k, Literals(200, 257))
  {
    hide HasWord, Sendable, FixedCodes, TokenHasWords, TokenSendable, AllHaveWords, AllTokensSendable, Literals, Fixed;
    LiteralsReady(k, 257);
    CopyHasWords(k);
    TokenWordsSendable(k, FixedCodes(), FarCopy());
  }

  lemma CopyHasWords(k: Trees)
    requires Fixed(k.lcode, k.llen, FixedCodes().llens, 288) && Fixed(k.dcode, k.dlen, FixedCodes().dlens, 30)
    ensures TokenHasWords(k, FixedCodes(), FarCopy())
  {
    hide HasWord, FixedCodes, LengthCode, DistCode, LengthExtra, DistExtra, ExtraLength, ExtraDist, Pow2;
    LengthAgrees(0);
    DistAgrees(256);
  }

  /** The stream: a block with the fixed codes. */
  ghost function FarBits(k: Trees, rest: seq<bool>): seq<bool>
    requires Fixed(k.lcode, k.llen, FixedCodes().llens, 288) && Fixed(k.dcode, k.dlen, FixedCodes().dlens, 30)
  {
    FarReady(k);
    ToBits(TypeField(1, true), 3) + (TokensBits(k, Literals(200, 257)) + (TokenBits(k, FarCopy()) + rest))
  }

  lemma FarBitsFar(k: Trees, rest: seq<bool>) returns (m: Core)
    requires Fixed(k.lcode, k.llen, FixedCodes().llens, 288) && Fixed(k.dcode, k.dlen, FixedCodes().dlens, 30)
    ensures ReachesBack(Core(Type, false, [], FarBits(k, rest), 0), m, 256) && |m.out| == 257
  {
    hide Step, Follows, Near, AllNear, Far, ToBits, TokensBits, TokenBits, HasWord, Sendable, AllHaveWords, AllTokensSendable, Usable, Fixed, FixedCodes,
      TokenHasWords, TokenSendable;
    FarReady(k);
    LiteralsReach(200, 257, []);
    FixedUsable();
    var more := TokenBits(k, FarCopy()) + rest;
    var c := Core(Type, false, [], FarBits(k, rest), 0);
    var d := Core(Len(FixedCodes()), true, [], TokensBits(k, Literals(200, 257)) + more, 0);
    TypeRead(c, 1, true, d.input);
    FollowsStep(c);
    LiteralsNear(200, 257);
    TokensRead(d, k, Literals(200, 257), more, 0);
    var e := d.(out := ExpandAll(Literals(200, 257), []), input := more);
    NearFollows(d, e, 0);
    FollowsTrans(c, d, e);
    CopyReached(e, k, FarCopy(), rest);
    m := e.(mode := InflateSpec.Match(FixedCodes(), 3, 257), input := rest);
    FollowsTrans(c, e, m);
  }

  /** 257 literals, after the bits `start`. */
  method SendLiterals(w: BitWriter, code: seq<nat>, len: seq<nat>, ghost k: Trees, ghost start: seq<bool>)
    requires w.Valid() && w.Bits() == start && Fixed(k.lcode, k.llen, FixedCodes().llens, 288) && k.lcode == code && k.llen == len
    modifies w`pending, w`biBuf, w`biValid
    ensures AllTokensSendable(k, Literals(200, 257)) && w.Valid() && w.Bits() == start + TokensBits(k, Literals(200, 257))
  {
    hide BitWriter.Bits, BitWriter.Valid, Fixed, FixedCodes, TokensBits, WordBits, Sendable, HasWord, AllTokensSendable, Literals;
    NoLiterals(k, start);
    for i := 0 to 257
      invariant w.Valid() && AllTokensSendable(k, Literals(200, i)) && w.Bits() == start + TokensBits(k, Literals(200, i))
    {
      LiteralsReady(k, i);
      SendCode(w, code, len, 200);
      OneMoreLiteral(k, start, i);
    }
  }

  /** A stream with a match beyond a window of 256 bytes. */
  method WriteFar() returns (bytes: seq<Byte>, ghost d: Core)
    ensures ReachesBack(Start(bytes), d, 256) && |d.out| == 257 && Far(Start(bytes), 256)
  {
    hide BitWriter.Bits, BitWriter.Valid, BlockWriter.Shape, BlockWriter.Tallied, Fixed, FixedCodes, TokensBits, TokenBits, Sendable, HasWord,
      AllTokensSendable, BytesToBits, TokenSendable, ToBits, Far, Literals, Padding, ReachesBack;
    var b := new BlockWriter(128);
    var k := b.statics;
    StaticsFixed(b);
    FarReady(k);
    b.w.SendBits(TypeField(1, true), 3);
    ghost var start, head, copy := ToBits(TypeField(1, true), 3), TokensBits(k, Literals(200, 257)), TokenBits(k, FarCopy());
    assert [] + start == start;
    SendLiterals(b.w, k.lcode, k.llen, k, start);
    b.SendToken(k, 257, 0);
    b.w.BiWindup();
    bytes := b.w.out + b.w.pending;
    ghost var pad := ToBits(0, Padding(|start + head + copy|));
    WholeBytes(b.w);
    Regroup(start, head, copy, pad);
    d := FarBitsFar(k, pad);
    BackIsFar(Start(bytes), d, 256);
  }

  lemma WholeBytes(w: BitWriter)
    requires w.biValid == 0
    ensures BytesToBits(w.out + w.pending) == w.Bits()
  {
    hide BytesToBits, ToBits;
    NoBitsMore(w.biBuf, BytesToBits(w.out + w.pending));
  }

  lemma StaticsFixed(b: BlockWriter)
    requires b.Valid()
    ensures Fixed(b.statics.lcode, b.statics.llen, FixedCodes().llens, 288) && Fixed(b.statics.dcode, b.statics.dlen, FixedCodes().dlens, 30)
  {
    hide Fixed, FixedCodes, BlockWriter.Tallied, BitWriter.Valid;
  }

  lemma Regroup(a: seq<bool>, b: seq<bool>, c: seq<bool>, d: seq<bool>)
    ensures a + b + c + d == a + (b + (c + d))
  {
  }

  /**
   The stream with the smallest window and room for 258 bytes: in one call they come, and in two
   calls, for 257 and for one, the stream is refused.
   */
  method Depends() returns (bytes: seq<Byte>, all: seq<Byte>, mode: Phase, part: seq<Byte>)
    ensures |all| == 258 && mode == BAD && |part| == 257 && part < all
  {
    hide Far, Step, Run, Follows, ReachesBack, Pow2;
    ghost var d;
    bytes, d := WriteFar();
    SmallestWindow();
    mode, part := InTwoCalls(8, bytes, 257, 1, d);
    var ignored;
    ignored, all := InOneCall(8, bytes, 258);
    assert part == Run(Start(bytes)).out[..257] == all[..257];
  }

  lemma SmallestWindow()
    ensures Pow2(8) == 256
  {
    assert Pow2(8) == 256;
  }
}
