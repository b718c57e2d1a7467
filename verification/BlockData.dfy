/**
 The data of a compressed block (trees.c, `compress_block`): literals and matches as code words
 and extra bits, and how the decoder gets them back.
 */
module BlockData {
  import opened Bits
  import opened CanonicalCode
  import opened InflateTable
  import opened InflateSpec
  import opened BitOutput
  import opened TreeOutput
  import opened BlockHeader

  const END_BLOCK := 256

  /** A byte as it is, or a copy of `length` bytes from `dist` back. */
  datatype Token = Literal(x: Byte) | Copy(dist: nat, length: nat)

  predicate GoodToken(t: Token) {
    t.Copy? ==> 1 <= t.dist <= 32768 && 3 <= t.length <= 258
  }

  // ------------------------------------------------------------ length and distance codes

  /** `_length_code`: the code for the match length `lc + 3`. */
  function LengthCode(lc: nat): nat {
    if lc == 255 then 28
    else if lc < 8 then lc
    else if lc < 16 then 8 + (lc - 8) / 2
    else if lc < 32 then 12 + (lc - 16) / 4
    else if lc < 64 then 16 + (lc - 32) / 8
    else if lc < 128 then 20 + (lc - 64) / 16
    else 24 + (lc - 128) / 32
  }

  /** `base_length`. */
  function BaseLength(c: nat): nat {
    match c
    case 0 => 0 case 1 => 1 case 2 => 2 case 3 => 3 case 4 => 4 case 5 => 5 case 6 => 6 case 7 => 7 case 8 => 8
    case 9 => 10 case 10 => 12 case 11 => 14 case 12 => 16 case 13 => 20 case 14 => 24 case 15 => 28 case 16 => 32
    case 17 => 40 case 18 => 48 case 19 => 56 case 20 => 64 case 21 => 80 case 22 => 96 case 23 => 112 case 24 => 128
    case 25 => 160 case 26 => 192 case 27 => 224 case _ => 0
  }

  /** `extra_lbits`. */
  function ExtraLength(c: nat): nat {
    if c < 8 || c >= 28 then 0 else c / 4 - 1
  }

  /** `base_dist`. */
  function BaseDist(c: nat): nat {
    match c
    case 0 => 0 case 1 => 1 case 2 => 2 case 3 => 3 case 4 => 4 case 5 => 6 case 6 => 8 case 7 => 12 case 8 => 16
    case 9 => 24 case 10 => 32 case 11 => 48 case 12 => 64 case 13 => 96 case 14 => 128 case 15 => 192 case 16 => 256
    case 17 => 384 case 18 => 512 case 19 => 768 case 20 => 1024 case 21 => 1536 case 22 => 2048 case 23 => 3072
    case 24 => 4096 case 25 => 6144 case 26 => 8192 case 27 => 12288 case 28 => 16384 case _ => 24576
  }

  /** `extra_dbits`. */
  function ExtraDist(c: nat): nat {
    if c < 4 then 0 else c / 2 - 1
  }

  /** The last of the codes up to `c` whose base is not above `d`. */
  function DistCodeTo(d: nat, c: nat): (r: nat)
    ensures r <= c && BaseDist(r) <= d && (r < c && c < 30 ==> d < BaseDist(r + 1))
  {
    if c == 0 || BaseDist(c) <= d then c else DistCodeTo(d, c - 1)
  }

  /** `d_code`: the table has the small distances one by one, the others by their high bits. */
  function DistCode(d: nat): nat {
    if d < 256 then DistCodeTo(d, 29) else DistCodeTo(d / 128 * 128, 29)
  }

  lemma HighBitsDecide(d: nat, c: nat)
    requires 256 <= d && c < 30
    ensures BaseDist(c) <= d <==> BaseDist(c) <= d / 128 * 128
  {
    if c >= 16 { assert BaseDist(c) % 128 == 0; }
  }

  lemma {:induction false} SameDistCode(d: nat, c: nat)
    requires 256 <= d && c < 30
    ensures DistCodeTo(d, c) == DistCodeTo(d / 128 * 128, c)
  {
    hide BaseDist;
    HighBitsDecide(d, c);
    if c > 0 { SameDistCode(d, c - 1); }
  }

  /** What the extra bits of a length carry. */
  function LengthExtra(lc: nat): int {
    var c := LengthCode(lc);
    if ExtraLength(c) == 0 then 0 else lc - BaseLength(c)
  }

  function DistExtra(d: nat): int {
    var c := DistCode(d);
    if ExtraDist(c) == 0 then 0 else d - BaseDist(c)
  }

  /** The decoder's tables for lengths agree with the encoder's. */
  lemma LengthAgrees(lc: nat)
    requires lc < 256
    ensures var c := LengthCode(lc);
            && c < 29 && LengthOp(c) == 16 + ExtraLength(c) && ExtraLength(c) <= 5
            && 0 <= LengthExtra(lc) < Pow2(ExtraLength(c)) && LengthBase(c) + LengthExtra(lc) == lc + 3
  {
    SmallPowers();
  }

  lemma DistRange(d: nat, c: nat)
    requires d < 32768 && c < 30 && BaseDist(c) <= d && (c < 29 ==> d < BaseDist(c + 1))
    ensures DistOp(c) == 16 + ExtraDist(c) && ExtraDist(c) <= 13 && DistBase(c) == BaseDist(c) + 1
    ensures d - BaseDist(c) < Pow2(ExtraDist(c))
  {
    SmallPowers();
    MiddlePowers();
  }

  lemma MiddlePowers()
    ensures Pow2(6) == 64 && Pow2(7) == 128 && Pow2(8) == 256 && Pow2(9) == 512
    ensures Pow2(10) == 1024 && Pow2(11) == 2048 && Pow2(12) == 4096 && Pow2(13) == 8192
  {
  }

  /** The decoder's tables for distances agree with the encoder's. */
  lemma DistAgrees(d: nat)
    requires d < 32768
    ensures var c := DistCode(d);
            && c < 30 && DistOp(c) == 16 + ExtraDist(c) && ExtraDist(c) <= 13
            && 0 <= DistExtra(d) < Pow2(ExtraDist(c)) && DistBase(c) + DistExtra(d) == d + 1
  {
    hide BaseDist, DistOp, DistBase, Pow2, ExtraDist;
    if d >= 256 { SameDistCode(d, 29); }
    var c := DistCode(d);
    DistRange(d, c);
    if ExtraDist(c) == 0 { assert d == BaseDist(c) by { PowZero(); } }
  }

  lemma PowZero()
    ensures Pow2(0) == 1
  {
  }

  // ------------------------------------------------------------ what tokens stand for

  /** `out` and then `n` bytes from `dist` back, one after the other. */
  function Extend(out: seq<Byte>, dist: nat, n: nat): (r: seq<Byte>)
    requires 1 <= dist <= |out|
    ensures |r| == |out| + n && out <= r
    decreases n
  {
    if n == 0 then out else Extend(out + [out[|out| - dist]], dist, n - 1)
  }

  predicate Reaches(t: Token, out: seq<Byte>) {
    GoodToken(t) && (t.Copy? ==> t.dist <= |out|)
  }

  function Expand(t: Token, out: seq<Byte>): (r: seq<Byte>)
    requires Reaches(t, out)
    ensures out <= r
  {
    if t.Literal? then out + [t.x] else Extend(out, t.dist, t.length)
  }

  /** Every token refers only to what is there before it. */
  predicate AllReach(ts: seq<Token>, out: seq<Byte>) {
    ts == [] || (Reaches(ts[0], out) && AllReach(ts[1..], Expand(ts[0], out)))
  }

  /** The output after all the tokens. */
  function ExpandAll(ts: seq<Token>, out: seq<Byte>): seq<Byte>
    requires AllReach(ts, out)
  {
    if ts == [] then out else ExpandAll(ts[1..], Expand(ts[0], out))
  }

  lemma {:induction false} ExpandMore(ts: seq<Token>, us: seq<Token>, out: seq<Byte>)
    requires AllReach(ts, out) && AllReach(us, ExpandAll(ts, out))
    ensures AllReach(ts + us, out) && ExpandAll(ts + us, out) == ExpandAll(us, ExpandAll(ts, out))
  {
    if ts == [] {
      assert ts + us == us;
    } else {
      assert (ts + us)[1..] == ts[1..] + us;
      ExpandMore(ts[1..], us, Expand(ts[0], out));
    }
  }

  // ------------------------------------------------------------ the bits of tokens

  /** The two trees with which a block is sent. */
  datatype Trees = Trees(lcode: seq<nat>, llen: seq<nat>, dcode: seq<nat>, dlen: seq<nat>)

  function LengthSymbol(t: Token): nat {
    if t.Literal? then t.x else if t.length < 3 then 0 else 257 + LengthCode(t.length - 3)
  }

  function DistSymbol(t: Token): nat {
    if t.Literal? || t.dist == 0 then 0 else DistCode(t.dist - 1)
  }

  /** The trees have words for all that a token needs. */
  ghost predicate TokenSendable(k: Trees, t: Token) {
    && GoodToken(t) && Sendable(k.lcode, k.llen, LengthSymbol(t))
    && (t.Copy? ==> Sendable(k.dcode, k.dlen, DistSymbol(t)))
  }

  /** Extra bits; none are sent for a negative value, which does not occur. */
  ghost function ExtraField(v: int, n: nat): seq<bool> {
    if v < 0 then [] else ToBits(v, n)
  }

  ghost function TokenBits(k: Trees, t: Token): seq<bool>
    requires TokenSendable(k, t)
  {
    if t.Literal? then WordBits(k.lcode, k.llen, t.x)
    else
      var lc, d := t.length - 3, t.dist - 1;
      WordBits(k.lcode, k.llen, 257 + LengthCode(lc)) + ExtraField(LengthExtra(lc), ExtraLength(LengthCode(lc)))
      + WordBits(k.dcode, k.dlen, DistCode(d)) + ExtraField(DistExtra(d), ExtraDist(DistCode(d)))
  }

  ghost predicate AllTokensSendable(k: Trees, ts: seq<Token>) {
    forall j | 0 <= j < |ts| :: TokenSendable(k, ts[j])
  }

  ghost function TokensBits(k: Trees, ts: seq<Token>): seq<bool>
    requires AllTokensSendable(k, ts)
  {
    if ts == [] then [] else TokensBits(k, ts[..|ts| - 1]) + TokenBits(k, ts[|ts| - 1])
  }

  lemma {:induction false} TokensBitsFront(k: Trees, ts: seq<Token>)
    requires AllTokensSendable(k, ts) && ts != []
    ensures TokensBits(k, ts) == TokenBits(k, ts[0]) + TokensBits(k, ts[1..])
  {
    hide TokenBits, TokenSendable;
    var n := |ts|;
    if n == 1 {
      assert ts[..0] == [] && ts[1..] == [];
      assert [] + TokenBits(k, ts[0]) == TokenBits(k, ts[0]) == TokenBits(k, ts[0]) + [];
    } else {
      var us := ts[..n - 1];
      TokensBitsFront(k, us);
      assert us[1..] == ts[1..][..n - 2];
      assert TokenBits(k, ts[0]) + TokensBits(k, us[1..]) + TokenBits(k, ts[n - 1])
          == TokenBits(k, ts[0]) + (TokensBits(k, us[1..]) + TokenBits(k, ts[n - 1]));
    }
  }

  // ------------------------------------------------------------ reading tokens back

  /** The tree has the word that a decoder with the lengths `lens` expects for `s`. */
  ghost predicate HasWord(code: seq<nat>, len: seq<nat>, lens: seq<nat>, s: nat) {
    && s < |code| && s < |len| && s < |lens| && len[s] == lens[s] && 0 < lens[s] <= MAXBITS
    && code[s] == Rev(lens[s], Code(lens, s))
  }

  ghost predicate TokenHasWords(k: Trees, codes: Codes, t: Token) {
    && GoodToken(t) && HasWord(k.lcode, k.llen, codes.llens, LengthSymbol(t))
    && (t.Copy? ==> HasWord(k.dcode, k.dlen, codes.dlens, DistSymbol(t)))
  }

  lemma WordSendable(code: seq<nat>, len: seq<nat>, lens: seq<nat>, s: nat)
    requires HasWord(code, len, lens, s)
    ensures Sendable(code, len, s) && WordBits(code, len, s) == ToBits(Rev(lens[s], Code(lens, s)), lens[s])
  {
    hide Rev, Code, ToBits;
  }

  lemma TokenWordsSendable(k: Trees, codes: Codes, t: Token)
    requires TokenHasWords(k, codes, t)
    ensures TokenSendable(k, t)
  {
    hide HasWord, Sendable, LengthSymbol, DistSymbol;
    WordSendable(k.lcode, k.llen, codes.llens, LengthSymbol(t));
    if t.Copy? { WordSendable(k.dcode, k.dlen, codes.dlens, DistSymbol(t)); }
  }

  ghost predicate UsableCodes(codes: Codes) {
    Usable(LENS, codes.llens) && Usable(DISTS, codes.dlens)
  }

  /** One step on a word of the literal/length code. */
  lemma LengthWordRead(c: Core, k: Trees, s: nat, rest: seq<bool>)
    requires c.mode.Len? && UsableCodes(c.mode.codes) && HasWord(k.lcode, k.llen, c.mode.codes.llens, s)
    requires c.input == WordBits(k.lcode, k.llen, s) + rest
    ensures s < |c.mode.codes.llens| && s < 288
    ensures Step(c) == Some(c.(mode := SymbolMode(c.mode.codes, SymbolEntry(LENS, s, c.mode.codes.llens[s])), input := rest))
  {
    hide Rev, Code, ToBits, Find, SymbolEntry, SymbolMode, Rejected, LengthOp, LengthBase, WordBits;
    WordSendable(k.lcode, k.llen, c.mode.codes.llens, s);
    WordFound(LENS, c.mode.codes.llens, s, rest);
    assert c.input[c.mode.codes.llens[s]..] == rest;
  }

  lemma DistWordRead(c: Core, k: Trees, s: nat, rest: seq<bool>)
    requires c.mode.Dist? && UsableCodes(c.mode.codes) && HasWord(k.dcode, k.dlen, c.mode.codes.dlens, s) && s < 30
    requires c.input == WordBits(k.dcode, k.dlen, s) + rest
    ensures Step(c) == Some(c.(mode := DistExt(c.mode.codes, c.mode.length, DistBase(s), DistOp(s) % 16), input := rest))
  {
    hide Rev, Code, ToBits, Find, SymbolEntry, Rejected, DistOp, DistBase, WordBits, BadOp;
    WordSendable(k.dcode, k.dlen, c.mode.codes.dlens, s);
    WordFound(DISTS, c.mode.codes.dlens, s, rest);
    DistEntry(s, c.mode.codes.dlens[s]);
    assert c.input[c.mode.codes.dlens[s]..] == rest;
  }

  /** A literal is read back. */
  lemma LiteralRead(c: Core, k: Trees, t: Token, rest: seq<bool>, w: nat)
    requires t.Literal? && c.mode.Len? && UsableCodes(c.mode.codes) && TokenHasWords(k, c.mode.codes, t)
    requires TokenSendable(k, t) && c.input == TokenBits(k, t) + rest
    ensures Near(c, c.(out := c.out + [t.x], input := rest), w)
  {
    hide HasWord, Near, StepLen, UsableCodes, WordBits, SymbolEntry;
    LengthWordRead(c, k, t.x, rest);
    LengthEntry(t.x, c.mode.codes.llens[t.x]);
    var d := Step(c).value;
    NearStep(c, w);
    NearStep(d, w);
    NearTrans(c, d, c.(out := c.out + [t.x], input := rest), w);
  }

  /** A match in the machine. */
  lemma {:induction false} MatchRun(c: Core, w: nat)
    requires c.mode.Match? && 1 <= c.mode.length && 1 <= c.mode.offset <= w && c.mode.offset + c.floor <= |c.out|
    ensures Near(c, c.(mode := Len(c.mode.codes), out := Extend(c.out, c.mode.offset, c.mode.length)), w)
    decreases c.mode.length
  {
    hide Near;
    var m := c.mode;
    var d := StepMatch(c);
    NearStep(c, w);
    if m.length > 1 {
      MatchRun(d, w);
      NearTrans(c, d, c.(mode := Len(m.codes), out := Extend(c.out, m.offset, m.length)), w);
    }
  }

  /** A length is read back up to its extra bits. */
  lemma LengthRead(c: Core, k: Trees, lc: nat, rest: seq<bool>)
    requires lc < 256 && c.mode.Len? && UsableCodes(c.mode.codes)
    requires HasWord(k.lcode, k.llen, c.mode.codes.llens, 257 + LengthCode(lc))
    requires c.input == WordBits(k.lcode, k.llen, 257 + LengthCode(lc)) + ExtraField(LengthExtra(lc), ExtraLength(LengthCode(lc))) + rest
    ensures Follows(c, c.(mode := Dist(c.mode.codes, lc + 3), input := rest))
  {
    hide Rev, Code, Follows, StepLen, UsableCodes, WordBits, SymbolEntry, LengthOp, LengthBase, LengthCode, ExtraLength, LengthExtra,
      Value, ToBits, EndOp, BadOp, Pow2;
    var n, v := LengthCode(lc), LengthExtra(lc);
    LengthAgrees(lc);
    var extra := ToBits(v, ExtraLength(n));
    var s := 257 + n;
    assert c.input == WordBits(k.lcode, k.llen, s) + (extra + rest);
    LengthWordRead(c, k, s, extra + rest);
    LengthEntry(s, c.mode.codes.llens[s]);
    var d := Step(c).value;
    FollowsStep(c);
    ValueBack(v, ExtraLength(n), rest);
    FollowsStep(d);
    FollowsTrans(c, d, c.(mode := Dist(c.mode.codes, lc + 3), input := rest));
  }

  /** A distance is read back, up to the copy. */
  lemma DistanceRead(c: Core, k: Trees, dist: nat, rest: seq<bool>)
    requires dist < 32768 && c.mode.Dist? && UsableCodes(c.mode.codes)
    requires HasWord(k.dcode, k.dlen, c.mode.codes.dlens, DistCode(dist))
    requires c.input == WordBits(k.dcode, k.dlen, DistCode(dist)) + ExtraField(DistExtra(dist), ExtraDist(DistCode(dist))) + rest
    ensures Follows(c, c.(mode := InflateSpec.Match(c.mode.codes, c.mode.length, dist + 1), input := rest))
  {
    hide Rev, Code, Follows, StepDist, UsableCodes, WordBits, DistOp, DistBase, DistCode, ExtraDist, DistExtra, Value, ToBits, Pow2;
    var n, v := DistCode(dist), DistExtra(dist);
    DistAgrees(dist);
    var extra := ToBits(v, ExtraDist(n));
    assert c.input == WordBits(k.dcode, k.dlen, n) + (extra + rest);
    DistWordRead(c, k, n, extra + rest);
    var d := Step(c).value;
    FollowsStep(c);
    ValueBack(v, ExtraDist(n), rest);
    FollowsStep(d);
    FollowsTrans(c, d, c.(mode := InflateSpec.Match(c.mode.codes, c.mode.length, dist + 1), input := rest));
  }

  /** A match is read up to the copy. */
  lemma CopyReached(c: Core, k: Trees, t: Token, rest: seq<bool>)
    requires t.Copy? && c.mode.Len? && UsableCodes(c.mode.codes) && TokenHasWords(k, c.mode.codes, t)
    requires TokenSendable(k, t) && c.input == TokenBits(k, t) + rest
    ensures Follows(c, c.(mode := InflateSpec.Match(c.mode.codes, t.length, t.dist), input := rest))
  {
    hide Rev, Code, Follows, Step, UsableCodes, WordBits, LengthCode, DistCode, ExtraLength, ExtraDist, LengthExtra, DistExtra,
      ExtraField, Pow2;
    var lc, dist, codes := t.length - 3, t.dist - 1, c.mode.codes;
    var second := WordBits(k.dcode, k.dlen, DistCode(dist)) + ExtraField(DistExtra(dist), ExtraDist(DistCode(dist))) + rest;
    assert c.input == WordBits(k.lcode, k.llen, 257 + LengthCode(lc)) + ExtraField(LengthExtra(lc), ExtraLength(LengthCode(lc))) + second;
    LengthRead(c, k, lc, second);
    var d := c.(mode := Dist(codes, t.length), input := second);
    DistanceRead(d, k, dist, rest);
    FollowsTrans(c, d, c.(mode := InflateSpec.Match(codes, t.length, t.dist), input := rest));
  }

  /** A match is read back. */
  lemma CopyRead(c: Core, k: Trees, t: Token, rest: seq<bool>, w: nat)
    requires t.Copy? && t.dist <= w && c.mode.Len? && c.floor == 0 && UsableCodes(c.mode.codes) && TokenHasWords(k, c.mode.codes, t)
    requires Reaches(t, c.out) && TokenSendable(k, t) && c.input == TokenBits(k, t) + rest
    ensures Near(c, c.(out := Extend(c.out, t.dist, t.length), input := rest), w)
  {
    hide Follows, Near, Step, UsableCodes, TokenBits, HasWord, Sendable, Extend;
    CopyReached(c, k, t, rest);
    var e := c.(mode := InflateSpec.Match(c.mode.codes, t.length, t.dist), input := rest);
    QuietNear(c, e, w);
    MatchRun(e, w);
    NearTrans(c, e, c.(out := Extend(c.out, t.dist, t.length), input := rest), w);
  }

  /** All the tokens of a block have words. */
  ghost predicate AllHaveWords(k: Trees, codes: Codes, ts: seq<Token>) {
    forall j | 0 <= j < |ts| :: TokenHasWords(k, codes, ts[j])
  }

  /** No match is from further back than `w`. */
  ghost predicate AllNear(ts: seq<Token>, w: nat) {
    forall j | 0 <= j < |ts| :: ts[j].Copy? ==> ts[j].dist <= w
  }

  lemma {:induction false} TokensRead(c: Core, k: Trees, ts: seq<Token>, rest: seq<bool>, w: nat)
    requires c.mode.Len? && c.floor == 0 && UsableCodes(c.mode.codes) && AllHaveWords(k, c.mode.codes, ts)
    requires AllReach(ts, c.out) && AllNear(ts, w) && AllTokensSendable(k, ts) && c.input == TokensBits(k, ts) + rest
    ensures Near(c, c.(out := ExpandAll(ts, c.out), input := rest), w)
    decreases |ts|
  {
    hide TokenHasWords, TokenSendable, Near, Step, UsableCodes, TokenBits, Extend;
    if ts == [] {
      assert [] + rest == rest;
      NearHere(c, w);
    } else {
      var t, us := ts[0], ts[1..];
      TokensBitsFront(k, ts);
      var more := TokensBits(k, us) + rest;
      assert c.input == TokenBits(k, t) + more;
      var d := c.(out := Expand(t, c.out), input := more);
      if t.Literal? { LiteralRead(c, k, t, more, w); } else { CopyRead(c, k, t, more, w); }
      TokensRead(d, k, us, rest, w);
      NearTrans(c, d, c.(out := ExpandAll(ts, c.out), input := rest), w);
    }
  }

  /** The data of a block and its end. */
  ghost function DataBits(k: Trees, ts: seq<Token>): seq<bool>
    requires AllTokensSendable(k, ts) && Sendable(k.lcode, k.llen, END_BLOCK)
  {
    TokensBits(k, ts) + WordBits(k.lcode, k.llen, END_BLOCK)
  }

  /** The data of a block are read back, up to the next block. */
  lemma DataRead(c: Core, k: Trees, ts: seq<Token>, rest: seq<bool>, w: nat)
    requires c.mode.Len? && c.floor == 0 && UsableCodes(c.mode.codes) && AllHaveWords(k, c.mode.codes, ts)
    requires HasWord(k.lcode, k.llen, c.mode.codes.llens, END_BLOCK) && Sendable(k.lcode, k.llen, END_BLOCK)
    requires AllReach(ts, c.out) && AllNear(ts, w) && AllTokensSendable(k, ts) && c.input == DataBits(k, ts) + rest
    ensures Near(c, c.(mode := Type, out := ExpandAll(ts, c.out), input := rest), w)
  {
    hide AllHaveWords, AllTokensSendable, Near, AllNear, Step, UsableCodes, Rev, Code, Pow2, WordBits, SymbolEntry, TokensBits, AllReach, ExpandAll;
    var end := WordBits(k.lcode, k.llen, END_BLOCK) + rest;
    assert c.input == TokensBits(k, ts) + end;
    TokensRead(c, k, ts, end, w);
    var d := c.(out := ExpandAll(ts, c.out), input := end);
    LengthWordRead(d, k, END_BLOCK, rest);
    LengthEntry(END_BLOCK, c.mode.codes.llens[END_BLOCK]);
    NearStep(d, w);
    NearTrans(c, d, c.(mode := Type, out := ExpandAll(ts, c.out), input := rest), w);
  }
}
