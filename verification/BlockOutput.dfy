/**
 The block writer of `deflate` (trees.c): tallying symbols, building the trees of a block,
 choosing how to send it, and sending it.
 */
module BlockOutput {
  import opened Bits
  import opened Sums
  import opened CanonicalCode
  import opened BitLengths
  import opened BuildTree
  import opened InflateTable
  import opened InflateSpec
  import opened BitOutput
  import opened CodeLengths
  import opened TreeOutput
  import opened BlockHeader
  import opened BlockData
  import opened BlockTally
  import opened BlockMeaning
  import opened BlockTrees
  import opened StaticTrees
  import opened TableSpace
  import opened PendingRoom

  // ------------------------------------------------------------ the symbol buffer

  /** The symbol at place `j`: a distance in two bytes, then a byte or a length less three. */
  function TokenAt(buf: seq<Byte>, j: nat): Token
    requires 3 * j + 2 < |buf|
  {
    var low: nat, high: nat := buf[3 * j], buf[3 * j + 1];
    TokenOf(low + 256 * high, buf[3 * j + 2])
  }

  /** A symbol as `_tr_tally` is given it: a distance of zero is a literal. */
  function TokenOf(dist: nat, lc: Byte): Token {
    if dist == 0 then Literal(lc) else Token.Copy(dist, lc + 3)
  }

  ghost predicate Packed(buf: seq<Byte>, ts: seq<Token>) {
    3 * |ts| <= |buf| && forall j | 0 <= j < |ts| :: TokenAt(buf, j) == ts[j]
  }

  /** `buf` with three bytes at `at`. */
  function Put(buf: seq<Byte>, at: nat, a: Byte, b: Byte, c: Byte): (r: seq<Byte>)
    requires at + 2 < |buf|
    ensures |r| == |buf|
  {
    buf[at := a][at + 1 := b][at + 2 := c]
  }

  /** The three bytes of a symbol. */
  lemma PackedMore(buf: seq<Byte>, ts: seq<Token>, t: Token, a: Byte, b: Byte, c: Byte)
    requires Packed(buf, ts) && 3 * |ts| + 2 < |buf| && GoodToken(t)
    requires a + 256 * b == (if t.Copy? then t.dist else 0) && c == (if t.Copy? then t.length - 3 else t.x)
    ensures Packed(Put(buf, 3 * |ts|, a, b, c), ts + [t])
  {
    var buf' := Put(buf, 3 * |ts|, a, b, c);
    forall j | 0 <= j < |ts + [t]| ensures TokenAt(buf', j) == (ts + [t])[j] {
      if j < |ts| { assert TokenAt(buf, j) == ts[j]; }
    }
  }

  // ------------------------------------------------------------ what a block stands for

  /**
   The decoder makes of `bits` what the symbols stand for, and if the bytes are given as `buf`
   that is what they stand for.
   */
  ghost predicate Represents(start: nat, bits: seq<bool>, last: bool, ts: seq<Token>, buf: Option<seq<Byte>>) {
    forall before: seq<Byte>, w: nat | AllReach(ts, before) && AllNear(ts, w) && (buf.Some? ==> ExpandAll(ts, before) == before + buf.value) ::
      Means(w, start, bits, last, before, ExpandAll(ts, before))
  }

  lemma StaticRepresents(start: nat, k: Trees, ts: seq<Token>, last: bool, buf: Option<seq<Byte>>)
    requires ReadyToSend(k, FixedCodes(), ts)
    ensures Represents(start, StaticBits(k, ts, last), last, ts, buf)
  {
    hide Means, ReadyToSend, FixedCodes, StaticBits, AllReach, ExpandAll;
    assert AllTokensSendable(k, ts) && Sendable(k.lcode, k.llen, END_BLOCK) by { ReadyFacts(k, FixedCodes(), ts); }
    forall before: seq<Byte>, w: nat | AllReach(ts, before) && AllNear(ts, w) && (buf.Some? ==> ExpandAll(ts, before) == before + buf.value)
      ensures Means(w, start, StaticBits(k, ts, last), last, before, ExpandAll(ts, before))
    {
      StaticMeans(w, start, k, ts, last, before);
    }
  }

  lemma DynamicRepresents(start: nat, h: Header, code: seq<nat>, len: seq<nat>, k: Trees, ts: seq<Token>, last: bool, buf: Option<seq<Byte>>)
    requires HeaderReady(h, code, len) && ReadyToSend(k, Codes(h.llens, h.dlens), ts)
    ensures h.Valid() && AllSendable(code, len, h.Runs()) && AllTokensSendable(k, ts) && Sendable(k.lcode, k.llen, END_BLOCK)
    ensures Represents(start, DynamicBits(h, code, len, k, ts, last), last, ts, buf)
  {
    hide Means, ReadyToSend, DynamicBits, HeaderReady, AllReach, ExpandAll;
    HeaderFacts(h, code, len);
    ReadyFacts(k, Codes(h.llens, h.dlens), ts);
    forall before: seq<Byte>, w: nat | AllReach(ts, before) && AllNear(ts, w) && (buf.Some? ==> ExpandAll(ts, before) == before + buf.value)
      ensures Means(w, start, DynamicBits(h, code, len, k, ts, last), last, before, ExpandAll(ts, before))
    {
      DynamicMeans(w, start, h, code, len, k, ts, last, before);
    }
  }

  lemma StoredRepresents(start: nat, buf: seq<Byte>, last: bool, ts: seq<Token>)
    requires |buf| < 65536
    ensures Represents(start, StoredBits(start, buf, last), last, ts, Some(buf))
  {
    hide Means, StoredBits, AllReach, ExpandAll;
    forall before: seq<Byte>, w: nat | AllReach(ts, before) && AllNear(ts, w) && ExpandAll(ts, before) == before + buf
      ensures Means(w, start, StoredBits(start, buf, last), last, before, ExpandAll(ts, before))
    {
      StoredMeans(w, start, buf, last, before);
    }
  }

  function InBytes(bits: nat): nat {
    (bits + 7) / 8
  }

  /** A block with the fixed codes, and with codes of its own. */
  datatype Encodings = Encodings(fixed: seq<bool>, own: seq<bool>) {
    /** Codes of their own only if that saves a byte; the bytes themselves if that saves more. */
    ghost function Chosen(start: nat, buf: Option<seq<Byte>>, storedLen: nat, last: bool, fixedOnly: bool): seq<bool> {
      var best := if fixedOnly || InBytes(|fixed|) <= InBytes(|own|) then fixed else own;
      if buf.Some? && storedLen + 4 <= InBytes(|best|) then StoredBits(start, buf.value, last) else best
    }

    /** The fixed codes are used. */
    ghost predicate FixedChosen(buf: Option<seq<Byte>>, storedLen: nat, fixedOnly: bool) {
      && (fixedOnly || InBytes(|fixed|) <= InBytes(|own|))
      && !(buf.Some? && storedLen + 4 <= InBytes(|fixed|))
    }
  }

  lemma ChosenBy(e: Encodings, start: nat, buf: Option<seq<Byte>>, storedLen: nat, last: bool, fixed: bool,
                 staticLen: nat, optLen: nat, staticLenb: nat, optLenb: nat)
    requires |e.fixed| == 3 + staticLen && |e.own| == 3 + optLen && staticLenb == (staticLen + 10) / 8
    requires optLenb == if staticLenb <= (optLen + 10) / 8 || fixed then staticLenb else (optLen + 10) / 8
    ensures e.Chosen(start, buf, storedLen, last, fixed)
            == if storedLen + 4 <= optLenb && buf.Some? then StoredBits(start, buf.value, last)
               else if staticLenb == optLenb then e.fixed else e.own
    ensures e.FixedChosen(buf, storedLen, fixed) <==> staticLenb == optLenb && !(storedLen + 4 <= optLenb && buf.Some?)
  {
    hide StoredBits;
  }

  /** No encoding that is chosen takes more than the fixed codes would, up to the padding of a stored block. */
  lemma ChosenFits(e: Encodings, start: nat, buf: Option<seq<Byte>>, storedLen: nat, last: bool, fixed: bool, n: nat)
    requires (buf.Some? ==> |buf.value| == storedLen) && |e.fixed| <= n
    ensures |e.Chosen(start, buf, storedLen, last, fixed)| <= n + 17
  {
    hide StoredBits;
    if buf.Some? { StoredBlockSize(start, buf.value, last); }
  }

  ghost predicate AllRepresent(start: nat, e: Encodings, bits: seq<bool>, last: bool, ts: seq<Token>, buf: Option<seq<Byte>>) {
    Represents(start, e.fixed, last, ts, buf) && Represents(start, e.own, last, ts, buf) && Represents(start, bits, last, ts, buf)
  }

  class BlockWriter {
    const t: TreeState
    const w: BitWriter
    const lfc: array<nat>
    const ldl: array<nat>
    const dfc: array<nat>
    const ddl: array<nat>
    const bfc: array<nat>
    const bdl: array<nat>
    const statics: Trees
    const symBuf: array<Byte>
    const litBufsize: nat
    const symEnd: nat
    var symNext: nat

    /** The symbols of the block so far. */
    ghost var tokens: seq<Token>

    /** What the methods may change. */
    ghost function Rep(): set<object> {
      {this, w, t, t.heap, t.depth, t.blCount, lfc, ldl, dfc, ddl, bfc, bdl, symBuf}
    }

    ghost predicate Shape() {
      && t.Apart(lfc, ldl) && t.Apart(dfc, ddl) && t.Apart(bfc, bdl)
      && lfc.Length == 573 && dfc.Length == 61 && bfc.Length == 39
      && lfc != dfc && lfc != bfc && dfc != bfc && ldl != ddl && ldl != bdl && ddl != bdl
      && lfc != ddl && lfc != bdl && dfc != ldl && dfc != bdl && bfc != ldl && bfc != ddl
      && symEnd <= symBuf.Length && symEnd == 3 * (litBufsize - 1) && 128 <= litBufsize <= 32768
      && Fixed(statics.lcode, statics.llen, FixedCodes().llens, 288) && Fixed(statics.dcode, statics.dlen, FixedCodes().dlens, 30)
    }

    ghost predicate Tallied()
      reads this, symBuf, lfc, dfc, bfc
    {
      && Packed(symBuf[..], tokens) && AllGood(tokens) && symNext == 3 * |tokens| <= symEnd
      && LengthsTallied(lfc[..], tokens) && DistsTallied(dfc[..], tokens)
      && BL_CODES <= bfc.Length && forall k | 0 <= k < BL_CODES :: bfc[k] == 0
    }

    ghost predicate Valid()
      reads Rep()
    {
      Shape() && w.Valid() && Tallied() && t.optLen == 0 && t.staticLen == 0
    }

    /** `_tr_init`, for a symbol buffer of `litBufsize` symbols. */
    constructor (litBufsize: nat)
      requires 128 <= litBufsize <= 32768
      ensures Valid() && tokens == [] && w.Bits() == [] && w.out == w.pending == [] && w.biValid == 0 && fresh(t) && fresh(w) && fresh(t.heap) && fresh(t.depth) && fresh(t.blCount)
      ensures fresh(lfc) && fresh(ldl) && fresh(dfc) && fresh(ddl) && fresh(bfc) && fresh(bdl) && fresh(symBuf)
      ensures this.litBufsize == litBufsize && symEnd == 3 * (litBufsize - 1)
    {
      hide Fixed, FixedCodes, LengthsTallied, DistsTallied, Packed, BytesToBits, ToBits, BitWriter.Valid, BitWriter.Bits;
      t := new TreeState();
      w := new BitWriter();
      lfc := new nat[573];
      ldl := new nat[573];
      dfc := new nat[61];
      ddl := new nat[61];
      bfc := new nat[39];
      bdl := new nat[39];
      var lc, ll := StaticLengthTree();
      var dc, dl := StaticDistTree();
      statics := Trees(lc[..], ll[..], dc[..], dl[..]);
      symBuf := new Byte[4 * litBufsize];
      this.litBufsize, symEnd := litBufsize, 3 * (litBufsize - 1);
      symNext, tokens := 0, [];
      new;
      InitBlock();
    }

    /** `init_block`. */
    method InitBlock()
      requires Shape()
      modifies this, t, lfc, dfc, bfc
      ensures Tallied() && tokens == [] && t.optLen == 0 && t.staticLen == 0
    {
      hide Fixed, TreeState.Apart;
      for n := 0 to L_CODES
        invariant forall k | 0 <= k < n :: lfc[k] == 0
      {
        lfc[n] := 0;
      }
      for n := 0 to D_CODES
        invariant forall k | 0 <= k < n :: dfc[k] == 0
        invariant forall k | 0 <= k < L_CODES :: lfc[k] == 0
      {
        dfc[n] := 0;
      }
      for n := 0 to BL_CODES
        invariant forall k | 0 <= k < n :: bfc[k] == 0
        invariant forall k | 0 <= k < D_CODES :: dfc[k] == 0
        invariant forall k | 0 <= k < L_CODES :: lfc[k] == 0
      {
        bfc[n] := 0;
      }
      lfc[END_BLOCK] := 1;
      t.optLen, t.staticLen := 0, 0;
      symNext, tokens := 0, [];
      NothingTallied(lfc[..], dfc[..]);
    }

    /** `_tr_tally`: note a literal, or a match of length `lc + 3`. */
    method Tally(dist: nat, lc: Byte) returns (full: bool)
      requires Shape() && Tallied() && symNext + 3 <= symEnd && dist <= 32768
      modifies `symNext, `tokens, symBuf, lfc, dfc
      ensures Tallied() && tokens == old(tokens) + [TokenOf(dist, lc)]
      ensures full <==> symNext == symEnd
    {
      hide LengthsTallied, DistsTallied, Packed, LengthSymbol, DistSymbol, LengthCode, DistCode, TreeState.Apart, Fixed;
      ghost var x := TokenOf(dist, lc);
      Store(x, dist, lc);
      TallySymbols(x, dist, lc);
      tokens := tokens + [x];
      full := symNext == symEnd;
    }

    method Store(ghost x: Token, dist: nat, lc: Byte)
      requires Packed(symBuf[..], tokens) && symNext == 3 * |tokens| && symNext + 3 <= symEnd <= symBuf.Length
      requires dist <= 32768 && GoodToken(x) && x == TokenOf(dist, lc)
      modifies `symNext, symBuf
      ensures symNext == old(symNext) + 3 && Packed(symBuf[..], tokens + [x])
    {
      hide Packed;
      ghost var b := symBuf[..];
      var low: Byte, high: Byte := dist % 256, dist / 256;
      symBuf[symNext] := low;
      symBuf[symNext + 1] := high;
      symBuf[symNext + 2] := lc;
      PackedMore(b, tokens, x, low, high, lc);
      assert symBuf[..] == Put(b, symNext, low, high, lc);
      symNext := symNext + 3;
    }

    method TallySymbols(ghost x: Token, dist: nat, lc: Byte)
      requires lfc != dfc && LengthsTallied(lfc[..], tokens) && DistsTallied(dfc[..], tokens) && GoodToken(x)
      requires x == TokenOf(dist, lc)
      modifies lfc, dfc
      ensures LengthsTallied(lfc[..], tokens + [x]) && DistsTallied(dfc[..], tokens + [x])
    {
      hide LengthsTallied, DistsTallied, LengthCode, DistCode;
      ghost var f, g := lfc[..], dfc[..];
      LengthTallyMore(f, tokens, x);
      DistTallyMore(g, tokens, x);
      if dist == 0 {
        lfc[lc] := lfc[lc] + 1;
        assert lfc[..] == f[lc := f[lc] + 1];
      } else {
        lfc[LengthCode(lc) + 257] := lfc[LengthCode(lc) + 257] + 1;
        assert lfc[..] == f[LengthSymbol(x) := f[LengthSymbol(x)] + 1];
        dfc[DistCode(dist - 1)] := dfc[DistCode(dist - 1)] + 1;
        assert dfc[..] == g[DistSymbol(x) := g[DistSymbol(x)] + 1];
      }
    }

    // ---------------------------------------------------------- sending the data

    /** A length code word and its extra bits. */
    method SendLength(k: Trees, lc: Byte)
      requires w.Valid() && Sendable(k.lcode, k.llen, 257 + LengthCode(lc))
      modifies w`pending, w`biBuf, w`biValid
      ensures w.Valid()
      ensures w.Bits() == old(w.Bits()) + WordBits(k.lcode, k.llen, 257 + LengthCode(lc))
                          + ExtraField(LengthExtra(lc), ExtraLength(LengthCode(lc)))
    {
      hide BitWriter.Bits, BitWriter.Valid, WordBits, LengthCode, ToBits, BytesToBits, BaseLength, Pow2;
      var code := LengthCode(lc);
      LengthAgrees(lc);
      SendCode(w, k.lcode, k.llen, code + 257);
      var extra := ExtraLength(code);
      if extra != 0 {
        w.SendBits(lc - BaseLength(code), extra);
      } else {
        NoBitsAt(LengthExtra(lc));
        Append(w.Bits(), [], []);
      }
    }

    /** A distance code word and its extra bits; `d` is the distance less one. */
    method SendDistance(k: Trees, d: nat)
      requires w.Valid() && d < 32768 && Sendable(k.dcode, k.dlen, DistCode(d))
      modifies w`pending, w`biBuf, w`biValid
      ensures w.Valid()
      ensures w.Bits() == old(w.Bits()) + WordBits(k.dcode, k.dlen, DistCode(d)) + ExtraField(DistExtra(d), ExtraDist(DistCode(d)))
    {
      hide BitWriter.Bits, BitWriter.Valid, WordBits, DistCode, ToBits, BytesToBits, BaseDist, Pow2;
      var code := DistCode(d);
      DistAgrees(d);
      SendCode(w, k.dcode, k.dlen, code);
      var extra := ExtraDist(code);
      if extra != 0 {
        w.SendBits(d - BaseDist(code), extra);
      } else {
        NoBitsAt(DistExtra(d));
        Append(w.Bits(), [], []);
      }
    }

    method SendToken(k: Trees, dist: nat, lc: Byte)
      requires w.Valid() && dist <= 32768 && TokenSendable(k, TokenOf(dist, lc))
      modifies w`pending, w`biBuf, w`biValid
      ensures w.Valid() && w.Bits() == old(w.Bits()) + TokenBits(k, TokenOf(dist, lc))
    {
      hide BitWriter.Bits, BitWriter.Valid, WordBits, LengthCode, DistCode, LengthExtra, DistExtra, ExtraLength, ExtraDist, ExtraField, Pow2;
      ghost var b0 := w.Bits();
      if dist == 0 {
        SendCode(w, k.lcode, k.llen, lc);
      } else {
        SendLength(k, lc);
        SendDistance(k, dist - 1);
        Regroup4(b0, WordBits(k.lcode, k.llen, 257 + LengthCode(lc)), ExtraField(LengthExtra(lc), ExtraLength(LengthCode(lc))),
                 WordBits(k.dcode, k.dlen, DistCode(dist - 1)), ExtraField(DistExtra(dist - 1), ExtraDist(DistCode(dist - 1))));
      }
    }

    /** `compress_block`; `sizes` records how much is pending after each symbol. */
    method CompressBlock(k: Trees) returns (ghost sizes: seq<nat>)
      requires w.Valid() && Packed(symBuf[..], tokens) && AllGood(tokens) && symNext == 3 * |tokens|
      requires AllTokensSendable(k, tokens) && Sendable(k.lcode, k.llen, END_BLOCK)
      modifies w`pending, w`biBuf, w`biValid
      ensures w.Valid() && w.Bits() == old(w.Bits()) + DataBits(k, tokens)
      ensures |sizes| == |tokens| && SizesFrom(k, tokens, old(w.Held()), sizes)
    {
      hide BitWriter.Bits, BitWriter.Valid, WordBits, TokenBits, TokenSendable, TokensBits, Pow2;
      ghost var b0, held := w.Bits(), w.Held();
      var sx := 0;
      ghost var j := 0;
      sizes := [];
      NoTokens(k, b0);
      while sx < symNext
        invariant sx == 3 * j && j <= |tokens| && w.Valid()
        invariant AllTokensSendable(k, tokens[..j]) && w.Bits() == b0 + TokensBits(k, tokens[..j])
        invariant |sizes| == j && SizesFrom(k, tokens, held, sizes)
      {
        assert TokenAt(symBuf[..], j) == tokens[j];
        var low: nat, high: nat := symBuf[sx], symBuf[sx + 1];
        var dist := low + 256 * high;
        var lc := symBuf[sx + 2];
        sx := sx + 3;
        assert GoodToken(tokens[j]);
        SendToken(k, dist, lc);
        MoreTokens(k, tokens, j, b0);
        SizesMore(k, tokens, held, sizes, |w.pending|);
        sizes := sizes + [|w.pending|];
        j := j + 1;
      }
      assert tokens[..j] == tokens;
      SendCode(w, k.lcode, k.llen, END_BLOCK);
      Append(b0, TokensBits(k, tokens), WordBits(k.lcode, k.llen, END_BLOCK));
    }

    // ---------------------------------------------------------- building the trees

    /** The literal/length tree. */
    method BuildLengths() returns (lmax: nat)
      requires Shape() && LengthsTallied(lfc[..], tokens) && DistsTallied(dfc[..], tokens) && AllGood(tokens) && |tokens| <= 32767
      modifies t, t.heap, t.depth, t.blCount, lfc, ldl
      ensures 256 <= lmax < L_CODES && Serving(lfc[..], ldl[..], ldl[..lmax + 1], old(lfc[..]), L_CODES)
      ensures t.optLen == old(t.optLen) + TotalBits(LengthDesc(), old(lfc[..]), ldl[..], L_CODES)
      ensures t.staticLen == old(t.staticLen) + TotalBits(LengthDesc(), old(lfc[..]), statics.llen, L_CODES)
    {
      hide Fixed, LengthsTallied, DistsTallied, Serving, FromSymbols, Built, TotalBits, TreeDesc.Valid, TreeDesc.XBits, LengthDesc, Sum,
        Occurring, StaticLens;
      DescsValid();
      ghost var f0 := lfc[..];
      TallySmall(f0, dfc[..], tokens);
      LengthElems();
      ghost var r, forced;
      lmax, r, forced := t.BuildTree(LengthDesc(), lfc, ldl);
      BuiltServes(LengthDesc(), f0, r, forced, lmax, ldl[..], lfc[..]);
      EndOccurs(f0, tokens);
      LeafBelow(L_CODES, f0, r, forced, lmax, END_BLOCK);
      StaticLengthTotal(f0, 573);
    }

    lemma StaticLengthTotal(f: seq<nat>, n: nat)
      requires Fixed(statics.lcode, statics.llen, FixedCodes().llens, 288) && n >= 288 && |f| >= L_CODES
      ensures LengthDesc().staticLens != [] && |statics.llen| >= L_CODES
      ensures TotalBits(LengthDesc(), f, StaticLens(LengthDesc(), n), L_CODES) == TotalBits(LengthDesc(), f, statics.llen, L_CODES)
    {
      hide TotalBits, Rev, Code;
      FixedSizes();
      forall k | 0 <= k < L_CODES ensures StaticLens(LengthDesc(), n)[k] == statics.llen[k] {
        assert HasWord(statics.lcode, statics.llen, FixedCodes().llens, k);
      }
      TotalAgree(LengthDesc(), f, f, StaticLens(LengthDesc(), n), statics.llen, L_CODES);
    }

    /** The distance tree. */
    method BuildDists(ghost fl: seq<nat>) returns (dmax: nat)
      requires Shape() && LengthsTallied(fl, tokens) && DistsTallied(dfc[..], tokens) && AllGood(tokens) && |tokens| <= 32767
      modifies t, t.heap, t.depth, t.blCount, dfc, ddl
      ensures 1 <= dmax < D_CODES && Serving(dfc[..], ddl[..], ddl[..dmax + 1], old(dfc[..]), D_CODES)
      ensures t.optLen == old(t.optLen) + TotalBits(DistDesc(), old(dfc[..]), ddl[..], D_CODES)
      ensures t.staticLen == old(t.staticLen) + TotalBits(DistDesc(), old(dfc[..]), statics.dlen, D_CODES)
    {
      hide Fixed, LengthsTallied, DistsTallied, Serving, FromSymbols, Built, TotalBits, TreeDesc.Valid, TreeDesc.XBits, DistDesc, Sum,
        Occurring, StaticLens;
      DescsValid();
      ghost var f0 := dfc[..];
      TallySmall(fl, f0, tokens);
      DistElems();
      ghost var r, forced;
      dmax, r, forced := t.BuildTree(DistDesc(), dfc, ddl);
      BuiltServes(DistDesc(), f0, r, forced, dmax, ddl[..], dfc[..]);
      StaticDistTotal(f0, 61);
    }

    lemma StaticDistTotal(f: seq<nat>, n: nat)
      requires Fixed(statics.dcode, statics.dlen, FixedCodes().dlens, 30) && n >= 32 && |f| >= D_CODES
      ensures DistDesc().staticLens != [] && |statics.dlen| >= D_CODES
      ensures TotalBits(DistDesc(), f, StaticLens(DistDesc(), n), D_CODES) == TotalBits(DistDesc(), f, statics.dlen, D_CODES)
    {
      hide TotalBits, Rev, Code;
      FixedSizes();
      forall k | 0 <= k < D_CODES ensures StaticLens(DistDesc(), n)[k] == statics.dlen[k] {
        assert HasWord(statics.dcode, statics.dlen, FixedCodes().dlens, k);
      }
      TotalAgree(DistDesc(), f, f, StaticLens(DistDesc(), n), statics.dlen, D_CODES);
    }

    /** The first part of `build_bl_tree`: the frequencies of the run-length symbols. */
    method ScanLengths(lmax: nat, dmax: nat, ghost xs: seq<Symbol>)
      requires Shape() && lmax < L_CODES && dmax < D_CODES && ValidLens(ldl[..lmax + 1]) && ValidLens(ddl[..dmax + 1])
      requires xs == Symbols(ldl[..lmax + 1], 0, -1, 0) + Symbols(ddl[..dmax + 1], 0, -1, 0)
      modifies ldl, ddl, bfc
      ensures ldl[..] == old(ldl[..])[lmax + 1 := GUARD] && ddl[..] == old(ddl[..])[dmax + 1 := GUARD]
      ensures Counted(old(bfc[..]), bfc[..], xs)
    {
      hide Counted, Symbols, ValidLens, Fixed;
      ghost var f0 := bfc[..];
      ScanTree(ldl, lmax, bfc);
      ghost var f1 := bfc[..];
      ScanTree(ddl, dmax, bfc);
      CountedMore(f0, f1, bfc[..], Symbols(old(ldl[..lmax + 1]), 0, -1, 0), Symbols(old(ddl[..dmax + 1]), 0, -1, 0));
    }

    /** The index in the sending order of the last code length code to send. */
    method LastToSend(ghost bl: seq<nat>) returns (last: nat)
      requires bdl.Length >= 19 && bl == bdl[..19] && exists k :: 0 <= k < 16 && bl[k] > 0
      ensures 3 <= last < 19 && forall i | last < i < 19 :: bl[Order(i)] == 0
    {
      hide Order;
      last := 18;
      ghost var some := SomeToSend(bl);
      while last >= 3
        invariant some <= last <= 18 && forall i | last < i < 19 :: bl[Order(i)] == 0
      {
        if bdl[Order(last)] != 0 { break; }
        last := last - 1;
      }
    }

    /** `build_bl_tree`. */
    method BuildBlTree(lmax: nat, dmax: nat) returns (maxBl: nat, ghost h: Header)
      requires Shape() && (forall k | 0 <= k < BL_CODES :: bfc[k] == 0)
      requires 256 <= lmax < L_CODES && ValidLens(ldl[..lmax + 1]) && ldl[256] > 0
      requires 1 <= dmax < D_CODES && ValidLens(ddl[..dmax + 1])
      modifies t, t.heap, t.depth, t.blCount, ldl, ddl, bfc, bdl
      ensures ldl[..] == old(ldl[..])[lmax + 1 := GUARD] && ddl[..] == old(ddl[..])[dmax + 1 := GUARD]
      ensures h == Header(old(ldl[..lmax + 1]), old(ddl[..dmax + 1]), bdl[..19], maxBl + 1) && h.Valid()
      ensures Canonical(bfc[..], bdl[..], h.bl) && AllSendable(bfc[..], bdl[..], h.Runs())
      ensures t.optLen == old(t.optLen) + |HeaderBits(h, bfc[..], bdl[..])| && t.staticLen == old(t.staticLen)
    {
      hide Counted, Symbols, ValidLens, Fixed, TotalBits, TreeDesc.Valid, TreeDesc.XBits, RepeatDesc, FromSymbols, Built, Sum,
        Occurring, AllStand, Canonical, AllSendable, Header.Valid, HeaderBits;
      ghost var llens, dlens, f0 := ldl[..lmax + 1], ddl[..dmax + 1], bfc[..];
      ghost var xs := Symbols(llens, 0, -1, 0) + Symbols(dlens, 0, -1, 0);
      ScanLengths(lmax, dmax, xs);
      ghost var f := bfc[..];
      DescsValid();
      RepeatElems();
      RunsFew(f0, f, llens, dlens, xs);
      ghost var m, r, forced;
      m, r, forced := t.BuildTree(RepeatDesc(), bfc, bdl);
      ghost var bl := bdl[..19];
      RunsReady(f0, f, r, forced, m, bdl[..], bfc[..], llens, dlens, xs);
      maxBl := LastToSend(bl);
      h := Header(llens, dlens, bl, maxBl + 1);
      HeaderValid(h, xs);
      CodedSendable(bfc[..], bdl[..], bl, xs);
      HeaderSize(h, bfc[..], bdl[..], f0, f);
      t.optLen := t.optLen + 3 * (maxBl + 1) + 5 + 5 + 4;
    }

    /** The trees of the block. */
    ghost function Dynamic(): Trees
      reads lfc, ldl, dfc, ddl
    {
      Trees(lfc[..], ldl[..], dfc[..], ddl[..])
    }

    /** The trees are built and the totals say what they will take. */
    ghost predicate Prepared(h: Header, lmax: nat, dmax: nat)
      reads this, t, lfc, ldl, dfc, ddl, bfc, bdl
    {
      && HeaderReady(h, bfc[..], bdl[..]) && bdl.Length >= 19 && h.bl == bdl[..19]
      && lmax + 1 < ldl.Length && h.llens == ldl[..lmax + 1] && ldl[lmax + 1] == GUARD
      && dmax + 1 < ddl.Length && h.dlens == ddl[..dmax + 1] && ddl[dmax + 1] == GUARD
      && ReadyToSend(Dynamic(), Codes(h.llens, h.dlens), tokens) && ReadyToSend(statics, FixedCodes(), tokens)
      && t.optLen == |HeaderBits(h, bfc[..], bdl[..])| + |DataBits(Dynamic(), tokens)|
      && t.staticLen == |DataBits(statics, tokens)|
    }

    /** Build all the trees of the block. */
    method BuildTrees() returns (lmax: nat, dmax: nat, maxBl: nat, ghost h: Header)
      requires Valid()
      modifies t, t.heap, t.depth, t.blCount, lfc, ldl, dfc, ddl, bfc, bdl
      ensures Prepared(h, lmax, dmax) && maxBl + 1 == h.blcodes
    {
      hide Fixed, LengthsTallied, DistsTallied, Packed, Serving, TotalBits, Canonical, AllSendable, HeaderBits, DataBits, ReadyToSend,
        BitWriter.Valid, Usable, ValidLens, Header.Valid;
      ghost var fl, fd := lfc[..], dfc[..];
      lmax := BuildLengths();
      dmax := BuildDists(fl);
      ghost var ll, dl := ldl[..], ddl[..];
      ServingFacts(lfc[..], ll, ll[..lmax + 1], fl, LENS, END_BLOCK, tokens);
      ServingUsable(dfc[..], dl, dl[..dmax + 1], fd, DISTS);
      maxBl, h := BuildBlTree(lmax, dmax);
      AlwaysBuilds(h);
      Guarded(lfc[..], ll, dfc[..], dl, lmax, dmax, fl, fd, tokens);
      StaticReady(tokens, fl, fd);
    }

    lemma StaticReady(ts: seq<Token>, fl: seq<nat>, fd: seq<nat>)
      requires Fixed(statics.lcode, statics.llen, FixedCodes().llens, 288) && Fixed(statics.dcode, statics.dlen, FixedCodes().dlens, 30)
      requires AllGood(ts) && LengthsTallied(fl, ts) && DistsTallied(fd, ts)
      ensures ReadyToSend(statics, FixedCodes(), ts) && L_CODES <= |statics.llen| && D_CODES <= |statics.dlen|
      ensures |DataBits(statics, ts)| == TotalBits(LengthDesc(), fl, statics.llen, L_CODES)
                                         + TotalBits(DistDesc(), fd, statics.dlen, D_CODES)
    {
      hide HasWord, Sendable, LengthSymbol, DistSymbol, FixedCodes, TotalBits, DataBits, LengthsTallied, DistsTallied;
      forall j | 0 <= j < |ts| ensures TokenHasWords(statics, FixedCodes(), ts[j]) && TokenSendable(statics, ts[j]) {
        SymbolBounds(ts[j]);
        TokenWordsSendable(statics, FixedCodes(), ts[j]);
      }
      WordSendable(statics.lcode, statics.llen, FixedCodes().llens, END_BLOCK);
      DataSize(statics, ts, fl, fd);
    }

    // ---------------------------------------------------------- sending a block

    /** A block with the fixed codes. */
    method SendStatic(last: bool) returns (ghost sizes: seq<nat>)
      requires |tokens| < litBufsize && 128 <= litBufsize
      requires w.Valid() && Packed(symBuf[..], tokens) && AllGood(tokens) && symNext == 3 * |tokens|
      requires ReadyToSend(statics, FixedCodes(), tokens)
      modifies w`pending, w`biBuf, w`biValid
      ensures w.Valid() && w.Bits() == old(w.Bits()) + StaticBits(statics, tokens, last)
      ensures |sizes| == |tokens| && (old(w.pending) == [] ==> Clear(sizes, litBufsize))
    {
      hide BitWriter.Bits, BitWriter.Valid, Packed, AllGood, AllTokensSendable, Sendable, DataBits, ToBits, FixedCodes, HasWord, AllHaveWords;
      ghost var b, before := w.Bits(), w.Held();
      w.SendBits(TypeField(1, last), 3);
      ghost var held := w.Held();
      sizes := CompressBlock(statics);
      if old(w.pending) == [] { FixedClear(statics, tokens, held, sizes, litBufsize); }
      Append(b, ToBits(TypeField(1, last), 3), DataBits(statics, tokens));
    }

    /** A block with the codes that were built for it. */
    method SendDynamic(last: bool, lmax: nat, dmax: nat, maxBl: nat, ghost h: Header)
      requires w.Valid() && Packed(symBuf[..], tokens) && AllGood(tokens) && symNext == 3 * |tokens|
      requires Prepared(h, lmax, dmax) && maxBl + 1 == h.blcodes
      modifies w`pending, w`biBuf, w`biValid
      ensures w.Valid() && w.Bits() == old(w.Bits()) + DynamicBits(h, bfc[..], bdl[..], Dynamic(), tokens, last)
    {
      hide BitWriter.Bits, BitWriter.Valid, Packed, AllGood, AllTokensSendable, Sendable, DataBits, HeaderBits, ToBits, FixedCodes, HasWord,
        AllHaveWords, Canonical, AllSendable, Builds, Header.Valid;
      ghost var b := w.Bits();
      w.SendBits(TypeField(2, last), 3);
      SendAllTrees(w, ldl, ddl, bfc[..], bdl[..], h, lmax + 1, dmax + 1, maxBl + 1);
      ghost var sizes := CompressBlock(Trees(lfc[..], ldl[..], dfc[..], ddl[..]));
      Append(b, ToBits(TypeField(2, last), 3), HeaderBits(h, bfc[..], bdl[..]));
      Append(b, ToBits(TypeField(2, last), 3) + HeaderBits(h, bfc[..], bdl[..]), DataBits(Dynamic(), tokens));
    }

    /** `_tr_stored_block`. */
    method StoredBlock(buf: seq<Byte>, last: bool)
      requires w.Valid() && |buf| < 65536
      modifies w`pending, w`biBuf, w`biValid
      ensures w.Valid() && w.biValid == 0 && w.Bits() == old(w.Bits()) + StoredBits(old(|w.Bits()|), buf, last)
      ensures buf == [] ==> |w.pending| >= 4 && w.pending[|w.pending| - 4..] == [0, 0, 255, 255]
    {
      hide BitWriter.Bits, BitWriter.Valid, ToBits, BytesToBits, Padding;
      ghost var b := w.Bits();
      w.SendBits(TypeField(0, last), 3);
      w.BiWindup();
      w.PutStored(buf);
      var p := Padding(|b| + 3);
      Regroup5(b, ToBits(TypeField(0, last), 3), ToBits(0, p), ToBits(|buf|, 16), ToBits(65535 - |buf| % 65536, 16), BytesToBits(buf));
    }

    /** `_tr_align`: an empty block with the fixed codes. */
    method Align()
      requires Shape() && w.Valid()
      modifies w`pending, w`biBuf, w`biValid
      ensures ReadyToSend(statics, FixedCodes(), [])
      ensures w.Valid() && w.biValid < 8 && w.Bits() == old(w.Bits()) + StaticBits(statics, [], false)
    {
      hide BitWriter.Bits, BitWriter.Valid, WordBits, ToBits, Fixed, ReadyToSend, HasWord, Sendable, FixedCodes;
      NothingReady(statics);
      ghost var b0 := w.Bits();
      w.SendBits(TypeField(1, false), 3);
      SendCode(w, statics.lcode, statics.llen, END_BLOCK);
      w.BiFlush();
      EmptyBits(b0, statics);
    }

    /** Choose the encoding that takes the fewest bytes, and send it. */
    method SendBest(buf: Option<seq<Byte>>, storedLen: nat, last: bool, fixed: bool, lmax: nat, dmax: nat, maxBl: nat, ghost h: Header)
      returns (ghost bits: seq<bool>, ghost e: Encodings, ghost sizes: seq<nat>)
      requires |tokens| < litBufsize && 128 <= litBufsize
      requires w.Valid() && Packed(symBuf[..], tokens) && AllGood(tokens) && symNext == 3 * |tokens|
      requires Prepared(h, lmax, dmax) && maxBl + 1 == h.blcodes
      requires buf.Some? ==> |buf.value| == storedLen < 65536
      modifies w`pending, w`biBuf, w`biValid
      ensures w.Valid() && w.Bits() == old(w.Bits()) + bits
      ensures AllRepresent(old(|w.Bits()|), e, bits, last, tokens, buf)
      ensures bits == e.Chosen(old(|w.Bits()|), buf, storedLen, last, fixed)
      ensures ReadyToSend(statics, FixedCodes(), tokens) && e.fixed == StaticBits(statics, tokens, last)
      ensures old(w.pending) == [] && e.FixedChosen(buf, storedLen, fixed) ==> |sizes| == |tokens| && Clear(sizes, litBufsize)
    {
      hide Clear, Encodings.FixedChosen, BitWriter.Bits, BitWriter.Valid, Packed, AllGood, HeaderReady, ReadyToSend, Represents, StaticBits, DynamicBits, StoredBits,
        FixedCodes, AllTokensSendable, Sendable, BlockWriter.Prepared, Encodings.Chosen, TypeField, BlockWriter.Dynamic;
      sizes := [];
      e := Sizes(last, lmax, dmax, h, buf, old(|w.Bits()|));
      var optLenb, staticLenb := (t.optLen + 3 + 7) / 8, (t.staticLen + 3 + 7) / 8;
      if staticLenb <= optLenb || fixed { optLenb := staticLenb; }
      ChosenBy(e, old(|w.Bits()|), buf, storedLen, last, fixed, t.staticLen, t.optLen, staticLenb, optLenb);
      if storedLen + 4 <= optLenb && buf.Some? {
        StoredRepresents(old(|w.Bits()|), buf.value, last, tokens);
        StoredBlock(buf.value, last);
        bits := StoredBits(old(|w.Bits()|), buf.value, last);
      } else if staticLenb == optLenb {
        sizes := SendStatic(last);
        bits := e.fixed;
      } else {
        SendDynamic(last, lmax, dmax, maxBl, h);
        bits := e.own;
      }
    }

    /** The totals are the sizes of what would be sent. */
    ghost method Sizes(last: bool, lmax: nat, dmax: nat, h: Header, buf: Option<seq<Byte>>, start: nat) returns (e: Encodings)
      requires Prepared(h, lmax, dmax)
      ensures 0 <= t.staticLen == |e.fixed| - 3 && 0 <= t.optLen == |e.own| - 3
      ensures Represents(start, e.fixed, last, tokens, buf) && Represents(start, e.own, last, tokens, buf)
      ensures ReadyToSend(statics, FixedCodes(), tokens) && e.fixed == StaticBits(statics, tokens, last)
      ensures HeaderReady(h, bfc[..], bdl[..]) && ReadyToSend(Dynamic(), Codes(h.llens, h.dlens), tokens)
      ensures e.own == DynamicBits(h, bfc[..], bdl[..], Dynamic(), tokens, last)
    {
      hide Represents, ToBits, DataBits, HeaderBits, AllTokensSendable, Sendable, HasWord, AllHaveWords, Builds, Canonical, AllSendable,
        FixedCodes, Header.Valid;
      e := Encodings(StaticBits(statics, tokens, last), DynamicBits(h, bfc[..], bdl[..], Dynamic(), tokens, last));
      StaticRepresents(start, statics, tokens, last, buf);
      DynamicRepresents(start, h, bfc[..], bdl[..], Dynamic(), tokens, last, buf);
    }

    /** `_tr_flush_block`: end the block, in the encoding that takes the fewest bytes. */
    method FlushBlock(buf: Option<seq<Byte>>, storedLen: nat, last: bool, level: nat, fixed: bool)
      returns (ghost bits: seq<bool>, ghost e: Encodings, ghost sizes: seq<nat>)
      requires Valid() && (buf.Some? ==> |buf.value| == storedLen < 65536) && (level == 0 ==> buf.Some?)
      modifies this, w`pending, w`biBuf, w`biValid, t, t.heap, t.depth, t.blCount, lfc, ldl, dfc, ddl, bfc, bdl
      ensures Valid() && tokens == [] && (last ==> w.biValid == 0)
      ensures w.Bits() == old(w.Bits()) + bits + if last then ToBits(0, Padding(old(|w.Bits()|) + |bits|)) else []
      ensures Represents(old(|w.Bits()|), bits, last, old(tokens), buf)
      ensures level == 0 ==> bits == StoredBits(old(|w.Bits()|), buf.value, last)
      ensures level > 0 ==> bits == e.Chosen(old(|w.Bits()|), buf, storedLen, last, fixed)
      ensures level > 0 ==> AllRepresent(old(|w.Bits()|), e, bits, last, old(tokens), buf)
      ensures level > 0 ==> ReadyToSend(statics, FixedCodes(), old(tokens)) && e.fixed == StaticBits(statics, old(tokens), last)
      ensures level > 0 && old(w.pending) == [] ==> |w.pending| <= 4 * litBufsize
      ensures level > 0 ==> |bits| <= 31 * |old(tokens)| + 27
      ensures level > 0 && old(w.pending) == [] && e.FixedChosen(buf, storedLen, fixed) ==> |sizes| == |old(tokens)| && Clear(sizes, litBufsize)
    {
      hide BitWriter.Bits, BitWriter.Valid, Packed, AllGood, ReadyToSend, Represents, StaticBits, StoredBits, LengthsTallied, DistsTallied,
        Fixed, FixedCodes, BlockWriter.Prepared, Encodings.Chosen, ToBits, Padding, AllTokensSendable, Sendable, TreeState.Apart;
      ghost var before := w.Held();
      if level > 0 {
        var lmax, dmax, maxBl, h := BuildTrees();
        bits, e, sizes := SendBest(buf, storedLen, last, fixed, lmax, dmax, maxBl, h);
      } else {
        StoredRepresents(old(|w.Bits()|), buf.value, last, tokens);
        StoredBlock(buf.value, last);
        bits, e, sizes := StoredBits(old(|w.Bits()|), buf.value, last), Encodings([], []), [];
      }
      if level > 0 {
        FixedBlockSize(statics, tokens, last);
        ChosenFits(e, old(|w.Bits()|), buf, storedLen, last, fixed, 31 * |tokens| + 10);
      }
      InitBlock();
      if last {
        w.BiWindup();
      } else {
        Append(w.Bits(), [], []);
      }
    }
  }

  lemma Regroup4(s: seq<bool>, a: seq<bool>, b: seq<bool>, c: seq<bool>, d: seq<bool>)
    ensures s + a + b + c + d == s + (a + b + c + d)
  {
  }

  lemma NoTokens(k: Trees, b: seq<bool>)
    ensures AllTokensSendable(k, []) && b == b + TokensBits(k, [])
  {
  }

  lemma MoreTokens(k: Trees, ts: seq<Token>, j: nat, b: seq<bool>)
    requires AllTokensSendable(k, ts) && j < |ts|
    ensures AllTokensSendable(k, ts[..j]) && AllTokensSendable(k, ts[..j + 1])
    ensures b + TokensBits(k, ts[..j]) + TokenBits(k, ts[j]) == b + TokensBits(k, ts[..j + 1])
  {
    hide TokenBits, TokenSendable;
    assert ts[..j + 1][..j] == ts[..j];
    Append(b, TokensBits(k, ts[..j]), TokenBits(k, ts[j]));
  }

  lemma LengthElems()
    ensures LengthDesc().elems == L_CODES && LengthDesc().maxLength == 15 && LengthDesc().staticLens != []
  {
    FixedSizes();
  }

  lemma DistElems()
    ensures DistDesc().elems == D_CODES && DistDesc().maxLength == 15 && DistDesc().staticLens != []
  {
    FixedSizes();
  }

  lemma RepeatElems()
    ensures RepeatDesc().elems == BL_CODES && RepeatDesc().maxLength == 7 && RepeatDesc().staticLens == []
  {
  }

  /** The lengths 0 to 15 are not among the first three that are sent. */
  lemma SomeToSend(bl: seq<nat>) returns (i: nat)
    requires |bl| == 19 && exists k :: 0 <= k < 16 && bl[k] > 0
    ensures 3 <= i < 19 && bl[Order(i)] > 0
  {
    hide Order, Place;
    var k :| 0 <= k < 16 && bl[k] > 0;
    OrderInverse(k);
    PlaceLate(k);
    i := Place(k);
  }

  lemma PlaceLate(k: nat)
    requires k < 16
    ensures Place(k) > 2
  {
  }

  /** There are so few runs that their frequencies are small. */
  lemma RunsFew(f0: seq<nat>, f: seq<nat>, llens: seq<nat>, dlens: seq<nat>, xs: seq<Symbol>)
    requires |llens| <= 286 && |dlens| <= 30 && ValidLens(llens) && ValidLens(dlens)
    requires xs == Symbols(llens, 0, -1, 0) + Symbols(dlens, 0, -1, 0)
    requires Counted(f0, f, xs) && BL_CODES <= |f| && forall k | 0 <= k < BL_CODES :: f0[k] == 0
    ensures Sum(Occurring(f, BL_CODES), f) + 2 < 0x1_0000
  {
    hide Symbols, Occurs, Times, SymbolIndex, Fits, AllStand, CodeLengths.Expand, Occurring;
    SymbolsFew(llens, 0, -1, 0);
    SymbolsFew(dlens, 0, -1, 0);
    BothExpand(llens, dlens);
    forall j | 0 <= j < |xs| ensures RunKeys(xs)[j] < BL_CODES {
      StandingFit(xs, [], j);
      FitIndex(xs[j]);
    }
    KeyCountsSum(RunKeys(xs), BL_CODES);
    OccurringSum(f, BL_CODES, |f|);
    forall k | 0 <= k < BL_CODES ensures f[k] == KeyCounts(RunKeys(xs), BL_CODES)[k] { OccursTimes(xs, k); }
    PlainAgree(f, KeyCounts(RunKeys(xs), BL_CODES), BL_CODES);
  }

  /** The tree of the runs can send them. */
  lemma RunsReady(f0: seq<nat>, f: seq<nat>, r: Run, forced: set<nat>, m: nat, len: seq<nat>, code: seq<nat>,
                  llens: seq<nat>, dlens: seq<nat>, xs: seq<Symbol>)
    requires ValidLens(llens) && ValidLens(dlens) && |llens| > 256 && llens[256] > 0
    requires xs == Symbols(llens, 0, -1, 0) + Symbols(dlens, 0, -1, 0)
    requires Counted(f0, f, xs) && BL_CODES <= |f| && forall k | 0 <= k < BL_CODES :: f0[k] == 0
    requires FromSymbols(BL_CODES, f, r, forced, m) && Built(RepeatDesc(), r, len, code)
    ensures |len| >= 19 && Usable(CODES, len[..19]) && ValidLens(len[..19]) && Canonical(code, len, len[..19]) && AllCoded(len[..19], xs)
    ensures forall i | 0 <= i < 19 :: len[..19][i] < 8
    ensures exists k :: 0 <= k < 16 && len[..19][k] > 0
  {
    hide Symbols, Counted, Built, FromSymbols, Canonical, Usable, AllStand, CodeLengths.Expand, Complete, AllCoded;
    RepeatElems();
    BuiltCanonical(RepeatDesc(), r, len, code);
    UsableValid(CODES, len[..19]);
    BothExpand(llens, dlens);
    BuiltServesAll(f, r, forced, m, len, code);
    ServingRuns(code, len, len[..19], f0, f, xs);
    SomeLength(llens, dlens, xs, len[..19]);
  }

  lemma BuiltServesAll(f: seq<nat>, r: Run, forced: set<nat>, m: nat, len: seq<nat>, code: seq<nat>)
    requires FromSymbols(BL_CODES, f, r, forced, m) && Built(RepeatDesc(), r, len, code)
    ensures |len| >= 19 && Serving(code, len, len[..19], f, BL_CODES)
  {
    hide Run.Valid, Rev, Code, Complete, Shallow, FromSymbols, Built;
    RepeatElems();
    BuiltCanonical(RepeatDesc(), r, len, code);
    assert BL_CODES <= |f| by { FromSize(BL_CODES, f, r, forced, m); }
    forall s | 0 <= s < 19 && f[s] > 0 ensures len[..19][s] > 0 {
      LeafBelow(BL_CODES, f, r, forced, m, s);
      BuiltLeaf(RepeatDesc(), r, len, code, s);
    }
    BuiltComplete(RepeatDesc(), r, len, code);
    CanonicalServing(code, len, len[..19], f);
  }

  lemma FromSize(elems: nat, f: seq<nat>, r: Run, forced: set<nat>, m: nat)
    requires FromSymbols(elems, f, r, forced, m)
    ensures elems <= |f|
  {
  }

  lemma BuiltLeaf(d: TreeDesc, r: Run, len: seq<nat>, code: seq<nat>, s: nat)
    requires Built(d, r, len, code) && s in r.leaves && s < d.elems
    ensures s < |len| && len[s] > 0
  {
    hide Run.Valid, Rev, Code, Complete, Shallow;
  }

  lemma BuiltComplete(d: TreeDesc, r: Run, len: seq<nat>, code: seq<nat>)
    requires Built(d, r, len, code) && d.elems == BL_CODES
    ensures |len| >= 19 && ValidLens(len[..19]) && Complete(len[..19])
  {
    hide Run.Valid, Rev, Code, Shallow;
  }

  /** At least one length is sent as such. */
  lemma SomeLength(llens: seq<nat>, dlens: seq<nat>, xs: seq<Symbol>, bl: seq<nat>)
    requires |llens| > 256 && llens[256] > 0 && AllStand(xs, []) && CodeLengths.Expand(xs, []) == llens + dlens
    requires |bl| == 19 && AllCoded(bl, xs)
    ensures exists k :: 0 <= k < 16 && bl[k] > 0
  {
    hide AllStand, CodeLengths.Expand;
    if j :| 0 <= j < |xs| && xs[j].Length? {
      assert Fits(xs[j]) && bl[SymbolIndex(xs[j])] > 0;
    } else {
      assert (llens + dlens)[256] == llens[256];
      OnlyZeros(xs, []);
    }
  }

  lemma HeaderValid(h: Header, xs: seq<Symbol>)
    requires 257 <= |h.llens| <= 286 && 1 <= |h.dlens| <= 30 && ValidLens(h.llens) && ValidLens(h.dlens)
    requires |h.bl| == 19 && 4 <= h.blcodes <= 19 && (forall i | 0 <= i < 19 :: h.bl[i] < 8)
    requires (forall i | h.blcodes <= i < 19 :: h.bl[Order(i)] == 0) && Usable(CODES, h.bl)
    requires xs == Symbols(h.llens, 0, -1, 0) + Symbols(h.dlens, 0, -1, 0) && AllCoded(h.bl, xs)
    ensures h.Valid() && h.Runs() == xs
  {
    hide Symbols, AllCoded, Usable, Order, ValidLens;
  }

  lemma ServingUsable(code: seq<nat>, len: seq<nat>, lens: seq<nat>, f: seq<nat>, kind: CodeType)
    requires |lens| <= MaxSymbols(kind) && exists n :: Serving(code, len, lens, f, n)
    ensures ValidLens(lens) && Usable(kind, lens)
  {
    hide HasWord;
    CompleteUsable(kind, lens);
  }

  lemma ServingFacts(code: seq<nat>, len: seq<nat>, lens: seq<nat>, f: seq<nat>, kind: CodeType, s: nat, ts: seq<Token>)
    requires |lens| <= MaxSymbols(kind) && s == END_BLOCK && Serving(code, len, lens, f, L_CODES) && LengthsTallied(f, ts)
    ensures ValidLens(lens) && Usable(kind, lens) && s < |lens| && s < |len| && len[s] > 0 && lens[s] > 0
  {
    hide LengthsTallied, Rev, Code, Complete, Usable;
    EndOccurs(f, ts);
    assert HasWord(code, len, lens, s);
    CompleteUsable(kind, lens);
  }

  /** The guards do not touch what is sent. */
  lemma Guarded(lc: seq<nat>, ll: seq<nat>, dc: seq<nat>, dl: seq<nat>, lmax: nat, dmax: nat, fl: seq<nat>, fd: seq<nat>, ts: seq<Token>)
    requires lmax + 1 < |ll| && dmax + 1 < |dl| && L_CODES <= |ll| && D_CODES <= |dl|
    requires Serving(lc, ll, ll[..lmax + 1], fl, L_CODES) && Serving(dc, dl, dl[..dmax + 1], fd, D_CODES)
    requires LengthsTallied(fl, ts) && DistsTallied(fd, ts) && AllGood(ts)
    ensures var k := Trees(lc, ll[lmax + 1 := GUARD], dc, dl[dmax + 1 := GUARD]);
            && ReadyToSend(k, Codes(ll[..lmax + 1], dl[..dmax + 1]), ts)
            && |DataBits(k, ts)| == TotalBits(LengthDesc(), fl, ll, L_CODES) + TotalBits(DistDesc(), fd, dl, D_CODES)
    ensures ll[lmax + 1 := GUARD][..lmax + 1] == ll[..lmax + 1] && dl[dmax + 1 := GUARD][..dmax + 1] == dl[..dmax + 1]
  {
    hide LengthsTallied, DistsTallied, TotalBits, DataBits, LengthDesc, DistDesc, Serving;
    var ll', dl' := ll[lmax + 1 := GUARD], dl[dmax + 1 := GUARD];
    var k := Trees(lc, ll', dc, dl');
    ServingGuard(lc, ll, ll[..lmax + 1], fl, L_CODES, GUARD);
    ServingGuard(dc, dl, dl[..dmax + 1], fd, D_CODES, GUARD);
    ServingTokens(k, Codes(ll[..lmax + 1], dl[..dmax + 1]), fl, fd, ts);
    DataSize(k, ts, fl, fd);
    ServingBelow(lc, ll, ll[..lmax + 1], fl, L_CODES);
    ServingBelow(dc, dl, dl[..dmax + 1], fd, D_CODES);
    LengthElems();
    DistElems();
    DescsValid();
    TotalAgree(LengthDesc(), fl, fl, ll, ll', L_CODES);
    TotalAgree(DistDesc(), fd, fd, dl, dl', D_CODES);
  }

  lemma ServingBelow(code: seq<nat>, len: seq<nat>, lens: seq<nat>, f: seq<nat>, n: nat)
    requires Serving(code, len, lens, f, n)
    ensures n <= |f| && forall s | 0 <= s < n && f[s] > 0 :: s < |lens|
  {
    hide Rev, Code, Complete;
    forall s | 0 <= s < n && f[s] > 0 ensures s < |lens| { assert HasWord(code, len, lens, s); }
  }

  lemma Regroup5(s: seq<bool>, a: seq<bool>, b: seq<bool>, c: seq<bool>, d: seq<bool>, e: seq<bool>)
    ensures s + a + b + c + d + e == s + (a + b + c + d + e)
  {
  }

  lemma AlwaysBuilds(h: Header)
    requires h.Valid() && Usable(LENS, h.llens) && Usable(DISTS, h.dlens)
    ensures Builds(LENS, h.llens, 9) && Builds(DISTS, h.dlens, 6)
  {
    hide Rejected, Oversize, ValidLens, AllCoded;
    RoomIsEnough(LENS, h.llens, 9);
    RoomIsEnough(DISTS, h.dlens, 6);
  }

  lemma NothingReady(k: Trees)
    requires Fixed(k.lcode, k.llen, FixedCodes().llens, 288)
    ensures ReadyToSend(k, FixedCodes(), []) && AllTokensSendable(k, []) && Sendable(k.lcode, k.llen, END_BLOCK)
  {
    hide HasWord, Sendable, FixedCodes;
    WordSendable(k.lcode, k.llen, FixedCodes().llens, END_BLOCK);
  }

  lemma EmptyBits(b: seq<bool>, k: Trees)
    requires AllTokensSendable(k, []) && Sendable(k.lcode, k.llen, END_BLOCK)
    ensures b + ToBits(TypeField(1, false), 3) + WordBits(k.lcode, k.llen, END_BLOCK) == b + StaticBits(k, [], false)
  {
    hide WordBits, ToBits, AllTokensSendable, Sendable;
    assert END_BLOCK < |k.lcode| && END_BLOCK < |k.llen| by { SendableIndex(k.lcode, k.llen, END_BLOCK); }
    var a, e := ToBits(TypeField(1, false), 3), WordBits(k.lcode, k.llen, END_BLOCK);
    assert TokensBits(k, []) + e == e;
    assert b + a + e == b + (a + e);
  }

  lemma SendableIndex(code: seq<nat>, len: seq<nat>, s: nat)
    requires Sendable(code, len, s)
    ensures s < |code| && s < |len|
  {
  }
}
