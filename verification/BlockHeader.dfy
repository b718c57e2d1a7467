/**
 The header of a dynamic block (trees.c, `send_all_trees`): what it sends is read back by the
 decoder as the codes of the block.
 */
module BlockHeader {
  import opened Bits
  import opened CanonicalCode
  import opened InflateTable
  import opened InflateSpec
  import opened BitOutput
  import opened CodeLengths
  import opened TreeOutput

  // ------------------------------------------------------------ reading code words

  /** `code` has the reversed canonical words of the symbols that have one. */
  ghost predicate Canonical(code: seq<nat>, len: seq<nat>, lens: seq<nat>) {
    && |lens| <= |code| && |lens| <= |len| && lens == len[..|lens|]
    && forall s | 0 <= s < |lens| && lens[s] > 0 :: code[s] == Rev(lens[s], Code(lens, s))
  }

  lemma CanonicalSendable(code: seq<nat>, len: seq<nat>, lens: seq<nat>, s: nat)
    requires Canonical(code, len, lens) && ValidLens(lens) && s < |lens| && lens[s] > 0
    ensures Sendable(code, len, s) && WordBits(code, len, s) == ToBits(Rev(lens[s], Code(lens, s)), lens[s])
  {
    hide Rev, Code;
    assert len[s] == lens[s];
  }

  /** A word that is sent is found. */
  lemma WordFound(kind: CodeType, lens: seq<nat>, s: nat, rest: seq<bool>)
    requires Usable(kind, lens) && s < |lens| && lens[s] > 0
    ensures Find(kind, lens, ToBits(Rev(lens[s], Code(lens, s)), lens[s]) + rest) == Some(SymbolEntry(kind, s, lens[s]))
  {
    hide Rev, Code, Low, Num, Rejected, SymbolEntry, ToBits;
    var n, r := lens[s], Rev(lens[s], Code(lens, s));
    var b := ToBits(r, n);
    NumTake(b + rest, n);
    assert (b + rest)[..n] == b;
    NumToBits(r, n);
    LowSmall(r, n);
    assert CodeAt(lens, s, b + rest);
    UsableFits(kind, lens);
    forall j: nat | CodeAt(lens, j, b + rest) ensures j == s { MatchUnique(lens, s, j, Num(b + rest)); }
  }

  lemma ValueBack(v: nat, n: nat, rest: seq<bool>)
    requires v < Pow2(n)
    ensures Value(ToBits(v, n) + rest, n) == v && (ToBits(v, n) + rest)[n..] == rest
  {
    hide Low;
    assert (ToBits(v, n) + rest)[..n] == ToBits(v, n);
    NumToBits(v, n);
    LowSmall(v, n);
  }

  lemma CodesEntry(s: nat, b: nat)
    requires s < 19
    ensures SymbolEntry(CODES, s, b) == Entry(0, b, s)
  {
  }

  // ------------------------------------------------------------ reading the lengths

  /** What stands in front of the stream when a symbol was sent. */
  lemma SymbolFront(clens: seq<nat>, x: Symbol, code: seq<nat>, len: seq<nat>, rest: seq<bool>)
    requires |clens| == 19 && Usable(CODES, clens) && Canonical(code, len, clens)
    requires Fits(x) && SymbolIndex(x) < 19 && clens[SymbolIndex(x)] > 0 && Sendable(code, len, SymbolIndex(x))
    ensures var s, n := SymbolBits(code, len, x) + rest, clens[SymbolIndex(x)];
            && Find(CODES, clens, s) == Some(Entry(0, n, SymbolIndex(x))) && n + ExtraBits(x) <= |s|
            && ExtraValue(x) == Value(s[n..], ExtraBits(x)) && s[n + ExtraBits(x)..] == rest
  {
    hide Find, SymbolEntry, Canonical, WordBits, Usable, ToBits, Value, Pow2;
    var k := SymbolIndex(x);
    var n, word, extra := clens[k], WordBits(code, len, k), ToBits(ExtraValue(x), ExtraBits(x));
    UsableValid(CODES, clens);
    CanonicalSendable(code, len, clens, k);
    var s := SymbolBits(code, len, x) + rest;
    assert s == word + (extra + rest);
    WordFound(CODES, clens, k, extra + rest);
    CodesEntry(k, n);
    assert s[n..] == extra + rest;
    ExtraFits(x);
    ValueBack(ExtraValue(x), ExtraBits(x), rest);
    assert s[n + ExtraBits(x)..] == (extra + rest)[ExtraBits(x)..];
  }

  /** One symbol of the code length code is read back. */
  lemma SymbolRead(c: Core, x: Symbol, code: seq<nat>, len: seq<nat>, rest: seq<bool>)
    requires c.mode.CodeLens? && |c.mode.clens| == 19 && Usable(CODES, c.mode.clens) && Canonical(code, len, c.mode.clens)
    requires Stands(x, c.mode.got) && SymbolIndex(x) < 19 && c.mode.clens[SymbolIndex(x)] > 0
    requires |c.mode.got| + |Adds(x, c.mode.got)| <= c.mode.nlen + c.mode.ndist
    requires Sendable(code, len, SymbolIndex(x)) && c.input == SymbolBits(code, len, x) + rest
    ensures var m := c.mode;
            Step(c) == Some(c.(mode := CodeLens(m.nlen, m.ndist, m.clens, m.got + Adds(x, m.got)), input := rest))
  {
    hide Find, Canonical, Sendable, BlockCodes, Usable, Value, SymbolBits;
    SymbolFront(c.mode.clens, x, code, len, rest);
  }

  lemma UsableValid(kind: CodeType, lens: seq<nat>)
    requires Usable(kind, lens)
    ensures ValidLens(lens) && |lens| <= MaxSymbols(kind)
  {
  }

  /** All the symbols have a code word. */
  ghost predicate AllCoded(clens: seq<nat>, xs: seq<Symbol>) {
    forall j | 0 <= j < |xs| :: Fits(xs[j]) && SymbolIndex(xs[j]) < |clens| && clens[SymbolIndex(xs[j])] > 0
  }

  lemma CodedSendable(code: seq<nat>, len: seq<nat>, clens: seq<nat>, xs: seq<Symbol>)
    requires Canonical(code, len, clens) && ValidLens(clens) && AllCoded(clens, xs)
    ensures AllSendable(code, len, xs)
  {
    hide Canonical, Sendable, ValidLens;
    forall j | 0 <= j < |xs| ensures Sendable(code, len, SymbolIndex(xs[j])) {
      CanonicalSendable(code, len, clens, SymbolIndex(xs[j]));
    }
  }

  lemma {:induction false} SymbolsRead(c: Core, xs: seq<Symbol>, code: seq<nat>, len: seq<nat>, rest: seq<bool>)
    requires c.mode.CodeLens? && |c.mode.clens| == 19 && Usable(CODES, c.mode.clens) && Canonical(code, len, c.mode.clens)
    requires AllCoded(c.mode.clens, xs) && AllSendable(code, len, xs) && AllStand(xs, c.mode.got)
    requires |Expand(xs, c.mode.got)| <= c.mode.nlen + c.mode.ndist
    requires c.input == ListBits(code, len, xs) + rest
    ensures var m := c.mode;
            Follows(c, c.(mode := CodeLens(m.nlen, m.ndist, m.clens, Expand(xs, m.got)), input := rest))
    decreases |xs|
  {
    hide Step, Follows, Canonical, Usable, Sendable, SymbolBits, Adds;
    var m := c.mode;
    if xs == [] {
      assert [] + rest == rest;
      FollowsHere(c);
    } else {
      var x, ys := xs[0], xs[1..];
      assert xs == [x] + ys;
      ListBitsConcat(code, len, [x], ys);
      OneBits(code, len, x);
      assert c.input == SymbolBits(code, len, x) + (ListBits(code, len, ys) + rest);
      ExpandLonger(ys, m.got + Adds(x, m.got));
      SymbolRead(c, x, code, len, ListBits(code, len, ys) + rest);
      var d := Step(c).value;
      FollowsStep(c);
      SymbolsRead(d, ys, code, len, rest);
      FollowsTrans(c, d, c.(mode := CodeLens(m.nlen, m.ndist, m.clens, Expand(xs, m.got)), input := rest));
    }
  }

  lemma {:induction false} ExpandLonger(xs: seq<Symbol>, got: seq<nat>)
    requires AllStand(xs, got)
    ensures |got| <= |Expand(xs, got)|
  {
    if xs != [] { ExpandLonger(xs[1..], got + Adds(xs[0], got)); }
  }

  // ------------------------------------------------------------ the code length code

  /** The lengths of the code length code in the order they are sent. */
  function Ordered(bl: seq<nat>, n: nat): (r: seq<nat>)
    requires |bl| == 19 && n <= 19
    ensures |r| == n
  {
    seq(n, i requires 0 <= i < n => bl[Order(i)])
  }

  ghost function OrderedBits(bl: seq<nat>, n: nat): seq<bool>
    requires |bl| == 19 && n <= 19
  {
    if n == 0 then [] else OrderedBits(bl, n - 1) + ToBits(bl[Order(n - 1)], 3)
  }

  /** The lengths that are not sent are zero. */
  lemma OrderedBack(bl: seq<nat>, n: nat)
    requires |bl| == 19 && n <= 19 && forall i | n <= i < 19 :: bl[Order(i)] == 0
    ensures CodeLengthCode(Ordered(bl, n)) == bl
  {
    hide Order, Place;
    forall j | 0 <= j < 19 ensures CodeLengthCode(Ordered(bl, n))[j] == bl[j] { OrderInverse(j); }
  }

  /** The bits from the `k`-th length on. */
  ghost function OrderedFrom(bl: seq<nat>, n: nat, k: nat): seq<bool>
    requires |bl| == 19 && k <= n <= 19
    decreases n - k
  {
    if k == n then [] else ToBits(bl[Order(k)], 3) + OrderedFrom(bl, n, k + 1)
  }

  lemma {:induction false} OrderedSplit(bl: seq<nat>, n: nat, k: nat)
    requires |bl| == 19 && k <= n <= 19
    ensures OrderedBits(bl, n) == OrderedBits(bl, k) + OrderedFrom(bl, n, k)
    decreases n - k
  {
    hide Order, ToBits;
    if k < n {
      OrderedSplit(bl, n, k + 1);
      assert OrderedBits(bl, k) + ToBits(bl[Order(k)], 3) + OrderedFrom(bl, n, k + 1)
          == OrderedBits(bl, k) + (ToBits(bl[Order(k)], 3) + OrderedFrom(bl, n, k + 1));
    } else {
      assert OrderedBits(bl, n) + [] == OrderedBits(bl, n);
    }
  }

  lemma {:induction false} OrderedRead(c: Core, bl: seq<nat>, n: nat, k: nat, rest: seq<bool>)
    requires |bl| == 19 && k <= n <= 19 && forall i | 0 <= i < 19 :: bl[i] < 8
    requires c.mode.LenLens? && c.mode.ncode == n && c.mode.got == Ordered(bl, k) && c.input == OrderedFrom(bl, n, k) + rest
    ensures var m := c.mode; Follows(c, c.(mode := LenLens(m.nlen, m.ndist, n, Ordered(bl, n)), input := rest))
    decreases n - k
  {
    hide Order, ToBits, Follows, CodeLengthCode, Builds, Value;
    var m := c.mode;
    if k == n {
      assert [] + rest == rest;
      FollowsHere(c);
    } else {
      var v, more := bl[Order(k)], OrderedFrom(bl, n, k + 1) + rest;
      assert c.input == ToBits(v, 3) + more;
      ThreeBits();
      ValueBack(v, 3, more);
      assert Ordered(bl, k) + [v] == Ordered(bl, k + 1);
      var d := c.(mode := LenLens(m.nlen, m.ndist, n, Ordered(bl, k + 1)), input := more);
      assert Step(c) == Some(d);
      FollowsStep(c);
      OrderedRead(d, bl, n, k + 1, rest);
      FollowsTrans(c, d, c.(mode := LenLens(m.nlen, m.ndist, n, Ordered(bl, n)), input := rest));
    }
  }

  lemma ThreeBits()
    ensures Pow2(3) == 8 && Pow2(4) == 16 && Pow2(5) == 32
  {
  }

  // ------------------------------------------------------------ the whole header

  /** What the header is made from: the lengths of the block's codes and the code length code. */
  datatype Header = Header(llens: seq<nat>, dlens: seq<nat>, bl: seq<nat>, blcodes: nat)
  {
    /** The run-length form of all the lengths. */
    function Runs(): seq<Symbol> {
      Symbols(llens, 0, -1, 0) + Symbols(dlens, 0, -1, 0)
    }

    ghost predicate Valid() {
      && 257 <= |llens| <= 286 && 1 <= |dlens| <= 30 && ValidLens(llens) && ValidLens(dlens)
      && |bl| == 19 && 4 <= blcodes <= 19 && (forall i | 0 <= i < 19 :: bl[i] < 8)
      && (forall i | blcodes <= i < 19 :: bl[Order(i)] == 0)
      && Usable(CODES, bl) && AllCoded(bl, Runs())
    }
  }

  ghost function SizeBits(h: Header): seq<bool>
    requires h.Valid()
  {
    ToBits(|h.llens| - 257, 5) + ToBits(|h.dlens| - 1, 5) + ToBits(h.blcodes - 4, 4)
  }

  ghost function HeaderBits(h: Header, code: seq<nat>, len: seq<nat>): seq<bool>
    requires h.Valid() && AllSendable(code, len, h.Runs())
  {
    SizeBits(h) + OrderedBits(h.bl, h.blcodes) + ListBits(code, len, h.Runs())
  }

  lemma SizesRead(c: Core, h: Header, rest: seq<bool>)
    requires h.Valid() && c.mode == Table && c.input == SizeBits(h) + rest
    ensures Step(c) == Some(c.(mode := LenLens(|h.llens|, |h.dlens|, h.blcodes, []), input := rest))
  {
    hide ToBits, Value, Usable, Header.Runs, AllCoded, ValidLens, Pow2;
    ThreeBits();
    ThreeValues(|h.llens| - 257, |h.dlens| - 1, h.blcodes - 4, rest);
  }

  lemma ThreeValues(x: nat, y: nat, z: nat, rest: seq<bool>)
    requires x < Pow2(5) && y < Pow2(5) && z < Pow2(4)
    ensures var s := ToBits(x, 5) + ToBits(y, 5) + ToBits(z, 4) + rest;
            && |s| >= 14 && Value(s, 5) == x && Value(s[5..], 5) == y && Value(s[10..], 4) == z && s[14..] == rest
  {
    hide ToBits, Value, Pow2;
    var a, b, d := ToBits(x, 5), ToBits(y, 5), ToBits(z, 4);
    var s := a + b + d + rest;
    ValueBack(x, 5, b + d + rest);
    ValueBack(y, 5, d + rest);
    ValueBack(z, 4, rest);
    assert s == a + (b + d + rest) && b + d + rest == b + (d + rest);
    assert s[5..] == b + (d + rest) && s[10..] == d + rest && s[14..] == rest;
  }

  lemma CodesAlwaysFit(lens: seq<nat>, bits: nat)
    requires ValidLens(lens)
    ensures !Oversize(CODES, lens, bits)
  {
    hide Entries, Sorted, Used;
  }

  /** The header is read back: after it the decoder is in the block, with the block's codes. */
  lemma HeaderRead(c: Core, h: Header, code: seq<nat>, len: seq<nat>, rest: seq<bool>)
    requires h.Valid() && Canonical(code, len, h.bl) && AllSendable(code, len, h.Runs())
    requires h.llens[256] > 0 && Builds(LENS, h.llens, 9) && Builds(DISTS, h.dlens, 6)
    requires c.mode == Table && c.input == HeaderBits(h, code, len) + rest
    ensures Follows(c, c.(mode := Len(Codes(h.llens, h.dlens)), input := rest))
  {
    hide Step, Follows, SizeBits, OrderedBits, ListBits, Canonical, Builds, AllSendable, Header.Runs, CodeLengthCode;
    var nlen, ndist, n := |h.llens|, |h.dlens|, h.blcodes;
    var runs := ListBits(code, len, h.Runs());
    var more := OrderedBits(h.bl, n) + runs + rest;
    assert c.input == SizeBits(h) + more;
    SizesRead(c, h, more);
    var c1 := c.(mode := LenLens(nlen, ndist, n, []), input := more);
    FollowsStep(c);
    LengthsRead(c1, h, code, len, runs + rest);
    var c2 := c.(mode := CodeLens(nlen, ndist, h.bl, []), input := runs + rest);
    FollowsTrans(c, c1, c2);
    RunsRead(c2, h, code, len, rest);
    FollowsTrans(c, c2, c.(mode := Len(Codes(h.llens, h.dlens)), input := rest));
  }

  lemma LengthsRead(c: Core, h: Header, code: seq<nat>, len: seq<nat>, rest: seq<bool>)
    requires h.Valid() && c.mode == LenLens(|h.llens|, |h.dlens|, h.blcodes, [])
    requires c.input == OrderedBits(h.bl, h.blcodes) + rest
    ensures Follows(c, c.(mode := CodeLens(|h.llens|, |h.dlens|, h.bl, []), input := rest))
  {
    hide Follows, OrderedBits, OrderedFrom, AllCoded, Header.Runs, Oversize, CodeLengthCode, Order, Value;
    var nlen, ndist, n := |h.llens|, |h.dlens|, h.blcodes;
    OrderedSplit(h.bl, n, 0);
    OrderedNone(h.bl);
    OrderedRead(c, h.bl, n, 0, rest);
    var d := c.(mode := LenLens(nlen, ndist, n, Ordered(h.bl, n)), input := rest);
    OrderedBack(h.bl, n);
    CodesAlwaysFit(h.bl, 7);
    FollowsStep(d);
    FollowsTrans(c, d, c.(mode := CodeLens(nlen, ndist, h.bl, []), input := rest));
  }

  lemma OrderedNone(bl: seq<nat>)
    requires |bl| == 19
    ensures OrderedBits(bl, 0) == [] && Ordered(bl, 0) == []
    ensures forall s: seq<bool> :: [] + s == s
  {
  }

  lemma RunsRead(c: Core, h: Header, code: seq<nat>, len: seq<nat>, rest: seq<bool>)
    requires h.Valid() && Canonical(code, len, h.bl) && AllSendable(code, len, h.Runs())
    requires h.llens[256] > 0 && Builds(LENS, h.llens, 9) && Builds(DISTS, h.dlens, 6)
    requires c.mode == CodeLens(|h.llens|, |h.dlens|, h.bl, []) && c.input == ListBits(code, len, h.Runs()) + rest
    ensures Follows(c, c.(mode := Len(Codes(h.llens, h.dlens)), input := rest))
  {
    hide Follows, ListBits, Canonical, Builds, AllSendable, AllStand, Expand, Find, Value, Usable;
    BothExpand(h.llens, h.dlens);
    SymbolsRead(c, h.Runs(), code, len, rest);
    var d := c.(mode := CodeLens(|h.llens|, |h.dlens|, h.bl, h.llens + h.dlens), input := rest);
    assert (h.llens + h.dlens)[..|h.llens|] == h.llens && (h.llens + h.dlens)[|h.llens|..] == h.dlens;
    FollowsStep(d);
    FollowsTrans(c, d, c.(mode := Len(Codes(h.llens, h.dlens)), input := rest));
  }

  /** `send_all_trees`. */
  method SendAllTrees(w: BitWriter, ldl: array<nat>, ddl: array<nat>, code: seq<nat>, len: seq<nat>, ghost h: Header,
                      lcodes: nat, dcodes: nat, blcodes: nat)
    requires w.Valid() && h.Valid() && blcodes == h.blcodes && |len| >= 19 && len[..19] == h.bl
    requires 1 <= lcodes < ldl.Length && ldl[..lcodes] == h.llens && ldl[lcodes] == GUARD
    requires 1 <= dcodes < ddl.Length && ddl[..dcodes] == h.dlens && ddl[dcodes] == GUARD
    requires Canonical(code, len, h.bl)
    modifies w`pending, w`biBuf, w`biValid
    ensures AllSendable(code, len, h.Runs())
    ensures w.Valid() && w.Bits() == old(w.Bits()) + HeaderBits(h, code, len)
  {
    hide BitWriter.Bits, BitWriter.Valid, ToBits, ListBits, AllSendable, AllCoded, Symbols, Canonical, ValidLens, Usable, Pow2;
    ghost var b0 := w.Bits();
    ghost var xs, ys := Symbols(h.llens, 0, -1, 0), Symbols(h.dlens, 0, -1, 0);
    UsableValid(CODES, h.bl);
    CodedSendable(code, len, h.bl, h.Runs());
    ListBitsConcat(code, len, xs, ys);
    SendSizes(w, h, lcodes, dcodes, blcodes);
    SendOrdered(w, len, h.bl, blcodes);
    SendTree(w, ldl, lcodes - 1, code, len);
    SendTree(w, ddl, dcodes - 1, code, len);
    assert b0 + SizeBits(h) + OrderedBits(h.bl, blcodes) + ListBits(code, len, xs) + ListBits(code, len, ys)
        == b0 + (SizeBits(h) + OrderedBits(h.bl, blcodes) + (ListBits(code, len, xs) + ListBits(code, len, ys)));
  }

  method SendSizes(w: BitWriter, ghost h: Header, lcodes: nat, dcodes: nat, blcodes: nat)
    requires w.Valid() && h.Valid() && lcodes == |h.llens| && dcodes == |h.dlens| && blcodes == h.blcodes
    modifies w`pending, w`biBuf, w`biValid
    ensures w.Valid() && w.Bits() == old(w.Bits()) + SizeBits(h)
  {
    hide BitWriter.Bits, BitWriter.Valid, ToBits, Pow2, AllCoded, Header.Runs, ValidLens, Usable;
    ghost var b0 := w.Bits();
    ThreeBits();
    w.SendBits(lcodes - 257, 5);
    w.SendBits(dcodes - 1, 5);
    w.SendBits(blcodes - 4, 4);
    assert b0 + ToBits(lcodes - 257, 5) + ToBits(dcodes - 1, 5) + ToBits(blcodes - 4, 4)
        == b0 + (ToBits(lcodes - 257, 5) + ToBits(dcodes - 1, 5) + ToBits(blcodes - 4, 4));
  }

  method SendOrdered(w: BitWriter, len: seq<nat>, ghost bl: seq<nat>, blcodes: nat)
    requires w.Valid() && |len| >= 19 && bl == len[..19] && blcodes <= 19 && forall i | 0 <= i < 19 :: bl[i] < 8
    modifies w`pending, w`biBuf, w`biValid
    ensures w.Valid() && w.Bits() == old(w.Bits()) + OrderedBits(bl, blcodes)
  {
    hide BitWriter.Bits, BitWriter.Valid, ToBits, Pow2, Order;
    ghost var b0 := w.Bits();
    ThreeBits();
    var rank := 0;
    Append(b0, [], []);
    while rank < blcodes
      invariant rank <= blcodes && w.Valid() && w.Bits() == b0 + OrderedBits(bl, rank)
    {
      assert len[Order(rank)] == bl[Order(rank)];
      w.SendBits(len[Order(rank)], 3);
      Append(b0, OrderedBits(bl, rank), ToBits(bl[Order(rank)], 3));
      rank := rank + 1;
    }
  }
}
