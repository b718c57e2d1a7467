/**
 What `build_tree` promises, put in the terms of the decoder: the lengths up to the last code
 that is used are lengths for which the decoder builds its tables, and the codes are the words
 it expects.
 */
module BlockTrees {
  import opened Bits
  import opened CanonicalCode
  import opened BitLengths
  import opened BuildTree
  import opened InflateTable
  import opened InflateSpec
  import opened CodeLengths
  import opened TreeOutput
  import opened BlockHeader
  import opened BlockData
  import opened BlockTally
  import opened BlockMeaning

  // ------------------------------------------------------------ lengths without trailing zeros

  lemma {:induction false} CountPrefix(lens: seq<nat>, n: nat, m: nat, l: nat)
    requires m <= n <= |lens|
    ensures Count(lens[..n], m, l) == Count(lens, m, l)
  {
    if m > 0 { CountPrefix(lens, n, m - 1, l); }
  }

  lemma {:induction false} CountZeros(lens: seq<nat>, n: nat, m: nat, l: nat)
    requires n <= m <= |lens| && l > 0 && forall i | n <= i < |lens| :: lens[i] == 0
    ensures Count(lens, m, l) == Count(lens, n, l)
  {
    if m > n { CountZeros(lens, n, m - 1, l); }
  }

  lemma TotalPrefix(lens: seq<nat>, n: nat, l: nat)
    requires n <= |lens| && l > 0 && forall i | n <= i < |lens| :: lens[i] == 0
    ensures Total(lens[..n], l) == Total(lens, l)
  {
    CountPrefix(lens, n, n, l);
    CountZeros(lens, n, |lens|, l);
  }

  lemma {:induction false} FirstPrefix(lens: seq<nat>, n: nat, l: nat)
    requires n <= |lens| && forall i | n <= i < |lens| :: lens[i] == 0
    ensures First(lens[..n], l) == First(lens, l)
  {
    if l > 1 {
      FirstPrefix(lens, n, l - 1);
      TotalPrefix(lens, n, l - 1);
    }
  }

  lemma CodePrefix(lens: seq<nat>, n: nat, s: nat)
    requires s < n <= |lens| && forall i | n <= i < |lens| :: lens[i] == 0
    ensures Code(lens[..n], s) == Code(lens, s)
  {
    FirstPrefix(lens, n, lens[s]);
    CountPrefix(lens, n, s, lens[s]);
  }

  lemma {:induction false} KraftPrefix(lens: seq<nat>, n: nat, m: nat)
    requires n <= m <= |lens| && forall i | n <= i < |lens| :: lens[i] == 0
    ensures KraftUpTo(lens, m) == KraftUpTo(lens[..n], n)
  {
    hide Width;
    if m > n { KraftPrefix(lens, n, m - 1); } else { KraftSame(lens, n, n); }
  }

  lemma {:induction false} KraftSame(lens: seq<nat>, n: nat, m: nat)
    requires m <= n <= |lens|
    ensures KraftUpTo(lens, m) == KraftUpTo(lens[..n], m)
  {
    hide Width;
    if m > 0 { KraftSame(lens, n, m - 1); }
  }

  // ------------------------------------------------------------ a tree that was built

  /** The tree has the words for all that occurs in `f`, as lengths `lens` make the decoder expect. */
  ghost predicate Serving(code: seq<nat>, len: seq<nat>, lens: seq<nat>, f: seq<nat>, n: nat) {
    && n <= |f| && ValidLens(lens) && Complete(lens)
    && forall s | 0 <= s < n && f[s] > 0 :: HasWord(code, len, lens, s)
  }

  lemma LeafBelow(elems: nat, f0: seq<nat>, r: Run, forced: set<nat>, maxCode: nat, x: nat)
    requires FromSymbols(elems, f0, r, forced, maxCode)
    ensures x in r.leaves ==> x <= maxCode
    ensures x < elems && f0[x] > 0 ==> x in r.leaves
    ensures 1 <= maxCode < elems
  {
    if x < elems && f0[x] > 0 { assert x in Occurring(f0, elems); }
    MaxCodeBounds(elems, f0, r, forced, maxCode);
  }

  lemma MaxCodeBounds(elems: nat, f0: seq<nat>, r: Run, forced: set<nat>, maxCode: nat)
    requires FromSymbols(elems, f0, r, forced, maxCode)
    ensures 1 <= maxCode < elems
  {
    assert maxCode in r.leaves;
    if maxCode == 0 {
      assert r.leaves <= {0};
      SubsetSize(r.leaves, {0});
    }
  }

  lemma {:induction false} SubsetSize(a: set<nat>, b: set<nat>)
    requires a <= b
    ensures |a| <= |b|
  {
    if x :| x in a {
      SubsetSize(a - {x}, b - {x});
    }
  }

  /** The lengths up to the last code. */
  lemma BuiltServes(d: TreeDesc, f0: seq<nat>, r: Run, forced: set<nat>, maxCode: nat, len: seq<nat>, fc: seq<nat>)
    requires FromSymbols(d.elems, f0, r, forced, maxCode) && Built(d, r, len, fc)
    ensures 1 <= maxCode < d.elems <= |len| && d.elems <= |f0|
    ensures Serving(fc, len, len[..maxCode + 1], f0, d.elems)
    ensures forall s | 0 <= s <= maxCode :: len[s] <= d.maxLength
    ensures forall s | maxCode < s < d.elems :: len[s] == 0
  {
    hide Run.Valid, Rev, Code, Complete, Shallow;
    MaxCodeBounds(d.elems, f0, r, forced, maxCode);
    var all, lens := len[..d.elems], len[..maxCode + 1];
    assert all[..maxCode + 1] == lens;
    forall s | maxCode < s < d.elems ensures len[s] == 0 { LeafBelow(d.elems, f0, r, forced, maxCode, s); }
    assert forall i | maxCode + 1 <= i < |all| :: all[i] == 0;
    CompletePrefix(all, maxCode + 1);
    forall s | 0 <= s < d.elems && f0[s] > 0 ensures HasWord(fc, len, lens, s) {
      LeafBelow(d.elems, f0, r, forced, maxCode, s);
      CodePrefix(all, maxCode + 1, s);
    }
  }

  lemma CompletePrefix(lens: seq<nat>, n: nat)
    requires n <= |lens| && ValidLens(lens) && Complete(lens) && forall i | n <= i < |lens| :: lens[i] == 0
    ensures ValidLens(lens[..n]) && Complete(lens[..n])
  {
    KraftPrefix(lens, n, |lens|);
  }

  lemma CompleteUsable(kind: CodeType, lens: seq<nat>)
    requires ValidLens(lens) && Complete(lens) && |lens| <= MaxSymbols(kind)
    ensures Usable(kind, lens)
  {
    hide Kraft;
  }

  /** Overwriting a length after the last code does no harm. */
  lemma ServingGuard(code: seq<nat>, len: seq<nat>, lens: seq<nat>, f: seq<nat>, n: nat, v: nat)
    requires Serving(code, len, lens, f, n) && |lens| < |len|
    ensures Serving(code, len[|lens| := v], lens, f, n)
  {
    hide Rev, Code, Complete;
    forall s | 0 <= s < n && f[s] > 0 ensures HasWord(code, len[|lens| := v], lens, s) {
      assert HasWord(code, len, lens, s);
    }
  }

  // ------------------------------------------------------------ ready to send

  lemma ServingTokens(k: Trees, codes: Codes, f: seq<nat>, g: seq<nat>, ts: seq<Token>)
    requires LengthsTallied(f, ts) && DistsTallied(g, ts) && AllGood(ts)
    requires Serving(k.lcode, k.llen, codes.llens, f, L_CODES) && Serving(k.dcode, k.dlen, codes.dlens, g, D_CODES)
    ensures ReadyToSend(k, codes, ts)
  {
    hide HasWord, LengthsTallied, DistsTallied, Complete, LengthSymbol, DistSymbol, Sendable, ValidLens;
    forall j | 0 <= j < |ts| ensures TokenHasWords(k, codes, ts[j]) && TokenSendable(k, ts[j]) {
      TallyPositive(f, g, ts, j);
      TokenWordsSendable(k, codes, ts[j]);
    }
    EndOccurs(f, ts);
    WordSendable(k.lcode, k.llen, codes.llens, END_BLOCK);
  }

  lemma EndOccurs(f: seq<nat>, ts: seq<Token>)
    requires LengthsTallied(f, ts)
    ensures L_CODES <= |f| && f[END_BLOCK] > 0
  {
  }

  lemma {:induction false} StandingFit(xs: seq<Symbol>, got: seq<nat>, j: nat)
    requires AllStand(xs, got) && j < |xs|
    ensures Fits(xs[j])
  {
    if j > 0 { StandingFit(xs[1..], got + Adds(xs[0], got), j - 1); }
  }

  lemma {:induction false} OccursPositive(xs: seq<Symbol>, j: nat)
    requires j < |xs|
    ensures Occurs(xs, SymbolIndex(xs[j])) > 0
  {
    if j < |xs| - 1 { OccursPositive(xs[..|xs| - 1], j); }
  }

  /** All that the run-length form needs has a word. */
  lemma ServingRuns(code: seq<nat>, len: seq<nat>, bl: seq<nat>, f0: seq<nat>, f: seq<nat>, xs: seq<Symbol>)
    requires Counted(f0, f, xs) && Serving(code, len, bl, f, BL_CODES) && AllStand(xs, [])
    ensures AllCoded(bl, xs)
  {
    hide Complete, AllStand, Rev, Code, SymbolIndex, Fits;
    forall j | 0 <= j < |xs| ensures Fits(xs[j]) && SymbolIndex(xs[j]) < |bl| && bl[SymbolIndex(xs[j])] > 0 {
      StandingFit(xs, [], j);
      OccursPositive(xs, j);
      FitIndex(xs[j]);
      assert HasWord(code, len, bl, SymbolIndex(xs[j]));
    }
  }

  lemma FitIndex(x: Symbol)
    requires Fits(x)
    ensures SymbolIndex(x) < BL_CODES
  {
  }

  /** The code length code with its own lengths. */
  lemma BuiltCanonical(d: TreeDesc, r: Run, len: seq<nat>, fc: seq<nat>)
    requires d.elems == BL_CODES && d.maxLength == 7 && Built(d, r, len, fc)
    ensures |len| >= 19 && Usable(CODES, len[..19]) && Canonical(fc, len, len[..19]) && forall i | 0 <= i < 19 :: len[..19][i] < 8
  {
    hide Run.Valid, Rev, Code, Complete, Shallow, Usable, Rejected;
    CompleteUsable(CODES, len[..19]);
  }

  lemma CanonicalServing(code: seq<nat>, len: seq<nat>, lens: seq<nat>, f: seq<nat>)
    requires Canonical(code, len, lens) && ValidLens(lens) && Complete(lens) && |lens| <= |f|
    requires forall s | 0 <= s < |lens| && f[s] > 0 :: lens[s] > 0
    ensures Serving(code, len, lens, f, |lens|)
  {
    hide Rev, Code, Complete;
  }

  /** The bits of the header of a block. */
  lemma HeaderSize(h: Header, code: seq<nat>, len: seq<nat>, f0: seq<nat>, f: seq<nat>)
    requires h.Valid() && AllSendable(code, len, h.Runs()) && BL_CODES <= |len| && BL_CODES <= |f|
    requires Counted(f0, f, h.Runs()) && forall k | 0 <= k < BL_CODES :: f0[k] == 0
    ensures |HeaderBits(h, code, len)| == 14 + 3 * h.blcodes + TotalBits(RepeatDesc(), f, len, BL_CODES)
  {
    hide ListBits, OrderedBits, ToBits, TotalBits, Header.Valid, Occurs, Times, AllSendable, Header.Runs;
    RunsSize(code, len, h.Runs());
    assert |h.bl| == 19 && h.blcodes <= 19 by { HeaderShape(h); }
    OrderedSize(h.bl, h.blcodes);
    SizeSize(h);
    forall k | 0 <= k < BL_CODES ensures f[k] == KeyCounts(RunKeys(h.Runs()), BL_CODES)[k] {
      OccursTimes(h.Runs(), k);
    }
    TotalAgree(RepeatDesc(), f, KeyCounts(RunKeys(h.Runs()), BL_CODES), len, len, BL_CODES);
  }

  lemma HeaderShape(h: Header)
    requires h.Valid()
    ensures |h.bl| == 19 && h.blcodes <= 19 && 257 <= |h.llens| && 1 <= |h.dlens| && 4 <= h.blcodes
  {
  }

  lemma SizeSize(h: Header)
    requires h.Valid()
    ensures |SizeBits(h)| == 14
  {
    hide ToBits, Header.Valid;
    HeaderShape(h);
  }

  lemma {:induction false} OrderedSize(bl: seq<nat>, n: nat)
    requires |bl| == 19 && n <= 19
    ensures |OrderedBits(bl, n)| == 3 * n
  {
    hide Order, ToBits;
    if n > 0 { OrderedSize(bl, n - 1); }
  }
}
