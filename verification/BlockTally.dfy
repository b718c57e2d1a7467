/**
 Frequencies and bit totals: how often each symbol is sent, and that the totals which
 `build_tree` computes from the frequencies are the numbers of bits that will be sent.
 */
module BlockTally {
  import opened Bits
  import opened Sums
  import opened BitLengths
  import opened BuildTree
  import opened InflateSpec
  import opened CodeLengths
  import opened TreeOutput
  import opened BlockData

  const L_CODES := 286
  const D_CODES := 30
  const BL_CODES := 19

  function LengthDesc(): TreeDesc {
    TreeDesc(L_CODES, 15, seq(29, i requires 0 <= i => ExtraLength(i)), 257, FixedCodes().llens)
  }

  function DistDesc(): TreeDesc {
    TreeDesc(D_CODES, 15, seq(30, i requires 0 <= i => ExtraDist(i)), 0, FixedCodes().dlens)
  }

  /** `extra_blbits`. */
  function ExtraRepeat(i: nat): nat {
    if i == 16 then 2 else if i == 17 then 3 else if i == 18 then 7 else 0
  }

  function RepeatDesc(): TreeDesc {
    TreeDesc(BL_CODES, 7, seq(19, i requires 0 <= i => ExtraRepeat(i)), 0, [])
  }

  lemma DescsValid()
    ensures LengthDesc().Valid() && DistDesc().Valid() && RepeatDesc().Valid()
    ensures LengthDesc().XBits(0) == LengthDesc().XBits(1) == LengthDesc().XBits(2) == 0
    ensures DistDesc().XBits(0) == DistDesc().XBits(1) == DistDesc().XBits(2) == 0
    ensures RepeatDesc().XBits(0) == RepeatDesc().XBits(1) == RepeatDesc().XBits(2) == 0
  {
    assert Pow2(7) == 128;
    assert Pow2(15) == 256 * Pow2(7) by { Pow2Add(8, 7); assert Pow2(8) == 256; }
  }

  // ------------------------------------------------------------ counting keys

  /** How often `k` occurs. */
  function Times(keys: seq<nat>, k: nat): nat {
    if keys == [] then 0 else Times(keys[..|keys| - 1], k) + if keys[|keys| - 1] == k then 1 else 0
  }

  function KeyCounts(keys: seq<nat>, n: nat): (f: seq<nat>)
    ensures |f| == n
  {
    seq(n, k requires 0 <= k => Times(keys, k))
  }

  lemma CountsSnoc(keys: seq<nat>, x: nat, n: nat)
    requires x < n
    ensures KeyCounts(keys + [x], n) == KeyCounts(keys, n)[x := KeyCounts(keys, n)[x] + 1]
  {
    assert (keys + [x])[..|keys|] == keys;
  }

  /** One more of a symbol adds its bits to the total. */
  lemma {:induction false} TotalBump(d: TreeDesc, f: seq<nat>, lens: seq<nat>, x: nat, n: nat)
    requires n <= d.extraBase + |d.extraBits| && n <= |f| && n <= |lens| && x < |f|
    ensures TotalBits(d, f[x := f[x] + 1], lens, n) == TotalBits(d, f, lens, n) + if x < n then lens[x] + d.XBits(x) else 0
  {
    hide TreeDesc.XBits;
    if n > 0 {
      TotalBump(d, f, lens, x, n - 1);
      if x == n - 1 { Distribute(f[x], 1, lens[x] + d.XBits(x)); }
    }
  }

  lemma {:induction false} TotalAgree(d: TreeDesc, f: seq<nat>, g: seq<nat>, lens: seq<nat>, lens': seq<nat>, n: nat)
    requires n <= d.extraBase + |d.extraBits| && n <= |f| && n <= |lens| && n <= |g| && n <= |lens'|
    requires forall k | 0 <= k < n :: f[k] == g[k] && (f[k] > 0 ==> lens[k] == lens'[k])
    ensures TotalBits(d, f, lens, n) == TotalBits(d, g, lens', n)
  {
    hide TreeDesc.XBits;
    if n > 0 {
      TotalAgree(d, f, g, lens, lens', n - 1);
      if f[n - 1] == 0 { ZeroTimes(lens[n - 1] + d.XBits(n - 1), lens'[n - 1] + d.XBits(n - 1)); }
    }
  }

  lemma ZeroTimes(a: nat, b: nat)
    ensures 0 * a == 0 == 0 * b
  {
  }

  lemma {:induction false} TotalNone(d: TreeDesc, f: seq<nat>, lens: seq<nat>, n: nat)
    requires n <= d.extraBase + |d.extraBits| && n <= |f| && n <= |lens| && forall k | 0 <= k < n :: f[k] == 0
    ensures TotalBits(d, f, lens, n) == 0
  {
    hide TreeDesc.XBits;
    if n > 0 {
      TotalNone(d, f, lens, n - 1);
      ZeroTimes(lens[n - 1] + d.XBits(n - 1), 0);
    }
  }

  // ------------------------------------------------------------ the sum of the frequencies

  function PlainSum(f: seq<nat>, n: nat): nat
    requires n <= |f|
  {
    if n == 0 then 0 else PlainSum(f, n - 1) + f[n - 1]
  }

  lemma {:induction false} PlainBump(f: seq<nat>, x: nat, n: nat)
    requires n <= |f| && x < |f|
    ensures PlainSum(f[x := f[x] + 1], n) == PlainSum(f, n) + if x < n then 1 else 0
  {
    if n > 0 { PlainBump(f, x, n - 1); }
  }

  lemma {:induction false} PlainAgree(f: seq<nat>, g: seq<nat>, n: nat)
    requires n <= |f| && n <= |g| && forall k | 0 <= k < n :: f[k] == g[k]
    ensures PlainSum(f, n) == PlainSum(g, n)
  {
    if n > 0 { PlainAgree(f, g, n - 1); }
  }

  lemma {:induction false} PlainNone(f: seq<nat>, n: nat)
    requires n <= |f| && forall k | 0 <= k < n :: f[k] == 0
    ensures PlainSum(f, n) == 0
  {
    if n > 0 { PlainNone(f, n - 1); }
  }

  /** There are as many occurrences as keys. */
  lemma {:induction false} KeyCountsSum(keys: seq<nat>, n: nat)
    requires forall j | 0 <= j < |keys| :: keys[j] < n
    ensures PlainSum(KeyCounts(keys, n), n) == |keys|
  {
    if keys == [] {
      PlainNone(KeyCounts(keys, n), n);
    } else {
      var ks, x := keys[..|keys| - 1], keys[|keys| - 1];
      assert keys == ks + [x];
      KeyCountsSum(ks, n);
      CountsSnoc(ks, x, n);
      PlainBump(KeyCounts(ks, n), x, n);
    }
  }

  lemma {:induction false} OccurringSum(f: seq<nat>, n: nat, m: nat)
    requires n <= |f| && m <= |f|
    ensures SumTo(Occurring(f, n), f, m) == PlainSum(f, if m < n then m else n)
  {
    if m > 0 { OccurringSum(f, n, m - 1); }
  }

  // ------------------------------------------------------------ tokens

  function LengthKeys(ts: seq<Token>): (r: seq<nat>)
    ensures |r| == |ts|
  {
    seq(|ts|, j requires 0 <= j < |ts| => LengthSymbol(ts[j]))
  }

  function DistKeys(ts: seq<Token>): (r: seq<nat>)
    ensures |r| <= |ts|
  {
    if ts == [] then []
    else DistKeys(ts[..|ts| - 1]) + if ts[|ts| - 1].Copy? then [DistSymbol(ts[|ts| - 1])] else []
  }

  ghost predicate AllGood(ts: seq<Token>) {
    forall j | 0 <= j < |ts| :: GoodToken(ts[j])
  }

  lemma SymbolBounds(t: Token)
    requires GoodToken(t)
    ensures LengthSymbol(t) < L_CODES && LengthSymbol(t) != END_BLOCK && (t.Copy? ==> DistSymbol(t) < D_CODES)
    ensures LengthDesc().XBits(LengthSymbol(t)) == if t.Copy? then ExtraLength(LengthCode(t.length - 3)) else 0
    ensures t.Copy? ==> DistDesc().XBits(DistSymbol(t)) == ExtraDist(DistCode(t.dist - 1))
  {
    hide LengthCode, DistCode, ExtraLength, ExtraDist, FixedCodes;
    if t.Copy? {
      LengthAgrees(t.length - 3);
      DistAgrees(t.dist - 1);
    }
  }

  /** The bits of a token. */
  lemma TokenSize(k: Trees, t: Token)
    requires TokenSendable(k, t)
    ensures LengthSymbol(t) < L_CODES && (t.Copy? ==> DistSymbol(t) < D_CODES)
    ensures |TokenBits(k, t)| == k.llen[LengthSymbol(t)] + LengthDesc().XBits(LengthSymbol(t))
                                 + if t.Copy? then k.dlen[DistSymbol(t)] + DistDesc().XBits(DistSymbol(t)) else 0
  {
    hide LengthCode, DistCode, ExtraLength, ExtraDist, LengthDesc, DistDesc, TreeDesc.XBits, LengthExtra, DistExtra, ToBits;
    SymbolBounds(t);
    if t.Copy? {
      LengthAgrees(t.length - 3);
      DistAgrees(t.dist - 1);
    }
  }

  /** The bits of all the tokens, from their frequencies. */
  lemma {:induction false} TokensSize(k: Trees, ts: seq<Token>)
    requires AllTokensSendable(k, ts) && L_CODES <= |k.llen| && D_CODES <= |k.dlen|
    ensures |TokensBits(k, ts)| == TotalBits(LengthDesc(), KeyCounts(LengthKeys(ts), L_CODES), k.llen, L_CODES)
                                   + TotalBits(DistDesc(), KeyCounts(DistKeys(ts), D_CODES), k.dlen, D_CODES)
  {
    hide TokenBits, TokenSendable, TreeDesc.XBits, Times, LengthSymbol, DistSymbol, FixedCodes, ExtraLength, ExtraDist;
    if ts == [] {
      assert forall x :: Times([], x) == 0 by { NoTimes(); }
      TotalNone(LengthDesc(), KeyCounts(LengthKeys(ts), L_CODES), k.llen, L_CODES);
      TotalNone(DistDesc(), KeyCounts(DistKeys(ts), D_CODES), k.dlen, D_CODES);
    } else {
      var us, t := ts[..|ts| - 1], ts[|ts| - 1];
      TokensSize(k, us);
      TokenSize(k, t);
      assert LengthKeys(ts) == LengthKeys(us) + [LengthSymbol(t)];
      CountsSnoc(LengthKeys(us), LengthSymbol(t), L_CODES);
      TotalBump(LengthDesc(), KeyCounts(LengthKeys(us), L_CODES), k.llen, LengthSymbol(t), L_CODES);
      if t.Copy? {
        CountsSnoc(DistKeys(us), DistSymbol(t), D_CODES);
        TotalBump(DistDesc(), KeyCounts(DistKeys(us), D_CODES), k.dlen, DistSymbol(t), D_CODES);
      } else {
        assert DistKeys(ts) == DistKeys(us);
      }
    }
  }

  lemma NoTimes()
    ensures forall x :: Times([], x) == 0
  {
  }

  // ------------------------------------------------------------ the runs of lengths

  function RunKeys(xs: seq<Symbol>): (r: seq<nat>)
    ensures |r| == |xs|
  {
    seq(|xs|, j requires 0 <= j < |xs| => SymbolIndex(xs[j]))
  }

  lemma {:induction false} OccursTimes(xs: seq<Symbol>, k: nat)
    ensures Occurs(xs, k) == Times(RunKeys(xs), k)
  {
    if xs != [] {
      OccursTimes(xs[..|xs| - 1], k);
      assert RunKeys(xs)[..|xs| - 1] == RunKeys(xs[..|xs| - 1]);
    }
  }

  lemma RunBits(code: seq<nat>, len: seq<nat>, x: Symbol)
    requires Sendable(code, len, SymbolIndex(x)) && Fits(x)
    ensures SymbolIndex(x) < BL_CODES
    ensures |TreeOutput.SymbolBits(code, len, x)| == len[SymbolIndex(x)] + RepeatDesc().XBits(SymbolIndex(x))
  {
    hide ToBits;
  }

  /** The bits of the run-length form, from the frequencies. */
  lemma {:induction false} RunsSize(code: seq<nat>, len: seq<nat>, xs: seq<Symbol>)
    requires AllSendable(code, len, xs) && BL_CODES <= |len|
    ensures |ListBits(code, len, xs)| == TotalBits(RepeatDesc(), KeyCounts(RunKeys(xs), BL_CODES), len, BL_CODES)
  {
    hide TreeOutput.SymbolBits, Sendable, Fits, TreeDesc.XBits, Times, SymbolIndex, ExtraRepeat;
    if xs == [] {
      assert forall x :: Times([], x) == 0 by { NoTimes(); }
      TotalNone(RepeatDesc(), KeyCounts(RunKeys(xs), BL_CODES), len, BL_CODES);
    } else {
      var ys, x := xs[..|xs| - 1], xs[|xs| - 1];
      RunsSize(code, len, ys);
      RunBits(code, len, x);
      assert RunKeys(xs) == RunKeys(ys) + [SymbolIndex(x)];
      CountsSnoc(RunKeys(ys), SymbolIndex(x), BL_CODES);
      TotalBump(RepeatDesc(), KeyCounts(RunKeys(ys), BL_CODES), len, SymbolIndex(x), BL_CODES);
    }
  }

  // ------------------------------------------------------------ frequencies

  /** The frequencies of the literal/length tree: the tokens and one end of block. */
  ghost predicate LengthsTallied(f: seq<nat>, ts: seq<Token>) {
    L_CODES <= |f| && forall k | 0 <= k < L_CODES :: f[k] == Times(LengthKeys(ts), k) + if k == END_BLOCK then 1 else 0
  }

  ghost predicate DistsTallied(f: seq<nat>, ts: seq<Token>) {
    D_CODES <= |f| && forall k | 0 <= k < D_CODES :: f[k] == Times(DistKeys(ts), k)
  }

  lemma TimesSnoc(keys: seq<nat>, x: nat, k: nat)
    ensures Times(keys + [x], k) == Times(keys, k) + if x == k then 1 else 0
  {
    assert (keys + [x])[..|keys|] == keys;
  }

  lemma LengthTallyMore(f: seq<nat>, ts: seq<Token>, t: Token)
    requires LengthsTallied(f, ts) && GoodToken(t)
    ensures LengthSymbol(t) < |f| && LengthsTallied(f[LengthSymbol(t) := f[LengthSymbol(t)] + 1], ts + [t])
  {
    hide Times, LengthSymbol;
    SymbolBounds(t);
    assert LengthKeys(ts + [t]) == LengthKeys(ts) + [LengthSymbol(t)];
    forall k ensures Times(LengthKeys(ts + [t]), k) == Times(LengthKeys(ts), k) + if LengthSymbol(t) == k then 1 else 0 {
      TimesSnoc(LengthKeys(ts), LengthSymbol(t), k);
    }
  }

  lemma DistTallyMore(f: seq<nat>, ts: seq<Token>, t: Token)
    requires DistsTallied(f, ts) && GoodToken(t)
    ensures t.Literal? ==> DistsTallied(f, ts + [t])
    ensures t.Copy? ==> DistSymbol(t) < |f| && DistsTallied(f[DistSymbol(t) := f[DistSymbol(t)] + 1], ts + [t])
  {
    hide Times, DistSymbol;
    SymbolBounds(t);
    assert (ts + [t])[..|ts|] == ts;
    if t.Literal? {
      assert DistKeys(ts + [t]) == DistKeys(ts);
    } else {
      forall k ensures Times(DistKeys(ts + [t]), k) == Times(DistKeys(ts), k) + if DistSymbol(t) == k then 1 else 0 {
        TimesSnoc(DistKeys(ts), DistSymbol(t), k);
      }
    }
  }

  lemma NothingTallied(f: seq<nat>, g: seq<nat>)
    requires L_CODES <= |f| && forall k | 0 <= k < L_CODES :: f[k] == if k == END_BLOCK then 1 else 0
    requires D_CODES <= |g| && forall k | 0 <= k < D_CODES :: g[k] == 0
    ensures LengthsTallied(f, []) && DistsTallied(g, [])
  {
  }

  lemma {:induction false} TimesPositive(keys: seq<nat>, j: nat)
    requires j < |keys|
    ensures Times(keys, keys[j]) > 0
  {
    if j < |keys| - 1 { TimesPositive(keys[..|keys| - 1], j); }
  }

  lemma {:induction false} DistKeyPositive(ts: seq<Token>, j: nat)
    requires j < |ts| && ts[j].Copy?
    ensures Times(DistKeys(ts), DistSymbol(ts[j])) > 0
  {
    hide DistSymbol;
    var us, t := ts[..|ts| - 1], ts[|ts| - 1];
    if j < |ts| - 1 {
      DistKeyPositive(us, j);
      if t.Copy? { TimesSnoc(DistKeys(us), DistSymbol(t), DistSymbol(ts[j])); } else { assert DistKeys(ts) == DistKeys(us); }
    } else {
      TimesSnoc(DistKeys(us), DistSymbol(t), DistSymbol(t));
    }
  }

  /** What a token needs occurs. */
  lemma TallyPositive(f: seq<nat>, g: seq<nat>, ts: seq<Token>, j: nat)
    requires LengthsTallied(f, ts) && DistsTallied(g, ts) && AllGood(ts) && j < |ts|
    ensures LengthSymbol(ts[j]) < L_CODES && f[LengthSymbol(ts[j])] > 0 && f[END_BLOCK] > 0
    ensures ts[j].Copy? ==> DistSymbol(ts[j]) < D_CODES && g[DistSymbol(ts[j])] > 0
  {
    hide LengthSymbol, DistSymbol, Times;
    SymbolBounds(ts[j]);
    TimesPositive(LengthKeys(ts), j);
    if ts[j].Copy? { DistKeyPositive(ts, j); }
  }

  /** The frequencies fit an unsigned short. */
  lemma TallySmall(f: seq<nat>, g: seq<nat>, ts: seq<Token>)
    requires LengthsTallied(f, ts) && DistsTallied(g, ts) && AllGood(ts)
    ensures Sum(Occurring(f, L_CODES), f) == |ts| + 1 && Sum(Occurring(g, D_CODES), g) <= |ts|
  {
    hide Times, LengthSymbol, DistSymbol, Occurring;
    forall j | 0 <= j < |ts| ensures LengthKeys(ts)[j] < L_CODES { SymbolBounds(ts[j]); }
    KeyCountsSum(LengthKeys(ts), L_CODES);
    OccurringSum(f, L_CODES, |f|);
    var c := KeyCounts(LengthKeys(ts), L_CODES);
    PlainBump(c, END_BLOCK, L_CODES);
    PlainAgree(f, c[END_BLOCK := c[END_BLOCK] + 1], L_CODES);
    DistKeysSmall(ts);
    KeyCountsSum(DistKeys(ts), D_CODES);
    OccurringSum(g, D_CODES, |g|);
    PlainAgree(g, KeyCounts(DistKeys(ts), D_CODES), D_CODES);
  }

  lemma {:induction false} DistKeysSmall(ts: seq<Token>)
    requires AllGood(ts)
    ensures forall j | 0 <= j < |DistKeys(ts)| :: DistKeys(ts)[j] < D_CODES
  {
    hide DistSymbol;
    if ts != [] {
      DistKeysSmall(ts[..|ts| - 1]);
      SymbolBounds(ts[|ts| - 1]);
    }
  }

  /** The bits of the data of a block are what the frequencies say. */
  lemma DataSize(k: Trees, ts: seq<Token>, f: seq<nat>, g: seq<nat>)
    requires AllTokensSendable(k, ts) && Sendable(k.lcode, k.llen, END_BLOCK) && L_CODES <= |k.llen| && D_CODES <= |k.dlen|
    requires LengthsTallied(f, ts) && DistsTallied(g, ts)
    ensures |DataBits(k, ts)| == TotalBits(LengthDesc(), f, k.llen, L_CODES) + TotalBits(DistDesc(), g, k.dlen, D_CODES)
  {
    hide TokensBits, TokenSendable, TotalBits, Times, ToBits, FixedCodes, LengthSymbol, DistSymbol, AllTokensSendable;
    TokensSize(k, ts);
    var c := KeyCounts(LengthKeys(ts), L_CODES);
    TotalBump(LengthDesc(), c, k.llen, END_BLOCK, L_CODES);
    TotalAgree(LengthDesc(), f, c[END_BLOCK := c[END_BLOCK] + 1], k.llen, k.llen, L_CODES);
    TotalAgree(DistDesc(), g, KeyCounts(DistKeys(ts), D_CODES), k.dlen, k.dlen, D_CODES);
  }
}
