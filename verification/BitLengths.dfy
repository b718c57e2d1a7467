/**
 `gen_bitlen` (trees.c): the code lengths of a Huffman tree, limited to a maximum.

 The tree is the history of merges that `build_tree` left in its arrays.  Lengths are handed
 down from fathers to sons, cut off at the maximum; every cut-off node adds to `overflow`.
 The proof follows the queue backwards through the history: undoing a merge replaces a father
 by two sons one bit longer, which keeps the Kraft sum, except that sons of a father at the
 maximum stay there, which adds one unit to the Kraft sum and two to `overflow`.
 */
module BitLengths {
  import opened Bits
  import opened Sums
  import opened HuffmanCode
  import opened CanonicalCode

  /** What trees.c keeps for each kind of tree (`static_tree_desc`). */
  datatype TreeDesc = TreeDesc(elems: nat, maxLength: nat, extraBits: seq<nat>, extraBase: nat, staticLens: seq<nat>)
  {
    ghost predicate Valid() {
      && 3 <= elems <= 286 && 1 <= maxLength <= MAXBITS && elems <= Pow2(maxLength)
      && extraBase + |extraBits| == elems
      && (staticLens == [] || |staticLens| >= elems)
    }

    /** Extra bits sent after the code of `n`. */
    function XBits(n: nat): nat
      requires n < extraBase + |extraBits|
    {
      if n >= extraBase then extraBits[n - extraBase] else 0
    }
  }

  // ------------------------------------------------------------ what is summed

  /** One for each node of length `b`. */
  ghost function AtLength(len: seq<nat>, b: nat): (f: seq<nat>)
    ensures |f| == |len| && forall x | 0 <= x < |len| :: f[x] == if len[x] == b then 1 else 0
  {
    seq(|len|, x requires 0 <= x < |len| => if len[x] == b then 1 else 0)
  }

  /** One for each leaf of length `b`. */
  ghost function LeafAt(elems: nat, len: seq<nat>, b: nat): (f: seq<nat>)
    ensures |f| == |len|
    ensures forall x | 0 <= x < |len| :: f[x] == if x < elems && len[x] == b then 1 else 0
  {
    seq(|len|, x requires 0 <= x < |len| => if x < elems && len[x] == b then 1 else 0)
  }

  /** Bits taken by `f` occurrences of symbol `n` with code length `l`, extra bits included. */
  function SymbolBits(d: TreeDesc, n: nat, f: nat, l: nat): nat
    requires n < d.extraBase + |d.extraBits|
  {
    f * (l + d.XBits(n))
  }

  /** Bits taken by each leaf; nothing for inner nodes. */
  ghost function LeafBits(d: TreeDesc, freq: seq<nat>, len: seq<nat>): (f: seq<nat>)
    requires d.extraBase + |d.extraBits| == d.elems && |freq| == |len|
    ensures |f| == |len|
    ensures forall x | 0 <= x < |len| :: f[x] == if x < d.elems then SymbolBits(d, x, freq[x], len[x]) else 0
  {
    seq(|len|, x requires 0 <= x < |len| => if x < d.elems then SymbolBits(d, x, freq[x], len[x]) else 0)
  }

  // ------------------------------------------------------------ undoing one merge

  /** A run of `build_tree`: its history, its leaves, and the frequencies of all the nodes. */
  datatype Run = Run(m: Merges, leaves: set<nat>, elems: nat, freq: seq<nat>)
  {
    ghost predicate Valid() {
      && |m| >= 1 && |leaves| == |m| + 1
      && History(m, leaves, elems) && Weighted(m, elems, freq) && Greedy(m, leaves, elems, freq)
    }

    ghost function At(t: nat): set<nat>
      requires t <= |m|
    {
      State(m, leaves, elems, t)
    }
  }

  function Cap(l: nat, max: nat): nat {
    if l + 1 > max then max else l + 1
  }

  /** `len` with the two sons of the `t`-th merge set to `c`. */
  function Handed(r: Run, t: nat, len: seq<nat>, c: nat): seq<nat>
    requires t < |r.m| && r.m[t].0 < |len| && r.m[t].1 < |len|
  {
    len[r.m[t].1 := c][r.m[t].0 := c]
  }

  /**
   `len` is right for the nodes in the queue after `t` merges: within the maximum, and with a
   Kraft sum that exceeds one by `excess` units of 2^-max, of which there are at least as many
   nodes at the maximum.
   */
  ghost predicate PassKraft(r: Run, t: nat, len: seq<nat>, max: nat, excess: nat)
    requires r.Valid() && t <= |r.m| && max <= MAXBITS
  {
    && |len| == |r.freq| && AtMost(r.At(t), max, len)
    && Sum(r.At(t), Scaled(MAXBITS, len)) == Unit() + excess * Width(max)
    && Sum(r.At(t), AtLength(len, max)) >= excess
    && (forall x | x in r.At(t) && x != r.elems + |r.m| - 1 :: len[x] >= 1)
    && (excess == 0 ==> Cost(r.At(t), r.freq, len) == MergeCost(r.m, r.elems, r.freq, t))
    && PassDepth(r, t, len, max, excess)
  }

  lemma RunFacts(r: Run, t: nat)
    requires r.Valid() && t < |r.m|
    ensures r.m[t].0 in r.At(t) && r.m[t].1 in r.At(t) && r.m[t].0 != r.m[t].1
    ensures r.m[t].0 < r.elems + t && r.m[t].1 < r.elems + t && r.elems + |r.m| <= |r.freq|
    ensures r.elems + t in r.At(t + 1)
    ensures forall x | x in r.At(t) && x != r.m[t].0 && x != r.m[t].1 :: x in r.At(t + 1)
  {
  }

  lemma SomeMerge(r: Run)
    requires r.Valid()
    ensures |r.m| >= 1 && r.elems + |r.m| <= |r.freq|
  {
  }

  lemma UnmergeAt(r: Run, t: nat, f: seq<nat>, f': seq<nat>)
    requires r.Valid() && t < |r.m| && |f| == |f'| == |r.freq|
    requires forall x: nat | x < |f| && x != r.m[t].0 && x != r.m[t].1 :: f'[x] == f[x]
    ensures r.m[t].0 < r.elems + t && r.m[t].1 < r.elems + t && r.elems + t < |f|
    ensures Sum(r.At(t), f') == Sum(r.At(t + 1), f) - f[r.elems + t] + f'[r.m[t].0] + f'[r.m[t].1]
  {
    Unmerge(r.m, r.leaves, r.elems, t, f, f');
  }

  lemma KraftHanded(r: Run, t: nat, len: seq<nat>, max: nat)
    requires r.Valid() && t < |r.m| && max <= MAXBITS && |len| == |r.freq|
    requires r.elems + t < |len| && len[r.elems + t] <= max
    requires r.m[t].0 < |len| && r.m[t].1 < |len|
    ensures var p := len[r.elems + t];
            Sum(r.At(t), Scaled(MAXBITS, Handed(r, t, len, Cap(p, max)))) ==
            Sum(r.At(t + 1), Scaled(MAXBITS, len)) + if p == max then Width(max) else 0
  {
    hide Sum, Pow2, Run.Valid, Run.At;
    var p := len[r.elems + t];
    var len' := Handed(r, t, len, Cap(p, max));
    RunFacts(r, t);
    UnmergeAt(r, t, Scaled(MAXBITS, len), Scaled(MAXBITS, len'));
    if p < max { WidthHalf(p + 1); }
  }

  lemma AtMaxHanded(r: Run, t: nat, len: seq<nat>, max: nat)
    requires r.Valid() && t < |r.m| && |len| == |r.freq|
    requires r.elems + t < |len| && len[r.elems + t] <= max
    requires r.m[t].0 < |len| && r.m[t].1 < |len|
    ensures var p := len[r.elems + t];
            Sum(r.At(t), AtLength(Handed(r, t, len, Cap(p, max)), max)) >=
            Sum(r.At(t + 1), AtLength(len, max)) + if p == max then 1 else 0
  {
    hide Sum;
    var len' := Handed(r, t, len, Cap(len[r.elems + t], max));
    RunFacts(r, t);
    UnmergeAt(r, t, AtLength(len, max), AtLength(len', max));
  }

  lemma CostHanded(r: Run, t: nat, len: seq<nat>, c: nat)
    requires r.Valid() && t < |r.m| && |len| == |r.freq|
    requires r.elems + t < |len| && c == len[r.elems + t] + 1
    requires r.m[t].0 < |len| && r.m[t].1 < |len|
    ensures Cost(r.At(t), r.freq, Handed(r, t, len, c)) == Cost(r.At(t + 1), r.freq, len) + r.freq[r.elems + t]
  {
    hide Sum, Run.Valid, Run.At;
    RunFacts(r, t);
    UnmergeAt(r, t, Products(r.freq, len), Products(r.freq, Handed(r, t, len, c)));
    FatherWeight(r, t);
    CostArith(r.freq[r.m[t].0], r.freq[r.m[t].1], r.freq[r.elems + t], len[r.elems + t]);
  }

  lemma FatherWeight(r: Run, t: nat)
    requires r.Valid() && t < |r.m|
    ensures r.m[t].0 < |r.freq| && r.m[t].1 < |r.freq| && r.elems + t < |r.freq|
    ensures r.freq[r.elems + t] == r.freq[r.m[t].0] + r.freq[r.m[t].1]
  {
  }

  lemma CostArith(u: nat, v: nat, w: nat, l: nat)
    requires w == u + v
    ensures u * (l + 1) + v * (l + 1) == w * l + w
  {
  }

  /** Handing the lengths down across one merge. */
  lemma PassStep(r: Run, t: nat, len: seq<nat>, max: nat, excess: nat)
    requires r.Valid() && t < |r.m| && 1 <= max <= MAXBITS
    requires PassKraft(r, t + 1, len, max, excess)
    ensures r.m[t].0 < |len| && r.m[t].1 < |len| && r.elems + t < |len| && len[r.elems + t] <= max
    ensures var p := len[r.elems + t];
            PassKraft(r, t, Handed(r, t, len, Cap(p, max)), max, excess + if p == max then 1 else 0)
  {
    hide Sum, Pow2, Width, Run.Valid, Run.At, Cost, MergeCost, PassDepth;
    RunFacts(r, t);
    DepthStep(r, t, len, max, excess);
    var p := len[r.elems + t];
    var excess' := excess + if p == max then 1 else 0;
    KraftHanded(r, t, len, max);
    AtMaxHanded(r, t, len, max);
    Distribute(excess, 1, Width(max));
    if p < max {
      CostHanded(r, t, len, p + 1);
      MergeCostStep(r, t);
    }
  }

  lemma MergeCostStep(r: Run, t: nat)
    requires r.Valid() && t < |r.m|
    ensures MergeCost(r.m, r.elems, r.freq, t) == r.freq[r.elems + t] + MergeCost(r.m, r.elems, r.freq, t + 1)
  {
  }

  /** At the root there is nothing to hand down yet. */
  lemma PassStart(r: Run, len: seq<nat>, max: nat)
    requires r.Valid() && 1 <= max <= MAXBITS && |len| == |r.freq| && r.elems + |r.m| <= |len|
    requires len[r.elems + |r.m| - 1] == 0
    ensures PassKraft(r, |r.m|, len, max, 0)
  {
    hide Sum, Run.Valid, Run.At, Width, Pow2, PassDepth;
    var root := r.elems + |r.m| - 1;
    DepthStart(r, len, max);
    RootAlone(r);
    SumOne(Scaled(MAXBITS, len), root);
    SumOne(AtLength(len, max), root);
    SumOne(Products(r.freq, len), root);
    MergeCostEnd(r);
  }

  lemma MergeCostEnd(r: Run)
    requires r.Valid()
    ensures MergeCost(r.m, r.elems, r.freq, |r.m|) == 0 && |r.m| >= 1
  {
  }

  lemma RootAlone(r: Run)
    requires r.Valid()
    ensures |r.m| >= 1 && r.At(|r.m|) == {r.elems + |r.m| - 1}
  {
    hide Run.At, History, Weighted, Greedy;
    StateSize(r.m, r.leaves, r.elems, |r.m|);
    SingleState(r);
  }

  lemma SingleState(r: Run)
    requires r.Valid() && |State(r.m, r.leaves, r.elems, |r.m|)| == 1
    ensures r.At(|r.m|) == {r.elems + |r.m| - 1}
  {
    hide History, Weighted, Greedy;
    var s, root := r.At(|r.m|), r.elems + |r.m| - 1;
    assert root in s;
    assert |s - {root}| == 0;
  }

  lemma SumOne(f: seq<nat>, x: nat)
    requires x < |f|
    ensures Sum({x}, f) == f[x]
  {
    SumRemove({x}, f, x);
    assert {x} - {x} == {};
    SumNone(f);
  }

  // ------------------------------------------------------------ what the first pass adds up

  /** A node in the queue is a leaf or an inner node. */
  lemma {:induction false} LeafOrInner(r: Run, t: nat, x: nat)
    requires r.Valid() && t <= |r.m| && x in r.At(t)
    ensures x in r.leaves || r.elems <= x < r.elems + t
  {
    hide Run.Valid;
    if t > 0 && x != r.elems + t - 1 { LeafOrInner(r, t - 1, x); }
  }

  /** A sum over leaves only grows by the sons that are leaves. */
  lemma LeafSum(r: Run, t: nat, f: seq<nat>, f': seq<nat>)
    requires r.Valid() && t < |r.m| && |f| == |f'| == |r.freq|
    requires forall x: nat | x < |f| && x != r.m[t].0 && x != r.m[t].1 :: f'[x] == f[x]
    requires r.elems + t < |f| && f[r.elems + t] == 0
    ensures r.m[t].0 < |f| && r.m[t].1 < |f|
    ensures Sum(r.At(t), f') == Sum(r.At(t + 1), f) + f'[r.m[t].0] + f'[r.m[t].1]
  {
    hide Sum, Run.Valid, Run.At;
    UnmergeAt(r, t, f, f');
  }

  /** The totals after undoing merges down to `t`. */
  ghost predicate PassTotals(r: Run, t: nat, d: TreeDesc, len: seq<nat>, slen: seq<nat>, bl: seq<nat>, opt: int, stat: int)
    requires r.Valid() && t <= |r.m| && d.extraBase + |d.extraBits| == d.elems
  {
    && |len| == |slen| == |r.freq| && |bl| == MAXBITS + 1 && d.elems == r.elems
    && (forall b | 0 <= b <= MAXBITS :: bl[b] == Sum(r.At(t), LeafAt(r.elems, len, b)))
    && opt == Sum(r.At(t), LeafBits(d, r.freq, len))
    && stat == Sum(r.At(t), LeafBits(d, r.freq, slen))
  }

  /** Bits that a node adds to a total: those of a leaf, none for an inner node. */
  function NodeBits(d: TreeDesc, n: nat, f: nat, l: nat): nat
    requires d.extraBase + |d.extraBits| == d.elems
  {
    if n < d.elems then SymbolBits(d, n, f, l) else 0
  }

  function Tally(bl: seq<nat>, d: TreeDesc, n: nat, c: nat): seq<nat>
    requires c < |bl|
  {
    if n < d.elems then bl[c := bl[c] + 1] else bl
  }

  lemma TotalsStep(r: Run, t: nat, d: TreeDesc, len: seq<nat>, slen: seq<nat>, bl: seq<nat>, opt: int, stat: int, c: nat)
    requires r.Valid() && t < |r.m| && d.extraBase + |d.extraBits| == d.elems && c <= MAXBITS
    requires PassTotals(r, t + 1, d, len, slen, bl, opt, stat)
    ensures r.m[t].0 < |len| && r.m[t].1 < |len|
    ensures var a, b := r.m[t].0, r.m[t].1;
            PassTotals(r, t, d, Handed(r, t, len, c), slen, Tally(Tally(bl, d, b, c), d, a, c),
                       opt + NodeBits(d, b, r.freq[b], c) + NodeBits(d, a, r.freq[a], c),
                       stat + NodeBits(d, b, r.freq[b], slen[b]) + NodeBits(d, a, r.freq[a], slen[a]))
  {
    hide Sum, Run.Valid, Run.At, SymbolBits;
    RunFacts(r, t);
    var a, b := r.m[t].0, r.m[t].1;
    var len' := Handed(r, t, len, c);
    LeafSum(r, t, LeafBits(d, r.freq, len), LeafBits(d, r.freq, len'));
    LeafSum(r, t, LeafBits(d, r.freq, slen), LeafBits(d, r.freq, slen));
    forall k | 0 <= k <= MAXBITS
      ensures Tally(Tally(bl, d, b, c), d, a, c)[k] == Sum(r.At(t), LeafAt(r.elems, len', k))
    {
      LeafSum(r, t, LeafAt(r.elems, len, k), LeafAt(r.elems, len', k));
    }
  }

  lemma TotalsStart(r: Run, d: TreeDesc, len: seq<nat>, slen: seq<nat>)
    requires r.Valid() && d.extraBase + |d.extraBits| == d.elems == r.elems
    requires |len| == |slen| == |r.freq|
    ensures PassTotals(r, |r.m|, d, len, slen, seq(MAXBITS + 1, _ => 0), 0, 0)
  {
    hide Sum, Run.Valid, Run.At, SymbolBits;
    RootAlone(r);
    RunFacts(r, |r.m| - 1);
    var root := r.elems + |r.m| - 1;
    SumOne(LeafBits(d, r.freq, len), root);
    SumOne(LeafBits(d, r.freq, slen), root);
    forall k | 0 <= k <= MAXBITS
      ensures 0 == Sum(r.At(|r.m|), LeafAt(r.elems, len, k))
    {
      SumOne(LeafAt(r.elems, len, k), root);
    }
  }

  // ------------------------------------------------------------ what build_tree left in the arrays

  const HEAP_SIZE := 573

  /** The nodes in the order of their removal, from the end of the heap array down. */
  ghost predicate InOrder(r: Run, h: seq<nat>, heapMax: nat) {
    && |h| == HEAP_SIZE && heapMax + 2 * |r.m| == HEAP_SIZE - 1
    && (|r.m| >= 1 ==> h[heapMax] == r.elems + |r.m| - 1)
    && (forall t | 0 <= t < |r.m| :: h[HEAP_SIZE - 1 - 2 * t] == r.m[t].0)
    && (forall t | 0 <= t < |r.m| :: h[HEAP_SIZE - 2 - 2 * t] == r.m[t].1)
  }

  /** The fathers of the nodes removed by the first `k` merges. */
  ghost predicate Dads(r: Run, k: nat, dl: seq<nat>) {
    && k <= |r.m|
    && forall t | 0 <= t < k ::
         && r.m[t].0 < |dl| && r.m[t].1 < |dl|
         && dl[r.m[t].0] == r.elems + t && dl[r.m[t].1] == r.elems + t
  }

  /** A node removed by an earlier merge is no longer in the queue. */
  lemma {:induction false} RemovedEarlier(r: Run, j: nat, t: nat)
    requires r.Valid() && j < t <= |r.m|
    ensures r.m[j].0 !in r.At(t) && r.m[j].1 !in r.At(t)
    decreases t
  {
    hide Run.Valid;
    RunFacts(r, j);
    if j + 1 < t { RemovedEarlier(r, j, t - 1); }
  }

  /** Handing lengths to the sons of merge `t` leaves earlier fathers in place. */
  lemma DadsKept(r: Run, t: nat, dl: seq<nat>, c: nat)
    requires r.Valid() && t < |r.m| && Dads(r, t + 1, dl)
    ensures Dads(r, t, Handed(r, t, dl, c))
  {
    hide Run.Valid, Run.At;
    RunFacts(r, t);
    forall j | 0 <= j < t
      ensures r.m[j].0 != r.m[t].0 && r.m[j].0 != r.m[t].1 && r.m[j].1 != r.m[t].0 && r.m[j].1 != r.m[t].1
    {
      RemovedEarlier(r, j, t);
    }
  }

  // ------------------------------------------------------------ repairing the counts

  /** Kraft sum of `c[b]` words of each length `b` up to `l`. */
  ghost function KraftOf(c: seq<nat>, l: nat): nat
    requires l <= MAXBITS < |c|
  {
    if l == 0 then 0 else KraftOf(c, l - 1) + c[l] * Width(l)
  }

  ghost function TotalOf(c: seq<nat>, l: nat): nat
    requires l <= MAXBITS < |c|
  {
    if l == 0 then 0 else TotalOf(c, l - 1) + c[l]
  }

  lemma {:induction false} UpdateCount(c: seq<nat>, b: nat, v: nat, l: nat)
    requires 1 <= b <= MAXBITS && l <= MAXBITS < |c|
    ensures KraftOf(c[b := v], l) == KraftOf(c, l) + if b <= l then (v - c[b]) * Width(b) else 0
    ensures TotalOf(c[b := v], l) == TotalOf(c, l) + if b <= l then v - c[b] else 0
  {
    hide Width;
    if l > 0 {
      UpdateCount(c, b, v, l - 1);
      if l == b { Distribute(v - c[b], c[b], Width(b)); }
    }
  }

  /** With words of the greatest length only, sum and number agree. */
  lemma {:induction false} OnlyGreatest(c: seq<nat>, max: nat, l: nat)
    requires 1 <= max <= MAXBITS && l <= MAXBITS < |c|
    requires forall b | 1 <= b <= MAXBITS && b != max :: c[b] == 0
    ensures KraftOf(c, l) == if max <= l then c[max] * Width(max) else 0
    ensures TotalOf(c, l) == if max <= l then c[max] else 0
  {
    hide Width;
    if l > 0 { OnlyGreatest(c, max, l - 1); }
  }

  /** Counts whose Kraft sum is one and `excess` units of 2^-max. */
  ghost predicate Excessive(c: seq<nat>, max: nat, excess: nat, n: nat)
    requires 1 <= max <= MAXBITS
  {
    && |c| == MAXBITS + 1 && c[0] == 0 && (forall b | max < b <= MAXBITS :: c[b] == 0)
    && KraftOf(c, MAXBITS) == Unit() + excess * Width(max)
    && TotalOf(c, MAXBITS) == n && c[max] >= excess
  }

  /** Words of the greatest length only do not exceed one, if there are no more than fit. */
  lemma GreatestFit(c: seq<nat>, max: nat)
    requires 1 <= max <= MAXBITS < |c| && TotalOf(c, MAXBITS) <= Pow2(max)
    requires forall b | 1 <= b <= MAXBITS && b != max :: c[b] == 0
    ensures KraftOf(c, MAXBITS) <= Unit()
  {
    hide Pow2, KraftOf, TotalOf;
    OnlyGreatest(c, max, MAXBITS);
    Pow2Add(max, MAXBITS - max);
    MulMono(c[max], Pow2(max), Width(max));
  }

  /** Some word is shorter than the maximum, so the search in the repair loop succeeds. */
  lemma ShorterExists(c: seq<nat>, max: nat, excess: nat, n: nat)
    requires 1 <= max <= MAXBITS && Excessive(c, max, excess, n) && excess > 0 && n <= Pow2(max)
    ensures exists b :: 1 <= b < max && c[b] > 0
  {
    hide Pow2, KraftOf, TotalOf, Width;
    MulBound(Width(max), excess);
    assert excess * Width(max) == Width(max) * excess;
    if forall b | 1 <= b < max :: c[b] == 0 {
      GreatestFit(c, max);
    }
  }

  /** One repair: a leaf of length `b` moves down and an overflow item becomes its brother. */
  lemma RepairStep(c: seq<nat>, max: nat, excess: nat, n: nat, b: nat) returns (c': seq<nat>)
    requires 1 <= max <= MAXBITS && Excessive(c, max, excess, n) && excess > 0
    requires 1 <= b < max && c[b] > 0
    ensures var c1 := c[b := c[b] - 1];
            var c2 := c1[b + 1 := c1[b + 1] + 2];
            c2[max] > 0 && c' == c2[max := c2[max] - 1]
    ensures Excessive(c', max, excess - 1, n)
  {
    hide Width, KraftOf, TotalOf;
    var c1: seq<nat> := c[b := c[b] - 1];
    var c2: seq<nat> := c1[b + 1 := c1[b + 1] + 2];
    c' := c2[max := c2[max] - 1];
    UpdateCount(c, b, c[b] - 1, MAXBITS);
    UpdateCount(c1, b + 1, c1[b + 1] + 2, MAXBITS);
    UpdateCount(c2, max, c2[max] - 1, MAXBITS);
    WidthHalf(b + 1);
    Distribute(excess - 1, 1, Width(max));
  }

  lemma ExcessiveSize(c: seq<nat>, max: nat, excess: nat, n: nat)
    requires 1 <= max <= MAXBITS && Excessive(c, max, excess, n)
    ensures |c| == MAXBITS + 1
  {
  }

  method RepairCounts(blCount: array<nat>, max: nat, overflow0: nat, ghost n: nat)
    requires 1 <= max <= MAXBITS && overflow0 % 2 == 0 && overflow0 > 0
    requires n <= Pow2(max)
    requires Excessive(blCount[..], max, overflow0 / 2, n)
    modifies blCount
    ensures Excessive(blCount[..], max, 0, n)
  {
    hide Excessive, Pow2;
    var overflow: int := overflow0;
    while overflow > 0
      invariant overflow >= 0 && overflow % 2 == 0
      invariant Excessive(blCount[..], max, overflow / 2, n)
    {
      ghost var c := blCount[..];
      ExcessiveSize(c, max, overflow / 2, n);
      ShorterExists(c, max, overflow / 2, n);
      var bits := max - 1;
      while blCount[bits] == 0
        invariant 1 <= bits < max && blCount[..] == c
        invariant exists b :: 1 <= b <= bits && c[b] > 0
        decreases bits
      {
        bits := bits - 1;
      }
      ghost var c' := RepairStep(c, max, overflow / 2, n, bits);
      blCount[bits] := blCount[bits] - 1;
      blCount[bits + 1] := blCount[bits + 1] + 2;
      blCount[max] := blCount[max] - 1;
      assert blCount[..] == c';
      overflow := overflow - 2;
    }
  }

  // ------------------------------------------------------------ counting leaves by length

  /** How many of the nodes of `s` below `n` are leaves of each length. */
  ghost function CountsTo(s: set<nat>, elems: nat, len: seq<nat>, n: nat): (c: seq<nat>)
    requires n <= |len|
    ensures |c| == MAXBITS + 1 && forall b | 0 <= b <= MAXBITS :: c[b] == SumTo(s, LeafAt(elems, len, b), n)
  {
    seq(MAXBITS + 1, b requires 0 <= b <= MAXBITS => SumTo(s, LeafAt(elems, len, b), n))
  }

  /** The nodes of `s` are leaves with lengths from 1 to 15. */
  ghost predicate LeavesInRange(s: set<nat>, elems: nat, len: seq<nat>) {
    elems <= |len| && forall x | x in s :: x < elems && 1 <= len[x] <= MAXBITS
  }

  lemma CountsToStep(s: set<nat>, elems: nat, len: seq<nat>, n: nat)
    requires LeavesInRange(s, elems, len) && n < |len|
    ensures n in s ==> CountsTo(s, elems, len, n + 1) ==
                       CountsTo(s, elems, len, n)[len[n] := CountsTo(s, elems, len, n)[len[n]] + 1]
    ensures n !in s ==> CountsTo(s, elems, len, n + 1) == CountsTo(s, elems, len, n)
  {
  }

  lemma IncrementCount(c: seq<nat>, b: nat)
    requires 1 <= b <= MAXBITS < |c|
    ensures KraftOf(c[b := c[b] + 1], MAXBITS) == KraftOf(c, MAXBITS) + Width(b)
    ensures TotalOf(c[b := c[b] + 1], MAXBITS) == TotalOf(c, MAXBITS) + 1
  {
    hide KraftOf, TotalOf, Width;
    UpdateCount(c, b, c[b] + 1, MAXBITS);
    assert 1 * Width(b) == Width(b);
  }

  ghost function Below(s: set<nat>, n: nat): set<nat> {
    set x | x in s && x < n
  }

  lemma BelowStep(s: set<nat>, n: nat)
    ensures |Below(s, n + 1)| == |Below(s, n)| + if n in s then 1 else 0
  {
    assert Below(s, n + 1) == if n in s then Below(s, n) + {n} else Below(s, n);
  }

  lemma {:induction false} CountsSum(s: set<nat>, elems: nat, len: seq<nat>, n: nat)
    requires LeavesInRange(s, elems, len) && n <= |len|
    ensures var c := CountsTo(s, elems, len, n);
            && c[0] == 0
            && KraftOf(c, MAXBITS) == SumTo(s, Scaled(MAXBITS, len), n)
            && TotalOf(c, MAXBITS) == |Below(s, n)|
  {
    hide KraftOf, TotalOf, CountsTo, LeafAt, Width, Pow2, Below;
    if n == 0 {
      CountsZero(s, elems, len);
      assert |Below(s, 0)| == 0 by { BelowZero(s); }
    } else {
      CountsSum(s, elems, len, n - 1);
      CountsToStep(s, elems, len, n - 1);
      BelowStep(s, n - 1);
      if n - 1 in s {
        IncrementCount(CountsTo(s, elems, len, n - 1), len[n - 1]);
        WidthIs(len[n - 1]);
      }
    }
  }

  lemma BelowZero(s: set<nat>)
    ensures |Below(s, 0)| == 0
  {
    assert Below(s, 0) == {};
  }

  lemma WidthIs(l: nat)
    requires l <= MAXBITS
    ensures Width(l) == Pow2(MAXBITS - l)
  {
  }

  lemma CountsZero(s: set<nat>, elems: nat, len: seq<nat>)
    ensures CountsTo(s, elems, len, 0)[0] == 0
    ensures KraftOf(CountsTo(s, elems, len, 0), MAXBITS) == 0 && TotalOf(CountsTo(s, elems, len, 0), MAXBITS) == 0
  {
    AllZero(CountsTo(s, elems, len, 0), MAXBITS);
  }

  lemma {:induction false} AllZero(c: seq<nat>, l: nat)
    requires l <= MAXBITS < |c| && forall b | 0 <= b <= MAXBITS :: c[b] == 0
    ensures KraftOf(c, l) == 0 && TotalOf(c, l) == 0
  {
    if l > 0 { AllZero(c, l - 1); }
  }

  ghost function Counts(s: set<nat>, elems: nat, len: seq<nat>): (c: seq<nat>)
    ensures |c| == MAXBITS + 1 && forall b | 0 <= b <= MAXBITS :: c[b] == Sum(s, LeafAt(elems, len, b))
  {
    CountsTo(s, elems, len, |len|)
  }

  lemma CountsAll(s: set<nat>, elems: nat, len: seq<nat>)
    requires LeavesInRange(s, elems, len)
    ensures var c := Counts(s, elems, len);
            && c[0] == 0
            && KraftOf(c, MAXBITS) == Sum(s, Scaled(MAXBITS, len))
            && TotalOf(c, MAXBITS) == |s|
  {
    hide KraftOf, TotalOf, LeafAt;
    CountsSum(s, elems, len, |len|);
    assert Below(s, |len|) == s;
  }

  // ------------------------------------------------------------ after the first pass

  /** The first pass leaves counts that are excessive by half of `overflow`. */
  lemma FirstPassDone(r: Run, d: TreeDesc, len: seq<nat>, slen: seq<nat>, bl: seq<nat>, opt: int, stat: int, excess: nat)
    requires r.Valid() && d.extraBase + |d.extraBits| == d.elems && 1 <= d.maxLength <= MAXBITS
    requires PassKraft(r, 0, len, d.maxLength, excess)
    requires PassTotals(r, 0, d, len, slen, bl, opt, stat)
    ensures LeavesInRange(r.leaves, r.elems, len)
    ensures bl == Counts(r.leaves, r.elems, len)
    ensures Excessive(bl, d.maxLength, excess, |r.leaves|)
  {
    hide KraftOf, TotalOf, Sum, PassDepth;
    LeavesBelow(r);
    CountsAll(r.leaves, r.elems, len);
    assert bl == Counts(r.leaves, r.elems, len);
    SumAgree(r.leaves, AtLength(len, d.maxLength), LeafAt(r.elems, len, d.maxLength));
    forall b | d.maxLength < b <= MAXBITS
      ensures bl[b] == 0
    {
      NoneThere(r.leaves, LeafAt(r.elems, len, b));
    }
  }

  lemma LeavesBelow(r: Run)
    requires r.Valid()
    ensures forall x | x in r.leaves :: x < r.elems
    ensures r.At(0) == r.leaves && r.elems + |r.m| <= |r.freq|
  {
  }

  lemma NoneThere(s: set<nat>, f: seq<nat>)
    requires forall x: nat | x < |f| && x in s :: f[x] == 0
    ensures Sum(s, f) == 0
  {
    var z := seq(|f|, _ => 0);
    SumAgree(s, f, z);
    ZeroSum(s, z, |z|);
  }

  lemma {:induction false} ZeroSum(s: set<nat>, z: seq<nat>, n: nat)
    requires n <= |z| && forall x: nat | x < |z| :: z[x] == 0
    ensures SumTo(s, z, n) == 0
  {
    if n > 0 { ZeroSum(s, z, n - 1); }
  }

  // ------------------------------------------------------------ handing out the repaired lengths

  /** The node at place `p` of the removal order. */
  ghost function NodeAt(r: Run, p: nat): nat
    requires HEAP_SIZE - 1 - 2 * |r.m| < p < HEAP_SIZE
  {
    var t := (HEAP_SIZE - 1 - p) / 2;
    if (HEAP_SIZE - 1 - p) % 2 == 0 then r.m[t].0 else r.m[t].1
  }

  lemma NodeAtIs(r: Run, h: seq<nat>, heapMax: nat, p: nat)
    requires InOrder(r, h, heapMax) && heapMax < p < HEAP_SIZE
    ensures h[p] == NodeAt(r, p)
  {
    var t := (HEAP_SIZE - 1 - p) / 2;
    assert h[HEAP_SIZE - 1 - 2 * t] == r.m[t].0 && h[HEAP_SIZE - 2 - 2 * t] == r.m[t].1;
  }

  /** No node is removed twice. */
  lemma RemovedOnce(r: Run, p: nat, q: nat)
    requires r.Valid() && HEAP_SIZE - 1 - 2 * |r.m| < p < q < HEAP_SIZE
    ensures NodeAt(r, p) != NodeAt(r, q)
  {
    hide Run.Valid, Run.At;
    var t, u := (HEAP_SIZE - 1 - p) / 2, (HEAP_SIZE - 1 - q) / 2;
    RunFacts(r, t);
    if u < t { RemovedEarlier(r, u, t); }
  }

  /** A leaf that has left the queue was removed by some merge. */
  lemma {:induction false} WasRemoved(r: Run, x: nat, t: nat) returns (j: nat)
    requires r.Valid() && x in r.leaves && t <= |r.m| && x !in r.At(t)
    ensures j < t && (r.m[j].0 == x || r.m[j].1 == x)
  {
    hide Run.Valid;
    assert t > 0;
    if x in r.At(t - 1) {
      j := t - 1;
    } else {
      j := WasRemoved(r, x, t - 1);
    }
  }

  /** Every leaf has a place in the removal order. */
  lemma LeafAppears(r: Run, x: nat) returns (p: nat)
    requires r.Valid() && x in r.leaves
    ensures HEAP_SIZE - 1 - 2 * |r.m| < p < HEAP_SIZE || 2 * |r.m| >= HEAP_SIZE
    ensures p < HEAP_SIZE && p > HEAP_SIZE - 1 - 2 * |r.m| ==> NodeAt(r, p) == x
  {
    hide Run.Valid, Run.At;
    RootAlone(r);
    LeavesBelow(r);
    var j := WasRemoved(r, x, |r.m|);
    if 2 * |r.m| >= HEAP_SIZE {
      p := HEAP_SIZE;
    } else {
      p := if r.m[j].0 == x then HEAP_SIZE - 1 - 2 * j else HEAP_SIZE - 2 - 2 * j;
    }
  }

  /** The leaves of `a` have their final lengths: all those longer than `bits`, all but `n` of length `bits`. */
  ghost predicate Assigned(leaves: set<nat>, elems: nat, len: seq<nat>, a: set<nat>, bl: seq<nat>, bits: nat, n: nat) {
    && a <= leaves && |bl| == MAXBITS + 1 && bits <= MAXBITS && n <= bl[bits]
    && LeavesInRange(a, elems, len)
    && forall b | 1 <= b <= MAXBITS ::
         Counts(a, elems, len)[b] == if b > bits then bl[b] else if b == bits then bl[b] - n else 0
  }

  lemma AssignOne(leaves: set<nat>, elems: nat, len: seq<nat>, a: set<nat>, bl: seq<nat>, bits: nat, n: nat, x: nat)
    requires Assigned(leaves, elems, len, a, bl, bits, n) && n > 0 && bits >= 1
    requires x in leaves && x !in a && x < elems <= |len|
    ensures Assigned(leaves, elems, len[x := bits], a + {x}, bl, bits, n - 1)
  {
    hide Sum;
    var len' := len[x := bits];
    forall b | 1 <= b <= MAXBITS
      ensures Counts(a + {x}, elems, len')[b] == Counts(a, elems, len)[b] + if b == bits then 1 else 0
    {
      SumAdd(a, LeafAt(elems, len', b), x);
      SumAgree(a, LeafAt(elems, len, b), LeafAt(elems, len', b));
    }
  }

  lemma AssignStart(leaves: set<nat>, elems: nat, len: seq<nat>, bl: seq<nat>, max: nat)
    requires |bl| == MAXBITS + 1 && 1 <= max <= MAXBITS && elems <= |len|
    requires forall b | max < b <= MAXBITS :: bl[b] == 0
    ensures Assigned(leaves, elems, len, {}, bl, max, bl[max])
  {
    hide Sum;
    forall b | 1 <= b <= MAXBITS
      ensures Counts({}, elems, len)[b] == 0
    {
      SumNone(LeafAt(elems, len, b));
    }
  }

  lemma {:induction false} TotalLe(c: seq<nat>, c': seq<nat>, l: nat, k: nat)
    requires l <= MAXBITS < |c| && MAXBITS < |c'|
    requires forall b | 1 <= b <= MAXBITS :: c[b] <= c'[b]
    ensures TotalOf(c, l) <= TotalOf(c', l)
    ensures 1 <= k <= l && c[k] < c'[k] ==> TotalOf(c, l) < TotalOf(c', l)
  {
    if l > 0 { TotalLe(c, c', l - 1, k); }
  }

  /** While lengths remain to be handed out there is a leaf without one. */
  lemma SomeUnassigned(leaves: set<nat>, elems: nat, len: seq<nat>, a: set<nat>, bl: seq<nat>, bits: nat, n: nat)
    requires Assigned(leaves, elems, len, a, bl, bits, n) && n > 0 && bits >= 1
    requires TotalOf(bl, MAXBITS) == |leaves|
    ensures exists x :: x in leaves && x !in a
  {
    hide TotalOf, KraftOf, Sum;
    CountsAll(a, elems, len);
    TotalLe(Counts(a, elems, len), bl, MAXBITS, bits);
    SmallerMisses(a, leaves);
  }

  /** In the end every leaf has a length and the counts are right. */
  lemma AssignEnd(leaves: set<nat>, elems: nat, len: seq<nat>, a: set<nat>, bl: seq<nat>)
    requires |bl| == MAXBITS + 1 && bl[0] == 0 && Assigned(leaves, elems, len, a, bl, 0, 0)
    requires TotalOf(bl, MAXBITS) == |leaves|
    ensures a == leaves && Counts(leaves, elems, len) == bl
  {
    hide TotalOf, KraftOf, Sum;
    CountsAll(a, elems, len);
    var c := Counts(a, elems, len);
    assert c == bl;
    SubsetSize(a, leaves);
  }

  lemma SmallerMisses(a: set<nat>, s: set<nat>)
    requires a <= s && |a| < |s|
    ensures exists x :: x in s && x !in a
  {
    var rest := s - a;
    assert s == a + rest;
    assert |rest| > 0;
    var x :| x in rest;
  }

  lemma SubsetSize(a: set<nat>, s: set<nat>)
    requires a <= s && |a| == |s|
    ensures a == s
  {
    var rest := s - a;
    assert s == a + rest;
    assert |rest| == 0;
  }

  /** Changing the length of a leaf changes the total by the difference times its frequency. */
  lemma LeafBitsUpdate(d: TreeDesc, leaves: set<nat>, freq: seq<nat>, len: seq<nat>, x: nat, bits: nat)
    requires d.extraBase + |d.extraBits| == d.elems && |freq| == |len| && d.elems <= |len|
    requires x in leaves && x < d.elems
    ensures Sum(leaves, LeafBits(d, freq, len[x := bits])) ==
            Sum(leaves, LeafBits(d, freq, len)) + (bits - len[x]) * freq[x]
  {
    hide Sum, SymbolBits;
    var f, f' := LeafBits(d, freq, len), LeafBits(d, freq, len[x := bits]);
    assert f' == f[x := SymbolBits(d, x, freq[x], bits)];
    SumUpdate(leaves, f, x, SymbolBits(d, x, freq[x], bits));
    SymbolBitsDiff(d, x, freq[x], len[x], bits);
  }

  lemma SymbolBitsDiff(d: TreeDesc, x: nat, f: nat, l: nat, bits: nat)
    requires x < d.extraBase + |d.extraBits|
    ensures SymbolBits(d, x, f, bits) == SymbolBits(d, x, f, l) + (bits - l) * f
  {
    var xb := d.XBits(x);
    assert f * (bits + xb) == f * (l + xb) + f * (bits - l);
  }

  /** `a` is the set of leaves at places `h` and up of the removal order. */
  ghost predicate Scanned(r: Run, h: nat, a: set<nat>) {
    && HEAP_SIZE - 1 - 2 * |r.m| < h <= HEAP_SIZE && 2 * |r.m| < HEAP_SIZE
    && (forall x | x in a :: exists p :: h <= p < HEAP_SIZE && NodeAt(r, p) == x)
    && (forall p | h <= p < HEAP_SIZE && NodeAt(r, p) in r.leaves :: NodeAt(r, p) in a)
  }

  lemma ScanStep(r: Run, h: nat, a: set<nat>)
    requires r.Valid() && Scanned(r, h, a) && h - 1 > HEAP_SIZE - 1 - 2 * |r.m|
    ensures var x := NodeAt(r, h - 1);
            && x !in a
            && (x in r.leaves ==> Scanned(r, h - 1, a + {x}))
            && (x !in r.leaves ==> Scanned(r, h - 1, a))
  {
    hide Run.Valid, NodeAt;
    var x := NodeAt(r, h - 1);
    if x in a {
      var p :| h <= p < HEAP_SIZE && NodeAt(r, p) == x;
      RemovedOnce(r, h - 1, p);
    }
    assert h - 1 <= h - 1 < HEAP_SIZE && NodeAt(r, h - 1) == x;
    forall y | y in a
      ensures exists p :: h - 1 <= p < HEAP_SIZE && NodeAt(r, p) == y
    {
      var p :| h <= p < HEAP_SIZE && NodeAt(r, p) == y;
      assert h - 1 <= p;
    }
  }

  /** A leaf not scanned yet lies below. */
  lemma ScanMore(r: Run, h: nat, a: set<nat>)
    requires r.Valid() && Scanned(r, h, a) && exists x :: x in r.leaves && x !in a
    ensures h - 1 > HEAP_SIZE - 1 - 2 * |r.m|
  {
    hide Run.Valid, NodeAt;
    var x :| x in r.leaves && x !in a;
    var p := LeafAppears(r, x);
  }

  // ------------------------------------------------------------ depths in the tree

  /** The depths of the nodes, handed down without a limit from the last merge to the `t`-th. */
  ghost function DepthsFrom(r: Run, t: nat): (s: seq<nat>)
    requires r.Valid() && t <= |r.m|
    ensures |s| == |r.freq|
    decreases |r.m| - t
  {
    if t == |r.m| then seq(|r.freq|, _ => 0)
    else
      var s := DepthsFrom(r, t + 1);
      RunFacts(r, t);
      Handed(r, t, s, s[r.elems + t] + 1)
  }

  /** The depth of every leaf in the Huffman tree. */
  ghost function Depths(r: Run): (s: seq<nat>)
    requires r.Valid()
    ensures |s| == |r.freq|
  {
    DepthsFrom(r, 0)
  }

  /** Lengths are the depths cut off at the maximum, and something is cut off if `excess` says so. */
  ghost predicate PassDepth(r: Run, t: nat, len: seq<nat>, max: nat, excess: nat)
    requires r.Valid() && t <= |r.m|
  {
    var deep := DepthsFrom(r, t);
    && |len| == |r.freq| && (forall x | x in r.At(t) :: x < |len|)
    && (forall x | x in r.At(t) :: len[x] == if deep[x] > max then max else deep[x])
    && (excess == 0 <==> forall x | x in r.At(t) :: deep[x] <= max)
  }

  lemma DepthStart(r: Run, len: seq<nat>, max: nat)
    requires r.Valid() && |len| == |r.freq| && r.elems + |r.m| <= |len| && len[r.elems + |r.m| - 1] == 0
    ensures PassDepth(r, |r.m|, len, max, 0)
  {
    hide Run.Valid, Run.At;
    RootAlone(r);
  }

  lemma DepthStep(r: Run, t: nat, len: seq<nat>, max: nat, excess: nat)
    requires r.Valid() && t < |r.m| && 1 <= max
    requires PassDepth(r, t + 1, len, max, excess)
    ensures r.m[t].0 < |len| && r.m[t].1 < |len| && r.elems + t < |len|
    ensures var p := len[r.elems + t];
            PassDepth(r, t, Handed(r, t, len, Cap(p, max)), max, excess + if p == max then 1 else 0)
  {
    hide Run.Valid, Run.At;
    RunFacts(r, t);
    var a, b, p := r.m[t].0, r.m[t].1, r.elems + t;
    var deep, deep' := DepthsFrom(r, t + 1), DepthsFrom(r, t);
    assert deep' == Handed(r, t, deep, deep[p] + 1);
    var len' := Handed(r, t, len, Cap(len[p], max));
    StateNext(r, t);
    var excess' := excess + if len[p] == max then 1 else 0;
    assert deep[p] < max <==> len[p] < max;
    if excess' == 0 {
      forall x | x in r.At(t)
        ensures deep'[x] <= max
      {
        if x != a && x != b { assert x in r.At(t + 1); }
      }
    } else if forall x | x in r.At(t) :: deep'[x] <= max {
      assert deep'[a] <= max;
      forall x | x in r.At(t + 1)
        ensures deep[x] <= max
      {
        if x != p { assert x in r.At(t) && deep'[x] == deep[x]; }
      }
    }
  }

  lemma StateNext(r: Run, t: nat)
    requires r.Valid() && t < |r.m|
    ensures forall x | x in r.At(t + 1) && x != r.elems + t :: x in r.At(t) && x != r.m[t].0 && x != r.m[t].1
  {
    hide Run.Valid;
    assert r.At(t + 1) == r.At(t) - {r.m[t].0, r.m[t].1} + {r.elems + t};
  }

  // ------------------------------------------------------------ less frequent leaves lie deeper

  /** A node removed later is not less frequent. */
  lemma RemovedSorted(r: Run, s: nat, t: nat)
    requires r.Valid() && s <= t < |r.m|
    ensures r.m[s].0 < |r.freq| && r.m[s].1 < |r.freq| && r.m[t].0 < |r.freq| && r.m[t].1 < |r.freq|
    ensures r.freq[r.m[s].0] <= r.freq[r.m[t].0] && r.freq[r.m[s].1] <= r.freq[r.m[t].1]
    ensures r.freq[r.m[s].0] <= r.freq[r.m[s].1] && (s < t ==> r.freq[r.m[s].1] <= r.freq[r.m[t].0])
    decreases t - s
  {
    hide Run.Valid, Run.At;
    LeastRemoved(r, s);
    LeastRemoved(r, t);
    if s < t {
      NextRemoved(r, s);
      RemovedSorted(r, s + 1, t);
    }
  }

  lemma LeastRemoved(r: Run, t: nat)
    requires r.Valid() && t < |r.m|
    ensures r.m[t].0 < |r.freq| && r.m[t].1 < |r.freq| && r.elems + t < |r.freq|
    ensures r.freq[r.m[t].0] <= r.freq[r.m[t].1] && r.freq[r.elems + t] == r.freq[r.m[t].0] + r.freq[r.m[t].1]
    ensures forall x | x in r.At(t) && x < |r.freq| && x != r.m[t].0 :: r.freq[r.m[t].1] <= r.freq[x]
  {
    hide State, TwoLeast;
    RunFacts(r, t);
    LeastOfBoth(r.At(t), r.m[t].0, r.m[t].1, r.freq);
  }

  lemma LeastOfBoth(s: set<nat>, a: nat, b: nat, freq: seq<nat>)
    requires a < |freq| && b < |freq| && TwoLeast(s, a, b, freq) && a in s && b in s
    ensures freq[a] <= freq[b] && forall x | x in s && x < |freq| && x != a :: freq[b] <= freq[x]
  {
  }

  lemma NextRemoved(r: Run, t: nat)
    requires r.Valid() && t + 1 < |r.m|
    ensures r.m[t].1 < |r.freq| && r.m[t + 1].0 < |r.freq| && r.freq[r.m[t].1] <= r.freq[r.m[t + 1].0]
  {
    hide Run.Valid, Run.At;
    LeastRemoved(r, t);
    LeastRemoved(r, t + 1);
    RunFacts(r, t + 1);
    StateNext(r, t);
  }

  /** Of two nodes, the one that is removed first has the less frequent father, or both are as frequent. */
  lemma FathersSorted(r: Run, s: nat, t: nat, u: nat, v: nat)
    requires r.Valid() && s < t < |r.m| && (u == r.m[s].0 || u == r.m[s].1) && (v == r.m[t].0 || v == r.m[t].1)
    requires u < |r.freq| && v < |r.freq| && r.freq[u] < r.freq[v]
    ensures r.elems + t < |r.freq| && r.freq[r.elems + s] < r.freq[r.elems + t]
  {
    hide Run.Valid, Run.At;
    LeastRemoved(r, s);
    LeastRemoved(r, t);
    RemovedSorted(r, s, t);
  }

  /** Every node but the root is removed by a later merge. */
  lemma {:induction false} IsRemoved(r: Run, x: nat, t: nat) returns (j: nat)
    requires r.Valid() && t <= |r.m| && x in r.At(t) && x != r.elems + |r.m| - 1
    ensures t <= j < |r.m| && (r.m[j].0 == x || r.m[j].1 == x)
    decreases |r.m| - t
  {
    hide Run.Valid, Run.At;
    RootAlone(r);
    assert t < |r.m|;
    RunFacts(r, t);
    if r.m[t].0 == x || r.m[t].1 == x {
      j := t;
    } else {
      j := IsRemoved(r, x, t + 1);
    }
  }

  /** The sons lie one deeper than their father. */
  lemma {:induction false} SonsDeeper(r: Run, k: nat, t: nat)
    requires r.Valid() && k <= t < |r.m|
    ensures r.m[t].0 < |r.freq| && r.m[t].1 < |r.freq| && r.elems + t < |r.freq|
    ensures var s := DepthsFrom(r, k); s[r.m[t].0] == s[r.m[t].1] == s[r.elems + t] + 1
    decreases |r.m| - k
  {
    hide Run.Valid, Run.At;
    RunFacts(r, t);
    RunFacts(r, k);
    if k < t {
      SonsDeeper(r, k + 1, t);
      RemovedEarlier(r, k, t);
    }
  }

  lemma {:induction false} RootDepth(r: Run, k: nat)
    requires r.Valid() && k <= |r.m|
    ensures r.elems + |r.m| - 1 < |r.freq| && DepthsFrom(r, k)[r.elems + |r.m| - 1] == 0
    decreases |r.m| - k
  {
    hide Run.Valid, Run.At;
    SomeMerge(r);
    RunFacts(r, |r.m| - 1);
    if k < |r.m| {
      RootDepth(r, k + 1);
      RunFacts(r, k);
    }
  }

  /** A less frequent node does not lie higher. */
  lemma {:induction false} RarerDeeper(r: Run, s: nat, t: nat, u: nat, v: nat)
    requires r.Valid() && s < |r.m| && t < |r.m| && (u == r.m[s].0 || u == r.m[s].1) && (v == r.m[t].0 || v == r.m[t].1)
    requires u < |r.freq| && v < |r.freq| && r.freq[u] < r.freq[v]
    ensures Depths(r)[u] >= Depths(r)[v]
    decreases |r.m| - s
  {
    hide Run.Valid, Run.At;
    SonsDeeper(r, 0, s);
    SonsDeeper(r, 0, t);
    if t < s { RemovedSorted(r, t, s); }
    if s < t {
      FathersSorted(r, s, t, u, v);
      RootDepth(r, 0);
      if t + 1 < |r.m| {
        RunFacts(r, s);
        RunFacts(r, t);
        var s' := IsRemoved(r, r.elems + s, s + 1);
        var t' := IsRemoved(r, r.elems + t, t + 1);
        RarerDeeper(r, s', t', r.elems + s, r.elems + t);
      }
    }
  }

  /** No leaf is longer than one that is less frequent. */
  ghost predicate ByFrequency(r: Run, len: seq<nat>) {
    forall x, y | x in r.leaves && y in r.leaves && x < |r.freq| && y < |r.freq| && x < |len| && y < |len| && r.freq[x] < r.freq[y] ::
      len[x] >= len[y]
  }

  lemma DepthsByFrequency(r: Run, len: seq<nat>)
    requires r.Valid() && |len| == |r.freq| && forall x | x in r.leaves && x < |len| :: len[x] == Depths(r)[x]
    ensures ByFrequency(r, len)
  {
    hide Run.Valid, Run.At, Depths;
    forall x, y | x in r.leaves && y in r.leaves && x < |r.freq| && y < |r.freq| && r.freq[x] < r.freq[y] ensures len[x] >= len[y] {
      LeavesBelow(r);
      RootAlone(r);
      var s := WasRemoved(r, x, |r.m|);
      var t := WasRemoved(r, y, |r.m|);
      RarerDeeper(r, s, t, x, y);
    }
  }

  /** The leaves `a` that have their lengths have at least `bits`, the more frequent not more. */
  ghost predicate Graded(r: Run, len: seq<nat>, a: set<nat>, bits: nat) {
    && (forall x | x in a && x < |len| :: len[x] >= bits)
    && forall x, y | x in a && y in a && x < |r.freq| && y < |r.freq| && x < |len| && y < |len| && r.freq[x] < r.freq[y] ::
         len[x] >= len[y]
  }

  lemma GradedStep(r: Run, len: seq<nat>, a: set<nat>, bits: nat, h: nat)
    requires r.Valid() && Scanned(r, h, a) && Graded(r, len, a, bits) && h - 1 > HEAP_SIZE - 1 - 2 * |r.m|
    requires NodeAt(r, h - 1) < |len| && NodeAt(r, h - 1) !in a
    ensures Graded(r, len[NodeAt(r, h - 1) := bits], a + {NodeAt(r, h - 1)}, bits)
  {
    hide Run.Valid, NodeAt;
    var m := NodeAt(r, h - 1);
    forall x | x in a && x < |r.freq| && m < |r.freq| ensures r.freq[x] <= r.freq[m] {
      var p :| h <= p < HEAP_SIZE && NodeAt(r, p) == x;
      PlacesSorted(r, h - 1, p);
    }
  }

  lemma PlacesSorted(r: Run, p: nat, q: nat)
    requires r.Valid() && HEAP_SIZE - 1 - 2 * |r.m| < p < q < HEAP_SIZE
    ensures NodeAt(r, p) < |r.freq| && NodeAt(r, q) < |r.freq| && r.freq[NodeAt(r, q)] <= r.freq[NodeAt(r, p)]
  {
    hide Run.Valid;
    RemovedSorted(r, (HEAP_SIZE - 1 - q) / 2, (HEAP_SIZE - 1 - p) / 2);
  }

  // ------------------------------------------------------------ from nodes to symbols

  lemma {:induction false} SumToTail(s: set<nat>, f: seq<nat>, m: nat, n: nat)
    requires m <= n <= |f| && forall x | x in s :: x < m
    ensures SumTo(s, f, n) == SumTo(s, f, m)
    decreases n
  {
    if m < n { SumToTail(s, f, m, n - 1); }
  }

  lemma {:induction false} CountIsSum(leaves: set<nat>, elems: nat, len: seq<nat>, b: nat, n: nat)
    requires n <= elems <= |len| && 1 <= b
    requires forall x | 0 <= x < elems :: x in leaves <==> len[x] > 0
    ensures Count(len[..elems], n, b) == SumTo(leaves, LeafAt(elems, len, b), n)
  {
    if n > 0 { CountIsSum(leaves, elems, len, b, n - 1); }
  }

  lemma {:induction false} KraftOfTotals(lens: seq<nat>, bl: seq<nat>, l: nat)
    requires l <= MAXBITS < |bl| && forall b | 1 <= b <= MAXBITS :: bl[b] == Total(lens, b)
    ensures KraftByLength(lens, |lens|, l) == KraftOf(bl, l)
  {
    hide Count;
    if l > 0 { KraftOfTotals(lens, bl, l - 1); }
  }

  /** The lengths of the symbols: counted right, and a complete code within the maximum. */
  lemma SymbolLengths(leaves: set<nat>, elems: nat, len: seq<nat>, bl: seq<nat>, max: nat)
    requires LeavesInRange(leaves, elems, len) && bl == Counts(leaves, elems, len)
    requires 1 <= max <= MAXBITS && Excessive(bl, max, 0, |leaves|)
    requires forall x | 0 <= x < elems && x !in leaves :: len[x] == 0
    ensures var lens := len[..elems];
            && ValidLens(lens) && Complete(lens)
            && (forall b | 1 <= b <= MAXBITS :: bl[b] == Total(lens, b))
            && (forall s | 0 <= s < elems :: lens[s] <= max)
  {
    hide KraftOf, TotalOf, Sum, Width;
    var lens := len[..elems];
    forall b | 1 <= b <= MAXBITS
      ensures bl[b] == Total(lens, b)
    {
      CountsOfSymbols(leaves, elems, len, b);
    }
    KraftOfTotals(lens, bl, MAXBITS);
    KraftGrouped(lens, |lens|);
    forall s | 0 <= s < elems
      ensures lens[s] <= max
    {
      if lens[s] > 0 { RankBelowTotal(lens, s); }
    }
  }

  lemma CountsOfSymbols(leaves: set<nat>, elems: nat, len: seq<nat>, b: nat)
    requires LeavesInRange(leaves, elems, len) && 1 <= b <= MAXBITS
    requires forall x | 0 <= x < elems && x !in leaves :: len[x] == 0
    ensures Counts(leaves, elems, len)[b] == Total(len[..elems], b)
  {
    CountIsSum(leaves, elems, len, b, elems);
    SumToTail(leaves, LeafAt(elems, len, b), elems, |len|);
  }

  /** Bits that all the symbols below `n` take with the given lengths, extra bits included. */
  function TotalBits(d: TreeDesc, freq: seq<nat>, lens: seq<nat>, n: nat): nat
    requires n <= d.extraBase + |d.extraBits| && n <= |freq| && n <= |lens|
  {
    if n == 0 then 0 else TotalBits(d, freq, lens, n - 1) + SymbolBits(d, n - 1, freq[n - 1], lens[n - 1])
  }

  /** The sum over the leaves counts the symbols, and the forced ones on top. */
  lemma {:induction false} LeafTotal(d: TreeDesc, f0: seq<nat>, f: seq<nat>, len: seq<nat>, leaves: set<nat>, forced: set<nat>, n: nat)
    requires d.extraBase + |d.extraBits| == d.elems && n <= d.elems <= |f| == |f0| == |len|
    requires forall x | 0 <= x < d.elems && x in forced :: f0[x] == 0 && f[x] == 1 && d.XBits(x) == 0
    requires forall x | 0 <= x < d.elems && x !in forced :: f[x] == f0[x]
    requires forall x | 0 <= x < d.elems :: x in leaves <==> f[x] != 0
    ensures SumTo(leaves, LeafBits(d, f, len), n) == TotalBits(d, f0, len, n) + SumTo(forced, len, n)
  {
    hide SymbolBits;
    if n > 0 {
      LeafTotal(d, f0, f, len, leaves, forced, n - 1);
      var x := n - 1;
      ZeroBits(d, x, len[x]);
    }
  }

  lemma ZeroBits(d: TreeDesc, x: nat, l: nat)
    requires x < d.extraBase + |d.extraBits|
    ensures SymbolBits(d, x, 0, l) == 0
    ensures d.XBits(x) == 0 ==> SymbolBits(d, x, 1, l) == l
  {
  }

  lemma {:induction false} SumOfOnes(s: set<nat>, f: seq<nat>, n: nat)
    requires n <= |f| && forall x | x in s :: x < |f| && f[x] == 1
    ensures SumTo(s, f, n) == |Below(s, n)|
  {
    hide Below;
    if n > 0 {
      SumOfOnes(s, f, n - 1);
      BelowStep(s, n - 1);
    } else {
      BelowZero(s);
    }
  }

  /** With two leaves both words are one bit long. */
  lemma TwoLeaves(leaves: set<nat>, elems: nat, len: seq<nat>, bl: seq<nat>, max: nat)
    requires LeavesInRange(leaves, elems, len) && bl == Counts(leaves, elems, len)
    requires 1 <= max <= MAXBITS && Excessive(bl, max, 0, |leaves|) && |leaves| == 2
    ensures forall x | x in leaves :: len[x] == 1
  {
    hide KraftOf, TotalOf, Sum;
    CountsAll(leaves, elems, len);
    var f := Scaled(MAXBITS, len);
    forall x | x in leaves
      ensures len[x] == 1
    {
      SumRemove(leaves, f, x);
      assert |leaves - {x}| == 1;
      var y :| y in leaves - {x};
      OneLeft(leaves - {x}, y);
      SumOne(f, y);
      HalfAtMost(len[x]);
      HalfAtMost(len[y]);
    }
  }

  lemma OneLeft(s: set<nat>, y: nat)
    requires |s| == 1 && y in s
    ensures s == {y}
  {
    assert |s - {y}| == 0;
  }

  lemma HalfAtMost(l: nat)
    requires 1 <= l <= MAXBITS
    ensures Pow2(MAXBITS - l) <= 16384 && (Pow2(MAXBITS - l) == 16384 ==> l == 1)
  {
    assert Pow2(14) == 16384;
    Pow2Mono(MAXBITS - l, 14);
  }
}
