/**
 `inflate_table` (inftrees.c): building the two-level decoding table of a canonical code.

 The property proved is the one the decoder rests on.  Whatever bits are in the accumulator,
 one access to the root table, followed by at most one access to a sub-table, finds the unique
 symbol whose code word those bits start with, and the total `bits` is the length of that word;
 where no code word matches the entry is the invalid marker.
 */
module InflateTable {
  import opened Bits
  import opened CanonicalCode

  datatype CodeType = CODES | LENS | DISTS

  /** One table entry, the C structure `code`. */
  datatype Entry = Entry(op: nat, bits: nat, val: nat)

  const ENOUGH_LENS := 852
  const ENOUGH_DISTS := 592

  /** Entry that forces a decoding error. */
  const INVALID := Entry(64, 1, 0)

  function LengthBase(i: nat): nat
    requires i < 31
  {
    match i
    case 0 => 3 case 1 => 4 case 2 => 5 case 3 => 6 case 4 => 7 case 5 => 8 case 6 => 9 case 7 => 10
    case 8 => 11 case 9 => 13 case 10 => 15 case 11 => 17 case 12 => 19 case 13 => 23 case 14 => 27
    case 15 => 31 case 16 => 35 case 17 => 43 case 18 => 51 case 19 => 59 case 20 => 67 case 21 => 83
    case 22 => 99 case 23 => 115 case 24 => 131 case 25 => 163 case 26 => 195 case 27 => 227 case 28 => 258
    case 29 => 0 case _ => 0
  }

  function LengthOp(i: nat): (r: nat)
    requires i < 31
    ensures 16 <= r < 256
  {
    match i
    case 0 => 16 case 1 => 16 case 2 => 16 case 3 => 16 case 4 => 16 case 5 => 16 case 6 => 16 case 7 => 16
    case 8 => 17 case 9 => 17 case 10 => 17 case 11 => 17 case 12 => 18 case 13 => 18 case 14 => 18
    case 15 => 18 case 16 => 19 case 17 => 19 case 18 => 19 case 19 => 19 case 20 => 20 case 21 => 20
    case 22 => 20 case 23 => 20 case 24 => 21 case 25 => 21 case 26 => 21 case 27 => 21 case 28 => 16
    case 29 => 199 case _ => 75
  }

  function DistBase(i: nat): nat
    requires i < 32
  {
    match i
    case 0 => 1 case 1 => 2 case 2 => 3 case 3 => 4 case 4 => 5 case 5 => 7 case 6 => 9 case 7 => 13
    case 8 => 17 case 9 => 25 case 10 => 33 case 11 => 49 case 12 => 65 case 13 => 97 case 14 => 129
    case 15 => 193 case 16 => 257 case 17 => 385 case 18 => 513 case 19 => 769 case 20 => 1025 case 21 => 1537
    case 22 => 2049 case 23 => 3073 case 24 => 4097 case 25 => 6145 case 26 => 8193 case 27 => 12289
    case 28 => 16385 case 29 => 24577 case 30 => 0 case _ => 0
  }

  function DistOp(i: nat): (r: nat)
    requires i < 32
    ensures 16 <= r < 256
  {
    match i
    case 0 => 16 case 1 => 16 case 2 => 16 case 3 => 16 case 4 => 17 case 5 => 17 case 6 => 18 case 7 => 18
    case 8 => 19 case 9 => 19 case 10 => 20 case 11 => 20 case 12 => 21 case 13 => 21 case 14 => 22
    case 15 => 22 case 16 => 23 case 17 => 23 case 18 => 24 case 19 => 24 case 20 => 25 case 21 => 25
    case 22 => 26 case 23 => 26 case 24 => 27 case 25 => 27 case 26 => 28 case 27 => 28 case 28 => 29
    case 29 => 29 case 30 => 64 case _ => 64
  }

  /** Symbols from this one on take their entry from the base and extra tables. */
  function MatchFrom(kind: CodeType): nat {
    match kind
    case CODES => 20
    case LENS => 257
    case DISTS => 0
  }

  /** How many symbols the callers of each kind may pass. */
  function MaxSymbols(kind: CodeType): nat {
    match kind
    case CODES => 19
    case LENS => 288
    case DISTS => 32
  }

  /** The entry for symbol `s` of which `bits` code bits are left at this level. */
  function SymbolEntry(kind: CodeType, s: nat, bits: nat): (e: Entry)
    requires s < MaxSymbols(kind)
    ensures e.bits == bits
    ensures !IsLink(e)
  {
    var m := MatchFrom(kind);
    if s + 1 < m then Entry(0, bits, s)
    else if s >= m then
      if kind == LENS then Entry(LengthOp(s - m), bits, LengthBase(s - m))
      else Entry(DistOp(s - m), bits, DistBase(s - m))
    else Entry(96, bits, 0)
  }

  predicate IsLink(e: Entry) {
    0 < e.op < 16
  }

  /**
   What the decoder does with an accumulator `v`: index the root table with the low `root`
   bits and, if the entry is a link, index the sub-table with the bits that follow.  The
   result carries the total number of bits of the code.
   */
  function Lookup(tab: seq<Entry>, root: nat, v: nat): Entry {
    var i := Low(v, root);
    if i >= |tab| then INVALID
    else if !IsLink(tab[i]) then tab[i]
    else
      var j := tab[i].val + Low(Shr(v, tab[i].bits), tab[i].op);
      if j >= |tab| then INVALID
      else Entry(tab[j].op, tab[i].bits + tab[j].bits, tab[j].val)
  }

  /** `tab` decodes the canonical code with lengths `lens`. */
  ghost predicate Decodes(tab: seq<Entry>, root: nat, kind: CodeType, lens: seq<nat>)
    requires |lens| <= MaxSymbols(kind)
  {
    && (forall v: nat, s: nat :: Matches(lens, s, v) ==>
          Lookup(tab, root, v) == SymbolEntry(kind, s, lens[s]))
    && (forall v: nat :: NoMatch(lens, v) ==> Lookup(tab, root, v) == INVALID)
  }

  /** Lookups stay inside the table; the links, if there may be any, lead to sub-tables in it. */
  ghost predicate Closed(tab: seq<Entry>, root: nat, links: bool) {
    && Pow2(root) <= |tab|
    && forall i | 0 <= i < Pow2(root) && IsLink(tab[i]) ::
         links && tab[i].bits == root && tab[i].val + Pow2(tab[i].op) <= |tab|
  }

  ghost predicate NoMatch(lens: seq<nat>, v: nat) {
    forall s: nat :: !Matches(lens, s, v)
  }

  /** Lengths for which no table is built: see `InflateTable`. */
  ghost predicate Rejected(kind: CodeType, lens: seq<nat>) {
    || OverSubscribed(lens)
    || (Kraft(lens) < Unit() && exists s :: 0 <= s < |lens| && lens[s] > (if kind == CODES then 0 else 1))
  }

  // ------------------------------------------------------------ backwards increment

  predicate Bit(x: nat, i: nat) {
    Shr(x, i) % 2 == 1
  }

  /** Add one to the `n`-bit reversed word `h`, carrying from the high end down. */
  function BackInc(h: nat, n: nat): nat {
    if n == 0 then 0
    else if Bit(h, n - 1) then BackInc(h, n - 1)
    else Low(h, n - 1) + Pow2(n - 1)
  }

  lemma BitOfSum(lo: nat, n: nat, i: nat, b: nat)
    requires i < n && lo < Pow2(n)
    ensures Bit(lo + Pow2(n) * b, i) == Bit(lo, i)
    ensures Low(lo + Pow2(n) * b, i) == Low(lo, i)
  {
    SplitUnique(lo, b, n);
    BitOfLow(lo + Pow2(n) * b, n, i);
  }

  lemma LowEven(y: nat, n: nat)
    requires n > 0
    ensures Low(y, n) % 2 == y % 2
  {
  }

  lemma BitOfLow(x: nat, n: nat, i: nat)
    requires i < n
    ensures Bit(Low(x, n), i) == Bit(x, i)
    ensures Low(Low(x, n), i) == Low(x, i)
  {
    hide Low, Shr, Pow2;
    LowLow(x, n, i);
    LowAdd(x, i, n - i);
    LowEven(Shr(x, i), n - i);
  }

  lemma {:induction false} BackIncLow(lo: nat, n: nat, m: nat, b: nat)
    requires m <= n && lo < Pow2(n)
    ensures BackInc(lo + Pow2(n) * b, m) == BackInc(lo, m)
  {
    if m > 0 {
      BitOfSum(lo, n, m - 1, b);
      BackIncLow(lo, n, m - 1, b);
    }
  }

  lemma BackIncCases(lo: nat, n: nat)
    requires lo < Pow2(n)
    ensures BackInc(lo, n + 1) == lo + Pow2(n)
    ensures BackInc(lo + Pow2(n), n + 1) == BackInc(lo, n)
  {
    LowSmall(lo, n);
    assert lo + Pow2(n) * 1 == lo + Pow2(n);
    SplitUnique(lo, 1, n);
    BackIncLow(lo, n, n, 1);
  }

  /** Incrementing backwards the reversal of a word reverses the incremented word. */
  lemma {:induction false} BackIncRev(n: nat, x: nat)
    ensures BackInc(Rev(n, x), n) == Rev(n, x + 1)
  {
    hide Low, Shr, Bit;
    if n > 0 {
      BackIncCases(Rev(n - 1, x / 2), n - 1);
      BackIncRev(n - 1, x / 2);
      if x % 2 == 1 {
        assert (x + 1) / 2 == x / 2 + 1;
      } else {
        assert (x + 1) / 2 == x / 2;
      }
    }
  }

  /** The `len`-bit code `huff` incremented backwards, as in the table-filling loop. */
  method BackwardIncrement(huff: nat, len: nat) returns (r: nat)
    requires len >= 1 && huff < Pow2(len)
    ensures r == Rev(len, Rev(len, huff) + 1)
  {
    var i: int := len - 1;              // incr is 1 << i, or zero once i is -1
    while i >= 0 && Bit(huff, i)
      invariant -1 <= i < len
      invariant BackInc(huff, len) == BackInc(huff, i + 1)
    {
      i := i - 1;
    }
    if i >= 0 {
      r := Low(huff, i) + Pow2(i);
    } else {
      r := 0;
    }
    RevRev(len, huff);
    LowSmall(huff, len);
    BackIncRev(len, Rev(len, huff));
  }

  // ------------------------------------------------------------ sorting the symbols

  /** Symbols with code words shorter than `l`. */
  function Offset(lens: seq<nat>, l: nat): nat {
    if l <= 1 then 0 else Offset(lens, l - 1) + Total(lens, l - 1)
  }

  /** Place of `s` when used symbols are sorted by length and then by symbol. */
  function Index(lens: seq<nat>, s: nat): nat
    requires s < |lens|
  {
    Offset(lens, lens[s]) + Rank(lens, s)
  }

  function Used(lens: seq<nat>): nat {
    Offset(lens, MAXBITS + 1)
  }

  lemma {:induction false} OffsetMono(lens: seq<nat>, l: nat, m: nat)
    requires 1 <= l < m
    ensures Offset(lens, l) + Total(lens, l) <= Offset(lens, m)
  {
    if l + 1 < m { OffsetMono(lens, l, m - 1); }
  }

  lemma IndexBounds(lens: seq<nat>, s: nat)
    requires s < |lens| && 0 < lens[s] <= MAXBITS
    ensures Index(lens, s) < Offset(lens, lens[s]) + Total(lens, lens[s]) <= Used(lens)
  {
    RankBelowTotal(lens, s);
    OffsetMono(lens, lens[s], MAXBITS + 1);
  }

  lemma IndexInjective(lens: seq<nat>, s: nat, t: nat)
    requires s < |lens| && t < |lens|
    requires 0 < lens[s] <= MAXBITS && 0 < lens[t] <= MAXBITS
    requires Index(lens, s) == Index(lens, t)
    ensures s == t
  {
    IndexBounds(lens, s);
    IndexBounds(lens, t);
    if lens[s] < lens[t] {
      OffsetMono(lens, lens[s], lens[t]);
    } else if lens[t] < lens[s] {
      OffsetMono(lens, lens[t], lens[s]);
    } else {
      RankInjective(lens, s, t);
    }
  }

  lemma IndexFresh(lens: seq<nat>, sym: nat)
    requires ValidLens(lens) && sym < |lens| && lens[sym] > 0
    ensures forall s | 0 <= s < sym && lens[s] > 0 :: Index(lens, s) != Index(lens, sym)
  {
    forall s | 0 <= s < sym && lens[s] > 0
      ensures Index(lens, s) != Index(lens, sym)
    {
      if Index(lens, s) == Index(lens, sym) { IndexInjective(lens, s, sym); }
    }
  }

  lemma {:induction false} IndexSurjective(lens: seq<nat>, k: nat, m: nat) returns (s: nat)
    requires k < Offset(lens, m) && m <= MAXBITS + 1
    ensures s < |lens| && 0 < lens[s] < m && Index(lens, s) == k
    decreases m
  {
    if k < Offset(lens, m - 1) {
      s := IndexSurjective(lens, k, m - 1);
    } else {
      s := RankExists(lens, |lens|, m - 1, k - Offset(lens, m - 1));
    }
  }

  /** `work` lists the used symbols by length, and by symbol within each length. */
  ghost predicate Sorted(lens: seq<nat>, work: seq<nat>) {
    && Used(lens) <= |work|
    && forall k | 0 <= k < Used(lens) ::
         && work[k] < |lens| && 0 < lens[work[k]] <= MAXBITS
         && Index(lens, work[k]) == k
  }

  lemma UsedAtMost(lens: seq<nat>)
    requires ValidLens(lens)
    ensures Used(lens) <= |lens|
  {
    SumCounts(lens, |lens|, MAXBITS + 1);
  }

  function OffsetUpTo(lens: seq<nat>, n: nat, l: nat): nat
    requires n <= |lens|
  {
    if l <= 1 then 0 else OffsetUpTo(lens, n, l - 1) + Count(lens, n, l - 1)
  }

  lemma {:induction false} OffsetUpToAll(lens: seq<nat>, l: nat)
    ensures OffsetUpTo(lens, |lens|, l) == Offset(lens, l)
  {
    if l > 1 { OffsetUpToAll(lens, l - 1); }
  }

  lemma {:induction false} OffsetUpToStep(lens: seq<nat>, n: nat, l: nat)
    requires n < |lens|
    ensures OffsetUpTo(lens, n + 1, l) == OffsetUpTo(lens, n, l) + if 0 < lens[n] < l then 1 else 0
  {
    if l > 1 { OffsetUpToStep(lens, n, l - 1); }
  }

  lemma {:induction false} OffsetUpToZero(lens: seq<nat>, l: nat)
    ensures OffsetUpTo(lens, 0, l) == 0
  {
    if l > 1 { OffsetUpToZero(lens, l - 1); }
  }

  lemma {:induction false} SumCounts(lens: seq<nat>, n: nat, l: nat)
    requires n <= |lens|
    ensures OffsetUpTo(lens, n, l) <= n
    ensures n == |lens| ==> Offset(lens, l) <= n
  {
    if n == 0 {
      OffsetUpToZero(lens, l);
    } else {
      SumCounts(lens, n - 1, l);
      OffsetUpToStep(lens, n - 1, l);
    }
    OffsetUpToAll(lens, l);
  }

  method CountLengths(lens: seq<nat>) returns (count: array<nat>)
    requires ValidLens(lens)
    ensures fresh(count) && count.Length == MAXBITS + 1
    ensures forall l | 0 <= l <= MAXBITS :: count[l] == Total(lens, l)
  {
    count := new nat[MAXBITS + 1](_ => 0);
    for sym := 0 to |lens|
      invariant forall l | 0 <= l <= MAXBITS :: count[l] == Count(lens, sym, l)
    {
      count[lens[sym]] := count[lens[sym]] + 1;
    }
  }

  /** Where each length starts in the sorted order. */
  method Offsets(lens: seq<nat>, count: array<nat>) returns (offs: array<nat>)
    requires count.Length == MAXBITS + 1
    requires forall l | 0 <= l <= MAXBITS :: count[l] == Total(lens, l)
    ensures fresh(offs) && offs.Length == MAXBITS + 1
    ensures forall l | 1 <= l <= MAXBITS :: offs[l] == Offset(lens, l)
  {
    hide Count;
    offs := new nat[MAXBITS + 1](_ => 0);
    for len := 1 to MAXBITS
      invariant forall l | 1 <= l <= len :: offs[l] == Offset(lens, l)
      invariant forall l | 0 <= l <= MAXBITS :: count[l] == Total(lens, l)
    {
      offs[len + 1] := offs[len] + count[len];
    }
  }

  /** The first `n` symbols are in their places. */
  ghost predicate SortedUpTo(lens: seq<nat>, work: seq<nat>, n: nat)
    requires n <= |lens|
  {
    && Used(lens) <= |work|
    && forall s | 0 <= s < n && lens[s] > 0 ::
         Index(lens, s) < Used(lens) && work[Index(lens, s)] == s
  }

  lemma SortedNone(lens: seq<nat>, work: seq<nat>)
    requires ValidLens(lens) && |lens| <= |work|
    ensures SortedUpTo(lens, work, 0)
  {
    UsedAtMost(lens);
  }

  lemma SortedStep(lens: seq<nat>, work: seq<nat>, n: nat)
    requires ValidLens(lens) && n < |lens| && SortedUpTo(lens, work, n)
    ensures lens[n] == 0 ==> SortedUpTo(lens, work, n + 1)
    ensures lens[n] > 0 ==> Index(lens, n) < Used(lens) && SortedUpTo(lens, work[Index(lens, n) := n], n + 1)
  {
    if lens[n] > 0 {
      IndexBounds(lens, n);
      IndexFresh(lens, n);
    }
  }

  lemma SortedFrom(lens: seq<nat>, work: seq<nat>)
    requires ValidLens(lens) && SortedUpTo(lens, work, |lens|)
    ensures Sorted(lens, work)
  {
    forall k | 0 <= k < Used(lens)
      ensures work[k] < |lens| && 0 < lens[work[k]] <= MAXBITS && Index(lens, work[k]) == k
    {
      var s := IndexSurjective(lens, k, MAXBITS + 1);
    }
  }

  method SortSymbols(lens: seq<nat>, count: array<nat>, work: array<nat>)
    requires ValidLens(lens)
    requires count.Length == MAXBITS + 1 && count != work
    requires forall l | 0 <= l <= MAXBITS :: count[l] == Total(lens, l)
    requires |lens| <= work.Length
    modifies work
    ensures Sorted(lens, work[..])
  {
    hide SortedUpTo, Sorted, Used, Count, Offset;
    SortedNone(lens, work[..]);
    var offs := Offsets(lens, count);
    CountNone(lens);
    for sym := 0 to |lens|
      invariant forall l | 1 <= l <= MAXBITS :: offs[l] == Offset(lens, l) + Count(lens, sym, l)
      invariant SortedUpTo(lens, work[..], sym)
    {
      SortedStep(lens, work[..], sym);
      CountSnoc(lens, sym);
      var l := lens[sym];
      if l != 0 {
        assert offs[l] == Index(lens, sym);
        ghost var w := work[..];
        work[offs[l]] := sym;
        assert work[..] == w[Index(lens, sym) := sym];
        offs[l] := offs[l] + 1;
      }
    }
    SortedFrom(lens, work[..]);
  }

  // ------------------------------------------------------------ placing a symbol

  /** The reversed code word of `s`: the value of `huff` when `s` is entered in the table. */
  function Word(lens: seq<nat>, s: nat): (h: nat)
    requires s < |lens|
    ensures h < Pow2(lens[s])
  {
    Rev(lens[s], Code(lens, s))
  }

  /** In the table of `c` index bits at `at`, indices whose low `w` bits are `h` hold `e`. */
  ghost predicate Fills(t: seq<Entry>, at: nat, c: nat, w: nat, h: nat, e: Entry) {
    && at + Pow2(c) <= |t|
    && forall i: nat | i < Pow2(c) && Low(i, w) == h :: t[at + i] == e
  }

  /** Index in the root table of the link for the words that start like that of `s`. */
  function LinkIndex(root: nat, lens: seq<nat>, s: nat): (i: nat)
    requires s < |lens|
    ensures i < Pow2(root)
  {
    Low(Word(lens, s), root)
  }

  /** `e` links to a sub-table inside the first `used` entries, deep enough for a word of length `l`. */
  ghost predicate GoodLink(e: Entry, root: nat, used: nat, l: nat) {
    && IsLink(e) && e.bits == root && l <= root + e.op
    && Pow2(root) <= e.val && e.val + Pow2(e.op) <= used
  }

  /**
   Every index that starts with the word of `s` leads to the entry of `s`.  `t` is the whole
   table area, the table starts at `base` and occupies `used` entries.
   */
  ghost predicate Placed(t: seq<Entry>, base: nat, root: nat, used: nat, kind: CodeType, lens: seq<nat>, s: nat)
    requires s < |lens| <= MaxSymbols(kind)
  {
    && Pow2(root) <= used && base + used <= |t|
    && if lens[s] <= root then
         Fills(t, base, root, lens[s], Word(lens, s), SymbolEntry(kind, s, lens[s]))
       else
         var e := t[base + LinkIndex(root, lens, s)];
         && GoodLink(e, root, used, lens[s])
         && Fills(t, base + e.val, e.op, lens[s] - root, Shr(Word(lens, s), root),
                  SymbolEntry(kind, s, lens[s] - root))
  }

  /** A placed symbol is found by every accumulator that starts with its word. */
  lemma PlacedLookup(t: seq<Entry>, base: nat, root: nat, used: nat, kind: CodeType, lens: seq<nat>, s: nat, v: nat)
    requires s < |lens| <= MaxSymbols(kind)
    requires Placed(t, base, root, used, kind, lens, s)
    requires Matches(lens, s, v)
    ensures Lookup(t[base..base + used], root, v) == SymbolEntry(kind, s, lens[s])
  {
    if lens[s] <= root {
      RootLookup(t, base, root, used, kind, lens, s, v);
    } else {
      SubLookup(t, base, root, used, kind, lens, s, v);
    }
  }

  lemma RootLookup(t: seq<Entry>, base: nat, root: nat, used: nat, kind: CodeType, lens: seq<nat>, s: nat, v: nat)
    requires s < |lens| <= MaxSymbols(kind) && lens[s] <= root
    requires Placed(t, base, root, used, kind, lens, s)
    requires Matches(lens, s, v)
    ensures Lookup(t[base..base + used], root, v) == SymbolEntry(kind, s, lens[s])
  {
    hide Low, Shr, Pow2, Rev, Code, SymbolEntry;
    LowLow(v, root, lens[s]);
    var i := Low(v, root);
    assert t[base..base + used][i] == t[base + i];
  }

  /** Where an accumulator that starts with a long word leads. */
  lemma SubIndex(lens: seq<nat>, root: nat, s: nat, v: nat, c: nat)
    requires Matches(lens, s, v) && root < lens[s] <= root + c
    ensures Low(v, root) == LinkIndex(root, lens, s)
    ensures Low(Low(Shr(v, root), c), lens[s] - root) == Shr(Word(lens, s), root)
  {
    hide Low, Shr, Pow2, Rev, Code;
    LowLow(v, lens[s], root);
    LowLow(Shr(v, root), c, lens[s] - root);
    LowAdd(v, root, lens[s] - root);
  }

  lemma SubLookup(t: seq<Entry>, base: nat, root: nat, used: nat, kind: CodeType, lens: seq<nat>, s: nat, v: nat)
    requires s < |lens| <= MaxSymbols(kind) && lens[s] > root
    requires Placed(t, base, root, used, kind, lens, s)
    requires Matches(lens, s, v)
    ensures Lookup(t[base..base + used], root, v) == SymbolEntry(kind, s, lens[s])
  {
    hide Low, Shr, Pow2, Word, Matches, SymbolEntry, LinkIndex;
    var tab, l, i := t[base..base + used], lens[s], LinkIndex(root, lens, s);
    var e := t[base + i];
    SubIndex(lens, root, s, v, e.op);
    assert tab[i] == e;
    var k := Low(Shr(v, root), e.op);
    assert tab[e.val + k] == t[base + e.val + k] == SymbolEntry(kind, s, l - root);
    SymbolEntryBits(kind, s, root, l - root);
  }

  lemma SymbolEntryBits(kind: CodeType, s: nat, b: nat, c: nat)
    requires s < MaxSymbols(kind)
    ensures SymbolEntry(kind, s, b + c) == SymbolEntry(kind, s, c).(bits := b + c)
    ensures SymbolEntry(kind, s, c).bits == c
  {
  }

  /** Two different symbols never claim the same root index. */
  lemma RootApart(lens: seq<nat>, s: nat, t: nat, i: nat)
    requires ValidLens(lens) && !OverSubscribed(lens)
    requires s < |lens| && t < |lens| && s != t && lens[s] > 0 && lens[t] > 0
    requires Low(i, lens[s]) == Word(lens, s)
    ensures Low(i, lens[t]) != Word(lens, t)
  {
    if Low(i, lens[t]) == Word(lens, t) {
      MatchUnique(lens, s, t, i);
    }
  }

  /** Nor the same index of a shared sub-table. */
  lemma SubApart(lens: seq<nat>, root: nat, s: nat, t: nat, i: nat)
    requires ValidLens(lens) && !OverSubscribed(lens)
    requires s < |lens| && t < |lens| && s != t && lens[s] > root && lens[t] > root
    requires LinkIndex(root, lens, s) == LinkIndex(root, lens, t)
    requires Low(i, lens[s] - root) == Shr(Word(lens, s), root)
    ensures Low(i, lens[t] - root) != Shr(Word(lens, t), root)
  {
    if Low(i, lens[t] - root) == Shr(Word(lens, t), root) {
      var v := LinkIndex(root, lens, s) + Pow2(root) * i;
      SubWord(lens, root, s, i);
      SubWord(lens, root, t, i);
      MatchUnique(lens, s, t, v);
    }
  }

  lemma SubWord(lens: seq<nat>, root: nat, s: nat, i: nat)
    requires s < |lens| && lens[s] > root
    requires Low(i, lens[s] - root) == Shr(Word(lens, s), root)
    ensures Matches(lens, s, LinkIndex(root, lens, s) + Pow2(root) * i)
  {
    hide Low, Shr, Pow2, Code, Rev;
    var x := LinkIndex(root, lens, s);
    var v := x + Pow2(root) * i;
    SplitUnique(x, i, root);
    LowAdd(v, root, lens[s] - root);
    Split(Word(lens, s), root);
  }

  /** Neither does the link to a new sub-table land on an entry of a shorter word. */
  lemma LinkApart(lens: seq<nat>, root: nat, s: nat, t: nat)
    requires ValidLens(lens) && !OverSubscribed(lens)
    requires s < |lens| && t < |lens| && 0 < lens[s] <= root < lens[t]
    ensures Low(LinkIndex(root, lens, t), lens[s]) != Word(lens, s)
  {
    var h := Word(lens, t);
    LowLow(h, root, lens[s]);
    LowSmall(h, lens[t]);
    assert Matches(lens, t, h);
    if Low(h, lens[s]) == Word(lens, s) {
      MatchUnique(lens, s, t, h);
    }
  }

  // ------------------------------------------------------------ the order of the words

  /** `Word` is also the reversal of the left-justified code word. */
  lemma WordIsRevStart(lens: seq<nat>, s: nat)
    requires s < |lens| && lens[s] <= MAXBITS
    ensures Word(lens, s) == Rev(MAXBITS, Start(lens, s))
  {
    RevShift(lens[s], MAXBITS - lens[s], Code(lens, s));
  }

  /** Which block of 2^(15-root) positions a code word starts in. */
  function Block(root: nat, p: nat): nat
    requires root <= MAXBITS
  {
    Shr(p, MAXBITS - root)
  }

  lemma LinkIndexIsBlock(root: nat, lens: seq<nat>, s: nat)
    requires s < |lens| && lens[s] <= MAXBITS && root <= MAXBITS
    ensures LinkIndex(root, lens, s) == Rev(root, Block(root, Start(lens, s)))
  {
    hide Rev, Low, Shr, Pow2, Code, Start;
    WordIsRevStart(lens, s);
    var p := Start(lens, s);
    var q, r := Rev(MAXBITS - root, p), Rev(root, Block(root, p));
    RevTop(MAXBITS - root, root, p);
    assert q * Pow2(root) == Pow2(root) * q;
    SplitUnique(r, q, root);
  }

  lemma BlockBounds(root: nat, p: nat)
    requires root <= MAXBITS
    ensures Block(root, p) * Width(root) <= p < Block(root, p) * Width(root) + Width(root)
  {
    hide Low, Shr, Pow2;
    Split(p, MAXBITS - root);
    assert Width(root) * Block(root, p) == Block(root, p) * Width(root);
  }

  lemma BlockMono(root: nat, p: nat, q: nat)
    requires root <= MAXBITS && p <= q
    ensures Block(root, p) <= Block(root, q)
  {
    BlockBounds(root, p);
    BlockBounds(root, q);
    if Block(root, q) < Block(root, p) {
      MulStep(Block(root, q), Block(root, p), Width(root));
    }
  }

  /** Words share a link exactly when they start in the same block. */
  lemma SameBlock(root: nat, lens: seq<nat>, s: nat, t: nat)
    requires ValidLens(lens) && !OverSubscribed(lens)
    requires s < |lens| && t < |lens| && lens[s] > 0 && lens[t] > 0 && root <= MAXBITS
    ensures LinkIndex(root, lens, s) == LinkIndex(root, lens, t) <==>
            Block(root, Start(lens, s)) == Block(root, Start(lens, t))
  {
    LinkIndexIsBlock(root, lens, s);
    LinkIndexIsBlock(root, lens, t);
    BlockFits(root, lens, s);
    BlockFits(root, lens, t);
    RevRev(root, Block(root, Start(lens, s)));
    RevRev(root, Block(root, Start(lens, t)));
  }

  lemma BlockFits(root: nat, lens: seq<nat>, s: nat)
    requires ValidLens(lens) && !OverSubscribed(lens)
    requires s < |lens| && lens[s] > 0 && root <= MAXBITS
    ensures Low(Block(root, Start(lens, s)), root) == Block(root, Start(lens, s))
  {
    CodeFits(lens, s);
    var b := Block(root, Start(lens, s));
    BlockBounds(root, Start(lens, s));
    Pow2Add(root, MAXBITS - root);
    if b >= Pow2(root) {
      MulMono(Pow2(root), b, Width(root));
    }
    LowSmall(b, root);
  }

  /** With no words of lengths in between, the ends coincide. */
  lemma {:induction false} EndFlat(lens: seq<nat>, l: nat, m: nat)
    requires 1 <= l <= m <= MAXBITS
    requires Offset(lens, m + 1) == Offset(lens, l) + Total(lens, l)
    ensures End(lens, m) == End(lens, l)
  {
    if l < m {
      OffsetMono(lens, l, m);
      EndFlat(lens, l, m - 1);
      EndStep(lens, m);
      assert Total(lens, m) == 0;
    }
  }

  /** The symbols of the sorted order follow each other on the number line without a gap. */
  lemma Successor(lens: seq<nat>, work: seq<nat>, k: nat)
    requires ValidLens(lens) && Sorted(lens, work) && k + 1 < Used(lens)
    ensures lens[work[k]] <= lens[work[k + 1]]
    ensures lens[work[k]] == lens[work[k + 1]] <==> Rank(lens, work[k]) + 1 < Total(lens, lens[work[k]])
    ensures lens[work[k]] == lens[work[k + 1]] ==> Rank(lens, work[k + 1]) == Rank(lens, work[k]) + 1
    ensures lens[work[k]] != lens[work[k + 1]] ==> Rank(lens, work[k + 1]) == 0
    ensures Start(lens, work[k + 1]) == Start(lens, work[k]) + Width(lens[work[k]])
  {
    hide Count, First, Offset, Width;
    var s, t := work[k], work[k + 1];
    var l, m := lens[s], lens[t];
    RankBelowTotal(lens, s);
    RankBelowTotal(lens, t);
    if l == m {
      Distribute(Code(lens, s), 1, Width(l));
    } else if l < m {
      OffsetMono(lens, l, m);
      assert Rank(lens, t) == 0 && Rank(lens, s) + 1 == Total(lens, l);
      EndFlat(lens, l, m - 1);
      EndStep(lens, m);
      Distribute(Code(lens, s), 1, Width(l));
    } else {
      OffsetMono(lens, m, l);
    }
  }

  /** The last symbol of the sorted order ends at the Kraft sum and has the greatest length. */
  lemma LastSymbol(lens: seq<nat>, work: seq<nat>, k: nat)
    requires ValidLens(lens) && Sorted(lens, work) && k + 1 == Used(lens)
    ensures Rank(lens, work[k]) + 1 == Total(lens, lens[work[k]])
    ensures Start(lens, work[k]) + Width(lens[work[k]]) == Kraft(lens)
    ensures forall s | 0 <= s < |lens| :: lens[s] <= lens[work[k]]
  {
    hide Count, First, Offset, Width, Kraft;
    var s := work[k];
    var l := lens[s];
    RankBelowTotal(lens, s);
    OffsetMono(lens, l, MAXBITS + 1);
    EndFlat(lens, l, MAXBITS);
    KraftIsEnd(lens);
    Distribute(Code(lens, s), 1, Width(l));
    forall t | 0 <= t < |lens|
      ensures lens[t] <= l
    {
      if lens[t] > l {
        IndexBounds(lens, t);
        OffsetMono(lens, l, lens[t]);
      }
    }
  }

  /** Incrementing `huff` backwards moves to the next word on the number line. */
  lemma NextWord(lens: seq<nat>, s: nat)
    requires ValidLens(lens) && !OverSubscribed(lens) && s < |lens| && lens[s] > 0
    ensures Rev(lens[s], Rev(lens[s], Word(lens, s)) + 1) == Rev(MAXBITS, Start(lens, s) + Width(lens[s]))
  {
    hide Rev, Pow2, Code;
    var l := lens[s];
    CodeFits(lens, s);
    RevRev(l, Code(lens, s));
    LowSmall(Code(lens, s), l);
    RevShift(l, MAXBITS - l, Code(lens, s) + 1);
    Distribute(Code(lens, s), 1, Width(l));
  }

  // ------------------------------------------------------------ blocks and sub-tables

  lemma WidthSplit(root: nat, l: nat)
    requires root <= l <= MAXBITS
    ensures Width(root) == Pow2(l - root) * Width(l)
  {
    Pow2Add(l - root, MAXBITS - l);
  }

  lemma MulAssoc(a: nat, b: nat, c: nat)
    ensures (a * b) * c == a * (b * c)
  {
  }

  lemma MulCancelLess(a: nat, b: nat, w: nat)
    requires a * w < b * w
    ensures a < b
  {
    if b <= a { MulMono(b, a, w); }
  }

  /** A long word does not cross the end of its block. */
  lemma InsideBlock(root: nat, lens: seq<nat>, s: nat)
    requires s < |lens| && root <= lens[s] <= MAXBITS
    ensures Start(lens, s) + Width(lens[s]) <= Block(root, Start(lens, s)) * Width(root) + Width(root)
  {
    hide Pow2, Width, Code, Block;
    var l, b, c := lens[s], Block(root, Start(lens, s)), Code(lens, s);
    BlockBounds(root, Start(lens, s));
    WidthSplit(root, l);
    Distribute(b, 1, Width(root));
    MulAssoc(b + 1, Pow2(l - root), Width(l));
    MulCancelLess(c, (b + 1) * Pow2(l - root), Width(l));
    MulStep(c, (b + 1) * Pow2(l - root), Width(l));
  }

  /** A word no longer than `root` ends at a block boundary. */
  lemma ShortEndsBlock(root: nat, lens: seq<nat>, s: nat, p: nat)
    requires s < |lens| && 0 < lens[s] <= root <= MAXBITS
    requires p == Start(lens, s) + Width(lens[s])
    ensures p == Block(root, p) * Width(root)
  {
    hide Width, Code, Shr, Low;
    var l, c := lens[s], Code(lens, s);
    WidthSplit(l, root);
    Distribute(c, 1, Width(l));
    MulAssoc(c + 1, Pow2(root - l), Width(root));
    var q := (c + 1) * Pow2(root - l);
    assert p == q * Width(root);
    MultipleIsBlock(root, q);
  }

  lemma MultipleIsBlock(root: nat, q: nat)
    requires root <= MAXBITS
    ensures Block(root, q * Width(root)) == q
  {
    hide Shr, Low, Pow2;
    assert 0 + Width(root) * q == q * Width(root);
    SplitUnique(0, q, MAXBITS - root);
  }

  /** When the link index changes, the next word starts a block. */
  lemma NewBlockAligned(root: nat, lens: seq<nat>, s: nat, t: nat)
    requires ValidLens(lens) && !OverSubscribed(lens) && root <= MAXBITS
    requires s < |lens| && t < |lens| && lens[s] > 0 && lens[t] > 0
    requires Start(lens, t) == Start(lens, s) + Width(lens[s])
    requires lens[s] <= root || LinkIndex(root, lens, s) != LinkIndex(root, lens, t)
    ensures Start(lens, t) == Block(root, Start(lens, t)) * Width(root)
  {
    hide Width, Code, Block;
    var p, q := Start(lens, s), Start(lens, t);
    if lens[s] <= root {
      ShortEndsBlock(root, lens, s, q);
    } else {
      SameBlock(root, lens, s, t);
      InsideBlock(root, lens, s);
      BlockMono(root, p, q);
      BlockBounds(root, q);
      MulStep(Block(root, p), Block(root, q), Width(root));
    }
  }

  /** The part of a block, from the word of `s` on, that words of length up to `l` leave free. */
  ghost predicate FreeInBlock(lens: seq<nat>, s: nat, root: nat, l: nat, left: int)
    requires s < |lens| && lens[s] <= l <= MAXBITS && root <= MAXBITS
  {
    left * Width(l) == Width(root) - (End(lens, l) - Start(lens, s))
  }

  lemma FirstFree(lens: seq<nat>, s: nat, root: nat)
    requires s < |lens| && root <= lens[s] <= MAXBITS && lens[s] > 0
    ensures FreeInBlock(lens, s, root, lens[s], Pow2(lens[s] - root) - (Total(lens, lens[s]) - Rank(lens, s)))
  {
    hide Count, First, Pow2, Width;
    var l := lens[s];
    var t: int, r: int, w: int := Total(lens, l), Rank(lens, s), Width(l);
    WidthSplit(root, l);
    Distribute(Pow2(l - root) - (t - r), t - r, w);
    Distribute(Code(lens, s), t - r, w);
  }

  lemma NextFree(lens: seq<nat>, s: nat, root: nat, l: nat, left: int)
    requires s < |lens| && lens[s] <= l < MAXBITS && root <= MAXBITS
    requires FreeInBlock(lens, s, root, l, left)
    ensures FreeInBlock(lens, s, root, l + 1, 2 * left - Total(lens, l + 1))
  {
    hide Count, First, Pow2, Width, Start, End;
    WidthHalf(l + 1);
    EndStep(lens, l + 1);
    Double(left, Width(l + 1));
    Distribute(2 * left - Total(lens, l + 1), Total(lens, l + 1), Width(l + 1));
  }

  /** No word longer than `l` starts in the block of `s`. */
  ghost predicate BlockClosed(lens: seq<nat>, s: nat, root: nat, l: nat)
    requires ValidLens(lens) && s < |lens| && root <= MAXBITS
  {
    forall t | 0 <= t < |lens| && lens[t] > l :: Start(lens, t) >= Start(lens, s) + Width(root)
  }

  lemma NoneFree(lens: seq<nat>, s: nat, root: nat, l: nat, left: int)
    requires ValidLens(lens) && s < |lens| && lens[s] <= l <= MAXBITS && root <= MAXBITS
    requires FreeInBlock(lens, s, root, l, left) && left <= 0
    ensures BlockClosed(lens, s, root, l)
  {
    MulBound(Width(l), left);
    forall t | 0 <= t < |lens| && lens[t] > l
      ensures Start(lens, t) >= Start(lens, s) + Width(root)
    {
      StartBounds(lens, t);
      EndMono(lens, l, lens[t] - 1);
    }
  }

  /** How many words of length `l` are left to enter when it is the turn of `s`. */
  function LeftToEnter(lens: seq<nat>, s: nat, l: nat): int
    requires s < |lens|
  {
    if l == lens[s] then Total(lens, l) - Rank(lens, s) else Total(lens, l)
  }

  /**
   The index bits of the sub-table that starts with `s`: the shortest depth, from `l` down,
   at which the words left to enter use up the `left` places, or that of the longest words.
   */
  function SubtableDepth(lens: seq<nat>, s: nat, root: nat, l: nat, left: int, max: nat): nat
    requires s < |lens| && root <= l
    decreases max - l
  {
    if l >= max || left <= LeftToEnter(lens, s, l) then l - root
    else SubtableDepth(lens, s, root, l + 1, (left - LeftToEnter(lens, s, l)) * 2, max)
  }

  /** How many index bits the sub-table that starts with the word of `s` needs. */
  method SubtableBits(lens: seq<nat>, ghost s: nat, count: array<nat>, len: nat, root: nat, max: nat) returns (curr: nat)
    requires ValidLens(lens) && count.Length == MAXBITS + 1
    requires s < |lens| && lens[s] == len && 1 <= root < len
    requires IsMax(lens, max) && Remaining(count[..], lens, s)
    ensures len <= root + curr <= max
    ensures BlockClosed(lens, s, root, root + curr)
    ensures curr == SubtableDepth(lens, s, root, len, Pow2(len - root), max)
  {
    hide Total, Count, Rank, FreeInBlock, Pow2, BlockClosed;
    FirstFree(lens, s, root);
    curr := len - root;
    var left: int := Pow2(curr);
    while curr + root < max
      invariant len <= root + curr <= max
      invariant SubtableDepth(lens, s, root, len, Pow2(len - root), max)
                == SubtableDepth(lens, s, root, root + curr, left, max)
      invariant FreeInBlock(lens, s, root, root + curr, left - count[curr + root])
    {
      left := left - count[curr + root];
      if left <= 0 {
        NoneFree(lens, s, root, root + curr, left);
        return;
      }
      NextFree(lens, s, root, root + curr, left);
      curr := curr + 1;
      left := left * 2;
    }
    NoneLonger(lens, s, root, max);
  }

  lemma NoneLonger(lens: seq<nat>, s: nat, root: nat, max: nat)
    requires ValidLens(lens) && s < |lens| && root <= MAXBITS
    requires forall t | 0 <= t < |lens| :: lens[t] <= max
    ensures BlockClosed(lens, s, root, max)
  {
  }

  // ------------------------------------------------------------ filling the table

  /** `t'` is `t` with `e` written over the indices whose low `w` bits are `h`. */
  ghost predicate Overwritten(t: seq<Entry>, t': seq<Entry>, at: nat, c: nat, w: nat, h: nat, e: Entry) {
    && |t'| == |t| && at + Pow2(c) <= |t|
    && (forall i: nat | i < Pow2(c) :: Low(i, w) == h ==> t'[at + i] == e)
    && (forall i: nat | i < Pow2(c) :: Low(i, w) != h ==> t'[at + i] == t[at + i])
    && (forall p | 0 <= p < |t| && !(at <= p < at + Pow2(c)) :: t'[p] == t[p])
  }

  /** The same when only indices whose higher bits are at least `m` have been written. */
  ghost predicate Filling(t: seq<Entry>, t': seq<Entry>, at: nat, c: nat, w: nat, h: nat, e: Entry, m: nat) {
    && |t'| == |t| && at + Pow2(c) <= |t|
    && (forall i: nat | i < Pow2(c) ::
          t'[at + i] == if Low(i, w) == h && Shr(i, w) >= m then e else t[at + i])
    && (forall p | 0 <= p < |t| && !(at <= p < at + Pow2(c)) :: t'[p] == t[p])
  }

  lemma FillingStart(t: seq<Entry>, at: nat, c: nat, w: nat, h: nat, e: Entry)
    requires at + Pow2(c) <= |t| && w <= c
    ensures Filling(t, t, at, c, w, h, e, Pow2(c - w))
  {
    forall i: nat | i < Pow2(c)
      ensures Shr(i, w) < Pow2(c - w)
    {
      LowSmall(i, c);
      LowAdd(i, w, c - w);
    }
  }

  lemma FillingStep(t: seq<Entry>, t': seq<Entry>, at: nat, c: nat, w: nat, h: nat, e: Entry, m: nat, i: nat)
    requires w <= c && h < Pow2(w) && 1 <= m <= Pow2(c - w)
    requires Filling(t, t', at, c, w, h, e, m)
    requires i == h + Pow2(w) * (m - 1) && i < Pow2(c)
    ensures Filling(t, t'[at + i := e], at, c, w, h, e, m - 1)
  {
    hide Low, Shr, Pow2;
    FillIndex(w, c, h, m);
    var t'' := t'[at + i := e];
    forall j: nat | j < Pow2(c)
      ensures t''[at + j] == if Low(j, w) == h && Shr(j, w) >= m - 1 then e else t[at + j]
    {
      assert Low(j, w) == h && Shr(j, w) == m - 1 <==> j == i;
    }
  }

  /** Replicate `e` for the indices with low `w` bits equal to `h`, from the top down. */
  method Replicate(table: array<Entry>, at: nat, c: nat, w: nat, h: nat, e: Entry)
    requires at + Pow2(c) <= table.Length
    requires w <= c && h < Pow2(w)
    modifies table
    ensures Overwritten(old(table[..]), table[..], at, c, w, h, e)
  {
    hide Low, Shr, Pow2, Filling;
    Pow2Add(w, c - w);
    ghost var m := Pow2(c - w);
    var fill := Pow2(c);
    FillingStart(table[..], at, c, w, h, e);
    while fill != 0
      invariant fill == Pow2(w) * m && 0 <= m <= Pow2(c - w)
      invariant Filling(old(table[..]), table[..], at, c, w, h, e, m)
      decreases m
    {
      assert m != 0;
      FillIndex(w, c, h, m);
      fill := fill - Pow2(w);
      FillingStep(old(table[..]), table[..], at, c, w, h, e, m, h + fill);
      ghost var before := table[..];
      table[at + h + fill] := e;
      m := m - 1;
      assert table[..] == before[at + (h + fill) := e];
    }
    assert m == 0 by { MulBound(Pow2(w), m); }
    FillingDone(old(table[..]), table[..], at, c, w, h, e);
  }

  lemma FillingDone(t: seq<Entry>, t': seq<Entry>, at: nat, c: nat, w: nat, h: nat, e: Entry)
    requires Filling(t, t', at, c, w, h, e, 0)
    ensures Overwritten(t, t', at, c, w, h, e)
  {
  }

  lemma FillIndex(w: nat, c: nat, h: nat, m: nat)
    requires w <= c && h < Pow2(w) && 1 <= m <= Pow2(c - w)
    ensures Pow2(w) * m - Pow2(w) == Pow2(w) * (m - 1)
    ensures h + Pow2(w) * (m - 1) < Pow2(c)
    ensures forall i: nat :: Low(i, w) == h && Shr(i, w) == m - 1 <==> i == h + Pow2(w) * (m - 1)
  {
    hide Low, Shr, Pow2;
    Pow2Add(w, c - w);
    MulMono(m, Pow2(c - w), Pow2(w));
    assert Pow2(w) * m == m * Pow2(w) && Pow2(c - w) * Pow2(w) == Pow2(c);
    SplitUnique(h, m - 1, w);
    forall i: nat
      ensures Low(i, w) == h && Shr(i, w) == m - 1 <==> i == h + Pow2(w) * (m - 1)
    {
      Split(i, w);
    }
  }

  lemma {:induction false} SortedMono(lens: seq<nat>, work: seq<nat>, j: nat, k: nat)
    requires ValidLens(lens) && Sorted(lens, work) && j <= k < Used(lens)
    ensures lens[work[j]] <= lens[work[k]]
    ensures Start(lens, work[j]) <= Start(lens, work[k])
    ensures j < k ==> work[j] != work[k]
    decreases k
  {
    hide Start, Index, Width, Total, Rank;
    if j < k {
      SortedMono(lens, work, j, k - 1);
      Successor(lens, work, k - 1);
    }
  }

  /** Lengths a table can be built for. */
  ghost predicate Buildable(kind: CodeType, lens: seq<nat>, work: seq<nat>) {
    ValidLens(lens) && !OverSubscribed(lens) && |lens| <= MaxSymbols(kind) && Sorted(lens, work)
  }

  /** The first `k` symbols of the sorted order are in the table. */
  ghost predicate AllPlaced(t: seq<Entry>, base: nat, root: nat, used: nat, kind: CodeType, lens: seq<nat>, work: seq<nat>, k: nat)
    requires Buildable(kind, lens, work) && k <= Used(lens)
  {
    && Pow2(root) <= used && base + used <= |t|
    && forall j | 0 <= j < k :: Placed(t, base, root, used, kind, lens, work[j])
  }

  /** Writing elsewhere, or for a word that shares no index, keeps what is filled. */
  lemma FillsKept(t: seq<Entry>, t': seq<Entry>, at: nat, c: nat, w: nat, h: nat, e: Entry,
                  at': nat, c': nat, w': nat, h': nat, e': Entry)
    requires Fills(t, at, c, w, h, e) && Overwritten(t, t', at', c', w', h', e')
    requires || at + Pow2(c) <= at' || at' + Pow2(c') <= at
             || (at == at' && c == c' && forall i: nat :: Low(i, w) == h ==> Low(i, w') != h')
    ensures Fills(t', at, c, w, h, e)
  {
    hide Low, Pow2;
    forall i: nat | i < Pow2(c) && Low(i, w) == h
      ensures t'[at + i] == e
    {
      assert t[at + i] == e;
      if at + Pow2(c) <= at' || at' + Pow2(c') <= at {
        var p := at + i;
        assert t'[p] == t[p];
      } else {
        assert Low(i, w') != h';
        assert t'[at' + i] == t[at' + i];
      }
    }
  }

  lemma OverwrittenFills(t: seq<Entry>, t': seq<Entry>, at: nat, c: nat, w: nat, h: nat, e: Entry)
    requires Overwritten(t, t', at, c, w, h, e)
    ensures Fills(t', at, c, w, h, e)
  {
  }

  lemma ShortKept(t: seq<Entry>, t': seq<Entry>, base: nat, root: nat, used: nat, kind: CodeType, lens: seq<nat>, s: nat, x: nat)
    requires ValidLens(lens) && !OverSubscribed(lens) && |lens| <= MaxSymbols(kind)
    requires s < |lens| && x < |lens| && s != x && 0 < lens[x] <= lens[s] <= root
    requires Placed(t, base, root, used, kind, lens, x)
    requires Overwritten(t, t', base, root, lens[s], Word(lens, s), SymbolEntry(kind, s, lens[s]))
    ensures Placed(t', base, root, used, kind, lens, x)
  {
    hide Low, Pow2, Word, SymbolEntry;
    forall i: nat
      ensures Low(i, lens[x]) == Word(lens, x) ==> Low(i, lens[s]) != Word(lens, s)
    {
      if Low(i, lens[x]) == Word(lens, x) { RootApart(lens, x, s, i); }
    }
    FillsKept(t, t', base, root, lens[x], Word(lens, x), SymbolEntry(kind, x, lens[x]),
              base, root, lens[s], Word(lens, s), SymbolEntry(kind, s, lens[s]));
  }

  /** Entering a word that fits the root table. */
  lemma PlaceShort(t: seq<Entry>, t': seq<Entry>, base: nat, root: nat, used: nat, kind: CodeType, lens: seq<nat>, work: seq<nat>, k: nat)
    requires Buildable(kind, lens, work) && k < Used(lens)
    requires AllPlaced(t, base, root, used, kind, lens, work, k)
    requires lens[work[k]] <= root
    requires Overwritten(t, t', base, root, lens[work[k]], Word(lens, work[k]), SymbolEntry(kind, work[k], lens[work[k]]))
    ensures AllPlaced(t', base, root, used, kind, lens, work, k + 1)
  {
    hide Low, Pow2, Word, SymbolEntry, Index, Fills, Overwritten, Placed;
    forall j | 0 <= j < k + 1
      ensures Placed(t', base, root, used, kind, lens, work[j])
    {
      SortedMono(lens, work, j, k);
      if j < k {
        ShortKept(t, t', base, root, used, kind, lens, work[k], work[j]);
      } else {
        ShortPlaced(t, t', base, root, used, kind, lens, work[k]);
      }
    }
    SameSize(t, t', base, root, lens[work[k]], Word(lens, work[k]), SymbolEntry(kind, work[k], lens[work[k]]));
  }

  lemma SameSize(t: seq<Entry>, t': seq<Entry>, at: nat, c: nat, w: nat, h: nat, e: Entry)
    requires Overwritten(t, t', at, c, w, h, e)
    ensures |t'| == |t|
  {
  }

  lemma ShortPlaced(t: seq<Entry>, t': seq<Entry>, base: nat, root: nat, used: nat, kind: CodeType, lens: seq<nat>, s: nat)
    requires s < |lens| <= MaxSymbols(kind) && lens[s] <= root
    requires Pow2(root) <= used && base + used <= |t|
    requires Overwritten(t, t', base, root, lens[s], Word(lens, s), SymbolEntry(kind, s, lens[s]))
    ensures Placed(t', base, root, used, kind, lens, s)
  {
    hide Low, Pow2, Word, SymbolEntry;
    OverwrittenFills(t, t', base, root, lens[s], Word(lens, s), SymbolEntry(kind, s, lens[s]));
  }

  /** The sub-table being filled: its link is in the root table and it ends the used area. */
  ghost predicate OpenSub(t: seq<Entry>, base: nat, root: nat, used: nat, next: nat, curr: nat, low: nat) {
    && base + used <= |t| && low < Pow2(root) <= next && 1 <= curr < 16
    && next + Pow2(curr) == used
    && t[base + low] == Entry(curr, root, next)
  }

  /** The long word `x`, if its link is not `low`, lives in a sub-table before `next`. */
  ghost predicate Below(t: seq<Entry>, base: nat, root: nat, lens: seq<nat>, x: nat, low: nat, next: nat)
    requires x < |lens| && base + Pow2(root) <= |t|
  {
    var e := t[base + LinkIndex(root, lens, x)];
    lens[x] > root && LinkIndex(root, lens, x) != low ==> e.val + Pow2(e.op) <= next
  }

  ghost predicate AllBelow(t: seq<Entry>, base: nat, root: nat, kind: CodeType, lens: seq<nat>, work: seq<nat>, k: nat, low: nat, next: nat)
    requires Buildable(kind, lens, work) && k <= Used(lens) && base + Pow2(root) <= |t|
  {
    forall j | 0 <= j < k :: Below(t, base, root, lens, work[j], low, next)
  }

  /** Write of the entries of the long word `s` into the open sub-table. */
  ghost predicate SubWritten(t: seq<Entry>, t': seq<Entry>, base: nat, root: nat, next: nat, curr: nat, kind: CodeType, lens: seq<nat>, s: nat)
    requires s < |lens| <= MaxSymbols(kind) && lens[s] > root
  {
    Overwritten(t, t', base + next, curr, lens[s] - root, Shr(Word(lens, s), root), SymbolEntry(kind, s, lens[s] - root))
  }

  lemma LongKept(t: seq<Entry>, t': seq<Entry>, base: nat, root: nat, used: nat, next: nat, curr: nat, kind: CodeType, lens: seq<nat>, s: nat, x: nat)
    requires ValidLens(lens) && !OverSubscribed(lens) && |lens| <= MaxSymbols(kind)
    requires s < |lens| && x < |lens| && s != x && 0 < lens[x] && root < lens[s]
    requires Placed(t, base, root, used, kind, lens, x)
    requires OpenSub(t, base, root, used, next, curr, LinkIndex(root, lens, s))
    requires Below(t, base, root, lens, x, LinkIndex(root, lens, s), next)
    requires SubWritten(t, t', base, root, next, curr, kind, lens, s)
    ensures Placed(t', base, root, used, kind, lens, x)
    ensures Below(t', base, root, lens, x, LinkIndex(root, lens, s), next)
  {
    hide Low, Shr, Pow2, Word, SymbolEntry, LinkIndex;
    var w', h', e' := lens[s] - root, Shr(Word(lens, s), root), SymbolEntry(kind, s, lens[s] - root);
    if lens[x] <= root {
      FillsKept(t, t', base, root, lens[x], Word(lens, x), SymbolEntry(kind, x, lens[x]), base + next, curr, w', h', e');
    } else {
      var i := LinkIndex(root, lens, x);
      var e := t[base + i];
      assert t'[base + i] == e;
      if i == LinkIndex(root, lens, s) {
        forall i: nat
          ensures Low(i, lens[x] - root) == Shr(Word(lens, x), root) ==> Low(i, w') != h'
        {
          if Low(i, lens[x] - root) == Shr(Word(lens, x), root) { SubApart(lens, root, x, s, i); }
        }
      }
      FillsKept(t, t', base + e.val, e.op, lens[x] - root, Shr(Word(lens, x), root),
                SymbolEntry(kind, x, lens[x] - root), base + next, curr, w', h', e');
    }
  }

  lemma LongPlaced(t: seq<Entry>, t': seq<Entry>, base: nat, root: nat, used: nat, next: nat, curr: nat, kind: CodeType, lens: seq<nat>, s: nat)
    requires s < |lens| <= MaxSymbols(kind) && root < lens[s] <= root + curr
    requires OpenSub(t, base, root, used, next, curr, LinkIndex(root, lens, s))
    requires SubWritten(t, t', base, root, next, curr, kind, lens, s)
    ensures Placed(t', base, root, used, kind, lens, s)
    ensures Below(t', base, root, lens, s, LinkIndex(root, lens, s), next)
    ensures OpenSub(t', base, root, used, next, curr, LinkIndex(root, lens, s))
  {
    hide Low, Shr, Pow2, Word, SymbolEntry, LinkIndex;
    OverwrittenFills(t, t', base + next, curr, lens[s] - root, Shr(Word(lens, s), root), SymbolEntry(kind, s, lens[s] - root));
  }

  /** Entering a word in the open sub-table. */
  lemma PlaceLong(t: seq<Entry>, t': seq<Entry>, base: nat, root: nat, used: nat, next: nat, curr: nat, kind: CodeType, lens: seq<nat>, work: seq<nat>, k: nat)
    requires Buildable(kind, lens, work) && k < Used(lens)
    requires AllPlaced(t, base, root, used, kind, lens, work, k)
    requires root < lens[work[k]] <= root + curr
    requires OpenSub(t, base, root, used, next, curr, LinkIndex(root, lens, work[k]))
    requires AllBelow(t, base, root, kind, lens, work, k, LinkIndex(root, lens, work[k]), next)
    requires SubWritten(t, t', base, root, next, curr, kind, lens, work[k])
    ensures AllPlaced(t', base, root, used, kind, lens, work, k + 1)
    ensures OpenSub(t', base, root, used, next, curr, LinkIndex(root, lens, work[k]))
    ensures AllBelow(t', base, root, kind, lens, work, k + 1, LinkIndex(root, lens, work[k]), next)
  {
    hide Low, Shr, Pow2, Word, SymbolEntry, LinkIndex, Index, Placed, Below, SubWritten, OpenSub;
    var s := work[k];
    LongPlaced(t, t', base, root, used, next, curr, kind, lens, s);
    SubSameSize(t, t', base, root, next, curr, kind, lens, s);
    forall j | 0 <= j < k + 1
      ensures Placed(t', base, root, used, kind, lens, work[j])
      ensures Below(t', base, root, lens, work[j], LinkIndex(root, lens, s), next)
    {
      SortedMono(lens, work, j, k);
      if j < k {
        LongKept(t, t', base, root, used, next, curr, kind, lens, s, work[j]);
      }
    }
  }

  lemma SubSameSize(t: seq<Entry>, t': seq<Entry>, base: nat, root: nat, next: nat, curr: nat, kind: CodeType, lens: seq<nat>, s: nat)
    requires s < |lens| <= MaxSymbols(kind) && lens[s] > root
    requires SubWritten(t, t', base, root, next, curr, kind, lens, s)
    ensures |t'| == |t|
  {
  }

  // ------------------------------------------------------------ opening a sub-table

  lemma LinkKeeps(t: seq<Entry>, base: nat, root: nat, used: nat, used': nat, kind: CodeType, lens: seq<nat>, s: nat, x: nat, e: Entry)
    requires ValidLens(lens) && !OverSubscribed(lens) && |lens| <= MaxSymbols(kind)
    requires s < |lens| && x < |lens| && 0 < lens[x] && root < lens[s]
    requires lens[x] <= root || LinkIndex(root, lens, x) != LinkIndex(root, lens, s)
    requires Placed(t, base, root, used, kind, lens, x)
    requires used <= used' && base + used' <= |t|
    ensures Placed(t[base + LinkIndex(root, lens, s) := e], base, root, used', kind, lens, x)
    ensures Below(t[base + LinkIndex(root, lens, s) := e], base, root, lens, x, LinkIndex(root, lens, s), used)
  {
    hide Low, Shr, Pow2, Word, SymbolEntry, LinkIndex;
    var i := LinkIndex(root, lens, s);
    var t' := t[base + i := e];
    if lens[x] <= root {
      LinkApart(lens, root, x, s);
      FillsAway(t, base, root, lens[x], Word(lens, x), SymbolEntry(kind, x, lens[x]), base + i, e);
    } else {
      var l := t[base + LinkIndex(root, lens, x)];
      assert t'[base + LinkIndex(root, lens, x)] == l;
      FillsAway(t, base + l.val, l.op, lens[x] - root, Shr(Word(lens, x), root),
                SymbolEntry(kind, x, lens[x] - root), base + i, e);
    }
  }

  lemma FillsAway(t: seq<Entry>, at: nat, c: nat, w: nat, h: nat, e: Entry, p: nat, e': Entry)
    requires Fills(t, at, c, w, h, e) && p < |t|
    requires p < at || p >= at + Pow2(c) || Low(p - at, w) != h
    ensures Fills(t[p := e'], at, c, w, h, e)
  {
    hide Low, Pow2;
  }

  /** Earlier words do not share the link of a word that starts a new block. */
  lemma EarlierLinks(root: nat, lens: seq<nat>, work: seq<nat>, j: nat, k: nat)
    requires ValidLens(lens) && !OverSubscribed(lens) && Sorted(lens, work) && root <= MAXBITS
    requires j <= k && k + 1 < Used(lens)
    requires lens[work[k]] <= root || LinkIndex(root, lens, work[k]) != LinkIndex(root, lens, work[k + 1])
    ensures lens[work[j]] <= root || LinkIndex(root, lens, work[j]) != LinkIndex(root, lens, work[k + 1])
  {
    hide Index, LinkIndex, Block, Start;
    SortedMono(lens, work, j, k);
    SortedMono(lens, work, k, k + 1);
    if lens[work[j]] > root {
      SameBlock(root, lens, work[k], work[k + 1]);
      SameBlock(root, lens, work[j], work[k + 1]);
      BlockMono(root, Start(lens, work[j]), Start(lens, work[k]));
      BlockMono(root, Start(lens, work[k]), Start(lens, work[k + 1]));
    }
  }

  /** Linking a new sub-table for the word after the `k`-th. */
  lemma OpenSubtable(t: seq<Entry>, base: nat, root: nat, used: nat, curr: nat, kind: CodeType, lens: seq<nat>, work: seq<nat>, k: nat)
    requires Buildable(kind, lens, work) && k + 1 < Used(lens) && 1 <= root <= MAXBITS
    requires AllPlaced(t, base, root, used, kind, lens, work, k + 1)
    requires root < lens[work[k + 1]]
    requires lens[work[k]] <= root || LinkIndex(root, lens, work[k]) != LinkIndex(root, lens, work[k + 1])
    requires 1 <= curr < 16 && base + used + Pow2(curr) <= |t|
    ensures var low := LinkIndex(root, lens, work[k + 1]);
            var t' := t[base + low := Entry(curr, root, used)];
            && AllPlaced(t', base, root, used + Pow2(curr), kind, lens, work, k + 1)
            && OpenSub(t', base, root, used + Pow2(curr), used, curr, low)
            && AllBelow(t', base, root, kind, lens, work, k + 1, low, used)
  {
    hide Low, Shr, Pow2, Word, SymbolEntry, LinkIndex, Index, Placed, Below;
    var s := work[k + 1];
    var low := LinkIndex(root, lens, s);
    var e := Entry(curr, root, used);
    var t' := t[base + low := e];
    forall j | 0 <= j < k + 1
      ensures Placed(t', base, root, used + Pow2(curr), kind, lens, work[j])
      ensures Below(t', base, root, lens, work[j], low, used)
    {
      EarlierLinks(root, lens, work, j, k);
      LinkKeeps(t, base, root, used, used + Pow2(curr), kind, lens, s, work[j], e);
    }
  }

  /** All the words that share the link `low` fit a sub-table of `curr` index bits. */
  ghost predicate DeepEnough(lens: seq<nat>, root: nat, low: nat, curr: nat) {
    forall x | 0 <= x < |lens| && lens[x] > root && LinkIndex(root, lens, x) == low :: lens[x] <= root + curr
  }

  lemma ClosedIsDeep(lens: seq<nat>, root: nat, s: nat, curr: nat)
    requires ValidLens(lens) && !OverSubscribed(lens) && root <= MAXBITS
    requires s < |lens| && lens[s] > root
    requires Start(lens, s) == Block(root, Start(lens, s)) * Width(root)
    requires BlockClosed(lens, s, root, root + curr)
    ensures DeepEnough(lens, root, LinkIndex(root, lens, s), curr)
  {
    hide LinkIndex, Start, Block, Width;
    forall x | 0 <= x < |lens| && lens[x] > root && LinkIndex(root, lens, x) == LinkIndex(root, lens, s)
      ensures lens[x] <= root + curr
    {
      SameBlock(root, lens, s, x);
      BlockBounds(root, Start(lens, x));
    }
  }

  // ------------------------------------------------------------ examining the lengths

  lemma CountZero(lens: seq<nat>, l: nat)
    requires Total(lens, l) == 0
    ensures forall s | 0 <= s < |lens| :: lens[s] != l
  {
    forall s | 0 <= s < |lens|
      ensures lens[s] != l
    {
      if lens[s] == l { RankBelowTotal(lens, s); }
    }
  }

  lemma CountPositive(lens: seq<nat>, l: nat)
    requires Total(lens, l) > 0
    ensures exists s :: 0 <= s < |lens| && lens[s] == l
  {
    var s := RankExists(lens, |lens|, l, 0);
  }

  /** `max` is the greatest length used, zero if no symbol is used. */
  ghost predicate IsMax(lens: seq<nat>, max: nat) {
    && max <= MAXBITS
    && (forall s | 0 <= s < |lens| :: lens[s] <= max)
    && (max > 0 ==> Total(lens, max) > 0)
  }

  method MaxLength(lens: seq<nat>, count: array<nat>) returns (max: nat)
    requires ValidLens(lens) && count.Length == MAXBITS + 1
    requires forall l | 0 <= l <= MAXBITS :: count[l] == Total(lens, l)
    ensures IsMax(lens, max)
  {
    hide Total;
    max := MAXBITS;
    while max >= 1
      invariant 0 <= max <= MAXBITS
      invariant forall s | 0 <= s < |lens| :: lens[s] <= max
    {
      if count[max] != 0 { break; }
      CountZero(lens, max);
      max := max - 1;
    }
  }

  ghost predicate IsMin(lens: seq<nat>, min: nat) {
    && 1 <= min <= MAXBITS
    && (forall s | 0 <= s < |lens| && lens[s] > 0 :: min <= lens[s])
    && Total(lens, min) > 0
  }

  method MinLength(lens: seq<nat>, count: array<nat>, max: nat) returns (min: nat)
    requires ValidLens(lens) && count.Length == MAXBITS + 1
    requires forall l | 0 <= l <= MAXBITS :: count[l] == Total(lens, l)
    requires IsMax(lens, max) && max > 0
    ensures IsMin(lens, min) && min <= max
  {
    hide Total;
    min := 1;
    while min < max
      invariant 1 <= min <= max
      invariant forall s | 0 <= s < |lens| && lens[s] > 0 :: min <= lens[s]
    {
      if count[min] != 0 { break; }
      CountZero(lens, min);
      min := min + 1;
    }
  }

  /** The check for an over-subscribed or incomplete set of lengths. */
  method FreeCodes(lens: seq<nat>, count: array<nat>) returns (left: int)
    requires ValidLens(lens) && count.Length == MAXBITS + 1
    requires forall l | 0 <= l <= MAXBITS :: count[l] == Total(lens, l)
    ensures left < 0 <==> OverSubscribed(lens)
    ensures left >= 0 ==> left == Unit() - Kraft(lens)
  {
    hide Total, Kraft, Unit;
    left := 1;
    for len := 1 to MAXBITS + 1
      invariant left == Left(lens, len - 1)
    {
      left := left * 2;
      left := left - count[len];
      LeftNegative(lens, len);
      if left < 0 { return; }
    }
    LeftNegative(lens, MAXBITS);
  }

  lemma {:induction false} FirstZero(lens: seq<nat>, l: nat)
    requires Offset(lens, l) == 0
    ensures First(lens, l) == 0
  {
    if l > 1 { FirstZero(lens, l - 1); }
  }

  lemma {:induction false} RevZero(n: nat)
    ensures Rev(n, 0) == 0
  {
    if n > 0 { RevZero(n - 1); }
  }

  /** The first symbol entered has the shortest length and the word zero. */
  lemma FirstSymbol(lens: seq<nat>, work: seq<nat>, min: nat)
    requires ValidLens(lens) && Sorted(lens, work) && IsMin(lens, min)
    ensures Used(lens) > 0 && lens[work[0]] == min && Rank(lens, work[0]) == 0
    ensures Word(lens, work[0]) == 0
  {
    OffsetMono(lens, min, MAXBITS + 1);
    var l := lens[work[0]];
    if min < l { OffsetMono(lens, min, l); }
    FirstZero(lens, l);
    RevZero(l);
  }

  // ------------------------------------------------------------ the whole table

  /** How many entries the callers make room for. */
  function Space(kind: CodeType, bits: nat): nat {
    match kind
    case CODES => Pow2(bits)
    case LENS => ENOUGH_LENS
    case DISTS => ENOUGH_DISTS
  }

  /** The state between entries: `k` symbols are in and the table for the next one is open. */
  ghost predicate Ready(t: seq<Entry>, base: nat, root: nat, used: nat, next: nat, curr: nat, drop: nat, low: int,
                        kind: CodeType, lens: seq<nat>, work: seq<nat>, k: nat)
  {
    && Buildable(kind, lens, work) && k < Used(lens) && 1 <= root <= MAXBITS
    && AllPlaced(t, base, root, used, kind, lens, work, k)
    && InTable(t, base, root, used, next, curr, drop, low, kind, lens, work, k, k)
  }

  /** The table in which the `j`-th symbol is entered, with `k` symbols in. */
  ghost predicate InTable(t: seq<Entry>, base: nat, root: nat, used: nat, next: nat, curr: nat, drop: nat, low: int,
                          kind: CodeType, lens: seq<nat>, work: seq<nat>, j: nat, k: nat)
    requires Buildable(kind, lens, work) && j < Used(lens) && k <= Used(lens) && base + Pow2(root) <= |t|
  {
    if lens[work[j]] <= root then
      next == 0 && curr == root && drop == 0 && low == -1 && used == Pow2(root)
    else
      && drop == root && low == LinkIndex(root, lens, work[j])
      && OpenSub(t, base, root, used, next, curr, low)
      && AllBelow(t, base, root, kind, lens, work, k, low, next)
      && DeepEnough(lens, root, low, curr)
  }

  /** Entering the `k`-th symbol. */
  lemma Enter(t: seq<Entry>, t': seq<Entry>, base: nat, root: nat, used: nat, next: nat, curr: nat, drop: nat, low: int,
              kind: CodeType, lens: seq<nat>, work: seq<nat>, k: nat)
    requires Ready(t, base, root, used, next, curr, drop, low, kind, lens, work, k)
    requires drop <= lens[work[k]]
    requires Overwritten(t, t', base + next, curr, lens[work[k]] - drop, Shr(Word(lens, work[k]), drop),
                         SymbolEntry(kind, work[k], lens[work[k]] - drop))
    ensures AllPlaced(t', base, root, used, kind, lens, work, k + 1)
    ensures InTable(t', base, root, used, next, curr, drop, low, kind, lens, work, k, k + 1)
  {
    hide Overwritten, SymbolEntry, Word, Pow2, Low, LinkIndex, Index, AllPlaced, OpenSub, AllBelow;
    var s := work[k];
    AllPlacedBounds(t, base, root, used, kind, lens, work, k);
    if lens[s] <= root {
      PlaceShort(t, t', base, root, used, kind, lens, work, k);
      AllPlacedBounds(t', base, root, used, kind, lens, work, k + 1);
    } else {
      PlaceLong(t, t', base, root, used, next, curr, kind, lens, work, k);
      AllPlacedBounds(t', base, root, used, kind, lens, work, k + 1);
    }
  }

  lemma AllPlacedBounds(t: seq<Entry>, base: nat, root: nat, used: nat, kind: CodeType, lens: seq<nat>, work: seq<nat>, k: nat)
    requires Buildable(kind, lens, work) && k <= Used(lens)
    requires AllPlaced(t, base, root, used, kind, lens, work, k)
    ensures Pow2(root) <= used && base + used <= |t|
  {
  }

  /** What the current table leaves room for: the word of the symbol being entered. */
  lemma EnterFits(t: seq<Entry>, base: nat, root: nat, used: nat, next: nat, curr: nat, drop: nat, low: int,
                  kind: CodeType, lens: seq<nat>, work: seq<nat>, k: nat)
    requires Ready(t, base, root, used, next, curr, drop, low, kind, lens, work, k)
    ensures drop < lens[work[k]] <= drop + curr && next + Pow2(curr) == used && base + used <= |t|
    ensures Shr(Word(lens, work[k]), drop) < Pow2(lens[work[k]] - drop)
    ensures work[k] < |lens| && work[k] < MaxSymbols(kind)
    ensures drop == 0 || drop == root
  {
    hide Shr, Low, Pow2, Code, Rev, LinkIndex, Index, Placed, AllBelow;
    var l := lens[work[k]];
    LowSmall(Word(lens, work[k]), l);
    LowAdd(Word(lens, work[k]), drop, l - drop);
  }

  /** The next symbol goes into the same table. */
  lemma Stay(t: seq<Entry>, base: nat, root: nat, used: nat, next: nat, curr: nat, drop: nat, low: int,
             kind: CodeType, lens: seq<nat>, work: seq<nat>, k: nat)
    requires Buildable(kind, lens, work) && k + 1 < Used(lens) && 1 <= root <= MAXBITS
    requires AllPlaced(t, base, root, used, kind, lens, work, k + 1)
    requires InTable(t, base, root, used, next, curr, drop, low, kind, lens, work, k, k + 1)
    requires lens[work[k + 1]] > root ==> LinkIndex(root, lens, work[k + 1]) == low
    ensures Ready(t, base, root, used, next, curr, drop, low, kind, lens, work, k + 1)
  {
    hide LinkIndex, Index, Pow2, OpenSub, AllBelow, DeepEnough, Placed;
    SortedMono(lens, work, k, k + 1);
  }

  /** The next symbol opens a sub-table. */
  lemma Move(t: seq<Entry>, base: nat, root: nat, used: nat, next: nat, curr: nat, drop: nat, low: int, curr': nat,
             kind: CodeType, lens: seq<nat>, work: seq<nat>, k: nat)
    requires Buildable(kind, lens, work) && k + 1 < Used(lens) && 1 <= root <= MAXBITS
    requires AllPlaced(t, base, root, used, kind, lens, work, k + 1)
    requires InTable(t, base, root, used, next, curr, drop, low, kind, lens, work, k, k + 1)
    requires lens[work[k + 1]] > root && LinkIndex(root, lens, work[k + 1]) != low
    requires 1 <= curr' < 16 && base + used + Pow2(curr') <= |t|
    requires BlockClosed(lens, work[k + 1], root, root + curr')
    ensures Ready(t[base + LinkIndex(root, lens, work[k + 1]) := Entry(curr', root, used)], base, root,
                  used + Pow2(curr'), used, curr', root, LinkIndex(root, lens, work[k + 1]), kind, lens, work, k + 1)
  {
    hide LinkIndex, Index, Pow2, OpenSub, AllBelow, DeepEnough, Placed, Start, Block, BlockClosed;
    Successor(lens, work, k);
    OpenSubtable(t, base, root, used, curr', kind, lens, work, k);
    NewBlockAligned(root, lens, work[k], work[k + 1]);
    ClosedIsDeep(lens, root, work[k + 1], curr');
  }

  /** Going from the `k`-th symbol to the next: lengths, counts and the code word. */
  lemma Advance(lens: seq<nat>, work: seq<nat>, k: nat, max: nat)
    requires ValidLens(lens) && !OverSubscribed(lens) && Sorted(lens, work) && k < Used(lens) && IsMax(lens, max)
    ensures var l := lens[work[k]];
            var r := Total(lens, l) - Rank(lens, work[k]) - 1;
            var h := Rev(l, Rev(l, Word(lens, work[k])) + 1);
            && 0 <= r && l <= max
            && (r == 0 && l == max <==> k + 1 == Used(lens))
            && (r > 0 ==> lens[work[k + 1]] == l && Rank(lens, work[k + 1]) == Rank(lens, work[k]) + 1)
            && (r == 0 && l != max ==> lens[work[k + 1]] > l && Rank(lens, work[k + 1]) == 0)
            && (k + 1 < Used(lens) ==> h == Word(lens, work[k + 1]))
            && (k + 1 == Used(lens) ==> h == Rev(MAXBITS, Kraft(lens)))
  {
    hide Index, Rank, Total, Word, Start, Width, Kraft, Rev, Used;
    RankBelowTotal(lens, work[k]);
    NextWord(lens, work[k]);
    if k + 1 < Used(lens) {
      Successor(lens, work, k);
      WordIsRevStart(lens, work[k + 1]);
    } else {
      LastSymbol(lens, work, k);
      CountPositive(lens, max);
    }
  }

  /** `count` holds what is left to enter, from the length of the `k`-th symbol on. */
  ghost predicate Remaining(count: seq<nat>, lens: seq<nat>, s: nat)
    requires s < |lens|
  {
    && |count| == MAXBITS + 1 && lens[s] <= MAXBITS
    && count[lens[s]] == Total(lens, lens[s]) - Rank(lens, s)
    && forall l | lens[s] < l <= MAXBITS :: count[l] == Total(lens, l)
  }

  lemma CountDown(count: seq<nat>, lens: seq<nat>, s: nat, t: nat)
    requires s < |lens| && t < |lens| && lens[s] <= lens[t] <= MAXBITS && Remaining(count, lens, s)
    requires lens[t] == lens[s] ==> Rank(lens, t) == Rank(lens, s) + 1
    requires lens[t] != lens[s] ==> Rank(lens, t) == 0
    requires count[lens[s]] >= 1
    ensures Remaining(count[lens[s] := count[lens[s]] - 1], lens, t)
  {
    hide Total, Rank;
  }

  /** A full table decodes the code; the marker in `t[base + 1]` covers the one-bit code. */
  lemma FullDecodes(t: seq<Entry>, base: nat, root: nat, used: nat, kind: CodeType, lens: seq<nat>, work: seq<nat>)
    requires Buildable(kind, lens, work)
    requires AllPlaced(t, base, root, used, kind, lens, work, Used(lens))
    requires Complete(lens) || (root == 1 && OneBitCode(lens) && t[base + 1] == INVALID)
    ensures Decodes(t[base..base + used], root, kind, lens)
  {
    var tab := t[base..base + used];
    forall v: nat, s: nat | Matches(lens, s, v)
      ensures Lookup(tab, root, v) == SymbolEntry(kind, s, lens[s])
    {
      hide Lookup, SymbolEntry, Placed, Matches;
      MatchedIsSorted(lens, work, s, v);
      PlacedLookup(t, base, root, used, kind, lens, s, v);
    }
    forall v: nat | NoMatch(lens, v)
      ensures Lookup(tab, root, v) == INVALID
    {
      if Complete(lens) {
        var s := CompleteCovers(lens, v);
      } else {
        OneBitMiss(lens, v);
        assert tab[1] == t[base + 1];
      }
    }
  }

  /** A full table is closed: every root index starts some word, or is the marker. */
  lemma FullClosed(t: seq<Entry>, base: nat, root: nat, used: nat, kind: CodeType, lens: seq<nat>, work: seq<nat>)
    requires Buildable(kind, lens, work)
    requires Pow2(root) <= used && base + used <= |t|
    requires AllPlaced(t, base, root, used, kind, lens, work, Used(lens))
    requires Complete(lens) || (root == 1 && OneBitCode(lens) && t[base + 1] == INVALID)
    requires kind == CODES ==> forall s | 0 <= s < |lens| :: lens[s] <= root
    ensures Closed(t[base..base + used], root, kind != CODES)
  {
    hide Placed, Matches, Low, Word, SymbolEntry, GoodLink, Code, OverSubscribed, Complete, Used, Index;
    var tab := t[base..base + used];
    forall i: nat | i < Pow2(root)
      ensures IsLink(tab[i]) ==> kind != CODES && tab[i].bits == root && tab[i].val + Pow2(tab[i].op) <= |tab|
    {
      assert tab[i] == t[base + i];
      if Complete(lens) {
        var s := CompleteCovers(lens, i);
        MatchedIsSorted(lens, work, s, i);
        MatchedRoot(t, base, root, used, kind, lens, s, i);
      } else if i == 0 {
        var s := OneBitZero(lens);
        MatchedIsSorted(lens, work, s, 0);
        MatchedRoot(t, base, root, used, kind, lens, s, 0);
      } else {
        assert i == 1 by { assert Pow2(1) == 2; }
      }
    }
  }

  lemma MatchedRoot(t: seq<Entry>, base: nat, root: nat, used: nat, kind: CodeType, lens: seq<nat>, s: nat, i: nat)
    requires s < |lens| <= MaxSymbols(kind) && Placed(t, base, root, used, kind, lens, s)
    requires Matches(lens, s, i) && i < Pow2(root)
    ensures base + i < |t| && var e := t[base + i]; IsLink(e) ==> lens[s] > root && e.bits == root && e.val + Pow2(e.op) <= used
  {
    hide Code, SymbolEntry, Rev, Low;
    if lens[s] > root {
      LowLow(i, lens[s], root);
      LowSmall(i, root);
    }
  }

  lemma OneBitZero(lens: seq<nat>) returns (s: nat)
    requires OneBitCode(lens)
    ensures Matches(lens, s, 0)
  {
    s :| 0 <= s < |lens| && lens[s] == 1 && Code(lens, s) == 0;
    RevZero(1);
  }

  lemma MatchedIsSorted(lens: seq<nat>, work: seq<nat>, s: nat, v: nat)
    requires ValidLens(lens) && Sorted(lens, work) && Matches(lens, s, v)
    ensures Index(lens, s) < Used(lens) && work[Index(lens, s)] == s
  {
    hide Matches;
    assert s < |lens| && lens[s] > 0 by { MatchedIsUsed(lens, s, v); }
    IndexBounds(lens, s);
    IndexInjective(lens, s, work[Index(lens, s)]);
  }

  lemma MatchedIsUsed(lens: seq<nat>, s: nat, v: nat)
    requires Matches(lens, s, v)
    ensures s < |lens| && lens[s] > 0
  {
  }

  /** The code with a single word, which is the one bit zero. */
  ghost predicate OneBitCode(lens: seq<nat>) {
    exists s :: 0 <= s < |lens| && lens[s] == 1 && Code(lens, s) == 0
  }

  lemma OneBitMiss(lens: seq<nat>, v: nat)
    requires OneBitCode(lens) && NoMatch(lens, v)
    ensures Low(v, 1) == 1
  {
    var s :| 0 <= s < |lens| && lens[s] == 1 && Code(lens, s) == 0;
    RevZero(1);
    assert !Matches(lens, s, v);
  }

  lemma FullWord()
    ensures Rev(MAXBITS, Unit()) == 0
  {
    RevShift(0, MAXBITS, 1);
    assert 1 * Pow2(MAXBITS) == Unit();
  }

  lemma IncompleteEnd(lens: seq<nat>, work: seq<nat>)
    requires ValidLens(lens) && Sorted(lens, work) && IsMax(lens, 1) && Kraft(lens) < Unit()
    ensures OneBitCode(lens) && Rev(MAXBITS, Kraft(lens)) == 1
  {
    hide Rev, Kraft, Width, Code, Index, Rank, Total, Used;
    UsedPositive(lens, 1);
    var k := Used(lens) - 1;
    var s := work[k];
    LastSymbol(lens, work, k);
    OneBitEnd(Code(lens, s), Kraft(lens));
    assert lens[s] == 1 && Code(lens, s) == 0;
  }

  lemma UsedPositive(lens: seq<nat>, l: nat)
    requires 1 <= l <= MAXBITS && Total(lens, l) > 0
    ensures Used(lens) > 0
  {
    OffsetMono(lens, l, MAXBITS + 1);
  }

  lemma OneBitEnd(c: nat, p: nat)
    requires p == c * Width(1) + Width(1) && p < Unit()
    ensures c == 0 && Rev(MAXBITS, p) == 1
  {
    assert Width(1) == 16384;
    RevShift(1, MAXBITS - 1, 1);
    assert 1 * Pow2(MAXBITS - 1) == Width(1);
    assert Rev(1, 1) == Pow2(0) + Rev(0, 0);
  }

  predicate TooBig(kind: CodeType, used: nat) {
    (kind == LENS && used > ENOUGH_LENS) || (kind == DISTS && used > ENOUGH_DISTS)
  }

  lemma StartReady(t: seq<Entry>, base: nat, root: nat, kind: CodeType, lens: seq<nat>, work: seq<nat>, min: nat)
    requires Buildable(kind, lens, work) && IsMin(lens, min) && min <= root <= MAXBITS
    requires base + Pow2(root) <= |t|
    ensures Used(lens) > 0 && Ready(t, base, root, Pow2(root), 0, root, 0, -1, kind, lens, work, 0)
    ensures Current(lens, work, 0, min, 0)
  {
    hide Word, Used, Index, Rank, Total, Pow2;
    FirstSymbol(lens, work, min);
  }

  /** Everything outside `base .. base + n` is as it was. */
  ghost predicate SameOutside(t: seq<Entry>, t': seq<Entry>, base: nat, n: nat) {
    |t'| == |t| && forall p | 0 <= p < |t| && !(base <= p < base + n) :: t'[p] == t[p]
  }

  lemma OverwrittenInside(t: seq<Entry>, t': seq<Entry>, base: nat, n: nat, at: nat, c: nat, w: nat, h: nat, e: Entry)
    requires Overwritten(t, t', at, c, w, h, e) && base <= at && at + Pow2(c) <= base + n
    ensures SameOutside(t, t', base, n)
  {
  }

  /** Make the entry for the `k`-th symbol and replicate it. */
  method EnterSymbol(table: array<Entry>, base: nat, root: nat, used: nat, next: nat, curr: nat, drop: nat, ghost low: int,
                     kind: CodeType, lens: seq<nat>, ghost work: seq<nat>, ghost k: nat, s: nat, len: nat, huff: nat)
    requires Ready(table[..], base, root, used, next, curr, drop, low, kind, lens, work, k)
    requires work[k] == s && s < |lens| && lens[s] == len && Word(lens, s) == huff
    modifies table
    ensures Buildable(kind, lens, work) && k < Used(lens) && base + Pow2(root) <= table.Length
    ensures AllPlaced(table[..], base, root, used, kind, lens, work, k + 1)
    ensures InTable(table[..], base, root, used, next, curr, drop, low, kind, lens, work, k, k + 1)
    ensures SameOutside(old(table[..]), table[..], base, used)
    ensures next + Pow2(curr) == used && (drop == 0 || drop == root)
  {
    hide Pow2, Shr, Word, SymbolEntry, Overwritten, InTable, AllPlaced, SameOutside, Buildable;
    ghost var t := table[..];
    EnterFits(t, base, root, used, next, curr, drop, low, kind, lens, work, k);
    var here := SymbolEntry(kind, s, len - drop);
    Replicate(table, base + next, curr, len - drop, Shr(huff, drop), here);
    Enter(t, table[..], base, root, used, next, curr, drop, low, kind, lens, work, k);
    OverwrittenInside(t, table[..], base, used, base + next, curr, len - drop, Shr(huff, drop), here);
    AllPlacedBounds(table[..], base, root, used, kind, lens, work, k + 1);
  }

  lemma SameOutsideTrans(t: seq<Entry>, t': seq<Entry>, t'': seq<Entry>, base: nat, m: nat, n: nat)
    requires SameOutside(t, t', base, n) && SameOutside(t', t'', base, m) && m <= n
    ensures SameOutside(t, t'', base, n)
  {
  }

  /** The entries of the sub-table that the `k`-th symbol opens, none if it opens no table. */
  function Opened(lens: seq<nat>, work: seq<nat>, root: nat, max: nat, k: nat): nat
    requires ValidLens(lens) && 1 <= k < |work| && work[k] < |lens| && work[k - 1] < |lens|
  {
    var s, t := work[k], work[k - 1];
    if lens[s] > root && (lens[t] <= root || LinkIndex(root, lens, t) != LinkIndex(root, lens, s)) then
      Pow2(SubtableDepth(lens, s, root, lens[s], Pow2(lens[s] - root), max))
    else 0
  }

  /** The entries that the symbols up to the `k`-th need, the root table included. */
  function Entries(lens: seq<nat>, work: seq<nat>, root: nat, max: nat, k: nat): (n: nat)
    requires ValidLens(lens) && k < |work| && forall j | 0 <= j <= k :: work[j] < |lens|
  {
    if k == 0 then Pow2(root) else Entries(lens, work, root, max, k - 1) + Opened(lens, work, root, max, k)
  }

  lemma {:induction false} EntriesMono(lens: seq<nat>, work: seq<nat>, root: nat, max: nat, j: nat, k: nat)
    requires ValidLens(lens) && j <= k < |work| && forall j | 0 <= j <= k :: work[j] < |lens|
    ensures Entries(lens, work, root, max, j) <= Entries(lens, work, root, max, k)
  {
    hide Opened;
    if j < k { EntriesMono(lens, work, root, max, j, k - 1); }
  }

  lemma {:induction false} EntriesAgree(lens: seq<nat>, work: seq<nat>, work': seq<nat>, root: nat, max: nat, k: nat)
    requires ValidLens(lens) && Sorted(lens, work) && Sorted(lens, work') && k < Used(lens)
    ensures Entries(lens, work, root, max, k) == Entries(lens, work', root, max, k)
  {
    hide Index, Used, SubtableDepth, LinkIndex, Pow2;
    IndexInjective(lens, work[k], work'[k]);
    if k > 0 {
      IndexInjective(lens, work[k - 1], work'[k - 1]);
      EntriesAgree(lens, work, work', root, max, k - 1);
    }
  }

  /** The index bits of the root table. */
  function RootBits(bits: nat, min: nat, max: nat): nat {
    var root := if bits > max then max else bits;
    if root < min then min else root
  }

  /** The lengths need more table entries than there is room for. */
  ghost predicate Oversize(kind: CodeType, lens: seq<nat>, bits: nat)
    requires ValidLens(lens)
  {
    exists work, min, max ::
      && IsMin(lens, min) && IsMax(lens, max) && Sorted(lens, work) && Used(lens) > 0
      && TooBig(kind, Entries(lens, work, RootBits(bits, min, max), max, Used(lens) - 1))
  }

  lemma RangeUnique(lens: seq<nat>, min: nat, max: nat, min': nat, max': nat)
    requires IsMin(lens, min) && IsMax(lens, max) && IsMin(lens, min') && IsMax(lens, max')
    ensures min == min' && max == max'
  {
    hide Total;
    CountPositive(lens, min);
    CountPositive(lens, min');
    if max > 0 { CountPositive(lens, max); }
    if max' > 0 { CountPositive(lens, max'); }
  }

  /** The root table has the index bits `RootBits` says. */
  ghost predicate RootIs(lens: seq<nat>, bits: nat, root: nat) {
    forall min, max :: IsMin(lens, min) && IsMax(lens, max) ==> root == RootBits(bits, min, max)
  }

  lemma RootIsBy(lens: seq<nat>, bits: nat, min: nat, max: nat)
    requires IsMin(lens, min) && IsMax(lens, max)
    ensures RootIs(lens, bits, RootBits(bits, min, max))
  {
    hide IsMin, IsMax;
    forall min', max' | IsMin(lens, min') && IsMax(lens, max')
      ensures RootBits(bits, min, max) == RootBits(bits, min', max')
    {
      RangeUnique(lens, min, max, min', max');
    }
  }

  lemma OversizeBy(kind: CodeType, lens: seq<nat>, bits: nat, work: seq<nat>, min: nat, max: nat)
    requires ValidLens(lens) && IsMin(lens, min) && IsMax(lens, max) && Sorted(lens, work) && Used(lens) > 0
    ensures Oversize(kind, lens, bits)
            <==> TooBig(kind, Entries(lens, work, RootBits(bits, min, max), max, Used(lens) - 1))
  {
    hide Entries, Used, Total, Index;
    if Oversize(kind, lens, bits) {
      var work', min', max' :|
        && IsMin(lens, min') && IsMax(lens, max') && Sorted(lens, work') && Used(lens) > 0
        && TooBig(kind, Entries(lens, work', RootBits(bits, min', max'), max', Used(lens) - 1));
      RangeUnique(lens, min, max, min', max');
      EntriesAgree(lens, work, work', RootBits(bits, min, max), max, Used(lens) - 1);
    }
  }

  /** What the `k`-th symbol adds to the entries, seen from the state after the one before it. */
  lemma MoveCounts(t: seq<Entry>, base: nat, root: nat, used: nat, next: nat, curr: nat, drop: nat, low: int,
                   kind: CodeType, lens: seq<nat>, work: seq<nat>, k: nat, max: nat)
    requires Buildable(kind, lens, work) && 1 <= k < Used(lens) && base + Pow2(root) <= |t|
    requires InTable(t, base, root, used, next, curr, drop, low, kind, lens, work, k - 1, k)
    ensures var s := work[k];
            Entries(lens, work, root, max, k) == Entries(lens, work, root, max, k - 1) +
            if lens[s] > root && LinkIndex(root, lens, s) != low
            then Pow2(SubtableDepth(lens, s, root, lens[s], Pow2(lens[s] - root), max)) else 0
  {
    hide LinkIndex, Index, Used, Pow2, SubtableDepth, OpenSub, AllBelow, DeepEnough;
  }

  lemma EntriesAll(kind: CodeType, lens: seq<nat>, work: seq<nat>, root: nat, max: nat, min: nat)
    requires Buildable(kind, lens, work) && IsMin(lens, min)
    ensures Used(lens) > 0 && ValidLens(lens) && Used(lens) <= |work|
    ensures forall j | 0 <= j < Used(lens) :: work[j] < |lens|
    ensures Entries(lens, work, root, max, 0) == Pow2(root) <= Entries(lens, work, root, max, Used(lens) - 1)
  {
    hide Index, Used, Total, Pow2;
    UsedPositive(lens, min);
    EntriesMono(lens, work, root, max, 0, Used(lens) - 1);
  }

  /** Start a new sub-table for the `sym`-th symbol and link it from the root table. */
  method OpenTable(kind: CodeType, lens: seq<nat>, table: array<Entry>, base: nat, root: nat, used0: nat, next0: nat,
                   curr0: nat, drop0: nat, low0: int, ghost work: seq<nat>, ghost sym: nat, len: nat, huff: nat,
                   count: array<nat>, max: nat)
    returns (used: nat, next: nat, curr: nat, drop: nat, low: int)
    requires Buildable(kind, lens, work) && IsMax(lens, max) && count.Length == MAXBITS + 1
    requires 1 <= sym && Current(lens, work, sym, len, huff) && Remaining(count[..], lens, work[sym])
    requires 1 <= root < len && Low(huff, root) != low0 && kind != CODES
    requires base + Space(kind, root) <= table.Length && Pow2(root) <= used0 <= Space(kind, root)
    requires max <= MAXBITS && base + Pow2(root) <= table.Length && AllPlaced(table[..], base, root, used0, kind, lens, work, sym)
    requires InTable(table[..], base, root, used0, next0, curr0, drop0, low0, kind, lens, work, sym - 1, sym)
    requires next0 + Pow2(curr0) == used0 && (drop0 == 0 || drop0 == root)
    requires used0 == Entries(lens, work, root, max, sym - 1)
    modifies table
    ensures used == Entries(lens, work, root, max, sym)
    ensures TooBig(kind, used) || used <= Space(kind, root)
    ensures TooBig(kind, used) || Ready(table[..], base, root, used, next, curr, drop, low, kind, lens, work, sym)
    ensures SameOutside(old(table[..]), table[..], base, Space(kind, root))
  {
    hide Pow2, Low, Shr, Word, LinkIndex, AllPlaced, InTable, Ready, Remaining, BlockClosed, Total, Rank, Used,
      SameOutside, IsMax, Entries, SubtableDepth, Opened, OverSubscribed, Sorted;
    ghost var t := table[..];
    SameOutsideRefl(t, base, Space(kind, root));
    MoveFits(lens, work, sym, len, huff, root, kind, max);
    MoveCounts(t, base, root, used0, next0, curr0, drop0, low0, kind, lens, work, sym, max);
    drop := if drop0 == 0 then root else drop0;
    next := next0 + Pow2(curr0);
    curr := SubtableBits(lens, work[sym], count, len, root, max);
    used := used0 + Pow2(curr);
    low := low0;
    if TooBig(kind, used) { return; }
    Move(t, base, root, next, next0, curr0, drop0, low0, curr, kind, lens, work, sym - 1);
    low := Low(huff, root);
    table[base + low] := Entry(curr, root, next);
    assert table[..] == t[base + low := Entry(curr, root, next)];
    LinkInside(t, base, Space(kind, root), low, Entry(curr, root, next));
  }

  /** The loop that enters all the symbols, given lengths already found good. */
  method FillTable(kind: CodeType, lens: seq<nat>, table: array<Entry>, base: nat, root: nat, work: array<nat>,
                   count: array<nat>, min: nat, max: nat) returns (ret: int, used: nat)
    requires Buildable(kind, lens, work[..]) && count != work && count.Length == MAXBITS + 1
    requires forall l | 0 <= l <= MAXBITS :: count[l] == Total(lens, l)
    requires IsMin(lens, min) && IsMax(lens, max) && 1 <= min <= root <= max <= MAXBITS
    requires Complete(lens) || (Kraft(lens) < Unit() && max == 1)
    requires kind == CODES ==> max <= root
    requires base + Space(kind, root) <= table.Length
    modifies table, count
    ensures ret == 0 || (ret == 1 && kind != CODES)
    ensures Used(lens) > 0 && (ret == 1 <==> TooBig(kind, Entries(lens, work[..], root, max, Used(lens) - 1)))
    ensures ret == 0 ==> Pow2(root) <= used <= Space(kind, root)
    ensures ret == 0 ==> Decodes(table[base..base + used], root, kind, lens)
                         && Closed(table[base..base + used], root, kind != CODES)
    ensures SameOutside(old(table[..]), table[..], base, Space(kind, root))
  {
    hide Pow2, Low, Shr, Rev, Word, LinkIndex, AllPlaced, InTable, Ready, Remaining, BlockClosed, Total, Rank, Decodes, Closed, Sorted, Used, SameOutside, Buildable, IsMax, IsMin, Entries, SubtableDepth, Opened, Kraft, Unit, Complete, ValidLens;
    ghost var t0 := table[..];
    SameOutsideRefl(t0, base, Space(kind, root));
    var huff: nat, sym: nat, len: nat, next: nat, curr: nat, drop: nat := 0, 0, min, 0, root, 0;
    var low: int := -1;
    used := Pow2(root);
    EntriesAll(kind, lens, work[..], root, max, min);
    if TooBig(kind, used) { return 1, used; }
    StartReady(table[..], base, root, kind, lens, work[..], min);
    StartRemaining(count[..], kind, lens, work[..], min);
    ghost var t := t0;
    while true
      invariant Current(lens, work[..], sym, len, huff)
      invariant Remaining(count[..], lens, work[sym])
      invariant used <= Space(kind, root) && base + Space(kind, root) <= table.Length
      invariant used == Entries(lens, work[..], root, max, sym)
      invariant Ready(table[..], base, root, used, next, curr, drop, low, kind, lens, work[..], sym)
      invariant SameOutside(t0, table[..], base, Space(kind, root))
      decreases Used(lens) - sym
    {
      t := table[..];
      EnterSymbol(table, base, root, used, next, curr, drop, low, kind, lens, work[..], sym, work[sym], len, huff);
      SameOutsideTrans(t0, t, table[..], base, used, Space(kind, root));
      NextCounts(count[..], kind, lens, work[..], sym, len, huff, max);
      ghost var c := count[..];
      huff := BackwardIncrement(huff, len);
      sym := sym + 1;
      count[len] := count[len] - 1;
      assert count[..] == c[len := c[len] - 1];
      if count[len] == 0 {
        if len == max { break; }
        len := lens[work[sym]];
      }
      MoveFits(lens, work[..], sym, len, huff, root, kind, max);
      if len > root && Low(huff, root) != low {
        EntriesMono(lens, work[..], root, max, 0, sym - 1);
        t := table[..];
        used, next, curr, drop, low := OpenTable(kind, lens, table, base, root, used, next, curr, drop, low, work[..], sym,
                                                 len, huff, count, max);
        SameOutsideTrans(t0, t, table[..], base, Space(kind, root), Space(kind, root));
        if TooBig(kind, used) {
          EntriesMono(lens, work[..], root, max, sym, Used(lens) - 1);
          return 1, used;
        }
      } else {
        MoveCounts(table[..], base, root, used, next, curr, drop, low, kind, lens, work[..], sym, max);
        Stay(table[..], base, root, used, next, curr, drop, low, kind, lens, work[..], sym - 1);
      }
    }
    Finish(table[..], base, root, used, next, curr, drop, low, kind, lens, work[..], sym - 1, max);
    if huff != 0 {
      t := table[..];
      table[base + next + huff] := Entry(64, len - drop, 0);
      assert table[..] == t[base + 1 := INVALID];
      LinkInside(t, base, Space(kind, root), 1, INVALID);
      SameOutsideTrans(t0, t, table[..], base, Space(kind, root), Space(kind, root));
    }
    assert table[base..base + used] == table[..][base..base + used];
    ret := 0;
  }

  /** After the last symbol: the table is right, with one marker if the code is incomplete. */
  lemma Finish(t: seq<Entry>, base: nat, root: nat, used: nat, next: nat, curr: nat, drop: nat, low: int,
               kind: CodeType, lens: seq<nat>, work: seq<nat>, k: nat, max: nat)
    requires Buildable(kind, lens, work) && k + 1 == Used(lens) && IsMax(lens, max) && 1 <= root <= max
    requires AllPlaced(t, base, root, used, kind, lens, work, k + 1)
    requires base + Pow2(root) <= |t|
    requires InTable(t, base, root, used, next, curr, drop, low, kind, lens, work, k, k + 1)
    requires Complete(lens) || (Kraft(lens) < Unit() && max == 1)
    requires kind == CODES ==> max <= root
    ensures 2 <= Pow2(root) <= used && base + used <= |t|
    ensures Complete(lens) ==> Rev(MAXBITS, Kraft(lens)) == 0 && Decodes(t[base..base + used], root, kind, lens)
                               && Closed(t[base..base + used], root, kind != CODES)
    ensures !Complete(lens) ==>
              && Rev(MAXBITS, Kraft(lens)) == 1 && next == 0 && drop == 0
              && Decodes(t[base + 1 := INVALID][base..base + used], root, kind, lens)
              && Closed(t[base + 1 := INVALID][base..base + used], root, kind != CODES)
  {
    hide Rev, Kraft, Decodes, Closed, Placed, LinkIndex, Index, Used, Unit;
    Pow2Mono(1, root);
    if Complete(lens) {
      FullWord();
      FullDecodes(t, base, root, used, kind, lens, work);
      FullClosed(t, base, root, used, kind, lens, work);
    } else {
      IncompleteEnd(lens, work);
      MarkerKeeps(t, base, used, kind, lens, work);
      FullDecodes(t[base + 1 := INVALID], base, root, used, kind, lens, work);
      FullClosed(t[base + 1 := INVALID], base, root, used, kind, lens, work);
    }
  }

  /** The marker does not disturb the one-bit word zero. */
  lemma MarkerKeeps(t: seq<Entry>, base: nat, used: nat, kind: CodeType, lens: seq<nat>, work: seq<nat>)
    requires Buildable(kind, lens, work) && IsMax(lens, 1) && Kraft(lens) < Unit()
    requires AllPlaced(t, base, 1, used, kind, lens, work, Used(lens))
    ensures base + 1 < |t| && AllPlaced(t[base + 1 := INVALID], base, 1, used, kind, lens, work, Used(lens))
  {
    hide Rev, Kraft, Index, Used, Unit, SymbolEntry, Fills, Code, Width;
    assert Pow2(1) == 2;
    forall j | 0 <= j < Used(lens)
      ensures Placed(t[base + 1 := INVALID], base, 1, used, kind, lens, work[j])
    {
      var s := work[j];
      assert lens[s] == 1;
      CodeFits(lens, s);
      OneBitWord(lens, s);
      FillsAway(t, base, 1, 1, Word(lens, s), SymbolEntry(kind, s, 1), base + 1, INVALID);
    }
  }

  lemma OneBitWord(lens: seq<nat>, s: nat)
    requires s < |lens| && lens[s] == 1 && Start(lens, s) + Width(1) < Unit()
    ensures Word(lens, s) == 0 && Low(1, 1) == 1
  {
    assert Width(1) == 16384;
    RevZero(1);
    assert Code(lens, s) == 0;
    assert Low(1, 1) == 1 % 2 + 2 * Low(0, 0);
  }

  lemma LinkInside(t: seq<Entry>, base: nat, n: nat, low: nat, e: Entry)
    requires low < n && base + n <= |t|
    ensures SameOutside(t, t[base + low := e], base, n)
  {
  }

  /** What the next loop iteration starts from. */
  lemma NextCounts(count: seq<nat>, kind: CodeType, lens: seq<nat>, work: seq<nat>, sym: nat, len: nat, huff: nat, max: nat)
    requires Buildable(kind, lens, work) && IsMax(lens, max)
    requires Current(lens, work, sym, len, huff) && Remaining(count, lens, work[sym])
    ensures 1 <= len <= MAXBITS && huff < Pow2(len) && |count| == MAXBITS + 1 && count[len] >= 1
    ensures var c := count[len] - 1;
            var h := Rev(len, Rev(len, huff) + 1);
            && (c == 0 && len == max <==> sym + 1 == Used(lens))
            && (sym + 1 == Used(lens) ==> h == Rev(MAXBITS, Kraft(lens)))
            && (sym + 1 < Used(lens) ==>
                  && work[sym + 1] < |lens|
                  && Current(lens, work, sym + 1, if c == 0 then lens[work[sym + 1]] else len, h)
                  && Remaining(count[len := c], lens, work[sym + 1]))
  {
    hide Rank, Total, Word, Kraft, Rev, Used, Pow2;
    Advance(lens, work, sym, max);
    if sym + 1 < Used(lens) {
      CountDown(count, lens, work[sym], work[sym + 1]);
    }
  }

  lemma MoveFits(lens: seq<nat>, work: seq<nat>, sym: nat, len: nat, huff: nat, root: nat, kind: CodeType, max: nat)
    requires Buildable(kind, lens, work) && IsMax(lens, max) && Current(lens, work, sym, len, huff)
    ensures ValidLens(lens) && len <= max && Low(huff, root) == LinkIndex(root, lens, work[sym]) < Pow2(root)
  {
  }

  /** `sym` is the symbol about to be entered, of length `len` and word `huff`. */
  ghost predicate Current(lens: seq<nat>, work: seq<nat>, sym: nat, len: nat, huff: nat) {
    && sym < Used(lens) <= |work| && work[sym] < |lens|
    && len == lens[work[sym]] && huff == Word(lens, work[sym])
  }

  lemma SameOutsideRefl(t: seq<Entry>, base: nat, n: nat)
    ensures SameOutside(t, t, base, n)
  {
  }

  lemma StartRemaining(count: seq<nat>, kind: CodeType, lens: seq<nat>, work: seq<nat>, min: nat)
    requires Buildable(kind, lens, work) && IsMin(lens, min)
    requires |count| == MAXBITS + 1
    requires forall l | 0 <= l <= MAXBITS :: count[l] == Total(lens, l)
    ensures Used(lens) > 0 && Remaining(count, lens, work[0])
  {
    hide Total, Rank, Index, Used;
    FirstSymbol(lens, work, min);
  }

  /**
   `inflate_table`: build at `table[base..]` the tables that decode the code with lengths
   `lens`.  The result is 0 with `next` the first entry after the tables and `root` the index
   bits of the root table, -1 exactly when the lengths are over-subscribed, or incomplete
   other than a single one-bit code of a LENS or DISTS table, and 1 exactly when the tables do
   not fit.
   */
  method InflateTable(kind: CodeType, lens: seq<nat>, table: array<Entry>, base: nat, bits: nat, work: array<nat>)
    returns (ret: int, next: nat, root: nat)
    requires ValidLens(lens) && |lens| <= MaxSymbols(kind) && |lens| <= work.Length
    requires 1 <= bits <= MAXBITS
    requires kind == CODES ==> forall s | 0 <= s < |lens| :: lens[s] <= bits
    requires base + Space(kind, bits) <= table.Length
    modifies table, work
    ensures ret == -1 || ret == 0 || (ret == 1 && kind != CODES)
    ensures ret == -1 <==> Rejected(kind, lens)
    ensures ret == 1 <==> !Rejected(kind, lens) && Oversize(kind, lens, bits)
    ensures ret == 0 ==> 1 <= root <= MAXBITS && base + Pow2(root) <= next <= base + Space(kind, bits)
    ensures ret == 0 ==> RootIs(lens, bits, root)
    ensures ret == 0 ==> Decodes(table[base..next], root, kind, lens) && Closed(table[base..next], root, kind != CODES)
    ensures SameOutside(old(table[..]), table[..], base, Space(kind, bits))
  {
    hide Pow2, Kraft, Total, Decodes, Closed, SameOutside, Sorted, RootIs;
    next, root := base, bits;
    SameOutsideRefl(table[..], base, Space(kind, bits));
    SpaceAtLeast(kind, bits);
    var count := CountLengths(lens);
    var max := MaxLength(lens, count);
    if root > max { root := max; }
    if max == 0 {
      ghost var t := table[..];
      table[base] := INVALID;
      table[base + 1] := INVALID;
      assert table[..] == t[base := INVALID][base + 1 := INVALID];
      EmptyTable(t, base, Space(kind, bits), kind, lens);
      EmptyFits(kind, lens, bits);
      assert table[base..base + 2] == table[..][base..base + 2];
      return 0, base + 2, 1;
    }
    CountPositive(lens, max);
    var min := MinLength(lens, count, max);
    if root < min { root := min; }
    var left := FreeCodes(lens, count);
    if left < 0 { return -1, base, root; }
    if left > 0 && (kind == CODES || max != 1) {
      return -1, base, root;
    }
    SortSymbols(lens, count, work);
    if kind == CODES { Pow2Mono(root, bits); }
    ghost var t := table[..];
    UsedPositive(lens, min);
    OversizeBy(kind, lens, bits, work[..], min, max);
    RootIsBy(lens, bits, min, max);
    var r, used := FillTable(kind, lens, table, base, root, work, count, min, max);
    SameOutsideWiden(t, table[..], base, Space(kind, root), Space(kind, bits));
    return r, base + used, root;
  }

  lemma EmptyFits(kind: CodeType, lens: seq<nat>, bits: nat)
    requires ValidLens(lens) && IsMax(lens, 0)
    ensures !Oversize(kind, lens, bits) && forall root :: RootIs(lens, bits, root)
  {
    hide Total, Entries, Used;
    if min :| IsMin(lens, min) {
      CountPositive(lens, min);
    }
  }

  lemma SpaceAtLeast(kind: CodeType, bits: nat)
    requires bits >= 1
    ensures Space(kind, bits) >= 2
  {
    Pow2Mono(1, bits);
  }

  lemma SameOutsideWiden(t: seq<Entry>, t': seq<Entry>, base: nat, m: nat, n: nat)
    requires SameOutside(t, t', base, m) && m <= n
    ensures SameOutside(t, t', base, n)
  {
  }

  /** With no symbol at all, every bit leads to the marker. */
  lemma EmptyTable(t: seq<Entry>, base: nat, n: nat, kind: CodeType, lens: seq<nat>)
    requires n >= 2 && base + n <= |t| && |lens| <= MaxSymbols(kind)
    requires forall s | 0 <= s < |lens| :: lens[s] == 0
    ensures var t' := t[base := INVALID][base + 1 := INVALID];
            SameOutside(t, t', base, n) && Decodes(t'[base..base + 2], 1, kind, lens) && Closed(t'[base..base + 2], 1, kind != CODES)
    ensures Pow2(1) == 2 && !Rejected(kind, lens)
  {
    assert Pow2(1) == 2;
    KraftZero(lens, |lens|);
    var t' := t[base := INVALID][base + 1 := INVALID];
    var tab := t'[base..base + 2];
    assert tab[0] == tab[1] == INVALID;
    forall v: nat
      ensures Lookup(tab, 1, v) == INVALID
    {
      assert Low(v, 1) < 2;
    }
  }

  lemma {:induction false} KraftZero(lens: seq<nat>, n: nat)
    requires n <= |lens| && forall s | 0 <= s < |lens| :: lens[s] == 0
    ensures KraftUpTo(lens, n) == 0
  {
    if n > 0 { KraftZero(lens, n - 1); }
  }
}
