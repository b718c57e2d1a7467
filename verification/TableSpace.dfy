/**
 The room that callers of `inflate_table` make (inftrees.h, `ENOUGH_LENS` and `ENOUGH_DISTS`)
 is enough for every set of lengths the function accepts.  The sizes were found by an exhaustive
 search; here they follow from a count of the words in each sub-table.

 A sub-table of depth `b` whose first word has depth `a` holds at least `2^a + (b - a)` words
 and the next sub-table starts at depth `b` or more.  So the entries of all sub-tables exceed
 the number of words in them by at most `2^m - m - 1`, `m` being the greatest depth, and when
 they do exceed it by that much the number of words has the parity of `m - 1`.
 */
module TableSpace {
  import opened Bits
  import opened CanonicalCode
  import opened InflateTable

  /** `e` entries of sub-tables for `n` words, when the next word has depth `a`. */
  ghost predicate Bounded(e: int, n: int, a: nat) {
    && e + a + 1 <= n + Pow2(a)
    && (e + a + 1 == n + Pow2(a) ==> (n - a) % 2 == 1)
  }

  lemma BoundedStart(a: nat)
    requires a >= 1
    ensures Bounded(0, 0, a)
  {
    PowerGap(1, a);
    assert Pow2(1) == 2;
  }

  lemma {:induction false} PowerGap(a: nat, b: nat)
    requires 1 <= a <= b
    ensures Pow2(a) - a <= Pow2(b) - b
    ensures a < b ==> Pow2(a) - a < Pow2(b) - b
    ensures Pow2(a) % 2 == 0 && Pow2(a) >= 2
  {
    if a < b { PowerGap(a, b - 1); }
    Pow2Mono(1, a);
  }

  /** A sub-table from depth `a` to depth `b` with `c` words. */
  lemma BoundedMore(e: int, n: int, a: nat, b: nat, c: int, p: int, a': nat)
    requires Bounded(e, n, a) && 1 <= a <= b <= a' && p <= Pow2(b) && c >= Pow2(a) + (b - a)
    ensures Bounded(e + p, n + c, a')
  {
    hide Pow2;
    PowerGap(a, b);
    PowerGap(b, a');
  }

  // ------------------------------------------------------------ one sub-table

  /** The words of the block that starts with the `k0`-th symbol, up to the `k`-th. */
  ghost predicate Inside(lens: seq<nat>, work: seq<nat>, root: nat, max: nat, k0: nat, k: nat, y: nat)
    requires ValidLens(lens) && Sorted(lens, work) && k0 <= k < Used(lens) && 1 <= k0 && 1 <= root <= MAXBITS
  {
    var s, t := work[k0], work[k];
    var a, d, short := lens[s] - root, lens[t], Offset(lens, root + 1);
    && lens[s] > root && d >= lens[s]
    && Start(lens, s) == Block(root, Start(lens, s)) * Width(root)
    && Block(root, Start(lens, t)) == Block(root, Start(lens, s))
    && Start(lens, t) + Width(d) + y * Width(d) == Start(lens, s) + Width(root)
    && k - k0 + 1 + y >= Pow2(a) + (d - root - a)
    && Bounded(Entries(lens, work, root, max, k0 - 1) - Pow2(root), k0 - short, a)
    && Entries(lens, work, root, max, k)
       == Entries(lens, work, root, max, k0 - 1) + Pow2(SubtableDepth(lens, s, root, lens[s], Pow2(lens[s] - root), max))
  }

  lemma OpenBlock(lens: seq<nat>, work: seq<nat>, root: nat, max: nat, k: nat) returns (y: nat)
    requires ValidLens(lens) && Complete(lens) && Sorted(lens, work) && 1 <= k < Used(lens) && 1 <= root <= MAXBITS
    requires lens[work[k]] > root
    requires lens[work[k - 1]] <= root || LinkIndex(root, lens, work[k - 1]) != LinkIndex(root, lens, work[k])
    requires Bounded(Entries(lens, work, root, max, k - 1) - Pow2(root), k - Offset(lens, root + 1), lens[work[k]] - root)
    ensures Inside(lens, work, root, max, k, k, y)
  {
    hide Pow2, Width, Start, Index, Used, Block, LinkIndex, Offset, Bounded, SubtableDepth, Kraft;
    Successor(lens, work, k - 1);
    NewBlockAligned(root, lens, work[k - 1], work[k]);
    var d := lens[work[k]];
    WidthSplit(root, d);
    Pow2Positive(d - root);
    y := Pow2(d - root) - 1;
    Distribute(y, 1, Width(d));
  }

  lemma Pow2Positive(n: nat)
    ensures Pow2(n) >= 1
  {
  }

  /** The next word is in the same block. */
  lemma StayInBlock(lens: seq<nat>, work: seq<nat>, root: nat, max: nat, k0: nat, k: nat, y: nat) returns (y': nat)
    requires ValidLens(lens) && Complete(lens) && Sorted(lens, work) && 1 <= k0 <= k && k + 1 < Used(lens) && 1 <= root <= MAXBITS
    requires Inside(lens, work, root, max, k0, k, y)
    requires LinkIndex(root, lens, work[k]) == LinkIndex(root, lens, work[k + 1])
    ensures Inside(lens, work, root, max, k0, k + 1, y')
  {
    hide Pow2, Width, Start, Index, Used, Block, LinkIndex, Offset, Bounded, SubtableDepth, Kraft;
    Successor(lens, work, k);
    SameBlock(root, lens, work[k], work[k + 1]);
    InsideBlock(root, lens, work[k + 1]);
    var d, d' := lens[work[k]], lens[work[k + 1]];
    WidthSplit(d, d');
    MulAssoc(y, Pow2(d' - d), Width(d'));
    SomeRoom(y * Pow2(d' - d), Width(d'));
    y' := y * Pow2(d' - d) - 1;
    Distribute(y', 1, Width(d'));
    Doubling(y, d' - d);
  }

  lemma SomeRoom(x: nat, w: nat)
    requires w >= 1 && x * w >= w
    ensures x >= 1
  {
  }

  lemma {:induction false} Doubling(y: nat, e: nat)
    requires y * Pow2(e) >= 1
    ensures y * Pow2(e) >= y + e
  {
    assert y >= 1;
    if e > 0 {
      assert y * Pow2(e) == 2 * (y * Pow2(e - 1));
      Doubling(y, e - 1);
    }
  }

  /** The depth of the sub-table is at most that of words that fill its block. */
  lemma {:induction false} DepthBound(lens: seq<nat>, s: nat, root: nat, l: nat, left: int, max: nat, m: nat)
    requires s < |lens| && 0 < lens[s] <= l <= m <= MAXBITS && 1 <= root <= l
    requires FreeInBlock(lens, s, root, l, left - LeftToEnter(lens, s, l))
    requires End(lens, m) >= Start(lens, s) + Width(root)
    ensures SubtableDepth(lens, s, root, l, left, max) <= m - root
    decreases m - l
  {
    hide Width, Start, End, Pow2, Total, Rank;
    if l < max && left > LeftToEnter(lens, s, l) {
      if l == m {
        NoRoom(left - LeftToEnter(lens, s, l), Width(l));
      } else {
        NextFree(lens, s, root, l, left - LeftToEnter(lens, s, l));
        DepthBound(lens, s, root, l + 1, (left - LeftToEnter(lens, s, l)) * 2, max, m);
      }
    }
  }

  lemma NoRoom(x: int, w: nat)
    requires x * w <= 0 && w > 0
    ensures x <= 0
  {
    if x > 0 { MulBound(w, x); }
  }

  /** The `k`-th word is the last of its block. */
  lemma CloseBlock(lens: seq<nat>, work: seq<nat>, root: nat, max: nat, k0: nat, k: nat, y: nat, a': nat)
    requires ValidLens(lens) && Complete(lens) && Sorted(lens, work) && 1 <= k0 <= k < Used(lens) && 1 <= root <= MAXBITS
    requires Inside(lens, work, root, max, k0, k, y) && a' >= lens[work[k]] - root
    requires Start(lens, work[k]) + Width(lens[work[k]]) >= Start(lens, work[k0]) + Width(root)
    ensures Bounded(Entries(lens, work, root, max, k) - Pow2(root), k + 1 - Offset(lens, root + 1), a')
  {
    hide Pow2, Width, Start, Index, Used, Block, LinkIndex, Offset, Bounded, SubtableDepth, Kraft, End, FreeInBlock, Entries;
    var s, d := work[k0], lens[work[k]];
    assert y == 0 by { if y > 0 { SomeMore(y, Width(d)); } }
    StartBounds(lens, work[k]);
    FirstFree(lens, s, root);
    var depth := SubtableDepth(lens, s, root, lens[s], Pow2(lens[s] - root), max);
    DepthBound(lens, s, root, lens[s], Pow2(lens[s] - root), max, d);
    Pow2Mono(depth, d - root);
    BoundedMore(Entries(lens, work, root, max, k0 - 1) - Pow2(root), k0 - Offset(lens, root + 1), lens[s] - root, d - root,
                k - k0 + 1, Pow2(depth), a');
  }

  lemma SomeMore(y: nat, w: nat)
    requires y >= 1 && w >= 1
    ensures y * w >= 1
  {
  }

  /** The next word is in another block. */
  lemma BlockEnds(lens: seq<nat>, work: seq<nat>, root: nat, max: nat, k0: nat, k: nat, y: nat)
    requires ValidLens(lens) && Complete(lens) && Sorted(lens, work) && 1 <= k0 <= k && k + 1 < Used(lens) && 1 <= root <= MAXBITS
    requires Inside(lens, work, root, max, k0, k, y)
    requires LinkIndex(root, lens, work[k]) != LinkIndex(root, lens, work[k + 1])
    ensures Start(lens, work[k]) + Width(lens[work[k]]) >= Start(lens, work[k0]) + Width(root)
  {
    hide Pow2, Width, Start, Index, Used, LinkIndex, Offset, Bounded, SubtableDepth, Kraft, Entries, Block;
    Successor(lens, work, k);
    SameBlock(root, lens, work[k], work[k + 1]);
    var p, q := Start(lens, work[k]), Start(lens, work[k + 1]);
    BlockMono(root, p, q);
    BlockBounds(root, q);
    MulStep(Block(root, p), Block(root, q), Width(root));
  }

  // ------------------------------------------------------------ all the sub-tables

  /** The symbols with words of at most `root` bits come first. */
  lemma ShortFirst(lens: seq<nat>, work: seq<nat>, root: nat, k: nat)
    requires ValidLens(lens) && Sorted(lens, work) && 1 <= root <= MAXBITS && k < Used(lens)
    ensures lens[work[k]] <= root <==> k < Offset(lens, root + 1)
  {
    hide Offset, Used, Total, Rank;
    var d := lens[work[k]];
    RankBelowTotal(lens, work[k]);
    if d <= root { OffsetMono(lens, d, root + 1); }
    if d > root + 1 { OffsetMono(lens, root + 1, d); }
  }

  lemma {:induction false} NoneOpened(lens: seq<nat>, work: seq<nat>, root: nat, max: nat, k: nat)
    requires ValidLens(lens) && Sorted(lens, work) && 1 <= root <= MAXBITS && k < Used(lens) && k < Offset(lens, root + 1)
    ensures Entries(lens, work, root, max, k) == Pow2(root)
  {
    hide Offset, Used, Index, LinkIndex, SubtableDepth, Pow2;
    ShortFirst(lens, work, root, k);
    if k > 0 { NoneOpened(lens, work, root, max, k - 1); }
  }

  lemma {:induction false} Scan(lens: seq<nat>, work: seq<nat>, root: nat, max: nat, k: nat) returns (k0: nat, y: nat)
    requires ValidLens(lens) && Complete(lens) && Sorted(lens, work) && 1 <= root <= MAXBITS
    requires 1 <= Offset(lens, root + 1) <= k < Used(lens)
    ensures 1 <= k0 <= k && Inside(lens, work, root, max, k0, k, y)
    decreases k
  {
    hide Pow2, Width, Start, Index, Used, LinkIndex, Offset, Bounded, SubtableDepth, Kraft, Entries, Block, Inside, Complete;
    ShortFirst(lens, work, root, k);
    ShortFirst(lens, work, root, k - 1);
    if k == Offset(lens, root + 1) {
      NoneOpened(lens, work, root, max, k - 1);
      BoundedStart(lens[work[k]] - root);
      y := OpenBlock(lens, work, root, max, k);
      k0 := k;
    } else {
      k0, y := Scan(lens, work, root, max, k - 1);
      Successor(lens, work, k - 1);
      if LinkIndex(root, lens, work[k - 1]) == LinkIndex(root, lens, work[k]) {
        y := StayInBlock(lens, work, root, max, k0, k - 1, y);
      } else {
        BlockEnds(lens, work, root, max, k0, k - 1, y);
        CloseBlock(lens, work, root, max, k0, k - 1, y, lens[work[k]] - root);
        y := OpenBlock(lens, work, root, max, k);
        k0 := k;
      }
    }
  }

  /** What all the sub-tables take. */
  lemma EntriesBounded(lens: seq<nat>, work: seq<nat>, root: nat, max: nat)
    requires ValidLens(lens) && Complete(lens) && Sorted(lens, work) && 1 <= root < max && IsMax(lens, max)
    requires 1 <= Offset(lens, root + 1) && Used(lens) > 0
    ensures Bounded(Entries(lens, work, root, max, Used(lens) - 1) - Pow2(root), Used(lens) - Offset(lens, root + 1), max - root)
  {
    hide Pow2, Width, Start, Index, Used, LinkIndex, Offset, Bounded, SubtableDepth, Entries, Block, Inside, Total;
    var k := Used(lens) - 1;
    LastSymbol(lens, work, k);
    CountPositive(lens, max);
    assert lens[work[k]] == max;
    ShortFirst(lens, work, root, k);
    var k0, y := Scan(lens, work, root, max, k);
    LastBlock(lens, work, root, max, k0, k, y);
    CloseBlock(lens, work, root, max, k0, k, y, max - root);
  }

  lemma LastBlock(lens: seq<nat>, work: seq<nat>, root: nat, max: nat, k0: nat, k: nat, y: nat)
    requires ValidLens(lens) && Complete(lens) && Sorted(lens, work) && 1 <= k0 <= k < Used(lens) && 1 <= root <= MAXBITS
    requires Inside(lens, work, root, max, k0, k, y) && Start(lens, work[k]) + Width(lens[work[k]]) == Unit()
    ensures Start(lens, work[k]) + Width(lens[work[k]]) >= Start(lens, work[k0]) + Width(root)
  {
    hide Pow2, Width, Start, Index, Used, LinkIndex, Offset, Bounded, SubtableDepth, Kraft, Entries, Block;
    var b := Block(root, Start(lens, work[k0]));
    BlockBounds(root, Start(lens, work[k]));
    WidthSplit(0, root);
    assert Width(0) == Unit() by { WholeLine(); }
    MulCancelLess(b, Pow2(root), Width(root));
    MulStep(b, Pow2(root), Width(root));
  }

  lemma WholeLine()
    ensures Width(0) == Unit()
  {
  }

  // ------------------------------------------------------------ how many words are long

  /** Long words are narrow. */
  lemma {:induction false} LongNarrow(lens: seq<nat>, root: nat, l: nat)
    requires 1 <= root < l <= MAXBITS
    ensures Offset(lens, l + 1) >= Offset(lens, root + 1)
    ensures End(lens, l) - End(lens, root) <= (Offset(lens, l + 1) - Offset(lens, root + 1)) * Width(root + 1)
    decreases l
  {
    hide Width, End, Total;
    EndStep(lens, l);
    var t, n := Total(lens, l), Offset(lens, l) - Offset(lens, root + 1);
    if l - 1 > root { LongNarrow(lens, root, l - 1); }
    WidthMono(root + 1, l);
    MulMonoRight(t, Width(l), Width(root + 1));
    Distribute(n, t, Width(root + 1));
  }

  lemma MulMonoRight(t: nat, w: nat, w': nat)
    requires w <= w'
    ensures t * w <= t * w'
  {
  }

  lemma WidthMono(l: nat, m: nat)
    requires l <= m <= MAXBITS
    ensures Width(m) <= Width(l)
  {
    hide Pow2;
    Pow2Mono(MAXBITS - m, MAXBITS - l);
  }

  /** Short words but those of one bit take at most a quarter of the line each. */
  lemma {:induction false} ShortWide(lens: seq<nat>, l: nat)
    requires 1 <= l <= MAXBITS
    ensures End(lens, l) <= (Offset(lens, l + 1) + Total(lens, 1)) * 8192
    decreases l
  {
    hide Width, End, Total;
    EndStep(lens, l);
    if l == 1 {
      assert Width(1) == 16384 by { Quarters(); }
      assert End(lens, 0) == 0 by { NoneYet(lens); }
      assert Offset(lens, 2) == Offset(lens, 1) + Total(lens, 1);
    } else {
      ShortWide(lens, l - 1);
      WidthMono(2, l);
      assert Width(2) == 8192 by { Quarters(); }
      MulMonoRight(Total(lens, l), Width(l), 8192);
    }
  }

  lemma NoneYet(lens: seq<nat>)
    ensures End(lens, 0) == 0
  {
  }

  lemma Quarters()
    ensures Width(1) == 16384 && Width(2) == 8192 && Width(10) == 32 && Width(7) == 256
  {
    assert Pow2(5) == 32 && Pow2(8) == 256;
    assert Pow2(13) == 8192;
  }

  /** A longer word leaves no room for two words of one bit. */
  lemma OneBitOnce(lens: seq<nat>, max: nat)
    requires ValidLens(lens) && Complete(lens) && IsMax(lens, max) && max > 1
    ensures Total(lens, 1) <= 1
  {
    hide Width, End, Total, Kraft;
    Quarters();
    EndStep(lens, 1);
    EndStep(lens, max);
    EndMono(lens, 1, max - 1);
    EndMono(lens, max, MAXBITS);
    KraftIsEnd(lens);
    SomeMore(Total(lens, max), Width(max));
  }

  /** How the short words limit the long ones. */
  lemma WordsCounted(lens: seq<nat>, root: nat, max: nat)
    requires ValidLens(lens) && Complete(lens) && IsMax(lens, max) && 1 <= root < max
    ensures Offset(lens, root + 1) <= Used(lens)
    ensures 32768 - (Offset(lens, root + 1) + 1) * 8192 <= (Used(lens) - Offset(lens, root + 1)) * Width(root + 1)
  {
    hide Width, End, Total, Kraft, Offset;
    KraftIsEnd(lens);
    LongNarrow(lens, root, MAXBITS);
    ShortWide(lens, root);
    OneBitOnce(lens, max);
  }

  // ------------------------------------------------------------ the room is enough

  /** The largest tables for literals and lengths: at most 284 of 286 words are long. */
  lemma LengthsFit(e: int, n: nat, s: nat, m: nat)
    requires Bounded(e, n, m) && 1 <= m <= 6 && n + s <= 286
    requires 32768 - (s + 1) * 8192 <= n * 32
    ensures e + 512 <= ENOUGH_LENS && s >= 2
  {
    hide Pow2;
    assert Pow2(5) == 32 && Pow2(6) == 64 by { SmallPowers(); }
    if m < 6 { PowerGap(m, 5); }
  }

  /** The largest tables for distances: at most 27 of 30 words are long. */
  lemma DistsFit(e: int, n: nat, s: nat, m: nat)
    requires Bounded(e, n, m) && 1 <= m <= 9 && n + s <= 30
    requires 32768 - (s + 1) * 8192 <= n * 256
    ensures e + 64 <= ENOUGH_DISTS && s >= 3
  {
    hide Pow2;
    assert Pow2(8) == 256 && Pow2(9) == 512 by { SmallPowers(); }
    if m < 9 { PowerGap(m, 8); }
  }

  /** The lengths that `inflate` passes on for a block with codes of its own. */
  predicate FromBlock(kind: CodeType, lens: seq<nat>, bits: nat) {
    match kind
    case CODES => true
    case LENS => |lens| <= 286 && bits == 9
    case DISTS => |lens| <= 30 && bits == 6
  }

  /** `inflate_table` never runs out of room: it does not return 1. */
  lemma RoomIsEnough(kind: CodeType, lens: seq<nat>, bits: nat)
    requires ValidLens(lens) && FromBlock(kind, lens, bits) && !Rejected(kind, lens)
    ensures !Oversize(kind, lens, bits)
  {
    hide Used, Index, Entries, Total, OverSubscribed, Kraft;
    if kind != CODES && Oversize(kind, lens, bits) {
      var work, min: nat, max: nat :|
        && IsMin(lens, min) && IsMax(lens, max) && Sorted(lens, work) && Used(lens) > 0
        && TooBig(kind, Entries(lens, work, RootBits(bits, min, max), max, Used(lens) - 1));
      if max <= bits {
        FlatTable(kind, lens, work, bits, min, max);
      } else {
        DeepTable(kind, lens, work, bits, min, max);
      }
    }
  }

  lemma FlatTable(kind: CodeType, lens: seq<nat>, work: seq<nat>, bits: nat, min: nat, max: nat)
    requires ValidLens(lens) && FromBlock(kind, lens, bits) && kind != CODES && max <= bits
    requires IsMin(lens, min) && IsMax(lens, max) && Sorted(lens, work) && Used(lens) > 0
    ensures !TooBig(kind, Entries(lens, work, RootBits(bits, min, max), max, Used(lens) - 1))
  {
    hide Used, Index, Entries, Pow2, Total, Offset;
    CountPositive(lens, min);
    var k := Used(lens) - 1;
    ShortFirst(lens, work, max, k);
    NoneOpened(lens, work, max, max, k);
    Pow2Mono(max, bits);
    SmallPowers();
  }

  lemma DeepTable(kind: CodeType, lens: seq<nat>, work: seq<nat>, bits: nat, min: nat, max: nat)
    requires ValidLens(lens) && FromBlock(kind, lens, bits) && kind != CODES && bits < max && !Rejected(kind, lens)
    requires IsMin(lens, min) && IsMax(lens, max) && Sorted(lens, work) && Used(lens) > 0
    ensures !TooBig(kind, Entries(lens, work, RootBits(bits, min, max), max, Used(lens) - 1))
  {
    hide Used, Index, Entries, Pow2, Total, Offset, Kraft, Bounded, Width;
    CountPositive(lens, max);
    assert Complete(lens);
    UsedAtMost(lens);
    var s := Offset(lens, bits + 1);
    WordsCounted(lens, bits, max);
    assert Width(10) == 32 && Width(7) == 256 by { Quarters(); }
    assert s >= 1;
    FirstShort(lens, work, bits, min);
    EntriesBounded(lens, work, bits, max);
    var e := Entries(lens, work, bits, max, Used(lens) - 1) - Pow2(bits);
    SmallPowers();
    if kind == LENS {
      LengthsFit(e, Used(lens) - s, s, max - bits);
    } else {
      DistsFit(e, Used(lens) - s, s, max - bits);
    }
  }

  lemma FirstShort(lens: seq<nat>, work: seq<nat>, bits: nat, min: nat)
    requires ValidLens(lens) && IsMin(lens, min) && Sorted(lens, work) && 1 <= bits <= MAXBITS && Offset(lens, bits + 1) >= 1
    ensures min <= bits
  {
    hide Used, Index, Total, Offset;
    FirstSymbol(lens, work, min);
    ShortFirst(lens, work, bits, 0);
  }
}
