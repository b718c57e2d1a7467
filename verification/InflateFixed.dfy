/**
 The tables of the fixed codes, made as `buildtables` of inftrees.c makes them.  It ignores
 what `inflate_table` returns; that is right, since it returns zero for these lengths.
 */
module InflateFixed {
  import opened Bits
  import opened CanonicalCode
  import opened InflateTable
  import opened InflateSpec
  import opened BitInput

  lemma {:induction false} KraftOfRun(lens: seq<nat>, a: nat, b: nat, l: nat)
    requires a <= b <= |lens| && 0 < l <= MAXBITS && forall i | a <= i < b :: lens[i] == l
    ensures KraftUpTo(lens, b) == KraftUpTo(lens, a) + (b - a) * Width(l)
  {
    hide Width;
    if a < b {
      KraftOfRun(lens, a, b - 1, l);
      Distribute(b - 1 - a, 1, Width(l));
    }
  }

  lemma {:induction false} FlatEntries(lens: seq<nat>, work: seq<nat>, root: nat, max: nat, k: nat)
    requires ValidLens(lens) && k < |work| && forall j | 0 <= j <= k :: work[j] < |lens|
    requires forall s | 0 <= s < |lens| :: lens[s] <= root
    ensures Entries(lens, work, root, max, k) == Pow2(root)
  {
    hide Pow2;
    if k > 0 { FlatEntries(lens, work, root, max, k - 1); }
  }

  /** A code no longer than the root index needs no sub-table. */
  lemma FlatFits(kind: CodeType, lens: seq<nat>, bits: nat)
    requires ValidLens(lens) && (forall s | 0 <= s < |lens| :: lens[s] <= bits) && !TooBig(kind, Pow2(bits))
    ensures !Oversize(kind, lens, bits)
  {
    hide Pow2, Entries, Total, Used, Index;
    forall work, min, max | IsMin(lens, min) && IsMax(lens, max) && Sorted(lens, work) && Used(lens) > 0
      ensures !TooBig(kind, Entries(lens, work, RootBits(bits, min, max), max, Used(lens) - 1))
    {
      if max > 0 { CountPositive(lens, max); }
      FlatEntries(lens, work, RootBits(bits, min, max), max, Used(lens) - 1);
      CountPositive(lens, min);
      Pow2Mono(max, bits);
    }
  }

  lemma FixedComplete()
    ensures Complete(FixedCodes().llens) && Complete(FixedCodes().dlens)
    ensures ValidLens(FixedCodes().llens) && ValidLens(FixedCodes().dlens)
  {
    hide Width, KraftUpTo;
    FixedLengthCode(FixedCodes().llens);
    KraftOfRun(FixedCodes().dlens, 0, 32, 5);
    FixedWidths();
    KraftOfNone(FixedCodes().dlens);
  }

  lemma KraftOfNone(lens: seq<nat>)
    ensures KraftUpTo(lens, 0) == 0
  {
  }

  lemma FixedLengthCode(l: seq<nat>)
    requires |l| == 288
    requires forall i | 0 <= i < 288 :: l[i] == if i < 144 then 8 else if i < 256 then 9 else if i < 280 then 7 else 8
    ensures Kraft(l) == Unit()
  {
    hide Width, KraftUpTo;
    KraftOfNone(l);
    KraftOfRun(l, 0, 144, 8);
    KraftOfRun(l, 144, 256, 9);
    KraftOfRun(l, 256, 280, 7);
    KraftOfRun(l, 280, 288, 8);
    FixedWidths();
  }

  lemma FixedWidths()
    ensures Width(5) == 1024 && Width(7) == 256 && Width(8) == 128 && Width(9) == 64
  {
    assert Pow2(10) == 1024 && Pow2(8) == 256 && Pow2(7) == 128 && Pow2(6) == 64;
  }

  lemma FixedUsable()
    ensures Builds(LENS, FixedCodes().llens, 9) && Builds(DISTS, FixedCodes().dlens, 5)
  {
    hide Kraft, Pow2, Oversize;
    FixedComplete();
    assert Pow2(9) == 512 && Pow2(5) == 32 by { PowersOfTwo(); }
    FlatFits(LENS, FixedCodes().llens, 9);
    FlatFits(DISTS, FixedCodes().dlens, 5);
  }

  lemma PowersOfTwo()
    ensures Pow2(9) == 512 && Pow2(5) == 32
  {
  }

  lemma FixedRoots(root: nat, root': nat)
    requires RootIs(FixedCodes().llens, 9, root) && RootIs(FixedCodes().dlens, 5, root')
    ensures root == 9 && root' == 5
  {
    hide Rank, Total;
    var l, d := FixedCodes().llens, FixedCodes().dlens;
    RankBelowTotal(l, 144);
    RankBelowTotal(l, 256);
    RankBelowTotal(d, 0);
    assert IsMin(l, 7) && IsMax(l, 9) && IsMin(d, 5) && IsMax(d, 5);
  }

  /** `buildtables`. */
  method BuildTables() returns (lenfix: seq<Entry>, distfix: seq<Entry>)
    ensures Serves(lenfix, 9, LENS, FixedCodes().llens)
    ensures Serves(distfix, 5, DISTS, FixedCodes().dlens)
  {
    hide Pow2, Decodes, Closed, Oversize, Rejected, RootIs, SameOutside, FixedCodes;
    FixedUsable();
    var fixed := new Entry[ENOUGH_LENS + ENOUGH_DISTS];
    var work := new nat[288];
    var lens := FixedCodes().llens;
    var ret, next, bits := InflateTable.InflateTable(LENS, lens, fixed, 0, 9, work);
    lenfix := fixed[0..next];
    lens := FixedCodes().dlens;
    var ret', end, bits' := InflateTable.InflateTable(DISTS, lens, fixed, next, 5, work);
    distfix := fixed[next..end];
    FixedRoots(bits, bits');
  }
}
