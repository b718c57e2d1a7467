/**
 Canonical Huffman codes (section 3.2.2 of RFC 1951).

 A code is given by the length of each symbol's code word, zero for a symbol that is not
 used.  `Code` is the code word the format assigns; both the compressor (`gen_codes`) and the
 decompressor (`inflate_table`) are measured against it.  Code words are placed on the number
 line 0 .. 2^15 by left-justifying them: a word of length `l` occupies `2^(15-l)` consecutive
 positions starting at `Start`, and the canonical assignment lays the words end to end.
 */
module CanonicalCode {
  import opened Bits

  const MAXBITS := 15

  ghost predicate ValidLens(lens: seq<nat>) {
    forall s | 0 <= s < |lens| :: lens[s] <= MAXBITS
  }

  /** How many of the first `n` symbols have code words of length `l`. */
  function Count(lens: seq<nat>, n: nat, l: nat): (c: nat)
    requires n <= |lens|
    ensures c <= n
  {
    if n == 0 then 0 else Count(lens, n - 1, l) + if lens[n - 1] == l then 1 else 0
  }

  function Total(lens: seq<nat>, l: nat): nat {
    Count(lens, |lens|, l)
  }

  /** The first code word of length `l`. */
  function First(lens: seq<nat>, l: nat): nat {
    if l <= 1 then 0 else 2 * (First(lens, l - 1) + Total(lens, l - 1))
  }

  /** How many symbols before `s` have code words as long as that of `s`. */
  function Rank(lens: seq<nat>, s: nat): nat
    requires s < |lens|
  {
    Count(lens, s, lens[s])
  }

  /** The code word of `s`, most significant bit first. */
  function Code(lens: seq<nat>, s: nat): nat
    requires s < |lens|
  {
    First(lens, lens[s]) + Rank(lens, s)
  }

  /** Unused code words of length `l` when all words of length up to `l` are placed. */
  function Left(lens: seq<nat>, l: nat): int {
    if l == 0 then 1 else 2 * Left(lens, l - 1) - Total(lens, l)
  }

  /** The share of the number line taken by a code word of length `l`. */
  function Width(l: nat): (w: nat)
    requires l <= MAXBITS
    ensures w >= 1
  {
    Pow2(MAXBITS - l)
  }

  /** The Kraft sum of the first `n` symbols, in units of 2^-15. */
  function KraftUpTo(lens: seq<nat>, n: nat): nat
    requires n <= |lens|
  {
    if n == 0 then 0
    else KraftUpTo(lens, n - 1) + if 0 < lens[n - 1] <= MAXBITS then Width(lens[n - 1]) else 0
  }

  function Kraft(lens: seq<nat>): nat {
    KraftUpTo(lens, |lens|)
  }

  function Unit(): (r: nat)
    ensures r == 32768
  {
    assert Pow2(15) == 32768;
    Pow2(MAXBITS)
  }

  ghost predicate OverSubscribed(lens: seq<nat>) {
    Kraft(lens) > Unit()
  }

  ghost predicate Complete(lens: seq<nat>) {
    Kraft(lens) == Unit()
  }

  /** The reversed code word of `s` is what the low bits of `v` spell. */
  ghost predicate Matches(lens: seq<nat>, s: nat, v: nat) {
    s < |lens| && lens[s] > 0 && Low(v, lens[s]) == Rev(lens[s], Code(lens, s))
  }

  /** Left end of the code word of `s` on the number line. */
  function Start(lens: seq<nat>, s: nat): nat
    requires s < |lens| && lens[s] <= MAXBITS
  {
    Code(lens, s) * Width(lens[s])
  }

  /** Right end of all the code words of length at most `l`. */
  function End(lens: seq<nat>, l: nat): nat
    requires l <= MAXBITS
  {
    if l == 0 then 0 else (First(lens, l) + Total(lens, l)) * Width(l)
  }

  // ------------------------------------------------------------ arithmetic

  lemma MulMono(a: nat, b: nat, w: nat)
    requires a <= b
    ensures a * w <= b * w
  {
  }

  lemma MulStep(a: nat, b: nat, w: nat)
    requires a < b
    ensures a * w + w <= b * w
  {
    MulMono(a + 1, b, w);
    Distribute(a, 1, w);
  }

  lemma Double(a: int, w: int)
    ensures a * (2 * w) == (2 * a) * w
  {
  }

  lemma SameQuotient(c: nat, q: nat, r: nat, w: nat)
    requires r < w
    ensures c * w <= q * w + r < c * w + w <==> q == c
  {
    assert w * (q - c) == q * w - c * w;
    MulBound(w, q - c);
  }

  lemma QuotientBetween(p: nat, f: nat, g: nat, w: nat) returns (q: nat)
    requires w > 0 && f * w <= p < g * w
    ensures f <= q < g && q * w <= p < q * w + w
  {
    q := p / w;
    var r := p % w;
    assert p == q * w + r;
    assert w * (q - f) == q * w - f * w;
    MulBound(w, q - f);
    assert w * (q - g) == q * w - g * w;
    MulBound(w, q - g);
  }

  // ------------------------------------------------------------ counting

  lemma CountNone(lens: seq<nat>)
    ensures forall l: nat :: Count(lens, 0, l) == 0
  {
  }

  lemma CountSnoc(lens: seq<nat>, n: nat)
    requires n < |lens|
    ensures forall l: nat :: Count(lens, n + 1, l) == Count(lens, n, l) + if lens[n] == l then 1 else 0
  {
  }

  lemma {:induction false} CountMono(lens: seq<nat>, m: nat, n: nat, l: nat)
    requires m <= n <= |lens|
    ensures Count(lens, m, l) <= Count(lens, n, l)
  {
    if m < n { CountMono(lens, m, n - 1, l); }
  }

  lemma RankBelowTotal(lens: seq<nat>, s: nat)
    requires s < |lens|
    ensures Rank(lens, s) < Total(lens, lens[s])
  {
    CountMono(lens, s + 1, |lens|, lens[s]);
  }

  /** Every rank below the count belongs to some symbol. */
  lemma {:induction false} RankExists(lens: seq<nat>, n: nat, l: nat, r: nat) returns (s: nat)
    requires n <= |lens| && r < Count(lens, n, l)
    ensures s < n && lens[s] == l && Rank(lens, s) == r
  {
    if lens[n - 1] == l && r == Count(lens, n - 1, l) {
      s := n - 1;
    } else {
      s := RankExists(lens, n - 1, l, r);
    }
  }

  /** Two symbols with the same length and rank are the same symbol. */
  lemma RankInjective(lens: seq<nat>, s: nat, t: nat)
    requires s < |lens| && t < |lens| && lens[s] == lens[t]
    ensures s < t ==> Rank(lens, s) < Rank(lens, t)
    ensures Rank(lens, s) == Rank(lens, t) ==> s == t
  {
    if s < t {
      CountMono(lens, s + 1, t, lens[s]);
    } else if t < s {
      CountMono(lens, t + 1, s, lens[s]);
    }
  }

  // ------------------------------------------------------------ the number line

  lemma WidthHalf(l: nat)
    requires 1 <= l <= MAXBITS
    ensures Width(l - 1) == 2 * Width(l)
  {
  }

  lemma EndStep(lens: seq<nat>, l: nat)
    requires 1 <= l <= MAXBITS
    ensures End(lens, l - 1) == First(lens, l) * Width(l)
    ensures End(lens, l) == End(lens, l - 1) + Total(lens, l) * Width(l)
  {
    WidthHalf(l);
    Distribute(First(lens, l), Total(lens, l), Width(l));
    if l > 1 {
      Double(First(lens, l - 1) + Total(lens, l - 1), Width(l));
    }
  }

  lemma {:induction false} EndMono(lens: seq<nat>, l: nat, m: nat)
    requires l <= m <= MAXBITS
    ensures End(lens, l) <= End(lens, m)
  {
    if l < m {
      EndMono(lens, l, m - 1);
      EndStep(lens, m);
    }
  }

  /** What `inflate_table` calls `left` measures the free part of the number line. */
  lemma {:induction false} LeftIsFree(lens: seq<nat>, l: nat)
    requires l <= MAXBITS
    ensures Left(lens, l) * Width(l) == Unit() - End(lens, l)
  {
    if l == 0 {
      assert Left(lens, 0) * Width(0) == Width(0);
    } else {
      LeftIsFree(lens, l - 1);
      WidthHalf(l);
      EndStep(lens, l);
      Double(Left(lens, l - 1), Width(l));
      Distribute(2 * Left(lens, l - 1) - Total(lens, l), Total(lens, l), Width(l));
    }
  }

  /** The Kraft sum grouped by length. */
  function KraftByLength(lens: seq<nat>, n: nat, l: nat): nat
    requires n <= |lens| && l <= MAXBITS
  {
    if l == 0 then 0 else KraftByLength(lens, n, l - 1) + Count(lens, n, l) * Width(l)
  }

  lemma {:induction false} KraftByLengthEmpty(lens: seq<nat>, l: nat)
    requires l <= MAXBITS
    ensures KraftByLength(lens, 0, l) == 0
  {
    if l > 0 { KraftByLengthEmpty(lens, l - 1); }
  }

  lemma {:induction false} KraftByLengthSnoc(lens: seq<nat>, n: nat, l: nat)
    requires n < |lens| && l <= MAXBITS
    ensures KraftByLength(lens, n + 1, l) ==
            KraftByLength(lens, n, l) + if 0 < lens[n] <= l then Width(lens[n]) else 0
  {
    if l > 0 {
      KraftByLengthSnoc(lens, n, l - 1);
      if lens[n] == l {
        assert (Count(lens, n, l) + 1) * Width(l) == Count(lens, n, l) * Width(l) + Width(l);
      }
    }
  }

  lemma {:induction false} KraftGrouped(lens: seq<nat>, n: nat)
    requires ValidLens(lens) && n <= |lens|
    ensures KraftUpTo(lens, n) == KraftByLength(lens, n, MAXBITS)
  {
    if n == 0 {
      KraftByLengthEmpty(lens, MAXBITS);
    } else {
      KraftGrouped(lens, n - 1);
      KraftByLengthSnoc(lens, n - 1, MAXBITS);
    }
  }

  lemma {:induction false} EndGrouped(lens: seq<nat>, l: nat)
    requires l <= MAXBITS
    ensures End(lens, l) == KraftByLength(lens, |lens|, l)
  {
    if l > 0 {
      EndGrouped(lens, l - 1);
      EndStep(lens, l);
    }
  }

  /** The Kraft sum is the right end of all the code words. */
  lemma KraftIsEnd(lens: seq<nat>)
    requires ValidLens(lens)
    ensures Kraft(lens) == End(lens, MAXBITS)
  {
    KraftGrouped(lens, |lens|);
    EndGrouped(lens, MAXBITS);
  }

  /** Lengths are over-subscribed exactly when `left` turns negative somewhere. */
  lemma LeftNegative(lens: seq<nat>, l: nat)
    requires ValidLens(lens) && l <= MAXBITS
    ensures Left(lens, l) < 0 ==> OverSubscribed(lens)
    ensures l == MAXBITS ==> Left(lens, l) == Unit() - Kraft(lens)
  {
    KraftIsEnd(lens);
    LeftIsFree(lens, l);
    EndMono(lens, l, MAXBITS);
    MulBound(Width(l), Left(lens, l));
    if l == MAXBITS {
      assert Width(l) == 1;
      assert Left(lens, l) * 1 == Left(lens, l);
    }
  }

  /** A symbol lies between the ends of the shorter and of its own lengths. */
  lemma StartBounds(lens: seq<nat>, s: nat)
    requires s < |lens| && 0 < lens[s] <= MAXBITS
    ensures End(lens, lens[s] - 1) <= Start(lens, s)
    ensures Start(lens, s) + Width(lens[s]) <= End(lens, lens[s])
  {
    var l := lens[s];
    EndStep(lens, l);
    RankBelowTotal(lens, s);
    var f, r, t, w := First(lens, l), Rank(lens, s), Total(lens, l), Width(l);
    MulMono(f, f + r, w);
    MulStep(f + r, f + t, w);
  }


  lemma CodeFits(lens: seq<nat>, s: nat)
    requires ValidLens(lens) && !OverSubscribed(lens)
    requires s < |lens| && lens[s] > 0
    ensures Code(lens, s) < Pow2(lens[s])
    ensures Start(lens, s) + Width(lens[s]) <= Kraft(lens)
  {
    var l := lens[s];
    StartBounds(lens, s);
    EndMono(lens, l, MAXBITS);
    KraftIsEnd(lens);
    Pow2Add(l, MAXBITS - l);
    if Code(lens, s) >= Pow2(l) {
      MulMono(Pow2(l), Code(lens, s), Width(l));
    }
  }

  /** Code words are laid end to end: shorter first, equal lengths in symbol order. */
  lemma StartOrder(lens: seq<nat>, s: nat, t: nat)
    requires s < |lens| && t < |lens|
    requires 0 < lens[s] <= lens[t] <= MAXBITS
    requires lens[s] == lens[t] ==> s < t
    ensures Start(lens, s) + Width(lens[s]) <= Start(lens, t)
  {
    hide Count, First, End, Width;
    StartBounds(lens, s);
    StartBounds(lens, t);
    if lens[s] < lens[t] {
      EndMono(lens, lens[s], lens[t] - 1);
    } else {
      RankInjective(lens, s, t);
      MulStep(Code(lens, s), Code(lens, t), Width(lens[s]));
    }
  }

  // ------------------------------------------------------------ matching

  /** Where the first fifteen bits of `v`, read most significant first, fall on the line. */
  function Position(v: nat): (p: nat)
    ensures p < Unit()
  {
    Rev(MAXBITS, v)
  }

  /** Reversing both sides of a comparison of `l`-bit words. */
  lemma RevSwap(l: nat, v: nat, c: nat)
    requires c < Pow2(l)
    ensures Rev(l, v) == c <==> Low(v, l) == Rev(l, c)
  {
    RevRev(l, v);
    RevRev(l, c);
    LowSmall(c, l);
    RevLow(l, v);
  }

  /** `v` starts with the word of `s` exactly when its position lies in the interval of `s`. */
  lemma MatchIsInterval(lens: seq<nat>, s: nat, v: nat)
    requires ValidLens(lens) && !OverSubscribed(lens)
    requires s < |lens| && lens[s] > 0
    ensures Matches(lens, s, v) <==>
            Start(lens, s) <= Position(v) < Start(lens, s) + Width(lens[s])
  {
    var l := lens[s];
    CodeFits(lens, s);
    RevSwap(l, v, Code(lens, s));
    RevTop(l, MAXBITS - l, v);
    SameQuotient(Code(lens, s), Rev(l, v), Rev(MAXBITS - l, Shr(v, l)), Width(l));
  }

  /** No word is a prefix of another: at most one symbol matches. */
  lemma MatchUnique(lens: seq<nat>, s: nat, t: nat, v: nat)
    requires ValidLens(lens) && !OverSubscribed(lens)
    requires Matches(lens, s, v) && Matches(lens, t, v)
    ensures s == t
  {
    MatchIsInterval(lens, s, v);
    MatchIsInterval(lens, t, v);
    if lens[s] < lens[t] || (lens[s] == lens[t] && s < t) {
      StartOrder(lens, s, t);
    } else if s != t {
      StartOrder(lens, t, s);
    }
  }

  /** A position below the end of the words belongs to one of them. */
  lemma {:induction false} Covered(lens: seq<nat>, v: nat, l: nat) returns (s: nat)
    requires ValidLens(lens) && !OverSubscribed(lens)
    requires l <= MAXBITS && Position(v) < End(lens, l)
    ensures Matches(lens, s, v)
    decreases l
  {
    if Position(v) < End(lens, l - 1) {
      s := Covered(lens, v, l - 1);
    } else {
      EndStep(lens, l);
      var p, f, t, w := Position(v), First(lens, l), Total(lens, l), Width(l);
      var q := QuotientBetween(p, f, f + t, w);
      s := RankExists(lens, |lens|, l, q - f);
      MatchIsInterval(lens, s, v);
    }
  }

  /** A complete code gives every bit string a symbol. */
  lemma CompleteCovers(lens: seq<nat>, v: nat) returns (s: nat)
    requires ValidLens(lens) && Complete(lens)
    ensures Matches(lens, s, v)
  {
    KraftIsEnd(lens);
    s := Covered(lens, v, MAXBITS);
  }
}
