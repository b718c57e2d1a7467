/**
 The static trees of `deflate`, as `tr_static_init` (trees.c) constructs them; they have the
 words that the decoder expects for the fixed codes.
 */
module StaticTrees {
  import opened Bits
  import opened CanonicalCode
  import opened InflateTable
  import opened InflateSpec
  import opened InflateFixed
  import opened BlockData
  import GenCodes

  lemma {:induction false} CountAll(lens: seq<nat>, n: nat, v: nat, l: nat)
    requires n <= |lens| && forall i | 0 <= i < |lens| :: lens[i] == v
    ensures Count(lens, n, l) == if l == v then n else 0
  {
    if n > 0 { CountAll(lens, n - 1, v, l); }
  }

  lemma {:induction false} FirstNone(lens: seq<nat>, v: nat, l: nat)
    requires l <= v && forall i | 0 <= i < |lens| :: lens[i] == v
    ensures First(lens, l) == 0
  {
    if l > 1 {
      FirstNone(lens, v, l - 1);
      CountAll(lens, |lens|, v, l - 1);
    }
  }

  /** The distance code of five bits each is the symbol itself. */
  lemma DistanceCode(s: nat)
    requires s < 32
    ensures Code(FixedCodes().dlens, s) == s && FixedCodes().dlens[s] == 5
  {
    var d := FixedCodes().dlens;
    FirstNone(d, 5, 5);
    CountAll(d, s, 5, 5);
  }

  /** A tree of `n` symbols with the words of a fixed code. */
  ghost predicate Fixed(code: seq<nat>, len: seq<nat>, lens: seq<nat>, n: nat) {
    n <= |lens| && n <= |code| && n <= |len| && forall s | 0 <= s < n :: HasWord(code, len, lens, s)
  }

  lemma FixedCounts(lens: seq<nat>, count: seq<nat>)
    requires lens == FixedCodes().llens && |count| == MAXBITS + 1 && forall l | 0 <= l <= MAXBITS :: count[l] == Total(lens, l)
    ensures count[0] == 0
  {
    hide FixedCodes;
    if count[0] > 0 {
      CountPositive(lens, 0);
      FixedSizes();
      FixedPositive();
    }
  }

  lemma FixedPositive()
    ensures forall s | 0 <= s < 288 :: FixedCodes().llens[s] > 0
  {
  }

  lemma CodedWords(lens: seq<nat>, fc0: seq<nat>, fc: seq<nat>, len: seq<nat>)
    requires GenCodes.Coded(lens, fc0, fc, |lens|) && len == lens && ValidLens(lens) && forall s | 0 <= s < |lens| :: lens[s] > 0
    ensures Fixed(fc, len, lens, |lens|)
  {
    hide Rev, Code;
  }

  method StaticLengthTree() returns (code: array<nat>, len: array<nat>)
    ensures fresh(code) && fresh(len) && code.Length == len.Length == 288 && code != len
    ensures Fixed(code[..], len[..], FixedCodes().llens, 288)
  {
    hide Total, Kraft, HasWord, Fixed, GenCodes.Coded, FixedCodes;
    FixedComplete();
    FixedPositive();
    FixedSizes();
    var lens := FixedCodes().llens;
    len := new nat[288];
    for n := 0 to 288
      invariant len[..n] == lens[..n]
    {
      len[n] := lens[n];
    }
    assert len[..] == lens by { assert len[..] == len[..288] && lens[..288] == lens; }
    code := new nat[288];
    var count := CountLengths(lens);
    FixedCounts(lens, count[..]);
    ghost var fc0 := code[..];
    GenCodes.GenCodes(lens, code, 287, count);
    CodedWords(lens, fc0, code[..], len[..]);
  }

  lemma FixedSizes()
    ensures |FixedCodes().llens| == 288 && |FixedCodes().dlens| == 32
  {
  }

  method StaticDistTree() returns (code: array<nat>, len: array<nat>)
    ensures fresh(code) && fresh(len) && code.Length == len.Length == 30 && code != len
    ensures Fixed(code[..], len[..], FixedCodes().dlens, 30)
  {
    hide Rev, Fixed, FixedCodes;
    code := new nat[30];
    len := new nat[30];
    for n := 0 to 30
      invariant forall s | 0 <= s < n :: len[s] == 5 && code[s] == Rev(5, s)
    {
      len[n] := 5;
      var r := GenCodes.BiReverse(n, 5);
      code[n] := r;
    }
    DistanceWords(code[..], len[..]);
  }

  lemma DistanceWords(code: seq<nat>, len: seq<nat>)
    requires |code| == |len| == 30 && forall s | 0 <= s < 30 :: len[s] == 5 && code[s] == Rev(5, s)
    ensures Fixed(code, len, FixedCodes().dlens, 30)
  {
    hide Rev, Code, FixedCodes;
    FixedSizes();
    forall s | 0 <= s < 30 ensures HasWord(code, len, FixedCodes().dlens, s) { DistanceCode(s); }
  }
}
