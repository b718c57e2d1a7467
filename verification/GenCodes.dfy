/**
 `bi_reverse` and `gen_codes` (trees.c): from lengths to the bit patterns that are sent.
 The codes are those of section 3.2.2 of RFC 1951, reversed because the stream is packed from
 the least significant bit up.
 */
module GenCodes {
  import opened Bits
  import opened CanonicalCode

  lemma RevSnoc(k: nat, x: nat)
    ensures Rev(k + 1, x) == 2 * Rev(k, x) + Shr(x, k) % 2
  {
    RevTop(k, 1, x);
    assert Pow2(1) == 2;
    var y := Shr(x, k);
    assert Rev(1, y) == (if y % 2 == 1 then Pow2(0) else 0) + Rev(0, y / 2);
  }

  lemma ShrStep(x: nat, k: nat)
    ensures Shr(x, k) / 2 == Shr(x, k + 1)
  {
    ShrShr(x, k, 1);
    assert Shr(Shr(x, k), 1) == Shr(Shr(x, k) / 2, 0);
  }

  /** `bi_reverse`: reverse the low `len` bits of `code`, one bit at a time. */
  method BiReverse(code: nat, len: nat) returns (r: nat)
    requires len >= 1
    ensures r == Rev(len, code)
  {
    var rest, left, res := code, len, 0;
    ghost var k := 0;
    while left > 0
      invariant left == len - k && 0 <= k <= len
      invariant rest == Shr(code, k) && res == 2 * Rev(k, code)
    {
      RevSnoc(k, code);
      ShrStep(code, k);
      res := res + rest % 2;       // res is even, so this is res | (rest & 1)
      rest, res := rest / 2, res * 2;
      left := left - 1;
      k := k + 1;
    }
    r := res / 2;
  }

  /** With lengths that are not over-subscribed, code words fit their length. */
  lemma FirstFits(lens: seq<nat>, l: nat)
    requires ValidLens(lens) && !OverSubscribed(lens) && 1 <= l <= MAXBITS
    ensures First(lens, l) + Total(lens, l) <= Pow2(l) <= Unit()
  {
    hide Kraft, Total, First, Pow2;
    EndMono(lens, l, MAXBITS);
    KraftIsEnd(lens);
    Pow2Add(l, MAXBITS - l);
    var g := First(lens, l) + Total(lens, l);
    if g > Pow2(l) { MulStep(Pow2(l), g, Width(l)); }
    Pow2Mono(l, MAXBITS);
    UnitIs();
  }

  lemma UnitIs()
    ensures Unit() == Pow2(MAXBITS)
  {
  }

  lemma FirstStep(lens: seq<nat>, l: nat)
    requires l >= 1
    ensures l == 1 ==> First(lens, l) == 0
    ensures l > 1 ==> First(lens, l) == 2 * (First(lens, l - 1) + Total(lens, l - 1))
  {
  }

  /** The first loop of `gen_codes`: the first code word of each length. */
  method FirstCodes(lens: seq<nat>, blCount: array<nat>) returns (nextCode: array<nat>)
    requires ValidLens(lens) && !OverSubscribed(lens)
    requires blCount.Length == MAXBITS + 1 && blCount[0] == 0
    requires forall b | 1 <= b <= MAXBITS :: blCount[b] == Total(lens, b)
    ensures fresh(nextCode) && nextCode.Length == MAXBITS + 1
    ensures forall l | 1 <= l <= MAXBITS :: nextCode[l] == First(lens, l)
  {
    hide Total, First, OverSubscribed, Pow2;
    nextCode := new nat[MAXBITS + 1](_ => 0);
    var code := 0;
    for bits := 1 to MAXBITS + 1
      invariant code == if bits == 1 then 0 else First(lens, bits - 1)
      invariant forall l | 1 <= l < bits :: nextCode[l] == First(lens, l)
    {
      FirstFits(lens, bits);
      FirstStep(lens, bits);
      code := (code + blCount[bits - 1]) * 2;
      nextCode[bits] := code % 0x1_0000;      // the cast to ush loses nothing
    }
  }

  /** Every used symbol below `n` has its reversed canonical code in `fc`; nothing else changed. */
  ghost predicate Coded(lens: seq<nat>, fc0: seq<nat>, fc: seq<nat>, n: nat) {
    && |fc| == |fc0| && n <= |lens| <= |fc|
    && (forall s | 0 <= s < n && lens[s] > 0 :: fc[s] == Rev(lens[s], Code(lens, s)))
    && (forall s | 0 <= s < |fc| && (s >= n || lens[s] == 0) :: fc[s] == fc0[s])
  }

  lemma CodedNext(lens: seq<nat>, fc0: seq<nat>, fc: seq<nat>, n: nat)
    requires Coded(lens, fc0, fc, n) && n < |lens|
    ensures lens[n] == 0 ==> Coded(lens, fc0, fc, n + 1)
    ensures lens[n] > 0 ==> Coded(lens, fc0, fc[n := Rev(lens[n], Code(lens, n))], n + 1)
  {
    hide Code, Rev;
  }

  lemma CodedRest(lens: seq<nat>, fc0: seq<nat>, fc: seq<nat>, n: nat)
    requires Coded(lens, fc0, fc, n) && forall s | n <= s < |lens| :: lens[s] == 0
    ensures Coded(lens, fc0, fc, |lens|)
  {
    hide Code, Rev;
  }

  /** `gen_codes`: the codes of all the symbols up to `maxCode`. */
  method GenCodes(lens: seq<nat>, fc: array<nat>, maxCode: nat, blCount: array<nat>)
    requires ValidLens(lens) && !OverSubscribed(lens)
    requires blCount.Length == MAXBITS + 1 && blCount[0] == 0 && blCount != fc
    requires forall b | 1 <= b <= MAXBITS :: blCount[b] == Total(lens, b)
    requires maxCode < |lens| <= fc.Length
    requires forall s | maxCode < s < |lens| :: lens[s] == 0
    modifies fc
    ensures Coded(lens, old(fc[..]), fc[..], |lens|)
  {
    hide Coded, Rev, First, Count, OverSubscribed, Pow2;
    var nextCode := FirstCodes(lens, blCount);
    ghost var fc0 := fc[..];
    CodedNone(lens, fc0);
    CountNone(lens);
    for n := 0 to maxCode + 1
      invariant Coded(lens, fc0, fc[..], n)
      invariant forall l | 1 <= l <= MAXBITS :: nextCode[l] == First(lens, l) + Count(lens, n, l)
    {
      CodedNext(lens, fc0, fc[..], n);
      CountSnoc(lens, n);
      var len := lens[n];
      if len != 0 {
        RankBelowTotal(lens, n);
        FirstFits(lens, len);
        var c := nextCode[len];
        nextCode[len] := c + 1;
        var rev := BiReverse(c, len);
        ghost var before := fc[..];
        RevFits(len, c);
        fc[n] := rev % 0x1_0000;
        assert fc[..] == before[n := Rev(len, Code(lens, n))];
      }
    }
    CodedRest(lens, fc0, fc[..], maxCode + 1);
  }

  lemma CodedNone(lens: seq<nat>, fc: seq<nat>)
    requires |lens| <= |fc|
    ensures Coded(lens, fc, fc, 0)
  {
  }

  lemma RevFits(len: nat, c: nat)
    requires len <= MAXBITS
    ensures Rev(len, c) < 0x1_0000
  {
    Pow2Mono(len, MAXBITS);
    UnitIs();
  }
}
