/**
 What the compressor keeps true from step to step: the symbols of the block stand for the
 input since the block began, and the blocks that were sent make the decoder produce the input
 before it.
 */
module Lz77 {
  import opened Bits
  import opened InflateSpec
  import opened BitOutput
  import opened BlockData
  import opened BlockMeaning
  import opened BlockOutput

  // ------------------------------------------------------------ symbols

  /** After the first `b` bytes of `given` the symbols stand for the bytes up to the `n`-th, with matches from at most `w` back. */
  ghost predicate Told(w: nat, ts: seq<Token>, given: seq<Byte>, b: int, n: int) {
    0 <= b <= n <= |given| && AllNear(ts, w) && AllReach(ts, given[..b]) && ExpandAll(ts, given[..b]) == given[..n]
  }

  lemma ToldNone(w: nat, given: seq<Byte>, n: nat)
    requires n <= |given|
    ensures Told(w, [], given, n, n)
  {
  }

  lemma ToldNothing(w: nat, given: seq<Byte>, b: int, n: int)
    requires Told(w, [], given, b, n)
    ensures b == n
  {
    assert |given[..b]| == b && |given[..n]| == n;
  }

  lemma ToldMore(w: nat, ts: seq<Token>, given: seq<Byte>, more: seq<Byte>, b: int, n: int)
    requires Told(w, ts, given, b, n) && given <= more
    ensures Told(w, ts, more, b, n)
  {
    assert more[..b] == given[..b] && more[..n] == given[..n];
  }

  lemma OneMore(ts: seq<Token>, t: Token, out: seq<Byte>)
    requires AllReach(ts, out) && Reaches(t, ExpandAll(ts, out))
    ensures AllReach(ts + [t], out) && ExpandAll(ts + [t], out) == Expand(t, ExpandAll(ts, out))
  {
    hide Reaches, Expand;
    assert [t][1..] == [];
    ExpandMore(ts, [t], out);
  }

  /** A literal. */
  lemma TellLiteral(w: nat, ts: seq<Token>, given: seq<Byte>, b: int, n: int, x: Byte)
    requires Told(w, ts, given, b, n) && n < |given| && x == given[n]
    ensures Told(w, ts + [TokenOf(0, x)], given, b, n + 1)
  {
    hide AllReach, ExpandAll;
    OneMore(ts, Literal(x), given[..b]);
    assert given[..n] + [x] == given[..n + 1];
  }

  /** Every symbol stands for a byte at least. */
  lemma {:induction false} SymbolsFew(ts: seq<Token>, out: seq<Byte>)
    requires AllReach(ts, out) && forall j | 0 <= j < |ts| :: GoodToken(ts[j])
    ensures |ExpandAll(ts, out)| >= |out| + |ts|
    decreases |ts|
  {
    if ts != [] {
      assert GoodToken(ts[0]);
      SymbolsFew(ts[1..], Expand(ts[0], out));
    }
  }

  lemma ToldFew(w: nat, ts: seq<Token>, given: seq<Byte>, b: int, n: int)
    requires Told(w, ts, given, b, n) && forall j | 0 <= j < |ts| :: GoodToken(ts[j])
    ensures |ts| <= n - b
  {
    hide AllReach, ExpandAll, AllNear;
    SymbolsFew(ts, given[..b]);
  }

  /** `len` bytes at `n` are the same as those `dist` before them. */
  ghost predicate Repeats(given: seq<Byte>, n: int, dist: int, len: int) {
    1 <= dist <= n && 0 <= len && n + len <= |given| && forall j | n <= j < n + len :: given[j] == given[j - dist]
  }

  lemma {:induction false} ExtendRepeats(given: seq<Byte>, n: nat, dist: nat, len: nat)
    requires Repeats(given, n, dist, len)
    ensures Extend(given[..n], dist, len) == given[..n + len]
    decreases len
  {
    if len > 0 {
      var out := given[..n];
      assert given[n] == given[n - dist] == out[|out| - dist];
      assert out + [out[|out| - dist]] == given[..n + 1];
      ExtendRepeats(given, n + 1, dist, len - 1);
    }
  }

  /** A match. */
  lemma TellCopy(w: nat, ts: seq<Token>, given: seq<Byte>, b: int, n: int, dist: nat, lc: Byte)
    requires Told(w, ts, given, b, n) && Repeats(given, n, dist, lc + 3) && dist <= 32768 && dist <= w
    ensures Told(w, ts + [TokenOf(dist, lc)], given, b, n + lc + 3)
  {
    hide AllReach, ExpandAll, Repeats, Extend;
    assert 1 <= dist <= n && n + lc + 3 <= |given| by { RepeatsFacts(given, n, dist, lc + 3); }
    OneMore(ts, Token.Copy(dist, lc + 3), given[..b]);
    ExtendRepeats(given, n, dist, lc + 3);
  }

  lemma RepeatsFacts(given: seq<Byte>, n: int, dist: int, len: int)
    requires Repeats(given, n, dist, len)
    ensures 1 <= dist <= n && 0 <= len && n + len <= |given|
  {
  }

  lemma RepeatsMore(given: seq<Byte>, more: seq<Byte>, n: int, dist: int, len: int)
    requires Repeats(given, n, dist, len) && given <= more
    ensures Repeats(more, n, dist, len)
  {
  }

  // ------------------------------------------------------------ blocks

  lemma MeansMore(w: nat, a: seq<bool>, bits: seq<bool>, last: bool, x: seq<Byte>, y: seq<Byte>)
    requires Means(w, 0, a, false, [], x) && Means(w, |a|, bits, last, x, y)
    ensures Means(w, 0, a + bits, last, [], y)
  {
    hide Near;
    forall rest: seq<bool> | (0 + |a + bits| + |rest|) % 8 == 0
      ensures Near(Core(Type, false, [], a + bits + rest, 0), Core(Type, last, y, rest, 0), w)
    {
      NearMore(w, a, bits, last, x, y, rest);
    }
  }

  lemma NearMore(w: nat, a: seq<bool>, bits: seq<bool>, last: bool, x: seq<Byte>, y: seq<Byte>, rest: seq<bool>)
    requires Means(w, 0, a, false, [], x) && Means(w, |a|, bits, last, x, y) && (|a + bits| + |rest|) % 8 == 0
    ensures Near(Core(Type, false, [], a + bits + rest, 0), Core(Type, last, y, rest, 0), w)
  {
    hide Near;
    assert |bits + rest| == |bits| + |rest| && |a + bits| == |a| + |bits|;
    assert a + bits + rest == a + (bits + rest);
    NearTrans(Core(Type, false, [], a + (bits + rest), 0), Core(Type, false, x, bits + rest, 0), Core(Type, last, y, rest, 0), w);
  }

  /** A block for what the symbols stand for. */
  lemma MeansBlock(w: nat, a: seq<bool>, bits: seq<bool>, last: bool, ts: seq<Token>, buf: Option<seq<Byte>>, given: seq<Byte>, b: int, n: int)
    requires Told(w, ts, given, b, n) && Means(w, 0, a, false, [], given[..b]) && Represents(|a|, bits, last, ts, buf)
    requires buf.Some? ==> buf.value == given[b..n]
    ensures Means(w, 0, a + bits, last, [], given[..n])
  {
    hide Means, AllReach, ExpandAll;
    assert given[..n] == given[..b] + given[b..n];
    MeansMore(w, a, bits, last, given[..b], given[..n]);
  }

  lemma MeansNothing(w: nat)
    ensures Means(w, 0, [], false, [], [])
  {
    hide Step;
    var none: seq<bool> := [];
    forall rest: seq<bool> | (0 + |none| + |rest|) % 8 == 0
      ensures Near(Core(Type, false, [], none + rest, 0), Core(Type, false, [], rest, 0), w)
    {
      assert none + rest == rest;
    }
  }

  /** The decoder produces `out` from the bits and is done, and needs no more than the last `w` bytes at any time. */
  ghost predicate Whole(w: nat, bits: seq<bool>, out: seq<Byte>) {
    Run(Core(Type, false, [], bits, 0)) == Core(Done, true, out, [], 0) && !Far(Core(Type, false, [], bits, 0), w)
  }

  lemma WholeBy(w: nat, bits: seq<bool>, out: seq<Byte>)
    requires Means(w, 0, bits, true, [], out)
    ensures Whole(w, bits + ToBits(0, Padding(|bits|)), out)
  {
    hide Follows, Near, Far, ToBits, Step, Padding;
    var pad := ToBits(0, Padding(|bits|));
    PaddingFills(|bits|);
    PaddingSmall(|bits|);
    var c, d := Core(Type, false, [], bits + pad, 0), Core(Type, true, out, pad, 0);
    assert (0 + |bits| + |pad|) % 8 == 0;
    assert Near(c, d, w);
    NearFollows(c, d, w);
    FollowsRun(c, d);
    LastStep(w, out, pad);
    NearTrans(c, d, Run(d), w);
    NearNotFar(c, Run(d), w);
  }

  lemma LastStep(w: nat, out: seq<Byte>, pad: seq<bool>)
    requires |pad| < 8
    ensures Run(Core(Type, true, out, pad, 0)) == Core(Done, true, out, [], 0)
    ensures Near(Core(Type, true, out, pad, 0), Core(Done, true, out, [], 0), w)
  {
    assert Aligned(pad) == [];
    assert Step(Core(Done, true, out, [], 0)) == None;
    NearStep(Core(Type, true, out, pad, 0), w);
  }
}
