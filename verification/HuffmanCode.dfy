/**
 Huffman's algorithm as a history of merges, and why it is optimal.

 `build_tree` repeatedly removes the two least frequent nodes of its queue and puts their
 father back.  The history of a run is the sequence of pairs removed; the father of the `t`-th
 pair is node `elems + t`.  Nothing in this module depends on how the queue is kept.
 */
module HuffmanCode {
  import opened Bits
  import opened Sums

  type Merges = seq<(nat, nat)>

  /** The nodes in the queue after `t` merges. */
  ghost function State(m: Merges, leaves: set<nat>, elems: nat, t: nat): set<nat>
    requires t <= |m|
  {
    if t == 0 then leaves
    else State(m, leaves, elems, t - 1) - {m[t - 1].0, m[t - 1].1} + {elems + t - 1}
  }

  /** Every merge takes two different nodes that are in the queue. */
  ghost predicate History(m: Merges, leaves: set<nat>, elems: nat) {
    && (forall x | x in leaves :: x < elems)
    && forall t | 0 <= t < |m| ::
         && m[t].0 in State(m, leaves, elems, t)
         && m[t].1 in State(m, leaves, elems, t)
         && m[t].0 != m[t].1
  }

  /** The frequency of a father is the sum of its sons'. */
  ghost predicate Weighted(m: Merges, elems: nat, freq: seq<nat>) {
    && elems + |m| <= |freq|
    && forall t | 0 <= t < |m| ::
         m[t].0 < elems + t && m[t].1 < elems + t && freq[elems + t] == freq[m[t].0] + freq[m[t].1]
  }

  /** Every merge takes the two least frequent nodes. */
  ghost predicate Greedy(m: Merges, leaves: set<nat>, elems: nat, freq: seq<nat>)
    requires History(m, leaves, elems) && Weighted(m, elems, freq)
  {
    forall t | 0 <= t < |m| :: TwoLeast(State(m, leaves, elems, t), m[t].0, m[t].1, freq)
  }

  ghost predicate TwoLeast(s: set<nat>, a: nat, b: nat, freq: seq<nat>)
    requires a < |freq| && b < |freq|
  {
    && (forall x | x in s && x < |freq| :: freq[a] <= freq[x])
    && (forall x | x in s && x < |freq| && x != a :: freq[b] <= freq[x])
  }

  lemma {:induction false} StateBelow(m: Merges, leaves: set<nat>, elems: nat, t: nat)
    requires History(m, leaves, elems) && t <= |m|
    ensures forall x | x in State(m, leaves, elems, t) :: x < elems + t
  {
    if t > 0 { StateBelow(m, leaves, elems, t - 1); }
  }

  lemma {:induction false} StateSize(m: Merges, leaves: set<nat>, elems: nat, t: nat)
    requires History(m, leaves, elems) && t <= |m|
    ensures |State(m, leaves, elems, t)| == |leaves| - t
  {
    hide History;
    if t > 0 {
      StateSize(m, leaves, elems, t - 1);
      StateBelow(m, leaves, elems, t - 1);
      Sons(m, leaves, elems, t - 1);
      MergeSize(State(m, leaves, elems, t - 1), m[t - 1].0, m[t - 1].1, elems + t - 1);
    }
  }

  lemma MergeSize(s: set<nat>, a: nat, b: nat, p: nat)
    requires a in s && b in s && a != b && p !in s
    ensures |s - {a, b} + {p}| == |s| - 1
  {
    assert s - {a, b} == s - {a} - {b};
  }

  /** Undoing a merge replaces the father's entry of a sum by those of its sons. */
  lemma Unmerge(m: Merges, leaves: set<nat>, elems: nat, t: nat, f: seq<nat>, f': seq<nat>)
    requires History(m, leaves, elems) && t < |m| && elems + |m| <= |f| == |f'|
    requires forall x: nat | x < |f| && x != m[t].0 && x != m[t].1 :: f'[x] == f[x]
    ensures m[t].0 < elems + t && m[t].1 < elems + t
    ensures Sum(State(m, leaves, elems, t), f') ==
            Sum(State(m, leaves, elems, t + 1), f) - f[elems + t] + f'[m[t].0] + f'[m[t].1]
  {
    hide Sum;
    var s, a, b, p := State(m, leaves, elems, t), m[t].0, m[t].1, elems + t;
    assert a in s && b in s && a != b;
    StateBelow(m, leaves, elems, t);
    var rest := s - {a} - {b};
    SumRemove(s, f', a);
    SumRemove(s - {a}, f', b);
    SumAdd(rest, f, p);
    SumAgree(rest, f, f');
    assert State(m, leaves, elems, t + 1) == rest + {p};
  }

  // ------------------------------------------------------------ cost and Kraft sums

  /** 2^(b - l) for each length, the terms of the Kraft sum in units of 2^-b. */
  ghost function Scaled(b: nat, len: seq<nat>): (f: seq<nat>)
    ensures |f| == |len|
    ensures forall x | 0 <= x < |len| && len[x] <= b :: f[x] == Pow2(b - len[x])
  {
    seq(|len|, x requires 0 <= x < |len| => if len[x] <= b then Pow2(b - len[x]) else 0)
  }

  /** Frequency times length. */
  ghost function Products(freq: seq<nat>, len: seq<nat>): (f: seq<nat>)
    requires |freq| == |len|
    ensures |f| == |len|
    ensures forall x | 0 <= x < |len| :: f[x] == freq[x] * len[x]
  {
    seq(|len|, x requires 0 <= x < |len| => freq[x] * len[x])
  }

  ghost function Cost(s: set<nat>, freq: seq<nat>, len: seq<nat>): nat
    requires |freq| == |len|
  {
    Sum(s, Products(freq, len))
  }

  ghost predicate AtMost(s: set<nat>, b: nat, len: seq<nat>) {
    forall x | x in s :: x < |len| && len[x] <= b
  }

  /** `len` gives the nodes of `s` lengths that satisfy Kraft's inequality. */
  ghost predicate Fits(s: set<nat>, b: nat, len: seq<nat>) {
    && AtMost(s, b, len)
    && Sum(s, Scaled(b, len)) <= Pow2(b)
  }

  /** Total frequency of the fathers made from the `t`-th merge on. */
  ghost function MergeCost(m: Merges, elems: nat, freq: seq<nat>, t: nat): nat
    requires t <= |m| && elems + |m| <= |freq|
    decreases |m| - t
  {
    if t == |m| then 0 else freq[elems + t] + MergeCost(m, elems, freq, t + 1)
  }

  // ------------------------------------------------------------ the exchange argument

  function Swap(len: seq<nat>, x: nat, y: nat): seq<nat>
    requires x < |len| && y < |len|
  {
    len[x := len[y]][y := len[x]]
  }

  /** Exchanging the lengths of two nodes keeps the Kraft sum. */
  lemma SwapFits(s: set<nat>, b: nat, len: seq<nat>, x: nat, y: nat)
    requires Fits(s, b, len) && x in s && y in s
    ensures Fits(s, b, Swap(len, x, y))
  {
    hide Sum;
    if x != y {
      var f, g := Scaled(b, len), Scaled(b, Swap(len, x, y));
      assert g == f[x := f[y]][y := f[x]];
      SumUpdate(s, f, x, f[y]);
      SumUpdate(s, f[x := f[y]], y, f[x]);
    } else {
      assert Swap(len, x, y) == len;
    }
  }

  lemma ExchangeArith(p: nat, q: nat, a: nat, b: nat)
    requires p <= q && b <= a
    ensures p * a + q * b <= p * b + q * a
  {
    assert (q - p) * (a - b) >= 0;
    assert (q - p) * (a - b) == q * a - q * b - p * a + p * b;
  }

  /** Giving the longer of two lengths to the less frequent node does not cost more. */
  lemma SwapCost(s: set<nat>, freq: seq<nat>, len: seq<nat>, x: nat, y: nat)
    requires |freq| == |len| && x in s && y in s && x < |len| && y < |len|
    requires freq[x] <= freq[y] && len[x] <= len[y]
    ensures Cost(s, freq, Swap(len, x, y)) <= Cost(s, freq, len)
  {
    hide Sum;
    if x != y {
      var f, g := Products(freq, len), Products(freq, Swap(len, x, y));
      var u, v := freq[x] * len[y], freq[y] * len[x];
      assert g == f[x := u][y := v];
      SumUpdate(s, f, x, u);
      SumUpdate(s, f[x := u], y, v);
      ExchangeArith(freq[x], freq[y], len[y], len[x]);
    } else {
      assert Swap(len, x, y) == len;
    }
  }

  /** A node of greatest length. */
  lemma Longest(s: set<nat>, len: seq<nat>) returns (x: nat)
    requires s != {} && forall y | y in s :: y < |len|
    ensures x in s && forall y | y in s :: len[y] <= len[x]
    decreases s
  {
    var z :| z in s;
    if s == {z} {
      x := z;
    } else {
      assert s - {z} != {};
      var w := Longest(s - {z}, len);
      x := if len[w] >= len[z] then w else z;
    }
  }

  /** `a` has the greatest length and `c` the greatest of the rest. */
  ghost predicate Deepest(s: set<nat>, len: seq<nat>, a: nat, c: nat)
  {
    && a in s && c in s && a != c && a < |len| && c < |len|
    && (forall x | x in s && x < |len| :: len[x] <= len[a])
    && (forall x | x in s && x < |len| && x != a :: len[x] <= len[c])
  }

  /** Two least frequent nodes can be made the deepest without cost. */
  lemma MakeDeepest(s: set<nat>, b: nat, freq: seq<nat>, len: seq<nat>, a: nat, c: nat) returns (len': seq<nat>)
    requires |freq| == |len| && Fits(s, b, len) && a in s && c in s && a != c
    requires TwoLeast(s, a, c, freq)
    ensures |len'| == |len| && Fits(s, b, len') && Deepest(s, len', a, c)
    ensures Cost(s, freq, len') <= Cost(s, freq, len)
  {
    hide Cost, Sum;
    FitsBounds(s, b, len);
    var x := Longest(s, len);
    SwapFits(s, b, len, a, x);
    SwapCost(s, freq, len, a, x);
    var l1 := Swap(len, a, x);
    assert forall y | y in s :: l1[y] <= l1[a];
    FitsBounds(s, b, l1);
    assert c in s - {a};
    var z := Longest(s - {a}, l1);
    SwapFits(s, b, l1, c, z);
    SwapCost(s, freq, l1, c, z);
    len' := Swap(l1, c, z);
  }

  lemma FitsBounds(s: set<nat>, b: nat, len: seq<nat>)
    requires Fits(s, b, len)
    ensures AtMost(s, b, len)
  {
  }

  lemma PowerMultiple(b: nat, l: nat, k: nat)
    requires l <= k <= b
    ensures Multiple(Pow2(b - l), Pow2(b - k))
  {
    Pow2Add(k - l, b - k);
    assert Pow2(b - l) == Pow2(k - l) * Pow2(b - k);
  }

  /** If one node is strictly the deepest, it can be raised to the level of the next. */
  lemma Raise(s: set<nat>, b: nat, freq: seq<nat>, len: seq<nat>, a: nat, c: nat)
    requires |freq| == |len| && Fits(s, b, len) && Deepest(s, len, a, c)
    ensures Fits(s, b, len[a := len[c]])
    ensures Cost(s, freq, len[a := len[c]]) <= Cost(s, freq, len)
  {
    hide Sum;
    var len' := len[a := len[c]];
    var d := Pow2(b - len[c]);
    var f, f' := Scaled(b, len), Scaled(b, len');
    assert f' == f[a := d];
    SumUpdate(s, f, a, d);
    SumRemove(s, f, a);
    RestMultiple(s, b, len, a, c);
    PowerMultiple(b, 0, len[c]);
    if len[a] > len[c] {
      MultipleGap(Sum(s - {a}, f), Pow2(b), d);
    }
    var g, g' := Products(freq, len), Products(freq, len');
    assert g' == g[a := freq[a] * len[c]];
    SumUpdate(s, g, a, freq[a] * len[c]);
    MulLe(freq[a], len[c], len[a]);
  }

  lemma MulLe(w: nat, x: nat, y: nat)
    requires x <= y
    ensures w * x <= w * y
  {
  }

  lemma RestMultiple(s: set<nat>, b: nat, len: seq<nat>, a: nat, c: nat)
    requires Fits(s, b, len) && Deepest(s, len, a, c)
    ensures Multiple(Sum(s - {a}, Scaled(b, len)), Pow2(b - len[c]))
  {
    hide SumTo;
    var f, d := Scaled(b, len), Pow2(b - len[c]);
    forall x: nat | x < |f| && x in s - {a}
      ensures Multiple(f[x], d)
    {
      PowerMultiple(b, len[x], len[c]);
    }
    SumToMultiple(s - {a}, f, |f|, d);
  }

  /** The two sons of a merge are in the queue. */
  lemma Sons(m: Merges, leaves: set<nat>, elems: nat, t: nat)
    requires History(m, leaves, elems) && t < |m|
    ensures m[t].0 in State(m, leaves, elems, t) && m[t].1 in State(m, leaves, elems, t) && m[t].0 != m[t].1
  {
  }

  /** Two nodes of equal length cannot both be roots. */
  lemma PairNotRoot(s: set<nat>, b: nat, len: seq<nat>, a: nat, c: nat)
    requires Fits(s, b, len) && a in s && c in s && a != c && len[a] == len[c]
    ensures len[a] > 0
  {
    hide Sum, Pow2;
    var f := Scaled(b, len);
    SumRemove(s, f, a);
    SumRemove(s - {a}, f, c);
    assert f[a] + f[c] == 2 * Pow2(b - len[a]);
  }

  /** Two nodes of equal length can be replaced by a father one bit shorter. */
  lemma Join(m: Merges, leaves: set<nat>, elems: nat, t: nat, b: nat, freq: seq<nat>, len: seq<nat>)
    requires History(m, leaves, elems) && Weighted(m, elems, freq) && t < |m| && |len| == |freq|
    requires Fits(State(m, leaves, elems, t), b, len) && len[m[t].0] == len[m[t].1]
    ensures len[m[t].0] > 0
    ensures var len' := len[elems + t := len[m[t].0] - 1];
            && Fits(State(m, leaves, elems, t + 1), b, len')
            && Cost(State(m, leaves, elems, t), freq, len) ==
               Cost(State(m, leaves, elems, t + 1), freq, len') + freq[elems + t]
  {
    hide Sum, State, Fits, Cost, Pow2;
    Sons(m, leaves, elems, t);
    FitsBounds(State(m, leaves, elems, t), b, len);
    PairNotRoot(State(m, leaves, elems, t), b, len, m[t].0, m[t].1);
    JoinFits(m, leaves, elems, t, b, len);
    JoinCost(m, leaves, elems, t, freq, len);
  }

  lemma JoinFits(m: Merges, leaves: set<nat>, elems: nat, t: nat, b: nat, len: seq<nat>)
    requires History(m, leaves, elems) && t < |m| && elems + |m| <= |len|
    requires Fits(State(m, leaves, elems, t), b, len)
    requires m[t].0 < |len| && m[t].1 < |len| && len[m[t].0] == len[m[t].1] > 0
    ensures Fits(State(m, leaves, elems, t + 1), b, len[elems + t := len[m[t].0] - 1])
  {
    hide Sum, State;
    var s, a, c, p := State(m, leaves, elems, t), m[t].0, m[t].1, elems + t;
    var l := len[a];
    Sons(m, leaves, elems, t);
    var f, f' := Scaled(b, len), Scaled(b, len[p := l - 1]);
    JoinBounds(m, leaves, elems, t, b, len, l);
    assert f'[p] == Pow2(b - (l - 1)) == 2 * Pow2(b - l);
    Unmerge(m, leaves, elems, t, f', f'[a := f[a]][c := f[c]]);
    SumAtState(m, leaves, elems, t, f, f', a, c);
  }

  lemma JoinCost(m: Merges, leaves: set<nat>, elems: nat, t: nat, freq: seq<nat>, len: seq<nat>)
    requires History(m, leaves, elems) && Weighted(m, elems, freq) && t < |m| && |len| == |freq|
    requires len[m[t].0] == len[m[t].1] > 0
    ensures Cost(State(m, leaves, elems, t), freq, len) ==
            Cost(State(m, leaves, elems, t + 1), freq, len[elems + t := len[m[t].0] - 1]) + freq[elems + t]
  {
    hide Sum, State;
    var a, c, p := m[t].0, m[t].1, elems + t;
    var l := len[a];
    Sons(m, leaves, elems, t);
    var g, g' := Products(freq, len), Products(freq, len[p := l - 1]);
    Unmerge(m, leaves, elems, t, g', g'[a := g[a]][c := g[c]]);
    SumAtState(m, leaves, elems, t, g, g', a, c);
    JoinArith(freq[a], freq[c], l);
  }

  lemma JoinArith(u: nat, v: nat, l: nat)
    requires l > 0
    ensures u * l + v * l == (u + v) * (l - 1) + (u + v)
  {
  }

  /** The father's entry does not matter to the sum before the merge. */
  lemma SumAtState(m: Merges, leaves: set<nat>, elems: nat, t: nat, f: seq<nat>, f': seq<nat>, a: nat, c: nat)
    requires History(m, leaves, elems) && t < |m| && elems + |m| <= |f| == |f'|
    requires a < |f| && c < |f|
    requires forall x: nat | x < |f| && x != elems + t :: f'[x] == f[x]
    ensures Sum(State(m, leaves, elems, t), f'[a := f[a]][c := f[c]]) == Sum(State(m, leaves, elems, t), f)
  {
    StateBelow(m, leaves, elems, t);
    SumAgree(State(m, leaves, elems, t), f'[a := f[a]][c := f[c]], f);
  }

  lemma JoinBounds(m: Merges, leaves: set<nat>, elems: nat, t: nat, b: nat, len: seq<nat>, l: nat)
    requires History(m, leaves, elems) && t < |m| && elems + |m| <= |len|
    requires AtMost(State(m, leaves, elems, t), b, len)
    requires 0 < l <= b
    ensures AtMost(State(m, leaves, elems, t + 1), b, len[elems + t := l - 1])
  {
  }

  /**
   No assignment of lengths that satisfies Kraft's inequality costs less than the merges:
   from any point of the history on, the fathers still to be made are a lower bound.
   */
  lemma {:induction false} MergesAreOptimal(m: Merges, leaves: set<nat>, elems: nat, t: nat, b: nat, freq: seq<nat>, len: seq<nat>)
    requires History(m, leaves, elems) && Weighted(m, elems, freq) && Greedy(m, leaves, elems, freq)
    requires t <= |m| && |len| == |freq|
    requires Fits(State(m, leaves, elems, t), b, len)
    ensures MergeCost(m, elems, freq, t) <= Cost(State(m, leaves, elems, t), freq, len)
    decreases |m| - t
  {
    hide State, Cost, Fits, Deepest;
    if t < |m| {
      var s, a, c := State(m, leaves, elems, t), m[t].0, m[t].1;
      var l1 := MakeDeepest(s, b, freq, len, a, c);
      Raise(s, b, freq, l1, a, c);
      DeepestBounds(s, l1, a, c);
      var l2 := l1[a := l1[c]];
      Join(m, leaves, elems, t, b, freq, l2);
      MergesAreOptimal(m, leaves, elems, t + 1, b, freq, l2[elems + t := l2[a] - 1]);
    }
  }

  lemma DeepestBounds(s: set<nat>, len: seq<nat>, a: nat, c: nat)
    requires Deepest(s, len, a, c)
    ensures a < |len| && c < |len|
  {
  }

  // ------------------------------------------------------------ prefix codes

  /** No word of a symbol in `s` is a prefix of another's. */
  ghost predicate PrefixFree(s: set<nat>, words: seq<seq<bool>>) {
    && (forall x | x in s :: x < |words|)
    && forall x, y | x in s && y in s && x != y :: !(words[x] <= words[y])
  }

  ghost function Lengths(words: seq<seq<bool>>): (len: seq<nat>)
    ensures |len| == |words| && forall x | 0 <= x < |words| :: len[x] == |words[x]|
  {
    seq(|words|, x requires 0 <= x < |words| => |words[x]|)
  }

  ghost function Tails(words: seq<seq<bool>>): (w: seq<seq<bool>>)
    ensures |w| == |words|
    ensures forall x | 0 <= x < |words| && words[x] != [] :: w[x] == words[x][1..]
  {
    seq(|words|, x requires 0 <= x < |words| => if words[x] == [] then [] else words[x][1..])
  }

  ghost function StartingWith(s: set<nat>, words: seq<seq<bool>>, bit: bool): set<nat>
    requires forall x | x in s :: x < |words| && words[x] != []
  {
    set x | x in s && words[x][0] == bit
  }

  lemma {:induction false} SumPartition(s: set<nat>, p: set<nat>, q: set<nat>, f: seq<nat>, n: nat)
    requires n <= |f| && s == p + q && p !! q
    ensures SumTo(s, f, n) == SumTo(p, f, n) + SumTo(q, f, n)
  {
    if n > 0 { SumPartition(s, p, q, f, n - 1); }
  }

  /** Half of a prefix code: its words that start with `bit`, without that bit. */
  lemma HalfFree(s: set<nat>, words: seq<seq<bool>>, bit: bool)
    requires PrefixFree(s, words) && forall x | x in s :: words[x] != []
    ensures PrefixFree(StartingWith(s, words, bit), Tails(words))
  {
    var h, w := StartingWith(s, words, bit), Tails(words);
    forall x, y | x in h && y in h && x != y
      ensures !(w[x] <= w[y])
    {
      assert words[x] == [bit] + w[x] && words[y] == [bit] + w[y];
      if w[x] <= w[y] { PrefixCons(bit, w[x], w[y]); }
    }
  }

  lemma PrefixCons(bit: bool, a: seq<bool>, b: seq<bool>)
    requires a <= b
    ensures [bit] + a <= [bit] + b
  {
  }

  /** The empty word leaves no room for another. */
  lemma EmptyWordAlone(s: set<nat>, words: seq<seq<bool>>, x: nat)
    requires PrefixFree(s, words) && x in s && words[x] == []
    ensures s == {x}
  {
    forall y | y in s
      ensures y == x
    {
      assert words[x] <= words[y];
    }
  }

  /** The words of a half weigh twice as much without their first bit. */
  lemma HalfSum(s: set<nat>, words: seq<seq<bool>>, b: nat)
    requires b > 0 && forall x | x in s :: x < |words| && 0 < |words[x]| <= b
    ensures Sum(s, Scaled(b, Lengths(words))) == Sum(s, Scaled(b - 1, Lengths(Tails(words))))
  {
    hide Pow2;
    var f, g := Scaled(b, Lengths(words)), Scaled(b - 1, Lengths(Tails(words)));
    forall x: nat | x < |f| && x in s
      ensures f[x] == g[x]
    {
      assert |words[x]| <= b && Lengths(Tails(words))[x] == |words[x]| - 1;
    }
    SumAgree(s, f, g);
  }

  /** Kraft's inequality: the words of a prefix code of length at most `b`. */
  lemma {:induction false} PrefixFreeFits(s: set<nat>, words: seq<seq<bool>>, b: nat)
    requires PrefixFree(s, words) && forall x | x in s :: x < |words| && |words[x]| <= b
    ensures Fits(s, b, Lengths(words))
    decreases b
  {
    hide Sum, PrefixFree;
    var f := Scaled(b, Lengths(words));
    if x :| x in s && words[x] == [] {
      EmptyWordAlone(s, words, x);
      SumRemove(s, f, x);
      assert s - {x} == {};
      SumNone(f);
    } else if s == {} {
      SumNone(f);
    } else {
      Halves(s, words, b);
      PrefixFreeFits(StartingWith(s, words, false), Tails(words), b - 1);
      PrefixFreeFits(StartingWith(s, words, true), Tails(words), b - 1);
      HalvesFit(s, words, b);
    }
  }

  lemma Halves(s: set<nat>, words: seq<seq<bool>>, b: nat)
    requires PrefixFree(s, words) && s != {} && forall x | x in s :: 0 < |words[x]| <= b
    ensures b > 0
    ensures forall bit: bool :: PrefixFree(StartingWith(s, words, bit), Tails(words))
    ensures forall bit: bool, x | x in StartingWith(s, words, bit) :: |Tails(words)[x]| <= b - 1
  {
    HalfFree(s, words, false);
    HalfFree(s, words, true);
  }

  lemma HalvesFit(s: set<nat>, words: seq<seq<bool>>, b: nat)
    requires b > 0 && forall x | x in s :: x < |words| && 0 < |words[x]| <= b
    requires Fits(StartingWith(s, words, false), b - 1, Lengths(Tails(words)))
    requires Fits(StartingWith(s, words, true), b - 1, Lengths(Tails(words)))
    ensures Fits(s, b, Lengths(words))
  {
    hide Sum;
    HalfSum(s, words, b);
    SumSplit(s, StartingWith(s, words, false), StartingWith(s, words, true), Scaled(b - 1, Lengths(Tails(words))));
  }

  lemma SumNone(f: seq<nat>)
    ensures Sum({}, f) == 0
  {
    SumToEmpty(f, |f|);
  }

  lemma SumSplit(s: set<nat>, p: set<nat>, q: set<nat>, f: seq<nat>)
    requires s == p + q && p !! q
    ensures Sum(s, f) == Sum(p, f) + Sum(q, f)
  {
    SumPartition(s, p, q, f, |f|);
  }

  // ------------------------------------------------------------ building a history

  lemma {:induction false} StatePrefix(m: Merges, leaves: set<nat>, elems: nat, ab: (nat, nat), t: nat)
    requires t <= |m|
    ensures State(m + [ab], leaves, elems, t) == State(m, leaves, elems, t)
  {
    if t > 0 { StatePrefix(m, leaves, elems, ab, t - 1); }
  }

  lemma StateStep(m: Merges, leaves: set<nat>, elems: nat, t: nat)
    requires t < |m|
    ensures State(m, leaves, elems, t + 1) == State(m, leaves, elems, t) - {m[t].0, m[t].1} + {elems + t}
  {
  }

  /** One more merge, of the two least frequent nodes in the queue. */
  lemma Extend(m: Merges, leaves: set<nat>, elems: nat, freq: seq<nat>, freq': seq<nat>, a: nat, b: nat)
    requires History(m, leaves, elems) && Weighted(m, elems, freq) && Greedy(m, leaves, elems, freq)
    requires elems + |m| < |freq| == |freq'|
    requires a in State(m, leaves, elems, |m|) && b in State(m, leaves, elems, |m|) && a != b
    requires a < |freq| && b < |freq| && TwoLeast(State(m, leaves, elems, |m|), a, b, freq)
    requires freq' == freq[elems + |m| := freq[a] + freq[b]]
    ensures History(m + [(a, b)], leaves, elems) && Weighted(m + [(a, b)], elems, freq')
    ensures Greedy(m + [(a, b)], leaves, elems, freq')
    ensures State(m + [(a, b)], leaves, elems, |m| + 1) ==
            State(m, leaves, elems, |m|) - {a, b} + {elems + |m|}
  {
    hide State, Greedy;
    ExtendHistory(m, leaves, elems, a, b);
    StateBelow(m, leaves, elems, |m|);
    ExtendGreedy(m, leaves, elems, freq, freq', a, b);
  }

  lemma ExtendHistory(m: Merges, leaves: set<nat>, elems: nat, a: nat, b: nat)
    requires History(m, leaves, elems)
    requires a in State(m, leaves, elems, |m|) && b in State(m, leaves, elems, |m|) && a != b
    ensures History(m + [(a, b)], leaves, elems)
    ensures State(m + [(a, b)], leaves, elems, |m| + 1) ==
            State(m, leaves, elems, |m|) - {a, b} + {elems + |m|}
  {
    hide State;
    var m' := m + [(a, b)];
    StatePrefix(m, leaves, elems, (a, b), |m|);
    StateStep(m', leaves, elems, |m|);
    forall t | 0 <= t < |m'|
      ensures m'[t].0 in State(m', leaves, elems, t) && m'[t].1 in State(m', leaves, elems, t) && m'[t].0 != m'[t].1
    {
      StatePrefix(m, leaves, elems, (a, b), t);
      if t < |m| { Sons(m, leaves, elems, t); }
    }
  }

  lemma ExtendGreedy(m: Merges, leaves: set<nat>, elems: nat, freq: seq<nat>, freq': seq<nat>, a: nat, b: nat)
    requires History(m, leaves, elems) && Weighted(m, elems, freq) && Greedy(m, leaves, elems, freq)
    requires elems + |m| < |freq| == |freq'|
    requires a < elems + |m| && b < elems + |m| && TwoLeast(State(m, leaves, elems, |m|), a, b, freq)
    requires freq' == freq[elems + |m| := freq[a] + freq[b]]
    requires History(m + [(a, b)], leaves, elems)
    ensures Weighted(m + [(a, b)], elems, freq')
    ensures Greedy(m + [(a, b)], leaves, elems, freq')
  {
    hide State;
    var m' := m + [(a, b)];
    assert Weighted(m', elems, freq');
    forall t | 0 <= t < |m'|
      ensures TwoLeast(State(m', leaves, elems, t), m'[t].0, m'[t].1, freq')
    {
      StatePrefix(m, leaves, elems, (a, b), t);
      StateBelow(m, leaves, elems, t);
      if t < |m| {
        assert TwoLeast(State(m, leaves, elems, t), m[t].0, m[t].1, freq);
      }
    }
  }

  /** A merge keeps the total frequency. */
  lemma MergeKeepsTotal(s: set<nat>, freq: seq<nat>, freq': seq<nat>, a: nat, b: nat, p: nat)
    requires a in s && b in s && a != b && p !in s && a < |freq| && b < |freq| && p < |freq|
    requires freq' == freq[p := freq[a] + freq[b]]
    ensures Sum(s - {a, b} + {p}, freq') == Sum(s, freq)
    ensures freq[a] + freq[b] <= Sum(s, freq)
  {
    hide Sum;
    SumRemove(s, freq, a);
    SumRemove(s - {a}, freq, b);
    assert s - {a} - {b} == s - {a, b};
    SumAdd(s - {a, b}, freq', p);
    SumAgree(s - {a, b}, freq, freq');
  }
}
