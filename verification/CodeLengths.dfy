/**
 The run-length form in which a dynamic block sends its code lengths (trees.c, `scan_tree` and
 `send_tree`), and what it stands for.
 */
module CodeLengths {
  import opened CanonicalCode
  import opened InflateSpec

  const REP_3_6 := 16
  const REPZ_3_10 := 17
  const REPZ_11_138 := 18

  /** A length greater than any, put after the last one. */
  const GUARD := 0xffff

  /** A symbol of the code length code with its repeat count. */
  datatype Symbol = Length(len: nat) | Again(times: nat) | Zeros(times: nat) | ManyZeros(times: nat)

  /** The index of a symbol in the code length code. */
  function SymbolIndex(x: Symbol): nat {
    match x
    case Length(len) => len
    case Again(_) => REP_3_6
    case Zeros(_) => REPZ_3_10
    case ManyZeros(_) => REPZ_11_138
  }

  /** The number of extra bits, and the value they carry. */
  function ExtraBits(x: Symbol): nat {
    match x
    case Length(_) => 0
    case Again(_) => 2
    case Zeros(_) => 3
    case ManyZeros(_) => 7
  }

  function ExtraValue(x: Symbol): int {
    match x
    case Length(_) => 0
    case Again(n) => n - 3
    case Zeros(n) => n - 3
    case ManyZeros(n) => n - 11
  }

  /** The length, or the repeat count, fits its field. */
  predicate Fits(x: Symbol) {
    match x
    case Length(len) => len <= MAXBITS
    case Again(n) => 3 <= n <= 6
    case Zeros(n) => 3 <= n <= 10
    case ManyZeros(n) => 11 <= n <= 138
  }

  /** What a symbol adds to the lengths `got`, if it can stand there. */
  predicate Stands(x: Symbol, got: seq<nat>) {
    Fits(x) && (x.Again? ==> got != [])
  }

  function Adds(x: Symbol, got: seq<nat>): seq<nat>
    requires Stands(x, got)
  {
    match x
    case Length(len) => [len]
    case Again(n) => Repeat(got[|got| - 1], n)
    case Zeros(n) => Repeat(0, n)
    case ManyZeros(n) => Repeat(0, n)
  }

  /** All the symbols can stand where they are, after the lengths `got`. */
  predicate AllStand(xs: seq<Symbol>, got: seq<nat>) {
    xs == [] || (Stands(xs[0], got) && AllStand(xs[1..], got + Adds(xs[0], got)))
  }

  /** The lengths that symbols stand for, after the lengths `got`. */
  function Expand(xs: seq<Symbol>, got: seq<nat>): seq<nat>
    requires AllStand(xs, got)
  {
    if xs == [] then got else Expand(xs[1..], got + Adds(xs[0], got))
  }

  lemma {:induction false} ExpandConcat(xs: seq<Symbol>, ys: seq<Symbol>, got: seq<nat>)
    requires AllStand(xs, got) && AllStand(ys, Expand(xs, got))
    ensures AllStand(xs + ys, got) && Expand(xs + ys, got) == Expand(ys, Expand(xs, got))
  {
    if xs == [] {
      assert xs + ys == ys;
    } else {
      assert (xs + ys)[1..] == xs[1..] + ys;
      ExpandConcat(xs[1..], ys, got + Adds(xs[0], got));
    }
  }

  // ------------------------------------------------------------ making the symbols

  /** How many of the same length make one group; `prev` is the length before it, or -1. */
  function MaxCount(prev: int, cur: nat): nat {
    if cur == 0 then 138 else if cur == prev then 6 else 7
  }

  /** How many are worth a repeat. */
  function MinCount(prev: int, cur: nat): nat {
    if cur == 0 || cur == prev then 3 else 4
  }

  function Same(x: Symbol, n: nat): (r: seq<Symbol>)
    ensures |r| == n
  {
    seq(n, i => x)
  }

  /** The symbols for `count` times the length `cur`. */
  function Group(prev: int, cur: nat, count: nat): seq<Symbol>
    requires 1 <= count
  {
    if count < MinCount(prev, cur) then Same(Length(cur), count)
    else if cur != 0 then
      if cur != prev then [Length(cur), Again(count - 1)] else [Again(count)]
    else if count <= 10 then [Zeros(count)]
    else [ManyZeros(count)]
  }

  /** The length after the `i`-th. */
  function Next(lens: seq<nat>, i: nat): nat {
    if i + 1 < |lens| then lens[i + 1] else GUARD
  }

  /** The symbols for the lengths from the `i`-th on, when `count` equal ones before it are not yet sent. */
  function Symbols(lens: seq<nat>, i: nat, prev: int, count: nat): seq<Symbol>
    requires i <= |lens|
    decreases |lens| - i
  {
    if i == |lens| then []
    else if count + 1 < MaxCount(prev, lens[i]) && lens[i] == Next(lens, i) then Symbols(lens, i + 1, prev, count + 1)
    else Group(prev, lens[i], count + 1) + Symbols(lens, i + 1, lens[i], 0)
  }

  // ------------------------------------------------------------ they stand for the lengths

  lemma {:induction false} ExpandSame(v: nat, n: nat, got: seq<nat>)
    requires v <= MAXBITS
    ensures AllStand(Same(Length(v), n), got) && Expand(Same(Length(v), n), got) == got + Repeat(v, n)
  {
    if n == 0 {
      assert got + Repeat(v, 0) == got;
    } else {
      var xs := Same(Length(v), n);
      assert xs[1..] == Same(Length(v), n - 1);
      ExpandSame(v, n - 1, got + [v]);
      assert got + [v] + Repeat(v, n - 1) == got + Repeat(v, n);
    }
  }

  /** `prev` is the last of the lengths before, or there is none to refer to. */
  predicate After(prev: int, got: seq<nat>) {
    prev == -1 || (got != [] && got[|got| - 1] == prev)
  }

  lemma ExpandOne(x: Symbol, got: seq<nat>)
    requires Stands(x, got)
    ensures AllStand([x], got) && Expand([x], got) == got + Adds(x, got)
  {
    assert [x][1..] == [];
  }

  lemma ExpandGroup(prev: int, cur: nat, count: nat, got: seq<nat>)
    requires After(prev, got) && cur <= MAXBITS && 1 <= count <= MaxCount(prev, cur)
    ensures AllStand(Group(prev, cur, count), got) && Expand(Group(prev, cur, count), got) == got + Repeat(cur, count)
  {
    hide AllStand, Expand;
    if count < MinCount(prev, cur) {
      ExpandSame(cur, count, got);
    } else if cur == 0 {
      ExpandOne(if count <= 10 then Zeros(count) else ManyZeros(count), got);
    } else if cur == prev {
      ExpandOne(Again(count), got);
    } else {
      ExpandOne(Length(cur), got);
      ExpandOne(Again(count - 1), got + [cur]);
      ExpandConcat([Length(cur)], [Again(count - 1)], got);
      assert [Length(cur)] + [Again(count - 1)] == [Length(cur), Again(count - 1)];
      assert got + [cur] + Repeat(cur, count - 1) == got + Repeat(cur, count);
    }
  }

  /** The `count` lengths before the `i`-th are like it and not yet sent. */
  predicate Waiting(lens: seq<nat>, i: nat, prev: int, count: nat) {
    count <= i <= |lens| && (i < |lens| ==> count < MaxCount(prev, lens[i])) && (i == |lens| ==> count == 0)
    && forall j | i - count <= j < i :: i < |lens| && lens[j] == lens[i]
  }

  /** Whatever lengths came before, the symbols stand for the lengths. */
  lemma {:induction false} SymbolsExpand(lens: seq<nat>, i: nat, prev: int, count: nat, got: seq<nat>)
    requires ValidLens(lens) && Waiting(lens, i, prev, count) && After(prev, got)
    ensures AllStand(Symbols(lens, i, prev, count), got)
    ensures Expand(Symbols(lens, i, prev, count), got) == got + lens[i - count..]
    decreases |lens| - i
  {
    hide AllStand, Expand, Group, MaxCount;
    if i == |lens| {
      ExpandNone(got);
      assert got + lens[i..] == got;
    } else if count + 1 < MaxCount(prev, lens[i]) && lens[i] == Next(lens, i) {
      SymbolsExpand(lens, i + 1, prev, count + 1, got);
    } else {
      var c := count + 1;
      ExpandGroup(prev, lens[i], c, got);
      var got' := got + Repeat(lens[i], c);
      MaxCountBounds(lens[i], if i + 1 < |lens| then lens[i + 1] else 0);
      SymbolsExpand(lens, i + 1, lens[i], 0, got');
      ExpandConcat(Group(prev, lens[i], c), Symbols(lens, i + 1, lens[i], 0), got);
      assert lens[i - count..i + 1] == Repeat(lens[i], c);
      assert lens[i - count..] == lens[i - count..i + 1] + lens[i + 1..];
      assert got' + lens[i + 1..] == got + lens[i - count..];
    }
  }

  lemma MaxCountBounds(prev: int, cur: nat)
    ensures MaxCount(prev, cur) > 0
  {
  }

  lemma ExpandNone(got: seq<nat>)
    ensures AllStand([], got) && Expand([], got) == got
  {
  }

  /** The literal/length and the distance lengths, sent one after the other, are read as one sequence. */
  lemma BothExpand(llens: seq<nat>, dlens: seq<nat>)
    requires ValidLens(llens) && ValidLens(dlens)
    ensures var xs := Symbols(llens, 0, -1, 0) + Symbols(dlens, 0, -1, 0);
            AllStand(xs, []) && Expand(xs, []) == llens + dlens
  {
    hide AllStand, Expand, Symbols;
    SymbolsExpand(llens, 0, -1, 0, []);
    SymbolsExpand(dlens, 0, -1, 0, [] + llens);
    ExpandConcat(Symbols(llens, 0, -1, 0), Symbols(dlens, 0, -1, 0), []);
    assert [] + llens[0..] == llens && llens + dlens[0..] == llens + dlens;
  }

  // ------------------------------------------------------------ counting the symbols

  /** How often the symbol with index `k` occurs. */
  function Occurs(xs: seq<Symbol>, k: nat): nat {
    if xs == [] then 0 else Occurs(xs[..|xs| - 1], k) + if SymbolIndex(xs[|xs| - 1]) == k then 1 else 0
  }

  lemma {:induction false} OccursConcat(xs: seq<Symbol>, ys: seq<Symbol>, k: nat)
    ensures Occurs(xs + ys, k) == Occurs(xs, k) + Occurs(ys, k)
  {
    if ys == [] {
      assert xs + ys == xs;
    } else {
      assert (xs + ys)[..|xs + ys| - 1] == xs + ys[..|ys| - 1];
      OccursConcat(xs, ys[..|ys| - 1], k);
    }
  }

  lemma {:induction false} OccursSame(x: Symbol, n: nat, k: nat)
    ensures Occurs(Same(x, n), k) == if SymbolIndex(x) == k then n else 0
  {
    if n > 0 {
      assert Same(x, n)[..n - 1] == Same(x, n - 1);
      OccursSame(x, n - 1, k);
    }
  }

  /** The state of the loops of `scan_tree` and `send_tree` before the `n`-th length. */
  ghost predicate Scanning(lens: seq<nat>, n: nat, prev: int, count: nat, maxCount: nat, minCount: nat, next: nat, sent: seq<Symbol>) {
    && n <= |lens| && Symbols(lens, 0, -1, 0) == sent + Symbols(lens, n, prev, count)
    && (n < |lens| ==> next == lens[n] && maxCount == MaxCount(prev, lens[n]) && minCount == MinCount(prev, lens[n]))
  }

  lemma ScanStart(lens: seq<nat>)
    requires |lens| > 0
    ensures var next := lens[0];
            Scanning(lens, 0, -1, 0, if next == 0 then 138 else 7, if next == 0 then 3 else 4, next, [])
  {
    assert [] + Symbols(lens, 0, -1, 0) == Symbols(lens, 0, -1, 0);
  }

  /** The length is one more of the same. */
  lemma ScanMore(lens: seq<nat>, n: nat, prev: int, count: nat, maxCount: nat, minCount: nat, cur: nat, sent: seq<Symbol>)
    requires Scanning(lens, n, prev, count, maxCount, minCount, cur, sent) && n < |lens| && ValidLens(lens)
    requires count + 1 < maxCount && cur == Next(lens, n)
    ensures Scanning(lens, n + 1, prev, count + 1, maxCount, minCount, Next(lens, n), sent)
  {
  }

  /** The length ends a group. */
  lemma ScanGroup(lens: seq<nat>, n: nat, prev: int, count: nat, maxCount: nat, minCount: nat, cur: nat, sent: seq<Symbol>)
    requires Scanning(lens, n, prev, count, maxCount, minCount, cur, sent) && n < |lens|
    requires count + 1 >= maxCount || cur != Next(lens, n)
    ensures var next := Next(lens, n);
            Scanning(lens, n + 1, cur, 0, if next == 0 then 138 else if cur == next then 6 else 7,
                     if next == 0 || cur == next then 3 else 4, next, sent + Group(prev, cur, count + 1))
  {
    hide Group;
    assert sent + (Group(prev, cur, count + 1) + Symbols(lens, n + 1, cur, 0))
        == sent + Group(prev, cur, count + 1) + Symbols(lens, n + 1, cur, 0);
  }

  lemma ScanEnd(lens: seq<nat>, prev: int, count: nat, maxCount: nat, minCount: nat, next: nat, sent: seq<Symbol>)
    requires Scanning(lens, |lens|, prev, count, maxCount, minCount, next, sent)
    ensures sent == Symbols(lens, 0, -1, 0)
  {
    assert sent + [] == sent;
  }

  /** What `scan_tree` does to the frequencies for one group. */
  ghost predicate Counted(f0: seq<nat>, f: seq<nat>, xs: seq<Symbol>) {
    |f| == |f0| && forall k | 0 <= k < |f| :: f[k] == f0[k] + Occurs(xs, k)
  }

  lemma CountedMore(f0: seq<nat>, f: seq<nat>, f': seq<nat>, xs: seq<Symbol>, ys: seq<Symbol>)
    requires Counted(f0, f, xs) && Counted(f, f', ys)
    ensures Counted(f0, f', xs + ys)
  {
    forall k | 0 <= k < |f'| ensures f'[k] == f0[k] + Occurs(xs + ys, k) {
      OccursConcat(xs, ys, k);
    }
  }

  lemma CountedSame(f: seq<nat>, x: Symbol, n: nat)
    requires SymbolIndex(x) < |f|
    ensures Counted(f, f[SymbolIndex(x) := f[SymbolIndex(x)] + n], Same(x, n))
  {
    forall k | 0 <= k < |f| ensures f[SymbolIndex(x) := f[SymbolIndex(x)] + n][k] == f[k] + Occurs(Same(x, n), k) {
      OccursSame(x, n, k);
    }
  }

  /** Count one group of `count` lengths `cur`. */
  method CountGroup(freq: array<nat>, prev: int, cur: nat, count: nat, minCount: nat)
    requires freq.Length >= 19 && cur <= MAXBITS && count >= 1 && minCount == MinCount(prev, cur)
    modifies freq
    ensures Counted(old(freq[..]), freq[..], Group(prev, cur, count))
  {
    ghost var f := freq[..];
    if count < minCount {
      CountedSame(f, Length(cur), count);
      freq[cur] := freq[cur] + count;
      assert freq[..] == f[cur := f[cur] + count];
    } else if cur != 0 {
      if cur != prev {
        CountedSame(f, Length(cur), 1);
        freq[cur] := freq[cur] + 1;
        assert freq[..] == f[cur := f[cur] + 1] && Same(Length(cur), 1) == [Length(cur)];
        ghost var g := freq[..];
        CountedSame(g, Again(count - 1), 1);
        freq[REP_3_6] := freq[REP_3_6] + 1;
        assert freq[..] == g[REP_3_6 := g[REP_3_6] + 1] && Same(Again(count - 1), 1) == [Again(count - 1)];
        CountedMore(f, g, freq[..], [Length(cur)], [Again(count - 1)]);
        assert [Length(cur)] + [Again(count - 1)] == [Length(cur), Again(count - 1)];
      } else {
        CountOne(freq, Again(count));
      }
    } else if count <= 10 {
      CountOne(freq, Zeros(count));
    } else {
      CountOne(freq, ManyZeros(count));
    }
  }

  method CountOne(freq: array<nat>, x: Symbol)
    requires SymbolIndex(x) < freq.Length
    modifies freq
    ensures Counted(old(freq[..]), freq[..], [x])
  {
    ghost var f := freq[..];
    CountedSame(f, x, 1);
    freq[SymbolIndex(x)] := freq[SymbolIndex(x)] + 1;
    assert freq[..] == f[SymbolIndex(x) := f[SymbolIndex(x)] + 1] && Same(x, 1) == [x];
  }

  /** `scan_tree`: count the symbols that `send_tree` will send. */
  method ScanTree(dl: array<nat>, maxCode: nat, freq: array<nat>)
    requires dl != freq && maxCode + 1 < dl.Length && ValidLens(dl[..maxCode + 1]) && freq.Length >= 19
    modifies dl, freq
    ensures dl[..] == old(dl[..])[maxCode + 1 := GUARD]
    ensures Counted(old(freq[..]), freq[..], Symbols(old(dl[..maxCode + 1]), 0, -1, 0))
  {
    hide Symbols, Group, Counted, MaxCount, MinCount, Scanning;
    ghost var lens, f0 := dl[..maxCode + 1], freq[..];
    var prev: int, next: nat, count: nat := -1, dl[0], 0;
    var maxCount, minCount := 7, 4;
    if next == 0 { maxCount, minCount := 138, 3; }
    dl[maxCode + 1] := GUARD;
    ghost var sent: seq<Symbol> := [];
    ScanStart(lens);
    CountedNone(f0);
    var n := 0;
    while n <= maxCode
      invariant n <= maxCode + 1 && dl[..] == old(dl[..])[maxCode + 1 := GUARD]
      invariant Scanning(lens, n, prev, count, maxCount, minCount, next, sent) && Counted(f0, freq[..], sent)
      decreases maxCode + 1 - n
    {
      ScanNext(lens, n, prev, count, maxCount, minCount, next, sent);
      var cur := next;
      next := dl[n + 1];
      count := count + 1;
      if count < maxCount && cur == next {
        ScanMore(lens, n, prev, count - 1, maxCount, minCount, cur, sent);
      } else {
        ScanGroup(lens, n, prev, count - 1, maxCount, minCount, cur, sent);
        ghost var f := freq[..];
        CountGroup(freq, prev, cur, count, minCount);
        CountedMore(f0, f, freq[..], sent, Group(prev, cur, count));
        sent := sent + Group(prev, cur, count);
        count, prev := 0, cur;
        if next == 0 {
          maxCount, minCount := 138, 3;
        } else if cur == next {
          maxCount, minCount := 6, 3;
        } else {
          maxCount, minCount := 7, 4;
        }
      }
      n := n + 1;
    }
    ScanEnd(lens, prev, count, maxCount, minCount, next, sent);
  }

  lemma CountedNone(f: seq<nat>)
    ensures Counted(f, f, [])
  {
  }

  lemma ScanNext(lens: seq<nat>, n: nat, prev: int, count: nat, maxCount: nat, minCount: nat, next: nat, sent: seq<Symbol>)
    requires Scanning(lens, n, prev, count, maxCount, minCount, next, sent) && n < |lens|
    ensures next == lens[n] && minCount == MinCount(prev, lens[n])
  {
  }

  // ------------------------------------------------------------ bounds on the symbols

  /** There are no more symbols than lengths. */
  lemma {:induction false} SymbolsFew(lens: seq<nat>, i: nat, prev: int, count: nat)
    requires i <= |lens| && (i == |lens| ==> count == 0)
    ensures |Symbols(lens, i, prev, count)| <= |lens| - i + count
    decreases |lens| - i
  {
    hide MaxCount, MinCount;
    if i < |lens| {
      if count + 1 < MaxCount(prev, lens[i]) && lens[i] == Next(lens, i) {
        if i + 1 < |lens| { SymbolsFew(lens, i + 1, prev, count + 1); }
      } else {
        SymbolsFew(lens, i + 1, lens[i], 0);
        MinCountBounds(prev, lens[i]);
      }
    }
  }

  lemma MinCountBounds(prev: int, cur: nat)
    ensures MinCount(prev, cur) >= 3
  {
  }

  /** Symbols without a length in them stand for zeros only. */
  lemma {:induction false} OnlyZeros(xs: seq<Symbol>, got: seq<nat>)
    requires AllStand(xs, got) && (forall j | 0 <= j < |xs| :: !xs[j].Length?) && forall i | 0 <= i < |got| :: got[i] == 0
    ensures forall i | 0 <= i < |Expand(xs, got)| :: Expand(xs, got)[i] == 0
  {
    if xs != [] {
      var got' := got + Adds(xs[0], got);
      assert forall i | 0 <= i < |got'| :: got'[i] == 0;
      OnlyZeros(xs[1..], got');
    }
  }
}
