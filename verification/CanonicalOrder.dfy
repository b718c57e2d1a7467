/**
 Canonical decomposition and ordering (utf8proc.c, `utf8proc_decompose_char` and the reordering
 loop of `utf8proc_decompose_custom`; section 3.11 of the Unicode Standard).  The Unicode tables
 are parameters.
 */
module CanonicalOrder {
  /** A codepoint, or a negative mark of a grapheme break. */
  type Unit = int

  /** The combining class of each codepoint. */
  type Classes = int -> nat

  /** Marks of grapheme breaks are like starters: nothing moves across them. */
  function Key(ccc: Classes, c: Unit): nat {
    if c < 0 then 0 else ccc(c)
  }

  /** `x` directly before `y` is out of order. */
  predicate Inverted(ccc: Classes, x: Unit, y: Unit) {
    Key(ccc, x) > Key(ccc, y) > 0
  }

  predicate InOrder(ccc: Classes, s: seq<Unit>) {
    forall i | 0 <= i < |s| - 1 :: !Inverted(ccc, s[i], s[i + 1])
  }

  // ------------------------------------------------------------ the reference

  /** `c` goes behind the units before the next starter that have a lower class. */
  function Place(ccc: Classes, c: Unit, t: seq<Unit>): (r: seq<Unit>)
    ensures |r| == |t| + 1
  {
    if t == [] || !Inverted(ccc, c, t[0]) then [c] + t else [t[0]] + Place(ccc, c, t[1..])
  }

  /** Each run between starters sorted by class, stably, by insertion. */
  function Sorted(ccc: Classes, s: seq<Unit>): (r: seq<Unit>)
    ensures |r| == |s|
  {
    if s == [] then [] else Place(ccc, s[0], Sorted(ccc, s[1..]))
  }

  /** Two units that are out of order may be placed in either order. */
  lemma {:induction false} PlaceBoth(ccc: Classes, x: Unit, y: Unit, t: seq<Unit>)
    requires Inverted(ccc, x, y)
    ensures Place(ccc, x, Place(ccc, y, t)) == Place(ccc, y, Place(ccc, x, t))
    decreases |t|
  {
    if t != [] && Inverted(ccc, y, t[0]) {
      PlaceBoth(ccc, x, y, t[1..]);
      var u, v := Place(ccc, y, t[1..]), Place(ccc, x, t[1..]);
      assert ([t[0]] + u)[1..] == u && ([t[0]] + v)[1..] == v;
    } else {
      assert ([y] + t)[1..] == t;
    }
  }

  function Swapped(s: seq<Unit>, i: nat): (r: seq<Unit>)
    requires i + 1 < |s|
    ensures |r| == |s|
  {
    s[i := s[i + 1]][i + 1 := s[i]]
  }

  /** Exchanging neighbours that are out of order does not change the result. */
  lemma {:induction false} SwapKeeps(ccc: Classes, s: seq<Unit>, i: nat)
    requires i + 1 < |s| && Inverted(ccc, s[i], s[i + 1])
    ensures Sorted(ccc, Swapped(s, i)) == Sorted(ccc, s)
    decreases i
  {
    hide Inverted, Place;
    var r := Swapped(s, i);
    if i == 0 {
      var t := s[2..];
      assert s[1..][1..] == t && r[1..][1..] == t;
      PlaceBoth(ccc, s[0], s[1], Sorted(ccc, t));
    } else {
      assert r[1..] == Swapped(s[1..], i - 1);
      SwapKeeps(ccc, s[1..], i - 1);
    }
  }

  /** What is in order stays as it is. */
  lemma {:induction false} OrderedIsSorted(ccc: Classes, s: seq<Unit>)
    requires InOrder(ccc, s)
    ensures Sorted(ccc, s) == s
    decreases |s|
  {
    hide Inverted;
    if s != [] {
      OrderedTail(ccc, s);
      OrderedIsSorted(ccc, s[1..]);
      if |s| > 1 { assert !Inverted(ccc, s[0], s[1]); }
      assert s == [s[0]] + s[1..];
    }
  }

  lemma OrderedTail(ccc: Classes, s: seq<Unit>)
    requires InOrder(ccc, s) && s != []
    ensures InOrder(ccc, s[1..])
  {
    hide Inverted;
    forall i | 0 <= i < |s[1..]| - 1 ensures !Inverted(ccc, s[1..][i], s[1..][i + 1]) {
      assert !Inverted(ccc, s[i + 1], s[i + 2]);
    }
  }

  // ------------------------------------------------------------ what sorted means

  lemma {:induction false} PlaceInOrder(ccc: Classes, c: Unit, t: seq<Unit>)
    requires InOrder(ccc, t)
    ensures InOrder(ccc, Place(ccc, c, t))
    ensures var r := Place(ccc, c, t); r[0] == c || (t != [] && r[0] == t[0] && Inverted(ccc, c, t[0]))
    decreases |t|
  {
    if t != [] && Inverted(ccc, c, t[0]) {
      OrderedTail(ccc, t);
      PlaceInOrder(ccc, c, t[1..]);
      var u := Place(ccc, c, t[1..]);
      assert !Inverted(ccc, t[0], u[0]);
      Prefixed(ccc, t[0], u);
    } else {
      Prefixed(ccc, c, t);
    }
  }

  lemma Prefixed(ccc: Classes, c: Unit, t: seq<Unit>)
    requires InOrder(ccc, t) && (t != [] ==> !Inverted(ccc, c, t[0]))
    ensures InOrder(ccc, [c] + t)
  {
    hide Inverted;
    var r := [c] + t;
    forall i | 0 <= i < |r| - 1 ensures !Inverted(ccc, r[i], r[i + 1]) {
      if i > 0 { assert !Inverted(ccc, t[i - 1], t[i]); }
    }
  }

  /** The result is in order. */
  lemma {:induction false} SortedInOrder(ccc: Classes, s: seq<Unit>)
    ensures InOrder(ccc, Sorted(ccc, s))
    decreases |s|
  {
    hide Inverted, Place;
    if s != [] {
      SortedInOrder(ccc, s[1..]);
      PlaceInOrder(ccc, s[0], Sorted(ccc, s[1..]));
    }
  }

  /** The units of class `k` before the first starter, in their order. */
  function OfClass(ccc: Classes, s: seq<Unit>, k: nat): seq<Unit> {
    if s == [] || Key(ccc, s[0]) == 0 then []
    else (if Key(ccc, s[0]) == k then [s[0]] else []) + OfClass(ccc, s[1..], k)
  }

  /** What comes from the first starter on. */
  function FromStarter(ccc: Classes, s: seq<Unit>): seq<Unit> {
    if s == [] || Key(ccc, s[0]) == 0 then s else FromStarter(ccc, s[1..])
  }

  lemma {:induction false} PlaceClass(ccc: Classes, c: Unit, t: seq<Unit>, k: nat)
    requires Key(ccc, c) > 0
    ensures OfClass(ccc, Place(ccc, c, t), k) == (if Key(ccc, c) == k then [c] else []) + OfClass(ccc, t, k)
    ensures FromStarter(ccc, Place(ccc, c, t)) == FromStarter(ccc, t)
    decreases |t|
  {
    if t != [] && Inverted(ccc, c, t[0]) {
      PlaceClass(ccc, c, t[1..], k);
      var u := Place(ccc, c, t[1..]);
      assert ([t[0]] + u)[1..] == u;
    } else {
      assert ([c] + t)[1..] == t;
    }
  }

  /**
   Within the first run every class keeps its units in their order, and no unit crosses the
   starter that ends it; what follows is sorted by itself.
   */
  lemma {:induction false} SortedIsStable(ccc: Classes, s: seq<Unit>, k: nat)
    ensures OfClass(ccc, Sorted(ccc, s), k) == OfClass(ccc, s, k)
    ensures FromStarter(ccc, Sorted(ccc, s)) == Sorted(ccc, FromStarter(ccc, s))
    decreases |s|
  {
    if s != [] {
      SortedIsStable(ccc, s[1..], k);
      if Key(ccc, s[0]) > 0 {
        PlaceClass(ccc, s[0], Sorted(ccc, s[1..]), k);
      } else {
        StarterStays(ccc, s);
      }
    }
  }

  /** A starter stays, and the rest is sorted by itself. */
  lemma StarterStays(ccc: Classes, s: seq<Unit>)
    requires s != [] && Key(ccc, s[0]) == 0
    ensures Sorted(ccc, s) == [s[0]] + Sorted(ccc, s[1..])
  {
  }

  lemma {:induction false} PlaceMultiset(ccc: Classes, c: Unit, t: seq<Unit>)
    ensures multiset(Place(ccc, c, t)) == multiset{c} + multiset(t)
    decreases |t|
  {
    hide Inverted;
    if t != [] && Inverted(ccc, c, t[0]) {
      PlaceMultiset(ccc, c, t[1..]);
      assert t == [t[0]] + t[1..];
    }
  }

  lemma {:induction false} SortedMultiset(ccc: Classes, s: seq<Unit>)
    ensures multiset(Sorted(ccc, s)) == multiset(s)
    decreases |s|
  {
    hide Place;
    if s != [] {
      SortedMultiset(ccc, s[1..]);
      PlaceMultiset(ccc, s[0], Sorted(ccc, s[1..]));
      assert s == [s[0]] + s[1..];
    }
  }

  // ------------------------------------------------------------ the loop ends

  /** How many units of lower class `c` stands before, up to the next starter. */
  function Passed(ccc: Classes, c: Unit, t: seq<Unit>): nat {
    if t == [] || Key(ccc, t[0]) == 0 then 0
    else (if Key(ccc, c) > Key(ccc, t[0]) then 1 else 0) + Passed(ccc, c, t[1..])
  }

  function Inversions(ccc: Classes, s: seq<Unit>): nat {
    if s == [] then 0 else Passed(ccc, s[0], s[1..]) + Inversions(ccc, s[1..])
  }

  lemma {:induction false} PassedSwap(ccc: Classes, c: Unit, t: seq<Unit>, i: nat)
    requires i + 1 < |t| && Inverted(ccc, t[i], t[i + 1])
    ensures Passed(ccc, c, Swapped(t, i)) == Passed(ccc, c, t)
    decreases i
  {
    var u := Swapped(t, i);
    if i == 0 {
      assert t[1..][1..] == t[2..] && u[1..][1..] == t[2..];
    } else {
      assert u[1..] == Swapped(t[1..], i - 1);
      PassedSwap(ccc, c, t[1..], i - 1);
    }
  }

  lemma {:induction false} FewerInversions(ccc: Classes, s: seq<Unit>, i: nat)
    requires i + 1 < |s| && Inverted(ccc, s[i], s[i + 1])
    ensures Inversions(ccc, Swapped(s, i)) == Inversions(ccc, s) - 1
    decreases i
  {
    var u := Swapped(s, i);
    if i == 0 {
      assert s[1..][1..] == s[2..] && u[1..][1..] == s[2..];
    } else {
      assert u[1..] == Swapped(s[1..], i - 1);
      FewerInversions(ccc, s[1..], i - 1);
      PassedSwap(ccc, s[0], s[1..], i - 1);
    }
  }

  // ------------------------------------------------------------ the loop

  /** The neighbours below `pos` are in order. */
  predicate OrderedTo(ccc: Classes, s: seq<Unit>, pos: nat) {
    forall i | 0 <= i < pos && i < |s| - 1 :: !Inverted(ccc, s[i], s[i + 1])
  }

  /** The reordering loop, in place. */
  method Reorder(ccc: Classes, buffer: array<Unit>, wpos: nat)
    requires wpos <= buffer.Length
    modifies buffer
    ensures buffer[..wpos] == Sorted(ccc, old(buffer[..wpos]))
    ensures buffer[wpos..] == old(buffer[wpos..])
  {
    hide Sorted, Inversions, OrderedTo;
    var pos := 0;
    StartOrdered(ccc, buffer[..wpos]);
    while pos < wpos - 1
      invariant 0 <= pos && OrderedTo(ccc, buffer[..wpos], pos)
      invariant Sorted(ccc, buffer[..wpos]) == Sorted(ccc, old(buffer[..wpos])) && buffer[wpos..] == old(buffer[wpos..])
      decreases Inversions(ccc, buffer[..wpos]), wpos - pos
    {
      ghost var s := buffer[..wpos];
      var uc1, uc2 := buffer[pos], buffer[pos + 1];
      if uc1 < 0 {
        OneFurther(ccc, s, pos);
        pos := pos + 1;
      } else if uc2 < 0 {
        OneFurther(ccc, s, pos);
        OneFurther(ccc, s, pos + 1);
        pos := pos + 2;
      } else if ccc(uc1) > ccc(uc2) > 0 {
        SwapKeeps(ccc, s, pos);
        FewerInversions(ccc, s, pos);
        buffer[pos], buffer[pos + 1] := uc2, uc1;
        assert buffer[..wpos] == Swapped(s, pos);
        AfterSwap(ccc, s, pos);
        if pos > 0 { pos := pos - 1; } else { pos := pos + 1; }
      } else {
        OneFurther(ccc, s, pos);
        pos := pos + 1;
      }
    }
    AllOrdered(ccc, buffer[..wpos], pos);
    OrderedIsSorted(ccc, buffer[..wpos]);
  }

  lemma StartOrdered(ccc: Classes, s: seq<Unit>)
    ensures OrderedTo(ccc, s, 0)
  {
  }

  lemma OneFurther(ccc: Classes, s: seq<Unit>, pos: nat)
    requires OrderedTo(ccc, s, pos) && (pos + 1 < |s| ==> !Inverted(ccc, s[pos], s[pos + 1]))
    ensures OrderedTo(ccc, s, pos + 1)
  {
  }

  lemma AfterSwap(ccc: Classes, s: seq<Unit>, pos: nat)
    requires OrderedTo(ccc, s, pos) && pos + 1 < |s| && Inverted(ccc, s[pos], s[pos + 1])
    ensures OrderedTo(ccc, Swapped(s, pos), if pos > 0 then pos - 1 else 1)
  {
    var r := Swapped(s, pos);
    var p := if pos > 0 then pos - 1 else 1;
    forall i | 0 <= i < p && i < |r| - 1 ensures !Inverted(ccc, r[i], r[i + 1]) {
      if pos > 0 { assert !Inverted(ccc, s[i], s[i + 1]); }
    }
  }

  lemma AllOrdered(ccc: Classes, s: seq<Unit>, pos: nat)
    requires OrderedTo(ccc, s, pos) && pos >= |s| - 1
    ensures InOrder(ccc, s)
  {
  }

  // ------------------------------------------------------------ decomposition

  const S_BASE := 0xAC00
  const L_BASE := 0x1100
  const V_BASE := 0x1161
  const T_BASE := 0x11A7
  const N_COUNT := 588
  const T_COUNT := 28
  const S_COUNT := 11172

  predicate Hangul(c: int) {
    S_BASE <= c < S_BASE + S_COUNT
  }

  /** A Hangul syllable is decomposed by arithmetic. */
  function HangulParts(c: int): seq<int>
    requires Hangul(c)
  {
    var i := c - S_BASE;
    var lv := [L_BASE + i / N_COUNT, V_BASE + i % N_COUNT / T_COUNT];
    if i % T_COUNT == 0 then lv else lv + [T_BASE + i % T_COUNT]
  }

  predicate Jamo(c: int) {
    L_BASE <= c < L_BASE + 19 || V_BASE <= c < V_BASE + 21 || T_BASE < c < T_BASE + T_COUNT
  }

  lemma PartsAreJamo(c: int)
    requires Hangul(c)
    ensures forall e | e in HangulParts(c) :: Jamo(e) && !Hangul(e)
  {
    var i := c - S_BASE;
    assert 0 <= i / N_COUNT < 19 && 0 <= i % N_COUNT / T_COUNT < 21 && 0 <= i % T_COUNT < 28;
  }

  /** The parts compose back to the syllable: a leading consonant, a vowel and, for all but some, a trailing consonant. */
  lemma PartsCompose(c: int)
    requires Hangul(c)
    ensures var p := HangulParts(c);
            && 2 <= |p| <= 3 && L_BASE <= p[0] < L_BASE + 19 && V_BASE <= p[1] < V_BASE + 21
            && (|p| == 3 ==> T_BASE < p[2] < T_BASE + 28)
            && c == S_BASE + ((p[0] - L_BASE) * 21 + (p[1] - V_BASE)) * 28 + if |p| == 3 then p[2] - T_BASE else 0
  {
    var i := c - S_BASE;
    assert i == i / 588 * 588 + i % 588 && i % 588 == i % 588 / 28 * 28 + i % 588 % 28 && i % 588 % 28 == i % 28;
    assert 0 <= i / N_COUNT < 19 && 0 <= i % N_COUNT / T_COUNT < 21;
  }

  /** The canonical mappings, with a rank that shows that they do not go round in circles. */
  datatype Mappings = Mappings(to: map<int, seq<int>>, rank: int -> nat) {
    ghost predicate Consistent() {
      && (forall c, e | c in to && e in to[c] :: rank(e) < rank(c))
      && (forall c | c in to :: !Jamo(c))
    }
  }

  /** `utf8proc_decompose_char`: the full decomposition of a codepoint. */
  ghost function Full(m: Mappings, c: int): seq<int>
    requires m.Consistent()
    decreases 2 * m.rank(c) + 1, 0
  {
    if Hangul(c) then HangulParts(c)
    else if c in m.to then FullAll(m, m.to[c], m.rank(c))
    else [c]
  }

  /** `seqindex_write_char_decomposed`. */
  ghost function FullAll(m: Mappings, s: seq<int>, bound: nat): seq<int>
    requires m.Consistent() && forall e | e in s :: m.rank(e) < bound
    decreases 2 * bound, |s|
  {
    if s == [] then [] else Full(m, s[0]) + FullAll(m, s[1..], bound)
  }

  /** Nothing more to decompose. */
  predicate Settled(m: Mappings, c: int) {
    !Hangul(c) && c !in m.to
  }

  lemma {:induction false} FullSettles(m: Mappings, c: int)
    requires m.Consistent()
    ensures forall e | e in Full(m, c) :: Settled(m, e)
    decreases 2 * m.rank(c) + 1, 0
  {
    if Hangul(c) {
      PartsAreJamo(c);
    } else if c in m.to {
      FullAllSettles(m, m.to[c], m.rank(c));
    }
  }

  lemma {:induction false} FullAllSettles(m: Mappings, s: seq<int>, bound: nat)
    requires m.Consistent() && forall e | e in s :: m.rank(e) < bound
    ensures forall e | e in FullAll(m, s, bound) :: Settled(m, e)
    decreases 2 * bound, |s|
  {
    hide Settled;
    if s != [] {
      FullSettles(m, s[0]);
      FullAllSettles(m, s[1..], bound);
    }
  }

  /** The decomposition of a string. */
  ghost function Decomposed(m: Mappings, s: seq<int>): seq<int>
    requires m.Consistent()
  {
    if s == [] then [] else Full(m, s[0]) + Decomposed(m, s[1..])
  }

  lemma {:induction false} FullAllIs(m: Mappings, s: seq<int>, bound: nat)
    requires m.Consistent() && forall e | e in s :: m.rank(e) < bound
    ensures FullAll(m, s, bound) == Decomposed(m, s)
    decreases |s|
  {
    hide Full;
    if s != [] { FullAllIs(m, s[1..], bound); }
  }

  /** What a codepoint decomposes to: its parts, the decomposition of its mapping from left to right, or itself. */
  lemma FullIs(m: Mappings, c: int)
    requires m.Consistent()
    ensures Hangul(c) ==> Full(m, c) == HangulParts(c)
    ensures !Hangul(c) && c in m.to ==> Full(m, c) == Decomposed(m, m.to[c])
    ensures Settled(m, c) ==> Full(m, c) == [c]
  {
    hide FullAll, Decomposed, HangulParts;
    if !Hangul(c) && c in m.to { FullAllIs(m, m.to[c], m.rank(c)); }
  }

  /** A string is decomposed codepoint by codepoint, in order. */
  lemma {:induction false} DecomposedConcat(m: Mappings, s: seq<int>, t: seq<int>)
    requires m.Consistent()
    ensures Decomposed(m, s + t) == Decomposed(m, s) + Decomposed(m, t)
    decreases |s|
  {
    hide Full;
    if s == [] {
      assert s + t == t;
    } else {
      DecomposedConcat(m, s[1..], t);
      assert (s + t)[1..] == s[1..] + t;
    }
  }

  lemma DecomposedOne(m: Mappings, c: int)
    requires m.Consistent()
    ensures Decomposed(m, [c]) == Full(m, c)
  {
    hide Full;
    assert [c][1..] == [] && Full(m, c) + [] == Full(m, c);
  }

  /** A letter with an accent comes apart into the letter and then the accent. */
  lemma LetterThenAccent(m: Mappings, c: int, letter: int, accent: int)
    requires m.Consistent() && !Hangul(c) && c in m.to && m.to[c] == [letter, accent] && Settled(m, letter) && Settled(m, accent)
    ensures Decomposed(m, [c]) == [letter, accent]
  {
    hide Full, Decomposed, Settled;
    DecomposedOne(m, c);
    FullIs(m, c);
    assert [letter, accent] == [letter] + [accent];
    DecomposedConcat(m, [letter], [accent]);
    DecomposedOne(m, letter);
    DecomposedOne(m, accent);
    FullIs(m, letter);
    FullIs(m, accent);
  }

  lemma {:induction false} DecomposedSettles(m: Mappings, s: seq<int>)
    requires m.Consistent()
    ensures forall e | e in Decomposed(m, s) :: Settled(m, e)
    decreases |s|
  {
    hide Settled, Full;
    if s != [] {
      FullSettles(m, s[0]);
      DecomposedSettles(m, s[1..]);
    }
  }

  lemma {:induction false} SettledStays(m: Mappings, s: seq<int>)
    requires m.Consistent() && forall e | e in s :: Settled(m, e)
    ensures Decomposed(m, s) == s
    decreases |s|
  {
    if s != [] {
      assert s[0] in s;
      SettledStays(m, s[1..]);
      assert s == [s[0]] + s[1..];
    }
  }

  /** Normalization form D: decomposed and in canonical order. */
  ghost function Nfd(m: Mappings, ccc: Classes, s: seq<int>): seq<int>
    requires m.Consistent()
  {
    Sorted(ccc, Decomposed(m, s))
  }

  lemma NfdIdempotent(m: Mappings, ccc: Classes, s: seq<int>)
    requires m.Consistent()
    ensures Nfd(m, ccc, Nfd(m, ccc, s)) == Nfd(m, ccc, s)
  {
    hide Sorted, Decomposed, Settled;
    var d := Decomposed(m, s);
    var r := Sorted(ccc, d);
    DecomposedSettles(m, s);
    SortedMultiset(ccc, d);
    forall e | e in r ensures Settled(m, e) {
      assert e in multiset(r);
      assert e in multiset(d);
    }
    SettledStays(m, r);
    SortedInOrder(ccc, d);
    OrderedIsSorted(ccc, r);
  }
}
