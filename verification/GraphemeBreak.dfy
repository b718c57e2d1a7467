/**
 Grapheme cluster boundaries (utf8proc.c, `grapheme_break_simple` and `grapheme_break_extended`)
 against the rules of UAX #29, which look at the whole text before a boundary.  The boundary
 classes and the Indic conjunct break property of each codepoint are given.
 */
module GraphemeBreak {
  // Boundary classes.
  const START := 0
  const OTHER := 1
  const CR := 2
  const LF := 3
  const CONTROL := 4
  const EXTEND := 5
  const L := 6
  const V := 7
  const T := 8
  const LV := 9
  const LVT := 10
  const REGIONAL := 11
  const SPACING := 12
  const PREPEND := 13
  const ZWJ := 14
  const PICTOGRAPHIC := 19
  const E_ZWG := 20

  // The Indic conjunct break property.
  const NONE := 0
  const LINKER := 1
  const CONSONANT := 2
  const JOINER := 3

  /** A codepoint by its boundary class and its Indic conjunct break property. */
  datatype Char = Char(bc: nat, icb: nat) {
    /** What is assumed of the tables. */
    predicate Consistent() {
      && START < bc < E_ZWG && icb <= JOINER
      && (icb == LINKER || icb == JOINER ==> bc == EXTEND || bc == ZWJ)
      && (CR <= bc <= CONTROL ==> icb == NONE)
    }
  }

  ghost predicate AllConsistent(cs: seq<Char>) {
    forall i | 0 <= i < |cs| :: cs[i].Consistent()
  }

  // ------------------------------------------------------------ the code

  /** `grapheme_break_simple`. */
  predicate BreakSimple(l: nat, t: nat) {
    if l == START then true
    else if l == CR && t == LF then false
    else if CR <= l <= CONTROL then true
    else if CR <= t <= CONTROL then true
    else if l == L && (t == L || t == V || t == LV || t == LVT) then false
    else if (l == LV || l == V) && (t == V || t == T) then false
    else if (l == LVT || l == T) && t == T then false
    else if t == EXTEND || t == ZWJ || t == SPACING || l == PREPEND then false
    else if l == E_ZWG && t == PICTOGRAPHIC then false
    else if l == REGIONAL && t == REGIONAL then false
    else true
  }

  /** The two bytes of the state. */
  datatype State = State(bc: nat, icb: nat)

  function Initial(c: Char): State {
    State(c.bc, if c.icb == CONSONANT then c.icb else NONE)
  }

  predicate Permitted(s: State, c: Char) {
    BreakSimple(s.bc, c.bc) && !(s.icb == LINKER && c.icb == CONSONANT)
  }

  function NextIcb(icb: nat, c: Char): nat {
    if c.icb == CONSONANT || icb == CONSONANT || icb == JOINER then c.icb
    else if icb == LINKER then (if c.icb == JOINER then LINKER else c.icb)
    else icb
  }

  function NextBc(bc: nat, c: Char): nat {
    if bc == c.bc && c.bc == REGIONAL then OTHER
    else if bc == PICTOGRAPHIC then
      (if c.bc == EXTEND then PICTOGRAPHIC else if c.bc == ZWJ then E_ZWG else c.bc)
    else c.bc
  }

  function Next(s: State, c: Char): State {
    State(NextBc(s.bc, c), NextIcb(s.icb, c))
  }

  /** `grapheme_break_extended`, with the state as one number; zero asks for a new start. */
  method BreakExtended(l: Char, t: Char, state: nat) returns (permitted: bool, state': nat)
    requires t.bc < 256
    ensures var s := if state == 0 then Initial(l) else State(state % 256, state / 256);
            permitted == Permitted(s, t) && state' == Encoded(Next(s, t))
  {
    var bc, icb;
    if state == 0 {
      bc := l.bc;
      icb := if l.icb == CONSONANT then l.icb else NONE;
    } else {
      bc, icb := state % 256, state / 256;
    }
    permitted := BreakSimple(bc, t.bc) && !(icb == LINKER && t.icb == CONSONANT);
    if t.icb == CONSONANT || icb == CONSONANT || icb == JOINER {
      icb := t.icb;
    } else if icb == LINKER {
      icb := if t.icb == JOINER then LINKER else t.icb;
    }
    if bc == t.bc && t.bc == REGIONAL {
      bc := OTHER;
    } else if bc == PICTOGRAPHIC {
      if t.bc == EXTEND {
        bc := PICTOGRAPHIC;
      } else if t.bc == ZWJ {
        bc := E_ZWG;
      } else {
        bc := t.bc;
      }
    } else {
      bc := t.bc;
    }
    state' := bc + 256 * icb;
  }

  function Encoded(s: State): nat {
    s.bc + 256 * s.icb
  }

  lemma Decoded(s: State)
    requires s.bc < 256
    ensures Encoded(s) % 256 == s.bc && Encoded(s) / 256 == s.icb
  {
  }

  // ------------------------------------------------------------ the rules

  predicate IsControl(bc: nat) {
    bc == CR || bc == LF || bc == CONTROL
  }

  /** GB9c: a consonant, then linkers and joiners with at least one linker, then a consonant. */
  ghost predicate Conjunct(cs: seq<Char>, i: nat)
    requires i < |cs|
  {
    cs[i].icb == CONSONANT && exists j: nat, k: nat :: ConjunctFrom(cs, i, j, k)
  }

  ghost predicate ConjunctFrom(cs: seq<Char>, i: nat, j: nat, k: nat)
    requires i <= |cs|
  {
    j < k < i && cs[j].icb == CONSONANT && cs[k].icb == LINKER && forall m | j < m < i :: cs[m].icb == LINKER || cs[m].icb == JOINER
  }

  /** A pictographic character and then extenders up to `i`. */
  ghost predicate Emoji(cs: seq<Char>, i: nat)
    requires i <= |cs|
  {
    exists j: nat :: EmojiFrom(cs, i, j)
  }

  ghost predicate EmojiFrom(cs: seq<Char>, i: nat, j: nat)
    requires i <= |cs|
  {
    j < i && cs[j].bc == PICTOGRAPHIC && forall m | j < m < i :: cs[m].bc == EXTEND
  }

  /** Regional indicators from `j` up to `i` and none before. */
  ghost predicate RegionalFrom(cs: seq<Char>, i: nat, j: nat)
    requires i <= |cs|
  {
    j <= i && (forall m | j <= m < i :: cs[m].bc == REGIONAL) && (j > 0 ==> cs[j - 1].bc != REGIONAL)
  }

  /** GB12 and GB13: an odd number of regional indicators up to `i`. */
  ghost predicate OddRegional(cs: seq<Char>, i: nat)
    requires i <= |cs|
  {
    exists j: nat :: RegionalFrom(cs, i, j) && (i - j) % 2 == 1
  }

  /** The rules for extended grapheme clusters, GB1 to GB999. */
  ghost predicate Break(cs: seq<Char>, i: nat)
    requires i < |cs|
  {
    if i == 0 then true
    else
      var l, t := cs[i - 1].bc, cs[i].bc;
      if l == CR && t == LF then false
      else if IsControl(l) || IsControl(t) then true
      else !(|| (l == L && (t == L || t == V || t == LV || t == LVT))
             || ((l == LV || l == V) && (t == V || t == T))
             || ((l == LVT || l == T) && t == T)
             || t == EXTEND || t == ZWJ
             || t == SPACING
             || l == PREPEND
             || Conjunct(cs, i)
             || (t == PICTOGRAPHIC && l == ZWJ && Emoji(cs, i - 1))
             || (t == REGIONAL && OddRegional(cs, i)))
  }

  // ------------------------------------------------------------ what the state knows

  /** A consonant and then at least one joiner, and no linker. */
  ghost predicate Joined(cs: seq<Char>, i: nat)
    requires i <= |cs|
  {
    exists j: nat :: j + 1 < i && cs[j].icb == CONSONANT && forall m | j < m < i :: cs[m].icb == JOINER
  }

  ghost predicate Linked(cs: seq<Char>, i: nat)
    requires i <= |cs|
  {
    exists j: nat, k: nat :: ConjunctFrom(cs, i, j, k)
  }

  ghost function IcbAt(cs: seq<Char>, i: nat): nat
    requires 0 < i <= |cs|
  {
    if cs[i - 1].icb == CONSONANT then CONSONANT
    else if Linked(cs, i) then LINKER
    else if Joined(cs, i) then JOINER
    else NONE
  }

  ghost function BcAt(cs: seq<Char>, i: nat): nat
    requires 0 < i <= |cs|
  {
    var l := cs[i - 1].bc;
    if l == REGIONAL then (if OddRegional(cs, i) then REGIONAL else OTHER)
    else if Emoji(cs, i) then PICTOGRAPHIC
    else if l == ZWJ && Emoji(cs, i - 1) then E_ZWG
    else l
  }

  ghost function StateAt(cs: seq<Char>, i: nat): State
    requires 0 < i <= |cs|
  {
    State(BcAt(cs, i), IcbAt(cs, i))
  }

  lemma EmojiStep(cs: seq<Char>, i: nat)
    requires i < |cs|
    ensures Emoji(cs, i + 1) <==> cs[i].bc == PICTOGRAPHIC || (cs[i].bc == EXTEND && Emoji(cs, i))
  {
    if cs[i].bc == PICTOGRAPHIC { assert EmojiFrom(cs, i + 1, i); }
    if cs[i].bc == EXTEND && Emoji(cs, i) {
      var j: nat :| EmojiFrom(cs, i, j);
      assert EmojiFrom(cs, i + 1, j);
    }
    if Emoji(cs, i + 1) {
      var j: nat :| EmojiFrom(cs, i + 1, j);
      if j < i { assert EmojiFrom(cs, i, j); }
    }
  }

  lemma {:induction false} RegionalStart(cs: seq<Char>, i: nat) returns (j: nat)
    requires i <= |cs|
    ensures RegionalFrom(cs, i, j)
  {
    if i > 0 && cs[i - 1].bc == REGIONAL {
      j := RegionalStart(cs, i - 1);
    } else {
      j := i;
    }
  }

  lemma RegionalUnique(cs: seq<Char>, i: nat, j: nat, k: nat)
    requires i <= |cs| && RegionalFrom(cs, i, j) && RegionalFrom(cs, i, k)
    ensures j == k
  {
  }

  lemma RegionalStep(cs: seq<Char>, i: nat)
    requires i < |cs| && cs[i].bc == REGIONAL
    ensures OddRegional(cs, i + 1) <==> !OddRegional(cs, i)
  {
    var j := RegionalStart(cs, i);
    assert RegionalFrom(cs, i + 1, j);
    if OddRegional(cs, i) {
      var k: nat :| RegionalFrom(cs, i, k) && (i - k) % 2 == 1;
      RegionalUnique(cs, i, j, k);
    }
    if OddRegional(cs, i + 1) {
      var k: nat :| RegionalFrom(cs, i + 1, k) && (i + 1 - k) % 2 == 1;
      RegionalUnique(cs, i + 1, j, k);
    }
  }

  lemma NotRegional(cs: seq<Char>, i: nat)
    requires 0 < i <= |cs| && cs[i - 1].bc != REGIONAL
    ensures !OddRegional(cs, i)
  {
  }

  lemma LinkedStep(cs: seq<Char>, i: nat)
    requires 0 < i < |cs|
    ensures Linked(cs, i + 1)
       <==> (|| (cs[i].icb == LINKER && (cs[i - 1].icb == CONSONANT || Joined(cs, i) || Linked(cs, i)))
             || (cs[i].icb == JOINER && Linked(cs, i)))
  {
    if Linked(cs, i + 1) {
      var j: nat, k: nat :| ConjunctFrom(cs, i + 1, j, k);
      assert cs[i].icb == LINKER || cs[i].icb == JOINER;
      if k < i {
        assert ConjunctFrom(cs, i, j, k);
      } else if m :| j < m < i && cs[m].icb == LINKER {
        assert ConjunctFrom(cs, i, j, m);
      } else if j + 1 < i {
        assert Joined(cs, i);
      }
    }
    if (cs[i].icb == LINKER || cs[i].icb == JOINER) && Linked(cs, i) {
      var j: nat, k: nat :| ConjunctFrom(cs, i, j, k);
      assert ConjunctFrom(cs, i + 1, j, k);
    }
    if cs[i].icb == LINKER && cs[i - 1].icb == CONSONANT { assert ConjunctFrom(cs, i + 1, i - 1, i); }
    if cs[i].icb == LINKER && Joined(cs, i) {
      var j: nat :| j + 1 < i && cs[j].icb == CONSONANT && forall m | j < m < i :: cs[m].icb == JOINER;
      assert ConjunctFrom(cs, i + 1, j, i);
    }
  }

  lemma JoinedStep(cs: seq<Char>, i: nat)
    requires 0 < i < |cs|
    ensures Joined(cs, i + 1) <==> cs[i].icb == JOINER && (cs[i - 1].icb == CONSONANT || Joined(cs, i))
  {
    if Joined(cs, i + 1) {
      var j: nat :| j + 1 < i + 1 && cs[j].icb == CONSONANT && forall m | j < m < i + 1 :: cs[m].icb == JOINER;
      assert cs[i].icb == JOINER;
      if j + 1 < i { assert Joined(cs, i); }
    }
    if cs[i].icb == JOINER && cs[i - 1].icb == CONSONANT {
      assert i - 1 + 1 < i + 1 && cs[i - 1].icb == CONSONANT && forall m | i - 1 < m < i + 1 :: cs[m].icb == JOINER;
    }
  }

  lemma LinkedFacts(cs: seq<Char>, i: nat)
    requires 0 < i <= |cs| && AllConsistent(cs)
    ensures Linked(cs, i) ==> cs[i - 1].icb == LINKER || cs[i - 1].icb == JOINER
    ensures Joined(cs, i) ==> cs[i - 1].icb == JOINER
    ensures !(Linked(cs, i) && Joined(cs, i))
  {
  }

  /** The next state is the state for the text with one more character. */
  lemma StateStep(cs: seq<Char>, i: nat)
    requires 0 < i < |cs| && AllConsistent(cs)
    ensures Next(StateAt(cs, i), cs[i]) == StateAt(cs, i + 1)
  {
    BcStep(cs, i);
    IcbStep(cs, i);
  }

  lemma BcStep(cs: seq<Char>, i: nat)
    requires 0 < i < |cs| && AllConsistent(cs)
    ensures NextBc(BcAt(cs, i), cs[i]) == BcAt(cs, i + 1)
  {
    hide Emoji, OddRegional;
    assert cs[i].Consistent() && cs[i - 1].Consistent();
    EmojiStep(cs, i);
    EmojiStep(cs, i - 1);
    if cs[i].bc == REGIONAL { RegionalStep(cs, i); }
    if cs[i - 1].bc != REGIONAL { NotRegional(cs, i); }
  }

  lemma IcbStep(cs: seq<Char>, i: nat)
    requires 0 < i < |cs| && AllConsistent(cs)
    ensures NextIcb(IcbAt(cs, i), cs[i]) == IcbAt(cs, i + 1)
  {
    hide Linked, Joined;
    assert cs[i].Consistent() && cs[i - 1].Consistent();
    LinkedStep(cs, i);
    JoinedStep(cs, i);
    LinkedFacts(cs, i);
    LinkedFacts(cs, i + 1);
  }

  lemma FirstState(cs: seq<Char>)
    requires cs != [] && AllConsistent(cs)
    ensures StateAt(cs, 1) == Initial(cs[0])
  {
    assert cs[0].Consistent();
    if cs[0].bc == REGIONAL { assert RegionalFrom(cs, 1, 0) && (1 - 0) % 2 == 1; }
    if cs[0].bc == PICTOGRAPHIC { assert EmojiFrom(cs, 1, 0); }
  }

  /** The state decides as the rules do. */
  lemma Decides(cs: seq<Char>, i: nat)
    requires 0 < i < |cs| && AllConsistent(cs)
    ensures Permitted(StateAt(cs, i), cs[i]) == Break(cs, i)
  {
    hide Emoji, OddRegional, Linked, Joined;
    assert cs[i].Consistent() && cs[i - 1].Consistent();
    EmojiStep(cs, i - 1);
    LinkedFacts(cs, i);
    assert Conjunct(cs, i) <==> cs[i].icb == CONSONANT && Linked(cs, i) by { ConjunctIs(cs, i); }
    if cs[i - 1].bc != REGIONAL { NotRegional(cs, i); }
  }

  lemma ConjunctIs(cs: seq<Char>, i: nat)
    requires i < |cs|
    ensures Conjunct(cs, i) <==> cs[i].icb == CONSONANT && Linked(cs, i)
  {
  }

  // ------------------------------------------------------------ starting afresh after a break

  /** After a break the state is that of a text that begins there. */
  lemma FreshAfterBreak(cs: seq<Char>, i: nat)
    requires 0 < i < |cs| && AllConsistent(cs) && Break(cs, i)
    ensures StateAt(cs, i + 1) == Initial(cs[i])
  {
    hide Emoji, OddRegional, Linked, Joined, Break;
    assert cs[i].Consistent() && cs[i - 1].Consistent();
    Decides(cs, i);
    StateStep(cs, i);
    EmojiStep(cs, i - 1);
    LinkedFacts(cs, i);
    if cs[i - 1].bc != REGIONAL { NotRegional(cs, i); }
  }

  /** From a break on, the rules need nothing of the text before it. */
  lemma {:induction false} SameStates(cs: seq<Char>, i: nat, k: nat)
    requires i < k <= |cs| && AllConsistent(cs) && Break(cs, i)
    ensures AllConsistent(cs[i..]) && StateAt(cs, k) == StateAt(cs[i..], k - i)
    decreases k
  {
    hide StateAt, Break, Next;
    var ds := cs[i..];
    assert AllConsistent(ds) by { Suffix(cs, i); }
    if k == i + 1 {
      FirstState(ds);
      if i == 0 { FirstState(cs); } else { FreshAfterBreak(cs, i); }
    } else {
      SameStates(cs, i, k - 1);
      StateStep(cs, k - 1);
      StateStep(ds, k - 1 - i);
    }
  }

  lemma Suffix(cs: seq<Char>, i: nat)
    requires i <= |cs| && AllConsistent(cs)
    ensures AllConsistent(cs[i..])
  {
  }

  lemma BreaksFromHere(cs: seq<Char>, i: nat, k: nat)
    requires i < k < |cs| && AllConsistent(cs) && Break(cs, i)
    ensures Break(cs, k) == Break(cs[i..], k - i)
  {
    hide StateAt, Break, Permitted;
    SameStates(cs, i, k);
    Decides(cs, k);
    Decides(cs[i..], k - i);
  }

  // ------------------------------------------------------------ a whole text

  /**
   All the breaks of a text.  The state may be reset to zero after any break, as the
   documentation allows: `resets` says where.
   */
  method Breaks(cs: seq<Char>, resets: seq<bool>) returns (breaks: seq<bool>)
    requires AllConsistent(cs) && |resets| == |cs|
    ensures |breaks| == |cs| && forall i | 0 <= i < |cs| :: breaks[i] == Break(cs, i)
  {
    hide Break, StateAt, Permitted, Next, Initial;
    breaks := [];
    if cs == [] { return; }
    breaks := [true];
    assert Break(cs, 0) by { AtStart(cs); }
    var state := 0;
    FirstState(cs);
    for i := 1 to |cs|
      invariant |breaks| == i && forall k | 0 <= k < i :: breaks[k] == Break(cs, k)
      invariant state == 0 ==> StateAt(cs, i) == Initial(cs[i - 1])
      invariant state != 0 ==> StateAt(cs, i) == State(state % 256, state / 256)
    {
      var permitted;
      assert cs[i].Consistent();
      permitted, state := BreakExtended(cs[i - 1], cs[i], state);
      Decides(cs, i);
      StateStep(cs, i);
      StateSmall(cs, i + 1);
      Decoded(StateAt(cs, i + 1));
      breaks := breaks + [permitted];
      if permitted && resets[i] {
        FreshAfterBreak(cs, i);
        state := 0;
      }
    }
  }

  lemma AtStart(cs: seq<Char>)
    requires cs != []
    ensures Break(cs, 0)
  {
  }

  lemma StateSmall(cs: seq<Char>, i: nat)
    requires 0 < i <= |cs| && AllConsistent(cs)
    ensures 0 < StateAt(cs, i).bc < 256
  {
    hide Emoji, OddRegional, Linked, Joined;
    assert cs[i - 1].Consistent();
  }
}
