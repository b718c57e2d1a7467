/**
 Streams given as bytes, with what the decoder makes of them: a stored block, a block with the
 fixed codes and a block with codes of its own.  Nothing here was made by the encoder, and the
 tables of section 3.2 of RFC 1951 appear as they stand there.
 */
module KnownStreams {
  import opened Bits
  import opened CanonicalCode
  import opened InflateTable
  import opened InflateSpec
  import opened InflateFixed
  import opened BitOutput
  import opened BlockHeader
  import opened BlockData
  import opened StaticTrees

  // ------------------------------------------------------------ the tables of the format

  /** Section 3.2.7: the order of the lengths of the code length code. */
  lemma OrderIs()
    ensures seq(19, i requires 0 <= i < 19 => Order(i)) == [16, 17, 18, 0, 8, 7, 9, 6, 10, 5, 11, 4, 12, 3, 13, 2, 14, 1, 15]
    ensures forall i | 0 <= i < 19 :: Place(Order(i)) == i && Order(Place(i)) == i
  {
    forall i | 0 <= i < 19 ensures Place(Order(i)) == i && Order(Place(i)) == i { OrderInverse(i); }
  }

  /** Section 3.2.5: the lengths that the codes stand for, and their extra bits. */
  lemma LengthsAre(i: nat)
    requires i < 29
    ensures LengthBase(i)
         == [3, 4, 5, 6, 7, 8, 9, 10, 11, 13, 15, 17, 19, 23, 27, 31, 35, 43, 51, 59, 67, 83, 99, 115, 131, 163, 195, 227, 258][i]
    ensures LengthOp(i) == 16 + [0, 0, 0, 0, 0, 0, 0, 0, 1, 1, 1, 1, 2, 2, 2, 2, 3, 3, 3, 3, 4, 4, 4, 4, 5, 5, 5, 5, 0][i]
  {
  }

  /** The same for distances. */
  lemma DistancesAre(i: nat)
    requires i < 30
    ensures DistBase(i)
         == [1, 2, 3, 4, 5, 7, 9, 13, 17, 25, 33, 49, 65, 97, 129, 193, 257, 385, 513, 769, 1025, 1537, 2049, 3073,
             4097, 6145, 8193, 12289, 16385, 24577][i]
    ensures DistOp(i) == 16 + [0, 0, 0, 0, 1, 1, 2, 2, 3, 3, 4, 4, 5, 5, 6, 6, 7, 7, 8, 8, 9, 9, 10, 10, 11, 11, 12, 12, 13, 13][i]
  {
  }

  // ------------------------------------------------------------ bits by numbers

  /** The `n` low bytes of `m`, the lowest first. */
  function Bytes(m: nat, n: nat): (s: seq<Byte>)
    ensures |s| == n
  {
    if n == 0 then [] else [m % 256] + Bytes(m / 256, n - 1)
  }

  /** The stream of bytes is the number, bit by bit. */
  lemma {:induction false} BytesAreBits(m: nat, n: nat)
    ensures BytesToBits(Bytes(m, n)) == ToBits(m, 8 * n)
    decreases n
  {
    hide ToBits, BytesToBits, Two;
    if n == 0 {
      NoBitsHere(m);
    } else {
      BytesAreBits(m / 256, n - 1);
      OneByte(m % 256);
      BytesToBitsConcat([m % 256], Bytes(m / 256, n - 1));
      ByteInFront(m, 8 * (n - 1));
      assert 8 + 8 * (n - 1) == 8 * n;
    }
  }

  lemma ByteInFront(m: nat, n: nat)
    ensures ToBits(m, 8 + n) == ToBits(m % 256, 8) + ToBits(m / 256, n)
  {
    hide ToBits;
    Split(m % 256, m / 256, 8, n);
  }

  lemma NoBitsHere(m: nat)
    ensures ToBits(m, 0) == [] && BytesToBits([]) == []
  {
  }

  lemma SplitAt(v: nat, m: nat, k: nat, n: nat)
    requires v < Pow2(k)
    ensures ToBits(v + Pow2(k) * m, k + n) == ToBits(v, k) + ToBits(m, n)
  {
    hide ToBits, Low, Shr;
    var x := v + Pow2(k) * m;
    SplitUnique(v, m, k);
    ToBitsSplit(x, k, n);
    ToBitsLow(x, k);
    LowSmall(v, k);
  }

  lemma Split(v: nat, m: nat, k: nat, n: nat)
    requires k <= 9 && v < Two(k)
    ensures ToBits(v + Two(k) * m, k + n) == ToBits(v, k) + ToBits(m, n)
  {
    hide ToBits, Two;
    TwoIs(k);
    SplitAt(v, m, k, n);
  }

  lemma LargePowers()
    ensures Pow2(48) == 0x1_0000_0000_0000 && Pow2(54) == 0x40_0000_0000_0000
  {
    assert Pow2(6) == 64 && Pow2(16) == 65536;
    Pow2Add(16, 16);
    Pow2Add(32, 16);
    Pow2Add(48, 6);
  }

  /** Small powers of two. */
  function Two(k: nat): nat {
    match k
    case 0 => 1 case 1 => 2 case 2 => 4 case 3 => 8 case 4 => 16 case 5 => 32 case 6 => 64 case 7 => 128 case 8 => 256 case _ => 512
  }

  lemma TwoIs(k: nat)
    requires k <= 9
    ensures Two(k) == Pow2(k)
  {
    assert Pow2(0) == 1 && Pow2(1) == 2 && Pow2(2) == 4 && Pow2(3) == 8 && Pow2(4) == 16;
    assert Pow2(5) == 32 && Pow2(6) == 64 && Pow2(7) == 128 && Pow2(8) == 256 && Pow2(9) == 512;
  }

  /** The `l` bits of `w`, the `k` bits of `x`, and then `m`. */
  function Packed(w: nat, l: nat, x: nat, k: nat, m: nat): nat {
    w + Two(l) * (x + Two(k) * m)
  }

  /** A field of `k` bits in front. */
  lemma Field(v: nat, m: nat, k: nat, n: nat)
    requires k <= 9 && v < Two(k)
    ensures var s := ToBits(v + Two(k) * m, k + n); |s| == k + n && Value(s, k) == v && s[k..] == ToBits(m, n)
  {
    hide ToBits, Value, Two;
    TwoIs(k);
    Split(v, m, k, n);
    ValueBack(v, k, ToBits(m, n));
  }

  // ------------------------------------------------------------ steps of the machine

  lemma Go(c: Core, d: Core, e: Core)
    requires Follows(c, d) && Step(d) == Some(e)
    ensures Follows(c, e)
  {
    hide Step, Follows;
    FollowsStep(d);
    FollowsTrans(c, d, e);
  }

  /** The code word of `s` is the `l` bits of `w`, the first one lowest. */
  ghost predicate Word(lens: seq<nat>, s: nat, l: nat, w: nat) {
    s < |lens| && 0 < l <= 9 && lens[s] == l && w < Two(l) && Rev(l, Code(lens, s)) == w
  }

  lemma WordThere(kind: CodeType, lens: seq<nat>, s: nat, l: nat, w: nat, m: nat, n: nat)
    requires Usable(kind, lens) && Word(lens, s, l, w) && |lens| <= MaxSymbols(kind)
    ensures Find(kind, lens, ToBits(w + Two(l) * m, l + n)) == Some(SymbolEntry(kind, s, l))
    ensures ToBits(w + Two(l) * m, l + n)[l..] == ToBits(m, n)
  {
    hide ToBits, Find, SymbolEntry, Usable, Rev, Code, Two, Value;
    Split(w, m, l, n);
    WordFound(kind, lens, s, ToBits(m, n));
    Field(w, m, l, n);
  }

  /** Lengths of three bits each. */
  function Threes(m: nat, k: nat): (s: seq<nat>)
    ensures |s| == k
  {
    if k == 0 then [] else [m % 8] + Threes(m / 8, k - 1)
  }

  lemma ThreeStep(c: Core, v: nat, rest: seq<bool>)
    requires c.mode.LenLens? && |c.mode.got| < c.mode.ncode && v < 8 && c.input == ToBits(v, 3) + rest
    ensures Step(c) == Some(c.(mode := LenLens(c.mode.nlen, c.mode.ndist, c.mode.ncode, c.mode.got + [v]), input := rest))
  {
    hide ToBits, Value, Builds, CodeLengthCode;
    ThreeBits();
    ValueBack(v, 3, rest);
  }

  lemma NoThrees(got: seq<nat>, m: nat)
    ensures got + Threes(m, 0) == got
  {
  }

  lemma ThreesNext(got: seq<nat>, m: nat, k: nat)
    requires k > 0
    ensures got + [m % 8] + Threes(m / 8, k - 1) == got + Threes(m, k)
  {
  }

  lemma {:induction false} ThreesRead(c: Core, m: nat, k: nat, rest: seq<bool>)
    requires c.mode.LenLens? && |c.mode.got| + k <= c.mode.ncode && c.input == ToBits(m, 3 * k) + rest
    ensures Follows(c, c.(mode := LenLens(c.mode.nlen, c.mode.ndist, c.mode.ncode, c.mode.got + Threes(m, k)), input := rest))
    decreases k
  {
    hide ToBits, Follows, Step, Threes;
    if k == 0 {
      NoThrees(c.mode.got, m);
      assert c.input == rest;
      FollowsHere(c);
    } else {
      Split(m % 8, m / 8, 3, 3 * (k - 1));
      var more := ToBits(m / 8, 3 * (k - 1)) + rest;
      assert c.input == ToBits(m % 8, 3) + more;
      ThreeStep(c, m % 8, more);
      var d := c.(mode := LenLens(c.mode.nlen, c.mode.ndist, c.mode.ncode, c.mode.got + [m % 8]), input := more);
      FollowsStep(c);
      ThreesRead(d, m / 8, k - 1, rest);
      ThreesNext(c.mode.got, m, k);
      FollowsTrans(c, d, c.(mode := LenLens(c.mode.nlen, c.mode.ndist, c.mode.ncode, c.mode.got + Threes(m, k)), input := rest));
    }
  }

  lemma TypeStep(c: Core, t: nat, last: bool, m: nat, n: nat)
    requires c.mode == Type && !c.last && t < 4 && c.input == ToBits((if last then 1 else 0) + 2 * t + 8 * m, 3 + n)
    ensures Step(c) == Some(c.(mode := BlockMode(t), last := last, input := ToBits(m, n)))
  {
    hide ToBits, BlockMode, Value;
    var b := if last then 1 else 0;
    Split(b, t + 4 * m, 1, 2 + n);
    Field(t, m, 2, n);
    FirstBit(b);
    assert c.input == ToBits(b, 1) + ToBits(t + 4 * m, 2 + n);
    assert c.input[1..] == ToBits(t + 4 * m, 2 + n);
    assert c.input[3..] == c.input[1..][2..];
  }

  lemma FirstBit(b: nat)
    requires b < 2
    ensures ToBits(b, 1) == [b == 1]
  {
    assert ToBits(b / 2, 0) == [];
  }

  lemma SizesStep(c: Core, x: nat, y: nat, z: nat, m: nat, n: nat)
    requires c.mode == Table && x <= 29 && y <= 29 && z < 16 && c.input == ToBits(x + 32 * (y + 32 * (z + 16 * m)), 14 + n)
    ensures Step(c) == Some(c.(mode := LenLens(x + 257, y + 1, z + 4, []), input := ToBits(m, n)))
  {
    hide ToBits, Value;
    var b := ToBits(y + 32 * (z + 16 * m), 9 + n);
    Field(x, y + 32 * (z + 16 * m), 5, 9 + n);
    Field(y, z + 16 * m, 5, 4 + n);
    Field(z, m, 4, n);
    assert c.input[10..] == c.input[5..][5..] && c.input[14..] == c.input[10..][4..];
  }

  lemma PlainStep(c: Core, s: nat, l: nat, w: nat, m: nat, n: nat)
    requires c.mode.CodeLens? && |c.mode.clens| == 19 && Usable(CODES, c.mode.clens) && Word(c.mode.clens, s, l, w) && s < 16
    requires |c.mode.got| < c.mode.nlen + c.mode.ndist && c.input == ToBits(w + Two(l) * m, l + n)
    ensures Step(c) == Some(c.(mode := CodeLens(c.mode.nlen, c.mode.ndist, c.mode.clens, c.mode.got + [s]), input := ToBits(m, n)))
  {
    hide ToBits, Find, Usable, Rev, Code, Two, BlockCodes, SymbolEntry, Word;
    assert s < 19 && c.mode.clens[s] == l by { WordFacts(c.mode.clens, s, l, w); }
    WordThere(CODES, c.mode.clens, s, l, w, m, n);
    CodesEntry(s, l);
  }

  lemma WordFacts(lens: seq<nat>, s: nat, l: nat, w: nat)
    requires Word(lens, s, l, w)
    ensures s < |lens| && 0 < l <= 9 && lens[s] == l && w < Two(l)
  {
  }

  lemma RepeatStep(c: Core, s: nat, l: nat, w: nat, x: nat, m: nat, n: nat)
    requires c.mode.CodeLens? && |c.mode.clens| == 19 && Usable(CODES, c.mode.clens) && Word(c.mode.clens, s, l, w) && 16 <= s < 19
    requires x < Two(RepeatBits(s)) && c.input == ToBits(Packed(w, l, x, RepeatBits(s), m), l + RepeatBits(s) + n)
    requires |c.mode.got| + RepeatBase(s) + x <= c.mode.nlen + c.mode.ndist && (s == 16 ==> c.mode.got != [])
    ensures Step(c) == Some(c.(mode := CodeLens(c.mode.nlen, c.mode.ndist, c.mode.clens,
                                 c.mode.got + Repeat(if s == 16 then c.mode.got[|c.mode.got| - 1] else 0, RepeatBase(s) + x)),
                               input := ToBits(m, n)))
  {
    hide ToBits, Find, Usable, Rev, Code, Two, BlockCodes, SymbolEntry, Word, Value, Repeat;
    assert s < 19 && c.mode.clens[s] == l by { WordFacts(c.mode.clens, s, l, w); }
    var k := RepeatBits(s);
    WordThere(CODES, c.mode.clens, s, l, w, x + Two(k) * m, k + n);
    CodesEntry(s, l);
    Field(x, m, k, n);
    assert c.input[l + k..] == c.input[l..][k..];
  }

  /** A literal, read and written. */
  lemma LiteralSteps(c: Core, s: nat, l: nat, w: nat, m: nat, n: nat)
    requires c.mode.Len? && UsableCodes(c.mode.codes) && Word(c.mode.codes.llens, s, l, w) && s < 256
    requires c.input == ToBits(w + Two(l) * m, l + n)
    ensures Follows(c, c.(out := c.out + [s], input := ToBits(m, n)))
  {
    hide ToBits, Find, Usable, Rev, Code, Two, SymbolEntry, Follows, Word;
    UsableValid(LENS, c.mode.codes.llens);
    UsableValid(DISTS, c.mode.codes.dlens);
    WordThere(LENS, c.mode.codes.llens, s, l, w, m, n);
    LengthEntry(s, l);
    var d := Step(c).value;
    FollowsStep(c);
    Go(c, d, c.(out := c.out + [s], input := ToBits(m, n)));
  }

  lemma EndStep(c: Core, l: nat, w: nat, m: nat, n: nat)
    requires c.mode.Len? && UsableCodes(c.mode.codes) && Word(c.mode.codes.llens, 256, l, w) && c.input == ToBits(w + Two(l) * m, l + n)
    ensures Step(c) == Some(c.(mode := Type, input := ToBits(m, n)))
  {
    hide ToBits, Find, Usable, Rev, Code, Two, SymbolEntry, Word;
    UsableValid(LENS, c.mode.codes.llens);
    UsableValid(DISTS, c.mode.codes.dlens);
    WordThere(LENS, c.mode.codes.llens, 256, l, w, m, n);
    LengthEntry(256, l);
  }

  /** A length with its extra bits. */
  lemma LengthSteps(c: Core, s: nat, l: nat, w: nat, k: nat, x: nat, m: nat, n: nat)
    requires c.mode.Len? && UsableCodes(c.mode.codes) && Word(c.mode.codes.llens, s, l, w) && 257 <= s < 286
    requires k == LengthOp(s - 257) % 16 && k <= 9 && x < Two(k) && c.input == ToBits(Packed(w, l, x, k, m), l + k + n)
    ensures Follows(c, c.(mode := Dist(c.mode.codes, LengthBase(s - 257) + x), input := ToBits(m, n)))
  {
    hide ToBits, Find, Usable, Rev, Code, Two, SymbolEntry, Follows, LengthOp, LengthBase, Value, Word, EndOp, BadOp;
    UsableValid(LENS, c.mode.codes.llens);
    UsableValid(DISTS, c.mode.codes.dlens);
    WordThere(LENS, c.mode.codes.llens, s, l, w, x + Two(k) * m, k + n);
    LengthEntry(s, l);
    var d := Step(c).value;
    FollowsStep(c);
    Field(x, m, k, n);
    Go(c, d, c.(mode := Dist(c.mode.codes, LengthBase(s - 257) + x), input := ToBits(m, n)));
  }

  /** A distance with its extra bits. */
  lemma DistanceSteps(c: Core, s: nat, l: nat, w: nat, k: nat, x: nat, m: nat, n: nat)
    requires c.mode.Dist? && UsableCodes(c.mode.codes) && Word(c.mode.codes.dlens, s, l, w) && s < 30
    requires k == DistOp(s) % 16 && k <= 9 && x < Two(k) && c.input == ToBits(Packed(w, l, x, k, m), l + k + n)
    ensures Follows(c, c.(mode := InflateSpec.Match(c.mode.codes, c.mode.length, DistBase(s) + x), input := ToBits(m, n)))
  {
    hide ToBits, Find, Usable, Rev, Code, Two, SymbolEntry, Follows, DistOp, DistBase, Value, Word, BadOp;
    UsableValid(LENS, c.mode.codes.llens);
    UsableValid(DISTS, c.mode.codes.dlens);
    WordThere(DISTS, c.mode.codes.dlens, s, l, w, x + Two(k) * m, k + n);
    DistEntry(s, l);
    var d := Step(c).value;
    FollowsStep(c);
    Field(x, m, k, n);
    Go(c, d, c.(mode := InflateSpec.Match(c.mode.codes, c.mode.length, DistBase(s) + x), input := ToBits(m, n)));
  }

  /** The copy that a length and a distance ask for. */
  lemma Copies(c: Core, d: Core, w: nat)
    requires Follows(c, d) && d.mode.Match? && 1 <= d.mode.length && 1 <= d.mode.offset <= w && d.mode.offset + d.floor <= |d.out|
    ensures Follows(c, d.(mode := Len(d.mode.codes), out := Extend(d.out, d.mode.offset, d.mode.length)))
  {
    hide Follows, Extend, Near;
    MatchRun(d, w);
    var e := d.(mode := Len(d.mode.codes), out := Extend(d.out, d.mode.offset, d.mode.length));
    NearFollows(d, e, w);
    FollowsTrans(c, d, e);
  }

  /** After the last block, with less than a byte left. */
  lemma Ends(c: Core, out: seq<Byte>, s: seq<bool>)
    requires Follows(c, Core(Type, true, out, s, 0)) && |s| < 8
    ensures Run(c) == Core(Done, true, out, [], 0)
  {
    hide Follows, Step, Run;
    var d := Core(Type, true, out, s, 0);
    FollowsRun(c, d);
    AtLast(d);
    LastRun(d, Core(Done, true, out, [], 0));
  }

  lemma AtLast(d: Core)
    requires d.mode == Type && d.last && |d.input| < 8
    ensures Step(d) == Some(d.(mode := Done, input := [])) && Step(d.(mode := Done, input := [])) == None
  {
    assert Aligned(d.input) == [];
  }

  lemma LastRun(d: Core, e: Core)
    requires Step(d) == Some(e) && Step(e) == None
    ensures Run(d) == e
  {
    hide Step;
  }

  // ------------------------------------------------------------ counting lengths

  /** Within a run of equal lengths. */
  lemma {:induction false} CountRun(lens: seq<nat>, a: nat, b: nat, v: nat, l: nat)
    requires a <= b <= |lens| && forall i | a <= i < b :: lens[i] == v
    ensures Count(lens, b, l) == Count(lens, a, l) + if v == l then b - a else 0
  {
    if a < b { CountRun(lens, a, b - 1, v, l); }
  }

  lemma {:induction false} KraftZeros(lens: seq<nat>, a: nat, b: nat)
    requires a <= b <= |lens| && forall i | a <= i < b :: lens[i] == 0
    ensures KraftUpTo(lens, b) == KraftUpTo(lens, a)
  {
    if a < b { KraftZeros(lens, a, b - 1); }
  }

  // ------------------------------------------------------------ a stored block

  /** Three bytes as they are. */
  lemma StoredStream()
    ensures Run(Core(Type, false, [], BytesToBits([0x01, 0x03, 0x00, 0xfc, 0xff, 97, 98, 99]), 0)) == Core(Done, true, [97, 98, 99], [], 0)
  {
    hide ToBits, BytesToBits, Run, Step, Follows, Value;
    var bytes: seq<Byte> := [0x01, 0x03, 0x00, 0xfc, 0xff, 97, 98, 99];
    var m := 0x636261fffc000301;
    assert Bytes(m, 8) == bytes by { StoredBytes(); }
    BytesAreBits(m, 8);
    var c := Core(Type, false, [], ToBits(m, 64), 0);
    FollowsHere(c);
    TypeStep(c, 0, true, m / 8, 61);
    var c1 := Core(Stored, true, [], ToBits(m / 8, 61), 0);
    Go(c, c, c1) by { StoredMode(); }
    AlignStep(c1, m);
    var c2 := c1.(input := ToBits(m / 256, 56));
    Go(c, c1, c2);
    LengthsStep(c2, m);
    var c3 := c1.(mode := InflateSpec.Copy(3), input := ToBits(0x636261, 24));
    Go(c, c2, c3);
    CopyThree(c3);
    var text: seq<Byte> := [97, 98, 99];
    FollowsTrans(c, c3, c3.(mode := Type, out := text, input := ToBits(0, 0)));
    Ends(c, [97, 98, 99], ToBits(0, 0));
  }

  lemma CopyThree(c: Core)
    requires c.mode == InflateSpec.Copy(3) && c.out == [] && c.input == ToBits(0x636261, 24)
    ensures Follows(c, c.(mode := Type, out := [97, 98, 99], input := ToBits(0, 0)))
  {
    hide ToBits, Step, Follows;
    Appended();
    CopyStep(c, 2, 97, 0x6362, 16);
    var c1 := c.(mode := InflateSpec.Copy(2), out := [97], input := ToBits(0x6362, 16));
    FollowsStep(c);
    CopyStep(c1, 1, 98, 0x63, 8);
    var c2 := c.(mode := InflateSpec.Copy(1), out := [97, 98], input := ToBits(0x63, 8));
    Go(c, c1, c2);
    CopyStep(c2, 0, 99, 0, 0);
    var c3 := c.(mode := InflateSpec.Copy(0), out := [97, 98, 99], input := ToBits(0, 0));
    Go(c, c2, c3);
    CopyDone(c3);
    Go(c, c3, c3.(mode := Type));
  }

  lemma Appended()
    ensures var a: seq<Byte>, b: seq<Byte> := [97], [97, 98]; [] + [97] == a && a + [98] == b && b + [99] == [97, 98, 99]
  {
  }

  lemma StoredBytes()
    ensures Bytes(0x636261fffc000301, 8) == [0x01, 0x03, 0x00, 0xfc, 0xff, 97, 98, 99]
  {
  }

  lemma StoredMode()
    ensures BlockMode(0) == Stored
  {
    hide FixedCodes;
  }

  lemma AlignStep(c: Core, m: nat)
    requires c.mode == Stored && c.input == ToBits(m / 8, 61)
    ensures Step(c) == Some(c.(input := ToBits(m / 256, 56)))
  {
    hide ToBits, Value;
    Split(m / 8 % 32, m / 256, 5, 56);
    assert m / 8 == m / 8 % 32 + 32 * (m / 256);
    assert Aligned(c.input) == c.input[5..];
  }

  lemma LengthsStep(c: Core, m: nat)
    requires c.mode == Stored && m == 0x636261fffc000301 && c.input == ToBits(m / 256, 56)
    ensures Step(c) == Some(c.(mode := InflateSpec.Copy(3), input := ToBits(0x636261, 24)))
  {
    hide ToBits, Value;
    Sixteen(3, 0x636261fffc, 40);
    Sixteen(65532, 0x636261, 24);
    assert m / 256 == 3 + 65536 * 0x636261fffc && 0x636261fffc == 65532 + 65536 * 0x636261;
    assert c.input[32..] == c.input[16..][16..];
  }

  /** A field of sixteen bits. */
  lemma Sixteen(v: nat, m: nat, n: nat)
    requires v < 65536
    ensures var s := ToBits(v + 65536 * m, 16 + n); Value(s, 16) == v && s[16..] == ToBits(m, n)
  {
    hide ToBits, Low, Shr, Value;
    Powers();
    var x := v + Pow2(16) * m;
    SplitUnique(v, m, 16);
    ToBitsSplit(x, 16, n);
    ToBitsLow(x, 16);
    LowSmall(v, 16);
    ValueBack(v, 16, ToBits(m, n));
  }

  lemma CopyStep(c: Core, k: nat, x: Byte, m: nat, n: nat)
    requires c.mode == InflateSpec.Copy(k + 1) && c.input == ToBits(x + 256 * m, 8 + n)
    ensures Step(c) == Some(c.(mode := InflateSpec.Copy(k), out := c.out + [x], input := ToBits(m, n)))
  {
    hide ToBits, Value;
    Field(x, m, 8, n);
  }

  lemma CopyDone(c: Core)
    requires c.mode == InflateSpec.Copy(0)
    ensures Step(c) == Some(c.(mode := Type))
  {
  }

  // ------------------------------------------------------------ a block with the fixed codes

  /** The words of the fixed literal/length code, by the symbols used here. */
  lemma FixedWords()
    ensures Word(FixedCodes().llens, 200, 9, 39) && Word(FixedCodes().llens, 97, 8, 137)
    ensures Word(FixedCodes().llens, 285, 8, 163) && Word(FixedCodes().llens, 256, 7, 0)
  {
    hide Rev, FixedCodes;
    var l := FixedCodes().llens;
    FixedRuns(l);
    FixedFirsts(l);
    Reversed();
  }

  lemma ReverseNine()
    ensures Rev(9, 456) == 39
  {
    hide Pow2;
    PowersToEight();
    assert Rev(1, 1) == 1;
    assert Rev(2, 3) == 3;
    assert Rev(3, 7) == 7;
    assert Rev(4, 14) == 7;
    assert Rev(5, 28) == 7;
    assert Rev(6, 57) == 39;
    assert Rev(7, 114) == 39;
    assert Rev(8, 228) == 39;
  }

  lemma ReverseLiteral()
    ensures Rev(8, 145) == 137
  {
    hide Pow2;
    PowersToEight();
    assert Rev(1, 1) == 1;
    assert Rev(2, 2) == 1;
    assert Rev(3, 4) == 1;
    assert Rev(4, 9) == 9;
    assert Rev(5, 18) == 9;
    assert Rev(6, 36) == 9;
    assert Rev(7, 72) == 9;
  }

  lemma ReverseLength()
    ensures Rev(8, 197) == 163
  {
    hide Pow2;
    PowersToEight();
    assert Rev(1, 1) == 1;
    assert Rev(2, 3) == 3;
    assert Rev(3, 6) == 3;
    assert Rev(4, 12) == 3;
    assert Rev(5, 24) == 3;
    assert Rev(6, 49) == 35;
    assert Rev(7, 98) == 35;
  }

  lemma ReverseEnd()
    ensures Rev(7, 0) == 0
  {
    hide Pow2;
    PowersToEight();
    assert Rev(1, 0) == 0;
    assert Rev(2, 0) == 0;
    assert Rev(3, 0) == 0;
    assert Rev(4, 0) == 0;
    assert Rev(5, 0) == 0;
    assert Rev(6, 0) == 0;
  }

  lemma ReverseDistance()
    ensures Rev(5, 1) == 16
  {
    hide Pow2;
    PowersToEight();
    assert Rev(1, 0) == 0;
    assert Rev(2, 0) == 0;
    assert Rev(3, 0) == 0;
    assert Rev(4, 0) == 0;
  }

  lemma PowersToEight()
    ensures Pow2(0) == 1 && Pow2(1) == 2 && Pow2(2) == 4 && Pow2(3) == 8 && Pow2(4) == 16
    ensures Pow2(5) == 32 && Pow2(6) == 64 && Pow2(7) == 128 && Pow2(8) == 256
  {
    TwoIs(0);
    TwoIs(1);
    TwoIs(2);
    TwoIs(3);
    TwoIs(4);
    TwoIs(5);
    TwoIs(6);
    TwoIs(7);
    TwoIs(8);
  }

  lemma Reversed()
    ensures Rev(9, 456) == 39 && Rev(8, 145) == 137 && Rev(8, 197) == 163 && Rev(7, 0) == 0 && Rev(5, 1) == 16
  {
    hide Rev;
    ReverseNine();
    ReverseLiteral();
    ReverseLength();
    ReverseEnd();
    ReverseDistance();
  }

  /** How many words of each length there are up to the ends of the four ranges, and up to the symbols. */
  lemma FixedRuns(l: seq<nat>)
    requires l == FixedCodes().llens
    ensures |l| == 288 && l[97] == 8 && l[200] == 9 && l[256] == 7 && l[285] == 8
    ensures Count(l, 97, 8) == 97 && Count(l, 200, 9) == 56 && Count(l, 256, 7) == 0 && Count(l, 285, 8) == 149
    ensures Total(l, 7) == 24 && Total(l, 8) == 152 && forall k: nat | k < 7 :: Total(l, k) == 0
  {
    hide Count;
    forall k: nat
      ensures Count(l, 144, k) == (if k == 8 then 144 else 0) && Count(l, 97, k) == (if k == 8 then 97 else 0)
      ensures Count(l, 200, k) == Count(l, 144, k) + (if k == 9 then 56 else 0)
      ensures Count(l, 256, k) == Count(l, 144, k) + (if k == 9 then 112 else 0)
      ensures Count(l, 280, k) == Count(l, 256, k) + (if k == 7 then 24 else 0)
      ensures Count(l, 285, k) == Count(l, 280, k) + (if k == 8 then 5 else 0)
      ensures Count(l, 288, k) == Count(l, 280, k) + (if k == 8 then 8 else 0)
    {
      NoneCounted(l, k);
      CountRun(l, 0, 144, 8, k);
      CountRun(l, 0, 97, 8, k);
      CountRun(l, 144, 200, 9, k);
      CountRun(l, 144, 256, 9, k);
      CountRun(l, 256, 280, 7, k);
      CountRun(l, 280, 285, 8, k);
      CountRun(l, 280, 288, 8, k);
    }
  }

  lemma NoneCounted(lens: seq<nat>, l: nat)
    ensures Count(lens, 0, l) == 0
  {
  }

  lemma {:induction false} FirstZero(lens: seq<nat>, l: nat)
    requires forall k: nat | k < l :: Total(lens, k) == 0
    ensures First(lens, l) == 0
  {
    if l > 1 { FirstZero(lens, l - 1); }
  }

  lemma FixedFirsts(l: seq<nat>)
    requires Total(l, 7) == 24 && Total(l, 8) == 152 && forall k: nat | k < 7 :: Total(l, k) == 0
    ensures First(l, 7) == 0 && First(l, 8) == 48 && First(l, 9) == 400
  {
    hide Total;
    FirstZero(l, 7);
    assert First(l, 8) == 2 * (First(l, 7) + Total(l, 7));
    assert First(l, 9) == 2 * (First(l, 8) + Total(l, 8));
  }

  lemma FixedDistance()
    ensures Word(FixedCodes().dlens, 1, 5, 16)
  {
    DistanceCode(1);
    Reversed();
  }

  lemma FixedData(d: Core)
    requires d.mode == Len(FixedCodes()) && d.out == [] && d.floor == 0 && d.input == ToBits(558305831, 37)
    ensures Follows(d, d.(mode := Type, out := Alternating(260), input := ToBits(0, 0)))
  {
    hide ToBits, Step, Follows, Value, Usable, FixedCodes, Word, Extend, Alternating;
    FixedUsable();
    FixedWords();
    FixedDistance();
    var codes := FixedCodes();
    LiteralSteps(d, 200, 9, 39, 1090441, 28);
    var one: seq<Byte>, two: seq<Byte> := [200], [200, 97];
    assert [] + one == one && one + [97] == two;
    var d1 := d.(out := one, input := ToBits(1090441, 28));
    LiteralSteps(d1, 97, 8, 137, 4259, 20);
    var d2 := d.(out := two, input := ToBits(4259, 20));
    FollowsTrans(d, d1, d2);
    LengthSteps(d2, 285, 8, 163, 0, 0, 16, 12);
    var d3 := d2.(mode := Dist(codes, 258), input := ToBits(16, 12));
    FollowsTrans(d, d2, d3);
    DistanceSteps(d3, 1, 5, 16, 0, 0, 0, 7);
    var d4 := d2.(mode := InflateSpec.Match(codes, 258, 2), input := ToBits(0, 7));
    FollowsTrans(d, d3, d4);
    AlternatingOn();
    Copies(d, d4, 2);
    var d5 := d.(out := Alternating(260), input := ToBits(0, 7));
    EndStep(d5, 7, 0, 0, 0);
    Go(d, d5, d5.(mode := Type, input := ToBits(0, 0)));
  }

  /** Two bytes, and 258 more from two back: literals with words of eight and of nine bits, and the longest match. */
  lemma FixedStream()
    ensures Run(Core(Type, false, [], BytesToBits([59, 145, 56, 10, 1]), 0)) == Core(Done, true, Alternating(260), [], 0)
  {
    hide ToBits, BytesToBits, Run, Step, Follows, FixedCodes, Alternating;
    var bytes: seq<Byte> := [59, 145, 56, 10, 1];
    assert Bytes(4466446651, 5) == bytes by { FixedBytes(); }
    BytesAreBits(4466446651, 5);
    var codes := FixedCodes();
    var c := Core(Type, false, [], ToBits(4466446651, 40), 0);
    FollowsHere(c);
    TypeStep(c, 1, true, 558305831, 37);
    var d := Core(Len(codes), true, [], ToBits(558305831, 37), 0);
    Go(c, c, d) by { FixedMode(); }
    FixedData(d);
    FollowsTrans(c, d, d.(mode := Type, out := Alternating(260), input := ToBits(0, 0)));
    Ends(c, Alternating(260), ToBits(0, 0));
  }

  lemma FixedBytes()
    ensures Bytes(4466446651, 5) == [59, 145, 56, 10, 1]
  {
  }

  lemma FixedMode()
    ensures BlockMode(1) == Len(FixedCodes())
  {
    hide FixedCodes;
  }

  /** 200 and 97 in turn. */
  function Alternating(n: nat): seq<Byte> {
    seq(n, i => if i % 2 == 0 then 200 else 97)
  }

  lemma {:induction false} AlternatingFrom(k: nat, n: nat)
    requires k >= 2
    ensures Extend(Alternating(k), 2, n) == Alternating(k + n)
    decreases n
  {
    if n > 0 {
      var out := Alternating(k);
      assert (k - 2) % 2 == k % 2;
      assert out + [out[|out| - 2]] == Alternating(k + 1);
      AlternatingFrom(k + 1, n - 1);
    }
  }

  lemma AlternatingOn()
    ensures Extend([200, 97], 2, 258) == Alternating(260)
  {
    assert Alternating(2) == [200, 97];
    AlternatingFrom(2, 258);
  }

  // ------------------------------------------------------------ a block with codes of its own

  /** The lengths of the code length code. */
  const LENGTHS: seq<nat> := [0, 3, 3, 3, 0, 0, 0, 0, 0, 0, 0, 0, 0, 0, 0, 0, 3, 2, 2]

  /** The lengths of the literal/length code and of the distance code. */
  function Literals(): seq<nat> {
    seq(266, i => if 97 <= i <= 100 then 3 else if i == 256 || i == 265 then 2 else 0)
  }

  const DISTANCES: seq<nat> := [0, 0, 0, 0, 1]

  lemma ReverseShort()
    ensures Rev(1, 0) == 0 && Rev(2, 0) == 0 && Rev(2, 1) == 2
    ensures Rev(3, 4) == 1 && Rev(3, 5) == 5 && Rev(3, 6) == 3 && Rev(3, 7) == 7
  {
    hide Pow2;
    PowersToEight();
    assert Rev(1, 0) == 0 && Rev(1, 1) == 1 && Rev(2, 2) == 1 && Rev(2, 3) == 3;
  }

  lemma FirstsOfTwo(l: seq<nat>)
    requires Total(l, 1) == 0 && Total(l, 2) == 2
    ensures First(l, 2) == 0 && First(l, 3) == 4
  {
    hide Total;
    assert First(l, 1) == 0;
    assert First(l, 2) == 2 * (First(l, 1) + Total(l, 1));
    assert First(l, 3) == 2 * (First(l, 2) + Total(l, 2));
  }

  lemma LengthsCounted(k: nat)
    ensures Count(LENGTHS, 1, k) == (if k == 0 then 1 else 0) && Count(LENGTHS, 2, k) == Count(LENGTHS, 1, k) + (if k == 3 then 1 else 0)
    ensures Count(LENGTHS, 3, k) == Count(LENGTHS, 1, k) + (if k == 3 then 2 else 0)
    ensures Count(LENGTHS, 16, k) == Count(LENGTHS, 1, k) + (if k == 3 then 3 else if k == 0 then 12 else 0)
    ensures Count(LENGTHS, 17, k) == Count(LENGTHS, 16, k) + (if k == 3 then 1 else 0)
    ensures Count(LENGTHS, 18, k) == Count(LENGTHS, 17, k) + (if k == 2 then 1 else 0)
    ensures Count(LENGTHS, 19, k) == Count(LENGTHS, 17, k) + (if k == 2 then 2 else 0)
  {
    hide Count;
    NoneCounted(LENGTHS, k);
    CountRun(LENGTHS, 0, 1, 0, k);
    CountRun(LENGTHS, 1, 2, 3, k);
    CountRun(LENGTHS, 1, 3, 3, k);
    CountRun(LENGTHS, 1, 4, 3, k);
    CountRun(LENGTHS, 4, 16, 0, k);
    CountRun(LENGTHS, 16, 17, 3, k);
    CountRun(LENGTHS, 17, 18, 2, k);
    CountRun(LENGTHS, 17, 19, 2, k);
  }

  lemma LengthsWords()
    ensures Word(LENGTHS, 17, 2, 0) && Word(LENGTHS, 18, 2, 2) && Word(LENGTHS, 1, 3, 1) && Word(LENGTHS, 2, 3, 5)
    ensures Word(LENGTHS, 3, 3, 3) && Word(LENGTHS, 16, 3, 7)
  {
    hide Rev, Count;
    LengthsCounted(1);
    LengthsCounted(2);
    LengthsCounted(3);
    FirstsOfTwo(LENGTHS);
    ReverseShort();
  }

  lemma LengthsUsable()
    ensures Builds(CODES, LENGTHS, 7)
  {
    hide KraftUpTo, Width, Oversize;
    SmallWidths();
    KraftOfNone(LENGTHS);
    KraftZeros(LENGTHS, 0, 1);
    KraftOfRun(LENGTHS, 1, 4, 3);
    KraftZeros(LENGTHS, 4, 16);
    KraftOfRun(LENGTHS, 16, 17, 3);
    KraftOfRun(LENGTHS, 17, 19, 2);
    CodesAlwaysFit(LENGTHS, 7);
  }

  lemma SmallWidths()
    ensures Width(1) == 16384 && Width(2) == 8192 && Width(3) == 4096
  {
    assert Pow2(12) == 4096 && Pow2(13) == 8192 && Pow2(14) == 16384;
  }

  lemma LiteralsCounted(l: seq<nat>, k: nat)
    requires l == Literals()
    ensures Count(l, 97, k) == (if k == 0 then 97 else 0) && Count(l, 98, k) == Count(l, 97, k) + (if k == 3 then 1 else 0)
    ensures Count(l, 99, k) == Count(l, 97, k) + (if k == 3 then 2 else 0) && Count(l, 100, k) == Count(l, 97, k) + (if k == 3 then 3 else 0)
    ensures Count(l, 256, k) == Count(l, 97, k) + (if k == 3 then 4 else if k == 0 then 155 else 0)
    ensures Count(l, 265, k) == Count(l, 256, k) + (if k == 2 then 1 else if k == 0 then 8 else 0)
    ensures |l| == 266 && Total(l, k) == Count(l, 265, k) + (if k == 2 then 1 else 0)
  {
    hide Count;
    NoneCounted(l, k);
    CountRun(l, 0, 97, 0, k);
    CountRun(l, 97, 98, 3, k);
    CountRun(l, 97, 99, 3, k);
    CountRun(l, 97, 100, 3, k);
    CountRun(l, 97, 101, 3, k);
    CountRun(l, 101, 256, 0, k);
    CountRun(l, 256, 257, 2, k);
    CountRun(l, 257, 265, 0, k);
    CountRun(l, 265, 266, 2, k);
  }

  lemma LiteralsWords()
    ensures Word(Literals(), 97, 3, 1) && Word(Literals(), 98, 3, 5) && Word(Literals(), 99, 3, 3) && Word(Literals(), 100, 3, 7)
    ensures Word(Literals(), 256, 2, 0) && Word(Literals(), 265, 2, 2)
  {
    hide Rev, Count;
    var l := Literals();
    LiteralsCounted(l, 1);
    LiteralsCounted(l, 2);
    LiteralsCounted(l, 3);
    FirstsOfTwo(l);
    ReverseShort();
  }

  lemma LiteralsUsable()
    ensures Builds(LENS, Literals(), 9) && Literals()[256] > 0
  {
    hide KraftUpTo, Width, Oversize;
    var l := Literals();
    SmallWidths();
    KraftOfNone(l);
    KraftZeros(l, 0, 97);
    KraftOfRun(l, 97, 101, 3);
    KraftZeros(l, 101, 256);
    KraftOfRun(l, 256, 257, 2);
    KraftZeros(l, 257, 265);
    KraftOfRun(l, 265, 266, 2);
    TwoIs(9);
    FlatFits(LENS, l, 9);
  }

  lemma DistancesUsable()
    ensures Builds(DISTS, DISTANCES, 6) && Word(DISTANCES, 4, 1, 0)
  {
    hide KraftUpTo, Width, Oversize, Rev, Count;
    SmallWidths();
    KraftOfNone(DISTANCES);
    KraftZeros(DISTANCES, 0, 4);
    KraftOfRun(DISTANCES, 4, 5, 1);
    TwoIs(6);
    FlatFits(DISTS, DISTANCES, 6);
    NoneCounted(DISTANCES, 1);
    CountRun(DISTANCES, 0, 4, 0, 1);
    ReverseShort();
  }

  /** The sizes and the lengths of the code length code, up to the first symbol. */
  lemma SizesThere(c: Core)
    requires c.mode == Table && c.input == ToBits(31576720994165116732684293671342910036310153, 149)
    ensures Follows(c, c.(mode := CodeLens(266, 5, LENGTHS, []), input := ToBits(106986092193257677944666, 81)))
  {
    hide ToBits, Step, Follows, Builds, Threes, CodeLengthCode, Pow2;
    SizesStep(c, 9, 4, 14, 1927290099741523238078875346151300661395, 135);
    var d := c.(mode := LenLens(266, 5, 18, []), input := ToBits(1927290099741523238078875346151300661395, 135));
    FollowsStep(c);
    LargePowers();
    SplitAt(6862601824764051, 106986092193257677944666, 54, 81);
    ThreesRead(d, 6862601824764051, 18, ToBits(106986092193257677944666, 81));
    ThreesAre();
    var got: seq<nat> := [3, 2, 2, 0, 0, 0, 0, 0, 0, 0, 0, 0, 0, 3, 0, 3, 0, 3];
    assert [] + got == got;
    var e := d.(mode := LenLens(266, 5, 18, got), input := ToBits(106986092193257677944666, 81));
    FollowsTrans(c, d, e);
    LengthsUsable();
    LengthsGot();
    BuiltStep(e);
    Go(c, e, e.(mode := CodeLens(266, 5, LENGTHS, [])));
  }

  lemma ThreesCons(v: nat, m: nat, k: nat)
    requires v < 8
    ensures Threes(v + 8 * m, k + 1) == [v] + Threes(m, k)
  {
  }

  lemma ThreesEnd()
    ensures Threes(99864, 6) == [0, 3, 0, 3, 0, 3]
  {
    hide Threes;
    NoThrees([], 0);
    assert Threes(0, 0) == [];
    ThreesCons(3, 0, 0);
    ThreesCons(0, 3, 1);
    ThreesCons(3, 24, 2);
    ThreesCons(0, 195, 3);
    ThreesCons(3, 1560, 4);
    ThreesCons(0, 12483, 5);
  }

  lemma ThreesMiddle()
    ensures Threes(26178748416, 12) == [0, 0, 0, 0, 0, 0, 0, 3, 0, 3, 0, 3]
  {
    hide Threes;
    ThreesEnd();
    ThreesCons(0, 99864, 6);
    ThreesCons(0, 798912, 7);
    ThreesCons(0, 6391296, 8);
    ThreesCons(0, 51130368, 9);
    ThreesCons(0, 409042944, 10);
    ThreesCons(0, 3272343552, 11);
  }

  lemma ThreesAre()
    ensures Threes(6862601824764051, 18) == [3, 2, 2, 0, 0, 0, 0, 0, 0, 0, 0, 0, 0, 3, 0, 3, 0, 3]
  {
    hide Threes;
    ThreesMiddle();
    ThreesCons(0, 26178748416, 12);
    ThreesCons(0, 209429987328, 13);
    ThreesCons(0, 1675439898624, 14);
    ThreesCons(2, 13403519188992, 15);
    ThreesCons(2, 107228153511938, 16);
    ThreesCons(3, 857825228095506, 17);
  }

  lemma LengthsGot()
    ensures CodeLengthCode([3, 2, 2, 0, 0, 0, 0, 0, 0, 0, 0, 0, 0, 3, 0, 3, 0, 3]) == LENGTHS
  {
  }

  lemma BuiltStep(c: Core)
    requires c.mode.LenLens? && |c.mode.got| == c.mode.ncode && Builds(CODES, CodeLengthCode(c.mode.got), 7)
    ensures Step(c) == Some(c.(mode := CodeLens(c.mode.nlen, c.mode.ndist, CodeLengthCode(c.mode.got), [])))
  {
    hide Builds, CodeLengthCode;
  }

  /** All the lengths of the block. */
  function AllLengths(): (s: seq<nat>)
    ensures |s| == 271
  {
    Literals() + DISTANCES
  }

  lemma TheRuns()
    ensures var all := AllLengths();
            && (forall i | 0 <= i < 97 :: all[i] == 0) && (forall i | 97 <= i < 101 :: all[i] == 3) && (forall i | 101 <= i < 256 :: all[i] == 0)
            && all[256] == 2 && (forall i | 257 <= i < 265 :: all[i] == 0) && all[265] == 2
            && (forall i | 266 <= i < 270 :: all[i] == 0) && all[270] == 1
  {
  }

  /** A run of equal lengths. */
  lemma RunOf(a: nat, b: nat, v: nat)
    requires a <= b <= 271 && forall i | a <= i < b :: AllLengths()[i] == v
    ensures AllLengths()[..a] + Repeat(v, b - a) == AllLengths()[..b] && (b == a + 1 ==> AllLengths()[..a] + [v] == AllLengths()[..b])
    ensures b > a ==> AllLengths()[..b][b - 1] == v
  {
    hide AllLengths;
  }

  /** The machine has come from `c` to where the first `pos` lengths are known and the `n` bits of `m` are left. */
  ghost predicate At(c: Core, pos: nat, m: nat, n: nat) {
    pos <= 271 && Follows(c, c.(mode := CodeLens(266, 5, LENGTHS, AllLengths()[..pos]), input := ToBits(m, n)))
  }

  lemma PlainOn(c: Core, pos: nat, s: nat, l: nat, w: nat, m: nat, n: nat)
    requires 0 < l <= 9 && pos < 271 && At(c, pos, w + Two(l) * m, l + n) && Word(LENGTHS, s, l, w) && s < 16 && AllLengths()[pos] == s
    ensures At(c, pos + 1, m, n)
  {
    hide ToBits, Step, Follows, Usable, Oversize, Word, Repeat, AllLengths, Two;
    LengthsUsable();
    var d := c.(mode := CodeLens(266, 5, LENGTHS, AllLengths()[..pos]), input := ToBits(w + Two(l) * m, l + n));
    PlainStep(d, s, l, w, m, n);
    RunOf(pos, pos + 1, s);
    Go(c, d, c.(mode := CodeLens(266, 5, LENGTHS, AllLengths()[..pos + 1]), input := ToBits(m, n)));
  }

  lemma RepeatOn(c: Core, pos: nat, s: nat, l: nat, w: nat, x: nat, m: nat, n: nat)
    requires 16 <= s < 19 && 0 < l <= 9 && x < Two(RepeatBits(s)) && Word(LENGTHS, s, l, w) && pos + RepeatBase(s) + x <= 271
    requires At(c, pos, Packed(w, l, x, RepeatBits(s), m), l + RepeatBits(s) + n) && (s == 16 ==> pos > 0)
    requires forall i | pos <= i < pos + RepeatBase(s) + x :: AllLengths()[i] == if s == 16 then AllLengths()[pos - 1] else 0
    ensures At(c, pos + RepeatBase(s) + x, m, n)
  {
    hide ToBits, Step, Follows, Usable, Oversize, Word, Repeat, AllLengths, Two, RepeatBits, RepeatBase;
    LengthsUsable();
    var all, end := AllLengths(), pos + RepeatBase(s) + x;
    var d := c.(mode := CodeLens(266, 5, LENGTHS, all[..pos]), input := ToBits(Packed(w, l, x, RepeatBits(s), m), l + RepeatBits(s) + n));
    RepeatStep(d, s, l, w, x, m, n);
    RunOf(pos, end, if s == 16 then all[pos - 1] else 0);
    Go(c, d, c.(mode := CodeLens(266, 5, LENGTHS, all[..end]), input := ToBits(m, n)));
  }

  /** The run-length symbols, with each of the three repeats, up to the data. */
  lemma SymbolsThere(c: Core)
    requires c.mode == CodeLens(266, 5, LENGTHS, []) && c.input == ToBits(106986092193257677944666, 81)
    ensures Follows(c, c.(mode := CodeLens(266, 5, LENGTHS, AllLengths()), input := ToBits(5938921, 27)))
  {
    hide ToBits, Step, Follows, Word, At, AllLengths;
    TheRuns();
    LengthsWords();
    AtStart(c, 106986092193257677944666, 81);
    RepeatOn(c, 0, 18, 2, 2, 86, 208957211314956402235, 72);
    PlainOn(c, 97, 3, 3, 3, 26119651414369550279, 69);
    RepeatOn(c, 98, 16, 3, 7, 0, 816239106699048446, 64);
    RepeatOn(c, 101, 18, 2, 2, 127, 1594217005271578, 55);
    RepeatOn(c, 239, 18, 2, 2, 6, 3113705088421, 46);
    PlainOn(c, 256, 2, 3, 5, 389213136052, 43);
    RepeatOn(c, 257, 17, 2, 0, 5, 12162910501, 38);
    PlainOn(c, 265, 2, 3, 5, 1520363812, 35);
    RepeatOn(c, 266, 17, 2, 0, 1, 47511369, 30);
    PlainOn(c, 270, 1, 3, 1, 5938921, 27);
    AtEnd(c, 5938921, 27);
  }

  lemma AtStart(c: Core, m: nat, n: nat)
    requires c.mode == CodeLens(266, 5, LENGTHS, []) && c.input == ToBits(m, n)
    ensures At(c, 0, m, n)
  {
    hide ToBits, Step, Follows, AllLengths;
    FollowsHere(c);
    assert AllLengths()[..0] == [];
  }

  lemma AtEnd(c: Core, m: nat, n: nat)
    requires At(c, 271, m, n)
    ensures Follows(c, c.(mode := CodeLens(266, 5, LENGTHS, AllLengths()), input := ToBits(m, n)))
  {
    hide ToBits, Step, Follows, AllLengths;
    assert AllLengths()[..271] == AllLengths();
  }

  /** The data: six literals. */
  lemma LiteralsThere(d: Core)
    requires d.mode == Len(Codes(Literals(), DISTANCES)) && d.out == [] && d.floor == 0 && d.input == ToBits(5938921, 27)
    ensures Follows(d, d.(out := Text()[..6], input := ToBits(22, 9)))
  {
    hide ToBits, Step, Follows, Usable, Oversize, Word, Literals, Text;
    var text := Text();
    TextIs();
    LiteralsUsable();
    LiteralsWords();
    DistancesUsable();
    assert text[..0] == [];
    LiteralSteps(d, 97, 3, 1, 742365, 24);
    var d1 := d.(out := text[..1], input := ToBits(742365, 24));
    assert text[..0] + [97] == text[..1];
    LiteralSteps(d1, 98, 3, 5, 92795, 21);
    var d2 := d.(out := text[..2], input := ToBits(92795, 21));
    assert text[..1] + [98] == text[..2];
    FollowsTrans(d, d1, d2);
    LiteralSteps(d2, 99, 3, 3, 11599, 18);
    var d3 := d.(out := text[..3], input := ToBits(11599, 18));
    assert text[..2] + [99] == text[..3];
    FollowsTrans(d, d2, d3);
    LiteralSteps(d3, 100, 3, 7, 1449, 15);
    var d4 := d.(out := text[..4], input := ToBits(1449, 15));
    assert text[..3] + [100] == text[..4];
    FollowsTrans(d, d3, d4);
    LiteralSteps(d4, 97, 3, 1, 181, 12);
    var d5 := d.(out := text[..5], input := ToBits(181, 12));
    assert text[..4] + [97] == text[..5];
    FollowsTrans(d, d4, d5);
    LiteralSteps(d5, 98, 3, 5, 22, 9);
    var d6 := d.(out := text[..6], input := ToBits(22, 9));
    assert text[..5] + [98] == text[..6];
    FollowsTrans(d, d5, d6);
  }

  lemma TextIs()
    ensures Text()[..6] == [97, 98, 99, 100, 97, 98]
  {
  }

  /** The data: six literals, and twelve bytes from six back. */
  lemma DataThere(d: Core)
    requires d.mode == Len(Codes(Literals(), DISTANCES)) && d.out == [] && d.floor == 0 && d.input == ToBits(5938921, 27)
    ensures Follows(d, d.(mode := Type, out := Text(), input := ToBits(0, 2)))
  {
    hide ToBits, Step, Follows, Usable, Oversize, Word, Extend, Literals, Text;
    var text := Text();
    LiteralsUsable();
    LiteralsWords();
    DistancesUsable();
    LiteralsThere(d);
    var d6 := d.(out := text[..6], input := ToBits(22, 9));
    LengthSteps(d6, 265, 2, 2, 1, 1, 2, 6);
    var e1 := d6.(mode := Dist(d.mode.codes, 12), input := ToBits(2, 6));
    FollowsTrans(d, d6, e1);
    DistanceSteps(e1, 4, 1, 0, 1, 1, 0, 4);
    var e2 := d6.(mode := InflateSpec.Match(d.mode.codes, 12, 6), input := ToBits(0, 4));
    FollowsTrans(d, e1, e2);
    TextOn();
    Copies(d, e2, 6);
    var e3 := d.(out := text, input := ToBits(0, 4));
    EndStep(e3, 2, 0, 0, 2);
    Go(d, e3, e3.(mode := Type, input := ToBits(0, 2)));
  }

  /** "abcdab" three times. */
  function Text(): (s: seq<Byte>)
    ensures |s| == 18
  {
    [97, 98, 99, 100, 97, 98, 97, 98, 99, 100, 97, 98, 97, 98, 99, 100, 97, 98]
  }

  lemma {:induction false} TextFrom(k: nat)
    requires 6 <= k <= 18
    ensures Extend(Text()[..k], 6, 18 - k) == Text()
    decreases 18 - k
  {
    if k < 18 {
      var out := Text()[..k];
      assert out + [out[|out| - 6]] == Text()[..k + 1];
      TextFrom(k + 1);
    } else {
      assert Text()[..18] == Text();
    }
  }

  lemma TextOn()
    ensures Extend(Text()[..6], 6, 12) == Text()
  {
    TextFrom(6);
  }

  /** The whole block. */
  lemma DynamicStream()
    ensures Run(Core(Type, false, [], BytesToBits([77, 196, 39, 1, 0, 0, 0, 195, 48, 173, 59, 254, 53, 148, 150, 36, 221, 83, 11]), 0))
         == Core(Done, true, [97, 98, 99, 100, 97, 98, 97, 98, 99, 100, 97, 98, 97, 98, 99, 100, 97, 98], [], 0)
  {
    hide ToBits, BytesToBits, Run, Step, Follows, Builds, Literals, FixedCodes;
    var bytes: seq<Byte> := [77, 196, 39, 1, 0, 0, 0, 195, 48, 173, 59, 254, 53, 148, 150, 36, 221, 83, 11];
    var m := 252613767953320933861474349370743280290481229;
    DynamicBytes();
    var c := Core(Type, false, [], ToBits(m, 152), 0);
    FollowsHere(c);
    TypeStep(c, 2, true, 31576720994165116732684293671342910036310153, 149);
    var c1 := Core(Table, true, [], ToBits(31576720994165116732684293671342910036310153, 149), 0);
    Go(c, c, c1) by { TableMode(); }
    SizesThere(c1);
    var c2 := c1.(mode := CodeLens(266, 5, LENGTHS, []), input := ToBits(106986092193257677944666, 81));
    FollowsTrans(c, c1, c2);
    SymbolsThere(c2);
    var c3 := c1.(mode := CodeLens(266, 5, LENGTHS, AllLengths()), input := ToBits(5938921, 27));
    FollowsTrans(c, c2, c3);
    var c4 := c3.(mode := Len(Codes(Literals(), DISTANCES)));
    Go(c, c3, c4) by { CodesStep(c3); }
    DataThere(c4);
    FollowsTrans(c, c4, c4.(mode := Type, out := Text(), input := ToBits(0, 2)));
    Ends(c, Text(), ToBits(0, 2));
  }

  lemma DynamicBytes()
    ensures BytesToBits([77, 196, 39, 1, 0, 0, 0, 195, 48, 173, 59, 254, 53, 148, 150, 36, 221, 83, 11]) == ToBits(252613767953320933861474349370743280290481229, 152)
  {
    hide BytesToBits, ToBits, Pow2, Bytes;
    var a: seq<Byte>, b: seq<Byte>, c: seq<Byte> := [77, 196, 39, 1, 0, 0], [0, 195, 48, 173, 59, 254], [53, 148, 150, 36, 221, 83, 11];
    assert a + (b + c) == [77, 196, 39, 1, 0, 0, 0, 195, 48, 173, 59, 254, 53, 148, 150, 36, 221, 83, 11];
    assert Bytes(19383373, 6) == a && Bytes(279532262179584, 6) == b && Bytes(3188434010543157, 7) == c by {
      DynamicPart1();
      DynamicPart2();
      DynamicPart3();
    }
    BytesAreBits(19383373, 6);
    BytesAreBits(279532262179584, 6);
    BytesAreBits(3188434010543157, 7);
    BytesToBitsConcat(b, c);
    BytesToBitsConcat(a, b + c);
    LargePowers();
    SplitAt(279532262179584, 3188434010543157, 48, 56);
    SplitAt(19383373, 897464388861098903268051960576, 48, 104);
  }

  lemma DynamicPart1()
    ensures Bytes(19383373, 6) == [77, 196, 39, 1, 0, 0]
  {
  }

  lemma DynamicPart2()
    ensures Bytes(279532262179584, 6) == [0, 195, 48, 173, 59, 254]
  {
  }

  lemma DynamicPart3()
    ensures Bytes(3188434010543157, 7) == [53, 148, 150, 36, 221, 83, 11]
  {
  }

  lemma TableMode()
    ensures BlockMode(2) == Table
  {
    hide FixedCodes;
  }

  lemma CodesStep(c: Core)
    requires c.mode == CodeLens(266, 5, LENGTHS, AllLengths())
    ensures Step(c) == Some(c.(mode := Len(Codes(Literals(), DISTANCES))))
  {
    hide Builds, Find;
    LiteralsUsable();
    DistancesUsable();
    var all := AllLengths();
    assert all[..266] == Literals() && all[266..] == DISTANCES && all[256] == Literals()[256];
  }
}
