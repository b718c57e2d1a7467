/**
 What a raw deflate stream means: a deterministic machine over the whole stream of bits that
 is still unread and the whole output so far.  It has no buffers, no tables and no window: a
 code word is found by comparing it with the code, a match is copied from the output.  `Run`
 is where the machine comes to rest.

 `inflate` and `inflate_fast` are proved to compute `Run`, however their input and output
 space is split over calls.
 */
module InflateSpec {
  import opened Bits
  import opened CanonicalCode
  import opened InflateTable

  /** The literal/length and distance code of a block, by their code lengths. */
  datatype Codes = Codes(llens: seq<nat>, dlens: seq<nat>)

  /** Where in the format the machine is, with what it has read of the current element. */
  datatype Mode =
    | Type
    | Stored
    | Copy(left: nat)
    | Table
    | LenLens(nlen: nat, ndist: nat, ncode: nat, got: seq<nat>)
    | CodeLens(nlen: nat, ndist: nat, clens: seq<nat>, got: seq<nat>)
    | Len(codes: Codes)
    | Lit(codes: Codes, val: nat)
    | LenExt(codes: Codes, length: nat, extra: nat)
    | Dist(codes: Codes, length: nat)
    | DistExt(codes: Codes, length: nat, offset: nat, extra: nat)
    | Match(codes: Codes, length: nat, offset: nat)
    | Done
    | Bad

  /** `last`: the current block is the last one; `floor`: matches may not reach before `out[floor]`. */
  datatype Core = Core(mode: Mode, last: bool, out: seq<Byte>, input: seq<bool>, floor: nat)

  /** Order in which the lengths of the code length code are sent. */
  function Order(i: nat): (r: nat)
    requires i < 19
    ensures r < 19
  {
    match i
    case 0 => 16 case 1 => 17 case 2 => 18 case 3 => 0 case 4 => 8 case 5 => 7 case 6 => 9 case 7 => 6 case 8 => 10 case 9 => 5
    case 10 => 11 case 11 => 4 case 12 => 12 case 13 => 3 case 14 => 13 case 15 => 2 case 16 => 14 case 17 => 1 case _ => 15
  }

  /** The inverse of `Order`. */
  function Place(i: nat): (r: nat)
    requires i < 19
    ensures r < 19
  {
    match i
    case 0 => 3 case 1 => 17 case 2 => 15 case 3 => 13 case 4 => 11 case 5 => 9 case 6 => 7 case 7 => 5 case 8 => 4 case 9 => 6
    case 10 => 8 case 11 => 10 case 12 => 12 case 13 => 14 case 14 => 16 case 15 => 18 case 16 => 0 case 17 => 1 case _ => 2
  }

  lemma OrderInverse(i: nat)
    requires i < 19
    ensures Order(Place(i)) == i && Place(Order(i)) == i
  {
  }

  /** The lengths of the code length code from the ones sent; those not sent are zero. */
  function CodeLengthCode(got: seq<nat>): (r: seq<nat>)
    ensures |r| == 19
  {
    seq(19, j requires 0 <= j < 19 => if Place(j) < |got| then got[Place(j)] else 0)
  }

  /** The fixed codes of section 3.2.6 of RFC 1951. */
  function FixedCodes(): Codes {
    Codes(seq(288, i => if i < 144 then 8 else if i < 256 then 9 else if i < 280 then 7 else 8), seq(32, i => 5))
  }

  // ------------------------------------------------------------ reading a code

  /** The code word of symbol `i` stands at the front of `s`. */
  ghost predicate CodeAt(lens: seq<nat>, i: nat, s: seq<bool>) {
    i < |lens| && lens[i] <= |s| && Matches(lens, i, Num(s))
  }

  /**
   The entry for the code word at the front of `s`, or the marker where an incomplete code
   has no word for what is there; nothing if `s` is too short to tell.
   */
  ghost function Find(kind: CodeType, lens: seq<nat>, s: seq<bool>): (r: Option<Entry>)
    requires |lens| <= MaxSymbols(kind)
    ensures r.Some? ==> 1 <= r.value.bits <= |s|
  {
    if exists i: nat :: CodeAt(lens, i, s) then
      var i: nat :| CodeAt(lens, i, s);
      Some(SymbolEntry(kind, i, lens[i]))
    else if !Complete(lens) && |s| >= 1 && NoMatch(lens, Num(s)) then Some(INVALID)
    else None
  }

  /** Lengths for which `inflate_table` builds a table. */
  ghost predicate Usable(kind: CodeType, lens: seq<nat>) {
    && ValidLens(lens) && |lens| <= MaxSymbols(kind)
    && !Rejected(kind, lens)
  }

  /** The table for these lengths exists and fits. */
  ghost predicate Builds(kind: CodeType, lens: seq<nat>, bits: nat) {
    Usable(kind, lens) && !Oversize(kind, lens, bits)
  }

  predicate EndOp(op: nat) { op / 32 % 2 == 1 }

  predicate BadOp(op: nat) { op / 64 % 2 == 1 }

  // ------------------------------------------------------------ one step

  function Value(s: seq<bool>, n: nat): nat
    requires n <= |s|
  {
    Num(s[..n])
  }

  /** Without the bits up to the next byte boundary. */
  function Aligned(s: seq<bool>): seq<bool> {
    s[|s| % 8..]
  }

  function Stage(m: Mode): nat {
    match m
    case Done => 0
    case Bad => 0
    case Type => 1
    case Copy(_) => 2
    case Len(_) => 2
    case Stored => 2
    case Table => 2
    case Lit(_, _) => 3
    case Match(_, _, _) => 3
    case CodeLens(_, _, _, _) => 3
    case LenLens(_, _, _, _) => 4
    case DistExt(_, _, _, _) => 4
    case Dist(_, _) => 5
    case LenExt(_, _, _) => 6
  }

  function Pending(m: Mode): nat {
    if m.Match? then m.length else 0
  }

  /** Every step reads from the stream, or goes on to a later mode, or shortens the match. */
  predicate Lower(d: Core, c: Core) {
    || |d.input| < |c.input|
    || (|d.input| == |c.input| && Stage(d.mode) < Stage(c.mode))
    || (|d.input| == |c.input| && Stage(d.mode) == Stage(c.mode) && Pending(d.mode) < Pending(c.mode))
  }

  /** The mode for a block type. */
  ghost function BlockMode(t: nat): Mode {
    if t == 0 then Stored else if t == 1 then Len(FixedCodes()) else if t == 2 then Table else Bad
  }

  ghost function StepType(c: Core): (r: Option<Core>)
    requires c.mode.Type?
    ensures r.Some? ==> Lower(r.value, c)
  {
    var s := c.input;
    if c.last then Some(c.(mode := Done, input := Aligned(s)))
    else if |s| < 3 then None
    else
      Some(c.(mode := BlockMode(Value(s[1..], 2)), last := s[0], input := s[3..]))
  }

  ghost function StepStored(c: Core): (r: Option<Core>)
    requires c.mode.Stored?
    ensures r.Some? ==> Lower(r.value, c)
  {
    var s := c.input;
    if |s| % 8 != 0 then Some(c.(input := Aligned(s)))
    else if |s| < 32 then None
    else if Value(s, 16) + Value(s[16..], 16) != 65535 then Some(c.(mode := Bad))
    else Some(c.(mode := Copy(Value(s, 16)), input := s[32..]))
  }

  ghost function StepCopy(c: Core): (r: Option<Core>)
    requires c.mode.Copy?
    ensures r.Some? ==> Lower(r.value, c)
  {
    var s := c.input;
    if c.mode.left == 0 then Some(c.(mode := Type))
    else if |s| < 8 then None
    else Some(c.(mode := Copy(c.mode.left - 1), out := c.out + [Value(s, 8)], input := s[8..]))
  }

  ghost function StepTable(c: Core): (r: Option<Core>)
    requires c.mode.Table?
    ensures r.Some? ==> Lower(r.value, c)
  {
    var s := c.input;
    if |s| < 14 then None
    else
      var nlen, ndist, ncode := Value(s, 5) + 257, Value(s[5..], 5) + 1, Value(s[10..], 4) + 4;
      Some(c.(mode := if nlen > 286 || ndist > 30 then Bad else LenLens(nlen, ndist, ncode, []), input := s[14..]))
  }

  ghost function StepLenLens(c: Core): (r: Option<Core>)
    requires c.mode.LenLens?
    ensures r.Some? ==> Lower(r.value, c)
  {
    var s, m := c.input, c.mode;
    if |m.got| < m.ncode then
      if |s| < 3 then None
      else Some(c.(mode := LenLens(m.nlen, m.ndist, m.ncode, m.got + [Value(s, 3)]), input := s[3..]))
    else
      var clens := CodeLengthCode(m.got);
      Some(c.(mode := if Builds(CODES, clens, 7) then CodeLens(m.nlen, m.ndist, clens, []) else Bad))
  }

  /** How many extra bits a repeat symbol of the code length code has, and the least repeat. */
  function RepeatBits(val: nat): nat { if val == 16 then 2 else if val == 17 then 3 else 7 }

  function RepeatBase(val: nat): nat { if val == 18 then 11 else 3 }

  function Repeat(x: nat, n: nat): (r: seq<nat>)
    ensures |r| == n
  {
    seq(n, i => x)
  }

  ghost function StepCodeLens(c: Core): (r: Option<Core>)
    requires c.mode.CodeLens?
    ensures r.Some? ==> Lower(r.value, c)
  {
    var s, m := c.input, c.mode;
    if |m.got| < m.nlen + m.ndist then
      if |m.clens| > MaxSymbols(CODES) then None else
      match Find(CODES, m.clens, s)
      case None => None
      case Some(e) =>
        if e.val < 16 then Some(c.(mode := CodeLens(m.nlen, m.ndist, m.clens, m.got + [e.val]), input := s[e.bits..]))
        else
          var x := RepeatBits(e.val);
          if |s| < e.bits + x then None
          else if e.val == 16 && m.got == [] then Some(c.(mode := Bad, input := s[e.bits..]))
          else
            var n := RepeatBase(e.val) + Value(s[e.bits..], x);
            var v := if e.val == 16 then m.got[|m.got| - 1] else 0;
            var rest := s[e.bits + x..];
            if |m.got| + n > m.nlen + m.ndist then Some(c.(mode := Bad, input := rest))
            else Some(c.(mode := CodeLens(m.nlen, m.ndist, m.clens, m.got + Repeat(v, n)), input := rest))
    else Some(c.(mode := BlockCodes(m.nlen, m.got)))
  }

  /** The codes of a dynamic block from all their lengths, if they are good. */
  ghost function BlockCodes(nlen: nat, got: seq<nat>): (m: Mode)
    ensures m.Bad? || m.Len?
  {
    if nlen > |got| || nlen <= 256 || got[256] == 0 then Bad
    else if !Builds(LENS, got[..nlen], 9) || !Builds(DISTS, got[nlen..], 6) then Bad
    else Len(Codes(got[..nlen], got[nlen..]))
  }

  ghost predicate Readable(codes: Codes) {
    |codes.llens| <= MaxSymbols(LENS) && |codes.dlens| <= MaxSymbols(DISTS)
  }

  /** The mode for the entry of a literal/length code word. */
  function SymbolMode(codes: Codes, e: Entry): Mode {
    if e.op == 0 then Lit(codes, e.val)
    else if EndOp(e.op) then Type
    else if BadOp(e.op) then Bad
    else LenExt(codes, e.val, e.op % 16)
  }

  ghost function StepLen(c: Core): (r: Option<Core>)
    requires c.mode.Len?
    ensures r.Some? ==> Lower(r.value, c)
  {
    var s, k := c.input, c.mode.codes;
    if !Readable(k) then None
    else
      match Find(LENS, k.llens, s)
      case None => None
      case Some(e) =>
        Some(c.(mode := SymbolMode(k, e), input := s[e.bits..]))
  }

  ghost function StepLenExt(c: Core): (r: Option<Core>)
    requires c.mode.LenExt?
    ensures r.Some? ==> Lower(r.value, c)
  {
    var s, m := c.input, c.mode;
    if |s| < m.extra then None
    else Some(c.(mode := Dist(m.codes, m.length + Value(s, m.extra)), input := s[m.extra..]))
  }

  ghost function StepDist(c: Core): (r: Option<Core>)
    requires c.mode.Dist?
    ensures r.Some? ==> Lower(r.value, c)
  {
    var s, m := c.input, c.mode;
    if !Readable(m.codes) then None
    else
      match Find(DISTS, m.codes.dlens, s)
      case None => None
      case Some(e) =>
        Some(c.(mode := if BadOp(e.op) then Bad else DistExt(m.codes, m.length, e.val, e.op % 16), input := s[e.bits..]))
  }

  ghost function StepDistExt(c: Core): (r: Option<Core>)
    requires c.mode.DistExt?
    ensures r.Some? ==> Lower(r.value, c)
  {
    var s, m := c.input, c.mode;
    if |s| < m.extra then None
    else Some(c.(mode := Match(m.codes, m.length, m.offset + Value(s, m.extra)), input := s[m.extra..]))
  }

  /** One byte of a match. */
  ghost function StepMatch(c: Core): (d: Core)
    requires c.mode.Match?
    ensures Lower(d, c)
  {
    var m := c.mode;
    if m.offset == 0 || m.offset + c.floor > |c.out| then c.(mode := Bad)
    else
      c.(mode := if m.length <= 1 then Len(m.codes) else Match(m.codes, m.length - 1, m.offset),
         out := c.out + [c.out[|c.out| - m.offset]])
  }

  /** One step of the machine; none if the stream is too short, or at the end. */
  ghost function Step(c: Core): (r: Option<Core>)
    ensures r.Some? ==> Lower(r.value, c)
  {
    match c.mode
    case Type => StepType(c)
    case Stored => StepStored(c)
    case Copy(_) => StepCopy(c)
    case Table => StepTable(c)
    case LenLens(_, _, _, _) => StepLenLens(c)
    case CodeLens(_, _, _, _) => StepCodeLens(c)
    case Len(_) => StepLen(c)
    case Lit(codes, val) => Some(c.(mode := Len(codes), out := c.out + [val % 256]))
    case LenExt(_, _, _) => StepLenExt(c)
    case Dist(_, _) => StepDist(c)
    case DistExt(_, _, _, _) => StepDistExt(c)
    case Match(_, _, _) => Some(StepMatch(c))
    case Done => None
    case Bad => None
  }

  // ------------------------------------------------------------ whole runs

  /** Where the machine comes to rest. */
  ghost function Run(c: Core): (d: Core)
    ensures Step(d) == None
    decreases |c.input|, Stage(c.mode), Pending(c.mode)
  {
    if Step(c).Some? then Run(Step(c).value) else c
  }

  /** The run meets a match from further back than `w`, though not from before the output. */
  ghost predicate Far(c: Core, w: nat)
    decreases |c.input|, Stage(c.mode), Pending(c.mode)
  {
    || (c.mode.Match? && w < c.mode.offset <= |c.out|)
    || (Step(c).Some? && (Far(Step(c).value, w)))
  }

  /** `d` is on the way of the machine from `c`. */
  ghost predicate Follows(c: Core, d: Core)
    decreases |c.input|, Stage(c.mode), Pending(c.mode)
  {
    c == d || (Step(c).Some? && Follows(Step(c).value, d))
  }

  lemma FollowsHere(c: Core)
    ensures Follows(c, c)
  {
  }

  lemma FollowsStep(c: Core)
    requires Step(c).Some?
    ensures Follows(c, Step(c).value)
  {
    hide Step;
  }

  lemma {:induction false} FollowsTrans(c: Core, d: Core, e: Core)
    requires Follows(c, d) && Follows(d, e)
    ensures Follows(c, e)
    decreases |c.input|, Stage(c.mode), Pending(c.mode)
  {
    hide Step;
    if c != d { FollowsTrans(Step(c).value, d, e); }
  }

  /** The machine comes to rest in the same place from wherever on its way. */
  lemma {:induction false} FollowsRun(c: Core, d: Core)
    requires Follows(c, d)
    ensures Run(d) == Run(c)
    decreases |c.input|, Stage(c.mode), Pending(c.mode)
  {
    hide Step;
    if c != d { FollowsRun(Step(c).value, d); }
  }

  // ------------------------------------------------------------ facts about runs

  /** A run only adds to the output. */
  lemma {:induction false} OutputGrows(c: Core)
    ensures c.out <= Run(c).out
    decreases |c.input|, Stage(c.mode), Pending(c.mode)
  {
    hide StepType, StepStored, StepTable, StepLenLens, StepCodeLens, StepLen, StepLenExt, StepDist, StepDistExt;
    if Step(c).Some? {
      StepKeepsOutput(c);
      OutputGrows(Step(c).value);
    }
  }

  /** The stream ends with its last block. */
  lemma {:induction false} EndsWithLast(c: Core)
    requires c.mode.Done? ==> c.last
    ensures Run(c).mode.Done? ==> Run(c).last
    decreases |c.input|, Stage(c.mode), Pending(c.mode)
  {
    if Step(c).Some? {
      hide Step;
      StepToLast(c);
      EndsWithLast(Step(c).value);
    }
  }

  lemma StepToLast(c: Core)
    requires Step(c).Some?
    ensures Step(c).value.mode.Done? ==> Step(c).value.last
  {
    hide Find, Builds, Num, CodeLengthCode, FixedCodes, Lower, BadOp, EndOp, Value;
  }

  lemma StepKeepsOutput(c: Core)
    requires Step(c).Some?
    ensures c.out <= Step(c).value.out
  {
    hide Find, BlockCodes, Builds, Num, CodeLengthCode, FixedCodes, Lower;
  }

  /** No distance can be over 32768. */
  ghost predicate OffsetFits(m: Mode) {
    && (m.DistExt? ==> m.offset + Pow2(m.extra) <= 32769)
    && (m.Match? ==> m.offset <= 32768)
  }

  lemma DistanceFits(i: nat)
    requires i < 30
    ensures 16 <= DistOp(i) < 30 && 1 <= DistBase(i) && DistBase(i) + Pow2(DistOp(i) - 16) <= 32769
  {
    assert Pow2(13) == 8192;
    if i < 28 { Pow2Mono(DistOp(i) - 16, 12); }
  }

  lemma DistEntry(i: nat, b: nat)
    requires i < 32
    ensures SymbolEntry(DISTS, i, b) == Entry(DistOp(i), b, DistBase(i))
    ensures BadOp(DistOp(i)) <==> i >= 30
  {
  }

  lemma FoundDistance(lens: seq<nat>, s: seq<bool>)
    requires |lens| <= MaxSymbols(DISTS) && Find(DISTS, lens, s).Some? && !BadOp(Find(DISTS, lens, s).value.op)
    ensures var e := Find(DISTS, lens, s).value; 16 <= e.op < 30 && 1 <= e.val && e.val + Pow2(e.op % 16) <= 32769
  {
    hide Matches, Num, Pow2, Complete, NoMatch, DistOp, DistBase, SymbolEntry;
    if exists i: nat :: CodeAt(lens, i, s) {
      var e := Find(DISTS, lens, s).value;
      var i: nat :| CodeAt(lens, i, s) && e == SymbolEntry(DISTS, i, lens[i]);
      DistEntry(i, lens[i]);
      if i < 30 { DistanceFits(i); }
    }
  }

  lemma LengthFits(i: nat)
    requires i < 29
    ensures 16 <= LengthOp(i) < 22 && 3 <= LengthBase(i) && LengthBase(i) + Pow2(LengthOp(i) - 16) <= 259
  {
    assert Pow2(5) == 32;
    if i < 24 { Pow2Mono(LengthOp(i) - 16, 4); }
  }

  lemma LengthEntry(i: nat, b: nat)
    requires i < 288
    ensures SymbolEntry(LENS, i, b)
            == if i < 256 then Entry(0, b, i) else if i == 256 then Entry(96, b, 0)
               else Entry(LengthOp(i - 257), b, LengthBase(i - 257))
    ensures i >= 257 ==> !EndOp(LengthOp(i - 257)) && (BadOp(LengthOp(i - 257)) <==> i >= 286)
  {
  }

  /** What the entry of a literal/length code word can be. */
  ghost predicate LengthFound(e: Entry) {
    && (e.op == 0 ==> e.val < 256)
    && (e.op != 0 && !EndOp(e.op) && !BadOp(e.op) ==> 16 <= e.op < 22 && 3 <= e.val && e.val + Pow2(e.op % 16) <= 259)
  }

  lemma FoundLength(lens: seq<nat>, s: seq<bool>)
    requires |lens| <= MaxSymbols(LENS) && Find(LENS, lens, s).Some?
    ensures LengthFound(Find(LENS, lens, s).value)
  {
    hide Matches, Num, Pow2, Complete, NoMatch, LengthOp, LengthBase, SymbolEntry;
    if exists i: nat :: CodeAt(lens, i, s) {
      var e := Find(LENS, lens, s).value;
      var i: nat :| CodeAt(lens, i, s) && e == SymbolEntry(LENS, i, lens[i]);
      LengthEntry(i, lens[i]);
      if 257 <= i < 286 { LengthFits(i - 257); }
    }
  }

  lemma FoundCodeLength(lens: seq<nat>, s: seq<bool>)
    requires |lens| <= MaxSymbols(CODES) && Find(CODES, lens, s).Some?
    ensures Find(CODES, lens, s).value.val <= 18
  {
    hide Matches, Num, Pow2, Complete, NoMatch;
  }

  lemma StepKeepsOffset(c: Core)
    requires OffsetFits(c.mode) && Step(c).Some?
    ensures OffsetFits(Step(c).value.mode)
  {
    hide Find, BlockCodes, Builds, Num, CodeLengthCode, FixedCodes, Lower, Pow2, BadOp, EndOp;
    if c.mode.Dist? {
      if !BadOp(Find(DISTS, c.mode.codes.dlens, c.input).value.op) {
        FoundDistance(c.mode.codes.dlens, c.input);
      }
    }
  }

  /** With the 32K window no match is beyond the window and yet inside the output. */
  lemma {:induction false} NeverFar(c: Core)
    requires OffsetFits(c.mode)
    ensures !Far(c, 32768)
    decreases |c.input|, Stage(c.mode), Pending(c.mode)
  {
    hide Step;
    if Step(c).Some? {
      StepKeepsOffset(c);
      NeverFar(Step(c).value);
    }
  }

  // ------------------------------------------------------------ tables find code words

  lemma MatchesPrefix(lens: seq<nat>, i: nat, v: nat, w: nat, n: nat)
    requires Matches(lens, i, v) && lens[i] <= n && Low(v, n) == Low(w, n)
    ensures Matches(lens, i, w)
  {
    hide Low, Rev, Code;
    LowLow(v, n, lens[i]);
    LowLow(w, n, lens[i]);
  }

  /** An incomplete code that is usable has no word longer than a bit. */
  lemma IncompleteShort(kind: CodeType, lens: seq<nat>, i: nat)
    requires Usable(kind, lens) && !Complete(lens) && i < |lens|
    ensures lens[i] <= 1
  {
    hide Kraft;
  }

  lemma UsableFits(kind: CodeType, lens: seq<nat>)
    requires Usable(kind, lens)
    ensures !OverSubscribed(lens)
  {
  }

  /** `Find` on a stream from what a lookup says about its first `n` bits. */
  lemma FindByTable(tab: seq<Entry>, root: nat, kind: CodeType, lens: seq<nat>, s: seq<bool>, n: nat)
    requires Usable(kind, lens) && Decodes(tab, root, kind, lens) && n <= |s|
    ensures var e := Lookup(tab, root, Num(s[..n]));
            && e.bits >= 1
            && (e.bits <= n ==> Find(kind, lens, s) == Some(e))
            && (e.bits > n ==> Find(kind, lens, s[..n]) == None)
  {
    hide Lookup, Low, Num, Rev, Code, Kraft, SymbolEntry, Rejected, Pow2, Matches, Complete, OverSubscribed;
    var v, w := Num(s[..n]), Num(s);
    var e := Lookup(tab, root, v);
    NumTake(s, n);
    LowSmall(v, n);
    UsableFits(kind, lens);
    if i: nat :| Matches(lens, i, v) {
      MatchedIsUsed(lens, i, v);
      assert e == SymbolEntry(kind, i, lens[i]);
      if e.bits <= n {
        MatchesPrefix(lens, i, v, w, n);
        assert CodeAt(lens, i, s);
        forall j: nat | CodeAt(lens, j, s) ensures j == i { MatchUnique(lens, i, j, w); }
      } else {
        forall j: nat ensures !CodeAt(lens, j, s[..n]) {
          if CodeAt(lens, j, s[..n]) { MatchUnique(lens, i, j, v); }
        }
      }
    } else {
      assert e == INVALID;
      assert !Complete(lens) by {
        if Complete(lens) { var i := CompleteCovers(lens, v); }
      }
      forall j: nat ensures n >= 1 ==> !Matches(lens, j, w) {
        if n >= 1 && Matches(lens, j, w) {
          MatchedIsUsed(lens, j, w);
          IncompleteShort(kind, lens, j);
          MatchesPrefix(lens, j, w, v, n);
        }
      }
    }
  }

  // ------------------------------------------------------------ the window

  /** Where the last `size` of `n` bytes start. */
  function Floor(n: nat, size: nat): nat {
    if n > size then n - size else 0
  }

  /** The machine with all of its output at hand. */
  ghost function Unbounded(c: Core): Core {
    c.(floor := 0)
  }

  lemma UnboundedSame(c: Core)
    requires c.mode.Match? && c.mode.offset <= |c.out| ==> c.mode.offset + c.floor <= |c.out|
    requires Step(c).Some?
    ensures var d := Step(c).value;
            Step(Unbounded(c)) == Some(Unbounded(d)) && d.floor == c.floor && |c.out| <= |d.out|
  {
    hide Step;
    if c.mode.LenLens? || c.mode.CodeLens? {
      UnboundedLengths(c);
    } else if c.mode.Type? || c.mode.Stored? || c.mode.Table? {
      UnboundedHeader(c);
    } else {
      UnboundedCodes(c);
    }
  }

  lemma UnboundedCodes(c: Core)
    requires !c.mode.LenLens? && !c.mode.CodeLens? && !c.mode.Type? && !c.mode.Stored? && !c.mode.Table?
    requires c.mode.Match? && c.mode.offset <= |c.out| ==> c.mode.offset + c.floor <= |c.out|
    requires Step(c).Some?
    ensures var d := Step(c).value;
            Step(Unbounded(c)) == Some(Unbounded(d)) && d.floor == c.floor && |c.out| <= |d.out|
  {
    hide Find, Num, Lower, BadOp, EndOp, SymbolMode, Value, StepType, StepStored, StepTable, StepLenLens, StepCodeLens;
  }

  lemma UnboundedLengths(c: Core)
    requires (c.mode.LenLens? || c.mode.CodeLens?) && Step(c).Some?
    ensures var d := Step(c).value;
            Step(Unbounded(c)) == Some(Unbounded(d)) && d.floor == c.floor && d.out == c.out
  {
    hide Find, BlockCodes, Builds, Num, CodeLengthCode, Lower, RepeatBits, RepeatBase, Repeat;
  }

  lemma UnboundedHeader(c: Core)
    requires (c.mode.Type? || c.mode.Stored? || c.mode.Table?) && Step(c).Some?
    ensures var d := Step(c).value;
            Step(Unbounded(c)) == Some(Unbounded(d)) && d.floor == c.floor && d.out == c.out
  {
    hide Num, BlockMode, Lower, Aligned;
  }

  lemma UnboundedStep(c: Core, w: nat)
    requires (c.floor == 0 || c.floor + w <= |c.out|) && !Far(Unbounded(c), w) && Step(c).Some?
    ensures var d := Step(c).value;
            && Step(Unbounded(c)) == Some(Unbounded(d)) && !Far(Unbounded(d), w)
            && d.floor == c.floor && |c.out| <= |d.out|
  {
    hide Step;
    UnboundedSame(c);
  }

  /** With the last `w` bytes at hand, the machine goes the same way unless a match reaches beyond them. */
  lemma {:induction false} UnboundedFollows(c: Core, d: Core, w: nat)
    requires (c.floor == 0 || c.floor + w <= |c.out|) && !Far(Unbounded(c), w) && Follows(c, d)
    ensures Follows(Unbounded(c), Unbounded(d)) && !Far(Unbounded(d), w)
    decreases |c.input|, Stage(c.mode), Pending(c.mode)
  {
    hide Step, Far;
    if c != d {
      UnboundedStep(c, w);
      UnboundedFollows(Step(c).value, d, w);
    }
  }

  lemma StepKeepsFloor(c: Core)
    requires Step(c).Some?
    ensures Step(c).value.floor == c.floor
  {
    hide Find, BlockCodes, Builds, Num, CodeLengthCode, FixedCodes, Lower, Value;
  }

  // ------------------------------------------------------------ ways without far matches

  /** `d` is on the way from `c`, and no match before it comes from further back than `w`. */
  ghost predicate Near(c: Core, d: Core, w: nat)
    decreases |c.input|, Stage(c.mode), Pending(c.mode)
  {
    c == d || (Step(c).Some? && (c.mode.Match? ==> c.mode.offset <= w) && Near(Step(c).value, d, w))
  }

  lemma NearHere(c: Core, w: nat)
    ensures Near(c, c, w)
  {
  }

  lemma NearStep(c: Core, w: nat)
    requires Step(c).Some? && (c.mode.Match? ==> c.mode.offset <= w)
    ensures Near(c, Step(c).value, w)
  {
    hide Step;
  }

  lemma {:induction false} NearTrans(c: Core, d: Core, e: Core, w: nat)
    requires Near(c, d, w) && Near(d, e, w)
    ensures Near(c, e, w)
    decreases |c.input|, Stage(c.mode), Pending(c.mode)
  {
    hide Step;
    if c != d { NearTrans(Step(c).value, d, e, w); }
  }

  lemma {:induction false} NearFollows(c: Core, d: Core, w: nat)
    requires Near(c, d, w)
    ensures Follows(c, d)
    decreases |c.input|, Stage(c.mode), Pending(c.mode)
  {
    hide Step;
    if c != d { NearFollows(Step(c).value, d, w); }
  }

  lemma {:induction false} GrowsOn(c: Core, d: Core)
    requires Follows(c, d)
    ensures c.out <= d.out
    decreases |c.input|, Stage(c.mode), Pending(c.mode)
  {
    hide Step;
    if c != d {
      StepKeepsOutput(c);
      GrowsOn(Step(c).value, d);
    }
  }

  /** A match writes, or fails and ends the way. */
  lemma MatchWrites(c: Core)
    requires c.mode.Match?
    ensures Step(c).Some? && (|Step(c).value.out| == |c.out| + 1 || (Step(c).value.mode == Bad && Step(Step(c).value) == None))
  {
  }

  /** A way on which nothing is written has no matches. */
  lemma {:induction false} QuietNear(c: Core, d: Core, w: nat)
    requires Follows(c, d) && |c.out| == |d.out| && d.mode != Bad
    ensures Near(c, d, w)
    decreases |c.input|, Stage(c.mode), Pending(c.mode)
  {
    hide Step;
    if c != d {
      GrowsOn(Step(c).value, d);
      StepKeepsOutput(c);
      if c.mode.Match? { MatchWrites(c); }
      QuietNear(Step(c).value, d, w);
    }
  }

  /** If the whole way is without far matches, the window makes no difference. */
  lemma {:induction false} NearNotFar(c: Core, d: Core, w: nat)
    requires Near(c, d, w) && Step(d) == None
    ensures !Far(c, w)
    decreases |c.input|, Stage(c.mode), Pending(c.mode)
  {
    hide Step;
    if c == d {
      if c.mode.Match? { MatchWrites(c); }
    } else {
      NearNotFar(Step(c).value, d, w);
    }
  }

  lemma {:induction false} FarMono(c: Core, v: nat, w: nat)
    requires v <= w && Far(c, w)
    ensures Far(c, v)
    decreases |c.input|, Stage(c.mode), Pending(c.mode)
  {
    hide Step;
    if !(c.mode.Match? && w < c.mode.offset <= |c.out|) { FarMono(Step(c).value, v, w); }
  }
}
