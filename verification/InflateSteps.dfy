/**
 The steps of the machine of `InflateSpec` in terms of the registers of `inflate`: what a mode
 does when the bits it needs are there, and that it waits when they are not.
 */
module InflateSteps {
  import opened Bits
  import opened InflateTable
  import opened InflateSpec
  import opened BitInput

  datatype Phase =
    | TYPE | STORED | COPY | TABLE | LENLENS | CODELENS
    | LEN | LENEXT | DIST | DISTEXT | MATCH | LIT | DONE | BAD

  /**
   The registers, as far as the machine sees them: `codes` are the codes in use, `got` the
   lengths read so far, `out` the whole output and `floor` how far back it is at hand.
   */
  datatype Regs = Regs(mode: Phase, last: bool, length: nat, offset: nat, extra: nat, nlen: nat, ndist: nat, ncode: nat,
                       codes: Codes, clens: seq<nat>, got: seq<nat>, out: seq<Byte>, floor: nat,
                       hold: nat, bits: nat, input: seq<Byte>)

  ghost function Unread(r: Regs): seq<bool> {
    StreamOf(r.hold, r.bits, r.input)
  }

  ghost function ModeOf(r: Regs): Mode {
    match r.mode
    case TYPE => Type
    case STORED => Stored
    case COPY => Copy(r.length)
    case TABLE => Table
    case LENLENS => LenLens(r.nlen, r.ndist, r.ncode, r.got)
    case CODELENS => CodeLens(r.nlen, r.ndist, r.clens, r.got)
    case LEN => Len(r.codes)
    case LENEXT => LenExt(r.codes, r.length, r.extra)
    case DIST => Dist(r.codes, r.length)
    case DISTEXT => DistExt(r.codes, r.length, r.offset, r.extra)
    case MATCH => Match(r.codes, r.length, r.offset)
    case LIT => Lit(r.codes, r.length)
    case DONE => Done
    case BAD => Bad
  }

  /** The state of the machine, if `f` comes after the input at hand. */
  ghost function Abs(r: Regs, f: seq<bool>): Core {
    Core(ModeOf(r), r.last, r.out, Unread(r) + f, r.floor)
  }

  /** The state of the machine when there is only the accumulator. */
  ghost function Held(r: Regs): Core {
    Core(ModeOf(r), r.last, r.out, ToBits(r.hold, r.bits), r.floor)
  }

  /** No more than a byte is taken from the input before it is needed. */
  ghost predicate Lean(r: Regs) {
    r.bits < 8 || Step(Held(r)) == None
  }

  /** From `r` to `q` the machine makes one step. */
  ghost predicate Moves(r: Regs, q: Regs, f: seq<bool>) {
    Step(Abs(r, f)) == Some(Abs(q, f))
  }

  ghost predicate Does(r: Regs, q: Regs, f: seq<bool>) {
    Moves(r, q, f) && Lean(q)
  }

  /** All the input is used and no step can be made. */
  ghost predicate OutOfInput(q: Regs) {
    q.input == [] && Step(Abs(q, [])) == None
  }

  /** From `r` to `q` at most bytes were pulled, and there are not enough of them. */
  ghost predicate Waits(r: Regs, q: Regs, f: seq<bool>) {
    Abs(q, f) == Abs(r, f) && OutOfInput(q) && Lean(q)
  }

  /** `q` differs from `r` at most in the accumulator and the input. */
  ghost predicate Pulls(r: Regs, q: Regs) {
    q == r.(hold := q.hold, bits := q.bits, input := q.input) && Unread(q) == Unread(r)
  }

  // ------------------------------------------------------------ streams

  /** What stands in front of a stream does not depend on what follows. */
  lemma Front(s: seq<bool>, f: seq<bool>, n: nat)
    requires n <= |s|
    ensures Value(s + f, n) == Value(s, n) && (s + f)[n..] == s[n..] + f
  {
    assert (s + f)[..n] == s[..n];
  }

  /** Input comes in whole bytes. */
  ghost predicate Whole(f: seq<bool>) {
    |f| % 8 == 0
  }

  lemma AlignedFront(s: seq<bool>, f: seq<bool>)
    requires Whole(f)
    ensures Aligned(s + f) == Aligned(s) + f && (Bytewise(|s + f|) <==> Bytewise(|s|))
  {
    hide Value;
    assert |s + f| % 8 == |s| % 8;
    Front(s, f, |s| % 8);
  }

  lemma UnreadBytewise(r: Regs)
    ensures Bytewise(|Unread(r)|) <==> Bytewise(r.bits)
  {
  }

  lemma AlignedAlready(s: seq<bool>)
    requires Bytewise(|s|)
    ensures Aligned(s) == s
  {
  }

  lemma FirstBit(s: seq<bool>)
    requires |s| >= 1
    ensures Value(s, 1) == if s[0] then 1 else 0
  {
    assert s[..1] == [s[0]];
    assert Num([s[0]][1..]) == 0;
  }

  lemma Nothing(s: seq<bool>)
    ensures s + [] == s
  {
  }

  // ------------------------------------------------------------ block type

  lemma TypeLean(r: Regs)
    requires r.mode == TYPE && Lean(r)
    ensures r.bits < 8
  {
    hide ToBits, Num;
  }

  lemma TypeEnds(r: Regs, q: Regs, f: seq<bool>)
    requires r.mode == TYPE && r.last && Lean(r) && Whole(f)
    requires q == r.(mode := DONE, hold := q.hold, bits := q.bits) && Unread(q) == Aligned(Unread(r))
    ensures Does(r, q, f)
  {
    hide ToBits, Unread, Aligned;
    AlignedFront(Unread(r), f);
  }

  /** With the input used up, waiting for bits is lean. */
  lemma WaitsWhen(r: Regs, q: Regs, f: seq<bool>)
    requires Pulls(r, q) && q.input == [] && Step(Abs(q, [])) == None
    ensures Waits(r, q, f)
  {
    hide ToBits, Step;
    Nothing(Unread(q));
    Nothing(ToBits(q.hold, q.bits));
  }

  lemma TypeWaits(r: Regs, q: Regs, f: seq<bool>)
    requires r.mode == TYPE && !r.last && Pulls(r, q) && q.input == [] && |Unread(r)| < 3
    ensures Waits(r, q, f)
  {
    hide StreamOf;
    WaitsWhen(r, q, f);
  }

  /** The mode of `inflate` for a block type. */
  function BlockPhase(t: nat): Phase {
    if t == 0 then STORED else if t == 1 then LEN else if t == 2 then TABLE else BAD
  }

  lemma TypeReads(r: Regs, q: Regs, f: seq<bool>, s: seq<bool>, t: nat)
    requires s == Unread(r) && 3 <= |s| && t == Value(s[1..], 2)
    requires r.mode == TYPE && !r.last && q.bits < 8
    requires q.mode == BlockPhase(t) && (q.mode == LEN ==> q.codes == FixedCodes())
    requires q.last == s[0] && q.out == r.out && q.floor == r.floor && Unread(q) == s[3..]
    ensures Does(r, q, f)
  {
    hide ToBits, StreamOf, Value, FixedCodes;
    Front(s, f, 1);
    Front(s[1..], f, 2);
    Front(s, f, 3);
  }

  // ------------------------------------------------------------ stored blocks

  lemma StoredLean(r: Regs)
    requires r.mode == STORED && Lean(r)
    ensures (r.bits < 8 || Bytewise(r.bits)) && r.bits < 32
  {
    hide ToBits, Value;
  }

  lemma LeanStored(r: Regs)
    requires r.mode == STORED && Bytewise(r.bits) && r.bits < 32
    ensures Lean(r)
  {
    hide ToBits, Value;
  }

  lemma StoredAligns(r: Regs, q: Regs, f: seq<bool>)
    requires r.mode == STORED && Lean(r) && Whole(f)
    requires q == r.(hold := q.hold, bits := q.bits) && Bytewise(q.bits) && q.bits <= r.bits
    requires Unread(q) == Aligned(Unread(r))
    ensures Follows(Abs(r, f), Abs(q, f)) && Lean(q) && q.bits < 32 && |Unread(q)| <= |Unread(r)|
  {
    hide ToBits, Unread, Run, Far, Bytewise, Value, Follows;
    StoredLean(r);
    LeanStored(q);
    AlignedFront(Unread(r), f);
    if Bytewise(|Unread(r)|) {
      AlignedAlready(Unread(r));
      FollowsHere(Abs(r, f));
    } else {
      StoredAligning(r, f);
      FollowsStep(Abs(r, f));
    }
  }

  lemma StoredAligning(r: Regs, f: seq<bool>)
    requires r.mode == STORED && Whole(f) && !Bytewise(|Unread(r)|)
    ensures Step(Abs(r, f)) == Some(Abs(r, f).(input := Aligned(Unread(r)) + f))
  {
    hide Unread, Value, Aligned;
    AlignedFront(Unread(r), f);
  }

  lemma StoredWaits(r: Regs, q: Regs, f: seq<bool>)
    requires r.mode == STORED && Pulls(r, q) && q.input == [] && Bytewise(|Unread(r)|) && |Unread(r)| < 32
    ensures Waits(r, q, f)
  {
    hide StreamOf, Value;
    WaitsWhen(r, q, f);
  }

  lemma StoredReads(r: Regs, q: Regs, f: seq<bool>, s: seq<bool>, n: nat)
    requires r.mode == STORED && Whole(f) && s == Unread(r) && Bytewise(|s|) && 32 <= |s|
    requires n == Value(s, 16) && n + Value(s[16..], 16) == 65535
    requires q.mode == COPY && q.length == n && q.last == r.last && q.out == r.out && q.floor == r.floor && q.bits == 0 && Unread(q) == s[32..]
    ensures Does(r, q, f)
  {
    hide ToBits, StreamOf, Value, Aligned, Whole, Bytewise;
    AlignedFront(s, f);
    BytewiseOnly(|s + f|);
    Front(s, f, 16);
    Front(s[16..], f, 16);
    Front(s, f, 32);
  }

  lemma StoredFails(r: Regs, q: Regs, f: seq<bool>, s: seq<bool>)
    requires r.mode == STORED && Whole(f) && s == Unread(r) && Bytewise(|s|) && 32 <= |s|
    requires Value(s, 16) + Value(s[16..], 16) != 65535
    requires q.mode == BAD && q.last == r.last && q.out == r.out && q.floor == r.floor && Unread(q) == s
    ensures Does(r, q, f)
  {
    hide ToBits, StreamOf, Value, Aligned, Whole, Bytewise;
    AlignedFront(s, f);
    BytewiseOnly(|s + f|);
    Front(s, f, 16);
    Front(s[16..], f, 16);
  }

  lemma BytewiseOnly(n: nat)
    ensures Bytewise(n) <==> n % 8 == 0
  {
  }

  /** Copying stored bytes several at a time. */
  lemma {:induction false} CopyFollows(c: Core, x: seq<Byte>, f: seq<bool>, k: nat)
    requires c.mode.Copy? && k <= c.mode.left && k <= |x| && c.input == BytesToBits(x) + f
    ensures Follows(c, Core(Copy(c.mode.left - k), c.last, c.out + x[..k], BytesToBits(x[k..]) + f, c.floor))
    decreases k
  {
    hide Step, Follows, BytesToBits;
    if k == 0 {
      assert c.out + x[..0] == c.out && x[0..] == x;
      FollowsHere(c);
    } else {
      CopyStep(c, x, f);
      var d := Step(c).value;
      FollowsStep(c);
      CopyFollows(d, x[1..], f, k - 1);
      assert x[1..][k - 1..] == x[k..];
      assert c.out + [x[0]] + x[1..][..k - 1] == c.out + x[..k];
      FollowsTrans(c, d, Core(Copy(c.mode.left - k), c.last, c.out + x[..k], BytesToBits(x[k..]) + f, c.floor));
    }
  }

  lemma CopyStep(c: Core, x: seq<Byte>, f: seq<bool>)
    requires c.mode.Copy? && c.input == BytesToBits(x) + f
    ensures c.mode.left == 0 ==> Step(c) == Some(c.(mode := Type))
    ensures c.mode.left > 0 && x != [] ==>
              Step(c) == Some(Core(Copy(c.mode.left - 1), c.last, c.out + [x[0]], BytesToBits(x[1..]) + f, c.floor))
    ensures c.mode.left > 0 && x == [] && f == [] ==> Step(c) == None
  {
    hide Num, ToBits;
    if x != [] {
      var s := BytesToBits(x);
      Front(s, f, 8);
      assert s[..8] == ToBits(x[0], 8) && s[8..] == BytesToBits(x[1..]);
      HoldIsNum(x[0], 8) by { assert Pow2(8) == 256; }
    }
  }

  // ------------------------------------------------------------ lengths of a dynamic block

  lemma TableLean(r: Regs)
    requires r.mode == TABLE && Lean(r)
    ensures r.bits < 14
  {
    hide ToBits, Value;
  }

  lemma TableWaits(r: Regs, q: Regs, f: seq<bool>)
    requires r.mode == TABLE && Pulls(r, q) && q.input == [] && |Unread(r)| < 14
    ensures Waits(r, q, f)
  {
    hide StreamOf, Value;
    WaitsWhen(r, q, f);
  }

  lemma TableReads(r: Regs, q: Regs, f: seq<bool>, s: seq<bool>, nlen: nat, ndist: nat, ncode: nat)
    requires r.mode == TABLE && s == Unread(r) && 14 <= |s| && q.bits < 8
    requires nlen == Value(s, 5) + 257 && ndist == Value(s[5..], 5) + 1 && ncode == Value(s[10..], 4) + 4
    requires q.last == r.last && q.out == r.out && q.floor == r.floor && Unread(q) == s[14..]
    requires if nlen > 286 || ndist > 30 then q.mode == BAD
             else q.mode == LENLENS && q.nlen == nlen && q.ndist == ndist && q.ncode == ncode && q.got == []
    ensures Does(r, q, f)
  {
    hide StreamOf, Value, ToBits;
    Front(s, f, 5);
    Front(s[5..], f, 5);
    Front(s, f, 10);
    Front(s[10..], f, 4);
    Front(s, f, 14);
  }

  lemma LenLensLean(r: Regs)
    requires r.mode == LENLENS && Lean(r)
    ensures r.bits < 8
  {
    hide ToBits, Value, CodeLengthCode, Builds;
  }

  lemma LenLensWaits(r: Regs, q: Regs, f: seq<bool>)
    requires r.mode == LENLENS && |r.got| < r.ncode && Pulls(r, q) && q.input == [] && |Unread(r)| < 3
    ensures Waits(r, q, f)
  {
    hide StreamOf, Value, CodeLengthCode, Builds;
    WaitsWhen(r, q, f);
  }

  lemma LenLensReads(r: Regs, q: Regs, f: seq<bool>, s: seq<bool>, v: nat)
    requires r.mode == LENLENS && |r.got| < r.ncode && s == Unread(r) && 3 <= |s| && v == Value(s, 3)
    requires q.mode == LENLENS && q.nlen == r.nlen && q.ndist == r.ndist && q.ncode == r.ncode && q.got == r.got + [v]
    requires q.bits < 8 && q.last == r.last && q.out == r.out && q.floor == r.floor && Unread(q) == s[3..]
    ensures Does(r, q, f)
  {
    hide StreamOf, Value, CodeLengthCode, Builds, ToBits;
    Front(s, f, 3);
  }

  lemma LenLensEnds(r: Regs, q: Regs, f: seq<bool>)
    requires r.mode == LENLENS && |r.got| >= r.ncode && Builds(CODES, q.clens, 7) && q.clens == CodeLengthCode(r.got)
    requires q.bits < 8 && q.last == r.last && q.out == r.out && q.floor == r.floor && Unread(q) == Unread(r)
    requires q.mode == CODELENS && q.nlen == r.nlen && q.ndist == r.ndist && q.got == []
    ensures Does(r, q, f)
  {
    hide StreamOf, Value, CodeLengthCode, Builds, ToBits;
  }

  lemma LenLensFails(r: Regs, q: Regs, f: seq<bool>)
    requires r.mode == LENLENS && |r.got| >= r.ncode && !Builds(CODES, CodeLengthCode(r.got), 7)
    requires q.last == r.last && q.out == r.out && q.floor == r.floor && Unread(q) == Unread(r) && q.mode == BAD
    ensures Does(r, q, f)
  {
    hide StreamOf, Value, CodeLengthCode, Builds, ToBits;
  }

  /** A symbol of the code length code is there, but not all of its extra bits. */
  ghost predicate ExtraMissing(clens: seq<nat>, s: seq<bool>)
    requires |clens| <= MaxSymbols(CODES)
  {
    var e := Find(CODES, clens, s);
    e.Some? && e.value.val >= 16 && |s| < e.value.bits + RepeatBits(e.value.val)
  }

  lemma CodeLensLean(r: Regs)
    requires r.mode == CODELENS && |r.clens| <= MaxSymbols(CODES) && Lean(r)
    ensures var h := ToBits(r.hold, r.bits);
            r.bits < 8 || (|r.got| < r.nlen + r.ndist && (Find(CODES, r.clens, h) == None || ExtraMissing(r.clens, h)))
  {
    hide ToBits, Value, Find, BlockCodes, Num;
  }

  lemma CodeLensWaits(r: Regs, q: Regs, f: seq<bool>)
    requires r.mode == CODELENS && |r.clens| <= MaxSymbols(CODES) && |r.got| < r.nlen + r.ndist
    requires Pulls(r, q) && q.input == []
    requires Find(CODES, r.clens, Unread(r)) == None || ExtraMissing(r.clens, Unread(r))
    ensures Waits(r, q, f)
  {
    hide StreamOf, Value, Find, BlockCodes;
    Nothing(Unread(q));
    WaitsWhen(r, q, f);
  }

  /** The registers change, in mode CODELENS, only in the lengths and the stream. */
  ghost predicate MoreLengths(r: Regs, q: Regs, more: seq<nat>) {
    && q.mode == CODELENS && q.nlen == r.nlen && q.ndist == r.ndist && q.clens == r.clens && q.got == r.got + more
    && q.last == r.last && q.out == r.out && q.floor == r.floor
  }

  lemma CodeLensReads(r: Regs, q: Regs, f: seq<bool>, e: Entry)
    requires r.mode == CODELENS && |r.clens| <= MaxSymbols(CODES) && |r.got| < r.nlen + r.ndist && q.bits < 8
    requires Find(CODES, r.clens, Unread(r) + f) == Some(e) && e.val < 16 && e.bits <= |Unread(r)|
    requires MoreLengths(r, q, [e.val]) && Unread(q) == Unread(r)[e.bits..]
    ensures Does(r, q, f)
  {
    hide StreamOf, Value, Find, BlockCodes, ToBits;
    Front(Unread(r), f, e.bits);
  }

  /** A repeat symbol with its extra bits `x` gives `n` times the length `v`. */
  ghost predicate Repeats(r: Regs, e: Entry, x: nat, v: nat, n: nat) {
    && 16 <= e.val && (e.val == 16 ==> r.got != [] && v == r.got[|r.got| - 1]) && (e.val != 16 ==> v == 0)
    && n == RepeatBase(e.val) + x
  }

  /** The stream of `r` starts with the symbol `e` and its extra bits `x`, and that of `q` goes on from there. */
  ghost predicate RepeatRead(r: Regs, q: Regs, f: seq<bool>, e: Entry, x: nat) {
    && r.mode == CODELENS && |r.clens| <= MaxSymbols(CODES) && |r.got| < r.nlen + r.ndist
    && Find(CODES, r.clens, Unread(r) + f) == Some(e) && e.bits + RepeatBits(e.val) <= |Unread(r)|
    && x == Value(Unread(r)[e.bits..], RepeatBits(e.val))
    && Unread(q) == Unread(r)[e.bits + RepeatBits(e.val)..] && q.bits < 8
  }

  lemma RepeatReadSame(r: Regs, q: Regs, p: Regs, f: seq<bool>, e: Entry, x: nat)
    requires RepeatRead(r, q, f, e, x) && p.hold == q.hold && p.bits == q.bits && p.input == q.input
    ensures RepeatRead(r, p, f, e, x)
  {
    hide Find, StreamOf, Value;
  }

  lemma RepeatFront(r: Regs, q: Regs, f: seq<bool>, e: Entry, x: nat)
    requires RepeatRead(r, q, f, e, x)
    ensures var s := Unread(r) + f;
            && e.bits + RepeatBits(e.val) <= |s| && Value(s[e.bits..], RepeatBits(e.val)) == x
            && s[e.bits + RepeatBits(e.val)..] == Unread(q) + f
  {
    hide StreamOf, Value, Find, RepeatBits;
    Front(Unread(r), f, e.bits);
    Front(Unread(r)[e.bits..], f, RepeatBits(e.val));
    Front(Unread(r), f, e.bits + RepeatBits(e.val));
  }

  lemma CodeLensRepeats(r: Regs, q: Regs, f: seq<bool>, e: Entry, x: nat, v: nat, n: nat)
    requires RepeatRead(r, q, f, e, x) && Repeats(r, e, x, v, n)
    requires |r.got| + n <= r.nlen + r.ndist && MoreLengths(r, q, Repeat(v, n))
    ensures Does(r, q, f)
  {
    hide StreamOf, Value, Find, BlockCodes, ToBits, RepeatBits, RepeatBase, Repeat;
    RepeatFront(r, q, f, e, x);
  }

  lemma CodeLensOverflows(r: Regs, q: Regs, f: seq<bool>, e: Entry, x: nat, v: nat, n: nat)
    requires RepeatRead(r, q, f, e, x) && Repeats(r, e, x, v, n)
    requires |r.got| + n > r.nlen + r.ndist && q.mode == BAD && q.last == r.last && q.out == r.out && q.floor == r.floor
    ensures Does(r, q, f)
  {
    hide StreamOf, Value, Find, BlockCodes, ToBits, RepeatBits, RepeatBase, Repeat;
    RepeatFront(r, q, f, e, x);
  }

  /** A repeat of the length before the first. */
  lemma CodeLensFirst(r: Regs, q: Regs, f: seq<bool>, e: Entry)
    requires r.mode == CODELENS && |r.clens| <= MaxSymbols(CODES) && |r.got| < r.nlen + r.ndist
    requires Find(CODES, r.clens, Unread(r) + f) == Some(e) && e.val == 16 && r.got == [] && e.bits + 2 <= |Unread(r)|
    requires q.mode == BAD && q.last == r.last && q.out == r.out && q.floor == r.floor && Unread(q) == Unread(r)[e.bits..]
    ensures Does(r, q, f)
  {
    hide StreamOf, Value, Find, BlockCodes, ToBits;
    Front(Unread(r), f, e.bits);
  }

  lemma CodeLensEnds(r: Regs, q: Regs, f: seq<bool>)
    requires r.mode == CODELENS && |r.got| >= r.nlen + r.ndist && q.bits < 8
    requires q.last == r.last && q.out == r.out && q.floor == r.floor && Unread(q) == Unread(r)
    requires q.mode == LEN && BlockCodes(r.nlen, r.got) == Len(q.codes)
    ensures Does(r, q, f)
  {
    hide StreamOf, Value, Find, BlockCodes, ToBits;
  }

  lemma CodeLensFails(r: Regs, q: Regs, f: seq<bool>)
    requires r.mode == CODELENS && |r.got| >= r.nlen + r.ndist
    requires q.last == r.last && q.out == r.out && q.floor == r.floor && Unread(q) == Unread(r)
    requires q.mode == BAD && BlockCodes(r.nlen, r.got) == Bad
    ensures Does(r, q, f)
  {
    hide StreamOf, Value, Find, BlockCodes, ToBits;
  }

  // ------------------------------------------------------------ codes

  lemma LenLean(r: Regs)
    requires r.mode == LEN && Readable(r.codes) && Lean(r)
    ensures r.bits < 8 || Find(LENS, r.codes.llens, ToBits(r.hold, r.bits)) == None
  {
    hide ToBits, Find;
  }

  lemma LenWaits(r: Regs, q: Regs, f: seq<bool>)
    requires r.mode == LEN && Readable(r.codes) && Pulls(r, q) && q.input == []
    requires Find(LENS, r.codes.llens, Unread(r)) == None
    ensures Waits(r, q, f)
  {
    hide StreamOf, Find;
    Nothing(Unread(q));
    WaitsWhen(r, q, f);
  }

  /** The mode of `inflate` for the entry of a literal/length code word. */
  function SymbolPhase(e: Entry): Phase {
    if e.op == 0 then LIT else if EndOp(e.op) then TYPE else if BadOp(e.op) then BAD else LENEXT
  }

  lemma LenReads(r: Regs, q: Regs, f: seq<bool>, e: Entry)
    requires r.mode == LEN && Readable(r.codes)
    requires Find(LENS, r.codes.llens, Unread(r) + f) == Some(e) && e.bits <= |Unread(r)|
    requires q.mode == SymbolPhase(e) && q.codes == r.codes && q.length == e.val && (q.mode == LENEXT ==> q.extra == e.op % 16)
    requires q.last == r.last && q.out == r.out && q.floor == r.floor && Unread(q) == Unread(r)[e.bits..]
    ensures Moves(r, q, f) && (q.bits < 8 ==> Does(r, q, f))
  {
    hide StreamOf, Find, ToBits, EndOp, BadOp;
    Front(Unread(r), f, e.bits);
  }

  lemma LenExtLean(r: Regs)
    requires r.mode == LENEXT && Lean(r)
    ensures r.bits < 8 || r.bits < r.extra
  {
    hide ToBits, Value;
  }

  lemma LenExtWaits(r: Regs, q: Regs, f: seq<bool>)
    requires r.mode == LENEXT && Pulls(r, q) && q.input == [] && |Unread(r)| < r.extra
    ensures Waits(r, q, f)
  {
    hide StreamOf, Value;
    WaitsWhen(r, q, f);
  }

  lemma LenExtReads(r: Regs, q: Regs, f: seq<bool>)
    requires r.mode == LENEXT && r.extra <= |Unread(r)|
    requires q.mode == DIST && q.codes == r.codes && q.length == r.length + Value(Unread(r), r.extra)
    requires q.last == r.last && q.out == r.out && q.floor == r.floor && Unread(q) == Unread(r)[r.extra..]
    ensures Moves(r, q, f) && (q.bits < 8 ==> Does(r, q, f))
  {
    hide StreamOf, ToBits, Value;
    Front(Unread(r), f, r.extra);
  }

  lemma DistLean(r: Regs)
    requires r.mode == DIST && Readable(r.codes) && Lean(r)
    ensures r.bits < 8 || Find(DISTS, r.codes.dlens, ToBits(r.hold, r.bits)) == None
  {
    hide ToBits, Find;
  }

  lemma DistWaits(r: Regs, q: Regs, f: seq<bool>)
    requires r.mode == DIST && Readable(r.codes) && Pulls(r, q) && q.input == []
    requires Find(DISTS, r.codes.dlens, Unread(r)) == None
    ensures Waits(r, q, f)
  {
    hide StreamOf, Find;
    Nothing(Unread(q));
    WaitsWhen(r, q, f);
  }

  lemma DistReads(r: Regs, q: Regs, f: seq<bool>, e: Entry)
    requires r.mode == DIST && Readable(r.codes)
    requires Find(DISTS, r.codes.dlens, Unread(r) + f) == Some(e) && e.bits <= |Unread(r)|
    requires !BadOp(e.op) && q.mode == DISTEXT && q.codes == r.codes && q.length == r.length
    requires q.offset == e.val && q.extra == e.op % 16
    requires q.last == r.last && q.out == r.out && q.floor == r.floor && Unread(q) == Unread(r)[e.bits..]
    ensures Moves(r, q, f) && (q.bits < 8 ==> Does(r, q, f))
  {
    hide StreamOf, Find, ToBits, BadOp;
    Front(Unread(r), f, e.bits);
  }

  lemma DistFails(r: Regs, q: Regs, f: seq<bool>, e: Entry)
    requires r.mode == DIST && Readable(r.codes)
    requires Find(DISTS, r.codes.dlens, Unread(r) + f) == Some(e) && e.bits <= |Unread(r)| && BadOp(e.op)
    requires q.mode == BAD && q.last == r.last && q.out == r.out && q.floor == r.floor && Unread(q) == Unread(r)[e.bits..]
    ensures Does(r, q, f)
  {
    hide StreamOf, Find, ToBits, BadOp;
    Front(Unread(r), f, e.bits);
  }

  lemma DistExtLean(r: Regs)
    requires r.mode == DISTEXT && Lean(r)
    ensures r.bits < 8 || r.bits < r.extra
  {
    hide ToBits, Value;
  }

  lemma DistExtWaits(r: Regs, q: Regs, f: seq<bool>)
    requires r.mode == DISTEXT && Pulls(r, q) && q.input == [] && |Unread(r)| < r.extra
    ensures Waits(r, q, f)
  {
    hide StreamOf, Value;
    WaitsWhen(r, q, f);
  }

  lemma DistExtReads(r: Regs, q: Regs, f: seq<bool>)
    requires r.mode == DISTEXT && r.extra <= |Unread(r)|
    requires q.mode == MATCH && q.codes == r.codes && q.length == r.length && q.offset == r.offset + Value(Unread(r), r.extra)
    requires q.last == r.last && q.out == r.out && q.floor == r.floor && Unread(q) == Unread(r)[r.extra..]
    ensures Moves(r, q, f) && (q.bits < 8 ==> Does(r, q, f))
  {
    hide StreamOf, ToBits, Value;
    Front(Unread(r), f, r.extra);
  }

  // ------------------------------------------------------------ output

  lemma OutputLean(r: Regs)
    requires (r.mode == LIT || r.mode == MATCH) && Lean(r)
    ensures r.bits < 8
  {
    hide ToBits;
  }

  /** The registers that a mode keeps when it only writes output. */
  ghost predicate Writes(r: Regs, q: Regs, x: seq<Byte>) {
    q.codes == r.codes && q.last == r.last && q.out == r.out + x && q.floor == r.floor && q.hold == r.hold && q.bits == r.bits && q.input == r.input
  }

  lemma WritesNow(r: Regs, q: Regs, x: seq<Byte>)
    requires q == r.(mode := q.mode, length := q.length, out := r.out + x)
    ensures Writes(r, q, x)
  {
  }

  lemma LitWrites(r: Regs, q: Regs, f: seq<bool>, x: Byte)
    requires r.mode == LIT && r.length == x && q.mode == LEN && Writes(r, q, [x])
    ensures Moves(r, q, f) && (q.bits < 8 ==> Does(r, q, f))
  {
    hide StreamOf, ToBits;
  }

  /** The `n` bytes `x` that a match with this offset adds to `out`. */
  ghost predicate Copied(out: seq<Byte>, offset: nat, x: seq<Byte>) {
    && 1 <= offset <= |out|
    && forall i | 0 <= i < |x| :: x[i] == (out + x)[|out| + i - offset]
  }

  /** The registers after `n` bytes of a match. */
  ghost function Matched(r: Regs, x: seq<Byte>): Regs
    requires |x| <= r.length
  {
    r.(mode := if r.length == |x| then LEN else MATCH, length := r.length - |x|, out := r.out + x)
  }

  lemma MatchWrites(r: Regs, q: Regs, f: seq<bool>, x: Byte)
    requires r.mode == MATCH && r.length >= 1 && 1 <= r.offset && r.offset + r.floor <= |r.out|
    requires x == r.out[|r.out| - r.offset] && q == Matched(r, [x])
    ensures Moves(r, q, f) && (q.bits < 8 ==> Does(r, q, f))
  {
    hide StreamOf, ToBits;
  }

  /** Copying several bytes of a match. */
  lemma {:induction false} MatchFollows(r: Regs, x: seq<Byte>, f: seq<bool>)
    requires r.mode == MATCH && 1 <= |x| <= r.length && r.offset + r.floor <= |r.out| && Copied(r.out, r.offset, x)
    ensures Follows(Abs(r, f), Abs(Matched(r, x), f))
    decreases |x|
  {
    hide Abs, Step, Follows, Lean;
    var q := Matched(r, [x[0]]);
    assert (r.out + x)[|r.out| - r.offset] == r.out[|r.out| - r.offset];
    MatchWrites(r, q, f, x[0]);
    FollowsStep(Abs(r, f));
    if |x| == 1 {
      assert x == [x[0]];
    } else {
      var y := x[1..];
      assert q.out + y == r.out + x;
      forall i | 0 <= i < |y| ensures y[i] == (q.out + y)[|q.out| + i - q.offset] {
        assert x[i + 1] == (r.out + x)[|r.out| + (i + 1) - r.offset];
      }
      MatchFollows(q, y, f);
      assert Matched(q, y) == Matched(r, x);
      FollowsTrans(Abs(r, f), Abs(q, f), Abs(Matched(r, x), f));
    }
  }

  lemma MatchFails(r: Regs, q: Regs, f: seq<bool>)
    requires r.mode == MATCH && r.offset + r.floor > |r.out| && q == r.(mode := BAD)
    ensures Does(r, q, f)
  {
    hide StreamOf, ToBits;
  }

  // ------------------------------------------------------------ several steps

  /** From `r` to `q` the machine makes some steps, at least one if `strict`. */
  ghost predicate Goes(r: Regs, q: Regs, f: seq<bool>, strict: bool) {
    && Follows(Abs(r, f), Abs(q, f)) && Lean(q)
    && (Lower(Abs(q, f), Abs(r, f)) || (!strict && Abs(q, f) == Abs(r, f)))
  }

  lemma GoesNowhere(r: Regs, f: seq<bool>)
    requires Lean(r)
    ensures Goes(r, r, f, false)
  {
    hide Lean, Abs, Follows;
    FollowsHere(Abs(r, f));
  }

  lemma GoesLean(r: Regs, q: Regs, f: seq<bool>)
    requires Goes(r, q, f, false)
    ensures Lean(q)
  {
  }

  lemma GoesLoose(r: Regs, q: Regs, f: seq<bool>)
    requires Goes(r, q, f, true)
    ensures Goes(r, q, f, false)
  {
  }

  lemma GoesDoes(r: Regs, q: Regs, p: Regs, f: seq<bool>)
    requires Goes(r, q, f, false) && Does(q, p, f)
    ensures Goes(r, p, f, true)
  {
    hide Lean, Abs, Follows, Step;
    FollowsStep(Abs(q, f));
    FollowsTrans(Abs(r, f), Abs(q, f), Abs(p, f));
  }

  lemma GoesWaits(r: Regs, q: Regs, p: Regs, f: seq<bool>)
    requires Goes(r, q, f, false) && Waits(q, p, f)
    ensures Goes(r, p, f, false) && OutOfInput(p)
  {
    hide Lean, Abs, Follows, Step;
  }

  lemma DoesGoes(r: Regs, q: Regs, f: seq<bool>)
    requires Does(r, q, f)
    ensures Goes(r, q, f, true)
  {
    hide Lean, Abs, Follows, Step;
    FollowsStep(Abs(r, f));
  }

  lemma WaitsGoes(r: Regs, q: Regs, f: seq<bool>)
    requires Waits(r, q, f)
    ensures Goes(r, q, f, false) && OutOfInput(q)
  {
    hide Lean, Abs, Follows, Step;
    FollowsHere(Abs(r, f));
  }

  lemma GoesOn(r: Regs, q: Regs, p: Regs, f: seq<bool>, strict: bool)
    requires Goes(r, q, f, strict) && Goes(q, p, f, false)
    ensures Goes(r, p, f, strict)
  {
    hide Lean, Abs, Follows, Step;
    FollowsTrans(Abs(r, f), Abs(q, f), Abs(p, f));
  }

  lemma StoredGoes(r: Regs, q: Regs, f: seq<bool>)
    requires r.mode == STORED && Lean(r) && Whole(f)
    requires q == r.(hold := q.hold, bits := q.bits) && Bytewise(q.bits) && q.bits <= r.bits
    requires Unread(q) == Aligned(Unread(r))
    ensures Goes(r, q, f, false) && q.bits < 32
  {
    hide StreamOf, Follows, Lean, Bytewise, Aligned, Whole;
    StoredAligns(r, q, f);
    if |Unread(q)| == |Unread(r)| { NothingDropped(Unread(r)); }
  }

  lemma NothingDropped(s: seq<bool>)
    requires |Aligned(s)| == |s|
    ensures Aligned(s) == s
  {
  }

  lemma CopyEnds(r: Regs, q: Regs, f: seq<bool>)
    requires r.mode == COPY && r.length == 0 && r.bits == 0 && q == r.(mode := TYPE)
    ensures Goes(r, q, f, true)
  {
    hide StreamOf, Follows, ToBits;
    FollowsStep(Abs(r, f));
  }

  lemma CopyStarves(r: Regs)
    requires r.mode == COPY && r.length > 0 && r.bits == 0 && r.input == []
    ensures OutOfInput(r)
  {
    assert Unread(r) + [] == [];
  }

  lemma UnreadBytes(r: Regs)
    requires r.bits == 0
    ensures Unread(r) == BytesToBits(r.input)
  {
    assert ToBits(r.hold, 0) + BytesToBits(r.input) == BytesToBits(r.input);
  }

  lemma CopyGoes(r: Regs, q: Regs, f: seq<bool>, k: nat)
    requires r.mode == COPY && r.bits == 0 && 1 <= k <= r.length && k <= |r.input|
    requires q == r.(length := r.length - k, out := r.out + r.input[..k], input := r.input[k..])
    ensures Goes(r, q, f, true)
  {
    hide StreamOf, Follows, BytesToBits, Step;
    UnreadBytes(r);
    UnreadBytes(q);
    CopyFollows(Abs(r, f), r.input, f, k);
  }

  lemma MatchGoes(r: Regs, q: Regs, x: seq<Byte>, f: seq<bool>)
    requires r.mode == MATCH && Lean(r) && 1 <= |x| <= r.length && r.offset + r.floor <= |r.out| && Copied(r.out, r.offset, x)
    requires Writes(r, q, x) && q.length == r.length - |x| && q.offset == r.offset
    requires q.mode == if q.length == 0 then LEN else MATCH
    ensures Goes(r, q, f, true)
  {
    hide StreamOf, Follows, Copied, ToBits, Step;
    OutputLean(r);
    MatchFollows(r, x, f);
    assert Abs(q, f) == Abs(Matched(r, x), f);
  }

  // ------------------------------------------------------------ steps of the fast path

  /** From `r` to `q` the machine makes some steps; the accumulator may be full. */
  ghost predicate Gone(r: Regs, q: Regs, f: seq<bool>) {
    Follows(Abs(r, f), Abs(q, f)) && Lower(Abs(q, f), Abs(r, f))
  }

  lemma GoneFirst(r: Regs, q: Regs, f: seq<bool>)
    requires Moves(r, q, f)
    ensures Gone(r, q, f)
  {
    hide Abs, Follows, Step;
    FollowsStep(Abs(r, f));
  }

  lemma GoneOn(r: Regs, q: Regs, p: Regs, f: seq<bool>)
    requires Gone(r, q, f) && Gone(q, p, f)
    ensures Gone(r, p, f)
  {
    hide Abs, Follows, Step;
    FollowsTrans(Abs(r, f), Abs(q, f), Abs(p, f));
  }

  lemma GoneSame(r: Regs, q: Regs, p: Regs, f: seq<bool>)
    requires Gone(r, q, f) && (Abs(q, f) == Abs(p, f) || Gone(q, p, f))
    ensures Gone(r, p, f)
  {
    hide Abs, Follows;
    if Gone(q, p, f) { GoneOn(r, q, p, f); }
  }

  /** The registers that both have whatever the mode. */
  ghost predicate Over(q: Regs, p: Regs) {
    q.codes == p.codes && q.last == p.last && q.out == p.out && q.floor == p.floor && q.hold == p.hold && q.bits == p.bits && q.input == p.input
  }

  lemma WritesAfter(q: Regs, p: Regs, p': Regs, x: seq<Byte>)
    requires Over(q, p) && p' == p.(out := p.out + x)
    ensures Writes(q, p', x)
  {
  }

  lemma DoesMoves(r: Regs, q: Regs, f: seq<bool>)
    requires Does(r, q, f)
    ensures Moves(r, q, f)
  {
  }

  /** A match from before what is at hand. */
  lemma MatchStops(r: Regs, q: Regs, f: seq<bool>)
    requires r.mode == MATCH && r.offset + r.floor > |r.out| && Over(r, q) && q.mode == BAD
    ensures Gone(r, q, f)
  {
    hide Follows, Step, StreamOf;
    var p := r.(mode := BAD);
    assert Abs(p, f) == Abs(q, f);
    MatchFails(r, p, f);
    FollowsStep(Abs(r, f));
  }

  lemma MatchGone(r: Regs, q: Regs, x: seq<Byte>, f: seq<bool>)
    requires r.mode == MATCH && 1 <= |x| == r.length && r.offset + r.floor <= |r.out| && Copied(r.out, r.offset, x)
    requires Writes(r, q, x) && q.mode == LEN
    ensures Gone(r, q, f)
  {
    hide StreamOf, Follows, Copied, Step;
    MatchFollows(r, x, f);
    assert Abs(q, f) == Abs(Matched(r, x), f);
  }

  lemma GoneGoes(r: Regs, q: Regs, p: Regs, f: seq<bool>)
    requires Gone(r, q, f) && Pulls(q, p) && p.bits < 8
    ensures Goes(r, p, f, true)
  {
    hide Follows, Step, StreamOf, ToBits, Lower;
    assert Abs(p, f) == Abs(q, f);
  }
}
