/**
 `inflate` (inflate.c) as a whole, for raw streams: one call, and any sequence of calls.
 */
module InflateStream {
  import opened Bits
  import opened CanonicalCode
  import opened InflateTable
  import opened InflateSpec
  import opened BitInput
  import opened InflateSteps
  import opened Window
  import opened RawInflate
  import InflateFast

  /** There is nothing to be done without more input or more room. */
  ghost predicate Stalled(z: Inflater)
    reads z, z.b
  {
    || (Step(Abs(z.Snap(), [])) == None && (z.b.input == [] || z.mode == DONE || z.mode == BAD))
    || (z.left == 0 && WantsRoom(z))
  }

  /** The next step writes a byte. */
  ghost predicate WantsRoom(z: Inflater)
    reads z
  {
    z.mode == LIT || z.mode == MATCH || (z.mode == COPY && z.length > 0)
  }

  ghost predicate Ready(z: Inflater)
    reads z, z.b, z.w, z.w.buffer, z.lens
  {
    z.Ok() && z.w.Holds(z.hist) && (z.w.wsize == 0 ==> z.hist == []) && Lean(z.Snap())
  }

  // ------------------------------------------------------------ one mode

  /** The modes that read a fixed number of bits. */
  method HeaderMode(z: Inflater, ghost f: seq<bool>) returns (go: bool)
    requires z.Ok() && Lean(z.Snap()) && Whole(f) && (z.mode == TYPE || z.mode == STORED || z.mode == TABLE)
    modifies z`mode, z`last, z`length, z`nlen, z`ndist, z`ncode, z`have, z`got, z`lencode, z`lenbits, z`distcode, z`distbits, z`cur
    modifies z.b`hold, z.b`bits, z.b`input
    ensures z.Ok() && Goes(old(z.Snap()), z.Snap(), f, go) && (!go ==> OutOfInput(z.Snap()))
  {
    hide Goes, Does, Waits, Lean, Abs, Whole, Step, Inflater.Ok;
    ghost var r := z.Snap();
    if z.mode == TYPE {
      go := z.DoType(f);
    } else if z.mode == TABLE {
      go := z.DoTable(f);
    } else {
      go := z.DoStored(f);
      return;
    }
    Stepped(r, z.Snap(), f, go);
  }

  /** A handler that makes one step, or waits. */
  lemma Stepped(r: Regs, q: Regs, f: seq<bool>, go: bool)
    requires if go then Does(r, q, f) else Waits(r, q, f)
    ensures Goes(r, q, f, go) && (!go ==> OutOfInput(q))
  {
    hide Goes, Does, Waits, Abs, Step;
    if go { DoesGoes(r, q, f); } else { WaitsGoes(r, q, f); }
  }

  method TreeMode(z: Inflater, ghost f: seq<bool>) returns (go: bool)
    requires z.Ok() && Lean(z.Snap()) && (z.mode == LENLENS || z.mode == CODELENS)
    modifies z`mode, z`have, z`got, z`clens, z`lencode, z`lenbits, z`distcode, z`distbits, z`cur, z.lens, z.work, z.codes
    modifies z.b`hold, z.b`bits, z.b`input
    ensures z.Ok() && Goes(old(z.Snap()), z.Snap(), f, go) && (!go ==> OutOfInput(z.Snap()))
  {
    hide Goes, Lean, Abs, Step, Inflater.Ok;
    if z.mode == LENLENS {
      go := z.DoLenLens(f);
    } else {
      go := z.DoCodeLens(f);
    }
  }

  /** The modes that read a code word or its extra bits. */
  method CodeMode(z: Inflater, ghost f: seq<bool>) returns (go: bool)
    requires z.Ok() && Lean(z.Snap()) && (z.mode == LEN || z.mode == LENEXT || z.mode == DIST || z.mode == DISTEXT)
    modifies z`mode, z`length, z`offset, z`extra, z.b`hold, z.b`bits, z.b`input
    ensures z.Ok() && Goes(old(z.Snap()), z.Snap(), f, go) && (!go ==> OutOfInput(z.Snap()))
  {
    hide Goes, Does, Waits, Lean, Abs, Step, Inflater.Ok;
    ghost var r := z.Snap();
    if z.mode == LEN {
      go := z.DoLen(f);
    } else if z.mode == LENEXT {
      go := z.DoLenExt(f);
    } else if z.mode == DIST {
      go := z.DoDist(f);
    } else {
      go := z.DoDistExt(f);
    }
    Stepped(r, z.Snap(), f, go);
  }

  /** The modes that write output. */
  method OutputMode(z: Inflater, ghost f: seq<bool>) returns (go: bool)
    requires Ready(z) && (z.mode == COPY || z.mode == LIT || z.mode == MATCH)
    modifies z`mode, z`length, z`output, z`left, z.b`input
    ensures z.Ok() && |z.output| + z.left == old(|z.output| + z.left)
    ensures Goes(old(z.Snap()), z.Snap(), f, go) && (!go ==> Stalled(z))
  {
    hide Goes, Does, Lean, Abs, Step, Inflater.Ok, SlidingWindow.Holds;
    ghost var r := z.Snap();
    GoesNowhere(r, f);
    if z.mode == COPY {
      go := z.DoCopy(f);
    } else if z.mode == LIT {
      go := z.DoLit(f);
      if go { DoesGoes(r, z.Snap(), f); }
    } else {
      go := z.DoMatch(f);
    }
  }

  /** One turn of the loop over the modes. */
  method OneMode(z: Inflater, ghost f: seq<bool>) returns (go: bool)
    requires Ready(z) && Whole(f) && z.mode != DONE && z.mode != BAD
    modifies z`mode, z`last, z`length, z`offset, z`extra, z`nlen, z`ndist, z`ncode, z`have, z`got, z`clens, z`lencode, z`lenbits,
      z`distcode, z`distbits, z`cur, z`output, z`left, z.lens, z.work, z.codes, z.b`hold, z.b`bits, z.b`input
    ensures z.Ok() && |z.output| + z.left == old(|z.output| + z.left)
    ensures Goes(old(z.Snap()), z.Snap(), f, go) && (!go ==> Stalled(z))
  {
    hide Goes, Lean, Abs, Whole, Step, Inflater.Ok, SlidingWindow.Holds;
    if z.mode == TYPE || z.mode == STORED || z.mode == TABLE {
      go := HeaderMode(z, f);
    } else if z.mode == LENLENS || z.mode == CODELENS {
      go := TreeMode(z, f);
    } else if z.mode == LEN && |z.b.input| >= 6 && z.left >= 258 {
      InflateFast.InflateFast(z, f);
      go := true;
    } else if z.mode == LEN || z.mode == LENEXT || z.mode == DIST || z.mode == DISTEXT {
      go := CodeMode(z, f);
    } else {
      go := OutputMode(z, f);
    }
  }

  // ------------------------------------------------------------ one call

  datatype Outcome = OK | STREAM_END | DATA_ERROR | BUF_ERROR

  /** Between calls: no input at hand, all output taken. */
  ghost predicate Idle(z: Inflater)
    reads z, z.b, z.w, z.w.buffer, z.lens
  {
    z.Valid() && Lean(z.Snap()) && z.b.input == [] && z.output == []
  }

  /** The state of the machine between calls, if the bytes `x` and then `f` are to come. */
  ghost function Before(z: Inflater, x: seq<Byte>, f: seq<bool>): Core
    reads z, z.b
  {
    Abs(z.Snap().(input := x), f)
  }

  lemma Strictly(r: Regs, q: Regs, f: seq<bool>)
    requires Goes(r, q, f, true)
    ensures || |Unread(q)| < |Unread(r)|
            || (|Unread(q)| == |Unread(r)| && Stage(ModeOf(q)) < Stage(ModeOf(r)))
            || (|Unread(q)| == |Unread(r)| && Stage(ModeOf(q)) == Stage(ModeOf(r)) && Pending(ModeOf(q)) < Pending(ModeOf(r)))
  {
    hide StreamOf, Floor, Follows, Lean;
  }

  lemma NothingLeft(z: Inflater)
    requires z.mode == DONE || z.mode == BAD
    ensures Stalled(z)
  {
    hide StreamOf;
  }

  /** The loop over the modes. */
  method RunModes(z: Inflater, ghost f: seq<bool>)
    requires z.Valid() && Lean(z.Snap()) && Whole(f)
    modifies z`mode, z`last, z`length, z`offset, z`extra, z`nlen, z`ndist, z`ncode, z`have, z`got, z`clens, z`lencode, z`lenbits,
      z`distcode, z`distbits, z`cur, z`output, z`left, z.lens, z.work, z.codes, z.b`hold, z.b`bits, z.b`input
    ensures z.Valid() && |z.output| + z.left == old(|z.output| + z.left)
    ensures Goes(old(z.Snap()), z.Snap(), f, false) && Stalled(z)
    ensures z.output == old(z.output) || (z.w.wsize == 0 ==> z.hist == [])
  {
    hide Goes, Lean, Abs, Whole, StreamOf, ModeOf, Stalled, Inflater.Ok, SlidingWindow.Holds;
    ghost var r := z.Snap();
    GoesNowhere(r, f);
    while z.mode != DONE && z.mode != BAD
      invariant z.Valid() && |z.output| + z.left == old(|z.output| + z.left)
      invariant Goes(r, z.Snap(), f, false)
      invariant z.output == old(z.output) || (z.w.wsize == 0 ==> z.hist == [])
      decreases |z.b.Stream()|, Stage(ModeOf(z.Snap())), Pending(ModeOf(z.Snap()))
    {
      ghost var q := z.Snap();
      GoesLean(r, q, f);
      ShapeApart(z);
      var go := OneMode(z, f);
      if go {
        Strictly(q, z.Snap(), f);
        GoesLoose(q, z.Snap(), f);
      }
      GoesOn(r, q, z.Snap(), f, false);
      if !go { return; }
    }
    NothingLeft(z);
  }

  lemma ShapeApart(z: Inflater)
    requires z.Ok()
    ensures (z.lens as object) != z.w.buffer && (z.work as object) != z.w.buffer && (z.codes as object) != z.w.buffer
  {
  }

  /** After the loop: the output goes into the window, unless it will not be needed again. */
  method KeepOutput(z: Inflater, finish: bool)
    requires z.Valid() && (z.output == [] || (z.w.wsize == 0 ==> z.hist == []))
    modifies z`hist, z`output, z.w, z.w.buffer
    ensures z.WindowOk() && z.hist == old(z.hist) + old(z.output) && z.output == []
  {
    hide Keeps, Inflater.Ok;
    assert z.w.buffer.Length > 0 by { WindowThere(z); }
    if z.w.wsize != 0 || (z.output != [] && z.mode != BAD && (z.mode != DONE || !finish)) {
      z.w.Update(z.output, z.hist);
    }
    ghost var o := z.output;
    if o == [] { assert z.hist + o == z.hist; }
    z.hist := z.hist + o;
    z.output := [];
  }

  lemma WindowThere(z: Inflater)
    requires z.Ok()
    ensures z.w.buffer.Length > 0
  {
  }

  lemma StillOk(z: Inflater, x: seq<Byte>)
    requires z.Ok() && x == z.b.input
    ensures z.Shape() && z.ModeOk() && z.b.hold < Pow2(z.b.bits) && z.b.bits <= 32 && IsSuffix(x, z.b.given)
    ensures z.mode == COPY || z.mode == DONE ==> z.b.bits == 0
  {
  }

  /** Take the input and the room of a call. */
  method BeginCall(z: Inflater, chunk: seq<Byte>, room: nat)
    requires Idle(z)
    modifies z`left, z.b`input, z.b`given
    ensures z.Valid() && Lean(z.Snap()) && z.left == room && z.Snap() == old(z.Snap()).(input := chunk) && z.b.given == chunk
  {
    hide Lean, Pow2, IsSuffix, Inflater.Shape, Inflater.ModeOk, SlidingWindow.Holds;
    StillOk(z, []);
    z.b.input := chunk;
    z.b.given := chunk;
    SuffixSelf(chunk);
    z.left := room;
    LeanInput(old(z.Snap()), z.Snap());
  }

  /** Hand back the input that is left and the output. */
  method EndCall(z: Inflater, finish: bool) returns (rest: seq<Byte>, out: seq<Byte>)
    requires z.Valid() && Lean(z.Snap()) && (z.output == [] || (z.w.wsize == 0 ==> z.hist == []))
    modifies z`hist, z`output, z.w, z.w.buffer, z.b`input, z.b`given
    ensures Idle(z) && z.hist == old(z.hist) + out && rest == old(z.b.input) && out == old(z.output)
    ensures z.Snap().(input := rest, floor := old(z.Snap().floor)) == old(z.Snap())
  {
    hide Lean, Pow2, IsSuffix, Inflater.Shape, Inflater.ModeOk, SlidingWindow.Holds;
    out, rest := z.output, z.b.input;
    StillOk(z, rest);
    KeepOutput(z, finish);
    z.b.input := [];
    z.b.given := [];
    SuffixSelf([]);
    assert z.hist + [] == old(z.hist) + out;
    LeanInput(old(z.Snap()), z.Snap());
  }

  /** What `inflate` returns. */
  function ReturnCode(mode: Phase, finish: bool, idle: bool): Outcome {
    if mode == DONE then STREAM_END
    else if mode == BAD then DATA_ERROR
    else if finish || idle then BUF_ERROR
    else OK
  }

  /** What each of the codes says about the state after a call that took no input and gave no output if it was `idle`. */
  ghost predicate Says(ret: Outcome, mode: Phase, finish: bool, idle: bool) {
    && (ret == STREAM_END <==> mode == DONE)
    && (ret == DATA_ERROR <==> mode == BAD)
    && (ret == BUF_ERROR <==> mode != DONE && mode != BAD && (finish || idle))
  }

  lemma CodeSays(mode: Phase, finish: bool, idle: bool)
    ensures Says(ReturnCode(mode, finish, idle), mode, finish, idle)
  {
  }

  /** A call of `inflate`; `f` is the input of later calls. */
  method Inflate(z: Inflater, chunk: seq<Byte>, room: nat, finish: bool, ghost f: seq<bool>)
    returns (rest: seq<Byte>, out: seq<Byte>, ret: Outcome)
    requires Idle(z) && Whole(f)
    modifies z, z.b, z.w, z.w.buffer, z.lens, z.work, z.codes
    ensures Idle(z) && z.hist == old(z.hist) + out && |out| <= room && IsSuffix(rest, chunk)
    ensures Follows(old(Before(z, chunk, f)), Before(z, rest, f).(floor := old(Floor(|z.hist|, z.Size()))))
    ensures Step(Before(z, rest, [])) == None || (|out| == room && WantsRoom(z))
    ensures rest == [] || z.mode in {DONE, BAD} || (|out| == room && WantsRoom(z))
    ensures Says(ret, z.mode, finish, rest == chunk && out == [])
  {
    hide Goes, Lean, Abs, Step, Whole, StreamOf, Inflater.Ok, SlidingWindow.Holds, Idle, Follows, Floor, IsSuffix, ReturnCode, Says;
    IdleOutput(z);
    BeginCall(z, chunk, room);
    ghost var r := z.Snap();
    RunModes(z, f);
    ghost var q := z.Snap();
    GoesLean(r, q, f);
    GoesFollows(r, q, f);
    SuffixGiven(z);
    rest, out := EndCall(z, finish);
    CallEnds(q, z.Snap(), rest, f);
    ret := ReturnCode(z.mode, finish, rest == chunk && out == []);
    CodeSays(z.mode, finish, rest == chunk && out == []);
  }

  lemma CallEnds(q: Regs, p: Regs, rest: seq<Byte>, f: seq<bool>)
    requires p.(input := rest, floor := q.floor) == q
    ensures Abs(p.(input := rest), f).(floor := q.floor) == Abs(q, f)
    ensures Step(Abs(q, [])) == None ==> Step(Abs(p.(input := rest), [])) == None
  {
    hide Step, StreamOf;
    WaitsAnyFloor(Abs(q, []), p.floor);
  }

  lemma IdleOutput(z: Inflater)
    requires Idle(z)
    ensures z.output == []
  {
  }

  lemma GoesFollows(r: Regs, q: Regs, f: seq<bool>)
    requires Goes(r, q, f, false)
    ensures Follows(Abs(r, f), Abs(q, f))
  {
  }

  lemma LeanInput(r: Regs, q: Regs)
    requires Lean(r) && q == r.(input := q.input, floor := q.floor)
    ensures Lean(q)
  {
    hide ToBits;
    WaitsAnyFloor(Held(r), q.floor);
  }

  /** Whether a step can be made does not depend on how far back the output is at hand. */
  lemma WaitsAnyFloor(c: Core, n: nat)
    ensures Step(c) == None <==> Step(c.(floor := n)) == None
  {
    hide Find, BlockCodes, Builds, Num, CodeLengthCode, FixedCodes, Lower, Value;
  }

  // ------------------------------------------------------------ all the calls

  /** What a call is given: at most so many bytes of the input that is left, and room for so many. */
  datatype Offer = Offer(bytes: nat, room: nat, finish: bool)

  /** The machine at the start of a stream. */
  ghost function Start(input: seq<Byte>): Core {
    Core(Type, false, [], BytesToBits(input), 0)
  }

  /** Between calls the machine is on its way from `c`, unless a match reaches beyond the window. */
  ghost predicate OnTrack(c: Core, d: Core, w: nat) {
    !Far(c, w) ==> Follows(c, Unbounded(d)) && !Far(Unbounded(d), w)
  }

  lemma OnTrackNext(c: Core, d: Core, e: Core, w: nat)
    requires OnTrack(c, d, w) && d.floor == Floor(|d.out|, w) && Follows(d, e.(floor := d.floor))
    ensures OnTrack(c, e, w)
  {
    hide Follows, Far;
    if !Far(c, w) {
      UnboundedFollows(d, e.(floor := d.floor), w);
      FollowsTrans(c, Unbounded(d), Unbounded(e));
    }
  }

  lemma SplitInput(r: Regs, x: seq<Byte>, y: seq<Byte>)
    ensures Abs(r.(input := x), BytesToBits(y)) == Abs(r.(input := x + y), [])
  {
    hide ToBits, BytesToBits;
    BytesToBitsConcat(x, y);
    var h := ToBits(r.hold, r.bits);
    assert h + BytesToBits(x) + BytesToBits(y) == h + (BytesToBits(x) + BytesToBits(y)) + [];
  }

  lemma BytesAreWhole(x: seq<Byte>)
    ensures Whole(BytesToBits(x))
  {
  }

  lemma StartsAt(z: Inflater, input: seq<Byte>)
    requires z.mode == TYPE && !z.last && z.hist == [] && z.output == [] && z.b.bits == 0
    ensures Before(z, input, []) == Start(input)
  {
    assert ToBits(z.b.hold, 0) + BytesToBits(input) + [] == BytesToBits(input);
  }

  lemma FreshIdle(z: Inflater)
    requires z.Valid() && z.b.bits == 0 && z.b.input == [] && z.output == []
    ensures Idle(z)
  {
  }

  lemma SuffixWhole(s: seq<Byte>, t: seq<Byte>)
    requires IsSuffix(s, t)
    ensures |s| <= |t| && (|s| == |t| ==> s == t)
  {
  }

  /** One call on what is left of `input`. */
  method NextCall(z: Inflater, input: seq<Byte>, pos: nat, offer: Offer) returns (pos': nat, out: seq<Byte>, ret: Outcome)
    requires Idle(z) && pos <= |input|
    modifies z, z.b, z.w, z.w.buffer, z.lens, z.work, z.codes
    ensures Idle(z) && pos <= pos' <= |input| && z.hist == old(z.hist) + out && |out| <= offer.room
    ensures Follows(old(Before(z, input[pos..], [])),
                    Before(z, input[pos'..], []).(floor := old(Floor(|z.hist|, z.Size()))))
    ensures Says(ret, z.mode, offer.finish, pos' == pos && out == [])
    ensures pos + offer.bytes >= |input| ==> Step(Before(z, input[pos'..], [])) == None || (|out| == offer.room && WantsRoom(z))
  {
    hide Step, Follows, Abs, BytesToBits, Idle, Whole, Floor;
    var n := if pos + offer.bytes <= |input| then offer.bytes else |input| - pos;
    var chunk := input[pos..pos + n];
    ghost var later := input[pos + n..];
    BytesAreWhole(later);
    SplitInput(z.Snap(), chunk, later);
    assert chunk + later == input[pos..];
    var rest;
    rest, out, ret := Inflate(z, chunk, offer.room, offer.finish, BytesToBits(later));
    SuffixWhole(rest, chunk);
    pos' := pos + n - |rest|;
    assert rest + later == input[pos'..];
    SplitInput(z.Snap(), rest, later);
    if later == [] { assert rest + later == rest; }
  }

  /**
   A whole stream, in any number of calls with any input and any room.  As long as no match
   reaches beyond the window, the output is the beginning of what the stream means, and all of
   it once the stream has ended, or when the last call had all the input and room to spare.
   With the 32K window no match can reach beyond it.  The code that the last call returns says
   whether the stream has ended, or is bad; `idle` is that it took no input and gave no output.
   */
  method InflateAll(wbits: nat, input: seq<Byte>, offers: seq<Offer>)
    returns (mode: Phase, out: seq<Byte>, pos: nat, settled: bool, ret: Outcome, idle: bool)
    requires 8 <= wbits <= 15
    ensures offers != [] ==> Says(ret, mode, offers[|offers| - 1].finish, idle)
    ensures !Far(Start(input), Pow2(wbits)) && offers != [] && settled ==>
              (ret == STREAM_END <==> Run(Start(input)).mode == Done) && (ret == DATA_ERROR <==> Run(Start(input)).mode == Bad)
    ensures wbits == 15 ==> !Far(Start(input), Pow2(wbits))
    ensures pos <= |input|
    ensures !Far(Start(input), Pow2(wbits)) ==> out <= Run(Start(input)).out
    ensures !Far(Start(input), Pow2(wbits)) && mode == DONE ==>
              Run(Start(input)) == Core(Done, true, out, BytesToBits(input[pos..]), 0)
    ensures !Far(Start(input), Pow2(wbits)) && (mode == BAD || settled) ==>
              && out == Run(Start(input)).out
              && (mode == BAD <==> Run(Start(input)).mode == Bad) && (mode == DONE <==> Run(Start(input)).mode == Done)
  {
    hide Step, Follows, Far, Run, Abs, BytesToBits, Idle, Pow2, OnTrack, Floor;
    var z := new Inflater(wbits);
    FreshIdle(z);
    StartsAt(z, input);
    ghost var c, w := Start(input), Pow2(wbits);
    TrackStarts(input, wbits);
    pos, out, settled, ret, idle := 0, [], false, OK, false;
    assert input[0..] == input;
    var i := 0;
    while i < |offers|
      invariant i <= |offers| && Idle(z) && fresh(z) && fresh(z.b) && fresh(z.w) && fresh(z.w.buffer)
      invariant fresh(z.lens) && fresh(z.work) && fresh(z.codes)
      invariant z.hist == out && z.Size() == w && pos <= |input|
      invariant OnTrack(c, Before(z, input[pos..], []), w)
      invariant settled ==> Step(Before(z, input[pos..], [])) == None
      invariant i > 0 ==> Says(ret, z.mode, offers[i - 1].finish, idle)
    {
      ghost var d := Before(z, input[pos..], []);
      IdleFloor(z, input[pos..]);
      var p, o;
      p, o, ret := NextCall(z, input, pos, offers[i]);
      OnTrackNext(c, d, Before(z, input[p..], []), w);
      settled := pos + offers[i].bytes >= |input| && |o| < offers[i].room;
      idle := p == pos && o == [];
      pos, out := p, out + o;
      i := i + 1;
    }
    mode := z.mode;
    EndsWithLast(c);
    IdleFloor(z, input[pos..]);
    Conclude(z.Snap(), input[pos..], c, settled, w);
  }

  lemma IdleFloor(z: Inflater, x: seq<Byte>)
    requires Idle(z)
    ensures z.mode == DONE ==> z.b.bits == 0
    ensures z.hist + z.output == z.hist
    ensures Before(z, x, []).floor == Floor(|z.hist|, z.Size()) && Before(z, x, []).out == z.hist
  {
  }

  lemma TrackStarts(input: seq<Byte>, wbits: nat)
    ensures OnTrack(Start(input), Start(input), Pow2(wbits))
    ensures wbits == 15 ==> !Far(Start(input), Pow2(wbits))
  {
    hide Far, Follows, Pow2;
    FollowsHere(Start(input));
    if wbits == 15 {
      assert Pow2(15) == 32768 by { Exactly(); }
      NeverFar(Start(input));
    }
  }

  lemma Exactly()
    ensures Pow2(15) == 32768
  {
    assert Pow2(8) == 256 && Pow2(15) == 32768;
  }

  lemma Conclude(r: Regs, x: seq<Byte>, c: Core, settled: bool, w: nat)
    requires OnTrack(c, Abs(r.(input := x), []), w) && (r.mode == DONE ==> r.bits == 0)
    requires settled ==> Step(Abs(r.(input := x), [])) == None
    ensures !Far(c, w) ==> r.out <= Run(c).out
    ensures !Far(c, w) && r.mode == DONE ==> Run(c) == Core(Done, r.last, r.out, BytesToBits(x), 0)
    ensures !Far(c, w) && (r.mode == BAD || settled) ==>
              && r.out == Run(c).out && (r.mode == BAD <==> Run(c).mode == Bad) && (r.mode == DONE <==> Run(c).mode == Done)
  {
    hide Step, BytesToBits, StreamOf, Far, Follows;
    if !Far(c, w) {
      var e := Abs(r.(input := x), []);
      var d := Unbounded(e);
      FollowsRun(c, d);
      OutputGrows(d);
      WaitsAnyFloor(e, 0);
      if r.mode == DONE || r.mode == BAD { AtRest(d); }
      if r.mode == DONE { UnreadAtEnd(r.(input := x)); }
    }
  }

  lemma AtRest(d: Core)
    requires d.mode == Done || d.mode == Bad
    ensures Step(d) == None
  {
  }

  lemma UnreadAtEnd(r: Regs)
    requires r.bits == 0
    ensures Unread(r) + [] == BytesToBits(r.input)
  {
    assert ToBits(r.hold, 0) + BytesToBits(r.input) + [] == BytesToBits(r.input);
  }
}
