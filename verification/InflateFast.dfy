/**
 `inflate_fast` (inffast.c): decoding while there is input and room to spare, without looking
 at how much is left, and with the accumulator filled ahead.

 It is shown to follow the same machine as the careful path of `inflate`: six bytes of input
 are enough for any length/distance pair, 258 bytes of room are enough for any match, and the
 bytes taken ahead are given back.  The comment in the source asks for less than eight bits in
 the accumulator on entry, which does not always hold (see `FastEntry`); what holds, and is
 enough, is that the bits there are too few for a code word.
 */
module InflateFast {
  import opened Bits
  import opened CanonicalCode
  import opened InflateTable
  import opened InflateSpec
  import opened BitInput
  import opened InflateSteps
  import opened Window
  import opened RawInflate

  ghost predicate FastOk(z: Inflater)
    reads z, z.b, z.w, z.w.buffer
  {
    z.Shape() && z.b.Valid() && z.Tables() && z.w.Holds(z.hist) && (z.w.wsize == 0 ==> z.hist == [])
  }

  /** `q` with the accumulator and input of `b`. */
  ghost function At(q: Regs, b: BitReader): Regs
    reads b
  {
    q.(hold := b.hold, bits := b.bits, input := b.input)
  }

  // ------------------------------------------------------------ copying

  /** Copy three bytes at a time from the window. */
  method CopyFromWindow(z: Inflater, from: nat, n: nat) returns (ghost x: seq<Byte>)
    requires from + n <= z.w.buffer.Length
    modifies z`output
    ensures x == z.w.buffer[from..from + n] && z.output == old(z.output) + x
  {
    x := [];
    var i, len: nat := from, n;
    while len > 2
      invariant i + len == from + n && len <= n
      invariant x == z.w.buffer[from..i] && z.output == old(z.output) + x
    {
      ghost var y := [z.w.buffer[i], z.w.buffer[i + 1], z.w.buffer[i + 2]];
      z.output := z.output + [z.w.buffer[i]];
      z.output := z.output + [z.w.buffer[i + 1]];
      z.output := z.output + [z.w.buffer[i + 2]];
      x := x + y;
      i, len := i + 3, len - 3;
    }
    if len != 0 {
      z.output := z.output + [z.w.buffer[i]];
      x := x + [z.w.buffer[i]];
      if len > 1 {
        z.output := z.output + [z.w.buffer[i + 1]];
        x := x + [z.w.buffer[i + 1]];
      }
    }
  }

  /** Copy three bytes at a time from `dist` back in the output. */
  method CopyFromOutput(z: Inflater, dist: nat, n: nat) returns (ghost x: seq<Byte>)
    requires 1 <= dist <= |z.output|
    modifies z`output
    ensures |x| == n && z.output == old(z.output) + x && Copied(old(z.output), dist, x)
  {
    hide Copied;
    ghost var o := z.output;
    NothingCopied(o, dist);
    x := [];
    var len: nat := n;
    while len > 2
      invariant len <= n && |x| == n - len && z.output == o + x && Copied(o, dist, x)
    {
      x := CopyByte(z, dist, o, x);
      x := CopyByte(z, dist, o, x);
      x := CopyByte(z, dist, o, x);
      len := len - 3;
    }
    if len != 0 {
      x := CopyByte(z, dist, o, x);
      if len > 1 { x := CopyByte(z, dist, o, x); }
    }
  }

  lemma NothingCopied(o: seq<Byte>, dist: nat)
    requires 1 <= dist <= |o|
    ensures Copied(o, dist, [])
  {
  }

  method CopyByte(z: Inflater, dist: nat, ghost o: seq<Byte>, ghost x: seq<Byte>) returns (ghost y: seq<Byte>)
    requires 1 <= dist <= |o| && z.output == o + x && Copied(o, dist, x)
    modifies z`output
    ensures |y| == |x| + 1 && z.output == o + y && Copied(o, dist, y)
  {
    CopiedMore(o, dist, x);
    var from := |z.output| - dist;
    y := x + [z.output[from]];
    z.output := z.output + [z.output[from]];
  }

  /** The start of a match that is in the window, in the three ways the window can lie. */
  method FastWindow(z: Inflater, len: nat, dist: nat) returns (ghost x: seq<Byte>)
    requires z.w.Holds(z.hist) && |z.output| < dist <= |z.output| + z.w.whave
    modifies z`output
    ensures |x| <= len && z.output == old(z.output) + x && Copied(z.hist + old(z.output), dist, x)
    ensures |x| < len ==> dist <= |z.output|
  {
    hide Keeps, Copied;
    ghost var win := z.w.buffer[..];
    KeepsBounds(win, z.w.whave, z.w.wnext, z.hist);
    KeepsFull(win, z.w.whave, z.w.wnext, z.hist);
    var op := dist - |z.output|;
    if z.w.wnext == 0 {
      x := WindowPiece(z, dist, z.w.wsize - op, if op < len then op else len);
    } else if z.w.wnext < op {
      var n := op - z.w.wnext;
      x := WindowPiece(z, dist, z.w.wsize + z.w.wnext - op, if n < len then n else len);
      if n < len {
        ghost var o := old(z.output);
        ghost var y := WindowPiece(z, dist, 0, if z.w.wnext < len - n then z.w.wnext else len - n);
        Appended(z.hist, o, x);
        CopiedJoin(z.hist + o, dist, x, y);
        x := x + y;
      }
    } else {
      x := WindowPiece(z, dist, z.w.wnext - op, if op < len then op else len);
    }
  }

  lemma KeepsFull(win: seq<Byte>, whave: nat, wnext: nat, hist: seq<Byte>)
    requires Keeps(win, whave, wnext, hist)
    ensures wnext < whave || whave == |win| || wnext == whave
  {
  }

  method WindowPiece(z: Inflater, dist: nat, from: nat, n: nat) returns (ghost x: seq<Byte>)
    requires z.w.Holds(z.hist) && z.w.wsize > 0 && |z.output| < dist <= |z.output| + z.w.whave
    requires var d := dist - |z.output|;
             if d > z.w.wnext then from == z.w.wsize - (d - z.w.wnext) && n <= d - z.w.wnext else from == z.w.wnext - d && n <= d
    modifies z`output
    ensures |x| == n && z.output == old(z.output) + x && Copied(z.hist + old(z.output), dist, x)
  {
    hide Keeps, Copied;
    WindowCopied(z.w.buffer[..], z.w.whave, z.w.wnext, z.hist, z.output, dist, from, n);
    x := CopyFromWindow(z, from, n);
    assert z.w.buffer[..][from..from + n] == z.w.buffer[from..from + n];
  }

  /** All the bytes of a match. */
  method FastBytes(z: Inflater, len: nat, dist: nat) returns (ghost x: seq<Byte>)
    requires z.w.Holds(z.hist) && 1 <= dist <= |z.output| + z.w.whave
    modifies z`output
    ensures |x| == len && z.output == old(z.output) + x && Copied(z.hist + old(z.output), dist, x)
  {
    hide Copied, Keeps;
    ghost var o := z.output;
    if dist > |z.output| {
      var start := |z.output|;
      x := FastWindow(z, len, dist);
      var done := |z.output| - start;
      if done < len {
        ghost var o' := z.output;
        ghost var y := CopyFromOutput(z, dist, len - done);
        CopiedLater(z.hist, o', dist, y);
        Appended(z.hist, o, x);
        Appended(o, x, y);
        CopiedJoin(z.hist + o, dist, x, y);
        x := x + y;
      }
    } else {
      x := CopyFromOutput(z, dist, len);
      CopiedLater(z.hist, o, dist, x);
    }
  }

  // ------------------------------------------------------------ one symbol

  /** Extra bits, on top of a base value. */
  method FastExtra(b: BitReader, base: nat, op: nat) returns (v: nat)
    requires b.Valid() && op <= 13 && op <= |b.Stream()|
    modifies b`hold, b`bits, b`input
    ensures b.Valid() && v == base + Value(old(b.Stream()), op) && b.Stream() == old(b.Stream())[op..]
    ensures IsSuffix(b.input, old(b.input))
  {
    hide StreamOf, Floor, Value;
    b.Ensure(op);
    var x := b.Take(op);
    v := base + x;
  }

  method FastCopy(z: Inflater, ghost q: Regs, len: nat, dist: nat, ghost f: seq<bool>)
    requires FastOk(z) && z.mode == LEN && 3 <= len <= z.left && dist >= 1
    requires Over(q, z.Snap()) && q.mode == MATCH && q.length == len && q.offset == dist
    modifies z`mode, z`output, z`left
    ensures FastOk(z) && (z.mode == LEN || z.mode == BAD) && |z.output| + z.left == old(|z.output| + z.left)
    ensures Gone(q, z.Snap(), f)
  {
    hide StreamOf, Floor, Gone, Copied, Inflater.Shape, Inflater.Tables, BitReader.Valid;
    AtHand(z);
    if dist > |z.output| + z.w.whave {
      z.mode := BAD;
      MatchStops(q, z.Snap(), f);
    } else {
      ghost var o := z.output;
      ghost var x := FastBytes(z, len, dist);
      Appended(z.hist, o, x);
      z.left := z.left - len;
      MatchGone(q, z.Snap(), x, f);
    }
  }

  lemma AtHand(z: Inflater)
    requires z.w.Holds(z.hist) && (z.w.wsize == 0 ==> z.hist == [])
    ensures Floor(|z.hist|, z.Size()) + z.w.whave == |z.hist|
  {
  }

  lemma SuffixTrans(a: seq<Byte>, b: seq<Byte>, c: seq<Byte>)
    requires IsSuffix(a, b) && IsSuffix(b, c)
    ensures IsSuffix(a, c)
  {
  }

  lemma DistanceOps(e: Entry, lens: seq<nat>, s: seq<bool>)
    requires |lens| <= MaxSymbols(DISTS) && Find(DISTS, lens, s) == Some(e)
    ensures BaseOp(e.op) <==> !BadOp(e.op)
    ensures BaseOp(e.op) ==> e.val >= 1 && e.op % 16 <= 13
  {
    hide Find, Pow2;
    if !BadOp(e.op) {
      FoundDistance(lens, s);
    } else {
      BadDistance(e, lens, s);
    }
  }

  lemma BadDistance(e: Entry, lens: seq<nat>, s: seq<bool>)
    requires |lens| <= MaxSymbols(DISTS) && Find(DISTS, lens, s) == Some(e) && BadOp(e.op)
    ensures !BaseOp(e.op)
  {
    hide Matches, Num, Complete, NoMatch, DistOp, DistBase, SymbolEntry;
    if exists i: nat :: CodeAt(lens, i, s) {
      var i: nat :| CodeAt(lens, i, s) && e == SymbolEntry(DISTS, i, lens[i]);
      DistEntry(i, lens[i]);
      BadDistOp(i);
    }
  }

  lemma BadDistOp(i: nat)
    requires 30 <= i < 32
    ensures DistOp(i) == 64
  {
  }

  /** The extra bits of the distance and the copy. */
  method FastOffset(z: Inflater, ghost q: Regs, len: nat, base: nat, op: nat, ghost f: seq<bool>)
    requires FastOk(z) && z.mode == LEN && 3 <= len <= 258 <= z.left && base >= 1 && op <= 13 <= |z.b.Stream()|
    requires Over(q, z.Snap()) && q.mode == DISTEXT && q.length == len && q.offset == base && q.extra == op
    modifies z`mode, z`output, z`left, z.b`hold, z.b`bits, z.b`input
    ensures FastOk(z) && (z.mode == LEN || z.mode == BAD) && |z.output| + z.left == old(|z.output| + z.left)
    ensures Gone(q, z.Snap(), f)
    ensures z.b.Stream() == old(z.b.Stream())[op..] && IsSuffix(z.b.input, old(z.b.input))
  {
    hide StreamOf, Floor, Value, Gone, Moves, Does, Serves, IsSuffix, Inflater.Shape, Inflater.Tables, BitReader.Valid, SlidingWindow.Holds;
    var dist := FastExtra(z.b, base, op);
    ghost var q1 := At(q.(mode := MATCH, offset := dist), z.b);
    DistExtReads(q, q1, f);
    GoneFirst(q, q1, f);
    FastCopy(z, q1, len, dist, f);
    GoneOn(q, q1, z.Snap(), f);
  }

  /** The distance code, its extra bits and the copy. */
  method FastDistance(z: Inflater, ghost q: Regs, len: nat, ghost f: seq<bool>) returns (ghost k: nat)
    requires FastOk(z) && z.mode == LEN && 3 <= len <= 258 <= z.left && |z.b.Stream()| >= 28
    requires Over(q, z.Snap()) && q.mode == DIST && q.length == len
    modifies z`mode, z`output, z`left, z.b`hold, z.b`bits, z.b`input
    ensures FastOk(z) && (z.mode == LEN || z.mode == BAD) && |z.output| + z.left == old(|z.output| + z.left)
    ensures Gone(q, z.Snap(), f)
    ensures k <= old(|z.b.Stream()|) && z.b.Stream() == old(z.b.Stream())[k..] && IsSuffix(z.b.input, old(z.b.input))
  {
    hide StreamOf, Floor, Gone, Moves, Does, Find, Serves, BaseOp, BadOp, IsSuffix, Inflater.Shape, BitReader.Valid, SlidingWindow.Holds;
    ghost var s, in0 := z.b.Stream(), z.b.input;
    CodesReadable(z);
    z.b.Fill();
    ghost var in1 := z.b.input;
    var e := z.b.DecodeFast(z.distcode, z.distbits, DISTS, z.cur.dlens, f);
    DistanceOps(e, z.cur.dlens, s + f);
    var j := FastDistanceApply(z, q, e, len, s, f);
    SuffixTrans(z.b.input, in1, in0);
    assert s[e.bits..][j..] == s[e.bits + j..];
    k := e.bits + j;
  }

  method FastDistanceApply(z: Inflater, ghost q: Regs, e: Entry, len: nat, ghost s: seq<bool>, ghost f: seq<bool>)
    returns (ghost k: nat)
    requires FastOk(z) && z.mode == LEN && 3 <= len <= 258 <= z.left && |z.b.Stream()| >= 13
    requires q.codes == z.cur && q.last == z.last && q.out == z.hist + z.output && q.floor == z.Snap().floor
    requires q.mode == DIST && q.length == len
    requires s == Unread(q) && e.bits <= |s| && z.b.Stream() == s[e.bits..]
    requires Readable(z.cur) && Find(DISTS, z.cur.dlens, s + f) == Some(e)
    requires (BaseOp(e.op) <==> !BadOp(e.op)) && (BaseOp(e.op) ==> e.val >= 1 && e.op % 16 <= 13)
    modifies z`mode, z`output, z`left, z.b`hold, z.b`bits, z.b`input
    ensures FastOk(z) && (z.mode == LEN || z.mode == BAD) && |z.output| + z.left == old(|z.output| + z.left)
    ensures Gone(q, z.Snap(), f)
    ensures k <= old(|z.b.Stream()|) && z.b.Stream() == old(z.b.Stream())[k..] && IsSuffix(z.b.input, old(z.b.input))
  {
    hide StreamOf, Floor, Gone, Moves, Does, Find, Serves, BaseOp, BadOp, IsSuffix, Inflater.Shape, BitReader.Valid, SlidingWindow.Holds;
    if BaseOp(e.op) {
      ghost var q1 := At(q.(mode := DISTEXT, offset := e.val, extra := e.op % 16), z.b);
      DistReads(q, q1, f, e);
      GoneFirst(q, q1, f);
      FastOffset(z, q1, len, e.val, e.op % 16, f);
      GoneOn(q, q1, z.Snap(), f);
      k := e.op % 16;
    } else {
      z.mode := BAD;
      DistFails(q, z.Snap(), f, e);
      DoesMoves(q, z.Snap(), f);
      GoneFirst(q, z.Snap(), f);
      SuffixSelf(z.b.input);
      k := 0;
    }
  }

  lemma CodesReadable(z: Inflater)
    requires z.Tables()
    ensures Readable(z.cur)
  {
  }

  /** The extra bits of the length and then the distance. */
  method FastLength(z: Inflater, ghost q: Regs, base: nat, op: nat, ghost f: seq<bool>) returns (ghost k: nat)
    requires FastOk(z) && z.mode == LEN && 258 <= z.left && |z.b.Stream()| >= 33
    requires base >= 3 && op <= 5 && base + Pow2(op) <= 259
    requires Over(q, z.Snap()) && q.mode == LENEXT && q.length == base && q.extra == op
    modifies z`mode, z`output, z`left, z.b`hold, z.b`bits, z.b`input
    ensures FastOk(z) && (z.mode == LEN || z.mode == BAD) && |z.output| + z.left == old(|z.output| + z.left)
    ensures Gone(q, z.Snap(), f)
    ensures k <= old(|z.b.Stream()|) && z.b.Stream() == old(z.b.Stream())[k..] && IsSuffix(z.b.input, old(z.b.input))
  {
    hide StreamOf, Floor, Value, Gone, Moves, Does, Pow2, Serves, IsSuffix, Inflater.Shape, Inflater.Tables, BitReader.Valid,
      SlidingWindow.Holds;
    ghost var s, in0 := z.b.Stream(), z.b.input;
    ValueBound(s, op);
    var len := FastExtra(z.b, base, op);
    ghost var q1 := At(q.(mode := DIST, length := len), z.b);
    LenExtReads(q, q1, f);
    GoneFirst(q, q1, f);
    ghost var in1 := z.b.input;
    k := FastDistance(z, q1, len, f);
    GoneOn(q, q1, z.Snap(), f);
    SuffixTrans(z.b.input, in1, in0);
    assert s[op..][k..] == s[op + k..];
    k := op + k;
  }

  /** The test on the operation that `inflate_fast` makes agrees with the one of `inflate`. */
  lemma LengthOps(e: Entry, lens: seq<nat>, s: seq<bool>)
    requires |lens| <= MaxSymbols(LENS) && Find(LENS, lens, s) == Some(e)
    ensures SymbolPhase(e) == if e.op == 0 then LIT else if BaseOp(e.op) then LENEXT else if EndOp(e.op) then TYPE else BAD
  {
    hide Matches, Num, Complete, NoMatch, LengthOp, LengthBase, SymbolEntry;
    if exists i: nat :: CodeAt(lens, i, s) {
      var i: nat :| CodeAt(lens, i, s) && e == SymbolEntry(LENS, i, lens[i]);
      LengthEntry(i, lens[i]);
      if 257 <= i < 286 {
        LengthFits(i - 257);
      } else if i >= 286 {
        BadLengthOp(i - 257);
      }
    }
  }

  lemma BadLengthOp(i: nat)
    requires 29 <= i < 31
    ensures LengthOp(i) == 199 || LengthOp(i) == 75
  {
  }

  method FastLiteral(z: Inflater, ghost q: Regs, x: Byte, ghost f: seq<bool>)
    requires FastOk(z) && z.mode == LEN && z.left >= 1
    requires Over(q, z.Snap()) && q.mode == LIT && q.length == x
    modifies z`output, z`left
    ensures FastOk(z) && |z.output| + z.left == old(|z.output| + z.left) && Gone(q, z.Snap(), f)
  {
    hide StreamOf, Floor, Gone, Moves, Does, Inflater.Shape, Inflater.Tables, BitReader.Valid, SlidingWindow.Holds, Over, Writes;
    ghost var p := z.Snap();
    Appended(z.hist, z.output, [x]);
    z.output := z.output + [x];
    z.left := z.left - 1;
    WritesAfter(q, p, z.Snap(), [x]);
    LitWrites(q, z.Snap(), f, x);
    GoneFirst(q, z.Snap(), f);
  }

  /** One literal, length/distance pair or end of block. */
  method FastSymbol(z: Inflater, ghost f: seq<bool>) returns (ghost found: Entry, ghost k: nat)
    requires FastOk(z) && z.mode == LEN && |z.b.input| >= 6 && z.left >= 258
    modifies z`mode, z`output, z`left, z.b`hold, z.b`bits, z.b`input
    ensures FastOk(z) && (z.mode == LEN || z.mode == TYPE || z.mode == BAD)
    ensures |z.output| + z.left == old(|z.output| + z.left) && Gone(old(z.Snap()), z.Snap(), f)
    ensures |z.cur.llens| <= MaxSymbols(LENS) && Find(LENS, z.cur.llens, old(z.b.Stream()) + f) == Some(found)
    ensures found.bits <= k <= old(|z.b.Stream()|)
    ensures z.b.Stream() == old(z.b.Stream())[k..] && IsSuffix(z.b.input, old(z.b.input))
  {
    hide StreamOf, Floor, Gone, Moves, Find, Serves, BaseOp, BadOp, EndOp, SymbolPhase, Pow2, Inflater.Shape, BitReader.Valid,
      SlidingWindow.Holds;
    ghost var r, s, in0 := z.Snap(), z.b.Stream(), z.b.input;
    CodesReadable(z);
    z.b.Fill();
    ghost var in1 := z.b.input;
    var e := z.b.DecodeFast(z.lencode, z.lenbits, LENS, z.cur.llens, f);
    found, k := e, e.bits;
    LengthOps(e, z.cur.llens, s + f);
    FoundLength(z.cur.llens, s + f);
    ghost var q := At(r.(mode := SymbolPhase(e), length := e.val, extra := e.op % 16), z.b);
    LenReads(r, q, f, e);
    GoneFirst(r, q, f);
    ghost var j := FastApply(z, q, e, f);
    GoneSame(r, q, z.Snap(), f);
    SuffixTrans(z.b.input, in1, in0);
    assert s[e.bits..][j..] == s[e.bits + j..];
    k := e.bits + j;
  }

  method FastApply(z: Inflater, ghost q: Regs, e: Entry, ghost f: seq<bool>) returns (ghost k: nat)
    requires FastOk(z) && z.mode == LEN && |z.b.Stream()| >= 33 && z.left >= 258 && LengthFound(e)
    requires SymbolPhase(e) == if e.op == 0 then LIT else if BaseOp(e.op) then LENEXT else if EndOp(e.op) then TYPE else BAD
    requires Over(q, z.Snap()) && q.mode == SymbolPhase(e) && q.length == e.val && q.extra == e.op % 16
    modifies z`mode, z`output, z`left, z.b`hold, z.b`bits, z.b`input
    ensures FastOk(z) && (z.mode == LEN || z.mode == TYPE || z.mode == BAD)
    ensures |z.output| + z.left == old(|z.output| + z.left)
    ensures (Abs(q, f) == Abs(z.Snap(), f)) || Gone(q, z.Snap(), f)
    ensures k <= old(|z.b.Stream()|) && z.b.Stream() == old(z.b.Stream())[k..] && IsSuffix(z.b.input, old(z.b.input))
  {
    hide StreamOf, Floor, Gone, Moves, Serves, Pow2, Inflater.Shape, Inflater.Tables, BitReader.Valid, SlidingWindow.Holds;
    k := 0;
    if e.op == 0 {
      FastLiteral(z, q, e.val, f);
    } else if BaseOp(e.op) {
      k := FastLength(z, q, e.val, e.op % 16, f);
    } else if EndOp(e.op) {
      z.mode := TYPE;
    } else {
      z.mode := BAD;
    }
  }

  /** The first code word reaches beyond the bits there were, or there was less than a byte. */
  lemma FirstWord(r: Regs, f: seq<bool>, e: Entry)
    requires r.mode == LEN && Lean(r) && Usable(LENS, r.codes.llens) && Readable(r.codes)
    requires Find(LENS, r.codes.llens, Unread(r) + f) == Some(e)
    ensures r.bits < 8 || r.bits < e.bits
  {
    hide Find, ToBits, BytesToBits, Usable, Lean;
    LenLean(r);
    if r.bits >= 8 && e.bits <= r.bits {
      var s := Unread(r) + f;
      assert s[..r.bits] == ToBits(r.hold, r.bits);
      FindPrefix(LENS, r.codes.llens, s, r.bits);
    }
  }

  lemma CanReturn(b0: nat, bits: nat, p: nat, total: nat)
    requires bits + total == b0 + 8 * p && (b0 < 8 || b0 < total)
    ensures bits / 8 <= p
  {
  }

  lemma EntryOk(z: Inflater)
    requires z.mode == LEN && z.ModeOk() && z.b.Valid() && z.Shape() && z.w.Holds(z.hist)
    requires z.w.wsize == 0 ==> z.hist == []
    ensures FastOk(z) && Usable(LENS, z.cur.llens) && Readable(z.cur)
  {
  }

  lemma ExitOk(z: Inflater)
    requires FastOk(z) && (z.mode == LEN || z.mode == TYPE || z.mode == BAD)
    ensures z.Ok()
  {
  }

  /** The state at the end of each turn of the loop; `r` is the one on entry. */
  ghost predicate FastAt(z: Inflater, r: Regs, total: nat, f: seq<bool>)
    reads z, z.b, z.w, z.w.buffer
  {
    && FastOk(z) && (z.mode == LEN || z.mode == TYPE || z.mode == BAD) && Gone(r, z.Snap(), f)
    && total <= |Unread(r)| && z.b.Stream() == Unread(r)[total..] && IsSuffix(z.b.input, r.input)
    && (r.bits < 8 || r.bits < total)
  }

  method FastFirst(z: Inflater, ghost f: seq<bool>) returns (ghost total: nat)
    requires z.Ok() && z.w.Holds(z.hist) && (z.w.wsize == 0 ==> z.hist == [])
    requires z.mode == LEN && Lean(z.Snap()) && |z.b.input| >= 6 && z.left >= 258
    modifies z`mode, z`output, z`left, z.b`hold, z.b`bits, z.b`input
    ensures |z.output| + z.left == old(|z.output| + z.left) && FastAt(z, old(z.Snap()), total, f)
  {
    hide StreamOf, Floor, Gone, Lean, Find, Usable, FastOk, IsSuffix, BitReader.Valid, Inflater.Shape, Inflater.ModeOk;
    ghost var r := z.Snap();
    EntryOk(z);
    ghost var e;
    e, total := FastSymbol(z, f);
    FirstWord(r, f, e);
  }

  method FastNext(z: Inflater, ghost r: Regs, ghost total: nat, ghost f: seq<bool>) returns (ghost total': nat)
    requires FastAt(z, r, total, f) && z.mode == LEN && |z.b.input| >= 6 && z.left >= 258
    modifies z`mode, z`output, z`left, z.b`hold, z.b`bits, z.b`input
    ensures |z.output| + z.left == old(|z.output| + z.left) && FastAt(z, r, total', f)
    ensures |z.b.Stream()| < old(|z.b.Stream()|)
  {
    hide StreamOf, Floor, Gone, Find, FastOk, IsSuffix;
    ghost var q, s, in1 := z.Snap(), Unread(r), z.b.input;
    ghost var e, k := FastSymbol(z, f);
    GoneOn(r, q, z.Snap(), f);
    SuffixTrans(z.b.input, in1, r.input);
    assert s[total..][k..] == s[total + k..];
    total' := total + k;
  }

  /** `inflate_fast`. */
  method InflateFast(z: Inflater, ghost f: seq<bool>)
    requires z.Ok() && z.w.Holds(z.hist) && (z.w.wsize == 0 ==> z.hist == [])
    requires z.mode == LEN && Lean(z.Snap()) && |z.b.input| >= 6 && z.left >= 258
    modifies z`mode, z`output, z`left, z.b`hold, z.b`bits, z.b`input
    ensures z.Ok() && (z.mode == LEN || z.mode == TYPE || z.mode == BAD)
    ensures |z.output| + z.left == old(|z.output| + z.left)
    ensures Goes(old(z.Snap()), z.Snap(), f, true)
  {
    hide StreamOf, Floor, Goes, Lean, FastAt, IsSuffix, Inflater.Ok, SlidingWindow.Holds;
    ghost var r := z.Snap();
    var next := z.b.input;
    SuffixGiven(z);
    ghost var total: nat := FastFirst(z, f);
    while z.mode == LEN && |z.b.input| >= 6 && z.left >= 258
      invariant FastAt(z, r, total, f) && |z.output| + z.left == old(|z.output| + z.left)
      decreases |z.b.Stream()|
    {
      total := FastNext(z, r, total, f);
    }
    FastReturn(z, r, next, total, f);
  }

  /** Give back the bytes taken ahead. */
  method FastReturn(z: Inflater, ghost r: Regs, next: seq<Byte>, ghost total: nat, ghost f: seq<bool>)
    requires FastAt(z, r, total, f) && next == r.input && IsSuffix(next, z.b.given)
    modifies z.b`hold, z.b`bits, z.b`input
    ensures z.Ok() && (z.mode == LEN || z.mode == TYPE || z.mode == BAD) && Goes(r, z.Snap(), f, true)
  {
    hide StreamOf, Floor, Gone, Goes, Lean, BitReader.Valid, Inflater.Shape, Inflater.Tables, Inflater.Ok, SlidingWindow.Holds;
    ghost var q := z.Snap();
    CanReturn(r.bits, z.b.bits, |next| - |z.b.input|, total);
    z.b.ReturnBytes(next, r.hold, r.bits, total);
    GoneGoes(r, q, z.Snap(), f);
    ExitOk(z);
  }
}
