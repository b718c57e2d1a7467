/**
 `inflate` (inflate.c) on raw deflate streams.

 A call is given some input and some room for output.  It goes from mode to mode, as far as
 either lasts, and leaves the rest to the next call.  `Abs(Snap(), f)` reads a state of the
 decoder as a state of the machine of `InflateSpec`; every handler is shown to follow that
 machine and to stop only where the machine needs bits that are not there, or where there is
 no room.
 */
module RawInflate {
  import opened Bits
  import opened CanonicalCode
  import opened InflateTable
  import opened InflateSpec
  import opened BitInput
  import opened InflateSteps
  import opened InflateFixed
  import opened Window

  // ------------------------------------------------------------ the lengths being read

  /** The lengths of the code length code read so far are at their places. */
  ghost predicate LengthsPlaced(lens: seq<nat>, got: seq<nat>) {
    && |lens| == 320 && |got| <= 19
    && (forall i | 0 <= i < |got| :: got[i] < 8)
    && (forall i | 0 <= i < |got| :: lens[Order(i)] == got[i])
  }

  lemma PlaceNext(lens: seq<nat>, got: seq<nat>, x: nat)
    requires LengthsPlaced(lens, got) && |got| < 19 && x < 8
    ensures LengthsPlaced(lens[Order(|got|) := x], got + [x])
  {
    hide Order;
    OrderInverse(|got|);
    forall i | 0 <= i < |got| ensures Order(i) != Order(|got|) { OrderInverse(i); }
  }

  /** With zeros after the lengths sent, the array holds the code length code. */
  lemma CodeLengthsPlaced(lens: seq<nat>, got: seq<nat>, zeros: seq<nat>)
    requires LengthsPlaced(lens, got + zeros) && |got + zeros| == 19 && forall i | 0 <= i < |zeros| :: zeros[i] == 0
    ensures lens[..19] == CodeLengthCode(got)
    ensures forall i | 0 <= i < 19 :: lens[i] <= 7
  {
    hide Order, Place;
    forall j | 0 <= j < 19
      ensures lens[j] == CodeLengthCode(got)[j] && lens[j] <= 7
    {
      OrderInverse(j);
      assert lens[Order(Place(j))] == (got + zeros)[Place(j)];
    }
  }

  lemma ValueBound(s: seq<bool>, n: nat)
    requires n <= |s|
    ensures Value(s, n) < Pow2(n) && Pow2(3) == 8 && Pow2(4) == 16
  {
  }

  class Inflater {
    const b: BitReader
    const w: SlidingWindow
    const lens: array<nat>
    const work: array<nat>
    const codes: array<Entry>
    const lenfix: seq<Entry>
    const distfix: seq<Entry>

    var mode: Phase
    var last: bool
    var length: nat
    var offset: nat
    var extra: nat
    var nlen: nat
    var ndist: nat
    var ncode: nat
    var have: nat
    var lencode: seq<Entry>
    var lenbits: nat
    var distcode: seq<Entry>
    var distbits: nat

    /** The output of the current call and the room left. */
    var output: seq<Byte>
    var left: nat

    /** The output of earlier calls; the codes in use; the lengths read so far. */
    ghost var hist: seq<Byte>
    ghost var cur: Codes
    ghost var clens: seq<nat>
    ghost var got: seq<nat>

    ghost function Snap(): Regs
      reads this, b
    {
      Regs(mode, last, length, offset, extra, nlen, ndist, ncode, cur, clens, got, hist + output, Floor(|hist|, Size()),
           b.hold, b.bits, b.input)
    }

    ghost predicate Shape() {
      && lens.Length == 320 && work.Length == 288 && codes.Length == ENOUGH_LENS + ENOUGH_DISTS
      && 256 <= w.buffer.Length <= 32768 && lens != work
      && (lens as object) != w.buffer && (work as object) != w.buffer && (codes as object) != w.buffer
      && Serves(lenfix, 9, LENS, FixedCodes().llens) && Serves(distfix, 5, DISTS, FixedCodes().dlens)
    }

    /** The tables in use decode the codes in use. */
    ghost predicate Tables()
      reads `lencode, `lenbits, `distcode, `distbits, `cur
    {
      Serves(lencode, lenbits, LENS, cur.llens) && Serves(distcode, distbits, DISTS, cur.dlens)
    }

    /** The fields of the current mode. */
    ghost predicate ModeOk()
      reads `mode, `length, `offset, `extra, `nlen, `ndist, `ncode, `have, `lencode, `lenbits, `distcode, `distbits,
        `cur, `clens, `got, lens
    {
      match mode
      case LENLENS =>
        257 <= nlen <= 286 && 1 <= ndist <= 30 && have == |got| <= ncode <= 19 && LengthsPlaced(lens[..], got)
      case CODELENS =>
        && 257 <= nlen <= 286 && 1 <= ndist <= 30 && have == |got| <= nlen + ndist <= lens.Length
        && lens[..have] == got && ValidLens(got) && Serves(lencode, lenbits, CODES, clens)
      case LEN => Tables()
      case LIT => Tables() && length < 256
      case LENEXT => Tables() && length >= 3 && extra < 16
      case DIST => Tables() && length >= 3
      case DISTEXT => Tables() && length >= 3 && offset >= 1 && extra < 16
      case MATCH => Tables() && length >= 1 && offset >= 1
      case _ => true
    }

    /** The state apart from the window. */
    ghost predicate Ok()
      reads this, b, lens
    {
      Shape() && b.Valid() && ModeOk() && (mode == COPY || mode == DONE ==> b.bits == 0)
    }

    /** The window keeps the output of earlier calls, as long as it may be needed. */
    ghost predicate WindowOk()
      reads this, w, w.buffer
    {
      w.Holds(hist) && (w.wsize == 0 ==> hist == [] || mode == DONE || mode == BAD)
    }

    ghost predicate Valid()
      reads this, b, w, w.buffer, lens
    {
      Ok() && WindowOk()
    }

    ghost function Size(): nat { w.buffer.Length }

    /** `inflateInit2` for a raw stream. */
    constructor (wbits: nat)
      requires 8 <= wbits <= 15
      ensures Valid() && fresh(b) && fresh(w) && fresh(w.buffer) && fresh(lens) && fresh(work) && fresh(codes)
      ensures Size() == Pow2(wbits) && b.bits == 0 && b.input == []
      ensures mode == TYPE && !last && hist == [] && output == []
    {
      hide Serves, Pow2, FixedCodes;
      SizeRange(wbits);
      b := new BitReader();
      w := new SlidingWindow(wbits);
      lens := new nat[320];
      work := new nat[288];
      codes := new Entry[ENOUGH_LENS + ENOUGH_DISTS];
      var lenTable, distTable := BuildTables();
      lenfix, distfix := lenTable, distTable;
      mode, last := TYPE, false;
      lencode, distcode := [], [];
      output, left := [], 0;
      hist, got := [], [];
    }

    lemma PlainOk()
      requires mode == TYPE || mode == STORED || mode == COPY || mode == TABLE || mode == DONE || mode == BAD
      ensures ModeOk()
    {
    }

    // ---------------------------------------------------------- TYPE

    /** Set the mode for a block type; `inflate_fixed` if it is the fixed one. */
    method StartBlock(t: nat)
      requires Shape()
      modifies `mode, `lencode, `lenbits, `distcode, `distbits, `cur
      ensures mode == BlockPhase(t)
      ensures mode == LEN ==> cur == FixedCodes() && Tables()
    {
      hide Serves, FixedCodes;
      mode := BlockPhase(t);
      if t == 1 {
        lencode, lenbits, distcode, distbits := lenfix, 9, distfix, 5;
        cur := FixedCodes();
      }
    }

    lemma BlockOk(t: nat)
      requires mode == BlockPhase(t)
      requires mode == LEN ==> Tables()
      ensures ModeOk() && mode != COPY && mode != DONE
    {
      hide Serves, LengthsPlaced, ValidLens;
    }

    /** After the last block; there is no trailer to check, so CHECK and LENGTH do nothing. */
    method EndStream(ghost f: seq<bool>)
      requires Ok() && mode == TYPE && last && Lean(Snap()) && Whole(f)
      modifies `mode, b`hold, b`bits, b`input
      ensures Ok() && Does(old(Snap()), Snap(), f)
    {
      hide StreamOf, Floor, Aligned, Moves, Does, Lean, Whole, Inflater.Shape, Inflater.ModeOk, BitReader.Valid;
      ghost var r := Snap();
      TypeLean(r);
      b.ByteBits();
      mode := DONE;
      PlainOk();
      TypeEnds(r, Snap(), f);
    }

    method DoType(ghost f: seq<bool>) returns (go: bool)
      requires Ok() && mode == TYPE && Lean(Snap()) && Whole(f)
      modifies `mode, `last, `lencode, `lenbits, `distcode, `distbits, `cur, b`hold, b`bits, b`input
      ensures Ok()
      ensures if go then Does(old(Snap()), Snap(), f) else Waits(old(Snap()), Snap(), f)
    {
      hide StreamOf, Floor, Value, Aligned, Moves, Does, Waits, Lean, Whole, BlockPhase, FixedCodes, Serves, Inflater.Shape, Inflater.ModeOk, BitReader.Valid;
      ghost var r := Snap();
      TypeLean(r);
      if last {
        EndStream(f);
        return true;
      }
      go := b.NeedBits(3);
      if !go {
        TypeWaits(r, Snap(), f);
        return;
      }
      ghost var s := Unread(r);
      FirstBit(s);
      var v := b.Take(1);
      var t := b.Take(2);
      assert s[1..][2..] == s[3..];
      last := v == 1;
      StartBlock(t);
      BlockOk(t);
      TypeReads(r, Snap(), f, s, t);
    }

    // ---------------------------------------------------------- STORED

    method ReadStored(ghost f: seq<bool>) returns (go: bool)
      requires Ok() && mode == STORED && Whole(f) && Bytewise(b.bits) && b.bits < 32
      modifies `mode, `length, b`hold, b`bits, b`input
      ensures Ok()
      ensures if go then Does(old(Snap()), Snap(), f) else Waits(old(Snap()), Snap(), f)
    {
      hide StreamOf, Floor, Value, Aligned, Moves, Does, Waits, Lean, Whole, Bytewise, Inflater.Shape, Inflater.ModeOk, BitReader.Valid;
      ghost var r := Snap();
      UnreadBytewise(r);
      go := b.NeedBits(32);
      if go {
        ReadLengths(r, f);
      } else {
        StoredWaits(r, Snap(), f);
      }
    }

    method ReadLengths(ghost r: Regs, ghost f: seq<bool>)
      requires Ok() && mode == STORED && b.bits == 32 && r.mode == STORED && Pulls(r, Snap())
      requires Whole(f) && Bytewise(|Unread(r)|)
      modifies `mode, `length, b`hold, b`bits, b`input
      ensures Ok() && Does(r, Snap(), f)
    {
      hide StreamOf, Floor, Value, Aligned, Moves, Does, Lean, Whole, Bytewise, Shr, Inflater.Shape, Inflater.ModeOk, BitReader.Valid;
      var n := b.Peek(16);
      HighHalf();
      if n != 65535 - Shr(b.hold, 16) {
        mode := BAD;
        PlainOk();
        StoredFails(r, Snap(), f, Unread(r));
      } else {
        length := n;
        b.DropBits(32);
        mode := COPY;
        PlainOk();
        StoredReads(r, Snap(), f, Unread(r), n);
      }
    }

    lemma HighHalf()
      requires b.Valid() && b.bits == 32
      ensures Shr(b.hold, 16) == Value(b.Stream()[16..], 16)
    {
      hide ToBits, Num, Shr, Pow2, BytesToBits;
      Dropped(b.hold, 32, 16);
      assert b.Stream()[16..][..16] == ToBits(b.hold, 32)[16..];
      HoldIsNum(Shr(b.hold, 16), 16);
    }

    method DoStored(ghost f: seq<bool>) returns (go: bool)
      requires Ok() && mode == STORED && Lean(Snap()) && Whole(f)
      modifies `mode, `length, b`hold, b`bits, b`input
      ensures Ok() && Goes(old(Snap()), Snap(), f, go)
      ensures !go ==> OutOfInput(Snap())
    {
      hide StreamOf, Floor, Aligned, Step, Goes, Does, Waits, Follows, Lean, Whole, Bytewise, Lower, Abs,
        Inflater.Shape, Inflater.ModeOk, BitReader.Valid;
      ghost var r := Snap();
      b.ByteBits();
      ghost var q := Snap();
      StoredGoes(r, q, f);
      go := ReadStored(f);
      if go {
        GoesDoes(r, q, Snap(), f);
      } else {
        GoesWaits(r, q, Snap(), f);
      }
    }

    // ---------------------------------------------------------- COPY

    method DoCopy(ghost f: seq<bool>) returns (go: bool)
      requires Ok() && mode == COPY
      modifies `mode, `length, `output, `left, b`input
      ensures Ok() && |output| + left == old(|output| + left)
      ensures if go then Goes(old(Snap()), Snap(), f, true)
              else unchanged(this) && unchanged(b) && ((left == 0 && length > 0) || OutOfInput(Snap()))
    {
      hide StreamOf, Floor, Step, Goes, Follows, Lean, Lower, Abs, BytesToBits, Pow2, Inflater.Shape, Inflater.ModeOk;
      ghost var r := Snap();
      var copy := length;
      if copy == 0 {
        mode := TYPE;
        PlainOk();
        CopyEnds(r, Snap(), f);
        return true;
      }
      if copy > |b.input| { copy := |b.input|; }
      if copy > left { copy := left; }
      if copy == 0 {
        if left > 0 { CopyStarves(r); }
        return false;
      }
      Appended(hist, output, b.input[..copy]);
      output := output + b.input[..copy];
      b.input := b.input[copy..];
      left := left - copy;
      length := length - copy;
      PlainOk();
      CopyGoes(r, Snap(), f, copy);
      return true;
    }

    // ---------------------------------------------------------- TABLE

    method DoTable(ghost f: seq<bool>) returns (go: bool)
      requires Ok() && mode == TABLE && Lean(Snap())
      modifies `mode, `nlen, `ndist, `ncode, `have, `got, b`hold, b`bits, b`input
      ensures Ok()
      ensures if go then Does(old(Snap()), Snap(), f) else Waits(old(Snap()), Snap(), f)
    {
      hide StreamOf, Floor, Value, Moves, Does, Waits, Lean, Inflater.Shape, Inflater.ModeOk, BitReader.Valid;
      ghost var r := Snap();
      TableLean(r);
      go := b.NeedBits(14);
      if go {
        ReadSizes(r, f);
      } else {
        TableWaits(r, Snap(), f);
      }
    }

    method ReadSizes(ghost r: Regs, ghost f: seq<bool>)
      requires Ok() && mode == TABLE && 14 <= b.bits < 22 && r.mode == TABLE && Pulls(r, Snap())
      modifies `mode, `nlen, `ndist, `ncode, `have, `got, b`hold, b`bits, b`input
      ensures Ok() && Does(r, Snap(), f)
    {
      hide StreamOf, Floor, Value, Moves, Does, Lean, Inflater.Shape, Inflater.ModeOk, BitReader.Valid;
      ghost var s := Unread(r);
      var x := b.Take(5);
      var y := b.Take(5);
      var z := b.Take(4);
      assert s[5..][5..] == s[10..] && s[10..][4..] == s[14..];
      ValueBound(s[10..], 4);
      nlen, ndist, ncode := x + 257, y + 1, z + 4;
      CheckSizes();
      TableReads(r, Snap(), f, s, x + 257, y + 1, z + 4);
    }

    method CheckSizes()
      requires Shape() && 257 <= nlen && 1 <= ndist && ncode <= 19
      modifies `mode, `have, `got
      ensures ModeOk() && (if nlen > 286 || ndist > 30 then mode == BAD else mode == LENLENS && got == [])
    {
      hide Serves;
      if nlen > 286 || ndist > 30 {
        mode := BAD;
      } else {
        have, got := 0, [];
        mode := LENLENS;
      }
    }

    // ---------------------------------------------------------- LENLENS

    lemma LenLensFields()
      requires Shape() && mode == LENLENS
      ensures ModeOk() <==> (257 <= nlen <= 286 && 1 <= ndist <= 30 && have == |got| <= ncode <= 19 && LengthsPlaced(lens[..], got))
    {
    }

    method ReadLength(ghost f: seq<bool>) returns (go: bool)
      requires Ok() && mode == LENLENS && have < ncode && Lean(Snap())
      modifies `have, `got, lens, b`hold, b`bits, b`input
      ensures Ok() && mode == LENLENS && (go ==> have == old(have) + 1)
      ensures if go then Does(old(Snap()), Snap(), f) else Waits(old(Snap()), Snap(), f)
    {
      hide StreamOf, Floor, Value, Moves, Does, Waits, Lean, Order, LengthsPlaced, Pow2, Inflater.Shape, Inflater.ModeOk, BitReader.Valid;
      ghost var r := Snap();
      LenLensLean(r);
      LenLensFields();
      go := b.NeedBits(3);
      if go {
        PlaceLength(r, f);
      } else {
        LenLensWaits(r, Snap(), f);
      }
    }

    method PlaceLength(ghost r: Regs, ghost f: seq<bool>)
      requires Ok() && mode == LENLENS && have < ncode && 3 <= b.bits < 11 && Pulls(r, Snap())
      modifies `have, `got, lens, b`hold, b`bits, b`input
      ensures Ok() && mode == LENLENS && have == old(have) + 1 && Does(r, Snap(), f)
    {
      hide StreamOf, Floor, Value, Moves, Does, Lean, Order, LengthsPlaced, Pow2, Serves, Inflater.ModeOk, BitReader.Valid;
      LenLensFields();
      ghost var s, l := Unread(r), lens[..];
      ValueBound(s, 3);
      var v := b.Take(3);
      PlaceNext(l, got, v);
      lens[Order(have)] := v;
      assert lens[..] == l[Order(have) := v];
      have, got := have + 1, got + [v];
      LenLensFields();
      LenLensReads(r, Snap(), f, s, v);
    }

    /** The lengths not sent are zero. */
    method ClearLengths(ghost c: seq<nat>)
      requires Ok() && mode == LENLENS && c == CodeLengthCode(got)
      modifies `have, lens
      ensures lens.Length == 320 && lens[..19] == c && forall i | 0 <= i < 19 :: c[i] <= 7
    {
      hide Order, LengthsPlaced, CodeLengthCode, Serves, Inflater.ModeOk, BitReader.Valid;
      LenLensFields();
      ghost var zeros: seq<nat> := [];
      assert got + zeros == got;
      PlacedSize(lens[..], got);
      while have < 19
        invariant have == |got + zeros| <= 19 && LengthsPlaced(lens[..], got + zeros)
        invariant forall i | 0 <= i < |zeros| :: zeros[i] == 0
      {
        ghost var l := lens[..];
        PlaceNext(l, got + zeros, 0);
        lens[Order(have)] := 0;
        assert lens[..] == l[Order(have) := 0];
        assert got + zeros + [0] == got + (zeros + [0]);
        zeros := zeros + [0];
        have := have + 1;
      }
      CodeLengthsPlaced(lens[..], got, zeros);
      assert lens[..][..19] == lens[..19];
    }

    method BuildLengthCode(ghost c: seq<nat>) returns (ok: bool)
      requires Shape() && c == lens[..19] && forall i | 0 <= i < 19 :: c[i] <= 7
      modifies `lencode, `lenbits, `distcode, work, codes
      ensures c == lens[..19] && (ok <==> Builds(CODES, c, 7))
      ensures ok ==> Serves(lencode, lenbits, CODES, c)
    {
      hide Decodes, Closed, Rejected, Oversize, RootIs, SameOutside, Pow2, FixedCodes;
      CodesSpace();
      var ret, next, root := InflateTable.InflateTable(CODES, lens[..19], codes, 0, 7, work);
      ok := ret == 0;
      if ok {
        lencode, lenbits := codes[0..next], root;
        distcode := lencode;
      }
    }

    method StartCodeLens(ok: bool, ghost c: seq<nat>)
      requires Shape() && 257 <= nlen <= 286 && 1 <= ndist <= 30 && (ok ==> Serves(lencode, lenbits, CODES, c))
      modifies `mode, `have, `got, `clens
      ensures ModeOk() && if ok then mode == CODELENS && got == [] && clens == c else mode == BAD
    {
      hide Serves, Inflater.ModeOk;
      if ok {
        have, got, clens := 0, [], c;
        mode := CODELENS;
        CodeLensFields();
      } else {
        mode := BAD;
        PlainOk();
      }
    }

    method EndLengths(ghost f: seq<bool>)
      requires Ok() && mode == LENLENS && |got| >= ncode && 257 <= nlen <= 286 && 1 <= ndist <= 30 && b.bits < 8
      modifies `mode, `have, `got, `clens, `lencode, `lenbits, `distcode, lens, work, codes
      ensures Ok() && Does(old(Snap()), Snap(), f)
    {
      hide StreamOf, Floor, Moves, Does, Lean, LengthsPlaced, CodeLengthCode, Serves, Builds, Inflater.Shape, Inflater.ModeOk, BitReader.Valid;
      ghost var r, c := Snap(), CodeLengthCode(got);
      ClearLengths(c);
      var ok := BuildLengthCode(c);
      StartCodeLens(ok, c);
      if ok {
        LenLensEnds(r, Snap(), f);
      } else {
        LenLensFails(r, Snap(), f);
      }
    }

    method DoLenLens(ghost f: seq<bool>) returns (go: bool)
      requires Ok() && mode == LENLENS && Lean(Snap())
      modifies `mode, `have, `got, `clens, `lencode, `lenbits, `distcode, lens, work, codes, b`hold, b`bits, b`input
      ensures Ok() && Goes(old(Snap()), Snap(), f, go)
      ensures !go ==> OutOfInput(Snap())
    {
      hide StreamOf, Floor, Goes, Does, Waits, Lean, Abs, Step, Inflater.Shape, Inflater.ModeOk, BitReader.Valid;
      ghost var r := Snap();
      GoesNowhere(r, f);
      while have < ncode
        invariant Ok() && mode == LENLENS && Goes(r, Snap(), f, false)
        decreases ncode - have
      {
        ghost var q := Snap();
        GoesLean(r, q, f);
        go := ReadLength(f);
        if !go {
          GoesWaits(r, q, Snap(), f);
          return;
        }
        GoesDoes(r, q, Snap(), f);
        GoesLoose(r, Snap(), f);
      }
      ghost var q := Snap();
      GoesLean(r, q, f);
      LenLensLean(q);
      LenLensFields();
      EndLengths(f);
      GoesDoes(r, q, Snap(), f);
      go := true;
    }

    // ---------------------------------------------------------- CODELENS

    lemma CodeLensFields()
      requires Shape() && mode == CODELENS
      ensures ModeOk() <==> (&& 257 <= nlen <= 286 && 1 <= ndist <= 30 && have == |got| <= nlen + ndist <= lens.Length
                             && lens[..have] == got && ValidLens(got) && Serves(lencode, lenbits, CODES, clens))
    {
    }

    /** Append `n` times the length `v`. */
    method FillLengths(v: nat, n: nat)
      requires have + n <= lens.Length
      modifies `have, lens
      ensures have == old(have) + n && lens[..have] == old(lens[..have]) + Repeat(v, n)
    {
      ghost var l := lens[..have];
      var copy: nat := n;
      while copy != 0
        invariant copy <= n && have == old(have) + n - copy
        invariant lens[..have] == l + Repeat(v, n - copy)
      {
        lens[have] := v;
        have := have + 1;
        copy := copy - 1;
      }
    }

    method ReadSymbol(ghost f: seq<bool>) returns (go: bool)
      requires Ok() && mode == CODELENS && have < nlen + ndist && Lean(Snap())
      modifies `mode, `have, `got, lens, b`hold, b`bits, b`input
      ensures Ok() && (mode == CODELENS || mode == BAD) && (go && mode == CODELENS ==> have > old(have))
      ensures if go then Does(old(Snap()), Snap(), f) else Waits(old(Snap()), Snap(), f)
    {
      hide StreamOf, Floor, ToBits, Find, Serves, Value, Moves, Does, Waits, Lean, Inflater.Shape, Inflater.ModeOk, BitReader.Valid;
      ghost var r := Snap();
      CodeLensFields();
      CodeLensSize();
      CodeLensLean(r);
      var here;
      go, here := b.FetchLength(lencode, lenbits, clens, f);
      if !go {
        CodeLensWaits(r, Snap(), f);
      } else if here.val < 16 {
        ReadPlain(r, here, f);
      } else {
        go := ReadRepeat(r, here, f);
      }
    }

    /** `here` is the entry at the front of the stream, and only what it needs was pulled. */
    ghost predicate AtSymbol(r: Regs, here: Entry, f: seq<bool>)
      reads this, b
    {
      && mode == CODELENS && r.mode == CODELENS && Pulls(r, Snap()) && |clens| <= MaxSymbols(CODES)
      && here.bits <= b.bits && here.bits <= MAXBITS && here.val <= 18
      && Find(CODES, clens, Unread(r) + f) == Some(here) && Find(CODES, clens, Unread(r)) == Some(here)
    }

    method ReadPlain(ghost r: Regs, here: Entry, ghost f: seq<bool>)
      requires Ok() && have < nlen + ndist && AtSymbol(r, here, f) && here.val < 16 && b.bits < here.bits + 8
      modifies `have, `got, lens, b`hold, b`bits, b`input
      ensures Ok() && mode == CODELENS && have == old(have) + 1 && Does(r, Snap(), f)
    {
      hide StreamOf, Floor, Find, Serves, Value, Moves, Does, Lean, Inflater.Shape, Inflater.ModeOk, BitReader.Valid, MaxSymbols;
      CodeLensFields();
      b.DropBits(here.bits);
      AppendLength(here.val);
      CodeLensReads(r, Snap(), f, here);
    }

    method AppendLength(v: nat)
      requires Shape() && mode == CODELENS && ModeOk() && have < nlen + ndist && v < 16
      modifies `have, `got, lens
      ensures ModeOk() && have == old(have) + 1 && got == old(got) + [v]
    {
      hide Serves, Inflater.ModeOk, FixedCodes;
      CodeLensFields();
      ghost var l := lens[..have];
      lens[have] := v;
      have, got := have + 1, got + [v];
      assert lens[..have] == l + [v];
      CodeLensFields();
    }

    method ReadRepeat(ghost r: Regs, here: Entry, ghost f: seq<bool>) returns (go: bool)
      requires Ok() && have < nlen + ndist && AtSymbol(r, here, f) && here.val >= 16
      requires b.bits < here.bits + 8 || b.bits < here.bits + RepeatBits(here.val)
      modifies `mode, `have, `got, lens, b`hold, b`bits, b`input
      ensures Ok() && (mode == CODELENS || mode == BAD) && (go && mode == CODELENS ==> have > old(have))
      ensures if go then Does(r, Snap(), f) else Waits(r, Snap(), f)
    {
      hide StreamOf, Floor, Find, Serves, Value, Moves, Does, Waits, Lean, Inflater.Shape, Inflater.ModeOk, BitReader.Valid;
      CodeLensFields();
      go := b.NeedBits(here.bits + RepeatBits(here.val));
      if !go {
        CodeLensWaits(r, Snap(), f);
      } else if here.val == 16 && have == 0 {
        FirstRepeat(r, here, f);
      } else {
        AddRepeat(r, here, f);
      }
    }

    method FirstRepeat(ghost r: Regs, here: Entry, ghost f: seq<bool>)
      requires Ok() && have < nlen + ndist && AtSymbol(r, here, f) && here.val == 16 && have == 0 && here.bits + 2 <= b.bits
      modifies `mode, b`hold, b`bits, b`input
      ensures Ok() && mode == BAD && Does(r, Snap(), f)
    {
      hide StreamOf, Floor, Find, Serves, Value, Moves, Does, Lean, Inflater.Shape, Inflater.ModeOk, BitReader.Valid;
      CodeLensFields();
      b.DropBits(here.bits);
      mode := BAD;
      PlainOk();
      CodeLensFirst(r, Snap(), f, here);
    }

    /** The length to repeat and how often, read from the stream. */
    method TakeRepeat(ghost r: Regs, here: Entry, ghost f: seq<bool>) returns (ghost x: nat, v: nat, n: nat)
      requires Ok() && have < nlen + ndist && AtSymbol(r, here, f) && here.val >= 16 && (here.val == 16 ==> have > 0)
      requires here.bits + RepeatBits(here.val) <= b.bits < here.bits + RepeatBits(here.val) + 8
      modifies b`hold, b`bits, b`input
      ensures Ok() && RepeatRead(r, Snap(), f, here, x) && Repeats(r, here, x, v, n) && n >= 3 && (v == 0 || v in got)
    {
      hide StreamOf, Floor, Find, Serves, Value, RepeatBits, RepeatBase, MaxSymbols, Inflater.Shape, Inflater.ModeOk,
        BitReader.Valid, ValidLens;
      CodeLensFields();
      RepeatLeast(here.val);
      v := LengthBefore(here.val);
      var k := b.TakeBehind(here.bits, RepeatBits(here.val));
      x, n := k, RepeatBase(here.val) + k;
    }

    /** The length that symbol 16 repeats; the others repeat zero. */
    method LengthBefore(val: nat) returns (v: nat)
      requires Ok() && mode == CODELENS && (val == 16 ==> have > 0)
      ensures |got| == have && v == (if val == 16 then got[|got| - 1] else 0) && (v == 0 || v in got)
    {
      hide Serves, Inflater.Shape, Inflater.ModeOk, ValidLens;
      CodeLensFields();
      v := if val == 16 then lens[have - 1] else 0;
      assert val == 16 ==> v == got[|got| - 1];
    }

    method AddRepeat(ghost r: Regs, here: Entry, ghost f: seq<bool>)
      requires Ok() && have < nlen + ndist && AtSymbol(r, here, f) && here.val >= 16 && (here.val == 16 ==> have > 0)
      requires here.bits + RepeatBits(here.val) <= b.bits < here.bits + RepeatBits(here.val) + 8
      modifies `mode, `have, `got, lens, b`hold, b`bits, b`input
      ensures Ok() && (mode == CODELENS || mode == BAD) && (mode == CODELENS ==> have > old(have)) && Does(r, Snap(), f)
    {
      hide StreamOf, Floor, Find, Serves, Moves, Does, Lean, RepeatRead, Repeats, Repeat, RepeatBits, MaxSymbols, Inflater.Shape, Inflater.ModeOk,
        BitReader.Valid, ValidLens;
      CodeLensFields();
      ghost var x; var v, n;
      x, v, n := TakeRepeat(r, here, f);
      ghost var q := Snap();
      if have + n > nlen + ndist {
        mode := BAD;
        PlainOk();
        RepeatReadSame(r, q, Snap(), f, here, x);
        CodeLensOverflows(r, Snap(), f, here, x, v, n);
      } else {
        AppendRepeat(v, n);
        RepeatReadSame(r, q, Snap(), f, here, x);
        CodeLensRepeats(r, Snap(), f, here, x, v, n);
      }
    }

    method AppendRepeat(v: nat, n: nat)
      requires Shape() && mode == CODELENS && ModeOk() && have + n <= nlen + ndist && (v == 0 || v in got)
      modifies `have, `got, lens
      ensures ModeOk() && have == old(have) + n && got == old(got) + Repeat(v, n)
    {
      hide Serves, ValidLens, Repeat, Inflater.ModeOk, FixedCodes;
      CodeLensFields();
      ValidRepeat(got, v, n);
      FillLengths(v, n);
      got := got + Repeat(v, n);
      CodeLensFields();
    }

    lemma CodeLensSize()
      requires Shape() && mode == CODELENS && ModeOk()
      ensures |clens| <= MaxSymbols(CODES)
    {
    }

    /** Build the two tables of a block from all its lengths. */
    method BuildCodes(ghost g: seq<nat>) returns (ok: bool)
      requires Shape() && 257 <= nlen <= 286 && 1 <= ndist <= 30 && g == lens[..nlen + ndist] && ValidLens(g)
      modifies `lencode, `lenbits, `distcode, `distbits, `cur, work, codes
      ensures BlockCodes(nlen, g) == if ok then Len(cur) else Bad
      ensures ok ==> Tables()
    {
      hide Decodes, Closed, Rejected, Oversize, RootIs, SameOutside, Pow2, FixedCodes;
      if lens[256] == 0 { return false; }
      assert lens[..nlen] == g[..nlen] && lens[nlen..nlen + ndist] == g[nlen..];
      var ret, next, bits := InflateTable.InflateTable(LENS, lens[..nlen], codes, 0, 9, work);
      if ret != 0 { return false; }
      lencode, lenbits := codes[0..next], bits;
      ret, next, bits := BuildDistances(g, next);
      if ret != 0 { return false; }
      distbits := bits;
      cur := Codes(g[..nlen], g[nlen..]);
      return true;
    }

    method BuildDistances(ghost g: seq<nat>, next: nat) returns (ret: int, end: nat, bits: nat)
      requires Shape() && nlen <= 286 && 1 <= ndist <= 30 && g == lens[..nlen + ndist] && ValidLens(g) && next <= ENOUGH_LENS
      modifies `distcode, work, codes
      ensures ret == 0 <==> Builds(DISTS, g[nlen..], 6)
      ensures ret == 0 ==> Serves(distcode, bits, DISTS, g[nlen..])
    {
      hide Decodes, Closed, Rejected, Oversize, RootIs, SameOutside, Pow2, FixedCodes;
      assert lens[nlen..nlen + ndist] == g[nlen..];
      ret, end, bits := InflateTable.InflateTable(DISTS, lens[nlen..nlen + ndist], codes, next, 6, work);
      if ret == 0 { distcode := codes[next..end]; }
    }

    method EndSymbols(ghost f: seq<bool>)
      requires Ok() && mode == CODELENS && have >= nlen + ndist && b.bits < 8
      modifies `mode, `lencode, `lenbits, `distcode, `distbits, `cur, work, codes
      ensures Ok() && Does(old(Snap()), Snap(), f)
    {
      hide StreamOf, Moves, Does, Lean, Serves, BlockCodes, ValidLens, Floor, Inflater.Shape, Inflater.ModeOk, Inflater.Tables,
        BitReader.Valid;
      ghost var r := Snap();
      CodeLensFields();
      var ok := BuildCodes(got);
      if ok { EnterBlock(r, f); } else { RejectBlock(r, f); }
    }

    method EnterBlock(ghost r: Regs, ghost f: seq<bool>)
      requires Shape() && b.Valid() && mode == CODELENS && |got| >= nlen + ndist && b.bits < 8
      requires r == Snap().(codes := r.codes) && BlockCodes(nlen, got) == Len(cur) && Tables()
      modifies `mode
      ensures Ok() && Does(r, Snap(), f)
    {
      hide StreamOf, Does, Serves, BlockCodes, ValidLens, Floor, Inflater.Shape, Inflater.ModeOk, Inflater.Tables, BitReader.Valid;
      mode := LEN;
      TablesOk();
      CodeLensEnds(r, Snap(), f);
    }

    method RejectBlock(ghost r: Regs, ghost f: seq<bool>)
      requires Shape() && b.Valid() && mode == CODELENS && |got| >= nlen + ndist
      requires r == Snap().(codes := r.codes) && BlockCodes(nlen, got) == Bad
      modifies `mode
      ensures Ok() && Does(r, Snap(), f)
    {
      hide StreamOf, Does, Serves, BlockCodes, ValidLens, Floor, Inflater.Shape, Inflater.ModeOk, Inflater.Tables, BitReader.Valid;
      mode := BAD;
      PlainOk();
      CodeLensFails(r, Snap(), f);
    }

    lemma TablesOk()
      requires mode == BAD || (mode == LEN && Tables())
      ensures ModeOk()
    {
    }

    method DoCodeLens(ghost f: seq<bool>) returns (go: bool)
      requires Ok() && mode == CODELENS && Lean(Snap())
      modifies `mode, `have, `got, `lencode, `lenbits, `distcode, `distbits, `cur, lens, work, codes, b`hold, b`bits, b`input
      ensures Ok() && Goes(old(Snap()), Snap(), f, go)
      ensures !go ==> OutOfInput(Snap())
    {
      hide StreamOf, Floor, Goes, Does, Waits, Lean, Abs, Step, Inflater.Shape, Inflater.ModeOk, BitReader.Valid;
      ghost var r := Snap();
      GoesNowhere(r, f);
      while have < nlen + ndist
        invariant Ok() && mode == CODELENS && Goes(r, Snap(), f, false)
        decreases nlen + ndist - have
      {
        ghost var q := Snap();
        GoesLean(r, q, f);
        go := ReadSymbol(f);
        if !go {
          GoesWaits(r, q, Snap(), f);
          return;
        }
        GoesDoes(r, q, Snap(), f);
        if mode == BAD { return; }
        GoesLoose(r, Snap(), f);
      }
      ghost var q := Snap();
      GoesLean(r, q, f);
      CodeLensDone(q);
      EndSymbols(f);
      GoesDoes(r, q, Snap(), f);
      go := true;
    }

    lemma CodeLensDone(q: Regs)
      requires q == Snap() && mode == CODELENS && Shape() && ModeOk() && have >= nlen + ndist && Lean(q)
      ensures b.bits < 8
    {
      hide Serves, Find, ToBits, Lean;
      CodeLensSize();
      CodeLensLean(q);
    }

    // ---------------------------------------------------------- LEN, LENEXT, DIST, DISTEXT

    lemma CodesOk()
      requires ModeOk() && mode in {LEN, LENEXT, DIST, DISTEXT, MATCH, LIT}
      ensures Tables() && Readable(cur)
    {
    }

    lemma SymbolOk()
      requires Tables()
      requires mode == TYPE || mode == BAD || (mode == LIT && length < 256) || (mode == LENEXT && length >= 3 && extra < 16)
      ensures ModeOk()
    {
    }

    method ApplySymbol(e: Entry)
      requires Tables() && LengthFound(e)
      modifies `mode, `length, `extra
      ensures mode == SymbolPhase(e) && length == e.val && (mode == LENEXT ==> extra == e.op % 16)
      ensures ModeOk() && mode != COPY && mode != DONE
    {
      hide Serves, Pow2, EndOp, BadOp, Inflater.Tables, Inflater.ModeOk;
      length := e.val;
      if e.op == 0 {
        mode := LIT;
      } else if EndOp(e.op) {
        mode := TYPE;
      } else if BadOp(e.op) {
        mode := BAD;
      } else {
        extra := e.op % 16;
        mode := LENEXT;
      }
      SymbolOk();
    }

    /** The slow path of mode LEN. */
    method DoLen(ghost f: seq<bool>) returns (go: bool)
      requires Ok() && mode == LEN && Lean(Snap())
      modifies `mode, `length, `extra, b`hold, b`bits, b`input
      ensures Ok()
      ensures if go then Does(old(Snap()), Snap(), f) else Waits(old(Snap()), Snap(), f)
    {
      hide StreamOf, Floor, ToBits, Find, Serves, Moves, Does, Waits, Lean, SymbolPhase, LengthFound, Inflater.Shape, Inflater.ModeOk,
        BitReader.Valid;
      ghost var r := Snap();
      CodesOk();
      LenLean(r);
      var e;
      go, e := b.Decode(lencode, lenbits, LENS, cur.llens, f);
      if go {
        FoundLength(cur.llens, Unread(r) + f);
        ApplySymbol(e);
        LenReads(r, Snap(), f, e);
      } else {
        LenWaits(r, Snap(), f);
      }
    }

    lemma DistOk()
      requires Tables() && mode == DIST && length >= 3
      ensures ModeOk()
    {
    }

    lemma ExtraBounds()
      requires ModeOk() && (mode == LENEXT || mode == DISTEXT)
      ensures extra < 16 && length >= 3 && (mode == DISTEXT ==> offset >= 1)
    {
    }

    method DoLenExt(ghost f: seq<bool>) returns (go: bool)
      requires Ok() && mode == LENEXT && Lean(Snap())
      modifies `mode, `length, b`hold, b`bits, b`input
      ensures Ok()
      ensures if go then Does(old(Snap()), Snap(), f) else Waits(old(Snap()), Snap(), f)
    {
      hide StreamOf, Floor, Value, Moves, Does, Waits, Lean, Inflater.Shape, Inflater.ModeOk, Inflater.Tables, BitReader.Valid;
      ghost var r := Snap();
      CodesOk();
      ExtraBounds();
      LenExtLean(r);
      go := b.NeedBits(extra);
      if !go {
        LenExtWaits(r, Snap(), f);
        return;
      }
      var v := b.Take(extra);
      length := length + v;
      mode := DIST;
      DistOk();
      LenExtReads(r, Snap(), f);
    }

    lemma DistExtOk()
      requires Tables() && (mode == BAD || (mode == DISTEXT && length >= 3 && offset >= 1 && extra < 16))
      ensures ModeOk()
    {
    }

    lemma LengthBound()
      requires ModeOk() && mode == DIST
      ensures length >= 3
    {
    }

    method DoDist(ghost f: seq<bool>) returns (go: bool)
      requires Ok() && mode == DIST && Lean(Snap())
      modifies `mode, `offset, `extra, b`hold, b`bits, b`input
      ensures Ok()
      ensures if go then Does(old(Snap()), Snap(), f) else Waits(old(Snap()), Snap(), f)
    {
      hide StreamOf, Floor, ToBits, Find, Serves, Moves, Does, Waits, Lean, BadOp, Pow2, Inflater.Shape, Inflater.ModeOk, BitReader.Valid;
      ghost var r := Snap();
      CodesOk();
      LengthBound();
      DistLean(r);
      var e;
      go, e := b.Decode(distcode, distbits, DISTS, cur.dlens, f);
      if !go {
        DistWaits(r, Snap(), f);
      } else if BadOp(e.op) {
        mode := BAD;
        DistExtOk();
        DistFails(r, Snap(), f, e);
      } else {
        FoundDistance(cur.dlens, Unread(r) + f);
        offset := e.val;
        extra := e.op % 16;
        mode := DISTEXT;
        DistExtOk();
        DistReads(r, Snap(), f, e);
      }
    }

    lemma MatchOk()
      requires Tables() && mode == MATCH && length >= 1 && offset >= 1
      ensures ModeOk()
    {
    }

    method DoDistExt(ghost f: seq<bool>) returns (go: bool)
      requires Ok() && mode == DISTEXT && Lean(Snap())
      modifies `mode, `offset, b`hold, b`bits, b`input
      ensures Ok()
      ensures if go then Does(old(Snap()), Snap(), f) else Waits(old(Snap()), Snap(), f)
    {
      hide StreamOf, Floor, Value, Moves, Does, Waits, Lean, Inflater.Shape, Inflater.ModeOk, Inflater.Tables, BitReader.Valid;
      ghost var r := Snap();
      CodesOk();
      ExtraBounds();
      DistExtLean(r);
      go := b.NeedBits(extra);
      if !go {
        DistExtWaits(r, Snap(), f);
        return;
      }
      var v := b.Take(extra);
      offset := offset + v;
      mode := MATCH;
      MatchOk();
      DistExtReads(r, Snap(), f);
    }

    // ---------------------------------------------------------- LIT, MATCH

    lemma LitBound()
      requires ModeOk() && (mode == LIT || mode == MATCH)
      ensures mode == LIT ==> length < 256
      ensures mode == MATCH ==> length >= 1 && offset >= 1
    {
    }

    method DoLit(ghost f: seq<bool>) returns (go: bool)
      requires Ok() && mode == LIT && Lean(Snap())
      modifies `mode, `output, `left
      ensures Ok() && |output| + left == old(|output| + left)
      ensures if go then Does(old(Snap()), Snap(), f) else unchanged(this) && left == 0
    {
      hide StreamOf, Floor, Moves, Does, Lean, Inflater.Ok;
      go := left != 0;
      if go { WriteLit(f); }
    }

    method PutLit(x: Byte)
      requires mode == LIT && left > 0
      modifies `mode, `output, `left
      ensures mode == LEN && left == old(left) - 1 && output == old(output) + [x]
      ensures Snap() == old(Snap()).(mode := LEN, out := old(Snap()).out + [x])
    {
      hide Floor;
      Appended(hist, output, [x]);
      output := output + [x];
      left := left - 1;
      mode := LEN;
    }

    method WriteLit(ghost f: seq<bool>)
      requires Ok() && mode == LIT && Lean(Snap()) && left > 0
      modifies `mode, `output, `left
      ensures Ok() && left == old(left) - 1 && |output| == old(|output|) + 1 && Does(old(Snap()), Snap(), f)
    {
      hide StreamOf, Floor, Moves, Does, Lean, Writes, Readable, Inflater.Shape, Inflater.ModeOk, Inflater.Tables, BitReader.Valid;
      ghost var r := Snap();
      CodesOk();
      LitBound();
      OutputLean(r);
      var x: Byte := length;
      PutLit(x);
      TablesOk();
      WritesNow(r, Snap(), [x]);
      LitWrites(r, Snap(), f, x);
    }

    /** Copy `n` bytes from the window. */
    method CopyWindow(from: nat, n: nat) returns (ghost x: seq<Byte>)
      requires from + n <= w.buffer.Length
      modifies `output
      ensures x == w.buffer[from..from + n] && output == old(output) + x
    {
      x := [];
      var i := 0;
      while i < n
        invariant i <= n && x == w.buffer[from..from + i] && output == old(output) + x
      {
        output := output + [w.buffer[from + i]];
        x := x + [w.buffer[from + i]];
        i := i + 1;
      }
    }

    /** Copy `n` bytes from `offset` back in the output, which may be bytes just copied. */
    method CopyOutput(offset: nat, n: nat) returns (ghost x: seq<Byte>)
      requires 1 <= offset <= |output|
      modifies `output
      ensures |x| == n && output == old(output) + x && Copied(old(output), offset, x)
    {
      x := [];
      ghost var o := output;
      var from := |output| - offset;
      var i := 0;
      while i < n
        invariant i <= n && |x| == i && output == o + x && Copied(o, offset, x)
      {
        CopiedMore(o, offset, x);
        x := x + [output[from + i]];
        output := output + [output[from + i]];
        i := i + 1;
      }
    }

    /** The match starts in the window. */
    method MatchWindow(copy0: nat) returns (n: nat, ghost x: seq<Byte>)
      requires w.Holds(hist) && mode == MATCH && length >= 1 && left >= 1
      requires copy0 == offset - |output| && 1 <= copy0 <= w.whave
      modifies `output
      ensures 1 <= n <= length && n <= left && |x| == n && output == old(output) + x
      ensures Copied(hist + old(output), offset, x)
    {
      hide Keeps;
      KeepsBounds(w.buffer[..], w.whave, w.wnext, hist);
      var copy, from := copy0, 0;
      if copy > w.wnext {
        copy := copy - w.wnext;
        from := w.wsize - copy;
      } else {
        from := w.wnext - copy;
      }
      n := copy;
      if n > length { n := length; }
      if n > left { n := left; }
      WindowCopied(w.buffer[..], w.whave, w.wnext, hist, output, offset, from, n);
      x := CopyWindow(from, n);
      assert w.buffer[..][from..from + n] == w.buffer[from..from + n];
    }

    /** The match starts in the output of this call. */
    method MatchOutput() returns (n: nat, ghost x: seq<Byte>)
      requires mode == MATCH && length >= 1 && left >= 1 && 1 <= offset <= |output|
      modifies `output
      ensures 1 <= n <= length && n <= left && |x| == n && output == old(output) + x
      ensures Copied(hist + old(output), offset, x)
    {
      n := length;
      if n > left { n := left; }
      ghost var o := output;
      x := CopyOutput(offset, n);
      CopiedLater(hist, o, offset, x);
    }

    /** Copy as much of the match as is in one piece and fits. */
    method MatchPiece() returns (n: nat, ghost x: seq<Byte>)
      requires w.Holds(hist) && mode == MATCH && length >= 1 && left >= 1 && 1 <= offset <= |output| + w.whave
      modifies `output
      ensures 1 <= n <= length && n <= left && |x| == n && output == old(output) + x
      ensures Copied(hist + old(output), offset, x)
    {
      hide SlidingWindow.Holds, Copied;
      if offset > |output| {
        n, x := MatchWindow(offset - |output|);
      } else {
        n, x := MatchOutput();
      }
    }

    /** Copy a piece and count it. */
    method WriteMatch(ghost r: Regs) returns (ghost x: seq<Byte>)
      requires w.Holds(hist) && mode == MATCH && length >= 1 && left >= 1 && 1 <= offset <= |output| + w.whave && r == Snap()
      modifies `length, `output, `left
      ensures |output| + left == old(|output| + left) && Writes(r, Snap(), x) && Copied(r.out, offset, x)
      ensures 1 <= |x| <= r.length && length == r.length - |x|
    {
      hide StreamOf, Floor, Copied, Writes, SlidingWindow.Holds;
      ghost var o := output;
      var n;
      n, x := MatchPiece();
      left := left - n;
      length := length - n;
      Appended(hist, o, x);
      WritesNow(r, Snap(), x);
    }

    method CopyMatch(ghost f: seq<bool>)
      requires Ok() && WindowOk() && mode == MATCH && Lean(Snap()) && left >= 1 && offset <= |output| + w.whave
      modifies `mode, `length, `output, `left
      ensures Ok() && |output| + left == old(|output| + left) && Goes(old(Snap()), Snap(), f, true)
    {
      hide StreamOf, Floor, Goes, Lean, Copied, Writes, Readable, Inflater.Shape, Inflater.ModeOk, Inflater.Tables, BitReader.Valid,
        SlidingWindow.Holds;
      ghost var r := Snap();
      CodesOk();
      LitBound();
      WindowReach();
      ghost var x := WriteMatch(r);
      EndMatch(r, x, f);
    }

    method DoMatch(ghost f: seq<bool>) returns (go: bool)
      requires Ok() && WindowOk() && mode == MATCH && Lean(Snap())
      modifies `mode, `length, `output, `left
      ensures Ok() && |output| + left == old(|output| + left)
      ensures if go then Goes(old(Snap()), Snap(), f, true) else unchanged(this) && left == 0
    {
      hide StreamOf, Floor, Goes, Lean, Inflater.Shape, Inflater.ModeOk, Inflater.Tables, BitReader.Valid, SlidingWindow.Holds;
      go := left != 0;
      if !go { return; }
      if offset > |output| + w.whave {
        ghost var r := Snap();
        TooFar(r, f);
        mode := BAD;
        PlainOk();
      } else {
        CopyMatch(f);
      }
    }

    /** The window holds as much of the output as is at hand. */
    lemma WindowReach()
      requires WindowOk() && mode == MATCH
      ensures Floor(|hist|, Size()) + w.whave == |hist|
    {
    }

    /** The match is from before what is at hand. */
    lemma TooFar(r: Regs, f: seq<bool>)
      requires WindowOk() && mode == MATCH && r == Snap() && offset > |output| + w.whave && Lean(r)
      ensures Goes(r, r.(mode := BAD), f, true)
    {
      hide StreamOf, Follows, Lean, Step, SlidingWindow.Holds, Floor;
      WindowReach();
      var q := r.(mode := BAD);
      MatchFails(r, q, f);
      DoesGoes(r, q, f);
    }

    /** Leave the mode when the match is complete. */
    method EndMatch(ghost r: Regs, ghost x: seq<Byte>, ghost f: seq<bool>)
      requires Shape() && b.Valid() && Tables() && mode == MATCH && offset >= 1
      requires r.mode == MATCH && Lean(r) && 1 <= |x| <= r.length && r.offset + r.floor <= |r.out| && Copied(r.out, r.offset, x)
      requires Writes(r, Snap(), x) && length == r.length - |x| && offset == r.offset
      modifies `mode
      ensures Ok() && Goes(r, Snap(), f, true)
    {
      hide StreamOf, Floor, Goes, Lean, Copied, Inflater.Shape, Inflater.ModeOk, Inflater.Tables, BitReader.Valid;
      if length == 0 {
        mode := LEN;
        TablesOk();
      } else {
        MatchOk();
      }
      MatchGoes(r, Snap(), x, f);
    }
  }

  lemma Appended(h: seq<Byte>, o: seq<Byte>, x: seq<Byte>)
    ensures h + (o + x) == h + o + x
  {
  }

  lemma CopiedMore(o: seq<Byte>, offset: nat, x: seq<Byte>)
    requires Copied(o, offset, x)
    ensures Copied(o, offset, x + [(o + x)[|o| - offset + |x|]])
  {
    var y := x + [(o + x)[|o| - offset + |x|]];
    assert o + y == (o + x) + [(o + x)[|o| - offset + |x|]];
    forall i | 0 <= i < |y| ensures y[i] == (o + y)[|o| + i - offset] {
      if i < |x| { assert x[i] == (o + x)[|o| + i - offset]; }
    }
  }

  lemma CopiedLater(h: seq<Byte>, o: seq<Byte>, offset: nat, x: seq<Byte>)
    requires Copied(o, offset, x)
    ensures Copied(h + o, offset, x)
  {
    forall i | 0 <= i < |x| ensures x[i] == (h + o + x)[|h + o| + i - offset] {
      assert h + o + x == h + (o + x);
      assert x[i] == (o + x)[|o| + i - offset];
    }
  }

  lemma CopiedJoin(o: seq<Byte>, offset: nat, x: seq<Byte>, y: seq<Byte>)
    requires Copied(o, offset, x) && Copied(o + x, offset, y)
    ensures Copied(o, offset, x + y)
  {
    assert o + (x + y) == o + x + y;
    forall i | 0 <= i < |x + y| ensures (x + y)[i] == (o + (x + y))[|o| + i - offset] {
      if i < |x| {
        assert x[i] == (o + x)[|o| + i - offset];
      } else {
        assert y[i - |x|] == (o + x + y)[|o + x| + (i - |x|) - offset];
      }
    }
  }

  /** What the window holds from `from` on is what the match copies. */
  lemma WindowCopied(win: seq<Byte>, whave: nat, wnext: nat, hist: seq<Byte>, o: seq<Byte>, offset: nat, from: nat, n: nat)
    requires Keeps(win, whave, wnext, hist) && |o| < offset <= |o| + whave
    requires var d := offset - |o|;
             if d > wnext then from == |win| - (d - wnext) && n <= d - wnext else from == wnext - d && n <= d
    ensures from + n <= |win| && Copied(hist + o, offset, win[from..from + n])
  {
    var d := offset - |o|;
    var x := win[from..from + n];
    forall i | 0 <= i < n ensures x[i] == (hist + o + x)[|hist + o| + i - offset] {
      assert win[Back(|win|, wnext, d - i)] == hist[|hist| - (d - i)];
    }
  }

  lemma RepeatLeast(val: nat)
    ensures RepeatBase(val) >= 3
  {
  }

  lemma ValidRepeat(got: seq<nat>, v: nat, n: nat)
    requires ValidLens(got) && (v == 0 || v in got)
    ensures ValidLens(got + Repeat(v, n))
  {
  }

  lemma CodesSpace()
    ensures Space(CODES, 7) == 128
  {
    assert Pow2(7) == 128;
  }

  lemma PlacedSize(lens: seq<nat>, got: seq<nat>)
    requires LengthsPlaced(lens, got)
    ensures |got| <= 19
  {
  }

  lemma SuffixGiven(z: Inflater)
    requires z.Ok()
    ensures IsSuffix(z.b.input, z.b.given)
  {
  }
}
