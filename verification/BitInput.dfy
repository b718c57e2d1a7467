/**
 The bit accumulator of `inflate` (inflate.c, the macros from `INITBITS` to `BYTEBITS`) and
 the way codes are read through it.  Input bytes are moved into `hold` only when the bits
 there do not do; the accumulator never needs more than 32 bits.
 */
module BitInput {
  import opened Bits
  import opened CanonicalCode
  import opened InflateTable
  import opened InflateSpec

  lemma Pulled(hold: nat, bits: nat, x: Byte, rest: seq<Byte>)
    requires hold < Pow2(bits)
    ensures hold + Pow2(bits) * x < Pow2(bits + 8)
    ensures ToBits(hold + Pow2(bits) * x, bits + 8) + BytesToBits(rest) == ToBits(hold, bits) + BytesToBits([x] + rest)
  {
    hide Low, Shr, ToBits, Num;
    var h := hold + Pow2(bits) * x;
    SplitUnique(hold, x, bits);
    ToBitsSplit(h, bits, 8);
    ToBitsLow(h, bits);
    assert ([x] + rest)[1..] == rest;
    assert ToBits(h, bits + 8) == ToBits(hold, bits) + ToBits(x, 8);
    assert Pow2(8) == 256;
    LowSmall(x, 8);
    Fits(hold, x, bits);
  }

  lemma Fits(hold: nat, x: nat, bits: nat)
    requires hold < Pow2(bits) && x < Pow2(8)
    ensures hold + Pow2(bits) * x < Pow2(bits + 8)
  {
    hide Low, Shr;
    Pow2Add(bits, 8);
    SplitUnique(hold, x, bits);
    var p, q := Pow2(bits), Pow2(8);
    assert p * x + p <= p * q by { MulLess(p, x, q); }
  }

  lemma MulLess(p: nat, x: nat, q: nat)
    requires x < q
    ensures p * x + p <= p * q
  {
    assert p * (q - x - 1) >= 0;
  }

  lemma Dropped(hold: nat, bits: nat, n: nat)
    requires hold < Pow2(bits) && n <= bits
    ensures Shr(hold, n) < Pow2(bits - n)
    ensures ToBits(Shr(hold, n), bits - n) == ToBits(hold, bits)[n..]
    ensures Num(ToBits(hold, bits)[..n]) == Low(hold, n)
  {
    hide Low, Shr, ToBits, Num;
    ToBitsSplit(hold, n, bits - n);
    NumToBits(hold, n);
    NumToBits(hold, bits);
    LowSmall(hold, bits);
    NumTake(ToBits(hold, bits), n);
  }

  lemma HoldIsNum(hold: nat, bits: nat)
    requires hold < Pow2(bits)
    ensures Num(ToBits(hold, bits)) == hold
  {
    NumToBits(hold, bits);
    LowSmall(hold, bits);
  }

  /** Every lookup gives an entry for at most fifteen bits. */
  lemma LookupBits(tab: seq<Entry>, root: nat, kind: CodeType, lens: seq<nat>, v: nat)
    requires Usable(kind, lens) && Decodes(tab, root, kind, lens)
    ensures 1 <= Lookup(tab, root, v).bits <= MAXBITS
  {
    hide Lookup, Rejected;
    if s: nat :| Matches(lens, s, v) {
      MatchedIsUsed(lens, s, v);
    }
  }

  /** Distance entries that are not links have an operation of at least sixteen. */
  lemma DistOps(tab: seq<Entry>, root: nat, lens: seq<nat>, v: nat)
    requires Usable(DISTS, lens) && Decodes(tab, root, DISTS, lens) && Closed(tab, root, true)
    ensures Low(v, root) < |tab| && (tab[Low(v, root)].op < 16 <==> IsLink(tab[Low(v, root)]))
  {
    hide Rejected, Matches, DistOp, DistBase, SymbolEntry;
    if s: nat :| Matches(lens, s, v) {
      MatchedIsUsed(lens, s, v);
      DistEntry(s, lens[s]);
      assert Lookup(tab, root, v).op >= 16;
    } else {
      assert NoMatch(lens, v);
    }
  }

  /** The bits in the accumulator, then those of the input. */
  ghost function StreamOf(hold: nat, bits: nat, input: seq<Byte>): (s: seq<bool>)
    ensures |s| == bits + 8 * |input|
  {
    ToBits(hold, bits) + BytesToBits(input)
  }

  ghost predicate IsSuffix(a: seq<Byte>, b: seq<Byte>) {
    |a| <= |b| && a == b[|b| - |a|..]
  }

  predicate BaseOp(op: nat) { op / 16 % 2 == 1 }

  lemma {:induction false} BytesDrop(x: seq<Byte>, m: nat)
    requires m <= |x|
    ensures BytesToBits(x)[8 * m..] == BytesToBits(x[m..])
  {
    BytesToBitsConcat(x[..m], x[m..]);
    assert x == x[..m] + x[m..];
  }

  lemma ToBitsFront(hold: nat, bits: nat, n: nat)
    requires n <= bits
    ensures ToBits(hold, bits)[..n] == ToBits(Low(hold, n), n)
  {
    ToBitsSplit(hold, n, bits - n);
    ToBitsLow(hold, n);
  }

  lemma Unpulled(hold: nat, bits: nat, next: seq<Byte>, p: nat, len: nat, h0: nat, b0: nat, k: nat)
    requires len <= p <= |next| && 8 * len <= bits && k <= b0 + 8 * |next|
    requires StreamOf(hold, bits, next[p..]) == StreamOf(h0, b0, next)[k..]
    ensures var n := bits - 8 * len;
            StreamOf(Low(hold, n), n, next[p - len..]) == StreamOf(hold, bits, next[p..])
  {
    hide ToBits, BytesToBits, Low;
    var n, m := bits - 8 * len, p - len;
    var s0, s := StreamOf(h0, b0, next), StreamOf(hold, bits, next[p..]);
    assert |s| == bits + 8 * (|next| - p) && |s0| == b0 + 8 * |next|;
    ToBitsFront(hold, bits, n);
    assert s[..n] == ToBits(hold, bits)[..n];
    assert k + n == b0 + 8 * m;
    BytesDrop(next, m);
    assert s[n..] == s0[k..][n..] == s0[k + n..];
    assert s0[b0 + 8 * m..] == BytesToBits(next)[8 * m..];
    assert s == s[..n] + s[n..];
  }

  /** That many bits make whole bytes. */
  ghost predicate Bytewise(n: nat) {
    n % 8 == 0
  }

  class BitReader {
    var hold: nat
    var bits: nat
    var input: seq<Byte>

    /** All the input of the current call. */
    ghost var given: seq<Byte>

    constructor ()
      ensures Valid() && hold == 0 && bits == 0 && input == []
    {
      hold, bits, input := 0, 0, [];
      given := [];
    }

    ghost predicate Valid()
      reads this
    {
      hold < Pow2(bits) && bits <= 32 && IsSuffix(input, given)
    }

    /** What is still to be read, in order. */
    ghost function Stream(): (s: seq<bool>)
      reads this
      ensures |s| == bits + 8 * |input|
    {
      StreamOf(hold, bits, input)
    }

    /** `PULLBYTE`. */
    method PullByte() returns (ok: bool)
      requires Valid() && bits <= 24
      modifies `hold, `bits, `input
      ensures Valid() && Stream() == old(Stream())
      ensures ok <==> old(input) != []
      ensures if ok then bits == old(bits) + 8 && input == old(input)[1..] else unchanged(this)
    {
      hide Pow2, ToBits, BytesToBits;
      if input == [] { return false; }
      Pulled(hold, bits, input[0], input[1..]);
      assert input == [input[0]] + input[1..];
      hold := hold + Pow2(bits) * input[0];
      input := input[1..];
      bits := bits + 8;
      return true;
    }

    /** `NEEDBITS`. */
    method NeedBits(n: nat) returns (ok: bool)
      requires Valid() && (n <= 25 || (n == 32 && Bytewise(bits)))
      modifies `hold, `bits, `input
      ensures Valid() && Stream() == old(Stream())
      ensures ok <==> n <= |Stream()|
      ensures ok ==> n <= bits && (bits < n + 8 || unchanged(this)) && (n == 32 ==> bits == 32)
      ensures !ok ==> input == [] && bits < n
    {
      hide Pow2, ToBits, BytesToBits;
      ok := true;
      while bits < n
        invariant Valid() && Stream() == old(Stream())
        invariant bits < n + 8 || unchanged(this)
        invariant n == 32 ==> bits % 8 == 0
        decreases |input|
      {
        ok := PullByte();
        if !ok { return; }
      }
    }

    /** `BITS`. */
    function Peek(n: nat): (v: nat)
      requires Valid() && n <= bits
      reads this
      ensures v == Value(Stream(), n)
    {
      Dropped(hold, bits, n);
      assert Stream()[..n] == ToBits(hold, bits)[..n];
      Low(hold, n)
    }

    /** `DROPBITS`. */
    method DropBits(n: nat)
      requires Valid() && n <= bits
      modifies `hold, `bits, `input
      ensures Valid() && Stream() == old(Stream())[n..]
      ensures bits == old(bits) - n && hold == Shr(old(hold), n) && input == old(input)
    {
      hide Pow2, ToBits, BytesToBits, Low, Shr, Num;
      Dropped(hold, bits, n);
      assert Stream()[n..] == ToBits(hold, bits)[n..] + BytesToBits(input);
      hold := Shr(hold, n);
      bits := bits - n;
    }

    /** `BITS` and then `DROPBITS`. */
    method Take(n: nat) returns (v: nat)
      requires Valid() && n <= bits
      modifies `hold, `bits, `input
      ensures Valid() && v == Value(old(Stream()), n) && Stream() == old(Stream())[n..]
      ensures bits == old(bits) - n && input == old(input)
    {
      hide Pow2, Value, StreamOf;
      v := Peek(n);
      DropBits(n);
    }

    /** Drop `n` bits and take the `m` behind them. */
    method TakeBehind(n: nat, m: nat) returns (v: nat)
      requires Valid() && n + m <= bits
      modifies `hold, `bits, `input
      ensures Valid() && v == Value(old(Stream())[n..], m) && Stream() == old(Stream())[n + m..]
      ensures bits == old(bits) - (n + m) && input == old(input)
    {
      hide Pow2, Value, StreamOf;
      ghost var s := Stream();
      DropBits(n);
      v := Take(m);
      assert s[n..][m..] == s[n + m..];
    }

    /** `BYTEBITS`. */
    method ByteBits()
      requires Valid()
      modifies `hold, `bits, `input
      ensures Valid() && Stream() == Aligned(old(Stream()))
      ensures bits == old(bits) - old(bits) % 8 && Bytewise(bits) && input == old(input)
    {
      hide Pow2, ToBits, BytesToBits;
      DropBits(bits % 8);
    }

    /** Have at least fifteen bits, enough for any code word. */
    method Fill()
      requires Valid() && (bits < 15 ==> |input| >= 2)
      modifies `hold, `bits, `input
      ensures Valid() && Stream() == old(Stream()) && bits >= 15 && IsSuffix(input, old(input))
    {
      hide Pow2, StreamOf;
      if bits < 15 {
        var ok := PullByte();
        ok := PullByte();
      }
    }

    /** `NEEDBITS` where the bits are known to be there. */
    method Ensure(n: nat)
      requires Valid() && n <= 16 && n <= |Stream()|
      modifies `hold, `bits, `input
      ensures Valid() && Stream() == old(Stream()) && bits >= n && IsSuffix(input, old(input))
    {
      hide Pow2, StreamOf;
      if bits < n {
        var ok := PullByte();
        if bits < n { ok := PullByte(); }
      }
    }

    /**
     Read a code word when there are bits enough for any.  The tests on the operation are those
     of `inflate_fast`.
     */
    method DecodeFast(tab: seq<Entry>, root: nat, kind: CodeType, ghost lens: seq<nat>, ghost f: seq<bool>) returns (e: Entry)
      requires Valid() && Serves(tab, root, kind, lens) && kind != CODES && bits >= 15
      modifies `hold, `bits, `input
      ensures Valid() && input == old(input)
      ensures Find(kind, lens, old(Stream()) + f) == Some(e) && e.bits <= 15
      ensures Stream() == old(Stream())[e.bits..]
    {
      hide Pow2, Low, Shr, ToBits, StreamOf, Serves, Lookup, Find, IsLink, Num, MaxSymbols, SubTableIndex, BaseOp, BadOp;
      ghost var s, h := Stream(), hold;
      HoldIsFront();
      RootEntry(tab, root, kind, lens, hold);
      Found(tab, root, kind, lens, s, bits, f);
      FastTest(tab, root, kind, lens, hold);
      var here := tab[Low(hold, root)];
      e := here;
      if (kind == DISTS || here.op != 0) && !BaseOp(here.op) && !BadOp(here.op) {
        SubEntry(tab, root, kind, lens, hold);
        SubShifted(here, hold);
        DropBits(here.bits);
        var last := here;
        here := tab[last.val + Low(hold, last.op)];
        e := Entry(here.op, last.bits + here.bits, here.val);
        assert s[last.bits..][here.bits..] == s[e.bits..];
      }
      DropBits(here.bits);
    }

    /** Give whole bytes back to the input, of which `next` is all there was on entry. */
    method ReturnBytes(next: seq<Byte>, ghost h0: nat, ghost b0: nat, ghost k: nat)
      requires Valid() && IsSuffix(next, given) && IsSuffix(input, next) && bits / 8 <= |next| - |input|
      requires k <= b0 + 8 * |next| && Stream() == StreamOf(h0, b0, next)[k..]
      modifies `hold, `bits, `input
      ensures Valid() && Stream() == old(Stream()) && bits < 8
    {
      hide Pow2, StreamOf, Low;
      var len := bits / 8;
      var p := |next| - |input|;
      Unpulled(hold, bits, next, p, len, h0, b0, k);
      input := next[p - len..];
      bits := bits - 8 * len;
      hold := Low(hold, bits);
    }

    /** The accumulator is the front of the stream. */
    lemma HoldIsFront()
      requires Valid()
      ensures hold == Num(Stream()[..bits])
    {
      assert Stream()[..bits] == ToBits(hold, bits);
      HoldIsNum(hold, bits);
    }

    /** Take the root entry for the bits at hand, with one more byte until there are enough for it. */
    method FetchRoot(tab: seq<Entry>, root: nat, ghost kind: CodeType, ghost lens: seq<nat>) returns (ok: bool, here: Entry)
      requires Valid() && Serves(tab, root, kind, lens)
      modifies `hold, `bits, `input
      ensures Valid() && Stream() == old(Stream())
      ensures Low(hold, root) < |tab| && here == tab[Low(hold, root)]
      ensures ok ==> here.bits <= bits && (unchanged(this) || bits < Lookup(tab, root, hold).bits + 8)
      ensures !ok ==> input == [] && Find(kind, lens, Stream()) == None
    {
      hide Pow2, Low, Shr, ToBits, BytesToBits, Serves, Lookup, Find, IsLink, Num, MaxSymbols, SubTableIndex;
      ghost var s := Stream();
      HoldIsFront();
      RootEntry(tab, root, kind, lens, hold);
      here := tab[Low(hold, root)];
      while here.bits > bits
        invariant Valid() && Stream() == s && hold == Num(s[..bits])
        invariant Low(hold, root) < |tab| && here == tab[Low(hold, root)]
        invariant here.bits <= Lookup(tab, root, hold).bits <= MAXBITS
        invariant unchanged(this) || bits < Lookup(tab, root, hold).bits + 8
        decreases |input|
      {
        ghost var n := bits;
        ok := PullByte();
        if !ok { Starved(tab, root, kind, lens, s, n); return; }
        HoldIsFront();
        RootEntry(tab, root, kind, lens, hold);
        here := tab[Low(hold, root)];
        StillShort(tab, root, kind, lens, s, n, bits);
      }
      ok := true;
    }

    /** The same for the sub-table to which the root entry `last` links. */
    method FetchSub(tab: seq<Entry>, ghost root: nat, last: Entry, ghost kind: CodeType, ghost lens: seq<nat>)
      returns (ok: bool, here: Entry)
      requires Valid() && Serves(tab, root, kind, lens)
      requires Low(hold, root) < |tab| && last == tab[Low(hold, root)] && IsLink(last) && last.bits <= bits
      modifies `hold, `bits, `input
      ensures Valid() && Stream() == old(Stream())
      ensures ok ==> Lookup(tab, root, hold) == Entry(here.op, last.bits + here.bits, here.val)
      ensures ok ==> last.bits + here.bits <= bits && (unchanged(this) || bits < last.bits + here.bits + 8)
      ensures !ok ==> input == [] && Find(kind, lens, Stream()) == None
    {
      hide Pow2, Low, Shr, ToBits, BytesToBits, Serves, Lookup, Find, IsLink, Num, MaxSymbols, SubTableIndex;
      ghost var s := Stream();
      HoldIsFront();
      SubEntry(tab, root, kind, lens, hold);
      here := tab[SubTableIndex(last, hold)];
      while last.bits + here.bits > bits
        invariant Valid() && Stream() == s && hold == Num(s[..bits])
        invariant last.bits == root <= bits && Low(hold, root) < |tab| && last == tab[Low(hold, root)] && IsLink(last)
        invariant Lookup(tab, root, hold) == Entry(here.op, last.bits + here.bits, here.val)
        invariant last.bits + here.bits <= MAXBITS
        invariant unchanged(this) || bits < last.bits + here.bits + 8
        decreases |input|
      {
        ghost var n := bits;
        ok := PullByte();
        if !ok { Starved(tab, root, kind, lens, s, n); return; }
        HoldIsFront();
        SameRoot(s, n, bits, root);
        SubEntry(tab, root, kind, lens, hold);
        here := tab[SubTableIndex(last, hold)];
        StillShort(tab, root, kind, lens, s, n, bits);
      }
      ok := true;
    }

    /** The entry of the next code length symbol, left in the stream. */
    method FetchLength(tab: seq<Entry>, root: nat, ghost lens: seq<nat>, ghost f: seq<bool>) returns (ok: bool, here: Entry)
      requires Valid() && Serves(tab, root, CODES, lens)
      modifies `hold, `bits, `input
      ensures Valid() && Stream() == old(Stream())
      ensures ok ==> here.bits <= bits && here.bits <= MAXBITS && here.val <= 18
      ensures ok ==> Find(CODES, lens, Stream() + f) == Find(CODES, lens, Stream()) == Some(here)
      ensures ok ==> bits < here.bits + 8 || (unchanged(this) && Find(CODES, lens, ToBits(hold, bits)) == Some(here))
      ensures !ok ==> input == [] && Find(CODES, lens, Stream()) == None
    {
      hide Pow2, Low, Shr, ToBits, StreamOf, Serves, Lookup, Find, IsLink, Num, MaxSymbols;
      ghost var s, t := Stream(), ToBits(hold, bits);
      assert s[..bits] == t[..bits] by { FrontIsHold(hold, bits, input); }
      ok, here := FetchRoot(tab, root, CODES, lens);
      if !ok { return; }
      RootEntry(tab, root, CODES, lens, hold);
      LinkTest(tab, root, CODES, lens, hold);
      HoldIsFront();
      Found(tab, root, CODES, lens, s, bits, f);
      Found(tab, root, CODES, lens, s, bits, []);
      FoundCodeLength(lens, s);
      if unchanged(this) { Found(tab, root, CODES, lens, t, bits, []); }
    }

    /**
     Read a code word.  Bytes are pulled one at a time, only while the entry for the bits at
     hand needs more of them, so that less than a byte is left over.  The test for a link is
     the one of the caller for each kind of code.
     */
    method Decode(tab: seq<Entry>, root: nat, kind: CodeType, ghost lens: seq<nat>, ghost f: seq<bool>)
      returns (ok: bool, e: Entry)
      requires Valid() && Serves(tab, root, kind, lens)
      requires bits < 8 || Find(kind, lens, ToBits(hold, bits)) == None
      modifies `hold, `bits, `input
      ensures Valid()
      ensures ok ==> Find(kind, lens, old(Stream()) + f) == Some(e) && e.bits <= old(|Stream()|)
      ensures ok ==> Stream() == old(Stream())[e.bits..] && bits < 8
      ensures !ok ==> Stream() == old(Stream()) && input == [] && Find(kind, lens, Stream()) == None
    {
      hide Pow2, Low, Shr, ToBits, BytesToBits, Serves, Lookup, Find, IsLink, Num, MaxSymbols, SubTableIndex;
      ghost var s, t := Stream(), ToBits(hold, bits);
      HoldIsFront();
      assert s[..bits] == t[..bits];
      var here;
      ok, here := FetchRoot(tab, root, kind, lens);
      e := here;
      if !ok { return; }
      RootEntry(tab, root, kind, lens, hold);
      LinkTest(tab, root, kind, lens, hold);
      if kind != CODES && (kind == DISTS || here.op != 0) && here.op < 16 {
        var last := here;
        ok, here := FetchSub(tab, root, last, kind, lens);
        if !ok { return; }
        e := Entry(here.op, last.bits + here.bits, here.val);
        HoldIsFront();
        Found(tab, root, kind, lens, s, bits, f);
        if unchanged(this) { Found(tab, root, kind, lens, t, bits, []); }
        DropBits(last.bits);
        assert s[last.bits..][here.bits..] == s[e.bits..];
      } else {
        HoldIsFront();
        Found(tab, root, kind, lens, s, bits, f);
        if unchanged(this) { Found(tab, root, kind, lens, t, bits, []); }
      }
      DropBits(here.bits);
    }
  }

  lemma FrontIsHold(hold: nat, bits: nat, input: seq<Byte>)
    ensures StreamOf(hold, bits, input)[..bits] == ToBits(hold, bits)[..bits]
  {
  }

  /** `tab` is a table that `inflate_table` built for the code with these lengths. */
  ghost predicate Serves(tab: seq<Entry>, root: nat, kind: CodeType, lens: seq<nat>) {
    Usable(kind, lens) && Decodes(tab, root, kind, lens) && Closed(tab, root, kind != CODES)
  }

  /** Where the sub-table that `last` links to has the entry for `v`. */
  function SubTableIndex(last: Entry, v: nat): nat {
    last.val + Shr(Low(v, last.bits + last.op), last.bits)
  }

  lemma RootEntry(tab: seq<Entry>, root: nat, kind: CodeType, lens: seq<nat>, v: nat)
    requires Serves(tab, root, kind, lens)
    ensures Low(v, root) < |tab|
    ensures var e := tab[Low(v, root)];
            && e.bits <= Lookup(tab, root, v).bits <= MAXBITS
            && (!IsLink(e) ==> Lookup(tab, root, v) == e)
  {
    hide Decodes, Usable, Shr, IsLink;
    LookupBits(tab, root, kind, lens, v);
    var e := tab[Low(v, root)];
    if IsLink(e) { assert Low(Shr(v, e.bits), e.op) < Pow2(e.op); }
  }

  lemma LinkTest(tab: seq<Entry>, root: nat, kind: CodeType, lens: seq<nat>, v: nat)
    requires Serves(tab, root, kind, lens)
    ensures Low(v, root) < |tab|
    ensures var e := tab[Low(v, root)];
            IsLink(e) <==> kind != CODES && (kind == DISTS || e.op != 0) && e.op < 16
  {
    hide Decodes, Usable;
    if kind == DISTS { DistOps(tab, root, lens, v); }
  }

  /** The test of `inflate_fast` for a link. */
  lemma FastTest(tab: seq<Entry>, root: nat, kind: CodeType, lens: seq<nat>, v: nat)
    requires Serves(tab, root, kind, lens) && kind != CODES
    ensures Low(v, root) < |tab|
    ensures var e := tab[Low(v, root)];
            IsLink(e) <==> (kind == DISTS || e.op != 0) && !BaseOp(e.op) && !BadOp(e.op)
  {
    hide Decodes, Closed, SymbolEntry, Matches, Rejected, Low, Lookup;
    RootEntry(tab, root, kind, lens, v);
    var e := tab[Low(v, root)];
    if !IsLink(e) {
      if s: nat :| Matches(lens, s, v) {
        MatchedIsUsed(lens, s, v);
        assert e == SymbolEntry(kind, s, lens[s]) by { assert Decodes(tab, root, kind, lens); DecodesAt(tab, root, kind, lens, s, v); }
        EntryOps(kind, s, lens[s]);
      } else {
        assert NoMatch(lens, v);
        assert e == INVALID by { DecodesNot(tab, root, kind, lens, v); }
      }
    }
  }

  lemma DecodesAt(tab: seq<Entry>, root: nat, kind: CodeType, lens: seq<nat>, s: nat, v: nat)
    requires |lens| <= MaxSymbols(kind) && Decodes(tab, root, kind, lens) && Matches(lens, s, v)
    ensures s < |lens| && Lookup(tab, root, v) == SymbolEntry(kind, s, lens[s])
  {
  }

  lemma DecodesNot(tab: seq<Entry>, root: nat, kind: CodeType, lens: seq<nat>, v: nat)
    requires |lens| <= MaxSymbols(kind) && Decodes(tab, root, kind, lens) && NoMatch(lens, v)
    ensures Lookup(tab, root, v) == INVALID
  {
  }

  lemma EntryOps(kind: CodeType, s: nat, b: nat)
    requires s < MaxSymbols(kind) && kind != CODES
    ensures var op := SymbolEntry(kind, s, b).op; (kind == LENS && op == 0) || BaseOp(op) || BadOp(op)
  {
  }

  lemma SubShifted(last: Entry, v: nat)
    ensures SubTableIndex(last, v) == last.val + Low(Shr(v, last.bits), last.op)
  {
    hide Low, Shr, Pow2;
    LowAdd(v, last.bits, last.op);
  }

  lemma SubEntry(tab: seq<Entry>, root: nat, kind: CodeType, lens: seq<nat>, v: nat)
    requires Serves(tab, root, kind, lens) && Low(v, root) < |tab| && IsLink(tab[Low(v, root)])
    ensures var last := tab[Low(v, root)];
            var j := SubTableIndex(last, v);
            && last.bits == root && j < |tab|
            && Lookup(tab, root, v) == Entry(tab[j].op, last.bits + tab[j].bits, tab[j].val)
            && last.bits + tab[j].bits <= MAXBITS
  {
    hide Decodes, Usable, Low, Shr, Pow2;
    var last := tab[Low(v, root)];
    LowAdd(v, last.bits, last.op);
    LookupBits(tab, root, kind, lens, v);
  }

  lemma SameRoot(s: seq<bool>, n: nat, m: nat, root: nat)
    requires root <= n <= m <= |s|
    ensures Low(Num(s[..m]), root) == Low(Num(s[..n]), root)
  {
    NumTake(s[..m], root);
    NumTake(s[..n], root);
    assert s[..m][..root] == s[..n][..root];
  }

  /** A code word found in the first `n` bits of `s` is found in them alone. */
  lemma FindPrefix(kind: CodeType, lens: seq<nat>, s: seq<bool>, n: nat)
    requires Usable(kind, lens) && Find(kind, lens, s).Some? && Find(kind, lens, s).value.bits <= n <= |s|
    ensures Find(kind, lens, s[..n]).Some?
  {
    hide Num, Rejected, OverSubscribed, Complete, Matches, Low, LengthOp, LengthBase, DistOp, DistBase;
    NumTake(s, n);
    LowSmall(Num(s[..n]), n);
    if exists i: nat :: CodeAt(lens, i, s) {
      var e := Find(kind, lens, s).value;
      var i: nat :| CodeAt(lens, i, s) && e == SymbolEntry(kind, i, lens[i]);
      assert SymbolEntry(kind, i, lens[i]).bits == lens[i];
      MatchesPrefix(lens, i, Num(s), Num(s[..n]), n);
      assert CodeAt(lens, i, s[..n]);
    } else if !exists i: nat :: CodeAt(lens, i, s[..n]) {
      forall j: nat ensures !Matches(lens, j, Num(s[..n])) {
        if Matches(lens, j, Num(s[..n])) {
          MatchedIsUsed(lens, j, Num(s[..n]));
          IncompleteShort(kind, lens, j);
          MatchesPrefix(lens, j, Num(s[..n]), Num(s), n);
        }
      }
    }
  }

  lemma StillShort(tab: seq<Entry>, root: nat, kind: CodeType, lens: seq<nat>, s: seq<bool>, n: nat, m: nat)
    requires Serves(tab, root, kind, lens) && n <= m <= |s|
    requires Lookup(tab, root, Num(s[..n])).bits > n
    ensures Lookup(tab, root, Num(s[..m])).bits > n
  {
    hide Decodes, Closed, Find, Lookup, Num, Usable;
    var e := Lookup(tab, root, Num(s[..m]));
    FindByTable(tab, root, kind, lens, s, n);
    FindByTable(tab, root, kind, lens, s[..m], m);
    assert s[..m][..m] == s[..m] && s[..m][..n] == s[..n];
    if e.bits <= n { FindPrefix(kind, lens, s[..m], n); }
  }

  lemma Starved(tab: seq<Entry>, root: nat, kind: CodeType, lens: seq<nat>, s: seq<bool>, n: nat)
    requires Serves(tab, root, kind, lens) && n == |s| && Lookup(tab, root, Num(s[..n])).bits > n
    ensures |lens| <= MaxSymbols(kind) && Find(kind, lens, s) == None
  {
    hide Decodes, Closed, Find, Lookup, Num;
    FindByTable(tab, root, kind, lens, s, n);
    assert s[..n] == s;
  }

  lemma Found(tab: seq<Entry>, root: nat, kind: CodeType, lens: seq<nat>, s: seq<bool>, n: nat, f: seq<bool>)
    requires Serves(tab, root, kind, lens) && n <= |s| && Lookup(tab, root, Num(s[..n])).bits <= n
    ensures |lens| <= MaxSymbols(kind) && Find(kind, lens, s + f) == Some(Lookup(tab, root, Num(s[..n])))
    ensures s + [] == s
  {
    hide Decodes, Closed, Find, Lookup, Num;
    FindByTable(tab, root, kind, lens, s + f, n);
    assert (s + f)[..n] == s[..n];
  }

  lemma SuffixSelf(a: seq<Byte>)
    ensures IsSuffix(a, a)
  {
  }
}
