/**
 `deflate_stored` (deflate.c): level 0.  As much as possible goes straight from the input to the
 output; what has to wait, waits in the window or in `pending_buf`.  No byte is lost, doubled or
 moved, whatever the sizes of the two buffers.
 */
module StoredStrategy {
  import opened Bits
  import opened BitOutput
  import opened TreeOutput
  import opened BlockMeaning
  import opened BlockOutput
  import opened PendingRoom
  import opened HashKey
  import opened HashChains
  import opened DeflateWindow
  import opened Lz77
  import opened DeflateStrategies

  const MAX_STORED := 65535

  // ------------------------------------------------------------ the header of a stored block

  /** The bytes that the header takes, with `valid` bits waiting before it. */
  function HeaderSize(valid: nat): nat {
    (valid + 42) / 8
  }

  /** A stored block of `n` bytes without the bytes themselves. */
  ghost function Head(start: nat, n: nat, last: bool): seq<bool> {
    ToBits(TypeField(0, last), 3) + ToBits(0, Padding(start + 3)) + ToBits(n, 16) + ToBits(65535 - n % 65536, 16)
  }

  lemma HeadSize(bytes: nat, valid: nat, n: nat, last: bool)
    requires valid <= 16
    ensures 8 * bytes + valid + |Head(8 * bytes + valid, n, last)| == 8 * (bytes + HeaderSize(valid))
  {
    hide ToBits;
    assert (8 * bytes + valid + 3) % 8 == (valid + 3) % 8;
  }

  /** A two-byte length. */
  function LengthBytes(n: nat): (s: seq<Byte>)
    requires n < 65536
    ensures |s| == 2 && BytesToBits(s) == ToBits(n, 16)
  {
    TwoBytes(n);
    [n % 256, n / 256]
  }

  lemma HeadShort(start: nat, n: nat, last: bool)
    ensures |Head(start, n, last)| <= 42
  {
    hide ToBits;
  }

  /** The lengths are the last four bytes. */
  lemma LengthsLast(s: seq<Byte>, a: seq<bool>, n: nat)
    requires |s| >= 4 && n < 65536 && BytesToBits(s) == a + ToBits(0, 16) + ToBits(65535, 16)
    ensures BytesToBits(s[..|s| - 4] + (LengthBytes(n) + LengthBytes(65535 - n))) == a + ToBits(n, 16) + ToBits(65535 - n, 16)
  {
    hide ToBits, BytesToBits, LengthBytes;
    var p, q, m, t := s[..|s| - 4], s[|s| - 4..], 65535 - n, ToBits(0, 16) + ToBits(65535, 16);
    assert s == p + q;
    BytesToBitsConcat(p, q);
    assert a + ToBits(0, 16) + ToBits(65535, 16) == a + t;
    assert BytesToBits(p) == (a + t)[..|a|] == a;
    var u, v := LengthBytes(n), LengthBytes(m);
    BytesToBitsConcat(u, v);
    BytesToBitsConcat(p, u + v);
    assert a + (ToBits(n, 16) + ToBits(m, 16)) == a + ToBits(n, 16) + ToBits(m, 16);
  }

  /** Put `n` into the header of an empty stored block. */
  method PatchLength(w: BitWriter, n: nat, ghost a: seq<bool>)
    requires w.Valid() && w.biValid == 0 && |w.pending| >= 4 && n < 65536
    requires w.Bits() == a + ToBits(0, 16) + ToBits(65535, 16)
    modifies w`pending
    ensures w.Valid() && w.Bits() == a + ToBits(n, 16) + ToBits(65535 - n, 16) && |w.pending| == old(|w.pending|)
  {
    hide ToBits, BytesToBits, Pow2, LengthBytes;
    var p, lengths := w.pending[..|w.pending| - 4], LengthBytes(n) + LengthBytes(65535 - n);
    ghost var s := w.out + w.pending;
    NoBitsMore(w.biBuf, BytesToBits(s));
    LengthsLast(s, a, n);
    assert s[..|s| - 4] == w.out + p;
    w.pending := p + lengths;
    Behind(w.out, p, lengths);
    NoBitsMore(w.biBuf, BytesToBits(w.out + w.pending));
  }

  /** Bytes that go straight to the output. */
  method CopyOut(w: BitWriter, buf: seq<Byte>)
    requires w.Valid() && w.biValid == 0 && w.pending == []
    modifies w`out
    ensures w.out == old(w.out) + buf
    ensures w.Valid() && w.Bits() == old(w.Bits()) + BytesToBits(buf)
  {
    hide ToBits, BytesToBits, Pow2;
    NoBitsMore(w.biBuf, BytesToBits(w.out + w.pending));
    BytesToBitsConcat(w.out, buf);
    assert w.out + w.pending == w.out && w.out + buf + w.pending == w.out + buf;
    w.out := w.out + buf;
    NoBitsMore(w.biBuf, BytesToBits(w.out + w.pending));
  }

  /** The header of a block of `n` bytes goes out. */
  method SendHeader(c: Compressor, n: nat, last: bool)
    requires c.b.w.Valid() && c.b.w.pending == [] && HeaderSize(c.b.w.biValid) <= c.availOut && n < 65536
    modifies c`availOut, c.b.w
    ensures c.b.w.Valid() && c.b.w.pending == [] && c.b.w.biValid == 0
    ensures c.availOut == old(c.availOut - HeaderSize(c.b.w.biValid))
    ensures c.Room() == old(c.Room())
    ensures c.b.w.Bits() == old(c.b.w.Bits()) + Head(old(|c.b.w.Bits()|), n, last)
  {
    hide BitWriter.Bits, ToBits, BytesToBits, Pow2, Padding;
    ghost var b := c.b.w.Bits();
    ghost var start, t, p := |b|, ToBits(TypeField(0, last), 3), ToBits(0, Padding(|b| + 3));
    HeadSize(|c.b.w.out|, c.b.w.biValid, 0, last);
    c.b.StoredBlock([], last);
    EmptyStored(b, t, p);
    PatchLength(c.b.w, n, b + t + p);
    Regroup4(b, t, p, ToBits(n, 16), ToBits(65535 - n, 16));
    assert |c.b.w.out + c.b.w.pending| == |c.b.w.out| + |c.b.w.pending|;
    c.availOut := c.b.w.FlushPending(c.availOut);
  }

  lemma EmptyStored(b: seq<bool>, t: seq<bool>, p: seq<bool>)
    ensures b + (t + p + ToBits(0, 16) + ToBits(65535, 16) + BytesToBits([])) == b + t + p + ToBits(0, 16) + ToBits(65535, 16)
  {
    hide ToBits;
    Regroup4(b, t, p, ToBits(0, 16), ToBits(65535, 16));
    Append(b, t + p + ToBits(0, 16) + ToBits(65535, 16), []);
  }

  // ------------------------------------------------------------ the window

  /** Nothing is on a hash chain, and all that was read is behind `strstart`. */
  ghost predicate Plain(d: Dictionary)
    reads d.Rep()
  {
    d.Valid() && d.at == {} && d.lookahead == 0 && 0 <= d.blockStart && d.insert <= d.wSize
  }

  /** The window holds the input up to `strstart`. */
  ghost predicate UpToHere(d: Dictionary)
    reads d`strstart, d`insert, d`given, d`base, d.window
  {
    d.Shape() && HoldsIn(d.window[..], d.strstart, 0, d.given, d.base, d.strstart) && d.insert <= d.strstart && d.insert <= d.wSize
  }

  /** Without chains the window may hold anything. */
  lemma NoChains(k: Hashing, w: nat, head: seq<nat>, prev: seq<nat>, data: seq<Byte>, data': seq<Byte>)
    requires Linked(k, w, head, prev, data, {}) && |data'| <= 2 * w
    ensures Linked(k, w, head, prev, data', {})
  {
    hide Hashing.Size, KeyAt;
    forall h | 0 <= h < |head| ensures Leads(k, data', {}, h, head[h]) {
      assert Leads(k, data, {}, h, head[h]);
    }
  }

  /** `Plain` again, after the window has changed. */
  lemma PlainBy(d: Dictionary, data: seq<Byte>)
    requires UpToHere(d) && d.at == {} && d.lookahead == 0 && 0 <= d.blockStart <= d.strstart && d.highWater <= 2 * d.wSize
    requires Linked(d.k, d.wSize, d.head[..], d.prev[..], data, {})
    ensures Plain(d)
  {
    hide Hashing.Size, Linked;
    NoChains(d.k, d.wSize, d.head[..], d.prev[..], data, d.window[..][..d.strstart + d.lookahead]);
  }

  /** The upper half of the window moves down. */
  method SlideDown(d: Dictionary)
    requires UpToHere(d) && d.wSize <= d.strstart
    modifies d`strstart, d`insert, d`base, d.window
    ensures UpToHere(d) && d.strstart == old(d.strstart) - d.wSize && d.base == old(d.base) + d.wSize
  {
    hide HoldsIn, Hashing.Size, MovedDown;
    ghost var win := d.window[..];
    InWindow(win, d.strstart, 0, d.given, d.base, d.strstart);
    d.strstart := d.strstart - d.wSize;
    CopyDown(d.window, d.wSize, d.strstart);
    MovedBy(win, d.window[..], d.strstart + d.wSize, d.wSize);
    d.base := d.base + d.wSize;
    HoldsSlide(win, d.window[..], d.strstart, 0, d.given, d.base, d.strstart, d.wSize);
    if d.insert > d.strstart { d.insert := d.strstart; }
  }

  lemma MovedBy(win: seq<Byte>, win': seq<Byte>, end: nat, w: nat)
    requires w <= end <= |win| == |win'| && win'[..end - w] == win[w..end]
    ensures MovedDown(win, win', end, w)
  {
    assert win[..end][w..] == win[w..end];
  }

  /** Input behind what is there. */
  method AppendInput(d: Dictionary, s: seq<Byte>)
    requires UpToHere(d) && d.strstart + |s| <= 2 * d.wSize
    modifies d`strstart, d`insert, d`given, d.window
    ensures UpToHere(d) && d.strstart == old(d.strstart) + |s| && d.given == old(d.given) + s
  {
    hide HoldsIn, Hashing.Size, Appended;
    ghost var win := d.window[..];
    CopyIn(d.window, d.strstart, s);
    HoldsMore(win, d.window[..], d.strstart, 0, d.given, d.base, d.strstart, s);
    d.given := d.given + s;
    HoldsOn(d.window[..], d.strstart, |s|, d.given, d.base, d.strstart, |s|);
    d.strstart := d.strstart + |s|;
    HoldsBlock(d.window[..], d.strstart, 0, d.given, d.base, d.strstart - |s|);
    d.insert := d.insert + Least(|s|, d.wSize - d.insert);
  }

  /** Nothing but the end of `s` stays in the window. */
  method Supplant(d: Dictionary, s: seq<Byte>)
    requires UpToHere(d) && |s| >= d.wSize
    modifies d`strstart, d`insert, d`given, d`base, d.window
    ensures UpToHere(d) && d.base + d.strstart == old(d.base + d.strstart) + |s| && d.given == old(d.given) + s
  {
    hide Hashing.Size, Appended;
    var t := s[|s| - d.wSize..];
    ghost var win := d.window[..];
    CopyIn(d.window, 0, t);
    assert d.window[..][..d.wSize] == t by { AppendedAtStart(win, d.window[..], t); }
    d.strstart, d.insert := d.wSize, d.wSize;
    d.given, d.base := d.given + s, |d.given| + |s| - d.wSize;
    assert d.given[d.base..] == t;
  }

  lemma AppendedAtStart(win: seq<Byte>, win': seq<Byte>, s: seq<Byte>)
    requires Appended(win, win', 0, s)
    ensures |s| <= |win'| && win'[..|s|] == s
  {
  }

  /** Bring the window up to date after `s` went straight to the output. */
  method KeepHistory(d: Dictionary, s: seq<Byte>)
    requires Plain(d) && d.blockStart == d.strstart
    modifies d`strstart, d`insert, d`given, d`base, d`blockStart, d`highWater, d.window
    ensures Plain(d) && d.given == old(d.given) + s && d.blockStart == d.strstart
  {
    hide HoldsIn, Hashing.Size, Linked;
    ghost var data := d.window[..][..d.strstart];
    InWindow(d.window[..], d.strstart, 0, d.given, d.base, d.strstart);
    if |s| >= d.wSize {
      Supplant(d, s);
    } else {
      if 2 * d.wSize - d.strstart <= |s| {
        SlideDown(d);
      }
      AppendInput(d, s);
    }
    d.blockStart := d.strstart;
    InWindow(d.window[..], d.strstart, 0, d.given, d.base, d.strstart);
    if d.highWater < d.strstart { d.highWater := d.strstart; }
    PlainBy(d, data);
  }

  /** The rest of the input, as far as there is room, waits in the window. */
  method FillRest(d: Dictionary)
    requires Plain(d)
    modifies d`strstart, d`insert, d`given, d`base, d`blockStart, d`highWater, d`input, d.window
    ensures Plain(d) && d.given + d.input == old(d.given + d.input) && d.base + d.blockStart == old(d.base + d.blockStart)
    ensures old(d.given) <= d.given
    ensures d.strstart - d.blockStart + |d.input| == old(d.strstart - d.blockStart + |d.input|)
    ensures d.input != [] ==> d.strstart - d.blockStart >= d.wSize
  {
    hide HoldsIn, Hashing.Size, Linked;
    ghost var data := d.window[..][..d.strstart];
    HoldsBlock(d.window[..], d.strstart, 0, d.given, d.base, d.blockStart);
    InWindow(d.window[..], d.strstart, 0, d.given, d.base, d.strstart);
    var have := 2 * d.wSize - d.strstart;
    if |d.input| > have && d.blockStart >= d.wSize {
      d.blockStart := d.blockStart - d.wSize;
      SlideDown(d);
      have := have + d.wSize;
    }
    if have > |d.input| { have := |d.input|; }
    if have > 0 {
      TakeMore(d.given, d.input, have);
      AppendInput(d, d.input[..have]);
      d.input := d.input[have..];
    }
    InWindow(d.window[..], d.strstart, 0, d.given, d.base, d.strstart);
    if d.highWater < d.strstart { d.highWater := d.strstart; }
    PlainBy(d, data);
  }

  // ------------------------------------------------------------ straight to the output

  /** How much of the input `before` has gone, at least in part into the window. */
  ghost function Used(c: Compressor, before: seq<Byte>): int
    reads c.d`input
  {
    |before| - |c.d.input|
  }

  /** All the input that there was. */
  ghost function All(c: Compressor, before: seq<Byte>): seq<Byte>
    reads c.d`given
  {
    c.d.given + before
  }

  /** The rest of the input `before` is there; none of it has gone before all that is in the window. */
  ghost predicate Handing(c: Compressor, before: seq<Byte>)
    reads c.d.Rep(), c.b.Rep()
  {
    && c.Apart() && Plain(c.d) && c.b.Valid() && c.b.tokens == [] && c.b.w.pending == [] && c.b.w.biValid < 8
    && 0 <= Used(c, before) && c.d.input == before[Used(c, before)..] && (Used(c, before) > 0 ==> c.d.blockStart == c.d.strstart)
  }

  /** As `Spent`, while input goes straight out. */
  ghost function SpentOn(c: Compressor, before: seq<Byte>): int
    reads c.d`base, c.d`blockStart, c.d`input, c.b.w
  {
    c.Spent() - 64 * Used(c, before)
  }

  /** What was sent stands for all before the block, and for what went straight out behind it. */
  ghost predicate Copying(c: Compressor, before: seq<Byte>, last: bool)
    reads c.d.Rep(), c.b.Rep()
  {
    Handing(c, before) && Means(c.d.wSize, 0, c.b.w.Bits(), last, [], Reached(c, before))
  }

  ghost function Reached(c: Compressor, before: seq<Byte>): seq<Byte>
    reads c.d`input, c.d`given, c.d`base, c.d`blockStart
  {
    var n := c.d.base + c.d.blockStart + Used(c, before);
    if 0 <= n <= |c.d.given| + |before| then All(c, before)[..n] else []
  }

  /** The bytes of the window, then those of the input, follow what was reached. */
  lemma NextBytes(win: seq<Byte>, start: nat, given: seq<Byte>, base: nat, block: nat, before: seq<Byte>, used: nat, n: nat, m: nat)
    requires HoldsIn(win, start, 0, given, base, block) && used + m <= |before| && block + n <= start
    requires (used > 0 ==> block == start) && (m > 0 ==> block + n == start)
    ensures base + block + used + n + m <= |given| + |before| && block + n <= |win|
    ensures (given + before)[..base + block + used] + (win[block..block + n] + before[used..used + m])
            == (given + before)[..base + block + used + n + m]
  {
    var all, from := given + before, base + block + used;
    assert all[..from] + all[from..from + n + m] == all[..from + n + m];
    assert win[block..block + n] == win[..start][block..block + n] == given[base..][block..block + n] == given[base + block..base + block + n];
    if used > 0 || m > 0 {
      assert all[from..from + n + m] == win[block..block + n] + before[used..used + m];
    } else {
      assert all[from..from + n + m] == given[from..from + n] == win[block..block + n] + before[used..used + m];
    }
  }

  /** A stored block of the bytes `a` and then `b` came behind `bits`. */
  ghost predicate IsCopy(bits: seq<bool>, bits': seq<bool>, last: bool, a: seq<Byte>, b: seq<Byte>) {
    bits' == bits + Head(|bits|, |a| + |b|, last) + BytesToBits(a) + BytesToBits(b)
  }

  /** The header of a block, bytes `a` from the window and bytes `b` from the input. */
  method SendCopy(c: Compressor, len: nat, last: bool) returns (ghost a: seq<Byte>, ghost b: seq<Byte>)
    requires c.Apart() && c.b.Valid() && c.b.w.pending == [] && 0 <= c.d.blockStart <= c.d.strstart <= c.d.window.Length
    requires len <= c.d.strstart - c.d.blockStart + |c.d.input| && len <= MAX_STORED && HeaderSize(c.b.w.biValid) + len <= c.availOut
    modifies c`availOut, c.d`blockStart, c.d`input, c.b.w
    ensures c.b.Valid() && c.b.w.pending == [] && c.b.w.biValid == 0
    ensures c.Room() == old(c.Room())
    ensures c.availOut == old(c.availOut - HeaderSize(c.b.w.biValid)) - len
    ensures |a| + |b| == len && (|b| > 0 ==> c.d.blockStart == c.d.strstart)
    ensures c.d.blockStart == old(c.d.blockStart) + |a| <= c.d.strstart && a == c.d.window[old(c.d.blockStart)..c.d.blockStart]
    ensures |b| <= |old(c.d.input)| && b == old(c.d.input)[..|b|] && c.d.input == old(c.d.input)[|b|..]
    ensures IsCopy(old(c.b.w.Bits()), c.b.w.Bits(), last, a, b)
  {
    hide BlockWriter.Shape, BlockWriter.Tallied, BitWriter.Valid, BitWriter.Bits, Head, BytesToBits;
    SendHeader(c, len, last);
    var left := Least(c.d.strstart - c.d.blockStart, len);
    var fromWindow := c.d.window[c.d.blockStart..c.d.blockStart + left];
    CopyOut(c.b.w, fromWindow);
    c.availOut := c.availOut - left;
    c.d.blockStart := c.d.blockStart + left;
    var more := len - left;
    var fromInput := c.d.input[..more];
    CopyOut(c.b.w, fromInput);
    c.d.input := c.d.input[more..];
    c.availOut := c.availOut - more;
    a, b := fromWindow, fromInput;
  }

  lemma InputOn(s: seq<Byte>, m: nat, n: nat)
    requires m + n <= |s|
    ensures s[m..][n..] == s[m + n..] && s[m..][..n] == s[m..m + n]
  {
  }

  /** The same, and the window is as it was. */
  method PlainCopy(c: Compressor, len: nat, last: bool) returns (ghost a: seq<Byte>, ghost b: seq<Byte>)
    requires c.Apart() && Plain(c.d) && c.b.Valid() && c.b.w.pending == []
    requires len <= c.d.strstart - c.d.blockStart + |c.d.input| && len <= MAX_STORED && HeaderSize(c.b.w.biValid) + len <= c.availOut
    modifies c`availOut, c.d`blockStart, c.d`input, c.b.w
    ensures Plain(c.d) && c.b.Valid() && c.b.w.pending == [] && c.b.w.biValid == 0 && c.Room() == old(c.Room())
    ensures |a| + |b| == len && (|b| > 0 ==> c.d.blockStart == c.d.strstart)
    ensures 0 <= old(c.d.blockStart) && c.d.blockStart == old(c.d.blockStart) + |a| <= c.d.strstart <= c.d.window.Length
    ensures a == c.d.window[old(c.d.blockStart)..c.d.blockStart]
    ensures |b| <= |old(c.d.input)| && b == old(c.d.input)[..|b|] && c.d.input == old(c.d.input)[|b|..]
    ensures IsCopy(old(c.b.w.Bits()), c.b.w.Bits(), last, a, b)
  {
    hide IsCopy, HeaderSize, Compressor.Room, HoldsIn, ChainsIn, Dictionary.Shape, BlockWriter.Valid, BitWriter.Bits;
    ghost var block := c.d.blockStart;
    HoldsBlock(c.d.window[..], c.d.strstart, 0, c.d.given, c.d.base, c.d.blockStart);
    InWindow(c.d.window[..], c.d.strstart, 0, c.d.given, c.d.base, c.d.blockStart);
    a, b := SendCopy(c, len, last);
    BlockLater(c.d.window[..], c.d.strstart, c.d.given, c.d.base, block, c.d.blockStart);
  }

  /** The same, while `before` is handed over. */
  method HandOver(c: Compressor, len: nat, last: bool, ghost before: seq<Byte>) returns (ghost a: seq<Byte>, ghost b: seq<Byte>)
    requires Handing(c, before) && len <= c.d.strstart - c.d.blockStart + |c.d.input| && len <= MAX_STORED
    requires HeaderSize(c.b.w.biValid) + len <= c.availOut
    modifies c`availOut, c.d`blockStart, c.d`input, c.b.w
    ensures c.Room() == old(c.Room())
    ensures Handing(c, before) && c.b.w.biValid == 0
    ensures c.d.strstart - c.d.blockStart + |c.d.input| == old(c.d.strstart - c.d.blockStart + |c.d.input|) - len
    ensures |a| + |b| == len && (|b| > 0 ==> c.d.blockStart == c.d.strstart) && c.d.blockStart == old(c.d.blockStart) + |a|
    ensures old(Used(c, before)) + |b| == Used(c, before) && c.d.blockStart <= c.d.strstart <= c.d.window.Length
    ensures a == c.d.window[old(c.d.blockStart)..c.d.blockStart] && b == before[old(Used(c, before))..Used(c, before)]
    ensures IsCopy(old(c.b.w.Bits()), c.b.w.Bits(), last, a, b)
  {
    hide IsCopy, HeaderSize, Compressor.Room, Plain, BlockWriter.Valid, BitWriter.Bits;
    ghost var used := Used(c, before);
    a, b := PlainCopy(c, len, last);
    InputOn(before, used, |b|);
  }

  /** A stored block straight from the window and the input to the output. */
  method CopyBlock(c: Compressor, len: nat, last: bool, ghost before: seq<Byte>)
    requires Copying(c, before, false) && len <= c.d.strstart - c.d.blockStart + |c.d.input| && len <= MAX_STORED
    requires HeaderSize(c.b.w.biValid) + len <= c.availOut
    modifies c`availOut, c.d`blockStart, c.d`input, c.b.w
    ensures c.Room() == old(c.Room()) && SpentOn(c, before) <= old(SpentOn(c, before)) + 42 - 56 * len
    ensures Copying(c, before, last) && c.b.w.biValid == 0
    ensures c.d.strstart - c.d.blockStart + |c.d.input| == old(c.d.strstart - c.d.blockStart + |c.d.input|) - len
  {
    hide HoldsIn, Dictionary.Chains, Dictionary.Shape, BlockWriter.Valid, BitWriter.Bits, Means, Head, BytesToBits;
    ghost var bits, x, used, block := c.b.w.Bits(), Reached(c, before), Used(c, before), c.d.blockStart;
    ghost var a, b := HandOver(c, len, last, before);
    BlockEarlier(c.d.window[..], c.d.strstart, c.d.given, c.d.base, c.d.blockStart, block);
    NextBytes(c.d.window[..], c.d.strstart, c.d.given, c.d.base, block, before, used, |a|, |b|);
    assert a == c.d.window[..][block..block + |a|];
    CopyMeans(c.d.wSize, bits, x, a, b, last);
    HeadShort(|bits|, len, last);
  }

  lemma BlockEarlier(win: seq<Byte>, start: nat, given: seq<Byte>, base: nat, block: int, block': nat)
    requires HoldsIn(win, start, 0, given, base, block) && block' <= block
    ensures HoldsIn(win, start, 0, given, base, block')
  {
  }

  lemma BlockLater(win: seq<Byte>, start: nat, given: seq<Byte>, base: nat, block: int, block': int)
    requires HoldsIn(win, start, 0, given, base, block) && block <= block' <= start
    ensures HoldsIn(win, start, 0, given, base, block')
  {
  }

  /** The header and the bytes of a block are the block. */
  lemma CopyMeans(w: nat, bits: seq<bool>, x: seq<Byte>, a: seq<Byte>, b: seq<Byte>, last: bool)
    requires Means(w, 0, bits, false, [], x) && |a + b| < 65536
    ensures Means(w, 0, bits + Head(|bits|, |a + b|, last) + BytesToBits(a) + BytesToBits(b), last, [], x + (a + b))
  {
    hide Means, ToBits, BytesToBits, Padding;
    StoredMeans(w, |bits|, a + b, last, x);
    BytesToBitsConcat(a, b);
    var h := Head(|bits|, |a + b|, last);
    assert StoredBits(|bits|, a + b, last) == h + BytesToBits(a + b);
    Append(bits, h, BytesToBits(a + b));
    Append(bits + h, BytesToBits(a), BytesToBits(b));
    MeansMore(w, bits, StoredBits(|bits|, a + b, last), last, x, x + (a + b));
  }

  /** There is no room for a block straight to the output, or it is not worth one yet. */
  ghost predicate Stuck(flush: Flush, room: nat, header: nat, total: nat, minBlock: nat) {
    room < header
    || var len := Least(Least(MAX_STORED, total), room - header);
       len < minBlock && ((len == 0 && !flush.Finish?) || flush.NoFlush? || len != total)
  }

  /** As many blocks as possible straight to the output. */
  method CopyBlocks(c: Compressor, flush: Flush, minBlock: nat, ghost before: seq<Byte>) returns (last: bool)
    requires Copying(c, before, false) && 0 < minBlock <= 32768
    modifies c`availOut, c.d`blockStart, c.d`input, c.b.w
    ensures c.Room() == old(c.Room()) && SpentOn(c, before) <= old(SpentOn(c, before)) + if last then 42 else 0
    ensures Copying(c, before, last)
    ensures last ==> flush.Finish? && c.d.strstart == c.d.blockStart && c.d.input == [] && c.b.w.biValid == 0
    ensures !last ==> c.d.strstart >= c.d.blockStart
                      && Stuck(flush, c.availOut, HeaderSize(c.b.w.biValid), c.d.strstart - c.d.blockStart + |c.d.input|, minBlock)
  {
    hide Plain, BlockWriter.Valid, BitWriter.Bits, Means, Reached;
    last := false;
    while true
      invariant Copying(c, before, false) && !last && c.Room() == old(c.Room()) && SpentOn(c, before) <= old(SpentOn(c, before))
      decreases c.d.strstart - c.d.blockStart + |c.d.input|
    {
      BlockBehind(c.d);
      var have := HeaderSize(c.b.w.biValid);
      if c.availOut < have { break; }
      have := c.availOut - have;
      var left := c.d.strstart - c.d.blockStart;
      var len := Least(Least(MAX_STORED, left + |c.d.input|), have);
      if len < minBlock && ((len == 0 && !flush.Finish?) || flush.NoFlush? || len != left + |c.d.input|) { break; }
      last := flush.Finish? && len == left + |c.d.input|;
      CopyBlock(c, len, last, before);
      if last {
        BlockBehind(c.d);
        break;
      }
    }
  }

  lemma BlockBehind(d: Dictionary)
    requires Plain(d)
    ensures 0 <= d.blockStart <= d.strstart <= 2 * d.wSize && d.base + d.strstart == |d.given| && 512 <= d.wSize <= 32768
    ensures d.window.Length == 2 * d.wSize
  {
    hide ChainsIn, Hashing.Size;
  }

  // ------------------------------------------------------------ through the pending buffer

  /** Between calls: what was sent stands for the input before the block, the rest is in the window. */
  ghost predicate Storing(c: Compressor)
    reads c.d.Rep(), c.b.Rep()
  {
    c.Apart() && Plain(c.d) && c.b.Valid() && c.b.tokens == [] && c.b.w.biValid < 8 && c.Sent()
  }

  /** The bytes `buf` of the window as a stored block, through the pending buffer. */
  method PassStored(c: Compressor, len: nat, last: bool) returns (ghost buf: seq<Byte>)
    requires c.Apart() && c.b.w.Valid() && c.b.w.pending == [] && c.b.w.biValid < 8
    requires len <= MAX_STORED && 0 <= c.d.blockStart && c.d.blockStart + len <= c.d.window.Length
    modifies c`availOut, c.d`blockStart, c.b.w
    ensures c.Room() == old(c.Room())
    ensures c.b.w.Valid() && c.b.w.biValid == 0 && c.d.blockStart == old(c.d.blockStart) + len
    ensures buf == c.d.window[old(c.d.blockStart)..c.d.blockStart]
    ensures c.b.w.Bits() == old(c.b.w.Bits()) + StoredBits(old(|c.b.w.Bits()|), buf, last)
    ensures old(HeaderSize(c.b.w.biValid) + len >= c.availOut) ==> c.availOut == 0
    ensures c.availOut > 0 ==> c.b.w.pending == []
  {
    hide BitWriter.Valid, BitWriter.Bits, StoredBits;
    ghost var bits, valid := c.b.w.Bits(), c.b.w.biValid;
    var slice := c.d.window[c.d.blockStart..c.d.blockStart + len];
    StoredSize(|c.b.w.out|, bits, slice, last, valid);
    c.b.StoredBlock(slice, last);
    c.d.blockStart := c.d.blockStart + len;
    c.availOut := c.b.w.FlushPending(c.availOut);
    buf := slice;
  }

  /** A stored block from the window, through the pending buffer. */
  method SendStored(c: Compressor, len: nat, last: bool)
    requires Storing(c) && c.b.w.pending == [] && len <= MAX_STORED && len <= c.d.strstart - c.d.blockStart
    requires HeaderSize(c.b.w.biValid) + len <= 4 * c.b.litBufsize
    requires last ==> len == c.d.strstart - c.d.blockStart
    modifies c`availOut, c.d`blockStart, c.b.w
    ensures c.Room() == old(c.Room()) && c.Spent() <= old(c.Spent()) + 42 - 56 * len
    ensures Plain(c.d) && c.b.Valid() && c.b.tokens == [] && c.b.w.biValid < 8
    ensures c.d.blockStart == old(c.d.blockStart) + len
    ensures if last then c.Finished() else c.Sent()
    ensures old(HeaderSize(c.b.w.biValid) + len >= c.availOut) ==> c.availOut == 0
    ensures c.availOut > 0 ==> c.b.w.pending == []
  {
    hide HoldsIn, ChainsIn, Dictionary.Shape, BlockWriter.Shape, BlockWriter.Tallied, BitWriter.Valid, BitWriter.Bits, Means, Whole, StoredBits;
    ghost var bits, block := c.b.w.Bits(), c.d.blockStart;
    BlockBehind(c.d);
    StoredLonger(c.d.wSize, bits, c.d.window[..], c.d.strstart, c.d.given, c.d.base, block, len, last);
    ghost var buf := PassStored(c, len, last);
    StoredBlockSize(|bits|, buf, last);
    assert buf == c.d.window[..][block..block + len];
    BlockLater(c.d.window[..], c.d.strstart, c.d.given, c.d.base, block, c.d.blockStart);
    if last {
      assert c.d.given[..|c.d.given|] == c.d.given;
      WholeBytes(c.d.wSize, bits + StoredBits(|bits|, buf, last), c.d.given);
    }
  }

  lemma StoredLonger(w: nat, bits: seq<bool>, win: seq<Byte>, start: nat, given: seq<Byte>, base: nat, block: nat, n: nat, last: bool)
    requires HoldsIn(win, start, 0, given, base, block) && block + n <= start && n < 65536
    requires Means(w, 0, bits, false, [], given[..base + block])
    ensures block + n <= |win| && base + block + n <= |given|
    ensures Means(w, 0, bits + StoredBits(|bits|, win[block..block + n], last), last, [], given[..base + block + n])
  {
    hide Means, StoredBits;
    var buf, x := win[block..block + n], given[..base + block];
    NextBytes(win, start, given, base, block, [], 0, n, 0);
    assert given + [] == given && buf + [] == buf;
    StoredMeans(w, |bits|, buf, last, x);
    MeansMore(w, bits, StoredBits(|bits|, buf, last), last, x, x + buf);
  }

  lemma StoredSize(bytes: nat, bits: seq<bool>, buf: seq<Byte>, last: bool, valid: nat)
    requires |bits| == 8 * bytes + valid && valid <= 16
    ensures |bits| + |StoredBits(|bits|, buf, last)| == 8 * (bytes + HeaderSize(valid) + |buf|)
  {
    hide ToBits, BytesToBits, Padding;
    HeadSize(bytes, valid, |buf|, last);
  }

  /** The stream ends at a byte boundary. */
  lemma WholeBytes(w: nat, bits: seq<bool>, out: seq<Byte>)
    requires Means(w, 0, bits, true, [], out) && |bits| % 8 == 0
    ensures Whole(w, bits, out)
  {
    hide Means, Whole, ToBits;
    WholeBy(w, bits, out);
    NoBits();
    assert bits + [] == bits;
  }

  /** What is waiting goes into a stored block if that is a worthy one, or if it has to go. */
  method SendWaiting(c: Compressor, flush: Flush) returns (last: bool)
    requires Storing(c) && c.b.w.pending == []
    requires c.d.input != [] ==> c.d.strstart - c.d.blockStart >= c.d.wSize
    requires c.d.strstart - c.d.blockStart + |c.d.input| == 0 ==> flush.NoFlush? || flush.Finish?
    requires Stuck(flush, c.availOut, HeaderSize(c.b.w.biValid), c.d.strstart - c.d.blockStart + |c.d.input|,
                   Least(4 * c.b.litBufsize - 5, c.d.wSize))
    modifies c`availOut, c.d`blockStart, c.b.w
    ensures c.Room() == old(c.Room()) && c.Spent() <= old(c.Spent()) + if last then 42 else 0
    ensures Plain(c.d) && c.b.Valid() && c.b.tokens == [] && c.b.w.biValid < 8
    ensures if last then flush.Finish? && c.Finished() && c.d.input == [] && c.availOut == 0
            else c.Sent() && (c.availOut == 0 || (flush.NoFlush? && c.d.input == []))
  {
    hide Dictionary.Valid, BlockWriter.Valid, BitWriter.Bits, Means, Whole, StoredBits, Compressor.Spent, Compressor.Room, Compressor.Sent,
      Compressor.Finished, Stuck;
    PendingSize(c.b);
    BlockBehind(c.d);
    var header := HeaderSize(c.b.w.biValid);
    var have := Least(4 * c.b.litBufsize - header, MAX_STORED);
    var minBlock := Least(have, c.d.wSize);
    var left := c.d.strstart - c.d.blockStart;
    last := false;
    if left >= minBlock || ((left > 0 || flush.Finish?) && !flush.NoFlush? && c.d.input == [] && left <= have) {
      var len := Least(left, have);
      last := flush.Finish? && c.d.input == [] && len == left;
      SendStored(c, len, last);
    }
    NoRoomLeft(flush, old(c.availOut), header, left, |c.d.input|, 4 * c.b.litBufsize, c.d.wSize);
  }

  /** A block that waits because there is no room for it in the output fills the output up. */
  lemma NoRoomLeft(flush: Flush, room: nat, header: nat, left: nat, more: nat, size: nat, w: nat)
    requires 512 <= size && 512 <= w <= 32768 && header <= 6 && Stuck(flush, room, header, left + more, Least(size - 5, w))
    requires (more > 0 ==> left >= w) && (left + more == 0 ==> flush.NoFlush? || flush.Finish?)
    ensures var have := Least(size - header, MAX_STORED);
            var sends := left >= Least(have, w) || ((left > 0 || flush.Finish?) && !flush.NoFlush? && more == 0 && left <= have);
            && (!sends ==> flush.NoFlush? && more == 0)
            && (sends ==> header + Least(left, have) >= room || (flush.NoFlush? && more == 0))
  {
  }

  lemma PendingSize(b: BlockWriter)
    requires b.Valid()
    ensures 512 <= 4 * b.litBufsize
  {
    hide BlockWriter.Tallied, BitWriter.Valid;
  }

  /** No symbols tell nothing. */
  lemma StoringGoesOn(c: Compressor)
    requires Storing(c)
    ensures c.Going(c.Block())
  {
    hide Dictionary.Valid, BlockWriter.Shape, BitWriter.Valid, BitWriter.Bits, Means, Packed, Told;
    ToldNone(c.d.wSize, c.d.given, c.Block());
  }

  lemma StartCopying(c: Compressor)
    requires Storing(c) && c.b.w.pending == []
    ensures Copying(c, c.d.input, false)
  {
    hide Plain, BlockWriter.Valid, BitWriter.Bits, Means;
    BlockBehind(c.d);
    assert (c.d.given + c.d.input)[..c.Block()] == c.d.given[..c.Block()];
  }

  /** The window catches up with what went straight to the output. */
  method CatchUp(c: Compressor, before: seq<Byte>, last: bool)
    requires Copying(c, before, last) && (last ==> c.d.strstart == c.d.blockStart && c.d.input == [] && c.b.w.biValid == 0)
    modifies c.d`strstart, c.d`insert, c.d`given, c.d`base, c.d`blockStart, c.d`highWater, c.d.window
    ensures c.Room() == old(c.Room()) && c.Spent() == old(SpentOn(c, before))
    ensures if last then c.Finished() else Storing(c)
    ensures c.d.given + c.d.input == old(c.d.given) + before
    ensures c.d.strstart - c.d.blockStart == old(c.d.strstart - c.d.blockStart)
  {
    hide Dictionary.Valid, BlockWriter.Valid, BitWriter.Bits, Means, Whole;
    var used := |before| - |c.d.input|;
    ghost var given, n := c.d.given, c.d.base + c.d.blockStart + used;
    BlockBehind(c.d);
    TakeMore(c.d.given, before, used);
    if used > 0 {
      KeepHistory(c.d, before[..used]);
      BlockBehind(c.d);
      assert (given + before)[..n] == c.d.given == c.d.given[..c.Block()];
    } else {
      assert before[..0] == [] && given + [] == given;
      assert (given + before)[..n] == given[..c.Block()];
      assert given[..|given|] == given;
    }
    if last {
      WholeBytes(c.d.wSize, c.b.w.Bits(), c.d.given);
    }
  }

  /** What cannot go straight to the output waits, in the window or in the pending buffer. */
  method Wait(c: Compressor, flush: Flush) returns (r: BlockState)
    requires Storing(c) && c.b.w.pending == [] && c.d.strstart >= c.d.blockStart && 512 <= 4 * c.b.litBufsize
    requires c.d.strstart - c.d.blockStart + |c.d.input| == 0 ==> flush.NoFlush? || flush.Finish?
    requires Stuck(flush, c.availOut, HeaderSize(c.b.w.biValid), c.d.strstart - c.d.blockStart + |c.d.input|,
                   Least(4 * c.b.litBufsize - 5, c.d.wSize))
    modifies c`availOut, c.d.Rep(), c.b.w
    ensures c.Room() == old(c.Room()) && c.Spent() <= old(c.Spent()) + if r.FinishStarted? || r.FinishDone? then 42 else 0
    ensures c.Left(flush, r, c.Block()) && (r.NeedMore? ==> Storing(c)) && !r.BlockDone?
    ensures c.d.given + c.d.input == old(c.d.given + c.d.input)
  {
    hide Dictionary.Valid, BlockWriter.Valid, BitWriter.Bits, Means, Told, Whole, Stuck;
    ghost var sent, block := c.d.given[..c.Block()], c.Block();
    FillRest(c.d);
    assert c.d.given[..block] == sent;
    var last := SendWaiting(c, flush);
    if last { return FinishStarted; }
    StoringGoesOn(c);
    return NeedMore;
  }

  /** `deflate_stored`. */
  method DeflateStored(c: Compressor, flush: Flush) returns (r: BlockState)
    requires c.level == 0 && Storing(c) && c.b.w.pending == []
    modifies c`availOut, c.d.Rep(), c.b.w
    ensures c.Room() == old(c.Room()) && c.Spent() <= old(c.Spent()) + if r.FinishStarted? || r.FinishDone? then 42 else 0
    ensures c.Left(flush, r, c.Block()) && (r.NeedMore? || r.BlockDone? ==> Storing(c))
    ensures c.d.given + c.d.input == old(c.d.given + c.d.input)
    ensures r.BlockDone? ==> c.d.blockStart == c.d.strstart
  {
    hide Dictionary.Valid, BlockWriter.Valid, BitWriter.Bits, Means, Told, Whole, Stuck, Reached;
    BlockBehind(c.d);
    StartCopying(c);
    PendingSize(c.b);
    var before := c.d.input;
    var last := CopyBlocks(c, flush, Least(4 * c.b.litBufsize - 5, c.d.wSize), before);
    CatchUp(c, before, last);
    if last { return FinishDone; }
    if !flush.NoFlush? && !flush.Finish? && c.d.input == [] && c.d.strstart == c.d.blockStart {
      StoringGoesOn(c);
      return BlockDone;
    }
    r := Wait(c, flush);
  }
}
