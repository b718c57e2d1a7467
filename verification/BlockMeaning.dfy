/**
 Whole blocks as bits, and what the decoder makes of them.
 */
module BlockMeaning {
  import opened Bits
  import opened InflateTable
  import opened InflateSpec
  import opened InflateFixed
  import opened BitOutput
  import opened TreeOutput
  import opened BlockHeader
  import opened BlockData

  /**
   `bits`, sent after `start` bits of a stream of whole bytes, make the decoder go from the
   output `before` to the output `after`, to the next block or, after the last one, the end,
   without a match from further back than `w`.
   */
  ghost predicate Means(w: nat, start: nat, bits: seq<bool>, last: bool, before: seq<Byte>, after: seq<Byte>) {
    forall rest: seq<bool> | (start + |bits| + |rest|) % 8 == 0 ::
      Near(Core(Type, false, before, bits + rest, 0), Core(Type, last, after, rest, 0), w)
  }

  /** The type of a block and whether it is the last one, as a three-bit value. */
  function TypeField(t: nat, last: bool): nat {
    2 * t + if last then 1 else 0
  }

  lemma TypeRead(c: Core, t: nat, last: bool, rest: seq<bool>)
    requires c.mode == Type && !c.last && t < 4 && c.input == ToBits(TypeField(t, last), 3) + rest
    ensures Step(c) == Some(c.(mode := BlockMode(t), last := last, input := rest))
  {
    hide BlockMode, Num, FixedCodes;
    var v := TypeField(t, last);
    var b := ToBits(v, 3);
    assert b == [last] + ToBits(t, 2) by { ThreeBitField(t, last); }
    assert c.input[0] == last && c.input[1..] == ToBits(t, 2) + rest && c.input[3..] == rest;
    assert Pow2(2) == 4;
    ValueBack(t, 2, rest);
  }

  lemma ThreeBitField(t: nat, last: bool)
    ensures ToBits(TypeField(t, last), 3) == [last] + ToBits(t, 2)
  {
    assert TypeField(t, last) % 2 == (if last then 1 else 0) && TypeField(t, last) / 2 == t;
  }

  // ------------------------------------------------------------ compressed blocks

  ghost function StaticBits(k: Trees, ts: seq<Token>, last: bool): seq<bool>
    requires AllTokensSendable(k, ts) && Sendable(k.lcode, k.llen, END_BLOCK)
  {
    ToBits(TypeField(1, last), 3) + DataBits(k, ts)
  }

  /** The words for all the tokens and the end of the block are there. */
  ghost predicate ReadyToSend(k: Trees, codes: Codes, ts: seq<Token>) {
    && AllHaveWords(k, codes, ts) && HasWord(k.lcode, k.llen, codes.llens, END_BLOCK)
    && AllTokensSendable(k, ts) && Sendable(k.lcode, k.llen, END_BLOCK)
  }

  /** A block with the fixed codes. */
  lemma StaticMeans(w: nat, start: nat, k: Trees, ts: seq<Token>, last: bool, before: seq<Byte>)
    requires ReadyToSend(k, FixedCodes(), ts) && AllReach(ts, before) && AllNear(ts, w)
    ensures Means(w, start, StaticBits(k, ts, last), last, before, ExpandAll(ts, before))
  {
    hide Step, Near, AllNear, DataBits, AllHaveWords, HasWord, AllTokensSendable, Sendable, AllReach, ExpandAll, FixedCodes, ToBits;
    forall rest: seq<bool> | (start + |StaticBits(k, ts, last)| + |rest|) % 8 == 0
      ensures Near(Core(Type, false, before, StaticBits(k, ts, last) + rest, 0), Core(Type, last, ExpandAll(ts, before), rest, 0), w)
    {
      StaticRead(w, k, ts, last, before, rest);
    }
  }

  lemma StaticRead(w: nat, k: Trees, ts: seq<Token>, last: bool, before: seq<Byte>, rest: seq<bool>)
    requires ReadyToSend(k, FixedCodes(), ts) && AllReach(ts, before) && AllNear(ts, w)
    ensures Near(Core(Type, false, before, StaticBits(k, ts, last) + rest, 0), Core(Type, last, ExpandAll(ts, before), rest, 0), w)
  {
    hide Step, Near, AllNear, DataBits, AllHaveWords, HasWord, AllTokensSendable, Sendable, AllReach, ExpandAll, FixedCodes, ToBits, Usable;
    var c := Core(Type, false, before, StaticBits(k, ts, last) + rest, 0);
    var more := DataBits(k, ts) + rest;
    assert c.input == ToBits(TypeField(1, last), 3) + more;
    TypeRead(c, 1, last, more);
    NearStep(c, w);
    var d := Core(Len(FixedCodes()), last, before, more, 0);
    FixedUsable();
    DataRead(d, k, ts, rest, w);
    NearTrans(c, d, Core(Type, last, ExpandAll(ts, before), rest, 0), w);
  }

  ghost function DynamicBits(h: Header, code: seq<nat>, len: seq<nat>, k: Trees, ts: seq<Token>, last: bool): seq<bool>
    requires h.Valid() && AllSendable(code, len, h.Runs())
    requires AllTokensSendable(k, ts) && Sendable(k.lcode, k.llen, END_BLOCK)
  {
    ToBits(TypeField(2, last), 3) + HeaderBits(h, code, len) + DataBits(k, ts)
  }

  ghost predicate HeaderReady(h: Header, code: seq<nat>, len: seq<nat>) {
    && h.Valid() && Canonical(code, len, h.bl) && AllSendable(code, len, h.Runs())
    && h.llens[256] > 0 && Builds(LENS, h.llens, 9) && Builds(DISTS, h.dlens, 6)
  }

  /** A block with codes of its own. */
  lemma DynamicMeans(w: nat, start: nat, h: Header, code: seq<nat>, len: seq<nat>, k: Trees, ts: seq<Token>, last: bool, before: seq<Byte>)
    requires HeaderReady(h, code, len) && ReadyToSend(k, Codes(h.llens, h.dlens), ts) && AllReach(ts, before) && AllNear(ts, w)
    ensures Means(w, start, DynamicBits(h, code, len, k, ts, last), last, before, ExpandAll(ts, before))
  {
    hide Near, AllNear, HeaderReady, DynamicBits, ReadyToSend, AllReach, ExpandAll;
    assert h.Valid() && AllSendable(code, len, h.Runs()) by { HeaderFacts(h, code, len); }
    assert AllTokensSendable(k, ts) && Sendable(k.lcode, k.llen, END_BLOCK) by { ReadyFacts(k, Codes(h.llens, h.dlens), ts); }
    forall rest: seq<bool> | (start + |DynamicBits(h, code, len, k, ts, last)| + |rest|) % 8 == 0
      ensures Near(Core(Type, false, before, DynamicBits(h, code, len, k, ts, last) + rest, 0),
                   Core(Type, last, ExpandAll(ts, before), rest, 0), w)
    {
      DynamicRead(w, h, code, len, k, ts, last, before, rest);
    }
  }

  lemma HeaderFacts(h: Header, code: seq<nat>, len: seq<nat>)
    requires HeaderReady(h, code, len)
    ensures h.Valid() && AllSendable(code, len, h.Runs())
  {
  }

  lemma ReadyFacts(k: Trees, codes: Codes, ts: seq<Token>)
    requires ReadyToSend(k, codes, ts)
    ensures AllTokensSendable(k, ts) && Sendable(k.lcode, k.llen, END_BLOCK)
  {
  }

  lemma DynamicRead(w: nat, h: Header, code: seq<nat>, len: seq<nat>, k: Trees, ts: seq<Token>, last: bool, before: seq<Byte>, rest: seq<bool>)
    requires HeaderReady(h, code, len) && ReadyToSend(k, Codes(h.llens, h.dlens), ts) && AllReach(ts, before) && AllNear(ts, w)
    ensures Near(Core(Type, false, before, DynamicBits(h, code, len, k, ts, last) + rest, 0),
                 Core(Type, last, ExpandAll(ts, before), rest, 0), w)
  {
    hide Step, Follows, Near, AllNear, DataBits, HeaderBits, AllHaveWords, HasWord, AllTokensSendable, Sendable, AllReach, ExpandAll, ToBits,
      Header.Valid, Usable, Oversize, Canonical, AllSendable;
    var c := Core(Type, false, before, DynamicBits(h, code, len, k, ts, last) + rest, 0);
    var more := DataBits(k, ts) + rest;
    assert c.input == ToBits(TypeField(2, last), 3) + (HeaderBits(h, code, len) + more);
    TypeRead(c, 2, last, HeaderBits(h, code, len) + more);
    FollowsStep(c);
    var d := Core(Table, last, before, HeaderBits(h, code, len) + more, 0);
    HeaderRead(d, h, code, len, more);
    var e := Core(Len(Codes(h.llens, h.dlens)), last, before, more, 0);
    FollowsTrans(c, d, e);
    QuietNear(c, e, w);
    DataRead(e, k, ts, rest, w);
    NearTrans(c, e, Core(Type, last, ExpandAll(ts, before), rest, 0), w);
  }

  // ------------------------------------------------------------ stored blocks

  /** The type, zeros to a whole byte, the length twice and the bytes. */
  ghost function StoredBits(start: nat, buf: seq<Byte>, last: bool): seq<bool> {
    ToBits(TypeField(0, last), 3) + ToBits(0, Padding(start + 3))
    + ToBits(|buf|, 16) + ToBits(65535 - |buf| % 65536, 16) + BytesToBits(buf)
  }

  /** A stored block. */
  lemma StoredMeans(w: nat, start: nat, buf: seq<Byte>, last: bool, before: seq<Byte>)
    requires |buf| < 65536
    ensures Means(w, start, StoredBits(start, buf, last), last, before, before + buf)
  {
    hide Near, StoredBits;
    forall rest: seq<bool> | (start + |StoredBits(start, buf, last)| + |rest|) % 8 == 0
      ensures Near(Core(Type, false, before, StoredBits(start, buf, last) + rest, 0), Core(Type, last, before + buf, rest, 0), w)
    {
      StoredSize(start, buf, last);
      RestWhole(start + |StoredBits(start, buf, last)|, |rest|);
      StoredRead(w, start, buf, last, before, rest);
    }
  }

  lemma RestWhole(a: nat, b: nat)
    requires a % 8 == 0 && (a + b) % 8 == 0
    ensures b % 8 == 0
  {
  }

  lemma PaddingFills(n: nat)
    ensures (n + Padding(n)) % 8 == 0
  {
  }

  lemma WholeMore(a: nat, k: nat)
    requires a % 8 == 0
    ensures (a + 32 + 8 * k) % 8 == 0
  {
  }

  lemma StoredSize(start: nat, buf: seq<Byte>, last: bool)
    ensures (start + |StoredBits(start, buf, last)|) % 8 == 0
  {
    hide ToBits, BytesToBits, Padding;
    PaddingFills(start + 3);
    var a := start + 3 + Padding(start + 3);
    assert start + |StoredBits(start, buf, last)| == a + 32 + 8 * |buf|;
    WholeMore(a, |buf|);
  }

  lemma StoredRead(w: nat, start: nat, buf: seq<Byte>, last: bool, before: seq<Byte>, rest: seq<bool>)
    requires |buf| < 65536 && |rest| % 8 == 0
    ensures Near(Core(Type, false, before, StoredBits(start, buf, last) + rest, 0), Core(Type, last, before + buf, rest, 0), w)
  {
    hide Step, Follows, Near, ToBits, BytesToBits, Padding;
    var c := Core(Type, false, before, StoredBits(start, buf, last) + rest, 0);
    var p := Padding(start + 3);
    var body := ToBits(|buf|, 16) + ToBits(65535 - |buf|, 16) + BytesToBits(buf) + rest;
    assert c.input == ToBits(TypeField(0, last), 3) + (ToBits(0, p) + body);
    TypeRead(c, 0, last, ToBits(0, p) + body);
    FollowsStep(c);
    var d := Core(Stored, last, before, ToBits(0, p) + body, 0);
    PaddingSmall(start + 3);
    PaddingSkipped(d, p, body);
    var e := Core(Stored, last, before, body, 0);
    FollowsTrans(c, d, e);
    QuietNear(c, e, w);
    StoredBody(e, buf, rest, w);
    NearTrans(c, e, Core(Type, last, before + buf, rest, 0), w);
  }

  lemma PaddingSmall(n: nat)
    ensures Padding(n) < 8
  {
  }

  lemma PaddingSkipped(c: Core, p: nat, body: seq<bool>)
    requires c.mode == Stored && p < 8 && |body| % 8 == 0 && c.input == ToBits(0, p) + body
    ensures Follows(c, c.(input := body))
  {
    hide Follows, ToBits, Value;
    assert |c.input| % 8 == p;
    if p == 0 {
      assert c.input == body;
      FollowsHere(c);
    } else {
      assert Aligned(c.input) == body;
      FollowsStep(c);
    }
  }

  lemma StoredBody(c: Core, buf: seq<Byte>, rest: seq<bool>, w: nat)
    requires |buf| < 65536 && |rest| % 8 == 0 && c.mode == Stored
    requires c.input == ToBits(|buf|, 16) + ToBits(65535 - |buf|, 16) + BytesToBits(buf) + rest
    ensures Near(c, c.(mode := Type, out := c.out + buf, input := rest), w)
  {
    hide Near, ToBits, Value, BytesToBits, Step;
    var n, more := |buf|, BytesToBits(buf) + rest;
    LengthsFront(n, more);
    assert c.input == ToBits(n, 16) + ToBits(65535 - n, 16) + more;
    WholeMore(|rest|, n);
    assert |c.input| == |rest| + 32 + 8 * n;
    LengthsRead(c, n, more);
    NearStep(c, w);
    var d := c.(mode := InflateSpec.Copy(n), input := more);
    BytesRead(d, buf, rest, w);
    NearTrans(c, d, c.(mode := Type, out := c.out + buf, input := rest), w);
  }

  lemma LengthsRead(c: Core, n: nat, more: seq<bool>)
    requires c.mode == Stored && |c.input| % 8 == 0 && |c.input| >= 32
    requires Value(c.input, 16) == n && Value(c.input[16..], 16) == 65535 - n && c.input[32..] == more
    ensures Step(c) == Some(c.(mode := InflateSpec.Copy(n), input := more))
  {
    hide Value;
  }

  lemma LengthsFront(n: nat, more: seq<bool>)
    requires n < 65536
    ensures var s := ToBits(n, 16) + ToBits(65535 - n, 16) + more;
            |s| >= 32 && Value(s, 16) == n && Value(s[16..], 16) == 65535 - n && s[32..] == more
  {
    hide ToBits, Value, Pow2;
    Powers();
    var s := ToBits(n, 16) + ToBits(65535 - n, 16) + more;
    assert s == ToBits(n, 16) + (ToBits(65535 - n, 16) + more);
    ValueBack(n, 16, ToBits(65535 - n, 16) + more);
    ValueBack(65535 - n, 16, more);
    assert s[32..] == more;
  }

  lemma {:induction false} BytesRead(c: Core, buf: seq<Byte>, rest: seq<bool>, w: nat)
    requires c.mode == InflateSpec.Copy(|buf|) && c.input == BytesToBits(buf) + rest
    ensures Near(c, c.(mode := Type, out := c.out + buf, input := rest), w)
    decreases |buf|
  {
    hide Near, ToBits, Value;
    NearStep(c, w) by { if buf != [] { ByteFront(buf, rest); } }
    var d := Step(c).value;
    if buf == [] {
      assert [] + rest == rest && c.out + [] == c.out;
    } else {
      ByteFront(buf, rest);
      BytesRead(d, buf[1..], rest, w);
      assert c.out + [buf[0]] + buf[1..] == c.out + buf;
      NearTrans(c, d, c.(mode := Type, out := c.out + buf, input := rest), w);
    }
  }

  lemma ByteFront(buf: seq<Byte>, rest: seq<bool>)
    requires buf != []
    ensures var s := BytesToBits(buf) + rest;
            |s| >= 8 && Value(s, 8) == buf[0] && s[8..] == BytesToBits(buf[1..]) + rest
  {
    hide ToBits, Value, BytesToBits;
    BytesHead(buf);
    var tail := BytesToBits(buf[1..]);
    Append(ToBits(buf[0], 8), tail, rest);
    ByteBack(buf[0], tail + rest);
  }

  lemma ByteBack(x: Byte, more: seq<bool>)
    ensures Value(ToBits(x, 8) + more, 8) == x && (ToBits(x, 8) + more)[8..] == more
  {
    hide ToBits, Value, Pow2;
    Powers();
    ValueBack(x, 8, more);
  }

  lemma BytesHead(buf: seq<Byte>)
    requires buf != []
    ensures BytesToBits(buf) == ToBits(buf[0], 8) + BytesToBits(buf[1..])
  {
  }
}
