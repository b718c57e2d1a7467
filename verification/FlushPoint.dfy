/**
 What a flush of `deflate` (deflate.c) is for: the decoder, given the bytes that are out, produces
 all the input that was given so far.
 */
module FlushPoint {
  import opened Bits
  import opened CanonicalCode
  import opened InflateTable
  import opened InflateSpec
  import opened InflateFixed
  import opened InflateStream
  import opened TreeOutput
  import opened BlockHeader
  import opened BlockData
  import opened BlockMeaning
  import opened FastEntry

  lemma AtBlock(d: Core)
    requires d.mode == Type && !d.last && d.input == []
    ensures Run(d) == d
  {
  }

  /** All that was sent is out, in whole bytes. */
  lemma WholeBytesDecode(w: nat, out: seq<Byte>, given: seq<Byte>)
    requires Means(w, 0, BytesToBits(out), false, [], given)
    ensures Run(InflateStream.Start(out)).out == given
  {
    hide Near, Step, Run, BytesToBits;
    var bits := BytesToBits(out);
    var rest: seq<bool> := [];
    assert (0 + |bits| + |rest|) % 8 == 0 && bits + rest == bits;
    var d := Core(Type, false, given, rest, 0);
    assert Near(InflateStream.Start(out), d, w);
    NearFollows(InflateStream.Start(out), d, w);
    FollowsRun(InflateStream.Start(out), d);
    AtBlock(d);
  }

  /** The empty block with the fixed codes: its type, and the word for the end of the block. */
  lemma EmptyBlock(k: Trees)
    requires ReadyToSend(k, FixedCodes(), [])
    ensures |FixedCodes().llens| > 256 && FixedCodes().llens[256] == 7
    ensures StaticBits(k, [], false) == ToBits(TypeField(1, false), 3) + ToBits(Rev(7, Code(FixedCodes().llens, 256)), 7)
  {
    hide Rev, Code, ToBits, Pow2, Sendable;
    assert FixedCodes().llens[256] == 7;
    var word := ToBits(Rev(7, Code(FixedCodes().llens, 256)), 7);
    WordSendable(k.lcode, k.llen, FixedCodes().llens, 256);
    assert [] + word == word;
  }

  lemma {:induction false} FirstBits(x: nat, n: nat, m: nat)
    requires m <= n
    ensures ToBits(x, n)[..m] == ToBits(x, m)
  {
    if m > 0 {
      FirstBits(x / 2, n - 1, m - 1);
      assert ToBits(x, n)[..m] == [x % 2 == 1] + ToBits(x / 2, n - 1)[..m - 1];
    }
  }

  /** Any beginning of the empty block that holds its type gives no output. */
  lemma BeginningQuiet(k: Trees, out: seq<Byte>, n: nat)
    requires ReadyToSend(k, FixedCodes(), []) && n <= 7
    ensures |StaticBits(k, [], false)| == 10
    ensures Run(Core(Type, false, out, StaticBits(k, [], false)[..3 + n], 0)).out == out
  {
    hide Rev, Code, ToBits, Pow2, Step, Run, Find, FixedCodes, Follows, StaticBits, Usable;
    EmptyBlock(k);
    var lens := FixedCodes().llens;
    var type3, word := ToBits(TypeField(1, false), 3), ToBits(Rev(7, Code(lens, 256)), 7);
    var s := StaticBits(k, [], false)[..3 + n];
    FirstBits(Rev(7, Code(lens, 256)), 7, n);
    assert s == type3 + word[..n] == type3 + ToBits(Rev(7, Code(lens, 256)), n);
    if n == 7 {
      WholeQuiet(k, out);
      assert s == StaticBits(k, [], false);
    } else {
      PartQuiet(out, n, s);
    }
  }

  lemma PartQuiet(out: seq<Byte>, n: nat, s: seq<bool>)
    requires n < 7 && |FixedCodes().llens| > 256 && FixedCodes().llens[256] == 7 && s == ToBits(TypeField(1, false), 3) + ToBits(Rev(7, Code(FixedCodes().llens, 256)), n)
    ensures Run(Core(Type, false, out, s, 0)).out == out
  {
    hide Rev, Code, ToBits, Step, Run, Find, FixedCodes, Follows, Usable, BlockMode, TypeField;
    var c := Core(Type, false, out, s, 0);
    var rest := ToBits(Rev(7, Code(FixedCodes().llens, 256)), n);
    TypeRead(c, 1, false, rest);
    var d := Core(Len(FixedCodes()), false, out, rest, 0);
    assert Step(c) == Some(d) by { FixedMode(); }
    FollowsStep(c);
    FollowsRun(c, d);
    FixedUsable();
    PartOfWord(FixedCodes().llens, 256, n);
    FixedReadable();
    NoStep(d);
  }

  lemma FixedMode()
    ensures BlockMode(1) == Len(FixedCodes())
  {
    hide FixedCodes;
  }

  lemma FixedReadable()
    ensures Readable(FixedCodes())
  {
  }

  lemma WholeQuiet(k: Trees, out: seq<Byte>)
    requires ReadyToSend(k, FixedCodes(), [])
    ensures AllTokensSendable(k, []) && Run(Core(Type, false, out, StaticBits(k, [], false), 0)).out == out
  {
    hide Step, Run, FixedCodes, Follows, StaticBits, Near;
    var s := StaticBits(k, [], false);
    StaticRead(0, k, [], false, out, []);
    assert s + [] == s;
    var c, d := Core(Type, false, out, s, 0), Core(Type, false, out, [], 0);
    NearFollows(c, d, 0);
    FollowsRun(c, d);
    AtBlock(d);
  }

  /** All but the end of an empty block is out. */
  lemma AlignedDecode(w: nat, bits: seq<bool>, k: Trees, out: seq<Byte>, held: seq<bool>, given: seq<Byte>)
    requires ReadyToSend(k, FixedCodes(), []) && Means(w, 0, bits, false, [], given) && |held| < 8
    requires bits + StaticBits(k, [], false) == BytesToBits(out) + held
    ensures Run(InflateStream.Start(out)).out == given
  {
    hide Near, Step, Run, BytesToBits, StaticBits, FixedCodes, Follows;
    var n := 7 - |held|;
    BeginningQuiet(k, given, n);
    var all, empty := BytesToBits(out), StaticBits(k, [], false);
    var rest := empty[..3 + n];
    assert |bits| + 10 == |all| + |held|;
    assert all == (bits + empty)[..|all|] == bits + rest;
    assert (0 + |bits| + |rest|) % 8 == 0;
    var d := Core(Type, false, given, rest, 0);
    assert Near(Core(Type, false, [], bits + rest, 0), d, w);
    NearFollows(InflateStream.Start(out), d, w);
    FollowsRun(InflateStream.Start(out), d);
  }
}
