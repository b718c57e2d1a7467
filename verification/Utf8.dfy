/**
 UTF-8 in utf8proc.c: `utf8proc_iterate` reads a code point, `utf8proc_encode_char` writes one,
 and `utf8proc_reencode` replaces an array of code points by their encoding in the same memory.
 */
module Utf8 {
  import opened Bits

  // ------------------------------------------------------------ single code points

  /** The value as an unsigned 32-bit one. */
  function Unsigned(x: int): nat {
    x % 0x1_0000_0000
  }

  /** `utf8proc_codepoint_valid`. */
  predicate CodepointValid(uc: int) {
    Unsigned(Unsigned(uc) - 0xd800) > 0x07ff && Unsigned(uc) < 0x110000
  }

  /** A code point that is not a surrogate. */
  predicate Scalar(uc: int) {
    0 <= uc < 0x110000 && !(0xd800 <= uc < 0xe000)
  }

  /** The wrapped comparison leaves out just the surrogates. */
  lemma ValidIs(uc: int)
    requires -0x8000_0000 <= uc < 0x8000_0000
    ensures CodepointValid(uc) <==> Scalar(uc)
  {
  }

  /** Six bits more at the end, the bits in front of them, and the six bits again. */
  function Join(x: nat, low: nat): nat {
    64 * x + low
  }

  function Above(x: nat): nat {
    x / 64
  }

  function Six(x: nat): (r: nat)
    ensures r < 64
  {
    x % 64
  }

  lemma Parts(x: nat)
    ensures x == Join(Above(x), Six(x))
  {
  }

  lemma Unique(x: nat, low: nat)
    requires low < 64
    ensures Above(Join(x, low)) == x && Six(Join(x, low)) == low
  {
  }

  /** `utf8proc_encode_char`; surrogates are encoded like other values. */
  function EncodeChar(uc: int): (s: seq<Byte>)
    ensures |s| <= 4
  {
    if uc < 0 then []
    else if uc < 0x80 then [uc]
    else if uc < 0x800 then [0xC0 + Above(uc), 0x80 + Six(uc)]
    else if uc < 0x10000 then [0xE0 + Above(Above(uc)), 0x80 + Six(Above(uc)), 0x80 + Six(uc)]
    else if uc < 0x110000 then [0xF0 + Above(Above(Above(uc))), 0x80 + Six(Above(Above(uc))), 0x80 + Six(Above(uc)), 0x80 + Six(uc)]
    else []
  }

  predicate Cont(b: Byte) {
    0x80 <= b < 0xc0
  }

  /** The low bits of the first byte of a sequence of `n`. */
  function Lead(b: Byte, n: nat): nat {
    if n == 2 then b % 32 else if n == 3 then b % 16 else b % 8
  }

  datatype Step = Step(uc: nat, size: nat) | Nothing | Invalid

  /** `utf8proc_iterate`: the code point at the front of `s`. */
  function Iterate(s: seq<Byte>): (r: Step)
    ensures r.Step? ==> 1 <= r.size <= |s| && r.size <= 4
    ensures r.Nothing? <==> s == []
  {
    if s == [] then Nothing
    else if s[0] < 0x80 then Step(s[0], 1)
    else if s[0] < 0xc2 || s[0] > 0xf4 then Invalid
    else if s[0] < 0xe0 then
      if |s| < 2 || !Cont(s[1]) then Invalid
      else Step(Join(Lead(s[0], 2), Six(s[1])), 2)
    else if s[0] < 0xf0 then
      if |s| < 3 || !Cont(s[1]) || !Cont(s[2]) || (s[0] == 0xed && s[1] > 0x9f) then Invalid
      else
        var uc := Join(Join(Lead(s[0], 3), Six(s[1])), Six(s[2]));
        if uc < 0x800 then Invalid else Step(uc, 3)
    else if |s| < 4 || !Cont(s[1]) || !Cont(s[2]) || !Cont(s[3]) then Invalid
    else if (s[0] == 0xf0 && s[1] < 0x90) || (s[0] == 0xf4 && s[1] > 0x8f) then Invalid
    else Step(Join(Join(Join(Lead(s[0], 4), Six(s[1])), Six(s[2])), Six(s[3])), 4)
  }

  lemma LeadIs(x: nat)
    ensures x < 32 ==> Lead(0xC0 + x, 2) == x
    ensures x < 16 ==> Lead(0xE0 + x, 3) == x
    ensures x < 8 ==> Lead(0xF0 + x, 4) == x
  {
  }

  /** The six bits of a byte that goes on. */
  lemma SixIs(b: Byte)
    requires Cont(b)
    ensures Six(b) == b - 0x80
  {
  }

  lemma ReadsBackTwo(uc: nat, s: seq<Byte>)
    requires 0x80 <= uc < 0x800 && EncodeChar(uc) <= s
    ensures Iterate(s) == Step(uc, 2)
  {
    hide Above, Six, Lead;
    Parts(uc);
    LeadIs(Above(uc));
    assert s[0] == 0xC0 + Above(uc) && s[1] == 0x80 + Six(uc);
    SixIs(s[1]);
  }

  lemma ReadsBackThree(uc: nat, s: seq<Byte>)
    requires 0x800 <= uc < 0x10000 && !(0xd800 <= uc < 0xe000) && EncodeChar(uc) <= s
    ensures Iterate(s) == Step(uc, 3)
  {
    hide Above, Six, Lead;
    var a := Above(uc);
    Parts(uc);
    Parts(a);
    LeadIs(Above(a));
    assert s[0] == 0xE0 + Above(a) && s[1] == 0x80 + Six(a) && s[2] == 0x80 + Six(uc);
    SixIs(s[1]);
    SixIs(s[2]);
  }

  lemma ReadsBackFour(uc: nat, s: seq<Byte>)
    requires 0x10000 <= uc < 0x110000 && EncodeChar(uc) <= s
    ensures Iterate(s) == Step(uc, 4)
  {
    hide Above, Six, Lead;
    var a, b := Above(uc), Above(Above(uc));
    Parts(uc);
    Parts(a);
    Parts(b);
    LeadIs(Above(b));
    assert s[0] == 0xF0 + Above(b) && s[1] == 0x80 + Six(b) && s[2] == 0x80 + Six(a) && s[3] == 0x80 + Six(uc);
    SixIs(s[1]);
    SixIs(s[2]);
    SixIs(s[3]);
  }

  lemma ScalarReadsBack(uc: int, s: seq<Byte>)
    requires Scalar(uc) && EncodeChar(uc) <= s
    ensures Iterate(s) == Step(uc, |EncodeChar(uc)|)
  {
    hide Above, Six, Lead;
    if 0x80 <= uc < 0x800 {
      ReadsBackTwo(uc, s);
    } else if 0x800 <= uc < 0x10000 {
      ReadsBackThree(uc, s);
    } else if 0x10000 <= uc {
      ReadsBackFour(uc, s);
    }
  }

  /** A surrogate is encoded, but what was encoded is refused. */
  lemma SurrogateRefused(uc: int, s: seq<Byte>)
    requires 0xd800 <= uc < 0xe000 && EncodeChar(uc) <= s
    ensures |EncodeChar(uc)| == 3 && Iterate(s) == Invalid
  {
    hide Above, Six, Lead;
    var a := Above(uc);
    Parts(uc);
    Parts(a);
    assert s[0] == 0xE0 + Above(a) == 0xed && s[1] == 0x80 + Six(a) > 0x9f;
  }

  /** What was encoded is read back, whatever follows, exactly if it is a code point and no surrogate. */
  lemma ReadsBack(uc: int, rest: seq<Byte>)
    ensures var r := Iterate(EncodeChar(uc) + rest); r.Step? && r.uc == uc && r.size == |EncodeChar(uc)| <==> Scalar(uc)
    ensures 0xd800 <= uc < 0xe000 ==> Iterate(EncodeChar(uc) + rest) == Invalid
  {
    hide Iterate, EncodeChar, CodepointValid;
    var s := EncodeChar(uc) + rest;
    assert EncodeChar(uc) <= s;
    if Scalar(uc) { ScalarReadsBack(uc, s); }
    if 0xd800 <= uc < 0xe000 { SurrogateRefused(uc, s); }
    if Iterate(s).Step? { ReadsOnly(s); }
  }

  lemma ReadsOnlyTwo(s: seq<Byte>)
    requires Iterate(s).Step? && Iterate(s).size == 2
    ensures 0x80 <= Iterate(s).uc < 0x800 && s[..2] == EncodeChar(Iterate(s).uc)
  {
    hide Above, Six, Lead;
    LeadIs(s[0] - 0xC0);
    SixIs(s[1]);
    Unique(Lead(s[0], 2), Six(s[1]));
  }

  lemma ReadsOnlyThree(s: seq<Byte>)
    requires Iterate(s).Step? && Iterate(s).size == 3
    ensures 0x800 <= Iterate(s).uc < 0x10000 && !(0xd800 <= Iterate(s).uc < 0xe000) && s[..3] == EncodeChar(Iterate(s).uc)
  {
    hide Above, Six, Lead;
    LeadIs(s[0] - 0xE0);
    SixIs(s[1]);
    SixIs(s[2]);
    var a := Join(Lead(s[0], 3), Six(s[1]));
    Unique(Lead(s[0], 3), Six(s[1]));
    Unique(a, Six(s[2]));
  }

  lemma ReadsOnlyFour(s: seq<Byte>)
    requires Iterate(s).Step? && Iterate(s).size == 4
    ensures 0x10000 <= Iterate(s).uc < 0x110000 && s[..4] == EncodeChar(Iterate(s).uc)
  {
    hide Above, Six, Lead;
    LeadIs(s[0] - 0xF0);
    SixIs(s[1]);
    SixIs(s[2]);
    SixIs(s[3]);
    var a := Join(Lead(s[0], 4), Six(s[1]));
    var b := Join(a, Six(s[2]));
    Unique(Lead(s[0], 4), Six(s[1]));
    Unique(a, Six(s[2]));
    Unique(b, Six(s[3]));
  }

  /** What is read is valid and was encoded just so: no surrogates, no overlong forms. */
  lemma ReadsOnly(s: seq<Byte>)
    requires Iterate(s).Step?
    ensures Scalar(Iterate(s).uc) && CodepointValid(Iterate(s).uc) && s[..Iterate(s).size] == EncodeChar(Iterate(s).uc)
  {
    hide Above, Six, Lead, CodepointValid, Join;
    var r := Iterate(s);
    if r.size == 2 {
      ReadsOnlyTwo(s);
    } else if r.size == 3 {
      ReadsOnlyThree(s);
    } else if r.size == 4 {
      ReadsOnlyFour(s);
    }
    ValidIs(r.uc);
  }

  // ------------------------------------------------------------ strings

  function EncodeAll(ucs: seq<int>): seq<Byte> {
    if ucs == [] then [] else EncodeChar(ucs[0]) + EncodeAll(ucs[1..])
  }

  lemma {:induction false} EncodeMore(ucs: seq<int>, uc: int)
    ensures EncodeAll(ucs + [uc]) == EncodeAll(ucs) + EncodeChar(uc)
  {
    hide EncodeChar;
    if ucs == [] {
      assert [uc][1..] == [] && EncodeChar(uc) + [] == EncodeChar(uc);
    } else {
      EncodeMore(ucs[1..], uc);
      assert (ucs + [uc])[1..] == ucs[1..] + [uc];
    }
  }

  ghost predicate AllValid(ucs: seq<int>) {
    forall i | 0 <= i < |ucs| :: Scalar(ucs[i])
  }

  /** The code points of a string, if it is one. */
  function Decode(s: seq<Byte>): Option<seq<int>>
    decreases |s|
  {
    if s == [] then Some([])
    else
      var r := Iterate(s);
      if !r.Step? then None
      else
        var rest := Decode(s[r.size..]);
        if rest.None? then None else Some([r.uc] + rest.value)
  }

  lemma {:induction false} ScalarsDecodeBack(ucs: seq<int>)
    requires AllValid(ucs)
    ensures Decode(EncodeAll(ucs)) == Some(ucs)
  {
    hide EncodeChar, Iterate;
    if ucs != [] {
      assert Scalar(ucs[0]);
      var rest, s := EncodeAll(ucs[1..]), EncodeAll(ucs);
      ScalarReadsBack(ucs[0], s);
      assert s[|EncodeChar(ucs[0])|..] == rest;
      ScalarsDecodeBack(ucs[1..]);
      assert [ucs[0]] + ucs[1..] == ucs;
    }
  }

  /** A string of values is read back from its encoding exactly if all of them are code points and no surrogates. */
  lemma DecodesBack(ucs: seq<int>)
    ensures Decode(EncodeAll(ucs)) == Some(ucs) <==> AllValid(ucs)
  {
    hide EncodeChar, Iterate, AllValid, Decode, EncodeAll;
    if AllValid(ucs) { ScalarsDecodeBack(ucs); }
    if Decode(EncodeAll(ucs)).Some? { DecodesOnly(EncodeAll(ucs)); }
  }

  /** Nothing else is a string. */
  lemma {:induction false} DecodesOnly(s: seq<Byte>)
    requires Decode(s).Some?
    ensures AllValid(Decode(s).value) && EncodeAll(Decode(s).value) == s
    decreases |s|
  {
    hide EncodeChar, Iterate, CodepointValid;
    if s != [] {
      var r := Iterate(s);
      ReadsOnly(s);
      DecodesOnly(s[r.size..]);
      var ucs, rest := Decode(s).value, Decode(s[r.size..]).value;
      assert ucs[1..] == rest && s == s[..r.size] + s[r.size..];
      assert forall i | 1 <= i < |ucs| :: ucs[i] == rest[i - 1];
    }
  }

  /** The reading loop of `utf8proc_decompose_custom`: success for encodings of code points, and only for them. */
  method ReadString(s: seq<Byte>) returns (ok: bool, ucs: seq<int>)
    ensures ok <==> exists x: seq<int> :: AllValid(x) && EncodeAll(x) == s
    ensures ok ==> AllValid(ucs) && EncodeAll(ucs) == s
  {
    hide EncodeChar, Iterate, AllValid;
    ucs := [];
    var rpos := 0;
    assert s[0..] == s;
    while rpos < |s|
      invariant rpos <= |s|
      invariant Decode(s).Some? <==> Decode(s[rpos..]).Some?
      invariant Decode(s).Some? ==> Decode(s).value == ucs + Decode(s[rpos..]).value
    {
      var r := Iterate(s[rpos..]);
      assert r.Step? ==> s[rpos..][r.size..] == s[rpos + r.size..];
      if !r.Step? {
        Unreadable(s);
        return false, ucs;
      }
      ucs := ucs + [r.uc];
      rpos := rpos + r.size;
    }
    assert s[rpos..] == [] && ucs + [] == ucs;
    DecodesOnly(s);
    ok := true;
  }

  lemma Unreadable(s: seq<Byte>)
    requires Decode(s).None?
    ensures !exists x: seq<int> :: AllValid(x) && EncodeAll(x) == s
  {
    forall x: seq<int> | AllValid(x) && EncodeAll(x) == s ensures false {
      DecodesBack(x);
    }
  }

  // ------------------------------------------------------------ in place

  /** `charbound_encode_char`, or `utf8proc_encode_char` without bounds. */
  function Encoded(uc: int, bounds: bool): (s: seq<Byte>)
    ensures |s| <= 4
  {
    if bounds && uc == -1 then [0xFF] else EncodeChar(uc)
  }

  /** The signed 32-bit value that begins at the byte `at`. */
  function ValueAt(mem: seq<Byte>, at: nat): int
    requires at + 4 <= |mem|
  {
    var a: nat, b: nat, c: nat, d: nat := mem[at], mem[at + 1], mem[at + 2], mem[at + 3];
    var x := a + 0x100 * b + 0x1_0000 * c + 0x100_0000 * d;
    if x < 0x8000_0000 then x else x - 0x1_0000_0000
  }

  /** The encodings of the first `n` values. */
  function EncodedTo(mem: seq<Byte>, n: nat, bounds: bool): (s: seq<Byte>)
    requires 4 * n <= |mem|
    ensures |s| <= 4 * n
  {
    if n == 0 then [] else EncodedTo(mem, n - 1, bounds) + Encoded(ValueAt(mem, 4 * (n - 1)), bounds)
  }

  method Write(mem: array<Byte>, at: nat, s: seq<Byte>)
    requires at + |s| <= mem.Length
    modifies mem
    ensures mem[..] == old(mem[..at]) + s + old(mem[at + |s|..])
  {
    for i := 0 to |s|
      invariant forall j | 0 <= j < mem.Length :: mem[j] == if at <= j < at + i then s[j - at] else old(mem[j])
    {
      mem[at + i] := s[i];
    }
  }

  /**
   The loop of `utf8proc_reencode`: the encoding replaces the values that are encoded, in the
   same memory, and no value is overwritten before it is read.
   */
  method Reencode(mem: array<Byte>, length: nat, bounds: bool) returns (wpos: nat)
    requires 4 * length < mem.Length
    modifies mem
    ensures wpos <= 4 * length && mem[..wpos] == EncodedTo(old(mem[..]), length, bounds) && mem[wpos] == 0
    ensures mem[4 * length + 1..] == old(mem[4 * length + 1..])
  {
    hide Encoded, ValueAt, EncodedTo;
    ghost var before := mem[..];
    wpos := 0;
    NoneEncoded(before, bounds);
    for rpos := 0 to length
      invariant wpos <= 4 * rpos && mem[..wpos] == EncodedTo(before, rpos, bounds) && mem[4 * rpos..] == before[4 * rpos..]
    {
      ghost var now := mem[..];
      SameValue(now, before, rpos);
      var uc := ValueAt(mem[..], 4 * rpos);
      var e := Encoded(uc, bounds);
      OneMore(before, rpos, bounds);
      Write(mem, wpos, e);
      assert mem[..wpos + |e|] == now[..wpos] + e;
      assert mem[4 * (rpos + 1)..] == now[4 * (rpos + 1)..] == now[4 * rpos..][4..] == before[4 * rpos..][4..];
      wpos := wpos + |e|;
    }
    ghost var now := mem[..];
    mem[wpos] := 0;
    assert mem[..wpos] == now[..wpos];
    assert mem[4 * length + 1..] == now[4 * length..][1..];
  }

  lemma NoneEncoded(mem: seq<Byte>, bounds: bool)
    ensures EncodedTo(mem, 0, bounds) == []
  {
  }

  lemma OneMore(mem: seq<Byte>, n: nat, bounds: bool)
    requires 4 * (n + 1) <= |mem|
    ensures EncodedTo(mem, n + 1, bounds) == EncodedTo(mem, n, bounds) + Encoded(ValueAt(mem, 4 * n), bounds)
  {
  }

  lemma SameValue(a: seq<Byte>, b: seq<Byte>, n: nat)
    requires |a| == |b| && 4 * (n + 1) <= |a| && a[4 * n..] == b[4 * n..]
    ensures ValueAt(a, 4 * n) == ValueAt(b, 4 * n)
  {
    assert a[4 * n..][0] == b[4 * n..][0] && a[4 * n..][1] == b[4 * n..][1];
    assert a[4 * n..][2] == b[4 * n..][2] && a[4 * n..][3] == b[4 * n..][3];
  }

  /** Without bounds the result is the encoding of the values, and decodes to them exactly if they are code points. */
  lemma {:induction false} ReencodedDecodes(mem: seq<Byte>, n: nat)
    requires 4 * n <= |mem|
    ensures var ucs := seq(n, i requires 0 <= i < n => ValueAt(mem, 4 * i));
            && EncodedTo(mem, n, false) == EncodeAll(ucs)
            && (Decode(EncodedTo(mem, n, false)) == Some(ucs) <==> AllValid(ucs))
  {
    hide EncodeChar, ValueAt, AllValid;
    var ucs := seq(n, i requires 0 <= i < n => ValueAt(mem, 4 * i));
    if n > 0 {
      var us := seq(n - 1, i requires 0 <= i < n - 1 => ValueAt(mem, 4 * i));
      ReencodedDecodes(mem, n - 1);
      assert ucs == us + [ValueAt(mem, 4 * (n - 1))];
      EncodeMore(us, ValueAt(mem, 4 * (n - 1)));
    }
    DecodesBack(ucs);
  }

  // ------------------------------------------------------------ known values

  /** The least significant byte comes first, and all ones is minus one. */
  lemma LittleEndian(s: seq<Byte>)
    ensures ValueAt([0x78, 0x56, 0x34, 0x12] + s, 0) == 0x12345678
    ensures ValueAt([0xFF, 0xFF, 0xFF, 0xFF] + s, 0) == -1
    ensures ValueAt([0xFE, 0xFF, 0xFF, 0xFF] + s, 0) == -2
  {
  }

  /** Section 7 of RFC 3629. */
  lemma KnownCharacters()
    ensures EncodeChar(0x41) == [0x41] && EncodeChar(0x3A9) == [0xCE, 0xA9]
    ensures EncodeChar(0x2262) == [0xE2, 0x89, 0xA2] && EncodeChar(0x233B4) == [0xF0, 0xA3, 0x8E, 0xB4]
  {
  }
}
