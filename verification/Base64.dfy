/**
 Base64 (common-b64.c; section 4 of RFC 4648).
 */
module Base64 {
  import opened Bits

  /** Six bits. */
  type Digit = x: nat | x < 64

  const PAD: Byte := 61

  /** The alphabet. */
  function Letter(d: Digit): (c: Byte)
    ensures c != 0 && c != PAD && !IsSpace(c)
  {
    if d < 26 then 65 + d
    else if d < 52 then 97 + (d - 26)
    else if d < 62 then 48 + (d - 52)
    else if d == 62 then 43
    else 47
  }

  predicate IsSpace(c: Byte) {
    9 <= c <= 13 || c == 32
  }

  /** The reverse map: what a character stands for. */
  datatype Meaning = Value(d: Digit) | End | Space | Invalid

  function MeaningOf(c: Byte): Meaning {
    if c == 0 || c == PAD then End
    else if IsSpace(c) then Space
    else if 65 <= c <= 90 then Value(c - 65)
    else if 97 <= c <= 122 then Value(c - 97 + 26)
    else if 48 <= c <= 57 then Value(c - 48 + 52)
    else if c == 43 then Value(62)
    else if c == 47 then Value(63)
    else Invalid
  }

  lemma LetterMeaning(d: Digit)
    ensures MeaningOf(Letter(d)) == Value(d)
  {
  }

  lemma MeaningLetter(c: Byte)
    ensures MeaningOf(c).Value? ==> Letter(MeaningOf(c).d) == c
  {
  }

  /** `bson_b64_initialize_rmap`. */
  method MakeMap() returns (rmap: array<Meaning>)
    ensures MapOk(rmap[..])
  {
    rmap := new Meaning[256](_ => Invalid);
    rmap[0] := End;
    for i := 1 to 256
      invariant rmap[0] == End
      invariant forall c | 1 <= c < i :: rmap[c] == if IsSpace(c) then Space else if c == PAD then End else Invalid
    {
      if IsSpace(i) {
        rmap[i] := Space;
      } else if i == PAD {
        rmap[i] := End;
      } else {
        rmap[i] := Invalid;
      }
    }
    for d := 0 to 64
      invariant forall c: Byte :: rmap[c] == match MeaningOf(c)
                                             case Value(e) => if e < d then Value(e) else Invalid
                                             case _ => MeaningOf(c)
    {
      LetterMeaning(d);
      rmap[Letter(d)] := Value(d);
      forall c: Byte | MeaningOf(c) == Value(d) ensures c == Letter(d) { MeaningLetter(c); }
    }
  }

  // ------------------------------------------------------------ bytes and digits

  // The four digits of three bytes, and the three bytes of four digits.

  function D0(a: nat): Digit
    requires a < 256
  {
    a / 4
  }

  function D1(a: nat, b: nat): Digit
    requires b < 256
  {
    a % 4 * 16 + b / 16
  }

  function D2(b: nat, c: nat): Digit
    requires c < 256
  {
    b % 16 * 4 + c / 64
  }

  function D3(c: nat): Digit {
    c % 64
  }

  function B0(p: nat, q: nat): Byte
    requires p < 64 && q < 64
  {
    p * 4 + q / 16
  }

  function B1(q: nat, r: nat): Byte
    requires r < 64
  {
    q % 16 * 16 + r / 4
  }

  function B2(r: nat, s: nat): Byte
    requires s < 64
  {
    r % 4 * 64 + s
  }

  lemma DigitsOfBytes(a: Byte, b: Byte, c: Byte)
    ensures B0(D0(a), D1(a, b)) == a && B1(D1(a, b), D2(b, c)) == b && B2(D2(b, c), D3(c)) == c
  {
  }

  lemma LastDigits(a: Byte, b: Byte)
    ensures B1(D1(a, 0), 0) == 0 && B2(D2(b, 0), 0) == 0
  {
  }

  lemma BytesOfDigits(p: Digit, q: Digit, r: Digit, s: Digit)
    ensures D0(B0(p, q)) == p && D1(B0(p, q), B1(q, r)) == q && D2(B1(q, r), B2(r, s)) == r && D3(B2(r, s)) == s
  {
  }

  /** The digits of some bytes; a last digit that is not full ends in zeros. */
  function Digits(x: seq<Byte>): seq<Digit> {
    if |x| == 0 then []
    else if |x| == 1 then [D0(x[0]), D1(x[0], 0)]
    else if |x| == 2 then [D0(x[0]), D1(x[0], x[1]), D2(x[1], 0)]
    else [D0(x[0]), D1(x[0], x[1]), D2(x[1], x[2]), D3(x[2])] + Digits(x[3..])
  }

  /** The bytes that are complete. */
  function Bytes(d: seq<Digit>): seq<Byte> {
    if |d| <= 1 then []
    else if |d| == 2 then [B0(d[0], d[1])]
    else if |d| == 3 then [B0(d[0], d[1]), B1(d[1], d[2])]
    else [B0(d[0], d[1]), B1(d[1], d[2]), B2(d[2], d[3])] + Bytes(d[4..])
  }

  /** The bits after the last complete byte, as the start of a byte. */
  function Slack(d: seq<Digit>): Byte {
    if |d| == 0 then 0
    else if |d| == 1 then B0(d[0], 0)
    else if |d| == 2 then B1(d[1], 0)
    else if |d| == 3 then B2(d[2], 0)
    else Slack(d[4..])
  }

  lemma {:induction false} BytesSize(d: seq<Digit>)
    ensures |Bytes(d)| == |d| / 4 * 3 + (if |d| % 4 == 0 then 0 else |d| % 4 - 1)
    decreases |d|
  {
    hide B0, B1, B2;
    if |d| >= 4 { BytesSize(d[4..]); }
  }

  lemma {:induction false} DigitsBack(x: seq<Byte>)
    ensures Bytes(Digits(x)) == x && Slack(Digits(x)) == 0
    decreases |x|
  {
    hide B0, B1, B2, D0, D1, D2, D3;
    if |x| >= 3 {
      var d, r := Digits(x), Digits(x[3..]);
      DigitsBack(x[3..]);
      assert d[4..] == r;
      DigitsOfBytes(x[0], x[1], x[2]);
      assert x == [x[0], x[1], x[2]] + x[3..];
    } else if |x| == 2 {
      DigitsOfBytes(x[0], x[1], 0);
      LastDigits(x[0], x[1]);
    } else if |x| == 1 {
      DigitsOfBytes(x[0], 0, 0);
      LastDigits(x[0], 0);
    }
  }

  lemma {:induction false} DigitsSize(x: seq<Byte>)
    ensures |Digits(x)| % 4 == (if |x| % 3 == 0 then 0 else |x| % 3 + 1)
    decreases |x|
  {
    hide D0, D1, D2, D3;
    if |x| >= 3 { DigitsSize(x[3..]); }
  }

  lemma {:induction false} BytesBack(d: seq<Digit>)
    requires |d| % 4 != 1 && Slack(d) == 0
    ensures Digits(Bytes(d)) == d
    decreases |d|
  {
    hide B0, B1, B2, D0, D1, D2, D3;
    if |d| >= 4 {
      BytesBack(d[4..]);
      var x := Bytes(d);
      assert x[3..] == Bytes(d[4..]);
      BytesOfDigits(d[0], d[1], d[2], d[3]);
      assert d == [d[0], d[1], d[2], d[3]] + d[4..];
    } else if |d| == 3 {
      BytesOfDigits(d[0], d[1], d[2], 0);
    } else if |d| == 2 {
      BytesOfDigits(d[0], d[1], 0, 0);
    }
  }

  lemma JoinBits(p: Digit, q: Digit, r: Digit, s: Digit)
    ensures B0(p, 0) + q / 16 == B0(p, q) && B1(q, 0) + r / 4 == B1(q, r) && B2(r, 0) + s == B2(r, s)
  {
  }

  /** One digit more completes a byte with what it adds to the slack, or starts the next group. */
  ghost predicate Completes(d: seq<Digit>, e: Digit, x: nat, slack: Byte) {
    Slack(d) + x < 256 && Bytes(d + [e]) == Bytes(d) + [Slack(d) + x] && Slack(d + [e]) == slack
  }

  lemma {:induction false} OneMoreDigit(d: seq<Digit>, e: Digit)
    ensures |d| % 4 == 0 ==> Bytes(d + [e]) == Bytes(d) && Slack(d + [e]) == B0(e, 0)
    ensures |d| % 4 == 1 ==> Completes(d, e, e / 16, B1(e, 0))
    ensures |d| % 4 == 2 ==> Completes(d, e, e / 4, B2(e, 0))
    ensures |d| % 4 == 3 ==> Completes(d, e, e, 0)
    decreases |d|
  {
    hide B0, B1, B2, Completes, Bytes, Slack;
    if |d| >= 4 {
      OneMoreDigit(d[4..], e);
      if |d| % 4 == 0 {
        StartsBehind(d, e);
      } else if |d| % 4 == 1 {
        CompletesBehind(d, e, e / 16, B1(e, 0));
      } else if |d| % 4 == 2 {
        CompletesBehind(d, e, e / 4, B2(e, 0));
      } else {
        CompletesBehind(d, e, e, 0);
      }
    } else if |d| == 3 {
      Fourth(d[0], d[1], d[2], e);
      assert d == [d[0], d[1], d[2]];
    } else if |d| == 2 {
      Third(d[0], d[1], e);
      assert d == [d[0], d[1]];
    } else if |d| == 1 {
      Second(d[0], e);
      assert d == [d[0]];
    } else {
      First(e);
      assert d == [];
    }
  }

  /** The bytes of the first group. */
  function Head(d: seq<Digit>): (x: seq<Byte>)
    requires |d| >= 4
    ensures |x| == 3
  {
    [B0(d[0], d[1]), B1(d[1], d[2]), B2(d[2], d[3])]
  }

  lemma HeadFirst(d: seq<Digit>)
    requires |d| >= 4
    ensures Bytes(d) == Head(d) + Bytes(d[4..]) && Slack(d) == Slack(d[4..])
  {
    hide B0, B1, B2;
  }

  lemma Behind(d: seq<Digit>, e: Digit)
    requires |d| >= 4
    ensures (d + [e])[4..] == d[4..] + [e] && Head(d + [e]) == Head(d)
  {
    hide B0, B1, B2;
  }

  lemma StartsBehind(d: seq<Digit>, e: Digit)
    requires |d| >= 4 && Bytes(d[4..] + [e]) == Bytes(d[4..])
    ensures Bytes(d + [e]) == Bytes(d) && Slack(d + [e]) == Slack(d[4..] + [e])
  {
    hide Bytes, Slack, Head;
    Behind(d, e);
    HeadFirst(d);
    HeadFirst(d + [e]);
  }

  lemma CompletesBehind(d: seq<Digit>, e: Digit, x: nat, slack: Byte)
    requires |d| >= 4 && Completes(d[4..], e, x, slack)
    ensures Completes(d, e, x, slack)
  {
    hide Bytes, Slack, Head;
    Behind(d, e);
    HeadFirst(d);
    HeadFirst(d + [e]);
    assert Head(d) + (Bytes(d[4..]) + [Slack(d) + x]) == Head(d) + Bytes(d[4..]) + [Slack(d) + x];
  }

  lemma First(e: Digit)
    ensures Bytes([] + [e]) == Bytes([]) && Slack([] + [e]) == B0(e, 0)
  {
    hide B0, B1, B2;
    assert [] + [e] == [e];
  }

  lemma Second(p: Digit, e: Digit)
    ensures Completes([p], e, e / 16, B1(e, 0))
  {
    hide B0, B1, B2;
    assert [p] + [e] == [p, e];
    JoinBits(p, e, 0, 0);
  }

  lemma Third(p: Digit, q: Digit, e: Digit)
    ensures Completes([p, q], e, e / 4, B2(e, 0))
  {
    hide B0, B1, B2;
    assert [p, q] + [e] == [p, q, e];
    JoinBits(p, q, e, 0);
  }

  lemma Fourth(p: Digit, q: Digit, r: Digit, e: Digit)
    ensures Completes([p, q, r], e, e, 0)
  {
    hide B0, B1, B2;
    var d := [p, q, r, e];
    assert [p, q, r] + [e] == d && d[4..] == [];
    JoinBits(p, q, r, e);
    HeadFirst(d);
    assert Slack([]) == 0 && Bytes([]) == [];
    assert Bytes([p, q, r]) == [B0(p, q), B1(q, r)] && Slack([p, q, r]) == B2(r, 0);
  }

  // ------------------------------------------------------------ encoding

  function Letters(d: seq<Digit>): (s: seq<Byte>)
    ensures |s| == |d|
  {
    if d == [] then [] else [Letter(d[0])] + Letters(d[1..])
  }

  function Pads(n: nat): seq<Byte> {
    if n % 3 == 0 then [] else if n % 3 == 1 then [PAD, PAD] else [PAD]
  }

  /** The encoding of some bytes. */
  function Encode(x: seq<Byte>): seq<Byte> {
    Letters(Digits(x)) + Pads(|x|)
  }

  lemma {:induction false} LettersConcat(d: seq<Digit>, e: seq<Digit>)
    ensures Letters(d + e) == Letters(d) + Letters(e)
  {
    hide Letter;
    if d == [] {
      assert d + e == e;
    } else {
      assert (d + e)[1..] == d[1..] + e;
      LettersConcat(d[1..], e);
    }
  }

  /** The four letters of three bytes. */
  function Group(a: Byte, b: Byte, c: Byte): (s: seq<Byte>)
    ensures |s| == 4
  {
    [Letter(D0(a)), Letter(D1(a, b)), Letter(D2(b, c)), Letter(D3(c))]
  }

  lemma FourLetters(p: Digit, q: Digit, r: Digit, s: Digit)
    ensures Letters([p, q, r, s]) == [Letter(p), Letter(q), Letter(r), Letter(s)]
  {
    hide Letter;
    assert [p, q, r, s][1..] == [q, r, s] && [q, r, s][1..] == [r, s] && [r, s][1..] == [s] && [s][1..] == [];
    assert Letters([s]) == [Letter(s)] && Letters([r, s]) == [Letter(r), Letter(s)];
    assert Letters([q, r, s]) == [Letter(q), Letter(r), Letter(s)];
  }

  lemma EncodeMore(x: seq<Byte>)
    requires |x| >= 3
    ensures Encode(x) == Group(x[0], x[1], x[2]) + Encode(x[3..])
  {
    hide Letter, D0, D1, D2, D3, Letters;
    var g := [D0(x[0]), D1(x[0], x[1]), D2(x[1], x[2]), D3(x[2])];
    LettersConcat(g, Digits(x[3..]));
    FourLetters(g[0], g[1], g[2], g[3]);
    assert |x[3..]| % 3 == |x| % 3;
  }

  lemma {:induction false} EncodeSize(x: seq<Byte>)
    ensures |Encode(x)| == (|x| + 2) / 3 * 4
    decreases |x|
  {
    hide Letter, D0, D1, D2, D3, Group;
    if |x| >= 3 {
      EncodeMore(x);
      EncodeSize(x[3..]);
    }
  }

  /** `mcommon_b64_ntop_calculate_target_size`. */
  function NtopSize(n: nat): nat {
    4 * (((n * 8 + 5) / 6 + 3) / 4) + 1
  }

  /** The calculated size is exactly the encoding and its terminator. */
  lemma NtopSizeIs(x: seq<Byte>)
    ensures NtopSize(|x|) == |Encode(x)| + 1
  {
    hide Encode;
    EncodeSize(x);
    SizesAgree(|x|);
  }

  lemma SizesAgree(n: nat)
    ensures ((n * 8 + 5) / 6 + 3) / 4 == (n + 2) / 3
  {
    var q, r := n / 3, n % 3;
    assert n == 3 * q + r;
    assert (n * 8 + 5) / 6 == 4 * q + (8 * r + 5) / 6;
  }

  /** `mcommon_b64_ntop`: the encoding and a terminator, if there is room for both. */
  method Ntop(src: seq<Byte>, target: array<Byte>) returns (r: int)
    modifies target
    ensures r == if |Encode(src)| < target.Length then |Encode(src)| else -1
    ensures r >= 0 ==> target[..r] == Encode(src) && target[r] == 0
  {
    hide Letter, D0, D1, D2, D3, Encode, Group;
    var n, i := 0, 0;
    assert src[0..] == src;
    while |src| - i > 2
      invariant 0 <= i <= |src| && 0 <= n <= target.Length && target[..n] + Encode(src[i..]) == Encode(src)
    {
      var g := Group(src[i], src[i + 1], src[i + 2]);
      EncodeMore(src[i..]);
      assert src[i..][3..] == src[i + 3..];
      if n + 4 > target.Length { return -1; }
      ghost var t := target[..n];
      target[n], target[n + 1], target[n + 2], target[n + 3] := g[0], g[1], g[2], g[3];
      assert target[..n + 4] == t + g;
      n, i := n + 4, i + 3;
    }
    if i < |src| {
      var one := |src| - i == 1;
      var a, b := src[i], if one then 0 else src[i + 1];
      LastGroup(src[i..], a, b);
      if n + 4 > target.Length { return -1; }
      ghost var t := target[..n];
      target[n], target[n + 1] := Letter(D0(a)), Letter(D1(a, b));
      target[n + 2], target[n + 3] := if one then PAD else Letter(D2(b, 0)), PAD;
      assert target[..n + 4] == t + Encode(src[i..]);
      n := n + 4;
    } else {
      NothingEncoded(src[i..]);
    }
    if n >= target.Length { return -1; }
    target[n] := 0;
    r := n;
  }

  lemma NothingEncoded(x: seq<Byte>)
    requires x == []
    ensures Encode(x) == []
  {
  }

  lemma LastGroup(x: seq<Byte>, a: Byte, b: Byte)
    requires 1 <= |x| <= 2 && a == x[0] && b == if |x| == 1 then 0 else x[1]
    ensures Encode(x) == [Letter(D0(a)), Letter(D1(a, b)), if |x| == 1 then PAD else Letter(D2(b, 0)), PAD]
  {
    hide Letter, D0, D1, D2, D3;
    var p, q, r := D0(a), D1(a, b), D2(b, 0);
    assert [p, q, r][1..] == [q, r] && [q, r][1..] == [r] && [r][1..] == [] && [p, q][1..] == [q] && [q][1..] == [];
    assert Letters([r]) == [Letter(r)] && Letters([q]) == [Letter(q)] && Letters([q, r]) == [Letter(q), Letter(r)];
  }

  // ------------------------------------------------------------ what can be decoded

  function Strip(s: seq<Byte>): seq<Byte> {
    if s == [] then [] else (if IsSpace(s[0]) then [] else [s[0]]) + Strip(s[1..])
  }

  /** The digits up to the first character that is neither a digit nor a space. */
  function DigitsOf(s: seq<Byte>): seq<Digit> {
    if s == [] then []
    else match MeaningOf(s[0])
         case Value(d) => [d] + DigitsOf(s[1..])
         case Space => DigitsOf(s[1..])
         case _ => []
  }

  /** What follows them. */
  function AfterDigits(s: seq<Byte>): seq<Byte> {
    if s == [] then []
    else match MeaningOf(s[0])
         case Value(_) => AfterDigits(s[1..])
         case Space => AfterDigits(s[1..])
         case _ => s
  }

  /** A string in C: no zero byte. */
  ghost predicate IsString(s: seq<Byte>) {
    forall i | 0 <= i < |s| :: s[i] != 0
  }

  lemma SpaceMeaning(c: Byte)
    ensures MeaningOf(c) == Space <==> IsSpace(c)
  {
  }

  lemma {:induction false} StripSplit(s: seq<Byte>)
    ensures Strip(s) == Letters(DigitsOf(s)) + Strip(AfterDigits(s))
    ensures AfterDigits(s) != [] ==> !MeaningOf(AfterDigits(s)[0]).Value? && !MeaningOf(AfterDigits(s)[0]).Space?
    decreases |s|
  {
    hide MeaningOf, Letter, IsSpace, Letters;
    if s == [] {
      LettersNone();
    } else {
      SpaceMeaning(s[0]);
      StripSplit(s[1..]);
      if MeaningOf(s[0]).Value? {
        MeaningLetter(s[0]);
        LettersPush(MeaningOf(s[0]).d, DigitsOf(s[1..]), Strip(AfterDigits(s)));
      } else if MeaningOf(s[0]).Space? {
        assert Strip(s) == Strip(s[1..]);
      } else {
        LettersNone();
        assert Strip(s) == [] + Strip(s);
      }
    }
  }

  lemma LettersNone()
    ensures Letters([]) == []
  {
  }

  lemma LettersPush(d: Digit, e: seq<Digit>, t: seq<Byte>)
    ensures Letters([d] + e) + t == [Letter(d)] + (Letters(e) + t)
  {
    hide Letter;
    assert ([d] + e)[1..] == e;
  }

  /** The number of digits and the padding fit together. */
  ghost predicate Shaped(s: seq<Byte>) {
    var n, rest := |DigitsOf(s)|, Strip(AfterDigits(s));
    (n % 4 == 0 && rest == []) || (n % 4 == 2 && rest == [PAD, PAD]) || (n % 4 == 3 && rest == [PAD])
  }

  ghost predicate Accepted(s: seq<Byte>) {
    Shaped(s) && Slack(DigitsOf(s)) == 0
  }

  lemma {:induction false} SameLetters(d: seq<Digit>, p: seq<Byte>, e: seq<Digit>, q: seq<Byte>)
    requires Letters(d) + p == Letters(e) + q
    requires (p != [] ==> !MeaningOf(p[0]).Value?) && (q != [] ==> !MeaningOf(q[0]).Value?)
    ensures d == e && p == q
    decreases |d|
  {
    hide MeaningOf, Letter;
    if d == [] && e == [] {
      assert Letters(d) + p == p && Letters(e) + q == q;
    } else if d == [] {
      assert Letters(d) + p == p;
      assert p[0] == Letter(e[0]);
      LetterMeaning(e[0]);
    } else if e == [] {
      assert Letters(e) + q == q;
      assert q[0] == Letter(d[0]);
      LetterMeaning(d[0]);
    } else {
      assert (Letters(d) + p)[0] == Letter(d[0]) && (Letters(e) + q)[0] == Letter(e[0]);
      LetterMeaning(d[0]);
      LetterMeaning(e[0]);
      assert (Letters(d) + p)[1..] == Letters(d[1..]) + p && (Letters(e) + q)[1..] == Letters(e[1..]) + q;
      SameLetters(d[1..], p, e[1..], q);
      assert d == [d[0]] + d[1..] && e == [e[0]] + e[1..];
    }
  }

  /** Accepted are exactly the strings that, without their spaces, are encodings. */
  lemma AcceptedIsEncoded(s: seq<Byte>)
    ensures Accepted(s) ==> Strip(s) == Encode(Bytes(DigitsOf(s)))
    ensures forall x | Strip(s) == Encode(x) :: Accepted(s) && Bytes(DigitsOf(s)) == x
  {
    hide Strip, DigitsOf, AfterDigits, Bytes, Digits, Slack, Letters, MeaningOf;
    var d, rest := DigitsOf(s), Strip(AfterDigits(s));
    StripSplit(s);
    if Accepted(s) {
      BytesBack(d);
      DigitsSize(Bytes(d));
    }
    forall x | Strip(s) == Encode(x) ensures Accepted(s) && Bytes(d) == x {
      StripHead(AfterDigits(s));
      PadsHead(|x|);
      SameLetters(d, rest, Digits(x), Pads(|x|));
      DigitsBack(x);
      DigitsSize(x);
    }
  }

  lemma PadsHead(n: nat)
    ensures Pads(n) != [] ==> !MeaningOf(Pads(n)[0]).Value?
  {
  }

  lemma StripHead(s: seq<Byte>)
    requires s != [] ==> !MeaningOf(s[0]).Value? && !MeaningOf(s[0]).Space?
    ensures Strip(s) != [] ==> !MeaningOf(Strip(s)[0]).Value?
    ensures s != [] ==> Strip(s) == [s[0]] + Strip(s[1..])
  {
    hide MeaningOf, IsSpace;
    if s != [] { SpaceMeaning(s[0]); }
  }

  // ------------------------------------------------------------ decoding

  ghost predicate MapOk(rmap: seq<Meaning>) {
    |rmap| == 256 && forall c: Byte :: rmap[c] == MeaningOf(c)
  }

  /** The character at `i`, with the terminator behind the last one. */
  function At(src: seq<Byte>, i: nat): Byte {
    if i < |src| then src[i] else 0
  }

  lemma StripNext(src: seq<Byte>, i: nat)
    requires i < |src|
    ensures Strip(src[i..]) == (if IsSpace(src[i]) then [] else [src[i]]) + Strip(src[i + 1..])
  {
    hide IsSpace;
    assert src[i..][1..] == src[i + 1..];
  }

  /** Skip spaces. */
  method SkipSpaces(rmap: array<Meaning>, src: seq<Byte>, i0: nat) returns (i: nat)
    requires MapOk(rmap[..]) && IsString(src) && i0 <= |src|
    ensures i0 <= i <= |src| && Strip(src[i..]) == Strip(src[i0..])
    ensures i < |src| ==> Strip(src[i..]) == [src[i]] + Strip(src[i + 1..])
    ensures i == |src| ==> Strip(src[i..]) == []
  {
    hide MeaningOf, IsSpace;
    i := i0;
    while At(src, i) != 0
      invariant i0 <= i <= |src| && Strip(src[i..]) == Strip(src[i0..])
      decreases |src| - i
    {
      StripNext(src, i);
      SpaceMeaning(src[i]);
      assert rmap[..][src[i]] == MeaningOf(src[i]);
      if rmap[src[i]] != Space { return; }
      i := i + 1;
    }
  }

  /** What may follow `state` digits of a group. */
  ghost predicate Ends(state: nat, rest: seq<Byte>) {
    (state == 0 && rest == []) || (state == 2 && rest == [PAD, PAD]) || (state == 3 && rest == [PAD])
  }

  /** The end of the string after the digits: padding and nothing else but spaces. */
  method PadsFit(rmap: array<Meaning>, src: seq<Byte>, i0: nat, state: nat) returns (ok: bool)
    requires MapOk(rmap[..]) && IsString(src) && i0 <= |src| && state < 4 && (i0 < |src| ==> src[i0] == PAD)
    ensures ok <==> Ends(state, Strip(src[i0..]))
  {
    hide MeaningOf, MapOk, Strip;
    if At(src, i0) != PAD {
      assert Strip(src[i0..]) == [] by { NothingToStrip(src[i0..]); }
      return state == 0;
    }
    StripNext(src, i0);
    var i := i0 + 1;
    if state <= 1 { return false; }
    ghost var rest := Strip(src[i..]);
    assert Strip(src[i0..]) == [PAD] + rest;
    if state == 2 {
      i := SkipSpaces(rmap, src, i);
      assert i < |src| ==> rest[0] == src[i];
      assert ([PAD] + rest)[1..] == rest;
      if At(src, i) != PAD { return false; }
      i := i + 1;
    }
    i := SkipSpaces(rmap, src, i);
    ok := i == |src|;
  }

  lemma NothingToStrip(s: seq<Byte>)
    requires s == []
    ensures Strip(s) == []
  {
  }

  /** How much room the decoder asks for to take `n` digits. */
  function Needed(n: nat): nat {
    n / 4 * 3 + n % 4
  }

  /** The target holds the complete bytes, and the bits of the next one. */
  ghost predicate Written(target: seq<Byte>, tarindex: nat, state: nat, d: seq<Digit>) {
    && state == |d| % 4 && tarindex == |Bytes(d)| <= |target| && target[..tarindex] == Bytes(d)
    && (state != 0 ==> tarindex < |target| && target[tarindex] == Slack(d))
  }

  /** The states of the decoder: put one digit into the target, if there is room. */
  method PutDigit(target: array<Byte>, tarindex: nat, state: nat, e: Digit, ghost d: seq<Digit>) returns (ok: bool, tarindex': nat, state': nat)
    requires Written(target[..], tarindex, state, d)
    modifies target
    ensures ok <==> target.Length >= Needed(|d| + 1)
    ensures ok ==> Written(target[..], tarindex', state', d + [e])
  {
    hide Bytes, Slack, B0, B1, B2;
    BytesSize(d);
    OneMoreDigit(d, e);
    ghost var b := Bytes(d);
    ok, tarindex', state' := false, tarindex, state;
    if state == 0 {
      if tarindex >= target.Length { return; }
      target[tarindex] := B0(e, 0);
      assert target[..tarindex] == b;
      return true, tarindex, 1;
    } else if state == 1 {
      if tarindex + 1 >= target.Length { return; }
      target[tarindex] := target[tarindex] + e / 16;
      target[tarindex + 1] := B1(e, 0);
      assert target[..tarindex + 1] == b + [target[tarindex]];
      return true, tarindex + 1, 2;
    } else if state == 2 {
      if tarindex + 1 >= target.Length { return; }
      target[tarindex] := target[tarindex] + e / 4;
      target[tarindex + 1] := B2(e, 0);
      assert target[..tarindex + 1] == b + [target[tarindex]];
      return true, tarindex + 1, 3;
    } else {
      if tarindex >= target.Length { return; }
      target[tarindex] := target[tarindex] + e;
      assert target[..tarindex + 1] == b + [target[tarindex]];
      return true, tarindex + 1, 0;
    }
  }

  lemma ScanNext(src: seq<Byte>, i: nat)
    requires i < |src|
    ensures MeaningOf(src[i]).Value? ==> DigitsOf(src[i..]) == [MeaningOf(src[i]).d] + DigitsOf(src[i + 1..])
    ensures MeaningOf(src[i]).Space? ==> DigitsOf(src[i..]) == DigitsOf(src[i + 1..])
    ensures MeaningOf(src[i]).Value? || MeaningOf(src[i]).Space? ==> AfterDigits(src[i..]) == AfterDigits(src[i + 1..])
    ensures !MeaningOf(src[i]).Value? && !MeaningOf(src[i]).Space? ==> DigitsOf(src[i..]) == [] && AfterDigits(src[i..]) == src[i..]
  {
    hide MeaningOf;
    assert src[i..][1..] == src[i + 1..];
  }

  /** The scan of `src` has come to `i` with the digits `d`. */
  ghost predicate Scanned(src: seq<Byte>, i: nat, d: seq<Digit>) {
    i <= |src| && DigitsOf(src) == d + DigitsOf(src[i..]) && AfterDigits(src) == AfterDigits(src[i..])
  }

  lemma ScanStart(src: seq<Byte>)
    ensures Scanned(src, 0, [])
  {
    assert src[0..] == src;
  }

  lemma ScanDigit(src: seq<Byte>, i: nat, d: seq<Digit>)
    requires Scanned(src, i, d) && i < |src| && MeaningOf(src[i]).Value?
    ensures Scanned(src, i + 1, d + [MeaningOf(src[i]).d]) && |DigitsOf(src)| > |d|
  {
    hide MeaningOf, DigitsOf, AfterDigits;
    ScanNext(src, i);
    assert d + ([MeaningOf(src[i]).d] + DigitsOf(src[i + 1..])) == d + [MeaningOf(src[i]).d] + DigitsOf(src[i + 1..]);
  }

  lemma ScanSpace(src: seq<Byte>, i: nat, d: seq<Digit>)
    requires Scanned(src, i, d) && i < |src| && MeaningOf(src[i]).Space?
    ensures Scanned(src, i + 1, d)
  {
    hide MeaningOf, DigitsOf, AfterDigits;
    ScanNext(src, i);
  }

  lemma ScanEnd(src: seq<Byte>, i: nat, d: seq<Digit>)
    requires Scanned(src, i, d) && (i == |src| || (!MeaningOf(src[i]).Value? && !MeaningOf(src[i]).Space?))
    ensures DigitsOf(src) == d && AfterDigits(src) == src[i..]
  {
    hide MeaningOf;
    if i < |src| { ScanNext(src, i); }
    assert d + [] == d;
  }

  lemma BadCharacter(src: seq<Byte>, i: nat, d: seq<Digit>)
    requires Scanned(src, i, d) && i < |src| && MeaningOf(src[i]).Invalid?
    ensures !Shaped(src)
  {
    hide DigitsOf, AfterDigits, Strip, MeaningOf;
    ScanEnd(src, i, d);
    SpaceMeaning(src[i]);
    EndCharacter(src[i]);
    StripNext(src, i);
    assert Strip(AfterDigits(src))[0] == src[i];
  }

  lemma EndCharacter(c: Byte)
    ensures MeaningOf(c).End? <==> c == 0 || c == PAD
  {
  }

  lemma NoSlack(d: seq<Digit>)
    requires |d| % 4 == 0
    ensures Slack(d) == 0
    decreases |d|
  {
    hide B0, B1, B2;
    if |d| >= 4 { NoSlack(d[4..]); }
  }

  lemma NeededMono(m: nat, n: nat)
    requires m <= n
    ensures Needed(m) <= Needed(n)
  {
  }

  /** Read the digits of `src` into the target. */
  method ReadDigits(rmap: array<Meaning>, src: seq<Byte>, target: array<Byte>)
    returns (ok: bool, i: nat, tarindex: nat, state: nat)
    requires MapOk(rmap[..]) && IsString(src)
    modifies target
    ensures ok ==> i <= |src| && (i < |src| ==> src[i] == PAD) && AfterDigits(src) == src[i..]
                   && Written(target[..], tarindex, state, DigitsOf(src)) && target.Length >= Needed(|DigitsOf(src)|)
    ensures !ok ==> !Shaped(src) || target.Length < Needed(|DigitsOf(src)|)
  {
    hide MeaningOf, MapOk, Scanned, Shaped, Written, DigitsOf, AfterDigits, Needed;
    i, tarindex, state := 0, 0, 0;
    ghost var d: seq<Digit> := [];
    ScanStart(src);
    NothingWritten(target[..]);
    while true
      invariant i <= |src| && Scanned(src, i, d) && Written(target[..], tarindex, state, d) && target.Length >= Needed(|d|)
      decreases |src| - i
    {
      var ch := At(src, i);
      EndCharacter(ch);
      assert rmap[ch] == MeaningOf(ch) by { MapAt(rmap[..], ch); }
      match rmap[ch]
      case Space =>
        ScanSpace(src, i, d);
        i := i + 1;
      case End =>
        ScanEnd(src, i, d);
        ok := true;
        return;
      case Invalid =>
        BadCharacter(src, i, d);
        ok := false;
        return;
      case Value(e) =>
        ScanDigit(src, i, d);
        ok, tarindex, state := PutDigit(target, tarindex, state, e, d);
        if !ok {
          NeededMono(|d| + 1, |DigitsOf(src)|);
          return;
        }
        d := d + [e];
        i := i + 1;
    }
  }

  lemma MapAt(rmap: seq<Meaning>, c: Byte)
    requires MapOk(rmap)
    ensures |rmap| == 256 && rmap[c] == MeaningOf(c)
  {
  }

  lemma NothingWritten(t: seq<Byte>)
    ensures Written(t, 0, 0, []) && |t| >= Needed(0)
  {
  }

  /**
   `mongoc_b64_pton_do`: succeeds exactly if the string without its spaces is an encoding and
   the target has room for its digits, and then the target holds what is encoded.
   */
  method PtonDo(rmap: array<Meaning>, src: seq<Byte>, target: array<Byte>) returns (r: int)
    requires MapOk(rmap[..]) && IsString(src)
    modifies target
    ensures r == -1 || r >= 0
    ensures r >= 0 <==> Accepted(src) && target.Length >= Needed(|DigitsOf(src)|)
    ensures r >= 0 ==> r == |Bytes(DigitsOf(src))| <= target.Length && target[..r] == Bytes(DigitsOf(src))
  {
    hide MeaningOf, MapOk, DigitsOf, AfterDigits, Needed, Strip, Bytes, Slack;
    var ok, i, tarindex, state := ReadDigits(rmap, src, target);
    if !ok { return -1; }
    ok := PadsFit(rmap, src, i, state);
    if !ok { return -1; }
    if state != 0 {
      if target[tarindex] != 0 { return -1; }
    } else {
      NoSlack(DigitsOf(src));
    }
    r := tarindex;
  }

  /** `mongoc_b64_pton_len`: the same without a target, and without looking at the bits left over. */
  method PtonLen(rmap: array<Meaning>, src: seq<Byte>) returns (r: int)
    requires MapOk(rmap[..]) && IsString(src)
    ensures r == if Shaped(src) then |Bytes(DigitsOf(src))| else -1
  {
    hide MeaningOf, MapOk, Scanned, DigitsOf, AfterDigits, Strip, Bytes;
    var i, tarindex, state := 0, 0, 0;
    ghost var d: seq<Digit> := [];
    ScanStart(src);
    assert |Bytes([])| == 0 by { BytesSize([]); }
    while true
      invariant 0 <= i <= |src| && Scanned(src, i, d) && state == |d| % 4 && tarindex == |Bytes(d)|
      decreases |src| - i
    {
      var ch := At(src, i);
      EndCharacter(ch);
      assert rmap[ch] == MeaningOf(ch) by { MapAt(rmap[..], ch); }
      match rmap[ch]
      case Space =>
        ScanSpace(src, i, d);
        i := i + 1;
      case End =>
        ScanEnd(src, i, d);
        break;
      case Invalid =>
        BadCharacter(src, i, d);
        return -1;
      case Value(e) =>
        ScanDigit(src, i, d);
        BytesSize(d);
        BytesSize(d + [e]);
        if state == 0 {
          state := 1;
        } else {
          tarindex := tarindex + 1;
          state := if state == 3 then 0 else state + 1;
        }
        d := d + [e];
        i := i + 1;
    }
    var ok := PadsFit(rmap, src, i, state);
    r := if ok then tarindex else -1;
  }

  /** `mcommon_b64_pton_calculate_target_size`. */
  function PtonSize(n: nat): nat {
    n * 6 / 8
  }

  lemma {:induction false} StripShorter(s: seq<Byte>)
    ensures |Strip(s)| <= |s|
  {
    hide IsSpace;
    if s != [] { StripShorter(s[1..]); }
  }

  /** The calculated size is enough for every string that can be decoded. */
  lemma PtonSizeSuffices(s: seq<Byte>)
    requires Shaped(s)
    ensures PtonSize(|s|) >= Needed(|DigitsOf(s)|)
  {
    hide Strip, DigitsOf, AfterDigits, Letters;
    StripShorter(s);
    StripSplit(s);
  }

  lemma {:induction false} StripLetters(d: seq<Digit>, p: seq<Byte>)
    ensures Strip(Letters(d) + p) == Letters(d) + Strip(p)
  {
    hide Letter, IsSpace;
    if d == [] {
      assert Letters(d) + p == p;
    } else {
      assert (Letters(d) + p)[1..] == Letters(d[1..]) + p;
      StripLetters(d[1..], p);
    }
  }

  lemma StripPads(n: nat)
    ensures Strip(Pads(n)) == Pads(n)
  {
    assert [PAD, PAD][1..] == [PAD] && [PAD][1..] == [];
    assert Strip([PAD]) == [PAD];
  }

  /** What was encoded is decoded. */
  lemma RoundTrip(x: seq<Byte>)
    ensures Accepted(Encode(x)) && Bytes(DigitsOf(Encode(x))) == x
  {
    hide Strip, DigitsOf, Bytes, Digits, Letters, Pads, Accepted;
    StripLetters(Digits(x), Pads(|x|));
    StripPads(|x|);
    AcceptedIsEncoded(Encode(x));
  }

  // ------------------------------------------------------------ known values

  const ALPHABET: string := "ABCDEFGHIJKLMNOPQRSTUVWXYZ" + "abcdefghijklmnopqrstuvwxyz" + "0123456789+/"

  /** The letters are those of the alphabet, in its order. */
  lemma AlphabetIs(d: Digit)
    ensures |ALPHABET| == 64 && Letter(d) == ALPHABET[d] as int
  {
    var upper, lower, others := "ABCDEFGHIJKLMNOPQRSTUVWXYZ", "abcdefghijklmnopqrstuvwxyz", "0123456789+/";
    assert ALPHABET == upper + lower + others;
    assert |upper| == |lower| == 26;
    if d < 26 {
      assert upper[d] as int == Letter(d);
    } else if d < 52 {
      assert lower[d - 26] as int == Letter(d);
    } else {
      assert others[d - 52] as int == Letter(d);
    }
  }

  function Codes(s: string): (r: seq<int>)
    ensures |r| == |s|
  {
    seq(|s|, i requires 0 <= i < |s| => s[i] as int)
  }

  /** Section 10 of RFC 4648. */
  lemma KnownEncodings()
    ensures Encode([]) == Codes("")
    ensures Encode([0x66]) == Codes("Zg==")
    ensures Encode([0x66, 0x6f]) == Codes("Zm8=")
    ensures Encode([0x66, 0x6f, 0x6f]) == Codes("Zm9v")
  {
    hide Letter, D0, D1, D2, D3, Letters;
    FooDigits();
    FooLetters();
    var x: seq<Byte> := [0x66, 0x6f, 0x6f];
    EncodeMore(x);
    assert x[3..] == [] && Letters([]) == [] by { NoLetters(); }
  }

  lemma NoLetters()
    ensures Letters([]) == []
  {
  }

  lemma FooDigits()
    ensures Digits([]) == [] && Digits([0x66]) == [25, 32] && Digits([0x66, 0x6f]) == [25, 38, 60]
    ensures D0(0x66) == 25 && D1(0x66, 0x6f) == 38 && D2(0x6f, 0x6f) == 61 && D3(0x6f) == 47
  {
  }

  lemma FooLetters()
    ensures Letters([25, 32]) == Codes("Zg") && Letters([25, 38, 60]) == Codes("Zm8")
    ensures [Letter(25), Letter(38), Letter(61), Letter(47)] == Codes("Zm9v")
  {
  }
}
