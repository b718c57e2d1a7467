/**
 The bit buffer of `deflate` (trees.c, `send_bits`, `bi_flush`, `bi_windup`).  `Bits` is all
 that was sent, in order; sixteen bits at most wait in `biBuf`, an unsigned short.
 */
module BitOutput {
  import opened Bits

  const BUF_SIZE := 16

  /** The value that C keeps in an unsigned short. */
  function Short(x: nat): (r: nat)
    ensures r < 0x1_0000
  {
    x % 0x1_0000
  }

  lemma Powers()
    ensures Pow2(8) == 256 && Pow2(16) == 0x1_0000
  {
    assert Pow2(8) == 256 && Pow2(16) == 0x1_0000;
  }

  lemma ShortIsLow(x: nat)
    ensures Short(x) == Low(x, 16)
  {
    Powers();
    LowMod(x, 16);
  }

  /** Adding `value` above the `valid` bits of `buf`. */
  lemma Joined(buf: nat, valid: nat, value: nat, length: nat)
    requires buf < Pow2(valid) && value < Pow2(length)
    ensures ToBits(buf + Pow2(valid) * value, valid + length) == ToBits(buf, valid) + ToBits(value, length)
    ensures buf + Pow2(valid) * value < Pow2(valid + length)
  {
    hide Low, Shr, ToBits;
    var x := buf + Pow2(valid) * value;
    SplitUnique(buf, value, valid);
    ToBitsSplit(x, valid, length);
    ToBitsLow(x, valid);
    LowSmall(value, length);
    LowAdd(x, valid, length);
  }

  /** Sixteen bits of `x` go out, and the others stay. */
  lemma SixteenOut(x: nat, n: nat)
    ensures ToBits(Short(x), 16) + ToBits(Shr(x, 16), n) == ToBits(x, 16 + n)
  {
    hide Low, Shr, ToBits, Short;
    ToBitsSplit(x, 16, n);
    ToBitsLow(x, 16);
    ShortIsLow(x);
  }

  /** What lies above the first sixteen bits is the end of `value`. */
  lemma EndStays(buf: nat, valid: nat, value: nat)
    requires buf < Pow2(valid) && valid <= 16
    ensures Shr(buf + Pow2(valid) * value, 16) == Shr(value, 16 - valid)
  {
    hide Low, Shr, Pow2;
    SplitUnique(buf, value, valid);
    ShrShr(buf + Pow2(valid) * value, valid, 16 - valid);
  }

  /** The first sixteen bits go out, the rest of `value` stays. */
  lemma Overflowed(buf: nat, valid: nat, value: nat, length: nat)
    requires buf < Pow2(valid) && value < Pow2(length) && valid <= 16 < valid + length
    ensures var x := buf + Pow2(valid) * value;
            && ToBits(Short(x), 16) + ToBits(Shr(value, 16 - valid), valid + length - 16) == ToBits(buf, valid) + ToBits(value, length)
            && Shr(value, 16 - valid) < Pow2(valid + length - 16)
  {
    hide Low, Shr, ToBits, Short, Pow2;
    var x := buf + Pow2(valid) * value;
    Joined(buf, valid, value, length);
    SixteenOut(x, valid + length - 16);
    EndStays(buf, valid, value);
    ShrBound(value, 16 - valid, length);
  }

  lemma ShrBound(x: nat, m: nat, n: nat)
    requires x < Pow2(n) && m <= n
    ensures Shr(x, m) < Pow2(n - m)
  {
    hide Low, Shr;
    LowAdd(x, m, n - m);
    LowSmall(x, n);
  }

  /** An unsigned short as two bytes, the low one first. */
  lemma TwoBytes(x: nat)
    requires x < 0x1_0000
    ensures x % 256 < 256 && x / 256 < 256
    ensures BytesToBits([x % 256, x / 256]) == ToBits(x, 16)
  {
    hide ToBits, Low, Shr;
    assert Pow2(8) == 256;
    LowMod(x, 8);
    ToBitsSplit(x, 8, 8);
    ToBitsLow(x, 8);
    BytesOfTwo(x % 256, x / 256);
  }

  lemma BytesOfTwo(a: Byte, b: Byte)
    ensures BytesToBits([a, b]) == ToBits(a, 8) + ToBits(b, 8)
  {
    hide ToBits;
    assert [a, b][1..] == [b] && [b][1..] == [];
    assert ToBits(b, 8) + [] == ToBits(b, 8);
  }

  lemma OneByte(a: Byte)
    ensures BytesToBits([a]) == ToBits(a, 8)
  {
    hide ToBits;
    assert [a][1..] == [];
    assert ToBits(a, 8) + [] == ToBits(a, 8);
  }

  lemma Regroup(s: seq<bool>, a: seq<bool>, b: seq<bool>, c: seq<bool>, d: seq<bool>)
    requires a + b == c + d
    ensures s + a + b == s + c + d && s + [] == s
  {
    assert s + a + b == s + (a + b);
    assert s + c + d == s + (c + d);
  }

  class BitWriter {
    /** The bytes that the caller has got, and those that wait for room in the caller's buffer. */
    var out: seq<Byte>
    var pending: seq<Byte>
    var biBuf: nat
    var biValid: nat

    constructor ()
      ensures Valid() && Bits() == [] && out == pending == [] && biValid == 0
    {
      out, pending, biBuf, biValid := [], [], 0, 0;
    }

    ghost predicate Valid()
      reads this
    {
      biValid <= BUF_SIZE && biBuf < Pow2(biValid)
    }

    /** All that was sent. */
    ghost function Bits(): (s: seq<bool>)
      reads this
      ensures |s| == 8 * |out + pending| + biValid
    {
      BytesToBits(out + pending) + ToBits(biBuf, biValid)
    }

    /** The number of bits that the caller has not got yet. */
    ghost function Held(): (r: nat)
      reads this
      ensures Valid() ==> r <= 8 * |pending| + BUF_SIZE
    {
      8 * |pending| + biValid
    }

    /** `put_short`. */
    method PutShort(x: nat)
      requires x < 0x1_0000
      modifies `pending
      ensures BytesToBits(out + pending) == old(BytesToBits(out + pending)) + ToBits(x, 16)
      ensures pending == old(pending) + [x % 256, x / 256]
    {
      hide ToBits;
      TwoBytes(x);
      BytesToBitsConcat(out + pending, [x % 256, x / 256]);
      Behind(out, pending, [x % 256, x / 256]);
      pending := pending + [x % 256, x / 256];
    }

    /** `put_byte`. */
    method PutByte(x: Byte)
      modifies `pending
      ensures BytesToBits(out + pending) == old(BytesToBits(out + pending)) + ToBits(x, 8) 
    {
      hide ToBits;
      OneByte(x);
      BytesToBitsConcat(out + pending, [x]);
      Behind(out, pending, [x]);
      pending := pending + [x];
    }

    /** `send_bits`. */
    method SendBits(value: nat, length: nat)
      requires Valid() && length <= 16 && value < Pow2(length)
      modifies `pending, `biBuf, `biValid
      ensures Valid() && Bits() == old(Bits()) + ToBits(value, length)
    {
      hide ToBits, BytesToBits, Pow2, Short, Shr;
      ghost var s := BytesToBits(out + pending);
      var x := biBuf + Pow2(biValid) * value;
      if biValid > BUF_SIZE - length {
        Overflowed(biBuf, biValid, value, length);
        Regroup(s, ToBits(biBuf, biValid), ToBits(value, length), ToBits(Short(x), 16),
                ToBits(Shr(value, 16 - biValid), biValid + length - 16));
        PutShort(Short(x));
        biBuf := Shr(value, BUF_SIZE - biValid);
        biValid := biValid + length - BUF_SIZE;
      } else {
        Joined(biBuf, biValid, value, length);
        Regroup(s, ToBits(biBuf, biValid), ToBits(value, length), [], ToBits(x, biValid + length));
        biBuf := x;
        biValid := biValid + length;
      }
    }

    /** `bi_flush`: at most seven bits stay in the buffer. */
    method BiFlush()
      requires Valid()
      modifies `pending, `biBuf, `biValid
      ensures Valid() && Bits() == old(Bits()) && biValid < 8 && biValid <= old(biValid)
      ensures old(biValid) < 8 ==> biValid == old(biValid) && pending == old(pending)
    {
      hide ToBits, BytesToBits, Pow2, Shr, Low;
      if biValid == 16 {
        SixteenBits(biBuf);
        PutShort(biBuf);
        biBuf, biValid := 0, 0;
      } else if biValid >= 8 {
        EightBits(biBuf, biValid);
        PutByte(biBuf % 256);
        biBuf, biValid := Shr(biBuf, 8), biValid - 8;
      }
    }

    /** `bi_windup`: fill up with zero bits to a whole byte. */
    method BiWindup()
      requires Valid()
      modifies `pending, `biBuf, `biValid
      ensures Valid() && biValid == 0
      ensures Bits() == old(Bits()) + ToBits(0, Padding(old(|Bits()|)))
    {
      hide ToBits, BytesToBits, Pow2, Low;
      PaddingOf(|out + pending|, biValid);
      if biValid > 8 {
        Padded(biBuf, biValid, 16);
        PutShort(biBuf);
      } else if biValid > 0 {
        Padded(biBuf, biValid, 8);
        PutByte(biBuf);
      } else {
        Padded(0, 0, 0);
      }
      biBuf, biValid := 0, 0;
      NoBits();
    }

    /** The length of a stored block, its complement, and the bytes, at a byte boundary. */
    method PutStored(buf: seq<Byte>)
      requires Valid() && biValid == 0 && |buf| < 0x1_0000
      modifies `pending
      ensures Valid() && biValid == 0
      ensures Bits() == old(Bits()) + ToBits(|buf|, 16) + ToBits(65535 - |buf| % 65536, 16) + BytesToBits(buf)
      ensures buf == [] ==> pending == old(pending) + [0, 0, 255, 255]
    {
      hide ToBits, BytesToBits, Pow2;
      NoBits();
      NoBitsMore(biBuf, BytesToBits(out + pending));
      PutShort(|buf|);
      PutShort(65535 - |buf|);
      BytesToBitsConcat(out + pending, buf);
      Behind(out, pending, buf);
      pending := pending + buf;
      NoBitsMore(biBuf, BytesToBits(out + pending));
    }

    /** `flush_pending`: hand out as much as there is room for. */
    method FlushPending(availOut: nat) returns (left: nat)
      requires Valid()
      modifies this
      ensures Valid() && Bits() == old(Bits()) && left <= availOut && biValid < 8 && biValid <= old(biValid)
      ensures left > 0 ==> pending == []
      ensures old(out) <= out && |out| - old(|out|) == availOut - left
      ensures old(biValid) < 8 ==> biValid == old(biValid) && out + pending == old(out + pending)
      ensures old(biValid) < 8 ==> left == if old(|pending|) > availOut then 0 else availOut - old(|pending|)
    {
      hide ToBits, BytesToBits, Pow2;
      BiFlush();
      var len := if |pending| > availOut then availOut else |pending|;
      assert out + pending == out + pending[..len] + pending[len..];
      out, pending := out + pending[..len], pending[len..];
      left := availOut - len;
    }
  }

  lemma Behind(a: seq<Byte>, b: seq<Byte>, c: seq<Byte>)
    ensures a + (b + c) == a + b + c
  {
  }

  /** How many bits are missing to a whole byte. */
  function Padding(n: nat): (r: nat)
    ensures r < 8
  {
    (8 - n % 8) % 8
  }

  lemma PaddingOf(bytes: nat, valid: nat)
    requires valid <= 16
    ensures Padding(8 * bytes + valid) == if valid > 8 then 16 - valid else if valid > 0 then 8 - valid else 0
  {
  }

  lemma NoBits()
    ensures ToBits(0, 0) == [] && Pow2(0) == 1
  {
  }

  lemma NoBitsMore(x: nat, s: seq<bool>)
    ensures s + ToBits(x, 0) == s
  {
  }

  lemma SixteenBits(x: nat)
    requires x < Pow2(16)
    ensures x < 0x1_0000 && ToBits(0, 0) == [] && Pow2(0) == 1
  {
    Powers();
  }

  lemma EightBits(x: nat, n: nat)
    requires x < Pow2(n) && n >= 8
    ensures x % 256 < 256 && Shr(x, 8) < Pow2(n - 8)
    ensures ToBits(x % 256, 8) + ToBits(Shr(x, 8), n - 8) == ToBits(x, n)
  {
    hide ToBits, Low, Shr;
    assert Pow2(8) == 256;
    LowMod(x, 8);
    ToBitsSplit(x, 8, n - 8);
    ToBitsLow(x, 8);
    ShrBound(x, 8, n);
  }

  lemma Padded(x: nat, n: nat, m: nat)
    requires x < Pow2(n) && n <= m && (m == 16 || m == 8 || m == 0)
    ensures ToBits(x, m) == ToBits(x, n) + ToBits(0, m - n)
    ensures m == 16 ==> x < 0x1_0000
    ensures m == 8 ==> x < 256
  {
    hide ToBits, Low, Shr;
    Pow2Mono(n, m);
    Powers();
    ToBitsSplit(x, n, m - n);
    LowSmall(x, n);
  }
}
