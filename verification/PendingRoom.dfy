/**
 Room in `pending_buf` (deflate.c, `deflateInit2_`).  The symbols of a block lie in the same
 memory, from the first quarter on: what `compress_block` writes has to stay behind what it has
 yet to read, and the whole block has to end within the buffer.
 */
module PendingRoom {
  import opened Bits
  import opened CanonicalCode
  import opened InflateSpec
  import opened TreeOutput
  import opened BlockData
  import opened BlockMeaning

  /** With the fixed codes a symbol takes 31 bits at most. */
  lemma FixedTokenSize(k: Trees, t: Token)
    requires TokenHasWords(k, FixedCodes(), t) && TokenSendable(k, t)
    ensures |TokenBits(k, t)| <= 31
  {
    hide Rev, Code, ToBits, Pow2, LengthCode, DistCode, LengthExtra, DistExtra, ExtraLength, ExtraDist, Sendable;
    if t.Copy? {
      LengthAgrees(t.length - 3);
      DistAgrees(t.dist - 1);
    }
  }

  lemma {:induction false} FixedSize(k: Trees, ts: seq<Token>)
    requires AllHaveWords(k, FixedCodes(), ts) && AllTokensSendable(k, ts)
    ensures |TokensBits(k, ts)| <= 31 * |ts|
  {
    hide TokenHasWords, TokenSendable, TokenBits, FixedCodes;
    if ts != [] {
      FixedSize(k, ts[..|ts| - 1]);
      FixedTokenSize(k, ts[|ts| - 1]);
    }
  }

  /** `size` bytes are pending at most, after `held` bits and those of `ts`. */
  ghost predicate SizeAt(k: Trees, ts: seq<Token>, held: nat, size: nat) {
    AllTokensSendable(k, ts) && 8 * size <= held + |TokensBits(k, ts)|
  }

  /** `sizes` are numbers of bytes pending after each of the symbols. */
  ghost predicate SizesFrom(k: Trees, ts: seq<Token>, held: nat, sizes: seq<nat>) {
    |sizes| <= |ts| && forall j | 0 <= j < |sizes| :: SizeAt(k, ts[..j + 1], held, sizes[j])
  }

  lemma SizesMore(k: Trees, ts: seq<Token>, held: nat, sizes: seq<nat>, size: nat)
    requires SizesFrom(k, ts, held, sizes) && |sizes| < |ts| && SizeAt(k, ts[..|sizes| + 1], held, size)
    ensures SizesFrom(k, ts, held, sizes + [size])
  {
    hide SizeAt;
    var r := sizes + [size];
    forall j | 0 <= j < |r| ensures SizeAt(k, ts[..j + 1], held, r[j]) {
      assert j < |sizes| ==> r[j] == sizes[j];
    }
  }

  /** The symbols from the place `sx == 3 * (j + 1)` of the buffer on are not yet overwritten. */
  ghost predicate Clear(sizes: seq<nat>, litBufsize: nat) {
    forall j | 0 <= j < |sizes| :: sizes[j] < litBufsize + 3 * (j + 1)
  }

  /** The output of a block with the fixed codes never reaches a symbol that is yet to be sent. */
  lemma FixedClear(k: Trees, ts: seq<Token>, held: nat, sizes: seq<nat>, litBufsize: nat)
    requires ReadyToSend(k, FixedCodes(), ts) && SizesFrom(k, ts, held, sizes)
    requires held <= 19 && 128 <= litBufsize && |ts| < litBufsize
    ensures Clear(sizes, litBufsize)
  {
    hide TokenHasWords, TokenSendable, TokensBits, FixedCodes, HasWord, Sendable;
    forall j | 0 <= j < |sizes| ensures sizes[j] < litBufsize + 3 * (j + 1) {
      assert SizeAt(k, ts[..j + 1], held, sizes[j]);
      FixedSize(k, ts[..j + 1]);
    }
  }

  lemma FixedBlockSize(k: Trees, ts: seq<Token>, last: bool)
    requires ReadyToSend(k, FixedCodes(), ts)
    ensures |StaticBits(k, ts, last)| <= 31 * |ts| + 10
  {
    hide Rev, Code, ToBits, Pow2, TokenHasWords, TokenSendable, TokensBits, Sendable;
    FixedSize(k, ts);
  }

  lemma StoredBlockSize(start: nat, buf: seq<Byte>, last: bool)
    ensures |StoredBits(start, buf, last)| <= 42 + 8 * |buf|
  {
    hide ToBits, BytesToBits;
  }
}
