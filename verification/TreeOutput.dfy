/**
 Sending code words and the code lengths of a dynamic block (trees.c, `send_code` and
 `send_tree`).
 */
module TreeOutput {
  import opened Bits
  import opened CanonicalCode
  import opened BitOutput
  import opened CodeLengths

  /** A tree has a word for `k` that can be sent. */
  ghost predicate Sendable(code: seq<nat>, len: seq<nat>, k: nat) {
    k < |code| && k < |len| && len[k] <= MAXBITS && code[k] < Pow2(len[k])
  }

  /** The bits of the word for `k`. */
  ghost function WordBits(code: seq<nat>, len: seq<nat>, k: nat): seq<bool>
    requires k < |code| && k < |len|
  {
    ToBits(code[k], len[k])
  }

  /** The bits of a symbol of the code length code, with its repeat count. */
  ghost function SymbolBits(code: seq<nat>, len: seq<nat>, x: Symbol): seq<bool>
    requires Sendable(code, len, SymbolIndex(x)) && Fits(x)
  {
    WordBits(code, len, SymbolIndex(x)) + ToBits(ExtraValue(x), ExtraBits(x))
  }

  ghost predicate AllSendable(code: seq<nat>, len: seq<nat>, xs: seq<Symbol>) {
    forall j | 0 <= j < |xs| :: Fits(xs[j]) && Sendable(code, len, SymbolIndex(xs[j]))
  }

  ghost function ListBits(code: seq<nat>, len: seq<nat>, xs: seq<Symbol>): seq<bool>
    requires AllSendable(code, len, xs)
  {
    if xs == [] then [] else ListBits(code, len, xs[..|xs| - 1]) + SymbolBits(code, len, xs[|xs| - 1])
  }

  lemma {:induction false} ListBitsConcat(code: seq<nat>, len: seq<nat>, xs: seq<Symbol>, ys: seq<Symbol>)
    requires AllSendable(code, len, xs + ys)
    ensures AllSendable(code, len, xs) && AllSendable(code, len, ys)
    ensures ListBits(code, len, xs + ys) == ListBits(code, len, xs) + ListBits(code, len, ys)
  {
    hide SymbolBits, Sendable, Fits;
    assert forall j | 0 <= j < |xs| :: xs[j] == (xs + ys)[j];
    assert forall j | 0 <= j < |ys| :: ys[j] == (xs + ys)[|xs| + j];
    if ys == [] {
      assert xs + ys == xs;
    } else {
      var y := ys[..|ys| - 1];
      assert (xs + ys)[..|xs + ys| - 1] == xs + y;
      ListBitsConcat(code, len, xs, y);
      assert ListBits(code, len, xs) + (ListBits(code, len, y) + SymbolBits(code, len, ys[|ys| - 1]))
          == ListBits(code, len, xs) + ListBits(code, len, y) + SymbolBits(code, len, ys[|ys| - 1]);
    }
  }

  lemma ExtraFits(x: Symbol)
    requires Fits(x)
    ensures 0 <= ExtraValue(x) < Pow2(ExtraBits(x)) && ExtraBits(x) <= 16
  {
    assert Pow2(2) == 4 && Pow2(3) == 8 && Pow2(7) == 128;
  }

  /** `send_code`. */
  method SendCode(w: BitWriter, code: seq<nat>, len: seq<nat>, k: nat)
    requires w.Valid() && Sendable(code, len, k)
    modifies w`pending, w`biBuf, w`biValid
    ensures w.Valid() && w.Bits() == old(w.Bits()) + WordBits(code, len, k)
  {
    hide ToBits, BytesToBits, Pow2, BitWriter.Bits, BitWriter.Valid;
    w.SendBits(code[k], len[k]);
  }

  /** A code word and its extra bits. */
  method SendSymbol(w: BitWriter, code: seq<nat>, len: seq<nat>, x: Symbol)
    requires w.Valid() && Sendable(code, len, SymbolIndex(x)) && Fits(x)
    modifies w`pending, w`biBuf, w`biValid
    ensures w.Valid() && w.Bits() == old(w.Bits()) + SymbolBits(code, len, x)
  {
    hide ToBits, BytesToBits, Pow2, BitWriter.Bits, BitWriter.Valid, WordBits, Fits, ExtraValue, ExtraBits, SymbolIndex;
    ghost var b0 := w.Bits();
    SendCode(w, code, len, SymbolIndex(x));
    ExtraFits(x);
    if ExtraBits(x) > 0 {
      w.SendBits(ExtraValue(x), ExtraBits(x));
      Append(b0, WordBits(code, len, SymbolIndex(x)), ToBits(ExtraValue(x), ExtraBits(x)));
    } else {
      NoBitsAt(ExtraValue(x));
      Append(b0, WordBits(code, len, SymbolIndex(x)), []);
    }
  }

  lemma NoBitsAt(v: nat)
    ensures ToBits(v, 0) == []
  {
  }

  lemma Append(a: seq<bool>, b: seq<bool>, c: seq<bool>)
    ensures a + b + c == a + (b + c) && a + [] == a
  {
  }

  /** The symbols of one group. */
  method SendGroup(w: BitWriter, code: seq<nat>, len: seq<nat>, prev: int, cur: nat, count: nat, minCount: nat)
    requires w.Valid() && cur <= MAXBITS && 1 <= count && minCount == MinCount(prev, cur)
    requires AllSendable(code, len, Group(prev, cur, count))
    modifies w`pending, w`biBuf, w`biValid
    ensures w.Valid() && w.Bits() == old(w.Bits()) + ListBits(code, len, Group(prev, cur, count))
  {
    hide BitWriter.Bits, BitWriter.Valid, SymbolBits, Sendable, Fits;
    if count < minCount {
      SendSame(w, code, len, cur, count);
    } else if cur != 0 {
      if cur != prev {
        SendPair(w, code, len, Length(cur), Again(count - 1));
      } else {
        SendOne(w, code, len, Again(count));
      }
    } else if count <= 10 {
      SendOne(w, code, len, Zeros(count));
    } else {
      SendOne(w, code, len, ManyZeros(count));
    }
  }

  method SendOne(w: BitWriter, code: seq<nat>, len: seq<nat>, x: Symbol)
    requires w.Valid() && AllSendable(code, len, [x])
    modifies w`pending, w`biBuf, w`biValid
    ensures w.Valid() && w.Bits() == old(w.Bits()) + ListBits(code, len, [x])
  {
    hide BitWriter.Bits, BitWriter.Valid, SymbolBits, Sendable, Fits;
    OneBits(code, len, x);
    SendSymbol(w, code, len, x);
  }

  lemma OneBits(code: seq<nat>, len: seq<nat>, x: Symbol)
    requires AllSendable(code, len, [x])
    ensures Sendable(code, len, SymbolIndex(x)) && Fits(x) && ListBits(code, len, [x]) == SymbolBits(code, len, x)
  {
    hide SymbolBits, Sendable, Fits;
    assert [x][0] == x && [x][..0] == [];
    assert [] + SymbolBits(code, len, x) == SymbolBits(code, len, x);
  }

  method SendPair(w: BitWriter, code: seq<nat>, len: seq<nat>, x: Symbol, y: Symbol)
    requires w.Valid() && AllSendable(code, len, [x, y])
    modifies w`pending, w`biBuf, w`biValid
    ensures w.Valid() && w.Bits() == old(w.Bits()) + ListBits(code, len, [x, y])
  {
    hide BitWriter.Bits, BitWriter.Valid, ListBits, AllSendable;
    ghost var b0 := w.Bits();
    assert [x] + [y] == [x, y];
    ListBitsConcat(code, len, [x], [y]);
    SendOne(w, code, len, x);
    SendOne(w, code, len, y);
    Append(b0, ListBits(code, len, [x]), ListBits(code, len, [y]));
  }

  method SendSame(w: BitWriter, code: seq<nat>, len: seq<nat>, cur: nat, n: nat)
    requires w.Valid() && AllSendable(code, len, Same(Length(cur), n))
    modifies w`pending, w`biBuf, w`biValid
    ensures w.Valid() && w.Bits() == old(w.Bits()) + ListBits(code, len, Same(Length(cur), n))
  {
    hide BitWriter.Bits, BitWriter.Valid, SymbolBits, Sendable, Fits;
    ghost var b0 := w.Bits();
    var i := 0;
    Append(b0, [], []);
    while i < n
      invariant i <= n && w.Valid() && AllSendable(code, len, Same(Length(cur), i))
      invariant w.Bits() == b0 + ListBits(code, len, Same(Length(cur), i))
    {
      assert Same(Length(cur), n)[i] == Length(cur);
      assert Same(Length(cur), i + 1)[..i] == Same(Length(cur), i);
      SendSymbol(w, code, len, Length(cur));
      Append(b0, ListBits(code, len, Same(Length(cur), i)), SymbolBits(code, len, Length(cur)));
      i := i + 1;
    }
  }

  /** `send_tree`. */
  method SendTree(w: BitWriter, dl: array<nat>, maxCode: nat, code: seq<nat>, len: seq<nat>)
    requires w.Valid() && maxCode + 1 < dl.Length && ValidLens(dl[..maxCode + 1]) && dl[maxCode + 1] == GUARD
    requires AllSendable(code, len, Symbols(dl[..maxCode + 1], 0, -1, 0))
    modifies w`pending, w`biBuf, w`biValid
    ensures w.Valid() && w.Bits() == old(w.Bits()) + ListBits(code, len, Symbols(dl[..maxCode + 1], 0, -1, 0))
  {
    hide Symbols, Group, MaxCount, MinCount, Scanning, BitWriter.Bits, BitWriter.Valid, ListBits, AllSendable;
    ghost var lens, b0 := dl[..maxCode + 1], w.Bits();
    var prev: int, next: nat, count: nat := -1, dl[0], 0;
    var maxCount, minCount := 7, 4;
    if next == 0 { maxCount, minCount := 138, 3; }
    ghost var sent: seq<Symbol> := [];
    ScanStart(lens);
    NothingSent(code, len, b0);
    var n := 0;
    while n <= maxCode
      invariant n <= maxCode + 1 && w.Valid()
      invariant Scanning(lens, n, prev, count, maxCount, minCount, next, sent)
      invariant AllSendable(code, len, sent) && w.Bits() == b0 + ListBits(code, len, sent)
      decreases maxCode + 1 - n
    {
      ScanNext(lens, n, prev, count, maxCount, minCount, next, sent);
      var cur := next;
      next := dl[n + 1];
      count := count + 1;
      if count < maxCount && cur == next {
        ScanMore(lens, n, prev, count - 1, maxCount, minCount, cur, sent);
      } else {
        ScanGroup(lens, n, prev, count - 1, maxCount, minCount, cur, sent);
        ghost var g := Group(prev, cur, count);
        SentSendable(code, len, lens, n + 1, cur, 0, sent + g, if next == 0 then 138 else if cur == next then 6 else 7,
                     if next == 0 || cur == next then 3 else 4, next);
        ListBitsConcat(code, len, sent, g);
        SendGroup(w, code, len, prev, cur, count, minCount);
        Append(b0, ListBits(code, len, sent), ListBits(code, len, g));
        sent := sent + g;
        count, prev := 0, cur;
        if next == 0 {
          maxCount, minCount := 138, 3;
        } else if cur == next {
          maxCount, minCount := 6, 3;
        } else {
          maxCount, minCount := 7, 4;
        }
      }
      n := n + 1;
    }
    ScanEnd(lens, prev, count, maxCount, minCount, next, sent);
  }

  lemma NothingSent(code: seq<nat>, len: seq<nat>, b: seq<bool>)
    ensures AllSendable(code, len, []) && b == b + ListBits(code, len, [])
  {
  }

  lemma SentSendable(code: seq<nat>, len: seq<nat>, lens: seq<nat>, n: nat, prev: int, count: nat, sent: seq<Symbol>,
                     maxCount: nat, minCount: nat, next: nat)
    requires AllSendable(code, len, Symbols(lens, 0, -1, 0))
    requires Scanning(lens, n, prev, count, maxCount, minCount, next, sent)
    ensures AllSendable(code, len, sent)
  {
    hide Symbols, Fits, Sendable, MaxCount, MinCount;
    var xs := Symbols(lens, 0, -1, 0);
    assert forall j | 0 <= j < |sent| :: sent[j] == xs[j];
  }
}
