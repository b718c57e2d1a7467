/**
 The window of `deflate` (deflate.c, `fill_window`, `slide_hash`, `INSERT_STRING` and
 `longest_match`): the latest input, twice the size of what a match may reach back to, with
 the hash chains through it.
 */
module DeflateWindow {
  import opened Bits
  import opened HashKey
  import opened HashChains
  import opened MatchSearch

  const MIN_LOOKAHEAD := 262
  const WIN_INIT := 258

  /** The row of the configuration table for a compression level. */
  datatype Tuning = Tuning(goodMatch: nat, maxLazy: nat, niceMatch: nat, maxChain: nat)

  /** The longest match along the chain from `cur`, of at least `toBeat` bytes; none from 0, or from too far back. */
  function BestFrom(win: seq<Byte>, w: nat, prev: seq<nat>, s: nat, ahead: nat, t: Tuning, cur: nat, toBeat: nat, start: int): Found
    requires 512 <= w && |prev| == w && s + MAX_MATCH <= |win| && t.maxChain >= 4
  {
    var far := w - MIN_LOOKAHEAD;
    if cur == 0 || s - cur > far then Found(MIN_MATCH - 1, start)
    else
      var f := Search(win, w, prev, s, if s > far then s - far else 0, Least(t.niceMatch, ahead), cur, Found(toBeat, start),
                      if toBeat >= t.goodMatch then t.maxChain / 4 else t.maxChain);
      Found(Least(f.len, ahead), f.start)
  }

  /** The window holds the latest input. */
  ghost predicate HoldsIn(win: seq<Byte>, start: nat, ahead: nat, given: seq<Byte>, base: nat, block: int) {
    && start + ahead <= |win| && |given| == base + start + ahead && win[..start + ahead] == given[base..]
    && block <= start && base + block >= 0
  }

  /** The chains are linked and end before the strings that are still to be inserted. */
  ghost predicate ChainsIn(k: Hashing, w: nat, win: seq<Byte>, head: seq<nat>, prev: seq<nat>, start: nat, ahead: nat, insert: nat, at: set<nat>) {
    && start + ahead <= |win| && Linked(k, w, head, prev, win[..start + ahead], at)
    && insert <= start && forall p | p in at :: p + insert < start
  }

  /** The next string can be inserted. */
  ghost predicate ReadyIn(k: Hashing, win: seq<Byte>, start: nat, ahead: nat, insert: nat, insH: nat) {
    && start + ahead <= |win| && (insert > 0 ==> ahead < MIN_MATCH)
    && (ahead >= MIN_MATCH ==> k.Primed(insH, win[start], win[start + 1]))
  }

  class Dictionary {
    const k: Hashing
    const wSize: nat
    const window: array<Byte>
    const head: array<nat>
    const prev: array<nat>
    const tuning: Tuning
    var insH: nat
    var strstart: nat
    var lookahead: nat
    var insert: nat
    var matchStart: int
    var blockStart: int
    var highWater: nat

    /** The input that is not in the window yet. */
    var input: seq<Byte>

    /** All the input that was read, and how much of it has left the window. */
    ghost var given: seq<Byte>
    ghost var base: nat

    /** The positions that are on a chain. */
    ghost var at: set<nat>

    /** What the methods may change. */
    ghost function Rep(): set<object> {
      {this, window, head, prev}
    }

    ghost predicate Shape() {
      && k.Valid() && 512 <= wSize <= 32768 && window.Length == 2 * wSize && head.Length == k.Size() && prev.Length == wSize
      && head != prev
    }

    /** `lm_init`. */
    constructor (k: Hashing, wSize: nat, tuning: Tuning)
      requires k.Valid() && 512 <= wSize <= 32768
      ensures this.k == k && this.wSize == wSize && this.tuning == tuning
      ensures Valid() && Ready() && given == [] && input == [] && base == 0 && strstart == 0 && blockStart == 0 && lookahead == 0
      ensures at == {} && insert == 0
      ensures fresh(window) && fresh(head) && fresh(prev)
    {
      this.k, this.wSize, this.tuning := k, wSize, tuning;
      window := new Byte[2 * wSize];
      head := new nat[k.Size()](_ => 0);
      prev := new nat[wSize];
      insH, strstart, lookahead, insert, matchStart, blockStart, highWater, input := 0, 0, 0, 0, 0, 0, 0, [];
      given, base, at := [], 0, {};
      new;
      LinkedNone(k, wSize, head[..], prev[..], window[..0]);
    }

    function MaxDist(): nat
      requires wSize >= 512
    {
      wSize - MIN_LOOKAHEAD
    }

    ghost predicate Holds()
      reads `strstart, `lookahead, `given, `base, `blockStart, window
    {
      HoldsIn(window[..], strstart, lookahead, given, base, blockStart)
    }

    ghost predicate Chains()
      reads `strstart, `lookahead, `insert, `at, window, head, prev
    {
      ChainsIn(k, wSize, window[..], head[..], prev[..], strstart, lookahead, insert, at)
    }

    ghost predicate Ready()
      reads `strstart, `lookahead, `insert, `insH, window
    {
      ReadyIn(k, window[..], strstart, lookahead, insert, insH)
    }

    ghost predicate Valid()
      reads this, window, head, prev
    {
      Shape() && Holds() && Chains() && highWater <= 2 * wSize
    }

    /** Where the next string is in the input. */
    ghost function Pos(): nat
      reads `base, `strstart
    {
      base + strstart
    }

    // ---------------------------------------------------------- sliding

    /** `slide_hash`. */
    method SlideHash()
      requires Shape()
      modifies head, prev
      ensures AllSlid(old(head[..]), head[..], wSize) && AllSlid(old(prev[..]), prev[..], wSize)
    {
      hide Slid;
      SlideArray(head, wSize);
      SlideArray(prev, wSize);
    }

    /** The data in the upper half of the window move to the lower half. */
    method MoveDown()
      requires Shape() && wSize <= strstart + lookahead <= 2 * wSize
      modifies window
      ensures MovedDown(old(window[..]), window[..], strstart + lookahead, wSize)
    {
      var more := 2 * wSize - lookahead - strstart;
      CopyDown(window, wSize, wSize - more);
    }

    /** Make room in the upper half of the window. */
    method SlideWindow()
      requires Shape() && Holds() && Chains() && strstart >= wSize + MaxDist()
      modifies `strstart, `matchStart, `blockStart, `insert, `base, `at, window, head, prev
      ensures Holds() && Chains() && (old(Ready()) ==> Ready()) && base == old(base) + wSize && strstart == old(strstart) - wSize
      ensures matchStart == old(matchStart) - wSize && blockStart == old(blockStart) - wSize
    {
      hide Hashing.Size, Hashing.Valid, Hashing.Primed, Linked, AllSlid, Rebased, Dictionary.Shape, HoldsIn, ChainsIn, ReadyIn, MovedDown;
      ghost var win, h, p, a, n := window[..], head[..], prev[..], at, insert;
      assert wSize >= 512 && |win| == 2 * wSize by { Sizes(); }
      assert strstart + lookahead <= 2 * wSize by { InWindow(win, strstart, lookahead, given, base, blockStart); }
      MoveDown();
      SlideHash();
      Lower();
      HoldsSlide(win, window[..], strstart, lookahead, given, base, blockStart, wSize);
      ChainsSlide(k, wSize, win, window[..], h, p, head[..], prev[..], strstart, lookahead, n, insert, a);
      if old(Ready()) { ReadySlide(k, wSize, win, window[..], strstart, lookahead, n, insert, insH); }
    }

    /** With enough lookahead the scan stays in the window. */
    lemma EnoughRoom()
      requires Valid()
      ensures strstart + lookahead <= 2 * wSize
    {
    }

    /** All positions count from the new start of the window. */
    method Lower()
      requires wSize <= strstart
      modifies `strstart, `matchStart, `blockStart, `insert, `base, `at
      ensures strstart == old(strstart) - wSize && matchStart == old(matchStart) - wSize && blockStart == old(blockStart) - wSize
      ensures insert == Least(old(insert), strstart) && base == old(base) + wSize && at == Rebased(old(at), wSize)
    {
      matchStart := matchStart - wSize;
      strstart := strstart - wSize;
      blockStart := blockStart - wSize;
      if insert > strstart { insert := strstart; }
      base, at := base + wSize, Rebased(at, wSize);
    }

    lemma Sizes()
      requires Shape()
      ensures 512 <= wSize <= 32768 && window.Length == 2 * wSize
    {
    }

    // ---------------------------------------------------------- reading and inserting

    /** `read_buf` into the free end of the window. */
    method ReadBuf(size: nat)
      requires Shape() && Holds() && Chains() && strstart + lookahead + size <= 2 * wSize
      modifies `lookahead, `input, `given, window
      ensures Holds() && Chains() && given + input == old(given + input) && |given| >= old(|given|)
      ensures |input| < old(|input|) || old(|input|) == 0 || size == 0
    {
      hide Hashing.Size, Linked, Dictionary.Shape, HoldsIn, ChainsIn, Appended;
      assert window.Length == 2 * wSize by { Sizes(); }
      var n := if |input| > size then size else |input|;
      ghost var win := window[..];
      CopyIn(window, strstart + lookahead, input[..n]);
      HoldsMore(win, window[..], strstart, lookahead, given, base, blockStart, input[..n]);
      ChainsMore(k, wSize, win, window[..], head[..], prev[..], strstart, lookahead, insert, at, input[..n]);
      TakeMore(given, input, n);
      given := given + input[..n];
      lookahead, input := lookahead + n, input[n..];
    }

    /** `INSERT_STRING`: `str` becomes the head of its chain, and the head before it is returned. */
    method InsertString(str: nat, ghost end: nat) returns (matchHead: nat)
      requires Shape() && str + 2 < end <= 2 * wSize
      requires Linked(k, wSize, head[..], prev[..], window[..end], at) && forall p | p in at :: p < str
      requires k.Primed(insH, window[str], window[str + 1])
      modifies `insH, `at, head, prev
      ensures Linked(k, wSize, head[..], prev[..], window[..end], at) && at == old(at) + {str}
      ensures k.Primed(insH, window[str + 1], window[str + 2]) && insH == k.Key(window[str], window[str + 1], window[str + 2])
      ensures Leads(k, window[..end], old(at), insH, matchHead)
      ensures insH < head.Length && matchHead == old(head[..])[insH] && prev[..] == old(prev[..])[Slot(wSize, str) := matchHead]
    {
      hide Hashing.Size, Hashing.Key, Hashing.Primed, Hashing.Update, Leads, Slot;
      ghost var data, h, p, a := window[..end], head[..], prev[..], at;
      k.PrimedKey(insH, window[str], window[str + 1], window[str + 2]);
      k.KeyPrimes(window[str], window[str + 1], window[str + 2]);
      insH := k.Update(insH, window[str + 2]);
      assert insH == KeyAt(k, data, str);
      LinkedInsert(k, wSize, h, p, data, a, str, insH);
      matchHead := head[insH];
      prev[Slot(wSize, str)] := matchHead;
      head[insH] := str;
      at := at + {str};
      assert head[..] == h[insH := str] && prev[..] == p[Slot(wSize, str) := matchHead];
    }

    /** The hash is started afresh and the strings that had to wait for more input are inserted. */
    method InsertPending()
      requires Shape() && Chains()
      modifies `insH, `insert, `at, head, prev
      ensures Chains() && Ready()
    {
      hide Hashing.Size, Hashing.Key, Hashing.Primed, Hashing.Update, Leads, Linked;
      if lookahead + insert >= MIN_MATCH {
        var str := strstart - insert;
        k.StartPrimes(window[str], window[str + 1]);
        insH := k.Update(window[str], window[str + 1]);
        while insert != 0
          invariant str == strstart - insert && insert <= strstart && lookahead + insert >= MIN_MATCH
          invariant k.Primed(insH, window[str], window[str + 1])
          invariant Linked(k, wSize, head[..], prev[..], window[..strstart + lookahead], at) && forall p | p in at :: p < str
        {
          var ignored := InsertString(str, strstart + lookahead);
          str := str + 1;
          insert := insert - 1;
          if lookahead + insert < MIN_MATCH { break; }
        }
      }
    }

    /** `fill_window`. */
    method FillWindow()
      requires Valid() && lookahead < MIN_LOOKAHEAD
      modifies `strstart, `lookahead, `insert, `insH, `matchStart, `blockStart, `highWater, `input, `given, `base, `at, window, head, prev
      ensures Valid() && (old(Ready()) ==> Ready()) && strstart <= 2 * wSize - MIN_LOOKAHEAD
      ensures lookahead >= MIN_LOOKAHEAD || input == []
      ensures lookahead >= old(lookahead) && given + input == old(given + input) && |given| >= old(|given|)
      ensures Pos() == old(Pos()) && base + blockStart == old(base + blockStart) && base + matchStart == old(base + matchStart)
      ensures highWater >= Least(strstart + lookahead + WIN_INIT, 2 * wSize) && (old(strstart) > 0 ==> strstart > 0)
      ensures wSize >= 512 && (base == old(base) || strstart >= MaxDist())
    {
      hide Dictionary.Chains, Dictionary.Ready, Hashing.Size;
      while true
        invariant Shape() && Holds() && Chains() && highWater <= 2 * wSize && lookahead >= old(lookahead) && (old(Ready()) ==> Ready())
        invariant (old(strstart) > 0 ==> strstart > 0) && (base == old(base) || strstart >= MaxDist())
        invariant lookahead < MIN_LOOKAHEAD && given + input == old(given + input) && |given| >= old(|given|)
        invariant Pos() == old(Pos()) && base + blockStart == old(base + blockStart) && base + matchStart == old(base + matchStart)
        decreases |input|
      {
        FillOnce();
        if lookahead >= MIN_LOOKAHEAD || input == [] { break; }
      }
      ZeroAhead();
    }

    /** One round: make room, read, insert. */
    method FillOnce()
      requires Shape() && Holds() && Chains() && lookahead < MIN_LOOKAHEAD
      modifies `strstart, `lookahead, `insert, `insH, `matchStart, `blockStart, `input, `given, `base, `at, window, head, prev
      ensures Holds() && Chains() && (old(Ready()) ==> Ready())
      ensures strstart <= 2 * wSize - MIN_LOOKAHEAD && lookahead >= old(lookahead) && (old(strstart) > 0 ==> strstart > 0)
      ensures wSize >= 512 && (if base == old(base) then strstart == old(strstart) else strstart >= MaxDist())
      ensures given + input == old(given + input) && |given| >= old(|given|) && (|input| < old(|input|) || input == [])
      ensures Pos() == old(Pos()) && base + blockStart == old(base + blockStart) && base + matchStart == old(base + matchStart)
    {
      hide Linked, Hashing.Size, Hashing.Primed;
      var more := 2 * wSize - lookahead - strstart;
      if strstart >= wSize + MaxDist() {
        SlideWindow();
        more := more + wSize;
      }
      if input == [] { return; }
      ReadBuf(more);
      InsertPending();
    }

    // ---------------------------------------------------------- inserting while going on

    /** As if the string at `strstart` were behind, with the data up to `end`. */
    ghost predicate Past(end: nat)
      reads `strstart, `insert, `insH, `at, window, head, prev
    {
      && strstart + 1 <= end
      && ChainsIn(k, wSize, window[..], head[..], prev[..], strstart + 1, end - strstart - 1, insert, at)
      && ReadyIn(k, window[..], strstart + 1, end - strstart - 1, insert, insH)
    }

    /** Insert the string at `strstart` if it is long enough. */
    method InsertHere() returns (hashHead: nat)
      requires Shape() && Chains() && Ready() && lookahead > 0
      modifies `insH, `at, head, prev
      ensures Past(strstart + lookahead)
      ensures hashHead != 0 ==> lookahead >= MIN_MATCH && hashHead < strstart && OnChain(hashHead)
      ensures strstart + lookahead <= window.Length && hashHead == old(Candidate())
      ensures lookahead >= MIN_MATCH ==> prev[..] == old(prev[..])[Slot(wSize, strstart) := hashHead]
    {
      hide Hashing.Size, Hashing.Key, Hashing.Primed, Linked;
      hashHead := 0;
      if lookahead >= MIN_MATCH {
        hashHead := InsertString(strstart, strstart + lookahead);
      }
    }

    /** The head of the chain for the string at `strstart`; none if fewer than three bytes are ahead. */
    ghost function Candidate(): nat
      requires Shape() && strstart + lookahead <= window.Length
      reads `strstart, `lookahead, window, head
    {
      if lookahead < MIN_MATCH then 0 else head[k.Key(window[strstart], window[strstart + 1], window[strstart + 2])]
    }

    /** The match that the search gives for the string at `strstart`, once it is inserted. */
    ghost function Best(toBeat: nat): Found
      requires Shape() && strstart + lookahead <= window.Length && strstart <= 2 * wSize - MIN_LOOKAHEAD && tuning.maxChain >= 4
      reads `strstart, `lookahead, `matchStart, window, head, prev
    {
      BestFrom(window[..], wSize, prev[..][Slot(wSize, strstart) := Candidate()], strstart, lookahead, tuning, Candidate(), toBeat, matchStart)
    }

    /** `m` is an earlier position with the key of the string at `strstart`. */
    ghost predicate OnChain(m: nat)
      reads `strstart, `lookahead, `at, window
    {
      && m < strstart && strstart + 2 < strstart + lookahead <= window.Length && m in at
      && KeyAt(k, window[..strstart + lookahead], m) == KeyAt(k, window[..strstart + lookahead], strstart)
    }

    /** On to the next position, and insert the string there. */
    method InsertNext(ghost end: nat)
      requires Shape() && end <= 2 * wSize && Past(end) && strstart + 1 + MIN_MATCH <= end
      modifies `strstart, `insH, `at, head, prev
      ensures strstart == old(strstart) + 1 && Past(end)
    {
      hide Hashing.Size, Hashing.Key, Hashing.Primed, Linked;
      strstart := strstart + 1;
      var ignored := InsertString(strstart, end);
    }

    /**
     What `deflate_fast` does with the dictionary after a match: insert the strings in it if it
     is short, or else start the hash afresh behind it.
     */
    method SkipMatch(len: nat)
      requires Shape() && Holds() && Past(strstart + lookahead) && strstart <= 2 * wSize - MIN_LOOKAHEAD
      requires MIN_MATCH <= len <= MAX_MATCH && len <= lookahead
      modifies `strstart, `lookahead, `insH, `at, head, prev
      ensures strstart == old(strstart) + len && lookahead == old(lookahead) - len && Holds() && Chains() && Ready()
    {
      hide Hashing.Size, Hashing.Primed, Hashing.Update, ChainsIn, ReadyIn, HoldsIn;
      ghost var end := strstart + lookahead;
      InWindow(window[..], strstart, lookahead, given, base, blockStart);
      HoldsOn(window[..], strstart, lookahead, given, base, blockStart, len);
      lookahead := lookahead - len;
      if len <= tuning.maxLazy && lookahead >= MIN_MATCH {
        var left := len - 1;
        while left != 0
          invariant strstart == old(strstart) + len - 1 - left && Past(end) && 0 <= left <= len - 1 && lookahead == old(lookahead) - len
        {
          InsertNext(end);
          left := left - 1;
        }
        strstart := strstart + 1;
      } else {
        ChainsOn(k, wSize, window[..], head[..], prev[..], strstart + 1, end - strstart - 1, insert, at, len - 1);
        strstart := strstart + len;
        k.StartPrimes(window[strstart], window[strstart + 1]);
        ReadyAfresh(k, window[..], strstart - len + 1, lookahead + len - 1, insert, insH, len - 1, k.Update(window[strstart], window[strstart + 1]));
        insH := k.Update(window[strstart], window[strstart + 1]);
      }
    }

    /** On to the next position; insert the string there unless it is too close to the end of the input. */
    method InsertNextIf(maxInsert: nat, ghost end: nat)
      requires Shape() && end <= 2 * wSize && Past(end) && end == maxInsert + MIN_MATCH && strstart + 1 < end
      modifies `strstart, `insH, `at, head, prev
      ensures strstart == old(strstart) + 1 && Past(end)
    {
      hide Hashing.Size, Hashing.Primed, Linked, ChainsIn;
      if strstart + 1 <= maxInsert {
        InsertNext(end);
      } else {
        ChainsOn(k, wSize, window[..], head[..], prev[..], strstart + 1, end - strstart - 1, insert, at, 1);
        strstart := strstart + 1;
      }
    }

    /**
     What `deflate_slow` does with the dictionary after a match of `len` bytes that began one
     position before: insert all the strings in it that are long enough.
     */
    method SkipLazy(len: nat)
      requires Shape() && Holds() && Past(strstart + lookahead) && strstart > 0
      requires MIN_MATCH <= len <= lookahead + 1
      modifies `strstart, `lookahead, `insH, `at, head, prev
      ensures strstart == old(strstart) + len - 1 && lookahead == old(lookahead) - (len - 1) && Holds() && Chains() && Ready()
    {
      hide Hashing.Size, ChainsIn, ReadyIn, HoldsIn;
      ghost var end := strstart + lookahead;
      InWindow(window[..], strstart, lookahead, given, base, blockStart);
      HoldsOn(window[..], strstart, lookahead, given, base, blockStart, len - 1);
      var maxInsert := strstart + lookahead - MIN_MATCH;
      lookahead := lookahead - (len - 1);
      var left := len - 2;
      while left != 0
        invariant strstart == old(strstart) + len - 2 - left && Past(end) && 0 <= left <= len - 2 && lookahead == old(lookahead) - (len - 1)
      {
        InsertNextIf(maxInsert, end);
        left := left - 1;
      }
      strstart := strstart + 1;
    }

    /** `CLEAR_HASH`. */
    method ClearHash()
      modifies head
      ensures forall j | 0 <= j < head.Length :: head[j] == 0
    {
      for n := 0 to head.Length
        invariant forall j | 0 <= j < n :: head[j] == 0
      {
        head[n] := 0;
      }
    }

    /** Forget the history after a full flush. */
    method Forget()
      requires Valid() && lookahead == 0 && blockStart == strstart
      modifies `strstart, `blockStart, `insert, `base, `at, head
      ensures Valid() && Ready() && base + strstart == old(base + strstart) && base + blockStart == old(base + blockStart)
      ensures blockStart == strstart == insert == 0 && at == {}
    {
      hide Linked, Hashing.Size;
      ClearHash();
      LinkedNone(k, wSize, head[..], prev[..], window[..0]);
      base, at := base + strstart, {};
      strstart, blockStart, insert := 0, 0, 0;
      assert window[..strstart + lookahead] == window[..][..strstart + lookahead] == window[..0];
      assert given[base..] == [];
    }

    // ---------------------------------------------------------- the longest match

    /** Compare the next eight bytes, or up to the first that differs. */
    method CompareEight(m: nat, i0: nat) returns (i: nat, equal: bool)
      requires m < strstart && strstart + i0 + 8 < window.Length && Same(window[..], m, strstart, i0 + 1)
      ensures i0 < i <= i0 + 8 && Same(window[..], m, strstart, i)
      ensures equal ==> i == i0 + 8 && Same(window[..], m, strstart, i + 1)
      ensures !equal ==> window[m + i] != window[strstart + i]
    {
      hide Same;
      i, equal := i0, true;
      var n := 0;
      SameLess(window[..], m, strstart, i0 + 1, i0);
      while n < 8 && equal
        invariant 0 <= n <= 8 && i == i0 + n && (n == 0 ==> equal) && Same(window[..], m, strstart, i)
        invariant if equal then Same(window[..], m, strstart, i + 1) else window[m + i] != window[strstart + i]
      {
        i, n := i + 1, n + 1;
        equal := window[strstart + i] == window[m + i];
        if equal { SameMore(window[..], m, strstart, i); }
      }
    }

    /** The length of a match whose first three bytes are known to agree. */
    method Compare(m: nat) returns (i: nat)
      requires m < strstart && strstart + MAX_MATCH < window.Length && Same(window[..], m, strstart, 3)
      ensures i == MatchLen(window[..], m, strstart)
    {
      hide Same, MatchLen;
      i := 2;
      var more := true;
      ghost var rounds := 0;
      while more
        invariant 0 <= rounds <= 32 && i <= MAX_MATCH && (more ==> i == 2 + 8 * rounds < MAX_MATCH && Same(window[..], m, strstart, i + 1))
        invariant !more ==> Same(window[..], m, strstart, i) && (i == MAX_MATCH || window[m + i] != window[strstart + i])
        decreases MAX_MATCH - i, more
      {
        i, more := CompareEight(m, i);
        more := more && i < MAX_MATCH;
        rounds := rounds + 1;
      }
      MatchLenIs(window[..], m, strstart, i);
    }

    /** The length of the match at `m` if it is more than `best`; otherwise at most `best`. */
    method TryMatch(m: nat, best: nat) returns (len: nat)
      requires Shape() && m < strstart && strstart + MAX_MATCH < window.Length && 1 <= best <= MAX_MATCH
      requires k.Key(window[m], window[m + 1], window[m + 2]) == k.Key(window[strstart], window[strstart + 1], window[strstart + 2])
      ensures if MatchLen(window[..], m, strstart) > best then len == MatchLen(window[..], m, strstart) else len <= best
    {
      hide Hashing.Key, MatchLen;
      if window[m + best] != window[strstart + best] {
        if best < MAX_MATCH { MatchEnds(window[..], m, strstart, best); }
        len := 0;
      } else if window[m + best - 1] != window[strstart + best - 1] {
        MatchEnds(window[..], m, strstart, best - 1);
        len := 0;
      } else if window[m] != window[strstart] {
        MatchEnds(window[..], m, strstart, 0);
        len := 0;
      } else if window[m + 1] != window[strstart + 1] {
        MatchEnds(window[..], m, strstart, 1);
        len := 0;
      } else {
        k.ThirdByte(window[m], window[m + 1], window[m + 2], window[strstart + 2]);
        len := Compare(m);
      }
    }

    lemma SameKey(m: nat)
      requires OnChain(m)
      ensures k.Key(window[m], window[m + 1], window[m + 2]) == k.Key(window[strstart], window[strstart + 1], window[strstart + 2])
    {
      hide Hashing.Key;
    }

    /** The entry of `m` leads to an earlier position of the same chain. */
    lemma StepBack(m: nat)
      requires Shape() && OnChain(m) && strstart - m <= MaxDist()
      requires Linked(k, wSize, head[..], prev[..], window[..strstart + lookahead], at) && (forall p | p in at :: p <= strstart)
      ensures var next := prev[Slot(wSize, m)]; next == 0 || (next < m && OnChain(next))
    {
      hide Hashing.Key, Hashing.Size, KeyAt, Slot, Linked;
      NextOnChain(k, wSize, head[..], prev[..], window[..strstart + lookahead], at, m, strstart);
    }

    /** Follow the chain. */
    method SearchChain(curMatch: nat, prevLength: nat, limit: nat, nice: nat, maxChain: nat) returns (best: nat)
      requires Shape() && OnChain(curMatch) && strstart - curMatch <= MaxDist() && strstart + MAX_MATCH < 2 * wSize
      requires Linked(k, wSize, head[..], prev[..], window[..strstart + lookahead], at) && (forall p | p in at :: p <= strstart)
      requires 0 < curMatch < strstart && 1 <= prevLength <= MAX_MATCH && maxChain >= 1
      requires limit == if strstart > MaxDist() then strstart - MaxDist() else 0
      modifies `matchStart
      ensures Found(best, matchStart) == Search(window[..], wSize, prev[..], strstart, limit, nice, curMatch,
                                                Found(prevLength, old(matchStart)), maxChain)
    {
      hide Hashing.Size, Hashing.Key, Linked, MatchLen, Slot, Dictionary.OnChain, Same;
      best := prevLength;
      var cur, chain := curMatch, maxChain;
      ghost var win, f0 := window[..], Found(prevLength, matchStart);
      while true
        invariant chain >= 1 && 0 < cur < strstart && OnChain(cur) && strstart - cur <= MaxDist() && 1 <= best <= MAX_MATCH
        invariant Search(win, wSize, prev[..], strstart, limit, nice, curMatch, f0, maxChain)
               == Search(win, wSize, prev[..], strstart, limit, nice, cur, Found(best, matchStart), chain)
        decreases cur
      {
        SameKey(cur);
        var length := TryMatch(cur, best);
        if length > best {
          matchStart := cur;
          best := length;
          if length >= nice { break; }
        }
        StepBack(cur);
        cur := prev[Slot(wSize, cur)];
        if cur <= limit { break; }
        chain := chain - 1;
        if chain == 0 { break; }
      }
    }

    /**
     `longest_match`: what the plain search along the chain finds, cut off at the end of the
     input.  `prevLength` is the length to beat.
     */
    method LongestMatch(curMatch: nat, prevLength: nat) returns (len: nat)
      requires Shape() && OnChain(curMatch) && strstart - curMatch <= MaxDist() && strstart <= 2 * wSize - MIN_LOOKAHEAD
      requires Linked(k, wSize, head[..], prev[..], window[..strstart + lookahead], at) && (forall p | p in at :: p <= strstart)
      requires 0 < curMatch < strstart && 1 <= prevLength <= MAX_MATCH && tuning.maxChain >= 4
      modifies `matchStart
      ensures Found(len, matchStart) == BestFrom(window[..], wSize, prev[..], strstart, lookahead, tuning, curMatch, prevLength, old(matchStart))
      ensures Least(prevLength, lookahead) <= len <= lookahead
      ensures len > prevLength ==> len <= MAX_MATCH && 0 <= matchStart < strstart && strstart - matchStart <= MaxDist()
                                   && Same(window[..], matchStart, strstart, len)
    {
      hide Hashing.Size, Linked, Dictionary.OnChain, Same, Search;
      var chain := tuning.maxChain;
      var limit := if strstart > MaxDist() then strstart - MaxDist() else 0;
      if prevLength >= tuning.goodMatch { chain := chain / 4; }
      var nice := Least(tuning.niceMatch, lookahead);
      ghost var f0 := Found(prevLength, matchStart);
      var best := SearchChain(curMatch, prevLength, limit, nice, chain);
      len := Least(best, lookahead);
      SearchFinds(window[..], wSize, prev[..], strstart, limit, nice, curMatch, f0, chain);
      if best > prevLength { SameLess(window[..], matchStart, strstart, best, len); }
    }

    // ---------------------------------------------------------- runs

    /** Compare the next eight bytes with the byte before `strstart`, or up to the first that differs. */
    method RunEight(byte: Byte, i0: nat) returns (i: nat, equal: bool)
      requires strstart > 0 && strstart + i0 + 8 < window.Length && byte == window[strstart - 1]
      requires Same(window[..], strstart - 1, strstart, i0 + 1) && window[strstart + i0] == byte
      ensures i0 < i <= i0 + 8 && Same(window[..], strstart - 1, strstart, i)
      ensures equal ==> i == i0 + 8 && Same(window[..], strstart - 1, strstart, i + 1) && window[strstart + i] == byte
      ensures !equal ==> window[strstart - 1 + i] != window[strstart + i]
    {
      hide Same;
      i, equal := i0, true;
      var n := 0;
      SameLess(window[..], strstart - 1, strstart, i0 + 1, i0);
      while n < 8 && equal
        invariant 0 <= n <= 8 && i == i0 + n && (n == 0 ==> equal) && Same(window[..], strstart - 1, strstart, i)
        invariant if equal then window[strstart + i] == byte && Same(window[..], strstart - 1, strstart, i + 1)
                  else window[strstart - 1 + i] != window[strstart + i]
      {
        i, n := i + 1, n + 1;
        equal := byte == window[strstart + i];
        if equal { SameMore(window[..], strstart - 1, strstart, i); }
      }
    }

    /** `deflate_rle`: how many times the byte before `strstart` repeats, if at least three times. */
    method RunLength() returns (len: nat)
      requires Shape() && strstart + MAX_MATCH < 2 * wSize
      ensures len <= lookahead && (len > 0 ==> strstart > 0)
      ensures strstart > 0 && lookahead >= MIN_MATCH && MatchLen(window[..], strstart - 1, strstart) >= MIN_MATCH ==>
                len == Least(MatchLen(window[..], strstart - 1, strstart), lookahead)
      ensures !(strstart > 0 && lookahead >= MIN_MATCH && MatchLen(window[..], strstart - 1, strstart) >= MIN_MATCH) ==> len == 0
    {
      hide Same, MatchLen;
      if lookahead < MIN_MATCH || strstart == 0 { return 0; }
      var byte := window[strstart - 1];
      if byte != window[strstart] {
        MatchEnds(window[..], strstart - 1, strstart, 0);
        return 0;
      }
      if byte != window[strstart + 1] {
        MatchEnds(window[..], strstart - 1, strstart, 1);
        return 0;
      }
      if byte != window[strstart + 2] {
        MatchEnds(window[..], strstart - 1, strstart, 2);
        return 0;
      }
      var i := Run(byte);
      len := Least(i, lookahead);
    }

    method Run(byte: Byte) returns (i: nat)
      requires strstart > 0 && strstart + MAX_MATCH < window.Length && byte == window[strstart - 1]
      requires window[strstart] == window[strstart + 1] == window[strstart + 2] == byte
      ensures MIN_MATCH <= i == MatchLen(window[..], strstart - 1, strstart)
    {
      hide Same, MatchLen;
      assert Same(window[..], strstart - 1, strstart, 3) by { ThreeSame(window[..], strstart); }
      i := 2;
      var more := true;
      ghost var rounds := 0;
      while more
        invariant 0 <= rounds <= 32 && 2 <= i <= MAX_MATCH && (!more ==> i > 2)
        invariant more ==> i == 2 + 8 * rounds < MAX_MATCH && Same(window[..], strstart - 1, strstart, i + 1) && window[strstart + i] == byte
        invariant !more ==> Same(window[..], strstart - 1, strstart, i) && (i == MAX_MATCH || window[strstart - 1 + i] != window[strstart + i])
        decreases MAX_MATCH - i, more
      {
        i, more := RunEight(byte, i);
        more := more && i < MAX_MATCH;
        rounds := rounds + 1;
      }
      MatchLenIs(window[..], strstart - 1, strstart, i);
    }

    /** On by `n` bytes without inserting any strings. */
    method Skip(n: nat)
      requires Holds() && Chains() && n <= lookahead
      modifies `strstart, `lookahead
      ensures Holds() && Chains() && strstart == old(strstart) + n && lookahead == old(lookahead) - n
    {
      hide HoldsIn, ChainsIn;
      HoldsOn(window[..], strstart, lookahead, given, base, blockStart, n);
      ChainsOn(k, wSize, window[..], head[..], prev[..], strstart, lookahead, insert, at, n);
      lookahead := lookahead - n;
      strstart := strstart + n;
    }

    /** The bytes behind the data that a search may look at are zeroed if nothing was ever written there. */
    method ZeroAhead()
      requires Shape() && Holds() && Chains() && highWater <= 2 * wSize
      modifies `highWater, window
      ensures Holds() && Chains() && (old(Ready()) ==> Ready()) && Least(strstart + lookahead + WIN_INIT, 2 * wSize) <= highWater <= 2 * wSize
    {
      hide Linked, Hashing.Size, Hashing.Primed;
      ghost var data := window[..strstart + lookahead];
      if highWater < 2 * wSize {
        var curr := strstart + lookahead;
        if highWater < curr {
          var init := Least(2 * wSize - curr, WIN_INIT);
          Zero(window, curr, init);
          highWater := curr + init;
        } else if highWater < curr + WIN_INIT {
          var init := Least(curr + WIN_INIT - highWater, 2 * wSize - highWater);
          Zero(window, highWater, init);
          highWater := highWater + init;
        }
      }
      assert window[..strstart + lookahead] == data;
      assert lookahead >= MIN_MATCH ==> window[strstart] == data[strstart] && window[strstart + 1] == data[strstart + 1];
    }
  }

  lemma HoldsOn(win: seq<Byte>, start: nat, ahead: nat, given: seq<Byte>, base: nat, block: int, n: nat)
    requires HoldsIn(win, start, ahead, given, base, block) && n <= ahead
    ensures HoldsIn(win, start + n, ahead - n, given, base, block)
  {
  }

  lemma ChainsOn(k: Hashing, w: nat, win: seq<Byte>, head: seq<nat>, prev: seq<nat>, start: nat, ahead: nat, insert: nat, at: set<nat>, n: nat)
    requires ChainsIn(k, w, win, head, prev, start, ahead, insert, at) && n <= ahead
    ensures ChainsIn(k, w, win, head, prev, start + n, ahead - n, insert, at)
  {
    hide Linked;
  }

  lemma ReadyAfresh(k: Hashing, win: seq<Byte>, start: nat, ahead: nat, insert: nat, insH: nat, n: nat, insH': nat)
    requires ReadyIn(k, win, start, ahead, insert, insH) && n <= ahead && start + n + 1 < |win|
    requires k.Primed(insH', win[start + n], win[start + n + 1])
    ensures ReadyIn(k, win, start + n, ahead - n, insert, insH')
  {
    hide Hashing.Primed;
  }

  lemma ThreeSame(win: seq<Byte>, s: nat)
    requires 0 < s && s + 3 <= |win| && win[s - 1] == win[s] == win[s + 1] == win[s + 2]
    ensures Same(win, s - 1, s, 3)
  {
  }

  /** A new block begins at `start`. */
  lemma HoldsBlock(win: seq<Byte>, start: nat, ahead: nat, given: seq<Byte>, base: nat, block: int)
    requires HoldsIn(win, start, ahead, given, base, block)
    ensures HoldsIn(win, start, ahead, given, base, start) && 0 <= base + block <= base + start <= |given|
  {
  }

  lemma ByteHeld(win: seq<Byte>, start: nat, ahead: nat, given: seq<Byte>, base: nat, block: int, i: nat)
    requires HoldsIn(win, start, ahead, given, base, block) && i < start + ahead
    ensures base + i < |given| && i < |win| && win[i] == given[base + i]
  {
    assert win[..start + ahead][i] == given[base..][i];
  }

  /** `s` was written at `from`. */
  ghost predicate Appended(win: seq<Byte>, win': seq<Byte>, from: nat, s: seq<Byte>) {
    from + |s| <= |win| == |win'| && win'[..from + |s|] == win[..from] + s
  }

  lemma TakeMore(given: seq<Byte>, input: seq<Byte>, n: nat)
    requires n <= |input|
    ensures given + input[..n] + input[n..] == given + input
  {
  }

  lemma HoldsMore(win: seq<Byte>, win': seq<Byte>, start: nat, ahead: nat, given: seq<Byte>, base: nat, block: int, s: seq<Byte>)
    requires HoldsIn(win, start, ahead, given, base, block) && Appended(win, win', start + ahead, s)
    ensures HoldsIn(win', start, ahead + |s|, given + s, base, block)
  {
  }

  lemma ChainsMore(k: Hashing, w: nat, win: seq<Byte>, win': seq<Byte>, head: seq<nat>, prev: seq<nat>,
                   start: nat, ahead: nat, insert: nat, at: set<nat>, s: seq<Byte>)
    requires ChainsIn(k, w, win, head, prev, start, ahead, insert, at) && Appended(win, win', start + ahead, s) && |win| == 2 * w
    ensures ChainsIn(k, w, win', head, prev, start, ahead + |s|, insert, at)
  {
    hide Linked;
    LinkedMore(k, w, head, prev, win[..start + ahead], win'[..start + ahead + |s|], at);
  }

  lemma InWindow(win: seq<Byte>, start: nat, ahead: nat, given: seq<Byte>, base: nat, block: int)
    requires HoldsIn(win, start, ahead, given, base, block)
    ensures start + ahead <= |win|
  {
  }

  /** The bytes below `end` of `win` are `w` lower in `win'`. */
  ghost predicate MovedDown(win: seq<Byte>, win': seq<Byte>, end: nat, w: nat) {
    w <= end <= |win| == |win'| && win'[..end - w] == win[..end][w..]
  }

  lemma HoldsSlide(win: seq<Byte>, win': seq<Byte>, start: nat, ahead: nat, given: seq<Byte>, base: nat, block: int, w: nat)
    requires w <= base && HoldsIn(win, start + w, ahead, given, base - w, block + w) 
    requires MovedDown(win, win', start + w + ahead, w)
    ensures HoldsIn(win', start, ahead, given, base, block)
  {
    assert win[..start + w + ahead][w..] == given[base - w..][w..] == given[base..];
  }

  lemma ChainsSlide(k: Hashing, w: nat, win: seq<Byte>, win': seq<Byte>, head: seq<nat>, prev: seq<nat>, head': seq<nat>, prev': seq<nat>,
                    start: nat, ahead: nat, insert: nat, insert': nat, at: set<nat>)
    requires ChainsIn(k, w, win, head, prev, start + w, ahead, insert, at) && insert' <= insert && insert' <= start 
    requires MovedDown(win, win', start + w + ahead, w)
    requires AllSlid(head, head', w) && AllSlid(prev, prev', w)
    ensures ChainsIn(k, w, win', head', prev', start, ahead, insert', Rebased(at, w))
  {
    hide Linked, AllSlid, Rebased;
    LinkedSlide(k, w, head, prev, head', prev', win[..start + w + ahead], at);
    forall p | p in Rebased(at, w) ensures p + insert' < start { RebasedAt(at, w, p); }
  }

  lemma ReadySlide(k: Hashing, w: nat, win: seq<Byte>, win': seq<Byte>, start: nat, ahead: nat, insert: nat, insert': nat, insH: nat)
    requires ReadyIn(k, win, start + w, ahead, insert, insH) && insert' <= insert 
    requires MovedDown(win, win', start + w + ahead, w)
    ensures ReadyIn(k, win', start, ahead, insert', insH)
  {
    hide Hashing.Primed;
    var s, t := win'[..start + ahead], win[..start + w + ahead][w..];
    if ahead >= MIN_MATCH {
      assert s[start] == t[start] && s[start + 1] == t[start + 1];
    }
  }

  function Least(a: nat, b: nat): nat {
    if a > b then b else a
  }

  method Zero(a: array<Byte>, from: nat, n: nat)
    requires from + n <= a.Length
    modifies a
    ensures a[..from] == old(a[..from])
  {
    for i := 0 to n
      invariant a[..from] == old(a[..from])
    {
      a[from + i] := 0;
    }
  }

  /** The bytes from `from` on, `n` of them, move to the start. */
  method CopyDown(a: array<Byte>, from: nat, n: nat)
    requires n <= from && from + n <= a.Length
    modifies a
    ensures a[..n] == old(a[from..from + n])
  {
    for i := 0 to n
      invariant forall j | 0 <= j < i :: a[j] == old(a[from + j])
      invariant forall j | i <= j < a.Length :: a[j] == old(a[j])
    {
      a[i] := a[from + i];
    }
  }

  method CopyIn(a: array<Byte>, from: nat, s: seq<Byte>)
    requires from + |s| <= a.Length
    modifies a
    ensures Appended(old(a[..]), a[..], from, s)
  {
    for i := 0 to |s|
      invariant a[..from] == old(a[..from])
      invariant forall j | 0 <= j < i :: a[from + j] == s[j]
    {
      a[from + i] := s[i];
    }
  }

  method SlideArray(a: array<nat>, w: nat)
    modifies a
    ensures AllSlid(old(a[..]), a[..], w)
  {
    var n := a.Length;
    while n > 0
      invariant 0 <= n <= a.Length
      invariant forall j | n <= j < a.Length :: a[j] == Slid(old(a[j]), w)
      invariant forall j | 0 <= j < n :: a[j] == old(a[j])
    {
      n := n - 1;
      var m := a[n];
      a[n] := if m >= w then m - w else 0;
    }
  }
}
