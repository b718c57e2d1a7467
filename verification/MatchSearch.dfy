/**
 Searching a hash chain for the longest match (deflate.c, `longest_match`), as a plain search:
 every candidate is compared from its first byte.
 */
module MatchSearch {
  import opened Bits
  import opened HashChains

  const MIN_MATCH := 3
  const MAX_MATCH := 258

  /** The `n` bytes at `p` are those at `s`. */
  ghost predicate Same(win: seq<Byte>, p: nat, s: nat, n: nat) {
    p < s && s + n <= |win| && forall j | s <= j < s + n :: win[j] == win[j - (s - p)]
  }

  lemma SameMore(win: seq<Byte>, p: nat, s: nat, n: nat)
    requires Same(win, p, s, n) && s + n < |win| && win[p + n] == win[s + n]
    ensures Same(win, p, s, n + 1)
  {
  }

  lemma SameLess(win: seq<Byte>, p: nat, s: nat, n: nat, m: nat)
    requires Same(win, p, s, n) && m <= n
    ensures Same(win, p, s, m)
  {
  }

  /** How many bytes from the `i`-th on agree, up to the longest match there can be. */
  function MatchFrom(win: seq<Byte>, p: nat, s: nat, i: nat): (r: nat)
    requires p < s && s + MAX_MATCH <= |win| && i <= MAX_MATCH
    ensures i <= r <= MAX_MATCH
    decreases MAX_MATCH - i
  {
    if i == MAX_MATCH || win[p + i] != win[s + i] then i else MatchFrom(win, p, s, i + 1)
  }

  function MatchLen(win: seq<Byte>, p: nat, s: nat): (r: nat)
    requires p < s && s + MAX_MATCH <= |win|
    ensures r <= MAX_MATCH
  {
    MatchFrom(win, p, s, 0)
  }

  lemma {:induction false} MatchFromIs(win: seq<Byte>, p: nat, s: nat, i: nat, n: nat)
    requires i <= n <= MAX_MATCH && Same(win, p, s, n) && s + MAX_MATCH <= |win|
    requires n == MAX_MATCH || win[p + n] != win[s + n]
    ensures MatchFrom(win, p, s, i) == n
    decreases n - i
  {
    if i < n { MatchFromIs(win, p, s, i + 1, n); }
  }

  /** The first `n` bytes agree and the next does not. */
  lemma MatchLenIs(win: seq<Byte>, p: nat, s: nat, n: nat)
    requires n <= MAX_MATCH && Same(win, p, s, n) && s + MAX_MATCH <= |win|
    requires n == MAX_MATCH || win[p + n] != win[s + n]
    ensures MatchLen(win, p, s) == n
  {
    MatchFromIs(win, p, s, 0, n);
  }

  lemma {:induction false} MatchFromSame(win: seq<Byte>, p: nat, s: nat, i: nat)
    requires i <= MAX_MATCH && Same(win, p, s, i) && s + MAX_MATCH <= |win|
    ensures Same(win, p, s, MatchFrom(win, p, s, i))
    ensures MatchFrom(win, p, s, i) < MAX_MATCH ==> win[p + MatchFrom(win, p, s, i)] != win[s + MatchFrom(win, p, s, i)]
    decreases MAX_MATCH - i
  {
    if i < MAX_MATCH && win[p + i] == win[s + i] {
      SameMore(win, p, s, i);
      MatchFromSame(win, p, s, i + 1);
    }
  }

  lemma MatchLenSame(win: seq<Byte>, p: nat, s: nat)
    requires p < s && s + MAX_MATCH <= |win|
    ensures Same(win, p, s, MatchLen(win, p, s))
  {
    MatchFromSame(win, p, s, 0);
  }

  /** A byte that differs ends the match. */
  lemma MatchEnds(win: seq<Byte>, p: nat, s: nat, j: nat)
    requires p < s && s + MAX_MATCH <= |win| && j < MAX_MATCH && win[p + j] != win[s + j]
    ensures MatchLen(win, p, s) <= j
  {
    MatchLenSame(win, p, s);
  }

  // ------------------------------------------------------------ the search

  /** The longest match so far, or the length to beat. */
  datatype Found = Found(len: nat, start: int)

  function Better(win: seq<Byte>, s: nat, cur: nat, f: Found): Found
    requires cur < s && s + MAX_MATCH <= |win|
  {
    if MatchLen(win, cur, s) > f.len then Found(MatchLen(win, cur, s), cur) else f
  }

  /** At most `chain` candidates, above `limit`, until a match of at least `nice` bytes. */
  function Search(win: seq<Byte>, w: nat, prev: seq<nat>, s: nat, limit: nat, nice: nat, cur: nat, f: Found, chain: nat): Found
    requires w > 0 && |prev| == w && s + MAX_MATCH <= |win| && chain >= 1
    decreases chain
  {
    if cur >= s then f
    else
      var g := Better(win, s, cur, f);
      if g != f && g.len >= nice then g
      else if prev[Slot(w, cur)] > limit && chain > 1 then Search(win, w, prev, s, limit, nice, prev[Slot(w, cur)], g, chain - 1)
      else g
  }

  /** What is found is a match, and no nearer to the limit than allowed. */
  lemma {:induction false} SearchFinds(win: seq<Byte>, w: nat, prev: seq<nat>, s: nat, limit: nat, nice: nat, cur: nat, f: Found, chain: nat)
    requires w > 0 && |prev| == w && s + MAX_MATCH <= |win| && chain >= 1
    ensures var r := Search(win, w, prev, s, limit, nice, cur, f, chain);
            && r.len >= f.len && (r.len == f.len ==> r == f)
            && (r.len > f.len ==> r.len <= MAX_MATCH && 0 <= r.start < s && Same(win, r.start, s, r.len) && (r.start > limit || r.start == cur))
    decreases chain
  {
    hide MatchLen, Slot;
    if cur < s {
      var g := Better(win, s, cur, f);
      MatchLenSame(win, cur, s);
      if !(g != f && g.len >= nice) && prev[Slot(w, cur)] > limit && chain > 1 {
        SearchFinds(win, w, prev, s, limit, nice, prev[Slot(w, cur)], g, chain - 1);
      }
    }
  }

  /** No candidate that may be looked at is longer, unless the search stopped at a long enough one. */
  lemma {:induction false} SearchLongest(win: seq<Byte>, w: nat, prev: seq<nat>, s: nat, limit: nat, nice: nat, cur: nat, f: Found,
                                         chain: nat, i: nat)
    requires w > 0 && |prev| == w && s + MAX_MATCH <= |win| && chain >= 1 && limit < cur < s
    requires i < chain && i < |Walk(w, prev, cur, limit)|
    ensures var r := Search(win, w, prev, s, limit, nice, cur, f, chain);
            var ps := Walk(w, prev, cur, limit);
            ps[i] < s && (MatchLen(win, ps[i], s) <= r.len || r.len >= nice)
    decreases chain
  {
    hide MatchLen, Slot;
    var g, next := Better(win, s, cur, f), prev[Slot(w, cur)];
    SearchFinds(win, w, prev, s, limit, nice, cur, f, chain);
    if i == 0 {
      if next > limit && chain > 1 { SearchFinds(win, w, prev, s, limit, nice, next, g, chain - 1); }
    } else {
      assert Walk(w, prev, cur, limit) == [cur] + Walk(w, prev, next, limit);
      assert Walk(w, prev, cur, limit)[i] == Walk(w, prev, next, limit)[i - 1];
      SearchLongest(win, w, prev, s, limit, nice, next, g, chain - 1, i - 1);
    }
  }
}
