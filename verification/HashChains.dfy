/**
 The hash chains of `deflate` (deflate.c, `INSERT_STRING`, `slide_hash`, `longest_match`).

 `head` has for each key the latest position that was inserted with it, and `prev`, a ring of
 `w` entries, leads from a position to the one inserted before it with the same key.  Zero
 ends a chain, so that position zero is never a match.
 */
module HashChains {
  import opened Bits
  import opened HashKey

  function KeyAt(k: Hashing, data: seq<Byte>, p: nat): (r: nat)
    requires p + 2 < |data|
    ensures r < k.Size()
  {
    k.Key(data[p], data[p + 1], data[p + 2])
  }

  /** The ring entry of position `p`, `p & w_mask` in C. */
  function Slot(w: nat, p: nat): (r: nat)
    requires w > 0
    ensures r < w
  {
    p % w
  }

  lemma SlotIs(w: nat, p: nat)
    requires 0 < w && p < 2 * w
    ensures Slot(w, p) == if p < w then p else p - w
  {
    if p >= w { DivModUnique(p, w, 1, p - w); }
  }

  /** A chain of key `h` may start at `m`. */
  ghost predicate Leads(k: Hashing, data: seq<Byte>, at: set<nat>, h: nat, m: nat) {
    m == 0 || (m in at && m + 2 < |data| && KeyAt(k, data, m) == h)
  }

  /** A chain may go on from `p` to `q`. */
  ghost predicate LeadsBack(k: Hashing, data: seq<Byte>, at: set<nat>, p: nat, q: nat) {
    p + 2 < |data| && (q != 0 ==> q < p) && Leads(k, data, at, KeyAt(k, data, p), q)
  }

  /** The chains lead through the positions `at`, to earlier ones with the same key. */
  ghost predicate Linked(k: Hashing, w: nat, head: seq<nat>, prev: seq<nat>, data: seq<Byte>, at: set<nat>) {
    && 0 < w && |head| == k.Size() && |prev| == w && |data| <= 2 * w
    && (forall p | p in at :: p + 2 < |data|)
    && (forall h | 0 <= h < |head| :: Leads(k, data, at, h, head[h]))
    && (forall p | p in at :: p + w in at || LeadsBack(k, data, at, p, prev[Slot(w, p)]))
  }

  lemma LinkedNone(k: Hashing, w: nat, head: seq<nat>, prev: seq<nat>, data: seq<Byte>)
    requires 0 < w && |head| == k.Size() && |prev| == w && |data| <= 2 * w
    requires forall h | 0 <= h < |head| :: head[h] == 0
    ensures Linked(k, w, head, prev, data, {})
  {
  }

  /** More data behind what is there. */
  lemma LinkedMore(k: Hashing, w: nat, head: seq<nat>, prev: seq<nat>, data: seq<Byte>, data': seq<Byte>, at: set<nat>)
    requires Linked(k, w, head, prev, data, at) && data <= data' && |data'| <= 2 * w
    ensures Linked(k, w, head, prev, data', at)
  {
    hide Hashing.Key;
    forall h | 0 <= h < |head| ensures Leads(k, data', at, h, head[h]) {
      assert Leads(k, data, at, h, head[h]);
    }
    forall p | p in at ensures p + w in at || LeadsBack(k, data', at, p, prev[Slot(w, p)]) {
      assert p + w in at || LeadsBack(k, data, at, p, prev[Slot(w, p)]);
    }
  }

  /** `INSERT_STRING` at a position after all others. */
  lemma LinkedInsert(k: Hashing, w: nat, head: seq<nat>, prev: seq<nat>, data: seq<Byte>, at: set<nat>, p: nat, h: nat)
    requires Linked(k, w, head, prev, data, at) && p + 2 < |data| && h == KeyAt(k, data, p)
    requires forall q | q in at :: q < p
    ensures Linked(k, w, head[h := p], prev[Slot(w, p) := head[h]], data, at + {p})
  {
    hide Hashing.Key, Hashing.Size, Slot, KeyAt;
    var head', prev', at' := head[h := p], prev[Slot(w, p) := head[h]], at + {p};
    forall g | 0 <= g < |head'| ensures Leads(k, data, at', g, head'[g]) {
      assert Leads(k, data, at, g, head[g]);
    }
    forall q | q in at' ensures q + w in at' || LeadsBack(k, data, at', q, prev'[Slot(w, q)]) {
      SlotIs(w, p);
      SlotIs(w, q);
      if q == p {
        assert Leads(k, data, at, h, head[h]);
      } else {
        assert q + w in at || LeadsBack(k, data, at, q, prev[Slot(w, q)]);
      }
    }
  }

  // ------------------------------------------------------------ sliding

  function Slid(m: nat, w: nat): nat {
    if m >= w then m - w else 0
  }

  ghost predicate AllSlid(s: seq<nat>, s': seq<nat>, w: nat) {
    |s'| == |s| && forall i | 0 <= i < |s| :: s'[i] == Slid(s[i], w)
  }

  ghost function Rebased(at: set<nat>, w: nat): set<nat> {
    set p | p in at && p >= w :: p - w
  }

  lemma RebasedAt(at: set<nat>, w: nat, p: nat)
    ensures p in Rebased(at, w) <==> p + w in at
  {
    if p + w in at { assert p + w >= w; }
  }

  lemma LeadsSlide(k: Hashing, w: nat, data: seq<Byte>, at: set<nat>, h: nat, m: nat)
    requires Leads(k, data, at, h, m) && w <= |data|
    ensures Leads(k, data[w..], Rebased(at, w), h, Slid(m, w))
  {
    hide Hashing.Key, Rebased;
    if m > w { RebasedAt(at, w, m - w); }
  }

  lemma LeadsBackSlide(k: Hashing, w: nat, data: seq<Byte>, at: set<nat>, p: nat, q: nat)
    requires LeadsBack(k, data, at, p + w, q) && w <= |data|
    ensures LeadsBack(k, data[w..], Rebased(at, w), p, Slid(q, w))
  {
    hide Hashing.Key, Rebased, Leads;
    assert KeyAt(k, data[w..], p) == KeyAt(k, data, p + w);
    LeadsSlide(k, w, data, at, KeyAt(k, data, p + w), q);
  }

  /** `slide_hash`: every position moves down by `w`, and those below are forgotten. */
  lemma LinkedSlide(k: Hashing, w: nat, head: seq<nat>, prev: seq<nat>, head': seq<nat>, prev': seq<nat>, data: seq<Byte>, at: set<nat>)
    requires Linked(k, w, head, prev, data, at) && w <= |data|
    requires AllSlid(head, head', w) && AllSlid(prev, prev', w)
    ensures Linked(k, w, head', prev', data[w..], Rebased(at, w))
  {
    hide Hashing.Key, Hashing.Size, Rebased, Slot, Leads, LeadsBack, Slid;
    var data', at' := data[w..], Rebased(at, w);
    forall p | p in at' ensures p + 2 < |data'| {
      RebasedAt(at, w, p);
    }
    forall h | 0 <= h < |head'| ensures Leads(k, data', at', h, head'[h]) {
      LeadsSlide(k, w, data, at, h, head[h]);
    }
    forall p | p in at' ensures p + w in at' || LeadsBack(k, data', at', p, prev'[Slot(w, p)]) {
      RebasedAt(at, w, p);
      RebasedAt(at, w, p + w);
      SlotIs(w, p);
      SlotIs(w, p + w);
      assert p + w + w in at || LeadsBack(k, data, at, p + w, prev[Slot(w, p + w)]);
      LeadsBackSlide(k, w, data, at, p, prev[Slot(w, p)]);
    }
  }

  // ------------------------------------------------------------ walking along a chain

  /** The entry of `p` has not been used for a later position. */
  lemma NextOnChain(k: Hashing, w: nat, head: seq<nat>, prev: seq<nat>, data: seq<Byte>, at: set<nat>, p: nat, top: nat)
    requires Linked(k, w, head, prev, data, at) && p in at && top < p + w && forall q | q in at :: q <= top
    ensures LeadsBack(k, data, at, p, prev[Slot(w, p)])
  {
    hide Hashing.Size, Slot, LeadsBack, Leads;
    assert p + w in at || LeadsBack(k, data, at, p, prev[Slot(w, p)]);
  }

  /** The positions above `limit` that `longest_match` comes to from `p`. */
  function Walk(w: nat, prev: seq<nat>, p: nat, limit: nat): seq<nat>
    requires w > 0 && |prev| == w
  {
    if p <= limit then []
    else if prev[Slot(w, p)] < p then [p] + Walk(w, prev, prev[Slot(w, p)], limit)
    else [p]
  }

  /**
   From the head of the chain of `h`: earlier and earlier positions, all inserted, all with the
   key `h`, and the walk ends only because the next one is at or below the limit.
   */
  lemma {:induction false} ChainDescends(k: Hashing, w: nat, head: seq<nat>, prev: seq<nat>, data: seq<Byte>, at: set<nat>,
                                         top: nat, limit: nat, h: nat, p: nat)
    requires Linked(k, w, head, prev, data, at) && (forall q | q in at :: q <= top) && top < limit + w && h < k.Size()
    requires Leads(k, data, at, h, p)
    ensures var ps := Walk(w, prev, p, limit);
            && (forall i | 0 <= i < |ps| :: limit < ps[i] <= p && ps[i] in at && KeyAt(k, data, ps[i]) == h)
            && (forall i, j | 0 <= i < j < |ps| :: ps[j] < ps[i])
            && (forall i | 0 <= i < |ps| - 1 :: ps[i + 1] == prev[Slot(w, ps[i])])
            && (ps != [] ==> prev[Slot(w, ps[|ps| - 1])] <= limit)
    decreases p
  {
    hide Hashing.Key, Hashing.Size, Slot, KeyAt, Linked;
    if p > limit {
      LinkedSizes(k, w, head, prev, data, at);
      NextOnChain(k, w, head, prev, data, at, p, top);
      var q := prev[Slot(w, p)];
      ChainDescends(k, w, head, prev, data, at, top, limit, h, q);
      var qs := Walk(w, prev, q, limit);
      assert Walk(w, prev, p, limit) == [p] + qs;
    }
  }

  lemma LinkedSizes(k: Hashing, w: nat, head: seq<nat>, prev: seq<nat>, data: seq<Byte>, at: set<nat>)
    requires Linked(k, w, head, prev, data, at)
    ensures 0 < w == |prev| && |head| == k.Size() && |data| <= 2 * w && forall p | p in at :: p + 2 < |data|
  {
  }
}
