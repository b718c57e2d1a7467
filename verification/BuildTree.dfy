/**
 `build_tree`, `gen_bitlen` and `gen_codes` (trees.c) on the state they share.

 The union members of `ct_data` share storage as in C: `fc` holds frequencies until the codes
 overwrite them, `dl` holds fathers until the lengths overwrite them.
 */
module BuildTree {
  import opened Bits
  import opened Sums
  import opened HuffmanCode
  import opened CanonicalCode
  import opened BitLengths
  import Heap
  import GenCodes

  /** The lengths of the static tree for all `n` nodes; zero where there are none. */
  ghost function StaticLens(d: TreeDesc, n: nat): (s: seq<nat>)
    ensures |s| == n && forall x | 0 <= x < n :: s[x] == if x < |d.staticLens| then d.staticLens[x] else 0
  {
    seq(n, x requires 0 <= x < n => if x < |d.staticLens| then d.staticLens[x] else 0)
  }

  lemma DescFacts(d: TreeDesc)
    requires d.Valid()
    ensures 3 <= d.elems <= 286 && 1 <= d.maxLength <= MAXBITS && d.elems <= Pow2(d.maxLength)
    ensures d.extraBase + |d.extraBits| == d.elems
  {
  }

  /** Storing the root's length does not disturb the fathers. */
  lemma RootFree(r: Run, dl: seq<nat>, dl': seq<nat>)
    requires r.Valid() && Dads(r, |r.m|, dl) && r.elems + |r.m| - 1 < |dl|
    requires dl' == dl[r.elems + |r.m| - 1 := 0]
    ensures Dads(r, |r.m|, dl')
  {
    hide Run.Valid;
    forall t | 0 <= t < |r.m|
      ensures r.m[t].0 != r.elems + |r.m| - 1 && r.m[t].1 != r.elems + |r.m| - 1
    {
      RunFacts(r, t);
    }
  }

  /** The nodes that the two steps of the pass meet. */
  lemma SonFacts(r: Run, t: nat, d: TreeDesc, len: seq<nat>, maxCode: nat)
    requires r.Valid() && t < |r.m| && Dads(r, t + 1, len) && r.elems == d.elems
    requires maxCode < d.elems && forall x | x in r.leaves :: x <= maxCode
    ensures var a, b := r.m[t].0, r.m[t].1;
            && a != b && a < |len| && b < |len| && len[a] == len[b] == r.elems + t
            && a < r.elems + t && b < r.elems + t
            && (a <= maxCode <==> a < d.elems) && (b <= maxCode <==> b < d.elems)
            && (a < d.elems ==> a in r.leaves) && (b < d.elems ==> b in r.leaves)
  {
    hide Run.Valid, Run.At;
    RunFacts(r, t);
    LeafOrInner(r, t, r.m[t].0);
    LeafOrInner(r, t, r.m[t].1);
  }

  /** What the first pass has computed: lengths, counts, totals and cut-off nodes. */
  datatype Pass = Pass(len: seq<nat>, bl: seq<nat>, opt: int, stat: int, overflow: nat)

  /** Everything the first pass maintains. */
  ghost predicate PassInv(r: Run, t: nat, d: TreeDesc, slen: seq<nat>, p: Pass)
    requires r.Valid() && d.Valid()
  {
    && t <= |r.m| && p.overflow % 2 == 0
    && PassKraft(r, t, p.len, d.maxLength, p.overflow / 2)
    && PassTotals(r, t, d, p.len, slen, p.bl, p.opt, p.stat)
    && Dads(r, t, p.len)
  }

  ghost predicate PassBounds(r: Run, t: nat, d: TreeDesc, slen: seq<nat>, p: Pass) {
    && t < |r.m| && d.extraBase + |d.extraBits| == d.elems && d.maxLength <= MAXBITS
    && |p.len| == |slen| == |r.freq| && |p.bl| == MAXBITS + 1
    && r.m[t].0 < |p.len| && r.m[t].1 < |p.len| && r.elems + t < |p.len| && p.len[r.elems + t] <= d.maxLength
  }

  ghost function NextPass(r: Run, t: nat, d: TreeDesc, slen: seq<nat>, p: Pass): Pass
    requires PassBounds(r, t, d, slen, p)
  {
    var a, b, father := r.m[t].0, r.m[t].1, p.len[r.elems + t];
    var c := Cap(father, d.maxLength);
    Pass(p.len[b := c][a := c],
         Tally(Tally(p.bl, d, b, c), d, a, c),
         p.opt + NodeBits(d, b, r.freq[b], c) + NodeBits(d, a, r.freq[a], c),
         p.stat + NodeBits(d, b, r.freq[b], slen[b]) + NodeBits(d, a, r.freq[a], slen[a]),
         p.overflow + if father == d.maxLength then 2 else 0)
  }

  lemma PassInvStep(r: Run, t: nat, d: TreeDesc, slen: seq<nat>, p: Pass)
    requires r.Valid() && d.Valid() && PassInv(r, t + 1, d, slen, p)
    ensures PassBounds(r, t, d, slen, p)
    ensures PassInv(r, t, d, slen, NextPass(r, t, d, slen, p))
  {
    hide Pow2, PassKraft, PassTotals, Run.Valid, Run.At, Sum, NodeBits, Tally, TreeDesc.Valid, Dads;
    DescFacts(d);
    PassStep(r, t, p.len, d.maxLength, p.overflow / 2);
    TotalsSizes(r, t + 1, d, p.len, slen, p.bl, p.opt, p.stat);
    var c := Cap(p.len[r.elems + t], d.maxLength);
    TotalsStep(r, t, d, p.len, slen, p.bl, p.opt, p.stat, c);
    DadsKept(r, t, p.len, c);
  }

  lemma TotalsSizes(r: Run, t: nat, d: TreeDesc, len: seq<nat>, slen: seq<nat>, bl: seq<nat>, opt: int, stat: int)
    requires r.Valid() && t <= |r.m| && d.extraBase + |d.extraBits| == d.elems
    requires PassTotals(r, t, d, len, slen, bl, opt, stat)
    ensures |len| == |slen| == |r.freq| && |bl| == MAXBITS + 1
  {
  }

  lemma PassInvStart(r: Run, d: TreeDesc, dl: seq<nat>, slen: seq<nat>)
    requires r.Valid() && d.Valid() && r.elems == d.elems && |dl| == |slen| == |r.freq| && Dads(r, |r.m|, dl)
    ensures 1 <= |r.m| && r.elems + |r.m| - 1 < |dl|
    ensures PassInv(r, |r.m|, d, slen, Pass(dl[r.elems + |r.m| - 1 := 0], seq(MAXBITS + 1, _ => 0), 0, 0, 0))
  {
    hide Pow2, PassKraft, PassTotals, Run.Valid, Run.At, Sum, TreeDesc.Valid, Dads;
    DescFacts(d);
    SomeMerge(r);
    var len := dl[r.elems + |r.m| - 1 := 0];
    PassStart(r, len, d.maxLength);
    TotalsStart(r, d, len, slen);
    RootFree(r, dl, len);
  }

  lemma StaticSize(d: TreeDesc, n: nat)
    ensures |StaticLens(d, n)| == n
  {
  }

  lemma OrderRoot(r: Run, h: seq<nat>, heapMax: nat)
    requires InOrder(r, h, heapMax) && |r.m| >= 1
    ensures |h| == HEAP_SIZE && heapMax + 2 * |r.m| == HEAP_SIZE - 1 && h[heapMax] == r.elems + |r.m| - 1
  {
  }

  lemma OrderAt(r: Run, h: seq<nat>, heapMax: nat, t: nat)
    requires InOrder(r, h, heapMax) && t < |r.m|
    ensures |h| == HEAP_SIZE && heapMax + 2 * |r.m| == HEAP_SIZE - 1
    ensures h[HEAP_SIZE - 1 - 2 * t] == r.m[t].0 && h[HEAP_SIZE - 2 - 2 * t] == r.m[t].1
  {
  }

  /** The fields of `deflate_state` that the tree functions use. */
  class TreeState {
    const heap: array<nat>
    const depth: array<nat>
    const blCount: array<nat>
    var heapLen: nat
    var heapMax: nat
    var optLen: int
    var staticLen: int

    constructor ()
      ensures fresh(heap) && fresh(depth) && fresh(blCount)
      ensures heap.Length == depth.Length == HEAP_SIZE && blCount.Length == MAXBITS + 1
      ensures heap != depth && heap != blCount && depth != blCount
      ensures optLen == staticLen == 0
    {
      heap := new nat[HEAP_SIZE](_ => 0);
      depth := new nat[HEAP_SIZE](_ => 0);
      blCount := new nat[MAXBITS + 1](_ => 0);
      heapLen, heapMax, optLen, staticLen := 0, 0, 0, 0;
    }

    ghost predicate Apart(fc: array<nat>, dl: array<nat>) {
      && heap.Length == depth.Length == HEAP_SIZE && blCount.Length == MAXBITS + 1
      && heap != depth && heap != blCount && depth != blCount
      && fc != dl && fc.Length == dl.Length <= HEAP_SIZE
      && fc != heap && fc != depth && fc != blCount
      && dl != heap && dl != depth && dl != blCount
    }

    /** Give node `n` one bit more than its father, up to the maximum, and add it to the totals. */
    method HandDown(d: TreeDesc, fc: array<nat>, dl: array<nat>, maxCode: nat, n: nat, overflow: nat) returns (o: nat)
      requires d.Valid() && Apart(fc, dl)
      requires n < dl.Length && dl[n] < dl.Length && dl[dl[n]] <= d.maxLength
      requires n <= maxCode <==> n < d.elems
      modifies `optLen, `staticLen, blCount, dl
      ensures var father := old(dl[dl[n]]);
              var c := Cap(father, d.maxLength);
              && dl[..] == old(dl[..])[n := c]
              && blCount[..] == Tally(old(blCount[..]), d, n, c)
              && optLen == old(optLen) + NodeBits(d, n, fc[n], c)
              && staticLen == old(staticLen) +
                 (if d.staticLens == [] then 0 else NodeBits(d, n, fc[n], StaticLens(d, dl.Length)[n]))
              && o == overflow + if father == d.maxLength then 1 else 0
    {
      hide Pow2;
      o := overflow;
      var bits := dl[dl[n]] + 1;
      if bits > d.maxLength {
        bits := d.maxLength;
        o := o + 1;
      }
      dl[n] := bits;
      if n > maxCode { return; }
      blCount[bits] := blCount[bits] + 1;
      var xbits := d.XBits(n);
      var f := fc[n];
      optLen := optLen + f * (bits + xbits);
      if d.staticLens != [] {
        staticLen := staticLen + f * (d.staticLens[n] + xbits);
      }
    }

    method ClearCounts(ghost fc: array<nat>, ghost dl: array<nat>)
      requires Apart(fc, dl)
      modifies blCount
      ensures blCount[..] == seq(MAXBITS + 1, _ => 0)
    {
      for bits := 0 to MAXBITS + 1
        invariant forall b | 0 <= b < bits :: blCount[b] == 0
      {
        blCount[bits] := 0;
      }
    }

    /** The two sons of father `p`, one after the other. */
    method HandPair(d: TreeDesc, fc: array<nat>, dl: array<nat>, maxCode: nat, b: nat, a: nat, ghost p: nat, overflow: nat) returns (o: nat)
      requires d.Valid() && Apart(fc, dl)
      requires a < dl.Length && b < dl.Length && p < dl.Length && a != b && a != p && b != p
      requires dl[a] == dl[b] == p && dl[p] <= d.maxLength
      requires (a <= maxCode <==> a < d.elems) && (b <= maxCode <==> b < d.elems)
      modifies `optLen, `staticLen, blCount, dl
      ensures var c := Cap(old(dl[p]), d.maxLength);
              var slen := StaticLens(d, dl.Length);
              && dl[..] == old(dl[..])[b := c][a := c]
              && blCount[..] == Tally(Tally(old(blCount[..]), d, b, c), d, a, c)
              && optLen == old(optLen) + NodeBits(d, b, fc[b], c) + NodeBits(d, a, fc[a], c)
              && staticLen == old(staticLen) + (if d.staticLens == [] then 0 else
                   NodeBits(d, b, fc[b], slen[b]) + NodeBits(d, a, fc[a], slen[a]))
              && o == overflow + if old(dl[p]) == d.maxLength then 2 else 0
    {
      hide Pow2, NodeBits, Tally, TreeDesc.Valid, StaticLens;
      DescFacts(d);
      o := HandDown(d, fc, dl, maxCode, b, overflow);
      o := HandDown(d, fc, dl, maxCode, a, o);
    }

    /** The first pass of `gen_bitlen`, from the root down, two sons at a time. */
    method FirstPass(d: TreeDesc, fc: array<nat>, dl: array<nat>, maxCode: nat, ghost r: Run) returns (overflow: nat)
      requires d.Valid() && Apart(fc, dl) && r.Valid() && r.elems == d.elems && fc[..] == r.freq
      requires InOrder(r, heap[..], heapMax) && Dads(r, |r.m|, dl[..])
      requires maxCode < d.elems && forall x | x in r.leaves :: x <= maxCode
      modifies `optLen, `staticLen, blCount, dl
      ensures overflow % 2 == 0 && PassKraft(r, 0, dl[..], d.maxLength, overflow / 2)
      ensures PassTotals(r, 0, d, dl[..], StaticLens(d, dl.Length), blCount[..], optLen - old(optLen),
                         Sum(r.leaves, LeafBits(d, r.freq, StaticLens(d, dl.Length))))
      ensures staticLen == old(staticLen) +
              (if d.staticLens == [] then 0 else Sum(r.leaves, LeafBits(d, r.freq, StaticLens(d, dl.Length))))
      ensures forall x | 0 <= x < d.elems && x !in r.leaves :: dl[x] == old(dl[x])
    {
      hide Pow2, PassInv, PassKraft, PassTotals, Run.Valid, Run.At, Sum, LeafBits, NodeBits, Tally, TreeDesc.Valid, Cap, StaticLens, Dads, InOrder;
      ghost var slen, dl0 := StaticLens(d, dl.Length), dl[..];
      overflow := 0;
      DescFacts(d);
      SomeMerge(r);
      OrderRoot(r, heap[..], heapMax);
      StaticSize(d, dl.Length);
      PassInvStart(r, d, dl0, slen);
      ClearCounts(fc, dl);
      dl[heap[heapMax]] := 0;
      assert dl[..] == dl0[r.elems + |r.m| - 1 := 0];
      var h := heapMax + 1;
      ghost var t := |r.m|;
      ghost var stat := 0;
      while h < HEAP_SIZE
        invariant h == HEAP_SIZE - 2 * t && 0 <= t <= |r.m|
        invariant PassInv(r, t, d, slen, Pass(dl[..], blCount[..], optLen - old(optLen), stat, overflow))
        invariant staticLen == old(staticLen) + if d.staticLens == [] then 0 else stat
        invariant forall x | 0 <= x < d.elems && x !in r.leaves :: dl[x] == dl0[x]
      {
        t := t - 1;
        ghost var p := Pass(dl[..], blCount[..], optLen - old(optLen), stat, overflow);
        PassInvDads(r, t + 1, d, slen, p);
        OrderAt(r, heap[..], heapMax, t);
        SonFacts(r, t, d, p.len, maxCode);
        PassInvStep(r, t, d, slen, p);
        ghost var a, b := r.m[t].0, r.m[t].1;
        overflow := HandPair(d, fc, dl, maxCode, heap[h], heap[h + 1], r.elems + t, overflow);
        stat := stat + NodeBits(d, b, r.freq[b], slen[b]) + NodeBits(d, a, r.freq[a], slen[a]);
        h := h + 2;
      }
      PassInvEnd(r, d, slen, Pass(dl[..], blCount[..], optLen - old(optLen), stat, overflow));
    }

    /** The second pass of `gen_bitlen`: the repaired lengths, the longest to the least frequent. */
    method Reassign(d: TreeDesc, fc: array<nat>, dl: array<nat>, maxCode: nat, ghost r: Run)
      requires d.Valid() && Apart(fc, dl) && r.Valid() && r.elems == d.elems && fc[..] == r.freq
      requires InOrder(r, heap[..], heapMax)
      requires maxCode < d.elems && forall x | x in r.leaves :: x <= maxCode
      requires blCount[0] == 0 && forall b | d.maxLength < b <= MAXBITS :: blCount[b] == 0
      requires TotalOf(blCount[..], MAXBITS) == |r.leaves|
      modifies `optLen, dl
      ensures LeavesInRange(r.leaves, r.elems, dl[..]) && Counts(r.leaves, r.elems, dl[..]) == blCount[..] && ByFrequency(r, dl[..])
      ensures optLen == old(optLen) - Sum(r.leaves, LeafBits(d, r.freq, old(dl[..])))
                        + Sum(r.leaves, LeafBits(d, r.freq, dl[..]))
      ensures forall x | 0 <= x < d.elems && x !in r.leaves :: dl[x] == old(dl[x])
    {
      hide Pow2, Sum, Run.Valid, Run.At, LeafBits, Assigned, TotalOf, InOrder, TreeDesc.Valid, NodeAt, Scanned, Graded, ByFrequency, Counts, LeavesInRange;
      DescFacts(d);
      SomeMerge(r);
      OrderRoot(r, heap[..], heapMax);
      ghost var bl, lost := blCount[..], optLen - Sum(r.leaves, LeafBits(d, r.freq, dl[..]));
      ghost var dl0 := dl[..];
      AssignStart(r.leaves, r.elems, dl[..], bl, d.maxLength);
      ScanNone(r);
      GradedNone(r, dl[..], d.maxLength);
      ghost var a: set<nat> := {};
      var h: nat, bits: nat := HEAP_SIZE, d.maxLength;
      while bits != 0
        invariant 0 <= bits <= d.maxLength && heapMax < h <= HEAP_SIZE
        invariant Assigned(r.leaves, r.elems, dl[..], a, bl, bits, bl[bits]) && Scanned(r, h, a) && Graded(r, dl[..], a, bits)
        invariant optLen == lost + Sum(r.leaves, LeafBits(d, r.freq, dl[..]))
        invariant forall x | 0 <= x < d.elems && x !in r.leaves :: dl[x] == dl0[x]
      {
        var n := blCount[bits];
        while n != 0
          invariant 0 <= n <= bl[bits] && heapMax < h <= HEAP_SIZE
          invariant Assigned(r.leaves, r.elems, dl[..], a, bl, bits, n) && Scanned(r, h, a) && Graded(r, dl[..], a, bits)
          invariant optLen == lost + Sum(r.leaves, LeafBits(d, r.freq, dl[..]))
          invariant forall x | 0 <= x < d.elems && x !in r.leaves :: dl[x] == dl0[x]
          decreases h
        {
          SomeUnassigned(r.leaves, r.elems, dl[..], a, bl, bits, n);
          ScanMore(r, h, a);
          ScanStep(r, h, a);
          h := h - 1;
          NodeAtIs(r, heap[..], heapMax, h);
          ScanKind(r, h, maxCode);
          var m := heap[h];
          if m > maxCode { continue; }
          GradedStep(r, dl[..], a, bits, h + 1);
          AssignOne(r.leaves, r.elems, dl[..], a, bl, bits, n, m);
          LeafBitsUpdate(d, r.leaves, r.freq, dl[..], m, bits);
          a := a + {m};
          ghost var len := dl[..];
          if dl[m] != bits {
            optLen := optLen + (bits - dl[m]) * fc[m];
            dl[m] := bits;
          }
          assert dl[..] == len[m := bits];
          n := n - 1;
        }
        AssignNext(r.leaves, r.elems, dl[..], a, bl, bits);
        GradedNext(r, dl[..], a, bits);
        bits := bits - 1;
      }
      AssignEnd(r.leaves, r.elems, dl[..], a, bl);
      AssignedRange(r.leaves, r.elems, dl[..], a, bl);
      GradedAll(r, dl[..]);
    }

    /** `gen_bitlen`: lengths within the maximum, counted in `blCount` and added to the totals. */
    method GenBitlen(d: TreeDesc, fc: array<nat>, dl: array<nat>, maxCode: nat, ghost r: Run)
      requires d.Valid() && Apart(fc, dl) && r.Valid() && r.elems == d.elems && fc[..] == r.freq
      requires InOrder(r, heap[..], heapMax) && Dads(r, |r.m|, dl[..])
      requires maxCode < d.elems && forall x | x in r.leaves :: x <= maxCode
      modifies `optLen, `staticLen, blCount, dl
      ensures GoodLengths(r, d, dl[..], blCount[..])
      ensures optLen == old(optLen) + Sum(r.leaves, LeafBits(d, r.freq, dl[..]))
      ensures staticLen == old(staticLen) +
              (if d.staticLens == [] then 0 else Sum(r.leaves, LeafBits(d, r.freq, StaticLens(d, dl.Length))))
      ensures forall x | 0 <= x < d.elems && x !in r.leaves :: dl[x] == old(dl[x])
    {
      hide Pow2, PassKraft, PassTotals, Run.Valid, Run.At, Sum, LeafBits, StaticLens, Dads, InOrder, TreeDesc.Valid, Excessive, GoodLengths, TotalOf, Counts, LeavesInRange;
      ghost var slen := StaticLens(d, dl.Length);
      ghost var opt0 := optLen;
      DescFacts(d);
      var overflow := FirstPass(d, fc, dl, maxCode, r);
      ghost var stat := Sum(r.leaves, LeafBits(d, r.freq, slen));
      FirstPassDone(r, d, dl[..], slen, blCount[..], optLen - opt0, stat, overflow / 2);
      FirstPassOpt(r, d, dl[..], slen, blCount[..], optLen - opt0, stat);
      LeavesFit(r, d);
      if overflow == 0 {
        NothingCut(r, d, dl[..], blCount[..]);
        return;
      }
      RepairCounts(blCount, d.maxLength, overflow, |r.leaves|);
      ExcessiveFacts(blCount[..], d.maxLength, 0, |r.leaves|);
      CutSomewhere(r, d, dl[..], overflow / 2);
      Reassign(d, fc, dl, maxCode, r);
      Repaired(r, d, dl[..], blCount[..]);
    }

    /** `pqremove`: take the least frequent node off the queue. */
    method PqRemove(fc: array<nat>, ghost dl: array<nat>) returns (top: nat)
      requires Apart(fc, dl) && heapLen >= 2
      requires Heap.IsQueue(heap[..], heapLen, fc[..], depth[..]) && Heap.HeapFrom(heap[..], heapLen, 1, fc[..], depth[..])
      modifies `heapLen, heap
      ensures top == old(heap[1]) && heapLen == old(heapLen) - 1
      ensures Heap.IsQueue(heap[..], heapLen, fc[..], depth[..]) && Heap.HeapFrom(heap[..], heapLen, 1, fc[..], depth[..])
      ensures Heap.Elements(heap[..], heapLen) == old(Heap.Elements(heap[..], heapLen)) - {top}
      ensures forall i | old(heapLen) < i < heap.Length :: heap[i] == old(heap[i])
    {
      hide Heap.HeapFrom, Heap.Elements, Heap.IsQueue;
      ghost var h := heap[..];
      Heap.QueueBounds(h, heapLen, fc[..], depth[..]);
      Heap.DropFirst(h, heapLen, fc[..], depth[..]);
      top := heap[1];
      heap[1] := heap[heapLen];
      heapLen := heapLen - 1;
      assert heap[..] == h[1 := h[heapLen + 1]];
      Heap.PqDownHeap(heap, heapLen, fc, depth, 1);
      assert forall i | heapLen < i < heap.Length :: heap[..][i] == h[1 := h[heapLen + 1]][i];
    }

    /** Put a new node in place of the first one. */
    method PqReplace(fc: array<nat>, ghost dl: array<nat>, node: nat)
      requires Apart(fc, dl) && heapLen >= 1
      requires Heap.IsQueue(heap[..], heapLen, fc[..], depth[..]) && Heap.HeapFrom(heap[..], heapLen, 1, fc[..], depth[..])
      requires node < fc.Length && node !in Heap.Elements(heap[..], heapLen)
      modifies heap
      ensures Heap.IsQueue(heap[..], heapLen, fc[..], depth[..]) && Heap.HeapFrom(heap[..], heapLen, 1, fc[..], depth[..])
      ensures Heap.Elements(heap[..], heapLen) == old(Heap.Elements(heap[..], heapLen)) - {old(heap[1])} + {node}
      ensures forall i | heapLen < i < heap.Length :: heap[i] == old(heap[i])
    {
      hide Heap.HeapFrom, Heap.Elements, Heap.IsQueue;
      ghost var h := heap[..];
      Heap.QueueBounds(h, heapLen, fc[..], depth[..]);
      Heap.ReplaceFirst(h, heapLen, node, fc[..], depth[..]);
      heap[1] := node;
      assert heap[..] == h[1 := node];
      Heap.PqDownHeap(heap, heapLen, fc, depth, 1);
      assert forall i | heapLen < i < heap.Length :: heap[..][i] == h[1 := node][i];
    }

    /** Take the least frequent node and look at the next one. */
    method TakeTwo(fc: array<nat>, ghost dl: array<nat>, ghost s: set<nat>) returns (a: nat, b: nat)
      requires Apart(fc, dl) && heapLen >= 2
      requires Heap.IsQueue(heap[..], heapLen, fc[..], depth[..]) && Heap.HeapFrom(heap[..], heapLen, 1, fc[..], depth[..])
      requires s == Heap.Elements(heap[..], heapLen)
      modifies `heapLen, heap
      ensures heapLen == old(heapLen) - 1
      ensures Heap.IsQueue(heap[..], heapLen, fc[..], depth[..]) && Heap.HeapFrom(heap[..], heapLen, 1, fc[..], depth[..])
      ensures Heap.Elements(heap[..], heapLen) == s - {a} && heap[1] == b
      ensures a in s && b in s && a != b && a < fc.Length && b < fc.Length && TwoLeast(s, a, b, fc[..])
      ensures forall i | old(heapLen) < i < heap.Length :: heap[i] == old(heap[i])
    {
      hide Heap.IsQueue, Heap.HeapFrom, Heap.Elements, TwoLeast;
      Heap.FirstFrequency(heap[..], heapLen, fc[..], depth[..]);
      a := PqRemove(fc, dl);
      Heap.FirstFrequency(heap[..], heapLen, fc[..], depth[..]);
      b := heap[1];
      LeastPair(s, a, b, fc[..]);
    }

    /** Record `a` and `b` as removed, with their father `node`. */
    method MakeFather(fc: array<nat>, dl: array<nat>, node: nat, a: nat, b: nat)
      requires Apart(fc, dl) && a != b && a < node < fc.Length && b < node
      requires heapLen + 2 < heapMax <= HEAP_SIZE && fc[a] + fc[b] < 0x1_0000
      modifies `heapMax, heap, depth, fc, dl
      ensures heapMax == old(heapMax) - 2
      ensures heap[..] == old(heap[..])[old(heapMax) - 1 := a][old(heapMax) - 2 := b]
      ensures fc[..] == old(fc[..])[node := old(fc[a]) + old(fc[b])]
      ensures dl[..] == old(dl[..])[a := node][b := node]
      ensures forall x | 0 <= x < depth.Length && x != node :: depth[x] == old(depth[x])
    {
      heapMax := heapMax - 1;
      heap[heapMax] := a;
      heapMax := heapMax - 1;
      heap[heapMax] := b;
      fc[node] := (fc[a] + fc[b]) % 0x1_0000;
      depth[node] := ((if depth[a] >= depth[b] then depth[a] else depth[b]) + 1) % 256;
      dl[a] := node;
      dl[b] := node;
    }

    /** One round of the loop in `build_tree`: the two least frequent nodes get a father. */
    method MergeTwo(fc: array<nat>, dl: array<nat>, node: nat, ghost m: Merges, ghost leaves: set<nat>, ghost elems: nat, ghost total: nat)
      returns (ghost m': Merges)
      requires Apart(fc, dl) && heapLen >= 2 && heapMax == HEAP_SIZE - 2 * |m| && node == elems + |m| && total < 0x1_0000
      requires Building(m, leaves, elems, heap[..], heapLen, fc[..], depth[..], dl[..], total)
      modifies `heapLen, `heapMax, heap, depth, fc, dl
      ensures |m'| == |m| + 1 && heapLen == old(heapLen) - 1 && heapMax == HEAP_SIZE - 2 * |m'|
      ensures Building(m', leaves, elems, heap[..], heapLen, fc[..], depth[..], dl[..], total)
      ensures forall x | 0 <= x < elems :: fc[x] == old(fc[x])
      ensures forall x | 0 <= x < elems && x !in leaves :: dl[x] == old(dl[x])
    {
      hide Heap.IsQueue, Heap.HeapFrom, Heap.Elements, History, Weighted, Greedy, Sum, TwoLeast, State, Recorded, Building;
      BuildingFacts(m, leaves, elems, heap[..], heapLen, fc[..], depth[..], dl[..], total);
      ghost var s, h0, f, dp, len := State(m, leaves, elems, |m|), heap[..], fc[..], depth[..], heapLen;
      ghost var d0: seq<nat> := dl[..];
      var a, b := TakeTwo(fc, dl, s);
      ghost var h1 := heap[..];
      MergeFacts(m, leaves, elems, f, a, b, total);
      MakeFather(fc, dl, node, a, b);
      Heap.SameKeys(h1, heap[..], heapLen, 1, f, dp, fc[..], depth[..]);
      ghost var h2 := heap[..];
      PqReplace(fc, dl, node);
      m' := m + [(a, b)];
      HeapKept(h0, h1, h2, heap[..], len, |m|, a, b);
      assert s - {a} - {b} + {node} == s - {a, b} + {node};
      BuildingNext(m, leaves, elems, h0, len, f, dp, d0, total, a, b, heap[..], fc[..], depth[..], dl[..]);
    }

    /** The first loop of `build_tree`: queue the symbols that occur. */
    method QueueSymbols(elems: nat, fc: array<nat>, dl: array<nat>) returns (maxCode: int)
      requires Apart(fc, dl) && elems <= 286 && 2 * elems <= fc.Length
      modifies `heapLen, `heapMax, heap, depth, dl
      ensures heapMax == HEAP_SIZE && heapLen <= elems
      ensures Heap.IsQueue(heap[..], heapLen, fc[..], depth[..])
      ensures Heap.Elements(heap[..], heapLen) == Occurring(fc[..], elems)
      ensures IsMaxCode(Occurring(fc[..], elems), maxCode)
      ensures forall x | 0 <= x < elems && fc[x] == 0 :: dl[x] == 0
    {
      hide Heap.IsQueue, Heap.Elements, Occurring;
      heapLen, heapMax := 0, HEAP_SIZE;
      maxCode := -1;
      EmptyQueue(heap[..], fc[..], depth[..]);
      OccurringNone(fc[..]);
      for n := 0 to elems
        invariant 0 <= heapLen <= n && heapMax == HEAP_SIZE
        invariant Heap.IsQueue(heap[..], heapLen, fc[..], depth[..])
        invariant Heap.Elements(heap[..], heapLen) == Occurring(fc[..], n)
        invariant IsMaxCode(Occurring(fc[..], n), maxCode)
        invariant forall x | 0 <= x < n && fc[x] == 0 :: dl[x] == 0
      {
        OccurringStep(fc[..], n);
        if fc[n] != 0 {
          ghost var h, dp := heap[..], depth[..];
          Heap.Push(h, heapLen, n, fc[..], dp);
          heapLen := heapLen + 1;
          heap[heapLen] := n;
          maxCode := n;
          depth[n] := 0;
          assert heap[..] == h[heapLen := n];
          Heap.AnyKeys(heap[..], heapLen, fc[..], dp, fc[..], depth[..]);
        } else {
          dl[n] := 0;
        }
      }
    }

    /** One round of the second loop of `build_tree`: force a code for `node`. */
    method ForceNode(d: TreeDesc, fc: array<nat>, dl: array<nat>, maxCode0: int, ghost f0: seq<nat>, ghost forced0: set<nat>)
      returns (maxCode: int, ghost forced: set<nat>)
      requires d.Valid() && Apart(fc, dl) && 2 * d.elems <= fc.Length && heapLen < 2 && -1 <= maxCode0
      requires Forcing(d.elems, f0, forced0, heap[..], heapLen, fc[..], depth[..], maxCode0)
      modifies `heapLen, `optLen, `staticLen, heap, depth, fc
      ensures heapLen == old(heapLen) + 1 && Forcing(d.elems, f0, forced, heap[..], heapLen, fc[..], depth[..], maxCode)
      ensures optLen == old(optLen) - 1 && |forced| == |forced0| + 1 && -1 <= maxCode
      ensures d.staticLens == [] ==> staticLen == old(staticLen)
      ensures d.staticLens != [] ==>
                staticLen == old(staticLen) + Sum(forced0, StaticLens(d, fc.Length)) - Sum(forced, StaticLens(d, fc.Length))
    {
      hide Heap.IsQueue, Heap.Elements, Occurring, Forced, StaticLens, Sum, TreeDesc.Valid, Forcing, ToForce;
      DescFacts(d);
      ghost var h, f, dp, slen := heap[..], fc[..], depth[..], StaticLens(d, fc.Length);
      StaticSize(d, fc.Length);
      var node: nat;
      maxCode := maxCode0;
      ForcingNext(d.elems, f0, forced0, h, heapLen, f, dp, maxCode0, NextToForce(maxCode0));
      if maxCode < 2 {
        maxCode := maxCode + 1;
        node := maxCode;
      } else {
        node := 0;
      }
      SumAdd(forced0, slen, node);
      heapLen := heapLen + 1;
      heap[heapLen] := node;
      fc[node] := 1;
      depth[node] := 0;
      optLen := optLen - 1;
      if d.staticLens != [] {
        StaticAt(d, fc.Length, node);
        staticLen := staticLen - d.staticLens[node];
      }
      forced := forced0 + {node};
      assert heap[..] == h[heapLen := node] && fc[..] == f[node := 1];
      ForcingKeys(d.elems, f0, forced, heap[..], heapLen, fc[..], dp, depth[..], maxCode);
    }

    /** The second loop of `build_tree`: force at least two codes. */
    method ForceTwo(d: TreeDesc, fc: array<nat>, dl: array<nat>, maxCode0: int) returns (maxCode: int, ghost forced: set<nat>)
      requires d.Valid() && Apart(fc, dl) && 2 * d.elems <= fc.Length && heapLen <= d.elems
      requires Heap.IsQueue(heap[..], heapLen, fc[..], depth[..])
      requires Heap.Elements(heap[..], heapLen) == Occurring(fc[..], d.elems)
      requires IsMaxCode(Occurring(fc[..], d.elems), maxCode0)
      modifies `heapLen, `optLen, `staticLen, heap, depth, fc
      ensures 2 <= heapLen <= d.elems && (forced != {} ==> heapLen == 2)
      ensures forced == ToForce(Occurring(old(fc[..]), d.elems))
      ensures Heap.IsQueue(heap[..], heapLen, fc[..], depth[..])
      ensures Forced(old(fc[..]), fc[..], forced)
      ensures Heap.Elements(heap[..], heapLen) == Occurring(fc[..], d.elems)
      ensures IsMaxCode(Occurring(fc[..], d.elems), maxCode)
      ensures optLen == old(optLen) - |forced|
      ensures staticLen == old(staticLen) -
              (if d.staticLens == [] then 0 else Sum(forced, StaticLens(d, fc.Length)))
    {
      hide Heap.IsQueue, Heap.Elements, Occurring, Forced, StaticLens, Sum, TreeDesc.Valid, Forcing, ToForce;
      DescFacts(d);
      maxCode := maxCode0;
      forced := {};
      ghost var f0, slen := fc[..], StaticLens(d, fc.Length);
      ForcingStart(d.elems, heap[..], heapLen, f0, depth[..], maxCode0);
      StaticSize(d, fc.Length);
      SumNone(slen);
      while heapLen < 2
        invariant heapLen <= d.elems && (forced != {} ==> heapLen <= 2) && -1 <= maxCode
        invariant Forcing(d.elems, f0, forced, heap[..], heapLen, fc[..], depth[..], maxCode)
        invariant optLen == old(optLen) - |forced|
        invariant staticLen == old(staticLen) - if d.staticLens == [] then 0 else Sum(forced, slen)
      {
        maxCode, forced := ForceNode(d, fc, dl, maxCode, f0, forced);
      }
      ForcingEnd(d.elems, f0, forced, heap[..], heapLen, fc[..], depth[..], maxCode);
    }

    /** Establish the heap property from the leaves up. */
    method MakeHeap(fc: array<nat>, ghost dl: array<nat>)
      requires Apart(fc, dl) && Heap.IsQueue(heap[..], heapLen, fc[..], depth[..])
      modifies heap
      ensures Heap.IsQueue(heap[..], heapLen, fc[..], depth[..]) && Heap.HeapFrom(heap[..], heapLen, 1, fc[..], depth[..])
      ensures Heap.Elements(heap[..], heapLen) == old(Heap.Elements(heap[..], heapLen))
    {
      hide Heap.IsQueue, Heap.Elements;
      Heap.QueueBounds(heap[..], heapLen, fc[..], depth[..]);
      ghost var s := Heap.Elements(heap[..], heapLen);
      var n := heapLen / 2;
      while n >= 1
        invariant 0 <= n <= heapLen / 2
        invariant Heap.IsQueue(heap[..], heapLen, fc[..], depth[..])
        invariant Heap.HeapFrom(heap[..], heapLen, n + 1, fc[..], depth[..])
        invariant Heap.Elements(heap[..], heapLen) == s
      {
        Heap.PqDownHeap(heap, heapLen, fc, depth, n);
        n := n - 1;
      }
    }

    /** The third loop of `build_tree`: merge until one node is left. */
    method MergeAll(elems: nat, fc: array<nat>, dl: array<nat>, ghost leaves: set<nat>, ghost total: nat) returns (ghost m: Merges)
      requires Apart(fc, dl) && heapLen >= 2 && heapMax == HEAP_SIZE && total < 0x1_0000
      requires Building([], leaves, elems, heap[..], heapLen, fc[..], depth[..], dl[..], total)
      modifies `heapLen, `heapMax, heap, depth, fc, dl
      ensures Run(m, leaves, elems, fc[..]).Valid()
      ensures InOrder(Run(m, leaves, elems, fc[..]), heap[..], heapMax) && Dads(Run(m, leaves, elems, fc[..]), |m|, dl[..])
      ensures forall x | 0 <= x < elems :: fc[x] == old(fc[x])
      ensures forall x | 0 <= x < elems && x !in leaves :: dl[x] == old(dl[x])
    {
      hide Building, Run.Valid, InOrder, Dads, Heap.IsQueue, Heap.HeapFrom, Heap.Elements, History, Sum, State;
      m := [];
      var node := elems;
      BuildingFacts(m, leaves, elems, heap[..], heapLen, fc[..], depth[..], dl[..], total);
      while heapLen >= 2
        invariant heapLen >= 1 && |leaves| == heapLen + |m| && node == elems + |m| && heapMax == HEAP_SIZE - 2 * |m|
        invariant Building(m, leaves, elems, heap[..], heapLen, fc[..], depth[..], dl[..], total)
        invariant forall x | 0 <= x < elems :: fc[x] == old(fc[x])
        invariant forall x | 0 <= x < elems && x !in leaves :: dl[x] == old(dl[x])
        decreases heapLen
      {
        m := MergeTwo(fc, dl, node, m, leaves, elems, total);
        node := node + 1;
      }
      BuildingFacts(m, leaves, elems, heap[..], heapLen, fc[..], depth[..], dl[..], total);
      BuiltRun(m, leaves, elems, heap[..], fc[..], depth[..], dl[..], total);
      heapMax := heapMax - 1;
      heap[heapMax] := heap[1];
    }

    /** The part of `build_tree` that makes the tree. */
    method GrowTree(d: TreeDesc, fc: array<nat>, dl: array<nat>) returns (maxCode: nat, ghost r: Run, ghost forced: set<nat>)
      requires d.Valid() && Apart(fc, dl) && 2 * d.elems <= fc.Length
      requires Sum(Occurring(fc[..], d.elems), fc[..]) + 2 < 0x1_0000
      modifies this, heap, depth, fc, dl
      ensures r.Valid() && r.elems == d.elems && fc[..] == r.freq
      ensures InOrder(r, heap[..], heapMax) && Dads(r, |r.m|, dl[..])
      ensures FromSymbols(d.elems, old(fc[..]), r, forced, maxCode)
      ensures forall x | 0 <= x < d.elems && x !in r.leaves :: dl[x] == 0
      ensures optLen == old(optLen) - |forced|
      ensures staticLen == old(staticLen) -
              (if d.staticLens == [] then 0 else Sum(forced, StaticLens(d, fc.Length)))
    {
      hide Heap.IsQueue, Heap.Elements, Occurring, Forced, StaticLens, Sum, TreeDesc.Valid, IsMaxCode, Building, InOrder, Dads, Heap.HeapFrom, FromSymbols;
      DescFacts(d);
      ghost var f0 := fc[..];
      var mc := QueueSymbols(d.elems, fc, dl);
      mc, forced := ForceTwo(d, fc, dl, mc);
      ghost var leaves, f1 := Occurring(fc[..], d.elems), fc[..];
      MakeHeap(fc, dl);
      ForcedTotal(f0, f1, forced, d.elems);
      ghost var total := Sum(leaves, f1);
      BuildingStart(d.elems, heap[..], heapLen, f1, depth[..], dl[..]);
      MaxInSet(heap[..], heapLen, f1, depth[..], d.elems, mc);
      NotLeaf(f0, f1, forced, d.elems, dl[..]);
      ghost var h, len, dp := heap[..], heapLen, depth[..];
      maxCode := mc;
      ghost var m := MergeAll(d.elems, fc, dl, leaves, total);
      r := Run(m, leaves, d.elems, fc[..]);
      Gathered(d.elems, h, len, dp, f0, f1, fc[..], m, forced, maxCode);
    }

    /**
     `build_tree`: code lengths and codes for the frequencies in `fc`, which the codes
     overwrite.  `optLen` and `staticLen` grow by the bits that the symbols will take with the
     new code and with the static one.  The ghost results are the Huffman tree and the symbols
     that were forced to have a code.
     */
    method BuildTree(d: TreeDesc, fc: array<nat>, dl: array<nat>) returns (maxCode: nat, ghost r: Run, ghost forced: set<nat>)
      requires d.Valid() && Apart(fc, dl) && 2 * d.elems <= fc.Length
      requires d.XBits(0) == d.XBits(1) == d.XBits(2) == 0
      requires Sum(Occurring(fc[..], d.elems), fc[..]) + 2 < 0x1_0000
      modifies this, heap, depth, blCount, fc, dl
      ensures FromSymbols(d.elems, old(fc[..]), r, forced, maxCode)
      ensures Built(d, r, dl[..], fc[..])
      ensures optLen == old(optLen) + TotalBits(d, old(fc[..]), dl[..], d.elems)
      ensures staticLen == old(staticLen) +
              (if d.staticLens == [] then 0 else TotalBits(d, old(fc[..]), StaticLens(d, dl.Length), d.elems))
    {
      hide Occurring, StaticLens, Sum, TreeDesc.Valid, InOrder, Dads, FromSymbols, Built, LeafBits, GoodLengths, Run.Valid, TotalBits, Complete;
      DescFacts(d);
      ghost var f0, slen := fc[..], StaticLens(d, dl.Length);
      StaticSize(d, dl.Length);
      maxCode, r, forced := GrowTree(d, fc, dl);
      FromSymbolsMax(d.elems, f0, r, forced, maxCode);
      GenBitlen(d, fc, dl, maxCode, r);
      ghost var len := dl[..];
      GoodSymbols(d, r, len, blCount[..], maxCode);
      assert dl[..d.elems] == len[..d.elems];
      GenCodes.GenCodes(dl[..d.elems], fc, maxCode, blCount);
      BuiltFrom(d, r, len, blCount[..], fc[..]);
      OptTotal(d, f0, r, forced, maxCode, len, blCount[..]);
      if d.staticLens != [] { StaticTotal(d, f0, r, forced, maxCode, slen); }
    }
  }

  /**
   `build_tree` when the only symbol that occurs is 1, as in a block whose only distance is 2:
   the symbol that is forced beside it is 2.
   */
  method OnlyOneOccurs(d: TreeDesc) returns (maxCode: nat, len: seq<nat>)
    requires d.Valid() && d.XBits(0) == d.XBits(1) == d.XBits(2) == 0
    ensures maxCode == 2 && |len| == d.elems && forall x | 0 <= x < d.elems :: len[x] > 0 <==> x == 1 || x == 2
  {
    hide Sum, TreeDesc.Valid, TotalBits, Complete, Run.Valid, Cost, MergeCost, ValidLens, Rev, Code, Shallow, StaticLens;
    DescFacts(d);
    var t := new TreeState();
    var fc := new nat[2 * d.elems](_ => 0);
    var dl := new nat[2 * d.elems](_ => 0);
    fc[1] := 1;
    ghost var f := fc[..];
    assert Occurring(f, d.elems) == {1};
    SumNone(f);
    SumAdd({}, f, 1);
    assert {} + {1} == {1};
    ghost var r, forced;
    maxCode, r, forced := t.BuildTree(d, fc, dl);
    len := dl[..d.elems];
    TwoForced({1});
    assert r.leaves == {1, 2};
  }

  // ------------------------------------------------------------ the queue at the start

  /** The symbols below `n` that occur. */
  ghost function Occurring(f: seq<nat>, n: nat): set<nat> {
    set x | 0 <= x < n && x < |f| && f[x] != 0
  }

  /** `max` is the greatest member of `s`, or -1. */
  ghost predicate IsMaxCode(s: set<nat>, max: int) {
    && -1 <= max && (max >= 0 ==> max in s)
    && forall x | x in s :: x <= max
  }

  lemma OccurringNone(f: seq<nat>)
    ensures Occurring(f, 0) == {}
  {
  }

  lemma OccurringStep(f: seq<nat>, n: nat)
    requires n < |f|
    ensures Occurring(f, n + 1) == if f[n] != 0 then Occurring(f, n) + {n} else Occurring(f, n)
    ensures n !in Occurring(f, n) && forall x | x in Occurring(f, n) :: x < n
  {
  }

  lemma EmptyQueue(h: seq<nat>, f: seq<nat>, dp: seq<nat>)
    requires |h| > 0
    ensures Heap.IsQueue(h, 0, f, dp) && Heap.Elements(h, 0) == {}
  {
  }

  /** `f` is `f0` with the frequency of some absent symbols among 0, 1 and 2 set to one. */
  ghost predicate Forced(f0: seq<nat>, f: seq<nat>, forced: set<nat>) {
    && |f| == |f0|
    && (forall x | x in forced :: x <= 2 && x < |f| && f0[x] == 0 && f[x] == 1)
    && (forall x | 0 <= x < |f| && x !in forced :: f[x] == f0[x])
  }

  lemma ForcedNone(f: seq<nat>)
    ensures Forced(f, f, {})
  {
  }

  lemma ForceOne(f0: seq<nat>, f: seq<nat>, forced: set<nat>, elems: nat, node: nat)
    requires Forced(f0, f, forced) && node <= 2 && node < elems <= |f| && node !in Occurring(f, elems)
    ensures Forced(f0, f[node := 1], forced + {node}) && node !in forced
    ensures Occurring(f[node := 1], elems) == Occurring(f, elems) + {node}
  {
  }

  lemma StaticAt(d: TreeDesc, n: nat, x: nat)
    requires d.Valid() && d.staticLens != [] && x < d.elems && x < n
    ensures x < |d.staticLens| && x < |StaticLens(d, n)| && StaticLens(d, n)[x] == d.staticLens[x]
  {
  }

  /** The symbols that get a code though they do not occur, when `s` are those that do. */
  ghost function ToForce(s: set<nat>): (r: set<nat>)
    ensures |r| <= 2
  {
    if |s| >= 2 then {} else if s == {} then {0, 1} else if s == {0} then {1} else if s == {1} then {2} else {0}
  }

  function NextToForce(maxCode: int): nat
    requires -1 <= maxCode
  {
    if maxCode < 2 then maxCode + 1 else 0
  }

  /** A forced symbol may be 2, but only beside a 1 that is alone. */
  lemma TwoForced(s: set<nat>)
    ensures 2 in ToForce(s) <==> s == {1}
    ensures (forall x | x in ToForce(s) :: x < 2) <==> s != {1}
  {
    if s != {1} { assert forall x | x in ToForce(s) :: x < 2; } else { assert 2 in ToForce(s); }
  }

  lemma ToForceNext(s: set<nat>, maxCode: int)
    requires |s| < 2 && IsMaxCode(s, maxCode)
    ensures var node := NextToForce(maxCode); node !in s && ToForce(s) == {node} + ToForce(s + {node})
  {
    if maxCode < 0 {
      assert s == {};
      assert |s + {0}| == 1;
    } else {
      var t := s - {maxCode};
      assert |t| == 0;
      assert s == {maxCode};
      assert |s + {NextToForce(maxCode)}| == 2;
    }
  }

  /** The state of the second loop of `build_tree`. */
  ghost predicate Forcing(elems: nat, f0: seq<nat>, forced: set<nat>, h: seq<nat>, len: nat, f: seq<nat>, dp: seq<nat>, maxCode: int) {
    && Heap.IsQueue(h, len, f, dp) && Heap.Elements(h, len) == Occurring(f, elems) && IsMaxCode(Occurring(f, elems), maxCode)
    && Forced(f0, f, forced) && forced + ToForce(Occurring(f, elems)) == ToForce(Occurring(f0, elems))
  }

  lemma ForcingStart(elems: nat, h: seq<nat>, len: nat, f: seq<nat>, dp: seq<nat>, maxCode: int)
    requires Heap.IsQueue(h, len, f, dp) && Heap.Elements(h, len) == Occurring(f, elems) && IsMaxCode(Occurring(f, elems), maxCode)
    ensures Forcing(elems, f, {}, h, len, f, dp, maxCode)
  {
    hide Heap.IsQueue, Heap.Elements, Occurring, ToForce, IsMaxCode;
    ForcedNone(f);
  }

  lemma ForcingNext(elems: nat, f0: seq<nat>, forced: set<nat>, h: seq<nat>, len: nat, f: seq<nat>, dp: seq<nat>, maxCode: int, node: nat)
    requires Forcing(elems, f0, forced, h, len, f, dp, maxCode) && len < 2 && len + 1 < |h| && 3 <= elems <= |f| && elems <= |dp|
    requires -1 <= maxCode && node == NextToForce(maxCode)
    ensures node < elems && node !in forced
    ensures Forcing(elems, f0, forced + {node}, h[len + 1 := node], len + 1, f[node := 1], dp, if maxCode < 2 then node else maxCode)
  {
    hide Heap.IsQueue, Heap.Elements, Occurring, Forced, ToForce;
    var s := Occurring(f, elems);
    Heap.ElementsSize(h, len, f, dp);
    ToForceNext(s, maxCode);
    ForceOne(f0, f, forced, elems, node);
    Heap.Push(h, len, node, f, dp);
    Heap.AnyKeys(h[len + 1 := node], len + 1, f, dp, f[node := 1], dp);
    assert forced + {node} + ToForce(s + {node}) == forced + ToForce(s);
  }

  lemma ForcingKeys(elems: nat, f0: seq<nat>, forced: set<nat>, h: seq<nat>, len: nat, f: seq<nat>, dp: seq<nat>, dp': seq<nat>, maxCode: int)
    requires Forcing(elems, f0, forced, h, len, f, dp, maxCode) && |dp| == |dp'|
    ensures Forcing(elems, f0, forced, h, len, f, dp', maxCode)
  {
    hide Heap.IsQueue, Heap.Elements, Occurring, Forced, ToForce, IsMaxCode;
    Heap.AnyKeys(h, len, f, dp, f, dp');
  }

  lemma ForcingEnd(elems: nat, f0: seq<nat>, forced: set<nat>, h: seq<nat>, len: nat, f: seq<nat>, dp: seq<nat>, maxCode: int)
    requires Forcing(elems, f0, forced, h, len, f, dp, maxCode) && len >= 2
    ensures Heap.IsQueue(h, len, f, dp) && Heap.Elements(h, len) == Occurring(f, elems) && IsMaxCode(Occurring(f, elems), maxCode)
    ensures Forced(f0, f, forced) && forced == ToForce(Occurring(f0, elems))
  {
    hide Heap.IsQueue, Heap.Elements, Occurring, Forced, IsMaxCode;
    Heap.ElementsSize(h, len, f, dp);
    assert forced + {} == forced;
  }

  /** How the leaves of the tree come from the symbols: all that occur, and some to make two. */
  ghost predicate FromSymbols(elems: nat, f0: seq<nat>, r: Run, forced: set<nat>, maxCode: nat) {
    && r.elems == elems <= |f0| == |r.freq|
    && r.leaves == Occurring(f0, elems) + forced && |r.leaves| >= 2 && (forced != {} ==> |r.leaves| == 2)
    && forced == ToForce(Occurring(f0, elems))
    && (forall x | x in forced :: x <= 2 && x < elems && f0[x] == 0 && r.freq[x] == 1)
    && (forall x | 0 <= x < elems && x !in forced :: r.freq[x] == f0[x])
    && IsMaxCode(r.leaves, maxCode)
  }

  /** What `build_tree` promises about the lengths `len` and the codes `fc`. */
  ghost predicate Built(d: TreeDesc, r: Run, len: seq<nat>, fc: seq<nat>) {
    && r.Valid() && r.elems == d.elems <= |len| == |fc| == |r.freq|
    && ValidLens(len[..d.elems]) && Complete(len[..d.elems])
    && (forall x | 0 <= x < d.elems :: len[x] <= d.maxLength)
    && (forall x | 0 <= x < d.elems :: len[x] > 0 <==> x in r.leaves)
    && (forall x | 0 <= x < d.elems && x in r.leaves :: fc[x] == Rev(len[x], Code(len[..d.elems], x)))
    && (Shallow(r, d) ==> Cost(r.leaves, r.freq, len) == MergeCost(r.m, r.elems, r.freq, 0))
    && ByFrequency(r, len) && (Shallow(r, d) ==> AtDepths(r, len))
  }

  // ------------------------------------------------------------ the merges

  /** The nodes removed so far, from the end of the heap array down, with their fathers. */
  ghost predicate Recorded(m: Merges, elems: nat, h: seq<nat>, dl: seq<nat>) {
    && |h| == HEAP_SIZE && 2 * |m| <= HEAP_SIZE
    && (forall t | 0 <= t < |m| :: h[HEAP_SIZE - 1 - 2 * t] == m[t].0)
    && (forall t | 0 <= t < |m| :: h[HEAP_SIZE - 2 - 2 * t] == m[t].1)
    && forall t | 0 <= t < |m| ::
         m[t].0 < |dl| && m[t].1 < |dl| && dl[m[t].0] == elems + t && dl[m[t].1] == elems + t
  }

  ghost predicate Queued(m: Merges, leaves: set<nat>, elems: nat, h: seq<nat>, len: nat, f: seq<nat>, dp: seq<nat>) {
    && Heap.IsQueue(h, len, f, dp) && Heap.HeapFrom(h, len, 1, f, dp)
    && Heap.Elements(h, len) == State(m, leaves, elems, |m|)
  }

  /** The state of `build_tree` between two merges. */
  ghost predicate Building(m: Merges, leaves: set<nat>, elems: nat, h: seq<nat>, len: nat, f: seq<nat>, dp: seq<nat>, dl: seq<nat>, total: nat) {
    && History(m, leaves, elems) && Weighted(m, elems, f) && Greedy(m, leaves, elems, f)
    && |leaves| == len + |m| && 1 <= len && |leaves| <= elems <= 286
    && elems + |leaves| - 1 <= |f| == |dl|
    && Queued(m, leaves, elems, h, len, f, dp)
    && Recorded(m, elems, h, dl)
    && Sum(State(m, leaves, elems, |m|), f) == total
  }

  lemma BuildingNext(m: Merges, leaves: set<nat>, elems: nat, h: seq<nat>, len: nat, f: seq<nat>, dp: seq<nat>, dl: seq<nat>, total: nat,
                     a: nat, b: nat, h': seq<nat>, f': seq<nat>, dp': seq<nat>, dl': seq<nat>)
    requires Building(m, leaves, elems, h, len, f, dp, dl, total) && len >= 2
    requires a != b && a in State(m, leaves, elems, |m|) && b in State(m, leaves, elems, |m|)
    requires a < |f| && b < |f| && TwoLeast(State(m, leaves, elems, |m|), a, b, f)
    requires f' == f[elems + |m| := f[a] + f[b]] && dl' == dl[a := elems + |m|][b := elems + |m|]
    requires Heap.IsQueue(h', len - 1, f', dp') && Heap.HeapFrom(h', len - 1, 1, f', dp')
    requires Heap.Elements(h', len - 1) == State(m, leaves, elems, |m|) - {a, b} + {elems + |m|}
    requires |h'| == HEAP_SIZE && h'[HEAP_SIZE - 1 - 2 * |m|] == a && h'[HEAP_SIZE - 2 - 2 * |m|] == b
    requires forall i | HEAP_SIZE - 2 * |m| <= i < HEAP_SIZE :: h'[i] == h[i]
    ensures Building(m + [(a, b)], leaves, elems, h', len - 1, f', dp', dl', total)
  {
    hide Heap.IsQueue, Heap.HeapFrom, Heap.Elements, History, Weighted, Greedy, Sum, TwoLeast, State;
    StateBelow(m, leaves, elems, |m|);
    Extend(m, leaves, elems, f, f', a, b);
    MergeKeepsTotal(State(m, leaves, elems, |m|), f, f', a, b, elems + |m|);
    RecordedNext(m, leaves, elems, h, dl, a, b, h', dl');
  }

  lemma RecordedNext(m: Merges, leaves: set<nat>, elems: nat, h: seq<nat>, dl: seq<nat>, a: nat, b: nat, h': seq<nat>, dl': seq<nat>)
    requires History(m, leaves, elems) && Recorded(m, elems, h, dl) && 2 * |m| + 2 <= HEAP_SIZE
    requires a in State(m, leaves, elems, |m|) && b in State(m, leaves, elems, |m|)
    requires a < |dl| && b < |dl| && dl' == dl[a := elems + |m|][b := elems + |m|]
    requires |h'| == HEAP_SIZE && h'[HEAP_SIZE - 1 - 2 * |m|] == a && h'[HEAP_SIZE - 2 - 2 * |m|] == b
    requires forall i | HEAP_SIZE - 2 * |m| <= i < HEAP_SIZE :: h'[i] == h[i]
    ensures Recorded(m + [(a, b)], elems, h', dl')
  {
    hide State, History;
    var m' := m + [(a, b)];
    forall t | 0 <= t < |m'|
      ensures h'[HEAP_SIZE - 1 - 2 * t] == m'[t].0 && h'[HEAP_SIZE - 2 - 2 * t] == m'[t].1
      ensures m'[t].0 < |dl| && m'[t].1 < |dl| && dl'[m'[t].0] == elems + t && dl'[m'[t].1] == elems + t
    {
      if t < |m| {
        assert h[HEAP_SIZE - 1 - 2 * t] == m[t].0 && h[HEAP_SIZE - 2 - 2 * t] == m[t].1;
        GoneFromState(m, leaves, elems, t, |m|);
      }
    }
  }

  lemma {:induction false} GoneFromState(m: Merges, leaves: set<nat>, elems: nat, j: nat, t: nat)
    requires History(m, leaves, elems) && j < t <= |m|
    ensures m[j].0 !in State(m, leaves, elems, t) && m[j].1 !in State(m, leaves, elems, t)
    decreases t
  {
    hide History;
    Sons(m, leaves, elems, j);
    StateBelow(m, leaves, elems, j);
    if j + 1 < t { GoneFromState(m, leaves, elems, j, t - 1); }
  }

  /** When one node is left the history is a run. */
  lemma BuiltRun(m: Merges, leaves: set<nat>, elems: nat, h: seq<nat>, f: seq<nat>, dp: seq<nat>, dl: seq<nat>, total: nat)
    requires Building(m, leaves, elems, h, 1, f, dp, dl, total) && |leaves| >= 2
    ensures var r := Run(m, leaves, elems, f);
            && r.Valid() && |h| == HEAP_SIZE && 2 * |m| + 2 < HEAP_SIZE
            && InOrder(r, h[HEAP_SIZE - 1 - 2 * |m| := h[1]], HEAP_SIZE - 1 - 2 * |m|)
            && Dads(r, |m|, dl)
  {
    hide Sum, State, History, Weighted, Greedy;
    var r := Run(m, leaves, elems, f);
    RootAlone(r);
    assert h[1] in Heap.Elements(h, 1);
    var h' := h[HEAP_SIZE - 1 - 2 * |m| := h[1]];
    forall t | 0 <= t < |m|
      ensures h'[HEAP_SIZE - 1 - 2 * t] == m[t].0 && h'[HEAP_SIZE - 2 - 2 * t] == m[t].1
    {
      assert h[HEAP_SIZE - 1 - 2 * t] == m[t].0 && h[HEAP_SIZE - 2 - 2 * t] == m[t].1;
    }
  }

  lemma BuildingFacts(m: Merges, leaves: set<nat>, elems: nat, h: seq<nat>, len: nat, f: seq<nat>, dp: seq<nat>, dl: seq<nat>, total: nat)
    requires Building(m, leaves, elems, h, len, f, dp, dl, total)
    ensures History(m, leaves, elems) && |leaves| == len + |m| && 1 <= len && |leaves| <= elems <= 286
    ensures elems + |leaves| - 1 <= |f| == |dl| && |h| == HEAP_SIZE && len < |h|
    ensures Heap.IsQueue(h, len, f, dp) && Heap.HeapFrom(h, len, 1, f, dp)
    ensures Heap.Elements(h, len) == State(m, leaves, elems, |m|)
    ensures Sum(State(m, leaves, elems, |m|), f) == total
  {
  }

  lemma MergeFacts(m: Merges, leaves: set<nat>, elems: nat, f: seq<nat>, a: nat, b: nat, total: nat)
    requires History(m, leaves, elems) && elems + |m| < |f| && Sum(State(m, leaves, elems, |m|), f) == total
    requires a != b && a in State(m, leaves, elems, |m|) && b in State(m, leaves, elems, |m|) && a < |f| && b < |f|
    ensures a < elems + |m| && b < elems + |m| && f[a] + f[b] <= total
    ensures forall x | x in State(m, leaves, elems, |m|) :: x < elems + |m|
    ensures (a < elems ==> a in leaves) && (b < elems ==> b in leaves)
  {
    hide Sum, State;
    StateBelow(m, leaves, elems, |m|);
    MergeKeepsTotal(State(m, leaves, elems, |m|), f, f[elems + |m| := f[a] + f[b]], a, b, elems + |m|);
    LeafOrNode(m, leaves, elems, |m|, a);
    LeafOrNode(m, leaves, elems, |m|, b);
  }

  /** Sifting touches only the queue, so what was recorded stays. */
  lemma HeapKept(h0: seq<nat>, h1: seq<nat>, h2: seq<nat>, h3: seq<nat>, len: nat, k: nat, a: nat, b: nat)
    requires |h0| == |h1| == |h2| == |h3| == HEAP_SIZE && 2 <= len && len + 2 * k + 2 < HEAP_SIZE
    requires forall i | len < i < HEAP_SIZE :: h1[i] == h0[i]
    requires h2 == h1[HEAP_SIZE - 2 * k - 1 := a][HEAP_SIZE - 2 * k - 2 := b]
    requires forall i | len - 1 < i < HEAP_SIZE :: h3[i] == h2[i]
    ensures h3[HEAP_SIZE - 1 - 2 * k] == a && h3[HEAP_SIZE - 2 - 2 * k] == b
    ensures forall i | HEAP_SIZE - 2 * k <= i < HEAP_SIZE :: h3[i] == h0[i]
  {
  }

  lemma LeastPair(s: set<nat>, a: nat, b: nat, f: seq<nat>)
    requires a < |f| && b < |f|
    requires forall x | x in s :: x < |f| && f[a] <= f[x]
    requires forall x | x in s - {a} :: x < |f| && f[b] <= f[x]
    ensures TwoLeast(s, a, b, f)
  {
  }

  lemma {:induction false} LeafOrNode(m: Merges, leaves: set<nat>, elems: nat, t: nat, x: nat)
    requires t <= |m| && x in State(m, leaves, elems, t)
    ensures x in leaves || x >= elems
  {
    if t > 0 && x != elems + t - 1 { LeafOrNode(m, leaves, elems, t - 1, x); }
  }

  /** What `gen_bitlen` promises about the lengths of the leaves. */
  ghost predicate GoodLengths(r: Run, d: TreeDesc, len: seq<nat>, bl: seq<nat>)
    requires r.Valid()
  {
    && |len| == |r.freq| && LeavesInRange(r.leaves, r.elems, len)
    && bl == Counts(r.leaves, r.elems, len)
    && 1 <= d.maxLength <= MAXBITS && Excessive(bl, d.maxLength, 0, |r.leaves|)
    && (Shallow(r, d) ==> Cost(r.leaves, r.freq, len) == MergeCost(r.m, r.elems, r.freq, 0))
    && ByFrequency(r, len) && (Shallow(r, d) ==> AtDepths(r, len))
  }

  /** The length of every leaf is its depth in the Huffman tree. */
  ghost predicate AtDepths(r: Run, len: seq<nat>)
    requires r.Valid()
  {
    forall x | x in r.leaves && x < |len| && x < |r.freq| :: len[x] == Depths(r)[x]
  }

  /** No leaf of the Huffman tree is deeper than the maximum length. */
  ghost predicate Shallow(r: Run, d: TreeDesc)
    requires r.Valid()
  {
    forall x | x in r.leaves && x < |Depths(r)| :: Depths(r)[x] <= d.maxLength
  }

  lemma FirstPassOpt(r: Run, d: TreeDesc, len: seq<nat>, slen: seq<nat>, bl: seq<nat>, opt: int, stat: int)
    requires r.Valid() && d.extraBase + |d.extraBits| == d.elems
    requires PassTotals(r, 0, d, len, slen, bl, opt, stat)
    ensures |len| == |r.freq| && opt == Sum(r.leaves, LeafBits(d, r.freq, len))
  {
  }

  lemma LeavesFit(r: Run, d: TreeDesc)
    requires r.Valid() && d.Valid() && r.elems == d.elems
    ensures |r.leaves| <= Pow2(d.maxLength)
  {
    hide Pow2, Run.At;
    LeavesBelow(r);
    BoundedSize(r.leaves, r.elems);
  }

  lemma {:induction false} BoundedSize(s: set<nat>, n: nat)
    requires forall x | x in s :: x < n
    ensures |s| <= n
  {
    if n == 0 {
      assert s == {};
    } else {
      BoundedSize(s - {n - 1}, n - 1);
      assert |s| <= |s - {n - 1}| + 1;
    }
  }

  lemma NothingCut(r: Run, d: TreeDesc, len: seq<nat>, bl: seq<nat>)
    requires r.Valid() && 1 <= d.maxLength <= MAXBITS
    requires PassKraft(r, 0, len, d.maxLength, 0) && LeavesInRange(r.leaves, r.elems, len)
    requires bl == Counts(r.leaves, r.elems, len) && Excessive(bl, d.maxLength, 0, |r.leaves|)
    ensures GoodLengths(r, d, len, bl)
  {
    hide Sum, Counts, Excessive, LeavesInRange, Pow2, ByFrequency;
    assert PassDepth(r, 0, len, d.maxLength, 0);
    DepthsByFrequency(r, len);
  }

  lemma CutSomewhere(r: Run, d: TreeDesc, len: seq<nat>, excess: nat)
    requires r.Valid() && 1 <= d.maxLength <= MAXBITS && excess > 0
    requires PassKraft(r, 0, len, d.maxLength, excess)
    ensures !Shallow(r, d)
  {
    hide Sum, Pow2, Cost, MergeCost;
    assert PassDepth(r, 0, len, d.maxLength, excess);
  }

  lemma ExcessiveFacts(c: seq<nat>, max: nat, excess: nat, n: nat)
    requires 1 <= max <= MAXBITS && Excessive(c, max, excess, n)
    ensures |c| == MAXBITS + 1 && c[0] == 0 && (forall b | max < b <= MAXBITS :: c[b] == 0)
    ensures TotalOf(c, MAXBITS) == n
  {
  }

  lemma Repaired(r: Run, d: TreeDesc, len: seq<nat>, bl: seq<nat>)
    requires r.Valid() && |len| == |r.freq| && 1 <= d.maxLength <= MAXBITS && !Shallow(r, d)
    requires LeavesInRange(r.leaves, r.elems, len) && bl == Counts(r.leaves, r.elems, len)
    requires Excessive(bl, d.maxLength, 0, |r.leaves|) && ByFrequency(r, len)
    ensures GoodLengths(r, d, len, bl)
  {
  }

  lemma ScanNone(r: Run)
    requires |r.m| >= 1 && 2 * |r.m| < HEAP_SIZE
    ensures Scanned(r, HEAP_SIZE, {})
  {
  }

  lemma GradedNone(r: Run, len: seq<nat>, bits: nat)
    ensures Graded(r, len, {}, bits)
  {
  }

  lemma GradedNext(r: Run, len: seq<nat>, a: set<nat>, bits: nat)
    requires Graded(r, len, a, bits) && bits > 0
    ensures Graded(r, len, a, bits - 1)
  {
  }

  lemma GradedAll(r: Run, len: seq<nat>)
    requires Graded(r, len, r.leaves, 0)
    ensures ByFrequency(r, len)
  {
  }

  lemma ScanKind(r: Run, p: nat, maxCode: nat)
    requires r.Valid() && HEAP_SIZE - 1 - 2 * |r.m| < p < HEAP_SIZE
    requires maxCode < r.elems && forall x | x in r.leaves :: x <= maxCode
    ensures NodeAt(r, p) <= maxCode <==> NodeAt(r, p) in r.leaves
  {
    hide Run.Valid, Run.At;
    var t := (HEAP_SIZE - 1 - p) / 2;
    RunFacts(r, t);
    LeafOrInner(r, t, r.m[t].0);
    LeafOrInner(r, t, r.m[t].1);
  }

  lemma AssignNext(leaves: set<nat>, elems: nat, len: seq<nat>, a: set<nat>, bl: seq<nat>, bits: nat)
    requires Assigned(leaves, elems, len, a, bl, bits, 0) && bits >= 1
    ensures |bl| == MAXBITS + 1 && Assigned(leaves, elems, len, a, bl, bits - 1, bl[bits - 1])
  {
  }

  lemma AssignedRange(leaves: set<nat>, elems: nat, len: seq<nat>, a: set<nat>, bl: seq<nat>)
    requires Assigned(leaves, elems, len, a, bl, 0, 0)
    ensures LeavesInRange(a, elems, len)
  {
  }

  lemma PassInvDads(r: Run, t: nat, d: TreeDesc, slen: seq<nat>, p: Pass)
    requires r.Valid() && d.Valid() && PassInv(r, t, d, slen, p)
    ensures Dads(r, t, p.len)
  {
  }

  lemma PassInvEnd(r: Run, d: TreeDesc, slen: seq<nat>, p: Pass)
    requires r.Valid() && d.Valid() && PassInv(r, 0, d, slen, p)
    ensures p.overflow % 2 == 0 && PassKraft(r, 0, p.len, d.maxLength, p.overflow / 2)
    ensures PassTotals(r, 0, d, p.len, slen, p.bl, p.opt, p.stat)
    ensures |slen| == |r.freq| && p.stat == Sum(r.leaves, LeafBits(d, r.freq, slen))
  {
    hide PassKraft, Sum, Pow2;
  }

  // ------------------------------------------------------------ putting the parts together

  lemma ForcedOccurring(f0: seq<nat>, f1: seq<nat>, forced: set<nat>, elems: nat)
    requires Forced(f0, f1, forced) && 3 <= elems <= |f0|
    ensures Occurring(f1, elems) == Occurring(f0, elems) + forced && Occurring(f0, elems) !! forced
  {
  }

  lemma ForcedTotal(f0: seq<nat>, f1: seq<nat>, forced: set<nat>, elems: nat)
    requires Forced(f0, f1, forced) && 3 <= elems <= |f0|
    ensures Sum(Occurring(f1, elems), f1) == Sum(Occurring(f0, elems), f0) + |forced|
  {
    hide Occurring;
    ForcedOccurring(f0, f1, forced, elems);
    SumSplit(Occurring(f1, elems), Occurring(f0, elems), forced, f1);
    SumAgree(Occurring(f0, elems), f0, f1);
    SumOfOnes(forced, f1, |f1|);
    assert BitLengths.Below(forced, |f1|) == forced;
  }

  lemma BuildingStart(elems: nat, h: seq<nat>, len: nat, f: seq<nat>, dp: seq<nat>, dl: seq<nat>)
    requires Heap.IsQueue(h, len, f, dp) && Heap.HeapFrom(h, len, 1, f, dp) && |h| == HEAP_SIZE
    requires Heap.Elements(h, len) == Occurring(f, elems)
    requires 2 <= len <= elems <= 286 && 2 * elems <= |f| == |dl|
    ensures Building([], Occurring(f, elems), elems, h, len, f, dp, dl, Sum(Occurring(f, elems), f))
  {
    hide Sum, Heap.IsQueue, Heap.HeapFrom;
    Heap.ElementsSize(h, len, f, dp);
  }

  lemma MaxInSet(h: seq<nat>, len: nat, f: seq<nat>, dp: seq<nat>, elems: nat, max: int)
    requires Heap.IsQueue(h, len, f, dp) && len >= 1 && Heap.Elements(h, len) == Occurring(f, elems)
    requires IsMaxCode(Occurring(f, elems), max)
    ensures max >= 0
  {
    hide Occurring;
    assert h[1] in Heap.Elements(h, len);
  }

  lemma Gathered(elems: nat, h: seq<nat>, len: nat, dp: seq<nat>, f0: seq<nat>, f1: seq<nat>, f: seq<nat>, m: Merges, forced: set<nat>, maxCode: nat)
    requires Forced(f0, f1, forced) && 3 <= elems <= |f0| == |f| && (forall x | 0 <= x < elems :: f[x] == f1[x])
    requires Heap.IsQueue(h, len, f1, dp) && Heap.Elements(h, len) == Occurring(f1, elems)
    requires len >= 2 && (forced != {} ==> len == 2) && IsMaxCode(Occurring(f1, elems), maxCode) && forced == ToForce(Occurring(f0, elems))
    ensures FromSymbols(elems, f0, Run(m, Occurring(f1, elems), elems, f), forced, maxCode)
  {
    hide Occurring, Heap.IsQueue, IsMaxCode;
    Heap.ElementsSize(h, len, f1, dp);
    ForcedOccurring(f0, f1, forced, elems);
  }

  lemma NotLeaf(f0: seq<nat>, f1: seq<nat>, forced: set<nat>, elems: nat, dl: seq<nat>)
    requires Forced(f0, f1, forced) && elems <= |f0| && elems <= |dl|
    requires forall x | 0 <= x < elems && f0[x] == 0 :: dl[x] == 0
    ensures forall x | 0 <= x < elems && x !in Occurring(f1, elems) :: dl[x] == 0
  {
  }

  lemma FromSymbolsMax(elems: nat, f0: seq<nat>, r: Run, forced: set<nat>, maxCode: nat)
    requires FromSymbols(elems, f0, r, forced, maxCode)
    ensures maxCode < elems && forall x | x in r.leaves :: x <= maxCode
  {
  }

  /** The lengths are fit for `gen_codes`. */
  lemma GoodSymbols(d: TreeDesc, r: Run, len: seq<nat>, bl: seq<nat>, maxCode: nat)
    requires r.Valid() && r.elems == d.elems && GoodLengths(r, d, len, bl)
    requires forall x | 0 <= x < d.elems && x !in r.leaves :: len[x] == 0
    requires forall x | x in r.leaves :: x <= maxCode
    ensures d.elems <= |len| && ValidLens(len[..d.elems]) && Complete(len[..d.elems]) && !OverSubscribed(len[..d.elems])
    ensures |bl| == MAXBITS + 1 && bl[0] == 0 && forall b | 1 <= b <= MAXBITS :: bl[b] == Total(len[..d.elems], b)
    ensures forall s | maxCode < s < d.elems :: len[..d.elems][s] == 0
    ensures forall x | 0 <= x < d.elems :: len[x] <= d.maxLength
  {
    hide Run.Valid, Counts, Sum, Cost, MergeCost, KraftOf, TotalOf, Kraft, Total;
    SymbolLengths(r.leaves, r.elems, len, bl, d.maxLength);
  }

  lemma BuiltFrom(d: TreeDesc, r: Run, len: seq<nat>, bl: seq<nat>, fc: seq<nat>)
    requires r.Valid() && r.elems == d.elems <= |len| && GoodLengths(r, d, len, bl)
    requires forall x | 0 <= x < d.elems && x !in r.leaves :: len[x] == 0
    requires ValidLens(len[..d.elems]) && Complete(len[..d.elems])
    requires forall x | 0 <= x < d.elems :: len[x] <= d.maxLength
    requires GenCodes.Coded(len[..d.elems], r.freq, fc, d.elems)
    ensures Built(d, r, len, fc)
  {
    hide Run.Valid, Counts, Sum, Cost, MergeCost, KraftOf, TotalOf, Complete, ValidLens, Excessive, Code, Rev;
    LeavesBelow(r);
  }

  /** The bits of the real symbols: each forced one has been taken off beforehand. */
  lemma OptTotal(d: TreeDesc, f0: seq<nat>, r: Run, forced: set<nat>, maxCode: nat, len: seq<nat>, bl: seq<nat>)
    requires r.Valid() && d.extraBase + |d.extraBits| == d.elems && d.elems >= 3 && FromSymbols(d.elems, f0, r, forced, maxCode)
    requires d.XBits(0) == d.XBits(1) == d.XBits(2) == 0
    requires GoodLengths(r, d, len, bl)
    ensures Sum(r.leaves, LeafBits(d, r.freq, len)) == TotalBits(d, f0, len, d.elems) + |forced|
  {
    hide Run.Valid, Counts, Cost, MergeCost, KraftOf, TotalOf, Excessive, LeafBits, TotalBits, SumTo;
    StaticTotal(d, f0, r, forced, maxCode, len);
    if forced != {} {
      TwoLeaves(r.leaves, r.elems, len, bl, d.maxLength);
      SumOfOnes(forced, len, |len|);
      assert BitLengths.Below(forced, |len|) == forced;
    } else {
      SumNone(len);
    }
  }

  lemma StaticTotal(d: TreeDesc, f0: seq<nat>, r: Run, forced: set<nat>, maxCode: nat, len: seq<nat>)
    requires r.Valid() && d.extraBase + |d.extraBits| == d.elems && d.elems >= 3 && FromSymbols(d.elems, f0, r, forced, maxCode)
    requires d.XBits(0) == d.XBits(1) == d.XBits(2) == 0 && |len| == |r.freq|
    ensures Sum(r.leaves, LeafBits(d, r.freq, len)) == TotalBits(d, f0, len, d.elems) + Sum(forced, len)
  {
    hide Run.Valid, LeafBits, TotalBits;
    LeavesBelow(r);
    LeafTotal(d, f0, r.freq, len, r.leaves, forced, d.elems);
    SumToTail(r.leaves, LeafBits(d, r.freq, len), d.elems, |len|);
    SumToTail(forced, len, d.elems, |len|);
  }

  /**
   If no leaf of the tree is deeper than the maximum length, no prefix code for the same
   symbols takes fewer bits in total than the lengths that `build_tree` chose.
   */
  lemma BuiltIsOptimal(d: TreeDesc, r: Run, len: seq<nat>, fc: seq<nat>, words: seq<seq<bool>>, b: nat)
    requires Built(d, r, len, fc) && Shallow(r, d)
    requires PrefixFree(r.leaves, words) && |words| == |r.freq|
    requires forall x | x in r.leaves :: x < |words| && |words[x]| <= b
    ensures Cost(r.leaves, r.freq, len) <= Cost(r.leaves, r.freq, Lengths(words))
  {
    hide Cost, MergeCost, PrefixFree, Fits, Complete, ValidLens;
    PrefixFreeFits(r.leaves, words, b);
    LeavesBelow(r);
    MergesAreOptimal(r.m, r.leaves, r.elems, 0, b, r.freq, Lengths(words));
  }
}
