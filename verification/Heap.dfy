/**
 The priority queue of trees.c: an array heap of tree nodes, least frequent first, ties broken
 by the depth of the subtree.  `heap[0]` is not used; the sons of `heap[k]` are `heap[2 * k]`
 and `heap[2 * k + 1]`.
 */
module Heap {

  /** The macro `smaller`: the order of the heap. */
  predicate Smaller(freq: seq<nat>, depth: seq<nat>, n: nat, m: nat)
    requires n < |freq| && m < |freq| && n < |depth| && m < |depth|
  {
    freq[n] < freq[m] || (freq[n] == freq[m] && depth[n] <= depth[m])
  }

  /** The queue holds nodes, in `h[1..len + 1]`, each once. */
  ghost predicate IsQueue(h: seq<nat>, len: nat, freq: seq<nat>, depth: seq<nat>) {
    && len < |h|
    && (forall i | 1 <= i <= len :: h[i] < |freq| && h[i] < |depth|)
    && (forall i, j | 1 <= i < j <= len :: h[i] != h[j])
  }

  ghost function Elements(h: seq<nat>, len: nat): set<nat>
    requires len < |h|
  {
    set i | 1 <= i <= len :: h[i]
  }

  /** Each node from `k` on is smaller than its sons. */
  ghost predicate HeapFrom(h: seq<nat>, len: nat, k: nat, freq: seq<nat>, depth: seq<nat>)
    requires IsQueue(h, len, freq, depth)
  {
    forall i | 2 <= i <= len && i / 2 >= k :: Smaller(freq, depth, h[i / 2], h[i])
  }

  /** The same except that the node at `k` may be too large for its sons. */
  ghost predicate HeapBut(h: seq<nat>, len: nat, k0: nat, k: nat, freq: seq<nat>, depth: seq<nat>)
    requires IsQueue(h, len, freq, depth) && 1 <= k <= len
  {
    && (forall i | 2 <= i <= len && i / 2 >= k0 && i / 2 != k :: Smaller(freq, depth, h[i / 2], h[i]))
    && (forall i | 2 <= i <= len && i / 2 == k && k / 2 >= k0 && k >= 2 :: Smaller(freq, depth, h[k / 2], h[i]))
  }

  /** `h'` holds the same nodes as `h`, and is the same outside the queue. */
  ghost predicate SameQueue(h: seq<nat>, h': seq<nat>, len: nat)
    requires len < |h|
  {
    && |h'| == |h|
    && Elements(h', len) == Elements(h, len)
    && (forall i | len < i < |h| :: h'[i] == h[i])
  }

  function Swap(h: seq<nat>, i: nat, j: nat): seq<nat>
    requires i < |h| && j < |h|
  {
    h[i := h[j]][j := h[i]]
  }

  lemma SwapQueue(h: seq<nat>, len: nat, i: nat, j: nat, freq: seq<nat>, depth: seq<nat>)
    requires IsQueue(h, len, freq, depth) && 1 <= i <= len && 1 <= j <= len
    ensures IsQueue(Swap(h, i, j), len, freq, depth)
    ensures SameQueue(h, Swap(h, i, j), len)
  {
    var h' := Swap(h, i, j);
    forall x
      ensures x in Elements(h, len) <==> x in Elements(h', len)
    {
      if x in Elements(h, len) {
        var p :| 1 <= p <= len && h[p] == x;
        var q := if p == i then j else if p == j then i else p;
        assert h'[q] == x;
      }
      if x in Elements(h', len) {
        var p :| 1 <= p <= len && h'[p] == x;
        var q := if p == i then j else if p == j then i else p;
        assert h[q] == x;
      }
    }
  }

  lemma SameQueueTrans(h: seq<nat>, h': seq<nat>, h'': seq<nat>, len: nat)
    requires len < |h| && SameQueue(h, h', len) && SameQueue(h', h'', len)
    ensures SameQueue(h, h'', len)
  {
  }

  /** The smaller of the two sons of `k`. */
  ghost predicate LeastSon(h: seq<nat>, len: nat, k: nat, j: nat, freq: seq<nat>, depth: seq<nat>)
    requires IsQueue(h, len, freq, depth)
  {
    && 2 <= j <= len && j / 2 == k
    && forall i | 2 <= i <= len && i / 2 == k :: Smaller(freq, depth, h[j], h[i])
  }

  /** Exchanging a node with its smaller son moves the defect down. */
  lemma SiftStep(h: seq<nat>, len: nat, k0: nat, k: nat, j: nat, freq: seq<nat>, depth: seq<nat>)
    requires IsQueue(h, len, freq, depth) && 1 <= k0 <= k <= len
    requires HeapBut(h, len, k0, k, freq, depth) && LeastSon(h, len, k, j, freq, depth)
    requires !Smaller(freq, depth, h[k], h[j])
    ensures IsQueue(Swap(h, k, j), len, freq, depth)
    ensures HeapBut(Swap(h, k, j), len, k0, j, freq, depth)
  {
    SwapQueue(h, len, k, j, freq, depth);
    var h' := Swap(h, k, j);
    forall i | 2 <= i <= len && i / 2 >= k0 && i / 2 != j
      ensures Smaller(freq, depth, h'[i / 2], h'[i])
    {
      if i == k {
        assert Smaller(freq, depth, h[k / 2], h[j]);
      } else if i / 2 == k {
        assert Smaller(freq, depth, h[j], h[i]);
      } else {
        assert Smaller(freq, depth, h[i / 2], h[i]);
      }
    }
    forall i | 2 <= i <= len && i / 2 == j
      ensures Smaller(freq, depth, h'[j / 2], h'[i])
    {
      assert Smaller(freq, depth, h[i / 2], h[i]);
    }
  }

  lemma SiftDone(h: seq<nat>, len: nat, k0: nat, k: nat, freq: seq<nat>, depth: seq<nat>)
    requires IsQueue(h, len, freq, depth) && 1 <= k0 <= k <= len
    requires HeapBut(h, len, k0, k, freq, depth)
    requires forall i | 2 <= i <= len && i / 2 == k :: Smaller(freq, depth, h[k], h[i])
    ensures HeapFrom(h, len, k0, freq, depth)
  {
  }

  lemma LeastSonIs(h: seq<nat>, len: nat, k: nat, j: nat, freq: seq<nat>, depth: seq<nat>)
    requires IsQueue(h, len, freq, depth) && 1 <= k && 2 * k <= len
    requires j == if 2 * k < len && Smaller(freq, depth, h[2 * k + 1], h[2 * k]) then 2 * k + 1 else 2 * k
    ensures LeastSon(h, len, k, j, freq, depth)
  {
    forall i | 2 <= i <= len && i / 2 == k
      ensures Smaller(freq, depth, h[j], h[i])
    {
      assert i == 2 * k || i == 2 * k + 1;
    }
  }

  /** In a heap the first node is smaller than every other. */
  lemma {:induction false} FirstIsLeast(h: seq<nat>, len: nat, i: nat, freq: seq<nat>, depth: seq<nat>)
    requires IsQueue(h, len, freq, depth) && HeapFrom(h, len, 1, freq, depth) && 1 <= i <= len
    ensures Smaller(freq, depth, h[1], h[i])
    decreases i
  {
    if i > 1 {
      FirstIsLeast(h, len, i / 2, freq, depth);
      assert Smaller(freq, depth, h[i / 2], h[i]);
    }
  }

  /** `pqdownheap`: restore the heap property by moving down from node `k0`. */
  method PqDownHeap(heap: array<nat>, heapLen: nat, freq: array<nat>, depth: array<nat>, k0: nat)
    requires heap != freq && heap != depth
    requires IsQueue(heap[..], heapLen, freq[..], depth[..]) && 1 <= k0 <= heapLen
    requires HeapFrom(heap[..], heapLen, k0 + 1, freq[..], depth[..])
    modifies heap
    ensures IsQueue(heap[..], heapLen, freq[..], depth[..])
    ensures SameQueue(old(heap[..]), heap[..], heapLen)
    ensures HeapFrom(heap[..], heapLen, k0, freq[..], depth[..])
  {
    hide SameQueue, IsQueue, HeapBut, HeapFrom, LeastSon;
    ghost var h0, f, d := heap[..], freq[..], depth[..];
    QueueBounds(h0, heapLen, f, d);
    var v := heap[k0];
    var k := k0;
    var j := 2 * k;
    ghost var h := h0;            // the heap with `v` in the hole at `k`
    SiftStart(h0, heapLen, k0, f, d);
    while j <= heapLen
      invariant 1 <= k0 <= k <= heapLen && j == 2 * k
      invariant |h| == heap.Length && h[k] == v && heap[..] == h[k := heap[k]]
      invariant freq[..] == f && depth[..] == d
      invariant IsQueue(h, heapLen, f, d) && SameQueue(h0, h, heapLen)
      invariant HeapBut(h, heapLen, k0, k, f, d)
    {
      QueueBounds(h, heapLen, f, d);
      assert forall i | 1 <= i <= heapLen && i != k :: heap[i] == h[i];
      if j < heapLen && Smaller(freq[..], depth[..], heap[j + 1], heap[j]) {
        j := j + 1;
      }
      LeastSonIs(h, heapLen, k, j, f, d);
      if Smaller(freq[..], depth[..], v, heap[j]) {
        SiftStop(h, heapLen, k0, k, j, f, d);
        break;
      }
      SiftStep(h, heapLen, k0, k, j, f, d);
      SwapQueue(h, heapLen, k, j, f, d);
      SameQueueTrans(h0, h, Swap(h, k, j), heapLen);
      heap[k] := heap[j];
      h := Swap(h, k, j);
      k := j;
      j := 2 * j;
    }
    SiftEnd(h, heapLen, k0, k, f, d);
    heap[k] := v;
    assert heap[..] == h;
  }

  lemma QueueBounds(h: seq<nat>, len: nat, freq: seq<nat>, depth: seq<nat>)
    requires IsQueue(h, len, freq, depth)
    ensures len < |h| && forall i | 1 <= i <= len :: h[i] < |freq| && h[i] < |depth|
  {
  }

  lemma SiftStart(h: seq<nat>, len: nat, k: nat, freq: seq<nat>, depth: seq<nat>)
    requires IsQueue(h, len, freq, depth) && 1 <= k <= len && HeapFrom(h, len, k + 1, freq, depth)
    ensures HeapBut(h, len, k, k, freq, depth) && SameQueue(h, h, len)
  {
  }

  lemma SiftStop(h: seq<nat>, len: nat, k0: nat, k: nat, j: nat, freq: seq<nat>, depth: seq<nat>)
    requires IsQueue(h, len, freq, depth) && 1 <= k0 <= k <= len
    requires HeapBut(h, len, k0, k, freq, depth) && LeastSon(h, len, k, j, freq, depth)
    requires Smaller(freq, depth, h[k], h[j])
    ensures HeapFrom(h, len, k0, freq, depth)
  {
    SiftDone(h, len, k0, k, freq, depth);
  }

  lemma SiftEnd(h: seq<nat>, len: nat, k0: nat, k: nat, freq: seq<nat>, depth: seq<nat>)
    requires IsQueue(h, len, freq, depth) && 1 <= k0 <= k <= len
    requires HeapBut(h, len, k0, k, freq, depth)
    ensures 2 * k > len ==> HeapFrom(h, len, k0, freq, depth)
  {
    if 2 * k > len { SiftDone(h, len, k0, k, freq, depth); }
  }

  // ------------------------------------------------------------ removing and replacing

  /** The last node takes the place of the first. */
  lemma DropFirst(h: seq<nat>, len: nat, freq: seq<nat>, depth: seq<nat>)
    requires IsQueue(h, len, freq, depth) && HeapFrom(h, len, 1, freq, depth) && len >= 2
    ensures var h' := h[1 := h[len]];
            && IsQueue(h', len - 1, freq, depth) && HeapFrom(h', len - 1, 2, freq, depth)
            && Elements(h', len - 1) == Elements(h, len) - {h[1]}
  {
    var h' := h[1 := h[len]];
    forall x
      ensures x in Elements(h', len - 1) <==> x in Elements(h, len) && x != h[1]
    {
      if x in Elements(h, len) && x != h[1] {
        var p :| 1 <= p <= len && h[p] == x;
        assert h'[if p == len then 1 else p] == x;
      }
      if x in Elements(h', len - 1) {
        var p :| 1 <= p <= len - 1 && h'[p] == x;
        assert h[if p == 1 then len else p] == x;
      }
    }
  }

  /** A new node takes the place of the first. */
  lemma ReplaceFirst(h: seq<nat>, len: nat, x: nat, freq: seq<nat>, depth: seq<nat>)
    requires IsQueue(h, len, freq, depth) && HeapFrom(h, len, 1, freq, depth) && len >= 1
    requires x < |freq| && x < |depth| && x !in Elements(h, len)
    ensures var h' := h[1 := x];
            && IsQueue(h', len, freq, depth) && HeapFrom(h', len, 2, freq, depth)
            && Elements(h', len) == Elements(h, len) - {h[1]} + {x}
  {
    var h' := h[1 := x];
    forall y
      ensures y in Elements(h', len) <==> (y in Elements(h, len) && y != h[1]) || y == x
    {
      if y in Elements(h, len) && y != h[1] {
        var p :| 1 <= p <= len && h[p] == y;
        assert h'[p] == y;
      }
      if y in Elements(h', len) {
        var p :| 1 <= p <= len && h'[p] == y;
        if p != 1 { assert h[p] == y; }
      }
      assert h'[1] == x;
    }
  }

  /** Only the queued nodes matter. */
  lemma SameKeys(h: seq<nat>, h': seq<nat>, len: nat, k: nat, freq: seq<nat>, depth: seq<nat>, freq': seq<nat>, depth': seq<nat>)
    requires IsQueue(h, len, freq, depth) && HeapFrom(h, len, k, freq, depth)
    requires len < |h'| && forall i | 1 <= i <= len :: h'[i] == h[i]
    requires forall x | x in Elements(h, len) :: x < |freq'| && x < |depth'| && freq'[x] == freq[x] && depth'[x] == depth[x]
    ensures IsQueue(h', len, freq', depth') && HeapFrom(h', len, k, freq', depth')
    ensures Elements(h', len) == Elements(h, len)
  {
    assert forall i | 1 <= i <= len :: h[i] in Elements(h, len);
  }

  /** The first node has the least frequency. */
  lemma FirstFrequency(h: seq<nat>, len: nat, freq: seq<nat>, depth: seq<nat>)
    requires IsQueue(h, len, freq, depth) && HeapFrom(h, len, 1, freq, depth) && len >= 1
    ensures h[1] in Elements(h, len)
    ensures forall x | x in Elements(h, len) :: x < |freq| && freq[h[1]] <= freq[x]
  {
    forall x | x in Elements(h, len)
      ensures x < |freq| && freq[h[1]] <= freq[x]
    {
      var i :| 1 <= i <= len && h[i] == x;
      FirstIsLeast(h, len, i, freq, depth);
    }
  }

  /** One more node at the end. */
  lemma Push(h: seq<nat>, len: nat, x: nat, freq: seq<nat>, depth: seq<nat>)
    requires IsQueue(h, len, freq, depth) && len + 1 < |h|
    requires x < |freq| && x < |depth| && x !in Elements(h, len)
    ensures IsQueue(h[len + 1 := x], len + 1, freq, depth)
    ensures Elements(h[len + 1 := x], len + 1) == Elements(h, len) + {x}
  {
    var h' := h[len + 1 := x];
    assert forall i | 1 <= i <= len :: h[i] in Elements(h, len);
    forall y
      ensures y in Elements(h', len + 1) <==> y in Elements(h, len) || y == x
    {
      if y in Elements(h, len) {
        var p :| 1 <= p <= len && h[p] == y;
        assert h'[p] == y;
      }
      if y in Elements(h', len + 1) {
        var p :| 1 <= p <= len + 1 && h'[p] == y;
        if p <= len { assert h[p] == y; }
      }
      assert h'[len + 1] == x;
    }
  }

  /** Without the heap property, keys do not matter. */
  lemma AnyKeys(h: seq<nat>, len: nat, freq: seq<nat>, depth: seq<nat>, freq': seq<nat>, depth': seq<nat>)
    requires IsQueue(h, len, freq, depth) && |freq'| == |freq| && |depth'| == |depth|
    ensures IsQueue(h, len, freq', depth')
  {
  }

  lemma {:induction false} ElementsSize(h: seq<nat>, len: nat, freq: seq<nat>, depth: seq<nat>)
    requires IsQueue(h, len, freq, depth)
    ensures |Elements(h, len)| == len
  {
    if len == 0 {
      assert Elements(h, 0) == {};
    } else {
      ElementsSize(h, len - 1, freq, depth);
      assert Elements(h, len) == Elements(h, len - 1) + {h[len]};
      assert h[len] !in Elements(h, len - 1);
    }
  }
}
