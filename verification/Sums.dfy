/** Sums of the entries of a sequence over a set of its indices. */
module Sums {
  import opened Bits

  ghost function SumTo(s: set<nat>, f: seq<nat>, n: nat): nat
    requires n <= |f|
  {
    if n == 0 then 0 else SumTo(s, f, n - 1) + if n - 1 in s then f[n - 1] else 0
  }

  ghost function Sum(s: set<nat>, f: seq<nat>): nat {
    SumTo(s, f, |f|)
  }

  lemma {:induction false} SumToAgree(s: set<nat>, t: set<nat>, f: seq<nat>, g: seq<nat>, n: nat)
    requires n <= |f| && n <= |g|
    requires forall x: nat | x < n :: x in s <==> x in t
    requires forall x: nat | x < n && x in s :: f[x] == g[x]
    ensures SumTo(s, f, n) == SumTo(t, g, n)
  {
    if n > 0 { SumToAgree(s, t, f, g, n - 1); }
  }

  lemma SumAgree(s: set<nat>, f: seq<nat>, g: seq<nat>)
    requires |f| == |g| && forall x: nat | x < |f| && x in s :: f[x] == g[x]
    ensures Sum(s, f) == Sum(s, g)
  {
    SumToAgree(s, s, f, g, |f|);
  }

  lemma {:induction false} SumToRemove(s: set<nat>, f: seq<nat>, x: nat, n: nat)
    requires x in s && x < n <= |f|
    ensures SumTo(s, f, n) == SumTo(s - {x}, f, n) + f[x]
  {
    if x == n - 1 {
      SumToAgree(s, s - {x}, f, f, n - 1);
    } else {
      SumToRemove(s, f, x, n - 1);
    }
  }

  lemma SumRemove(s: set<nat>, f: seq<nat>, x: nat)
    requires x in s && x < |f|
    ensures Sum(s, f) == Sum(s - {x}, f) + f[x]
  {
    SumToRemove(s, f, x, |f|);
  }

  lemma SumAdd(s: set<nat>, f: seq<nat>, x: nat)
    requires x !in s && x < |f|
    ensures Sum(s + {x}, f) == Sum(s, f) + f[x]
  {
    SumRemove(s + {x}, f, x);
    assert s + {x} - {x} == s;
  }

  /** Changing one entry. */
  lemma SumUpdate(s: set<nat>, f: seq<nat>, x: nat, v: nat)
    requires x < |f|
    ensures x in s ==> Sum(s, f[x := v]) == Sum(s, f) - f[x] + v
    ensures x !in s ==> Sum(s, f[x := v]) == Sum(s, f)
  {
    if x in s {
      SumRemove(s, f, x);
      SumRemove(s, f[x := v], x);
      SumAgree(s - {x}, f, f[x := v]);
    } else {
      SumAgree(s, f, f[x := v]);
    }
  }

  lemma {:induction false} SumToEmpty(f: seq<nat>, n: nat)
    requires n <= |f|
    ensures SumTo({}, f, n) == 0
  {
    if n > 0 { SumToEmpty(f, n - 1); }
  }

  /** Every entry divides evenly, so does the sum. */
  ghost predicate Multiple(x: int, d: int) {
    exists q: int :: x == q * d
  }

  lemma MultipleAdd(x: int, y: int, d: int)
    requires Multiple(x, d) && Multiple(y, d)
    ensures Multiple(x + y, d)
  {
    var p: int :| x == p * d;
    var q: int :| y == q * d;
    Distribute(p, q, d);
    assert x + y == (p + q) * d;
  }

  lemma {:induction false} SumToMultiple(s: set<nat>, f: seq<nat>, n: nat, d: nat)
    requires n <= |f| && forall x: nat | x < n && x in s :: Multiple(f[x], d)
    ensures Multiple(SumTo(s, f, n), d)
  {
    if n == 0 {
      assert 0 == 0 * d;
    } else {
      SumToMultiple(s, f, n - 1, d);
      if n - 1 in s { MultipleAdd(SumTo(s, f, n - 1), f[n - 1], d); }
    }
  }

  /** Two multiples of `d` that are not equal differ by at least `d`. */
  lemma MultipleGap(x: int, y: int, d: int)
    requires d > 0 && Multiple(x, d) && Multiple(y, d) && x < y
    ensures x + d <= y
  {
    var p: int :| x == p * d;
    var q: int :| y == q * d;
    Distribute(q - p, p, d);
    assert d * (q - p) == (q - p) * d;
    MulBound(d, q - p);
  }
}
