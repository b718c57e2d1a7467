/**
 The sliding window of `inflate` (inflate.c, `updatewindow`): a circular buffer that keeps the
 last bytes of the output between calls, so that matches can reach back across them.
 */
module Window {
  import opened Bits

  /** Where the byte `i` back from the write position `wnext` is. */
  function Back(size: nat, wnext: nat, i: nat): (p: nat)
    requires 1 <= i <= size && wnext < size
    ensures p < size
  {
    if i <= wnext then wnext - i else size + wnext - i
  }

  function Min(a: nat, b: nat): nat { if a < b then a else b }

  /** `win` holds the last `|win|` bytes of `hist`, or all of it. */
  ghost predicate Keeps(win: seq<Byte>, whave: nat, wnext: nat, hist: seq<Byte>) {
    && |win| > 0 && whave == Min(|hist|, |win|)
    && wnext < |win| && (whave < |win| ==> wnext == whave)
    && forall i | 1 <= i <= whave :: win[Back(|win|, wnext, i)] == hist[|hist| - i]
  }

  /** `win` with `src` written at `at`. */
  function Written(win: seq<Byte>, at: nat, src: seq<Byte>): (r: seq<Byte>)
    requires at + |src| <= |win|
    ensures |r| == |win|
  {
    win[..at] + src + win[at + |src|..]
  }

  lemma WrittenAt(win: seq<Byte>, at: nat, src: seq<Byte>, p: nat)
    requires at + |src| <= |win| && p < |win|
    ensures Written(win, at, src)[p] == if at <= p < at + |src| then src[p - at] else win[p]
  {
  }

  /** More output than the window holds: only its end is kept. */
  lemma KeepsAll(win: seq<Byte>, hist: seq<Byte>, out: seq<Byte>)
    requires 0 < |win| <= |out|
    ensures Keeps(Written(win, 0, out[|out| - |win|..]), |win|, 0, hist + out)
  {
  }

  /** The output fits between the write position and the end of the window. */
  lemma KeepsFitting(win: seq<Byte>, whave: nat, wnext: nat, hist: seq<Byte>, out: seq<Byte>)
    requires Keeps(win, whave, wnext, hist) && wnext + |out| <= |win| && |out| < |win|
    ensures Keeps(Written(win, wnext, out), if whave < |win| then whave + |out| else whave,
                  if wnext + |out| == |win| then 0 else wnext + |out|, hist + out)
  {
    hide Written;
    var win' := Written(win, wnext, out);
    var whave', wnext' := if whave < |win| then whave + |out| else whave,
                          if wnext + |out| == |win| then 0 else wnext + |out|;
    forall i | 1 <= i <= whave'
      ensures win'[Back(|win|, wnext', i)] == (hist + out)[|hist + out| - i]
    {
      WrittenAt(win, wnext, out, Back(|win|, wnext', i));
      if i > |out| { assert win[Back(|win|, wnext, i - |out|)] == hist[|hist| - (i - |out|)]; }
    }
  }

  /** The output is written around the end of the window. */
  lemma KeepsWrapped(win: seq<Byte>, whave: nat, wnext: nat, hist: seq<Byte>, out: seq<Byte>, dist: nat)
    requires Keeps(win, whave, wnext, hist) && wnext + dist == |win| && dist < |out| < |win|
    ensures Keeps(Written(Written(win, wnext, out[..dist]), 0, out[dist..]), |win|, |out| - dist, hist + out)
  {
    hide Written;
    var win1 := Written(win, wnext, out[..dist]);
    var win2 := Written(win1, 0, out[dist..]);
    var wnext' := |out| - dist;
    forall i | 1 <= i <= |win|
      ensures win2[Back(|win|, wnext', i)] == (hist + out)[|hist + out| - i]
    {
      var p := Back(|win|, wnext', i);
      WrittenAt(win1, 0, out[dist..], p);
      WrittenAt(win, wnext, out[..dist], p);
      if i > |out| { assert win[Back(|win|, wnext, i - |out|)] == hist[|hist| - (i - |out|)]; }
    }
  }

  class SlidingWindow {
    const buffer: array<Byte>
    var wsize: nat
    var whave: nat
    var wnext: nat

    constructor (wbits: nat)
      ensures fresh(buffer) && buffer.Length == Pow2(wbits)
      ensures wsize == whave == wnext == 0
    {
      buffer := new Byte[Pow2(wbits)];
      wsize, whave, wnext := 0, 0, 0;
    }

    /** The window is not in use yet, or keeps the end of `hist`. */
    ghost predicate Holds(hist: seq<Byte>)
      reads this, buffer
    {
      if wsize == 0 then whave == 0 && wnext == 0 else wsize == buffer.Length && Keeps(buffer[..], whave, wnext, hist)
    }

    method Write(at: nat, src: seq<Byte>)
      requires at + |src| <= buffer.Length
      modifies buffer
      ensures buffer[..] == Written(old(buffer[..]), at, src)
    {
      hide Written;
      ghost var win := buffer[..];
      WriteStart(win, at, src);
      for k := 0 to |src|
        invariant buffer[..] == Written(win, at, src[..k])
      {
        buffer[at + k] := src[k];
        WriteStep(win, at, src, k);
      }
      assert src[..|src|] == src;
    }

    /** `updatewindow`: take in the output of a call. */
    method Update(out: seq<Byte>, ghost hist: seq<Byte>)
      requires Holds(hist) && buffer.Length > 0
      requires wsize == 0 ==> hist == []
      modifies this, buffer
      ensures wsize == buffer.Length && Holds(hist + out)
    {
      hide Keeps, Written;
      var n: nat := buffer.Length;
      if wsize == 0 {
        wsize := n;
        wnext := 0;
        whave := 0;
        KeepsNothing(buffer[..]);
      }
      var copy := |out|;
      ghost var win := buffer[..];
      if copy >= wsize {
        Write(0, out[copy - wsize..]);
        wnext := 0;
        whave := wsize;
        KeepsAll(win, hist, out);
      } else {
        KeepsBounds(win, whave, wnext, hist);
        var dist := wsize - wnext;
        if dist > copy { dist := copy; }
        Write(wnext, out[..dist]);
        copy := copy - dist;
        if copy != 0 {
          Write(0, out[dist..]);
          KeepsWrapped(win, whave, wnext, hist, out, dist);
          wnext := copy;
          whave := wsize;
        } else {
          assert out[..dist] == out;
          KeepsFitting(win, whave, wnext, hist, out);
          wnext := wnext + dist;
          if wnext == wsize { wnext := 0; }
          if whave < wsize { whave := whave + dist; }
        }
      }
    }
  }

  lemma WriteStart(win: seq<Byte>, at: nat, src: seq<Byte>)
    requires at <= |win|
    ensures Written(win, at, src[..0]) == win
  {
  }

  lemma WriteStep(win: seq<Byte>, at: nat, src: seq<Byte>, k: nat)
    requires at + |src| <= |win| && k < |src|
    ensures Written(win, at, src[..k])[at + k := src[k]] == Written(win, at, src[..k + 1])
  {
  }

  lemma KeepsNothing(win: seq<Byte>)
    requires |win| > 0
    ensures Keeps(win, 0, 0, [])
  {
  }

  lemma KeepsBounds(win: seq<Byte>, whave: nat, wnext: nat, hist: seq<Byte>)
    requires Keeps(win, whave, wnext, hist)
    ensures wnext < |win| && whave <= |win|
  {
  }
}
