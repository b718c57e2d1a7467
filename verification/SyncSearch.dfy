/**
 `syncsearch` (inflate.c): look for the mark 0, 0, 255, 255 that ends a full flush, in input
 that comes in pieces.
 */
module SyncSearch {
  import opened Bits

  /** The bytes of the mark. */
  function Mark(i: nat): Byte {
    if i < 2 then 0 else 255
  }

  /** `s` ends with the first `n` bytes of the mark. */
  ghost predicate EndsWith(s: seq<Byte>, n: nat) {
    n <= 4 && n <= |s| && forall i | 0 <= i < n :: s[|s| - n + i] == Mark(i)
  }

  /** `n` is as much of the mark as `s` ends with. */
  ghost predicate Matched(s: seq<Byte>, n: nat) {
    EndsWith(s, n) && forall m | n < m <= 4 :: !EndsWith(s, m)
  }

  /** The mark occurs in `s`, but not before its end. */
  ghost predicate FirstMark(s: seq<Byte>) {
    EndsWith(s, 4) && NoMark(s[..|s| - 1])
  }

  ghost predicate NoMark(s: seq<Byte>) {
    forall i | 0 <= i <= |s| :: !EndsWith(s[..i], 4)
  }

  /** What a byte does to the number of bytes that match. */
  function Next(got: nat, b: Byte): nat
    requires got < 4
  {
    if b == Mark(got) then got + 1 else if b != 0 then 0 else 4 - got
  }

  lemma EndsWithNext(s: seq<Byte>, b: Byte, n: nat)
    requires 0 < n <= 4
    ensures EndsWith(s + [b], n) <==> EndsWith(s, n - 1) && b == Mark(n - 1)
  {
    var t := s + [b];
    assert t[..|s|] == s;
    if n <= |t| && EndsWith(t, n) {
      assert t[|t| - n + (n - 1)] == b;
      forall i | 0 <= i < n - 1 ensures s[|s| - (n - 1) + i] == Mark(i) {
        assert t[|t| - n + i] == Mark(i);
      }
    }
  }

  /** The automaton finds the longest match: no byte has to be looked at twice. */
  lemma NextMatches(s: seq<Byte>, got: nat, b: Byte)
    requires Matched(s, got) && got < 4
    ensures Matched(s + [b], Next(got, b))
  {
    hide EndsWith;
    EndsWithNext(s, b, 1);
    EndsWithNext(s, b, 2);
    EndsWithNext(s, b, 3);
    EndsWithNext(s, b, 4);
    NothingEnds(s);
    NothingEnds(s + [b]);
    ShorterEnds(s, got);
  }

  lemma NothingEnds(s: seq<Byte>)
    ensures EndsWith(s, 0)
  {
  }

  /** Which shorter parts of the mark `s` ends with too. */
  lemma ShorterEnds(s: seq<Byte>, got: nat)
    requires EndsWith(s, got)
    ensures got == 2 ==> EndsWith(s, 1)
    ensures got == 3 ==> !EndsWith(s, 1) && !EndsWith(s, 2)
  {
    if got == 2 || got == 3 {
      assert s[|s| - got + (got - 1)] == Mark(got - 1);
    }
    if got == 3 {
      assert s[|s| - 1 + 0] != Mark(0) && s[|s| - 2 + 1] != Mark(1);
    }
  }

  /** Nothing before `s` ends with the mark, and neither does `s` with another byte, if less matches. */
  lemma NoMarkNext(s: seq<Byte>, b: Byte)
    requires NoMark(s) && !EndsWith(s + [b], 4)
    ensures NoMark(s + [b])
  {
    var t := s + [b];
    forall i | 0 <= i <= |t| ensures !EndsWith(t[..i], 4) {
      if i == |t| { assert t[..i] == t; } else { assert t[..i] == s[..i]; }
    }
  }

  /** `syncsearch`; `seen` is all that earlier calls have read. */
  method SyncSearch(have: nat, buf: seq<Byte>, ghost seen: seq<Byte>) returns (got: nat, next: nat)
    requires have < 4 && Matched(seen, have) && NoMark(seen)
    ensures next <= |buf| && Matched(seen + buf[..next], got)
    ensures got <= 4 && (got == 4 ==> FirstMark(seen + buf[..next]))
    ensures got < 4 ==> next == |buf| && NoMark(seen + buf)
  {
    hide EndsWith;
    got, next := have, 0;
    assert seen + buf[..0] == seen;
    while next < |buf| && got < 4
      invariant next <= |buf| && got <= 4 && Matched(seen + buf[..next], got)
      invariant got < 4 ==> NoMark(seen + buf[..next])
      invariant got == 4 ==> FirstMark(seen + buf[..next])
    {
      ghost var s := seen + buf[..next];
      assert seen + buf[..next + 1] == s + [buf[next]] && (s + [buf[next]])[..|s|] == s;
      NextMatches(s, got, buf[next]);
      if buf[next] == Mark(got) {
        got := got + 1;
      } else if buf[next] != 0 {
        got := 0;
      } else {
        got := 4 - got;
      }
      if got < 4 { NoMarkNext(s, buf[next]); }
      next := next + 1;
    }
    assert got < 4 ==> buf[..next] == buf;
  }

  ghost function Joined(pieces: seq<seq<Byte>>): seq<Byte> {
    if pieces == [] then [] else Joined(pieces[..|pieces| - 1]) + pieces[|pieces| - 1]
  }

  /** In whatever pieces the input comes, the search stops behind the first mark in it. */
  method SearchAll(pieces: seq<seq<Byte>>) returns (got: nat, i: nat, next: nat)
    ensures got == 4 ==> i < |pieces| && next <= |pieces[i]| && FirstMark(Joined(pieces[..i]) + pieces[i][..next])
    ensures got < 4 ==> NoMark(Joined(pieces))
    ensures got <= 4
  {
    hide EndsWith;
    got, i, next := 0, 0, 0;
    Nothing();
    while i < |pieces|
      invariant i <= |pieces| && got < 4 && Matched(Joined(pieces[..i]), got) && NoMark(Joined(pieces[..i]))
    {
      got, next := SyncSearch(got, pieces[i], Joined(pieces[..i]));
      if got == 4 { return; }
      assert pieces[..i + 1][..i] == pieces[..i] && pieces[i][..next] == pieces[i];
      i := i + 1;
    }
    assert pieces[..i] == pieces;
  }

  lemma Nothing()
    ensures Matched([], 0) && NoMark([])
  {
  }
}
