/**
  * Emulation prevention for NAL units: WriteRbsp and ParseRbsp as sections 7.3.1 and 7.4.1 of ITU-T
  * H.264 define them, and the guard NeedsRbspUnescaping that decides whether ParseRbsp is called.
  */
module Rbsp {
  import opened Wire

  /** The number of zero bytes just seen, as far as it matters, after one more byte. */
  function Count(zeros: nat, b: byte): (n: nat) {
    if b == 0 then Min(zeros + 1, 2) else 0
  }

  /** WriteRbsp with `zeros` zero bytes just written. */
  function EscapeAfter(zeros: nat, x: seq<byte>): seq<byte>
    decreases x
  {
    if x == [] then []
    else if zeros >= 2 && x[0] <= 3 then [3, x[0]] + EscapeAfter(Count(0, x[0]), x[1..])
    else [x[0]] + EscapeAfter(Count(zeros, x[0]), x[1..])
  }

  function Escape(x: seq<byte>): seq<byte> {
    EscapeAfter(0, x)
  }

  /** ParseRbsp: drops the 3 of every 0 0 3, left to right. */
  function Unescape(d: seq<byte>): seq<byte> {
    if d == [] then []
    else if |d| >= 3 && d[0] == 0 && d[1] == 0 && d[2] == 3 then [0, 0] + Unescape(d[3..])
    else [d[0]] + Unescape(d[1..])
  }

  // ----- Unescaping undoes escaping -----

  /** ParseRbsp byte by byte, remembering the zeros instead of looking ahead. */
  function Scan(zeros: nat, d: seq<byte>): seq<byte>
    decreases d
  {
    if d == [] then []
    else if zeros >= 2 && d[0] == 3 then Scan(0, d[1..])
    else [d[0]] + Scan(Count(zeros, d[0]), d[1..])
  }

  lemma {:induction false} ScanEscape(zeros: nat, x: seq<byte>)
    ensures Scan(zeros, EscapeAfter(zeros, x)) == x
    decreases x
  {
    if x != [] {
      var d := EscapeAfter(zeros, x);
      if zeros >= 2 && x[0] <= 3 {
        ScanEscape(Count(0, x[0]), x[1..]);
        assert d[1..][1..] == EscapeAfter(Count(0, x[0]), x[1..]);
        assert Scan(0, d[1..]) == [x[0]] + Scan(Count(0, x[0]), d[1..][1..]);
      } else {
        ScanEscape(Count(zeros, x[0]), x[1..]);
        assert d[1..] == EscapeAfter(Count(zeros, x[0]), x[1..]);
      }
    }
  }

  lemma {:induction false} UnescapeIsScan(d: seq<byte>)
    ensures Unescape(d) == Scan(0, d)
    decreases |d|, 0
  {
    if d != [] {
      if d[0] == 0 {
        assert d == [0] + d[1..];
        UnescapeAfterZero(d[1..]);
      } else {
        UnescapeIsScan(d[1..]);
      }
    }
  }

  lemma {:induction false} UnescapeAfterZero(d: seq<byte>)
    ensures Unescape([0] + d) == [0] + Scan(1, d)
    decreases |d|, 1
  {
    assert ([0] + d)[1..] == d;
    if d != [] {
      if d[0] == 0 {
        assert [0] + d == [0, 0] + d[1..];
        UnescapeAfterTwoZeros(d[1..]);
      } else {
        UnescapeIsScan(d);
      }
    }
  }

  lemma {:induction false} UnescapeAfterTwoZeros(d: seq<byte>)
    ensures Unescape([0, 0] + d) == [0, 0] + Scan(2, d)
    decreases |d|, 2
  {
    var all := [0, 0] + d;
    assert all[1..] == [0] + d && ([0] + d)[1..] == d;
    if d != [] && d[0] == 3 {
      assert all[3..] == d[1..];
      UnescapeIsScan(d[1..]);
    } else if d != [] && d[0] == 0 {
      assert all[1..] == [0, 0] + d[1..];
      UnescapeAfterTwoZeros(d[1..]);
    } else {
      UnescapeIsScan(d);
      assert Unescape([0] + d) == [0] + Unescape(d);
    }
  }

  /** For every byte string. */
  lemma UnescapeEscape(x: seq<byte>)
    ensures Unescape(Escape(x)) == x
  {
    ScanEscape(0, x);
    UnescapeIsScan(Escape(x));
  }

  // ----- Escaped bytes contain no start code -----

  /** Two zero bytes at i and i + 1, followed by b. */
  predicate TripleAt(d: seq<byte>, i: nat, b: byte) {
    i + 2 < |d| && d[i] == 0 && d[i + 1] == 0 && d[i + 2] == b
  }

  /** After `zeros` zero bytes, no 0 0 b with b <= bound is completed in d. */
  predicate Clean(bound: byte, zeros: nat, d: seq<byte>)
    decreases d
  {
    d == [] || (!(zeros >= 2 && d[0] <= bound) && Clean(bound, Count(zeros, d[0]), d[1..]))
  }

  lemma {:induction false} CleanHasNoTriple(bound: byte, zeros: nat, d: seq<byte>, i: nat, b: byte)
    requires Clean(bound, zeros, d) && b <= bound
    ensures !TripleAt(d, i, b)
    decreases d
  {
    if |d| >= 3 && d[0] == 0 && d[1] == 0 {
      assert Clean(bound, Count(Count(zeros, 0), 0), d[1..][1..]);
    }
    if i > 0 && d != [] {
      CleanHasNoTriple(bound, Count(zeros, d[0]), d[1..], i - 1, b);
    }
  }

  lemma {:induction false} EscapeIsClean(zeros: nat, x: seq<byte>)
    ensures Clean(2, zeros, EscapeAfter(zeros, x))
    decreases x
  {
    if x != [] {
      var d := EscapeAfter(zeros, x);
      if zeros >= 2 && x[0] <= 3 {
        EscapeIsClean(Count(0, x[0]), x[1..]);
        assert d[1..][1..] == EscapeAfter(Count(0, x[0]), x[1..]);
      } else {
        EscapeIsClean(Count(zeros, x[0]), x[1..]);
        assert d[1..] == EscapeAfter(Count(zeros, x[0]), x[1..]);
      }
    }
  }

  /** No 0 0 0, 0 0 1 or 0 0 2 anywhere. */
  lemma EscapeHasNoStartCode(x: seq<byte>, i: nat, b: byte)
    requires b <= 2
    ensures !TripleAt(Escape(x), i, b)
  {
    EscapeIsClean(0, x);
    CleanHasNoTriple(2, 0, Escape(x), i, b);
  }

  // ----- The guard is exact on escaped bytes -----

  /** What the guard looks for: a 0 0 3 that is not at the very end. */
  predicate NeedsUnescaping(d: seq<byte>) {
    exists i :: 0 <= i < |d| - 3 && TripleAt(d, i, 3)
  }

  /** NeedsRbspUnescaping, whose loop stops one triple early. */
  method NeedsRbspUnescaping(d: seq<byte>) returns (needed: bool)
    ensures needed <==> NeedsUnescaping(d)
  {
    if |d| < 3 {
      return false;
    }
    for i := 0 to |d| - 3
      invariant forall k :: 0 <= k < i ==> !TripleAt(d, k, 3)
    {
      if d[i] == 0 && d[i + 1] == 0 && d[i + 2] == 3 {
        assert TripleAt(d, i, 3);
        return true;
      }
    }
    return false;
  }

  lemma {:induction false} EscapeOnlyAdds(zeros: nat, x: seq<byte>)
    ensures |EscapeAfter(zeros, x)| >= |x|
    decreases x
  {
    if x != [] {
      EscapeOnlyAdds(Count(0, x[0]), x[1..]);
      EscapeOnlyAdds(Count(zeros, x[0]), x[1..]);
    }
  }

  lemma {:induction false} UnchangedIsClean(zeros: nat, x: seq<byte>)
    requires EscapeAfter(zeros, x) == x
    ensures Clean(3, zeros, x)
    decreases x
  {
    if x != [] {
      EscapeOnlyAdds(Count(0, x[0]), x[1..]);
      var d := EscapeAfter(zeros, x);
      assert !(zeros >= 2 && x[0] <= 3);
      assert d[1..] == EscapeAfter(Count(zeros, x[0]), x[1..]);
      UnchangedIsClean(Count(zeros, x[0]), x[1..]);
    }
  }

  /** An inserted 3 shows up at or after position p, where `zeros` zero bytes precede p. */
  lemma {:induction false} ChangeShows(all: seq<byte>, p: nat, zeros: nat, x: seq<byte>) returns (i: nat)
    requires zeros <= p <= |all| && zeros <= 2 && all[p..] == EscapeAfter(zeros, x)
    requires forall k :: p - zeros <= k < p ==> all[k] == 0
    requires EscapeAfter(zeros, x) != x
    ensures i + 3 < |all| && TripleAt(all, i, 3)
    decreases x
  {
    var d := EscapeAfter(zeros, x);
    assert all[p] == d[0];
    if zeros >= 2 && x[0] <= 3 {
      i := p - 2;
    } else {
      var n := Count(zeros, x[0]);
      assert all[p + 1..] == d[1..] == EscapeAfter(n, x[1..]);
      assert x == [x[0]] + x[1..];
      i := ChangeShows(all, p + 1, n, x[1..]);
    }
  }

  /** The guard asks for unescaping exactly when escaping changed something, so skipping it is sound. */
  lemma GuardIsExact(x: seq<byte>)
    ensures NeedsUnescaping(Escape(x)) <==> Escape(x) != x
    ensures (if NeedsUnescaping(Escape(x)) then Unescape(Escape(x)) else Escape(x)) == x
  {
    UnescapeEscape(x);
    if Escape(x) != x {
      assert Escape(x)[0..] == Escape(x);
      var i := ChangeShows(Escape(x), 0, 0, x);
    } else {
      UnchangedIsClean(0, x);
      forall i | 0 <= i < |x| - 3 ensures !TripleAt(x, i, 3) {
        CleanHasNoTriple(3, 0, x, i, 3);
      }
    }
  }

  /** Two zero bytes and one of 0 to 3 at i. */
  predicate NeedsEscape(x: seq<byte>, i: nat) {
    i + 2 < |x| && x[i] == 0 && x[i + 1] == 0 && x[i + 2] <= 3
  }

  /** A byte is inserted only where two zero bytes precede one of 0 to 3. */
  lemma {:induction false} ChangeHasCause(x: seq<byte>, p: nat, zeros: nat) returns (i: nat)
    requires zeros <= p <= |x| && zeros <= 2 && forall k :: p - zeros <= k < p ==> x[k] == 0
    requires EscapeAfter(zeros, x[p..]) != x[p..]
    ensures NeedsEscape(x, i)
    decreases |x| - p
  {
    var rest := x[p..];
    assert rest != [] && rest[0] == x[p] && rest[1..] == x[p + 1..];
    if zeros >= 2 && x[p] <= 3 {
      i := p - 2;
    } else {
      assert rest == [x[p]] + x[p + 1..];
      i := ChangeHasCause(x, p + 1, Count(zeros, x[p]));
    }
  }

  /** Escaping changes exactly the bytes that contain 0 0 0, 0 0 1, 0 0 2 or 0 0 3. */
  lemma EscapeIsMinimal(x: seq<byte>)
    ensures Escape(x) == x <==> forall i: nat :: !NeedsEscape(x, i)
  {
    if Escape(x) == x {
      UnchangedIsClean(0, x);
      forall i: nat ensures !NeedsEscape(x, i) {
        if i + 2 < |x| && x[i + 2] <= 3 {
          CleanHasNoTriple(3, 0, x, i, x[i + 2]);
        }
      }
    } else {
      assert x[0..] == x;
      var i := ChangeHasCause(x, 0, 0);
    }
  }

  /** One 3 is inserted for each, in front of the third byte. */
  lemma EscapeOfTriple(b: byte, rest: seq<byte>)
    ensures Escape([0, 0, b] + rest) == (if b <= 3 then [0, 0, 3, b] + EscapeAfter(if b == 0 then 1 else 0, rest) else [0, 0, b] + Escape(rest))
  {
    var x := [0, 0, b] + rest;
    var y, z := [0, b] + rest, [b] + rest;
    assert x[1..] == y && y[1..] == z && z[1..] == rest;
    assert Escape(x) == [0] + EscapeAfter(1, y) && EscapeAfter(1, y) == [0] + EscapeAfter(2, z);
    assert EscapeAfter(2, z) == if b <= 3 then [3, b] + EscapeAfter(Count(0, b), rest) else [b] + Escape(rest);
  }
}
