/** Writing through a destination pointer. */
module Buffers {
  /** Store s at position d; what lies before d stays. */
  method Emit<T>(buf: array<T>, d: nat, s: seq<T>) returns (d': nat)
    requires d + |s| <= buf.Length
    modifies buf
    ensures d' == d + |s| && buf[..d'] == old(buf[..d]) + s
  {
    for i := 0 to |s|
      invariant buf[..d] == old(buf[..d])
      invariant buf[d..d + i] == s[..i]
    {
      buf[d + i] := s[i];
    }
    d' := d + |s|;
    assert buf[..d'] == buf[..d] + buf[d..d + |s|];
  }

  lemma Assoc<T>(a: seq<T>, b: seq<T>, c: seq<T>)
    ensures (a + b) + c == a + (b + c)
  {
  }

  /** The suffix of s at e, one element later. */
  lemma SuffixStep<T>(s: seq<T>, e: nat, tail: seq<T>)
    requires e <= |s| && s[e..] == tail
    ensures |tail| == |s| - e
    ensures tail != [] ==> e < |s| && s[e] == tail[0] && s[e + 1..] == tail[1..]
  {
    if tail != [] {
      assert s[e] == s[e..][0];
      assert s[e..][1..] == s[e + 1..];
    }
  }
}
