/** Byte strings. */
module Bytes {
  type byte = x: int | 0 <= x < 256
  type bytes = seq<byte>

  /** The bytes of a printable ASCII literal; any other character becomes a question mark. */
  function Ascii(s: string): (r: bytes)
    ensures |r| == |s|
    ensures forall c | c in r :: 32 <= c < 127
  {
    seq(|s|, i requires 0 <= i < |s| => if 32 <= s[i] as int < 127 then s[i] as int else 63)
  }

  /** A printable character is its ASCII code. */
  lemma {:induction false} AsciiIs(s: string, i: nat)
    requires i < |s| && ' ' <= s[i] <= '~'
    ensures Ascii(s)[i] == s[i] as int
  {
  }

  const LF: byte := 10
  const CR: byte := 13

  /** Drops every byte in the set. */
  function Without(d: bytes, drop: set<byte>): bytes
    decreases |d|
  {
    if d == [] then [] else (if d[0] in drop then [] else [d[0]]) + Without(d[1..], drop)
  }

  lemma {:induction false} WithoutMember(d: bytes, drop: set<byte>, x: byte)
    ensures x in Without(d, drop) <==> x in d && x !in drop
    decreases |d|
  {
    if d != [] {
      WithoutMember(d[1..], drop, x);
      assert d == [d[0]] + d[1..];
    }
  }

  lemma {:induction false} WithoutShrinks(d: bytes, drop: set<byte>)
    ensures |Without(d, drop)| <= |d|
    decreases |d|
  {
    if d != [] {
      WithoutShrinks(d[1..], drop);
    }
  }

  lemma {:induction false} WithoutConcat(a: bytes, b: bytes, drop: set<byte>)
    ensures Without(a + b, drop) == Without(a, drop) + Without(b, drop)
    decreases |a|
  {
    if a == [] {
      assert a + b == b;
    } else {
      assert (a + b)[0] == a[0];
      assert (a + b)[1..] == a[1..] + b;
      WithoutConcat(a[1..], b, drop);
      var first := if a[0] in drop then [] else [a[0]];
      assert first + (Without(a[1..], drop) + Without(b, drop)) == (first + Without(a[1..], drop)) + Without(b, drop);
    }
  }

  lemma {:induction false} WithoutNothing(d: bytes, drop: set<byte>)
    requires forall x | x in d :: x !in drop
    ensures Without(d, drop) == d
    decreases |d|
  {
    if d != [] {
      WithoutNothing(d[1..], drop);
    }
  }
}
