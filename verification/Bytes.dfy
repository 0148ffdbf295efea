/** Byte strings, big-endian numbers and Python's slices. */
module Bytes {
  type byte = b: int | 0 <= b < 256
  type bytes = seq<byte>

  /** `s[:n]`, which clamps. */
  function Take<T>(s: seq<T>, n: nat): (r: seq<T>)
    ensures r <= s && |r| == if n <= |s| then n else |s|
  {
    if n <= |s| then s[..n] else s
  }

  /** `s[n:]`, which clamps. */
  function Drop<T>(s: seq<T>, n: nat): (r: seq<T>)
    ensures Take(s, n) + r == s
  {
    if n <= |s| then s[n..] else []
  }

  /** `s[:i]` for any `i`: a negative one counts from the end, and still clamps. */
  function SliceTo<T>(s: seq<T>, i: int): seq<T> {
    if i >= 0 then Take(s, i)
    else if |s| + i >= 0 then s[..|s| + i]
    else []
  }

  function Pow256(n: nat): (p: nat)
    ensures p > 0
  {
    if n == 0 then 1 else 256 * Pow256(n - 1)
  }

  /** `v.to_bytes(n, 'big')` for a value that fits. */
  function BigEndian(n: nat, v: nat): (r: bytes)
    ensures |r| == n
  {
    if n == 0 then [] else BigEndian(n - 1, v / 256) + [v % 256]
  }

  /** `int.from_bytes(s, 'big')`. */
  function FromBigEndian(s: bytes): nat {
    if s == [] then 0 else 256 * FromBigEndian(s[..|s| - 1]) + s[|s| - 1]
  }

  lemma {:induction false} BigEndianRoundTrip(n: nat, v: nat)
    requires v < Pow256(n)
    ensures FromBigEndian(BigEndian(n, v)) == v
  {
    if n > 0 {
      BigEndianRoundTrip(n - 1, v / 256);
      assert BigEndian(n, v)[..n - 1] == BigEndian(n - 1, v / 256);
    }
  }

  lemma {:induction false} FromBigEndianRoundTrip(s: bytes)
    ensures FromBigEndian(s) < Pow256(|s|) && BigEndian(|s|, FromBigEndian(s)) == s
  {
    if s != [] {
      FromBigEndianRoundTrip(s[..|s| - 1]);
    }
  }

  /** The first octet weighs most. */
  lemma {:induction false} FirstOctetWeighsMost(a: byte, s: bytes)
    ensures FromBigEndian([a] + s) == a * Pow256(|s|) + FromBigEndian(s)
  {
    if s == [] {
      assert [a] + s == [a] && [a][..0] == [];
    } else {
      var t := s[..|s| - 1];
      FirstOctetWeighsMost(a, t);
      assert ([a] + s)[..|s|] == [a] + t;
      assert a * Pow256(|s|) == 256 * (a * Pow256(|t|));
    }
  }

  lemma LastOctet(s: bytes, c: byte)
    ensures FromBigEndian(s + [c]) == 256 * FromBigEndian(s) + c
  {
    assert (s + [c])[..|s|] == s;
  }

  lemma TwoOctets(a: byte, b: byte)
    ensures FromBigEndian([a, b]) == 256 * a as int + b as int
  {
    LastOctet([], a);
    LastOctet([a], b);
    assert [] + [a] == [a] && [a] + [b] == [a, b];
  }

  lemma FiveOctets(a: byte, b: byte, c: byte, d: byte, e: byte)
    ensures FromBigEndian([a, b, c, d, e]) == 256 * (256 * (256 * (256 * a as int + b) + c) + d) + e
  {
    TwoOctets(a, b);
    LastOctet([a, b], c);
    LastOctet([a, b, c], d);
    LastOctet([a, b, c, d], e);
    assert [a, b] + [c] == [a, b, c] && [a, b, c] + [d] == [a, b, c, d] && [a, b, c, d] + [e] == [a, b, c, d, e];
  }

  function Zeros(n: nat): (r: bytes)
    ensures |r| == n && forall i :: 0 <= i < n ==> r[i] == 0
  {
    seq(n, i => 0)
  }

  lemma Regroup(a: bytes, b: bytes, c: bytes, d: bytes)
    ensures a + (b + c) + d == a + b + (c + d) == (a + b) + c + d
    ensures |a + (b + c)| == |(a + b) + c|
  {
  }
}
