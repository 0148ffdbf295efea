/**
 OBJECT IDENTIFIER values (section 8.19 of ITU-T X.690): the decoder that osmo-smdpp.py installs
 in place of its ASN.1 library's, against the encoding of the standard.
 */
module ObjectIdentifier {
  import opened Wrappers
  import opened Bytes

  // ---------------------------------------------------------------------------------------
  // The encoding of the standard

  /** The leading septets of a subidentifier, each with its top bit set. */
  function EncodeHigh(n: nat): bytes {
    if n == 0 then [] else EncodeHigh(n / 128) + [128 + n % 128]
  }

  function EncodeArc(n: nat): (b: bytes)
    ensures b != []
  {
    EncodeHigh(n / 128) + [n % 128]
  }

  function EncodeArcs(arcs: seq<nat>): bytes {
    if arcs == [] then [] else EncodeArc(arcs[0]) + EncodeArcs(arcs[1..])
  }

  /** The pairs of first two arcs the standard allows. */
  predicate IsFirstPair(first: nat, second: nat) {
    first <= 2 && (first < 2 ==> second < 40)
  }

  predicate IsOid(arcs: seq<nat>) {
    |arcs| >= 2 && IsFirstPair(arcs[0], arcs[1])
  }

  function JoinFirst(first: nat, second: nat): nat {
    40 * first + second
  }

  function EncodeOid(arcs: seq<nat>): bytes
    requires IsOid(arcs)
  {
    EncodeArc(JoinFirst(arcs[0], arcs[1])) + EncodeArcs(arcs[2..])
  }

  // ---------------------------------------------------------------------------------------
  // The decoder

  /** The value and the offset behind a subidentifier; `None` if the data end inside it. */
  ghost function Read(data: bytes, offset: nat, value: nat): Option<(nat, nat)>
    decreases |data| - offset
  {
    if offset >= |data| then None
    else
      var v := 128 * value + data[offset] % 128;
      if data[offset] < 128 then Some((v, offset + 1)) else Read(data, offset + 1, v)
  }

  ghost function ReadAll(data: bytes, offset: nat, endOffset: nat): Option<seq<nat>>
    decreases if offset <= |data| then |data| - offset else 0
  {
    if offset >= endOffset then Some([])
    else if offset >= |data| then None
    else
      ReadAdvances(data, offset, 0);
      var r := Read(data, offset, 0);
      if r.None? then None
      else
        var rest := ReadAll(data, r.value.1, endOffset);
        if rest.None? then None else Some([r.value.0] + rest.value)
  }

  lemma {:induction false} ReadAdvances(data: bytes, offset: nat, value: nat)
    ensures Read(data, offset, value).Some? ==> offset < Read(data, offset, value).value.1 <= |data|
    decreases |data| - offset
  {
    if offset < |data| && data[offset] >= 128 {
      ReadAdvances(data, offset + 1, 128 * value + data[offset] % 128);
    }
  }

  function SplitFirst(subid: nat): (nat, nat) {
    if subid < 40 then (0, subid) else if subid < 80 then (1, subid - 40) else (2, subid - 80)
  }

  method ReadSubidentifier(data: bytes, start: nat) returns (r: Option<(nat, nat)>)
    ensures r == Read(data, start, 0)
  {
    var value: nat, offset: nat := 0, start;
    while true
      invariant Read(data, start, 0) == Read(data, offset, value)
      decreases |data| - offset
    {
      if offset >= |data| {
        return None;   // IndexError
      }
      var b := data[offset];
      value := 128 * value + (b as int) % 128;
      offset := offset + 1;
      if b < 128 {
        return Some((value, offset));
      }
    }
  }

  /** What the decoder computes. */
  ghost function Decoded(data: bytes, start: nat, endOffset: nat): Option<seq<nat>> {
    var s := Read(data, start, 0);
    if s.None? then None
    else
      var rest := ReadAll(data, s.value.1, endOffset);
      if rest.None? then None
      else Some([SplitFirst(s.value.0).0, SplitFirst(s.value.0).1] + rest.value)
  }

  /** `fixed_decode_object_identifier`; `None` is the IndexError of data that end too early. */
  method DecodeObjectIdentifier(data: bytes, start: nat, endOffset: nat) returns (r: Option<seq<nat>>)
    ensures r == Decoded(data, start, endOffset)
  {
    var s := ReadSubidentifier(data, start);
    if s.None? {
      return None;
    }
    ReadAdvances(data, start, 0);
    var (subid, offset) := s.value;
    var (first, second) := SplitFirst(subid);
    var arcs := [first, second];
    ghost var rest := ReadAll(data, offset, endOffset);
    while offset < endOffset
      invariant offset <= |data|
      invariant ReadAll(data, offset, endOffset).None? <==> rest.None?
      invariant rest.Some? ==> arcs + ReadAll(data, offset, endOffset).value == [first, second] + rest.value
      decreases |data| - offset
    {
      s := ReadSubidentifier(data, offset);
      ReadAdvances(data, offset, 0);
      if s.None? {
        return None;
      }
      arcs := arcs + [s.value.0];
      offset := s.value.1;
    }
    assert arcs + [] == arcs;
    r := Some(arcs);
  }

  // ---------------------------------------------------------------------------------------
  // Decoding inverts encoding

  /** Splitting and joining the first subidentifier are inverse: a bijection onto the legal pairs. */
  lemma FirstPairBijection(subid: nat, first: nat, second: nat)
    ensures IsFirstPair(SplitFirst(subid).0, SplitFirst(subid).1)
    ensures JoinFirst(SplitFirst(subid).0, SplitFirst(subid).1) == subid
    ensures IsFirstPair(first, second) ==> SplitFirst(JoinFirst(first, second)) == (first, second)
  {
  }

  /** Reading the leading septets of a value accumulates the value. */
  lemma {:induction false} ReadHigh(n: nat, before: bytes, after: bytes)
    ensures var data := before + EncodeHigh(n) + after;
            Read(data, |before|, 0) == Read(data, |before| + |EncodeHigh(n)|, n)
    decreases n
  {
    if n > 0 {
      var last: bytes := [128 + n % 128];
      ReadHigh(n / 128, before, last + after);
      assert before + EncodeHigh(n) + after == before + EncodeHigh(n / 128) + (last + after);
      assert (before + EncodeHigh(n) + after)[|before| + |EncodeHigh(n / 128)|] == last[0];
    }
  }

  lemma ReadArc(n: nat, before: bytes, after: bytes)
    ensures Read(before + EncodeArc(n) + after, |before|, 0) == Some((n, |before + EncodeArc(n)|))
  {
    var last: bytes := [n % 128];
    ReadHigh(n / 128, before, last + after);
    assert before + EncodeArc(n) + after == before + EncodeHigh(n / 128) + (last + after);
    assert (before + EncodeArc(n) + after)[|before| + |EncodeHigh(n / 128)|] == last[0];
  }

  lemma {:induction false} ReadArcs(arcs: seq<nat>, before: bytes, after: bytes)
    ensures ReadAll(before + EncodeArcs(arcs) + after, |before|, |before + EncodeArcs(arcs)|) == Some(arcs)
    decreases arcs
  {
    if arcs != [] {
      var head, tail := EncodeArc(arcs[0]), EncodeArcs(arcs[1..]);
      var data := before + EncodeArcs(arcs) + after;
      assert data == before + head + (tail + after) && data == (before + head) + tail + after;
      ReadArc(arcs[0], before, tail + after);
      ReadArcs(arcs[1..], before + head, after);
      assert |before + EncodeArcs(arcs)| == |(before + head) + tail|;
      assert arcs == [arcs[0]] + arcs[1..];
    } else {
      assert before + EncodeArcs(arcs) == before;
    }
  }

  /** Decoding the encoding of any object identifier, wherever it stands in the data, gives it back. */
  lemma OidRoundTrip(arcs: seq<nat>, before: bytes, after: bytes)
    requires IsOid(arcs)
    ensures Decoded(before + EncodeOid(arcs) + after, |before|, |before + EncodeOid(arcs)|) == Some(arcs)
  {
    hide EncodeArc, EncodeArcs, Read, ReadAll, SplitFirst;
    var first := JoinFirst(arcs[0], arcs[1]);
    var head, tail := EncodeArc(first), EncodeArcs(arcs[2..]);
    var data := before + EncodeOid(arcs) + after;
    Regroup(before, head, tail, after);
    ReadArc(first, before, tail + after);
    ReadArcs(arcs[2..], before + head, after);
    FirstPairBijection(0, arcs[0], arcs[1]);
    assert Read(data, |before|, 0) == Some((first, |before + head|));
    assert ReadAll(data, |before + head|, |before + EncodeOid(arcs)|) == Some(arcs[2..]);
    assert arcs == [arcs[0], arcs[1]] + arcs[2..];
  }
}
