/**
 SET DATA in fragments and RETRIEVE DATA in blocks (pysim/pySim/commands.py), against a card that keeps BER-TLV
 objects as in sections 11.3.1 and 11.3.2 of ETSI TS 102 221.
 */
module DataObjects {
  import opened ApduLength
  import opened BerTlv
  import opened Bytes
  import opened Wrappers

  /** A SET DATA command: its P1 and its data. */
  datatype Command = Command(p1: byte, data: bytes)

  const FIRST_BLOCK: byte := 0x80
  const NEXT_BLOCK: byte := 0x00

  datatype StatusWord =
    /** 9000 */
    | Normal
    /** 62F1 or 62F2 */
    | MoreData
    /** 6A88 */
    | NotFound
    /** anything else */
    | Failure

  /** The card, with one BER-TLV file selected. A card that is not steady may refuse any command. */
  class ObjectCard {
    const steady: bool
    /** Whether SELECT is answered with control parameters. */
    const talks: bool
    var objects: map<byte, bytes>
    /** The object being received, while it is. */
    var incoming: Option<bytes>
    /** What remains to be sent. */
    var outgoing: bytes
    /** All SET DATA commands so far. */
    var received: seq<Command>

    constructor (steady: bool, talks: bool)
      ensures this.steady == steady && this.talks == talks
      ensures objects == map[] && incoming == None && outgoing == [] && received == []
    {
      this.steady, this.talks := steady, talks;
      objects, incoming, outgoing, received := map[], None, [], [];
    }

    method Select() returns (ok: bool)
      ensures steady ==> ok
    {
      var mood: bool := *;
      ok := steady || mood;
    }

    /** The object as far as it has arrived with this command; none if the command is out of order. */
    function Arriving(c: Command): Option<bytes>
      reads this
    {
      if c.p1 == FIRST_BLOCK && |c.data| >= 2 then Some(c.data)
      else if c.p1 == NEXT_BLOCK && |c.data| >= 1 && incoming.Some? then Some(incoming.value + c.data)
      else None
    }

    /** A first block that is only a tag. */
    predicate Deletes(c: Command) {
      c.p1 == FIRST_BLOCK && |c.data| == 1
    }

    /** Whether the block goes beyond the object it belongs to. */
    predicate Overflows(b: bytes) {
      Announced(b).Some? && |b| > Announced(b).value
    }

    predicate Acceptable(c: Command)
      reads this
    {
      if Deletes(c) then c.data[0] in objects
      else Arriving(c).Some? && !Overflows(Arriving(c).value)
    }

    /** SET DATA: a tag alone deletes, blocks add up until the object is there. */
    method SetData(c: Command) returns (ok: bool)
      modifies this
      ensures received == old(received) + [c]
      ensures ok ==> old(Acceptable(c))
      ensures steady && old(Acceptable(c)) ==> ok
      ensures !ok ==> objects == old(objects)
      ensures ok && Deletes(c) ==> objects == old(objects) - {c.data[0]} && incoming == None
      ensures ok && !Deletes(c) ==>
                var b := old(Arriving(c)).value;
                if Announced(b) == Some(|b|) then objects == old(objects)[b[0] := b] && incoming == None
                else objects == old(objects) && incoming == Some(b)
    {
      var mood: bool := *;
      received := received + [c];
      ok := (steady || mood) && Acceptable(c);
      if !ok {
        incoming := None;
      } else if Deletes(c) {
        objects, incoming := objects - {c.data[0]}, None;
      } else {
        var b := Arriving(c).value;
        if Announced(b) == Some(|b|) {
          objects, incoming := objects[b[0] := b], None;
        } else {
          incoming := Some(b);
        }
      }
    }

    /** RETRIEVE DATA: blocks of any size, as long as there is something in each. */
    method RetrieveData(first: bool, tag: byte) returns (block: bytes, sw: StatusWord)
      modifies this`outgoing
      ensures steady ==> sw != Failure
      ensures first && tag !in objects ==> sw in {NotFound, Failure}
      ensures first && tag in objects ==> sw != NotFound
      ensures sw in {NotFound, Failure} ==> block == []
      ensures sw in {Normal, MoreData} ==>
                && (first ==> tag in objects)
                && block + outgoing == (if first then objects[tag] else old(outgoing))
      ensures sw == Normal ==> outgoing == []
      ensures sw == MoreData ==> outgoing != []
      ensures !first ==> sw != NotFound && (sw in {Normal, MoreData} && old(outgoing) != [] ==> |block| > 0)
    {
      var mood: bool := *;
      if !steady && mood {
        return [], Failure;
      }
      if first {
        if tag !in objects {
          return [], NotFound;
        }
        outgoing := objects[tag];
      }
      var n: nat := if outgoing == [] then 0 else 1;
      while n < |outgoing| && mood
        invariant n <= |outgoing| && (outgoing != [] ==> n > 0)
      {
        n := n + 1;
        mood := *;
      }
      block, outgoing := outgoing[..n], outgoing[n..];
      sw := if outgoing == [] then Normal else MoreData;
    }
  }

  // ---------------------------------------------------------------------------------------
  // Storing

  /** The SET DATA commands for `b` from `k` on, each with at most `max` bytes. */
  function Fragments(b: bytes, k: nat, max: nat): seq<Command>
    requires k <= |b| && 0 < max
    decreases |b| - k
  {
    if k == |b| then []
    else
      var n := if max < |b| - k then k + max else |b|;
      [Command(if k == 0 then FIRST_BLOCK else NEXT_BLOCK, b[k..n])] + Fragments(b, n, max)
  }

  function AllData(commands: seq<Command>): bytes {
    if commands == [] then [] else commands[0].data + AllData(commands[1..])
  }

  /**
   The fragments add up to the object, all but the last one have the size, which that one does not exceed, and only the
   first says that it is.
   */
  lemma {:induction false} FragmentsAddUp(b: bytes, k: nat, max: nat)
    requires k <= |b| && 0 < max
    ensures AllData(Fragments(b, k, max)) == b[k..]
    ensures forall c :: c in Fragments(b, k, max) ==> 0 < |c.data| <= max
    ensures forall i :: 0 <= i < |Fragments(b, k, max)| - 1 ==> |Fragments(b, k, max)[i].data| == max
    ensures forall i :: 0 <= i < |Fragments(b, k, max)| ==>
                Fragments(b, k, max)[i].p1 == if k == 0 && i == 0 then 0x80 else 0x00
    decreases |b| - k
  {
    if k < |b| {
      var n := if max < |b| - k then k + max else |b|;
      FragmentsAddUp(b, n, max);
      var rest := Fragments(b, n, max);
      assert Fragments(b, k, max) == [Command(if k == 0 then FIRST_BLOCK else NEXT_BLOCK, b[k..n])] + rest;
      assert Fragments(b, k, max)[1..] == rest;
      assert b[k..n] + b[n..] == b[k..];
    }
  }

  datatype Storing =
    /** SELECT gave no control parameters. */
    | Nothing
    | Stored
    | Deleted
    | Refused

  /**
   The state of the card when `k` bytes of the object `b` were sent in fragments of `max`. With fragments of one byte
   the first of them deleted the object of that tag.
   */
  predicate Underway(before: map<byte, bytes>, objects: map<byte, bytes>, incoming: Option<bytes>, b: bytes,
                     max: nat, k: nat)
    requires k <= |b| && |b| > 1
  {
    if max == 1 then k <= 1 && (if k == 0 then objects == before else incoming == None && objects == before - {b[0]})
    else
      && (k < |b| ==> objects == before)
      && (0 < k < |b| ==> incoming == Some(b[..k]))
      && (k == |b| ==> objects == before[b[0] := b])
  }

  /** The block after the first `k` bytes is in order, and leaves the card with `n` of them. */
  lemma {:induction false} NextBlock(tag: byte, value: bytes, k: nat, n: nat)
    requires |value| < Pow256(4) && k < n <= |Tlv(tag, value)| && n >= 2
    ensures var tlv := Tlv(tag, value);
            && Announced(tlv) == Some(|tlv|)
            && (Announced(tlv[..n]).Some? ==> Announced(tlv[..n]) == Some(|tlv|))
            && tlv[..k] + tlv[k..n] == tlv[..n] && tlv[..|tlv|] == tlv && tlv[0..n] == tlv[..n]
  {
    PartAnnouncesWhole(tag, value, n);
  }

  /** Sends one fragment; the card is then `n` bytes into the object. */
  method SendFragment(card: ObjectCard, max: nat, tag: byte, value: bytes, k: nat, n: nat,
                      ghost before: map<byte, bytes>) returns (ok: bool)
    requires 1 <= max && |value| < Pow256(4) && k < n <= |Tlv(tag, value)|
    requires n == k + max || (n < k + max && n == |Tlv(tag, value)|)
    requires Underway(before, card.objects, card.incoming, Tlv(tag, value), max, k)
    modifies card
    ensures card.received == old(card.received) +
                             [Command(if k == 0 then FIRST_BLOCK else NEXT_BLOCK, Tlv(tag, value)[k..n])]
    ensures ok ==> Underway(before, card.objects, card.incoming, Tlv(tag, value), max, n)
    ensures !ok ==> card.objects == before || (max == 1 && card.objects == before - {tag})
    ensures card.steady ==> if max == 1 then (ok <==> k == 0 && tag in before) else ok
    ensures card.steady && !ok ==> card.objects == before - {tag}
  {
    hide Announced, Tlv;
    var tlv := Tlv(tag, value);
    if n >= 2 {
      NextBlock(tag, value, k, n);
    }
    ok := card.SetData(Command(if k == 0 then FIRST_BLOCK else NEXT_BLOCK, tlv[k..n]));
  }

  /** The loop of `set_data`. */
  method SendFragments(card: ObjectCard, max: nat, tag: byte, value: bytes) returns (ok: bool)
    requires 1 <= max && |value| < Pow256(4)
    modifies card
    ensures ok ==> && max >= 2 && card.objects == old(card.objects)[tag := Tlv(tag, value)]
                   && card.received == old(card.received) + Fragments(Tlv(tag, value), 0, max)
    ensures !ok ==> card.objects == old(card.objects) || (max == 1 && card.objects == old(card.objects) - {tag})
    ensures card.steady ==> if max == 1 then !ok && card.objects == old(card.objects) - {tag} else ok
  {
    hide Tlv;
    var tlv := Tlv(tag, value);
    var first, remaining := true, tlv;
    ghost var k: nat := 0;
    while |remaining| > 0
      invariant k <= |tlv| && remaining == tlv[k..] && (first <==> k == 0)
      invariant Underway(old(card.objects), card.objects, card.incoming, tlv, max, k)
      invariant card.received + Fragments(tlv, k, max) == old(card.received) + Fragments(tlv, 0, max)
      decreases |remaining|
    {
      ghost var n := if max < |tlv| - k then k + max else |tlv|;
      var fragment := Take(remaining, max);
      assert fragment == tlv[k..n];
      ghost var sent := card.received;
      ok := SendFragment(card, max, tag, value, |tlv| - |remaining|, |tlv| - |remaining| + |fragment|, old(card.objects));
      if !ok {
        return;
      }
      first := false;
      assert (sent + Fragments(tlv, k, max)[..1]) + Fragments(tlv, n, max) == sent + Fragments(tlv, k, max);
      remaining := Drop(remaining, max);
      k := n;
    }
    ok := true;
  }

  /**
   `set_data`. A fragment must hold two bytes at least: a first one of a single byte is taken for a deletion.
   */
  method SetData(card: ObjectCard, overhead: Option<nat>, tag: byte, value: bytes) returns (r: Storing)
    requires 1 <= MaxCmdLen(overhead) && |value| < Pow256(4)
    modifies card
    ensures r.Stored? ==> value != [] && MaxCmdLen(overhead) >= 2
                          && card.objects == old(card.objects)[tag := Tlv(tag, value)]
                          && card.received == old(card.received) + Fragments(Tlv(tag, value), 0, MaxCmdLen(overhead))
    ensures r.Deleted? ==> value == [] && tag in old(card.objects) && card.objects == old(card.objects) - {tag}
    ensures r.Nothing? ==> !card.talks && card.objects == old(card.objects)
    ensures r.Refused? && (value == [] || MaxCmdLen(overhead) >= 2) ==> card.objects == old(card.objects)
    ensures card.steady && card.talks ==>
              match r
              case Nothing => false
              case Refused => if value == [] then tag !in card.objects
                              else MaxCmdLen(overhead) == 1 && card.objects == old(card.objects) - {tag}
              case _ => true
  {
    hide Tlv;
    var selected := card.Select();
    if !selected {
      return Storing.Refused;
    }
    if !card.talks {
      return Storing.Nothing;
    }
    if value == [] {
      var deleted := card.SetData(Command(FIRST_BLOCK, [tag]));
      return if deleted then Deleted else Storing.Refused;
    }
    var stored := SendFragments(card, MaxCmdLen(overhead), tag, value);
    r := if stored then Stored else Storing.Refused;
  }

  // ---------------------------------------------------------------------------------------
  // Retrieving

  datatype Retrieving =
    /** SELECT gave no control parameters. */
    | NothingThere
    /** The object, or nothing with the status word that there is none. */
    | Retrieved(data: bytes, sw: StatusWord)
    | NotRetrieved

  /** `retrieve_data`: however the card splits the object into blocks, all of it comes back. */
  method RetrieveData(card: ObjectCard, tag: byte) returns (r: Retrieving)
    modifies card`outgoing
    ensures r.Retrieved? ==> if tag in card.objects then r == Retrieved(card.objects[tag], Normal)
                             else r == Retrieved([], NotFound)
    ensures r.NothingThere? ==> !card.talks
    ensures card.steady && card.talks ==> r.Retrieved?
  {
    var selected := card.Select();
    if !selected {
      return NotRetrieved;
    }
    if !card.talks {
      return NothingThere;
    }
    var data, sw := card.RetrieveData(true, tag);
    if sw == Failure {
      return NotRetrieved;
    }
    var total := data;
    while sw == MoreData
      invariant sw != Failure && (sw == NotFound ==> tag !in card.objects && total == [])
      invariant sw in {Normal, MoreData} ==> tag in card.objects && total + card.outgoing == card.objects[tag]
      invariant sw == Normal ==> card.outgoing == []
      invariant sw == MoreData ==> card.outgoing != []
      decreases |card.outgoing|
    {
      ghost var rest := card.outgoing;
      data, sw := card.RetrieveData(false, tag);
      if sw == Failure {
        return NotRetrieved;
      }
      assert total + rest == (total + data) + card.outgoing;
      total := total + data;
    }
    assert total + [] == total;
    r := Retrieved(total, sw);
  }

  /** What was set is what one gets, and its value is what one set. */
  lemma {:induction false} StoredValue(before: map<byte, bytes>, tag: byte, value: bytes)
    requires |value| < Pow256(4)
    ensures var objects := before[tag := Tlv(tag, value)];
            && tag in objects && Announced(objects[tag]) == Some(|objects[tag]|)
            && |objects[tag]| >= |value| && objects[tag][|objects[tag]| - |value|..] == value
            && forall other :: other != tag ==> (other in objects <==> other in before)
  {
    PartAnnouncesWhole(tag, value, 0);
  }

  /** `set_data`, then `retrieve_data` with the same tag, on a card that refuses nothing. */
  method SetThenRetrieve(card: ObjectCard, overhead: Option<nat>, tag: byte, value: bytes) returns (r: Retrieving)
    requires card.steady && card.talks && 2 <= MaxCmdLen(overhead) && 0 < |value| < Pow256(4)
    modifies card
    ensures r == Retrieved(Tlv(tag, value), Normal)
  {
    hide Tlv;
    var stored := SetData(card, overhead, tag, value);
    r := RetrieveData(card, tag);
  }
}
