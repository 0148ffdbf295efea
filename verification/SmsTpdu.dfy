/**
 SMS transfer protocol data units as pysim/pySim/sms.py writes and reads them (sections 9.1.2.5,
 9.2.2.1, 9.2.2.2 and 9.2.3.24 of 3GPP TS 23.040).
 */
module SmsTpdu {
  import opened Wrappers
  import opened Bytes

  // ---------------------------------------------------------------------------------------
  // User data header

  datatype Ie = Ie(iei: byte, value: bytes)

  predicate IesFit(ies: seq<Ie>) {
    forall i :: 0 <= i < |ies| ==> |ies[i].value| < 256
  }

  function EncodeIes(ies: seq<Ie>): bytes
    requires IesFit(ies)
  {
    if ies == [] then [] else [ies[0].iei, |ies[0].value|] + ies[0].value + EncodeIes(ies[1..])
  }

  /** As many information elements as are complete; what is left over is dropped. */
  function ParseIes(b: bytes): (ies: seq<Ie>)
    ensures IesFit(ies)
  {
    if |b| < 2 || |b| < 2 + b[1] as int then []
    else [Ie(b[0], b[2..2 + b[1] as int])] + ParseIes(b[2 + b[1] as int..])
  }

  /** `UserDataHeader.to_bytes`; `None` if a length does not fit its octet. */
  function UdhToBytes(ies: seq<Ie>): Option<bytes> {
    if IesFit(ies) && |EncodeIes(ies)| < 256 then Some([|EncodeIes(ies)|] + EncodeIes(ies)) else None
  }

  /** `UserDataHeader.from_bytes`: the elements and what follows the header. */
  function UdhFromBytes(inb: bytes): Option<(seq<Ie>, bytes)> {
    if inb == [] || |inb| < 1 + inb[0] as int then None
    else Some((ParseIes(inb[1..1 + inb[0] as int]), inb[1 + inb[0] as int..]))
  }

  lemma {:induction false} IesRoundTrip(ies: seq<Ie>)
    requires IesFit(ies)
    ensures ParseIes(EncodeIes(ies)) == ies
  {
    if ies != [] {
      var b, n := EncodeIes(ies), |ies[0].value|;
      IesRoundTrip(ies[1..]);
      assert b[2..2 + n] == ies[0].value && b[2 + n..] == EncodeIes(ies[1..]);
    }
  }

  /** A serialised header followed by any data parses back into every element and the data. */
  lemma UdhRoundTrip(ies: seq<Ie>, data: bytes)
    requires UdhToBytes(ies).Some?
    ensures UdhFromBytes(UdhToBytes(ies).value + data) == Some((ies, data))
  {
    var e := EncodeIes(ies);
    var b := UdhToBytes(ies).value + data;
    IesRoundTrip(ies);
    assert b[1..1 + |e|] == e && b[1 + |e|..] == data;
  }

  /** Parsing and writing again loses nothing but an incomplete element at the end. */
  lemma {:induction false} ParsedIesArePrefix(b: bytes)
    ensures EncodeIes(ParseIes(b)) <= b
    ensures var rest := b[|EncodeIes(ParseIes(b))|..]; |rest| < 2 || |rest| < 2 + rest[1] as int
  {
    if |b| >= 2 && |b| >= 2 + b[1] as int {
      var n := 2 + b[1] as int;
      ParsedIesArePrefix(b[n..]);
      assert ParseIes(b)[1..] == ParseIes(b[n..]);
      assert b[..n] == [b[0], b[1]] + b[2..n];
      assert EncodeIes(ParseIes(b)) == b[..n] + EncodeIes(ParseIes(b[n..]));
      PrefixBehind(b, n, EncodeIes(ParseIes(b[n..])));
    }
  }

  lemma PrefixBehind(b: bytes, n: nat, e: bytes)
    requires n <= |b| && e <= b[n..]
    ensures b[..n] + e <= b && b[|b[..n] + e|..] == b[n..][|e|..]
  {
    assert b == b[..n] + b[n..];
  }

  // ---------------------------------------------------------------------------------------
  // Addresses

  type nibble = d: int | 0 <= d < 16

  datatype Address = Address(ton: nat, npi: nibble, digits: seq<nibble>)
  {
    predicate Fits() {
      ton < 8 && |digits| < 256
    }
  }

  /** Two digits an octet, the first in the low half. */
  function Pack(digits: seq<nibble>): (b: bytes)
    requires |digits| % 2 == 0
    ensures |b| == |digits| / 2
  {
    if digits == [] then [] else [digits[0] as int + 16 * digits[1] as int] + Pack(digits[2..])
  }

  function Unpack(b: bytes): (digits: seq<nibble>)
    ensures |digits| == 2 * |b|
  {
    if b == [] then [] else [b[0] % 16, b[0] / 16] + Unpack(b[1..])
  }

  /** An odd number of digits is filled up with `f`. */
  function Filled(digits: seq<nibble>): (r: seq<nibble>)
    ensures |r| % 2 == 0
  {
    if |digits| % 2 == 1 then digits + [15] else digits
  }

  /** What `AddressField.to_bytes` writes; `None` if the number of digits does not fit its octet. */
  function EncodeAddress(a: Address): Option<bytes> {
    if a.Fits() then Some([|a.digits|, 128 + 16 * a.ton + a.npi] + Pack(Filled(a.digits))) else None
  }

  /** `AddressField.from_bytes`: the address and what follows it. */
  function ParseAddress(inb: bytes): (r: Option<(Address, bytes)>)
    ensures r.Some? ==> inb != [] && r.value.0.Fits() && |r.value.0.digits| == inb[0]
  {
    if |inb| < 2 || |inb| < 2 + inb[0] / 2 + inb[0] % 2 then None
    else
      var n := inb[0] / 2 + inb[0] % 2;
      Some((Address(inb[1] / 16 % 8, inb[1] % 16, Take(Unpack(inb[2..2 + n]), inb[0])), inb[2 + n..]))
  }

  lemma {:induction false} PackRoundTrip(digits: seq<nibble>)
    requires |digits| % 2 == 0
    ensures Unpack(Pack(digits)) == digits
  {
    if digits != [] {
      PackRoundTrip(digits[2..]);
      assert Pack(digits)[1..] == Pack(digits[2..]);
    }
  }

  lemma FilledAndPacked(digits: seq<nibble>)
    ensures |Pack(Filled(digits))| == |digits| / 2 + |digits| % 2
    ensures Take(Unpack(Pack(Filled(digits))), |digits|) == digits
  {
    hide Pack, Unpack;
    PackRoundTrip(Filled(digits));
  }

  lemma TonAndNpi(ton: nat, npi: nibble)
    requires ton < 8
    ensures (128 + 16 * ton + npi) / 16 % 8 == ton && (128 + 16 * ton + npi) % 16 == npi
  {
    assert (128 + 16 * ton + npi) / 16 == 8 + ton;
  }

  lemma AddressRoundTrip(a: Address, rest: bytes)
    requires a.Fits()
    ensures EncodeAddress(a).Some? && ParseAddress(EncodeAddress(a).value + rest) == Some((a, rest))
  {
    hide Pack, Unpack, Filled;
    var b := EncodeAddress(a).value + rest;
    var packed := Pack(Filled(a.digits));
    FilledAndPacked(a.digits);
    TonAndNpi(a.ton, a.npi);
    assert b[2..2 + |packed|] == packed && b[2 + |packed|..] == rest;
  }

  lemma {:induction false} PackedDigit(digits: seq<nibble>, i: nat)
    requires |digits| % 2 == 0 && i < |digits|
    ensures digits[i] == if i % 2 == 0 then Pack(digits)[i / 2] % 16 else Pack(digits)[i / 2] / 16
  {
    if i >= 2 {
      PackedDigit(digits[2..], i - 2);
      assert Pack(digits)[1..] == Pack(digits[2..]);
    }
  }

  lemma {:induction false} UnpackedDigit(b: bytes, i: nat)
    requires i < 2 * |b|
    ensures Unpack(b)[i] == if i % 2 == 0 then b[i / 2] % 16 else b[i / 2] / 16
  {
    if i >= 2 {
      UnpackedDigit(b[1..], i - 2);
    }
  }

  /**
   The octets of an address, section 9.1.2.5 of 3GPP TS 23.040: the number of digits, the type with its top bit set, the
   digits two an octet with the first in the low half, and a last half octet of ones for an odd number.
   */
  lemma AddressOctets(a: Address)
    requires a.Fits()
    ensures EncodeAddress(a).Some?
    ensures var b, n := EncodeAddress(a).value, |a.digits|;
            && |b| == 2 + (n + 1) / 2 && b[0] == n
            && b[1] >= 128 && b[1] / 16 % 8 == a.ton && b[1] % 16 == a.npi
            && (forall i :: 0 <= i < n ==> a.digits[i] == if i % 2 == 0 then b[2 + i / 2] % 16 else b[2 + i / 2] / 16)
            && (n % 2 == 1 ==> b[2 + n / 2] / 16 == 15)
  {
    hide Pack;
    var b, n, filled := EncodeAddress(a).value, |a.digits|, Filled(a.digits);
    TonAndNpi(a.ton, a.npi);
    assert b[2..] == Pack(filled);
    forall i | 0 <= i < |filled|
      ensures filled[i] == if i % 2 == 0 then b[2 + i / 2] % 16 else b[2 + i / 2] / 16
    {
      PackedDigit(filled, i);
      assert b[2..][i / 2] == b[2 + i / 2];
    }
    assert forall i :: 0 <= i < n ==> filled[i] == a.digits[i];
    if n % 2 == 1 {
      assert filled[n] == 15;
    }
  }

  /** What reading an address makes of any octets; neither its top bit nor a last half octet is looked at. */
  lemma ParsedAddress(b: bytes)
    ensures ParseAddress(b).Some? <==> |b| >= 2 && |b| >= 2 + (b[0] as int + 1) / 2
    ensures ParseAddress(b).Some? ==>
              var (a, rest) := ParseAddress(b).value;
              && a.ton == b[1] / 16 % 8 && a.npi == b[1] % 16 && |a.digits| == b[0]
              && (forall i :: 0 <= i < |a.digits| ==>
                    a.digits[i] == if i % 2 == 0 then b[2 + i / 2] % 16 else b[2 + i / 2] / 16)
              && rest == b[2 + (b[0] as int + 1) / 2..]
  {
    hide Unpack;
    if ParseAddress(b).Some? {
      var (a, rest) := ParseAddress(b).value;
      var n := b[0] / 2 + b[0] % 2;
      forall i | 0 <= i < |a.digits|
        ensures a.digits[i] == if i % 2 == 0 then b[2 + i / 2] % 16 else b[2 + i / 2] / 16
      {
        UnpackedDigit(b[2..2 + n], i);
        assert b[2..2 + n][i / 2] == b[2 + i / 2];
      }
    }
  }

  /** The address object, whose digits `to_bytes` changes. */
  class AddressField {
    var ton: nat
    var npi: nibble
    var digits: seq<nibble>

    constructor (ton: nat, npi: nibble, digits: seq<nibble>)
      ensures this.ton == ton && this.npi == npi && this.digits == digits
    {
      this.ton, this.npi, this.digits := ton, npi, digits;
    }

    function Value(): Address
      reads this
    {
      Address(ton, npi, digits)
    }

    /** `to_bytes`: the encoding of the address as it was before the call, which fills the digits up. */
    method ToBytes() returns (r: Option<bytes>)
      modifies this`digits
      ensures r == EncodeAddress(old(Value()))
      ensures digits == Filled(old(digits))
    {
      var numDigits := |digits|;
      if numDigits % 2 == 1 {
        digits := digits + [15];
      }
      if ton < 8 && numDigits < 256 {
        r := Some([numDigits, 128 + 16 * ton + npi] + Pack(digits));
      } else {
        r := None;
      }
    }
  }

  /**
   Writing the same address object twice gives the same bytes exactly if the number of digits is
   even, or too large to be written at all: otherwise the filler digit is counted the second time.
   */
  lemma WritingTwice(a: Address)
    requires a.ton < 8
    ensures EncodeAddress(a.(digits := Filled(a.digits))) == EncodeAddress(a)
       <==> |a.digits| % 2 == 0 || |a.digits| > 255
  {
    if |a.digits| % 2 == 1 && |a.digits| < 255 {
      assert EncodeAddress(a).value[0] == |a.digits|;
      assert EncodeAddress(a.(digits := Filled(a.digits))).value[0] == |a.digits| + 1;
    }
  }

  /** For instance an address of one digit: the second time it has two. */
  lemma OneDigitWrittenTwice()
    ensures var a := Address(0, 1, [7]);
            && EncodeAddress(a) == Some([1, 0x81, 0xF7])
            && EncodeAddress(a.(digits := Filled(a.digits))) == Some([2, 0x81, 0xF7])
  {
    var two: seq<nibble> := [7, 15];
    var once, twice := Address(0, 1, [7]), Address(0, 1, two);
    assert two[2..] == [] && Pack(two) == [0xF7];
    assert Filled(once.digits) == two && Filled(twice.digits) == two && once.(digits := two) == twice;
    assert EncodeAddress(once).value == [1, 0x81] + [0xF7] == [1, 0x81, 0xF7];
    assert EncodeAddress(twice).value == [2, 0x81] + [0xF7] == [2, 0x81, 0xF7];
  }

  // ---------------------------------------------------------------------------------------
  // SMS-DELIVER

  datatype Deliver = Deliver(rp: bool, udhi: bool, sri: bool, lp: bool, mms: bool,
                             oa: Address, pid: byte, dcs: byte, scts: bytes, udl: byte, ud: bytes)
  {
    predicate Fits() {
      oa.Fits() && |scts| == 7
    }
  }

  function Bit(b: bool): nat {
    if b then 1 else 0
  }

  /** The first octet: type 0 and the flags. */
  function DeliverFlags(d: Deliver): byte {
    128 * Bit(d.rp) + 64 * Bit(d.udhi) + 32 * Bit(d.sri) + 8 * Bit(d.lp) + 4 * Bit(d.mms)
  }

  /** What `SMS_DELIVER.to_bytes` writes. */
  function EncodeDeliver(d: Deliver): Option<bytes> {
    if !d.oa.Fits() then None
    else
      Some([DeliverFlags(d)] + (EncodeAddress(d.oa).value + ([d.pid, d.dcs] + d.scts + [d.udl] + d.ud)))
  }

  /** `SMS_DELIVER.from_bytes`; `None` is the exception for a message that is too short. */
  function ParseDeliver(inb: bytes): Option<Deliver> {
    if inb == [] then None
    else
      var addr := ParseAddress(inb[1..]);
      if addr.None? then None
      else
        var (oa, rest) := addr.value;
        if |rest| < 10 then None
        else
          Some(Deliver(inb[0] / 128 == 1, inb[0] / 64 % 2 == 1, inb[0] / 32 % 2 == 1,
                       inb[0] / 8 % 2 == 1, inb[0] / 4 % 2 == 1,
                       oa, rest[0], rest[1], rest[2..9], rest[9], rest[10..]))
  }

  /** `SMS_DELIVER.to_bytes` of a message whose originator is the object `oa`. */
  method DeliverToBytes(d: Deliver, oa: AddressField) returns (r: Option<bytes>)
    requires d.oa == oa.Value()
    modifies oa`digits
    ensures r == EncodeDeliver(d) && oa.digits == Filled(old(oa.digits))
  {
    hide EncodeAddress;
    var outb: bytes := [DeliverFlags(d)];
    var address := oa.ToBytes();
    FitsToBeEncoded(d.oa);
    if address.None? {
      return None;
    }
    outb := outb + address.value;
    outb := outb + [d.pid];
    outb := outb + [d.dcs];
    outb := outb + d.scts;
    outb := outb + [d.udl];
    outb := outb + d.ud;
    r := Some(outb);
    assert outb == [DeliverFlags(d)] + (address.value + ([d.pid, d.dcs] + d.scts + [d.udl] + d.ud));
  }

  lemma FitsToBeEncoded(a: Address)
    ensures EncodeAddress(a).Some? <==> a.Fits()
  {
  }

  /** `SMS_DELIVER.from_bytes`. */
  method DeliverFromBytes(inb: bytes) returns (r: Option<Deliver>)
    ensures r == ParseDeliver(inb)
  {
    hide ParseAddress;
    if inb == [] {
      return None;
    }
    var address := ParseAddress(inb[1..]);
    if address.None? {
      return None;
    }
    var (oa, remainder) := address.value;
    if |remainder| < 10 {
      return None;
    }
    var offset := 0;
    var pid := remainder[offset];
    offset := offset + 1;
    var dcs := remainder[offset];
    offset := offset + 1;
    var scts := remainder[offset..offset + 7];
    offset := offset + 7;
    var udl := remainder[offset];
    offset := offset + 1;
    r := Some(Deliver(inb[0] / 128 == 1, inb[0] / 64 % 2 == 1, inb[0] / 32 % 2 == 1, inb[0] / 8 % 2 == 1,
                      inb[0] / 4 % 2 == 1, oa, pid, dcs, scts, udl, remainder[offset..]));
  }

  /** The fields of a first octet: three flags, two bits, a flag, and the type of the message. */
  lemma BitsOf(a: nat, b: nat, c: nat, v: nat, e: nat, mti: nat)
    requires a < 2 && b < 2 && c < 2 && v < 4 && e < 2 && mti < 4
    ensures var f := 128 * a + 64 * b + 32 * c + 8 * v + 4 * e + mti;
            f / 128 == a && f / 64 % 2 == b && f / 32 % 2 == c && f / 8 % 4 == v && f / 4 % 2 == e
            && f / 8 % 2 == v % 2
  {
    var f := 128 * a + 64 * b + 32 * c + 8 * v + 4 * e + mti;
    assert f / 4 == 32 * a + 16 * b + 8 * c + 2 * v + e;
    assert f / 8 == 16 * a + 8 * b + 4 * c + v;
    assert f / 32 == 4 * a + 2 * b + c;
    assert f / 64 == 2 * a + b;
  }

  lemma DeliverFlagsAreReadBack(d: Deliver)
    ensures var f := DeliverFlags(d);
            && (f / 128 == 1) == d.rp && (f / 64 % 2 == 1) == d.udhi && (f / 32 % 2 == 1) == d.sri
            && (f / 8 % 2 == 1) == d.lp && (f / 4 % 2 == 1) == d.mms
  {
    var f := DeliverFlags(d);
    BitsOf(Bit(d.rp), Bit(d.udhi), Bit(d.sri), Bit(d.lp), Bit(d.mms), 0);
    assert f == 128 * Bit(d.rp) + 64 * Bit(d.udhi) + 32 * Bit(d.sri) + 8 * Bit(d.lp) + 4 * Bit(d.mms) + 0;
    assert f / 128 == Bit(d.rp) && f / 64 % 2 == Bit(d.udhi) && f / 32 % 2 == Bit(d.sri);
    assert f / 8 % 2 == Bit(d.lp) && f / 4 % 2 == Bit(d.mms);
  }

  /** Every SMS-DELIVER whose address and time stamp can be written is read back field by field. */
  lemma DeliverRoundTrip(d: Deliver)
    requires d.Fits()
    ensures EncodeDeliver(d).Some? && ParseDeliver(EncodeDeliver(d).value) == Some(d)
  {
    hide EncodeAddress, ParseAddress, DeliverFlags;
    var rest := [d.pid, d.dcs] + d.scts + [d.udl] + d.ud;
    AddressRoundTrip(d.oa, rest);
    assert EncodeDeliver(d).value[1..] == EncodeAddress(d.oa).value + rest;
    DeliverFlagsAreReadBack(d);
    Fields(d.pid, d.dcs, d.scts, d.udl, d.ud);
  }

  /** The octets of an SMS-DELIVER, section 9.2.2.1 of 3GPP TS 23.040. */
  lemma DeliverOctets(d: Deliver)
    requires d.Fits()
    ensures EncodeDeliver(d).Some? && EncodeAddress(d.oa).Some?
    ensures var v := EncodeDeliver(d).value;
            var n := 1 + |EncodeAddress(d.oa).value|;
            && |v| == n + 10 + |d.ud|
            && (v[0] / 128 == 1 <==> d.rp) && (v[0] / 64 % 2 == 1 <==> d.udhi) && (v[0] / 32 % 2 == 1 <==> d.sri)
            && v[0] / 16 % 2 == 0 && (v[0] / 8 % 2 == 1 <==> d.lp) && (v[0] / 4 % 2 == 1 <==> d.mms) && v[0] % 4 == 0
            && v[1..n] == EncodeAddress(d.oa).value
            && v[n] == d.pid && v[n + 1] == d.dcs && v[n + 2..n + 9] == d.scts && v[n + 9] == d.udl && v[n + 10..] == d.ud
  {
    hide EncodeAddress, DeliverFlags;
    FitsToBeEncoded(d.oa);
    DeliverFlagsAreReadBack(d);
    TypeBits(d);
    FieldsBehind([DeliverFlags(d)], EncodeAddress(d.oa).value, d.pid, d.dcs, d.scts, d.udl, d.ud);
  }

  lemma TypeBits(d: Deliver)
    ensures DeliverFlags(d) % 4 == 0 && DeliverFlags(d) / 16 % 2 == 0
  {
    var f, high := DeliverFlags(d), 4 * Bit(d.rp) + 2 * Bit(d.udhi) + Bit(d.sri);
    assert f == 32 * high + 8 * Bit(d.lp) + 4 * Bit(d.mms);
    assert f / 16 == 2 * high;
  }

  /** What reading an SMS-DELIVER makes of any octets. */
  lemma ParsedDeliver(b: bytes)
    ensures ParseDeliver(b).Some? <==>
            |b| >= 3 && |b| >= 3 + (b[1] as int + 1) / 2 + 10
    ensures ParseDeliver(b).Some? ==>
              var d := ParseDeliver(b).value;
              var n := 3 + (b[1] as int + 1) / 2;
              && (b[0] / 128 == 1 <==> d.rp) && (b[0] / 64 % 2 == 1 <==> d.udhi) && (b[0] / 32 % 2 == 1 <==> d.sri)
              && (b[0] / 8 % 2 == 1 <==> d.lp) && (b[0] / 4 % 2 == 1 <==> d.mms)
              && ParseAddress(b[1..]).Some? && d.oa == ParseAddress(b[1..]).value.0
              && b[n] == d.pid && b[n + 1] == d.dcs && b[n + 2..n + 9] == d.scts && b[n + 9] == d.udl && b[n + 10..] == d.ud
  {
    hide ParseAddress;
    if b != [] {
      ParsedAddress(b[1..]);
    }
  }

  // ---------------------------------------------------------------------------------------
  // SMS-SUBMIT

  datatype Vpf = NoVp | Enhanced | Relative | Absolute

  function VpfBits(v: Vpf): nat {
    match v case NoVp => 0 case Enhanced => 1 case Relative => 2 case Absolute => 3
  }

  function VpfOf(bits: nat): Vpf {
    if bits == 0 then NoVp else if bits == 1 then Enhanced else if bits == 2 then Relative else Absolute
  }

  lemma VpfRoundTrip(v: Vpf)
    ensures VpfBits(v) < 4 && VpfOf(VpfBits(v)) == v
  {
  }

  /** The number of octets of the validity period. */
  function VpLength(v: Vpf): nat {
    match v case NoVp => 0 case Relative => 1 case Enhanced => 7 case Absolute => 7
  }

  datatype Submit = Submit(srr: bool, udhi: bool, rp: bool, vpf: Vpf, rd: bool, mr: byte,
                           da: Address, pid: byte, dcs: byte, vp: Option<bytes>, udl: byte, ud: bytes)
  {
    /** The validity period is there, with its length, exactly if the format says so. */
    predicate Fits() {
      && da.Fits()
      && (if vpf == NoVp then vp == None else vp.Some? && |vp.value| == VpLength(vpf))
    }
  }

  /** The first octet: type 1, the flags and the validity period format. */
  function SubmitFlags(s: Submit): byte {
    128 * Bit(s.srr) + 64 * Bit(s.udhi) + 32 * Bit(s.rp) + 8 * VpfBits(s.vpf) + 4 * Bit(s.rd) + 1
  }

  /** What `SMS_SUBMIT.to_bytes` writes; `None` for a missing validity period (TypeError) or an address too long. */
  function EncodeSubmit(s: Submit): Option<bytes> {
    if !s.da.Fits() || (s.vpf != NoVp && s.vp.None?) then None
    else
      var vp := if s.vpf != NoVp then s.vp.value else [];
      Some([SubmitFlags(s), s.mr] + (EncodeAddress(s.da).value + ([s.pid, s.dcs] + vp + [s.udl] + s.ud)))
  }

  /** `SMS_SUBMIT.from_bytes`; `None` is the exception for a message that is too short. */
  function ParseSubmit(inb: bytes): Option<Submit> {
    if |inb| < 2 then None
    else
      var addr := ParseAddress(inb[2..]);
      if addr.None? then None
      else
        var (da, rest) := addr.value;
        var vpf := VpfOf(inb[0] / 8 % 4);
        var n := 2 + VpLength(vpf);
        if |rest| < n + 1 then None
        else
          Some(Submit(inb[0] / 128 == 1, inb[0] / 64 % 2 == 1, inb[0] / 32 % 2 == 1, vpf, inb[0] / 4 % 2 == 1,
                      inb[1], da, rest[0], rest[1], if vpf == NoVp then None else Some(rest[2..n]),
                      rest[n], rest[n + 1..]))
  }

  /** `SMS_SUBMIT.to_bytes` of a message whose destination is the object `da`. */
  method SubmitToBytes(s: Submit, da: AddressField) returns (r: Option<bytes>)
    requires s.da == da.Value()
    modifies da`digits
    ensures r == EncodeSubmit(s) && da.digits == Filled(old(da.digits))
  {
    hide EncodeAddress;
    var outb: bytes := [SubmitFlags(s)];
    outb := outb + [s.mr];
    var address := da.ToBytes();
    FitsToBeEncoded(s.da);
    if address.None? {
      return None;
    }
    outb := outb + address.value;
    outb := outb + [s.pid];
    outb := outb + [s.dcs];
    if s.vpf != NoVp {
      if s.vp.None? {
        return None;
      }
      outb := outb + s.vp.value;
    }
    outb := outb + [s.udl];
    outb := outb + s.ud;
    r := Some(outb);
    var vp := if s.vpf != NoVp then s.vp.value else [];
    assert outb == [SubmitFlags(s), s.mr] + (address.value + ([s.pid, s.dcs] + vp + [s.udl] + s.ud));
  }

  /** `SMS_SUBMIT.from_bytes`: the offset moves over a validity period of the length the format tells. */
  method SubmitFromBytes(inb: bytes) returns (r: Option<Submit>)
    ensures r == ParseSubmit(inb)
  {
    hide ParseAddress;
    if |inb| < 2 {
      return None;
    }
    var mr := inb[1];
    var address := ParseAddress(inb[2..]);
    if address.None? {
      return None;
    }
    var (da, remainder) := address.value;
    if |remainder| < 2 {
      return None;
    }
    var offset := 0;
    var pid := remainder[offset];
    offset := offset + 1;
    var dcs := remainder[offset];
    offset := offset + 1;
    var vpf, vp := VpfOf(inb[0] / 8 % 4), None;
    match vpf {
      case NoVp =>
      case Relative =>
        vp := Some(Take(remainder[offset..], 1));
        offset := offset + 1;
      case Enhanced =>
        vp := Some(Take(remainder[offset..], 7));
        offset := offset + 7;
      case Absolute =>
        vp := Some(Take(remainder[offset..], 7));
        offset := offset + 7;
    }
    if offset >= |remainder| {
      return None;
    }
    assert remainder[2..][..offset - 2] == remainder[2..offset];
    var udl := remainder[offset];
    offset := offset + 1;
    r := Some(Submit(inb[0] / 128 == 1, inb[0] / 64 % 2 == 1, inb[0] / 32 % 2 == 1, vpf, inb[0] / 4 % 2 == 1,
                     mr, da, pid, dcs, vp, udl, remainder[offset..]));
  }

  lemma SubmitFlagsAreReadBack(s: Submit)
    ensures var f := SubmitFlags(s);
            && (f / 128 == 1) == s.srr && (f / 64 % 2 == 1) == s.udhi && (f / 32 % 2 == 1) == s.rp
            && VpfOf(f / 8 % 4) == s.vpf && (f / 4 % 2 == 1) == s.rd
  {
    hide VpfOf, VpfBits;
    VpfRoundTrip(s.vpf);
    BitsOf(Bit(s.srr), Bit(s.udhi), Bit(s.rp), VpfBits(s.vpf), Bit(s.rd), 1);
    assert SubmitFlags(s)
        == 128 * Bit(s.srr) + 64 * Bit(s.udhi) + 32 * Bit(s.rp) + 8 * VpfBits(s.vpf) + 4 * Bit(s.rd) + 1;
  }

  lemma Fields(a: byte, b: byte, mid: bytes, c: byte, end: bytes)
    ensures var r := [a, b] + mid + [c] + end;
            var n := 2 + |mid|;
            |r| > n && r[0] == a && r[1] == b && r[2..n] == mid && r[n] == c && r[n + 1..] == end
  {
  }

  /** Every SMS-SUBMIT, with any validity period format, is read back field by field. */
  lemma SubmitRoundTrip(s: Submit)
    requires s.Fits()
    ensures EncodeSubmit(s).Some? && ParseSubmit(EncodeSubmit(s).value) == Some(s)
  {
    hide EncodeAddress, ParseAddress, VpfOf, SubmitFlags;
    var vp := if s.vpf != NoVp then s.vp.value else [];
    var rest := [s.pid, s.dcs] + vp + [s.udl] + s.ud;
    AddressRoundTrip(s.da, rest);
    assert EncodeSubmit(s).value[2..] == EncodeAddress(s.da).value + rest;
    SubmitFlagsAreReadBack(s);
    Fields(s.pid, s.dcs, vp, s.udl, s.ud);
  }

  /** The octets of an SMS-SUBMIT, section 9.2.2.2 of 3GPP TS 23.040. */
  lemma SubmitOctets(s: Submit)
    requires s.Fits()
    ensures EncodeSubmit(s).Some? && EncodeAddress(s.da).Some?
    ensures var v := EncodeSubmit(s).value;
            var n := 2 + |EncodeAddress(s.da).value|;
            var k := match s.vpf case NoVp => 0 case Relative => 1 case Enhanced => 7 case Absolute => 7;
            && |v| == n + 3 + k + |s.ud|
            && (v[0] / 128 == 1 <==> s.srr) && (v[0] / 64 % 2 == 1 <==> s.udhi) && (v[0] / 32 % 2 == 1 <==> s.rp)
            && (v[0] / 8 % 4 == match s.vpf case NoVp => 0 case Enhanced => 1 case Relative => 2 case Absolute => 3)
            && (v[0] / 4 % 2 == 1 <==> s.rd) && v[0] % 4 == 1
            && v[1] == s.mr && v[2..n] == EncodeAddress(s.da).value
            && v[n] == s.pid && v[n + 1] == s.dcs && (s.vpf != NoVp ==> v[n + 2..n + 2 + k] == s.vp.value)
            && v[n + 2 + k] == s.udl && v[n + 3 + k..] == s.ud
  {
    hide EncodeAddress, SubmitFlags, Bit;
    FitsToBeEncoded(s.da);
    var vp := if s.vpf != NoVp then s.vp.value else [];
    var v := EncodeSubmit(s).value;
    assert v[0] == SubmitFlags(s) && v[1] == s.mr;
    SubmitFlagBits(s);
    FieldsBehind([SubmitFlags(s), s.mr], EncodeAddress(s.da).value, s.pid, s.dcs, vp, s.udl, s.ud);
  }

  lemma FieldsBehind(head: bytes, address: bytes, a: byte, b: byte, mid: bytes, c: byte, end: bytes)
    ensures var v := head + (address + ([a, b] + mid + [c] + end));
            var n, k := |head| + |address|, |mid|;
            && |v| == n + 3 + k + |end| && v[..|head|] == head && v[|head|..n] == address
            && v[n] == a && v[n + 1] == b && v[n + 2..n + 2 + k] == mid && v[n + 2 + k] == c && v[n + 3 + k..] == end
  {
    var rest := [a, b] + mid + [c] + end;
    var v, n, k := head + (address + rest), |head| + |address|, |mid|;
    Fields(a, b, mid, c, end);
    assert v[n..] == rest;
    assert v[n + 2..n + 2 + k] == rest[2..2 + k] && v[n + 3 + k..] == rest[3 + k..];
    assert v[n] == rest[0] && v[n + 1] == rest[1] && v[n + 2 + k] == rest[2 + k];
  }

  lemma BitIsBit(b: bool)
    ensures Bit(b) < 2 && (Bit(b) == 1 <==> b)
  {
  }

  lemma LowBits(q: nat, f: nat)
    requires f == 4 * q + 1
    ensures f % 4 == 1
  {
  }

  /** The bits of the first octet. */
  lemma SubmitFlagBits(s: Submit)
    ensures var f := SubmitFlags(s);
            && (f / 128 == 1 <==> s.srr) && (f / 64 % 2 == 1 <==> s.udhi) && (f / 32 % 2 == 1 <==> s.rp)
            && (f / 8 % 4 == match s.vpf case NoVp => 0 case Enhanced => 1 case Relative => 2 case Absolute => 3)
            && (f / 4 % 2 == 1 <==> s.rd) && f % 4 == 1
  {
    hide Bit;
    BitIsBit(s.srr);
    BitIsBit(s.udhi);
    BitIsBit(s.rp);
    BitIsBit(s.rd);
    BitsOf(Bit(s.srr), Bit(s.udhi), Bit(s.rp), VpfBits(s.vpf), Bit(s.rd), 1);
    LowBits(32 * Bit(s.srr) + 16 * Bit(s.udhi) + 8 * Bit(s.rp) + 2 * VpfBits(s.vpf) + Bit(s.rd), SubmitFlags(s));
  }

  /** What reading an SMS-SUBMIT makes of any octets. */
  lemma ParsedSubmit(b: bytes)
    ensures var k := if |b| == 0 then 0 else if b[0] / 8 % 4 == 0 then 0 else if b[0] / 8 % 4 == 2 then 1 else 7;
            ParseSubmit(b).Some? <==> |b| >= 4 && |b| >= 4 + (b[2] as int + 1) / 2 + 3 + k
    ensures ParseSubmit(b).Some? ==>
              var s := ParseSubmit(b).value;
              var n := 4 + (b[2] as int + 1) / 2;
              var k := if b[0] / 8 % 4 == 0 then 0 else if b[0] / 8 % 4 == 2 then 1 else 7;
              && (b[0] / 128 == 1 <==> s.srr) && (b[0] / 64 % 2 == 1 <==> s.udhi) && (b[0] / 32 % 2 == 1 <==> s.rp)
              && (b[0] / 8 % 4 == match s.vpf case NoVp => 0 case Enhanced => 1 case Relative => 2 case Absolute => 3)
              && (b[0] / 4 % 2 == 1 <==> s.rd) && b[1] == s.mr
              && ParseAddress(b[2..]).Some? && s.da == ParseAddress(b[2..]).value.0
              && b[n] == s.pid && b[n + 1] == s.dcs
              && s.vp == (if b[0] / 8 % 4 == 0 then None else Some(b[n + 2..n + 2 + k]))
              && b[n + 2 + k] == s.udl && b[n + 3 + k..] == s.ud
  {
    hide ParseAddress;
    if |b| >= 2 {
      ParsedAddress(b[2..]);
      if ParseSubmit(b).Some? {
        var n := 4 + (b[2] as int + 1) / 2;
        var k := if b[0] / 8 % 4 == 0 then 0 else if b[0] / 8 % 4 == 2 then 1 else 7;
        assert b[n..][2..2 + k] == b[n + 2..n + 2 + k];
      }
    }
  }
}
