/**
 Response packets of section 5.2 of ETSI TS 102 225 in a short message: how `decode_resp` of
 pysim/pySim/ota.py opens them.
 */
module OtaResponse {
  import opened Wrappers
  import opened Bytes
  import opened SmsTpdu
  import opened OtaSms

  datatype Response = Response(tar: bytes, cntr: bytes, pcntr: byte, status: byte, ccRc: bytes, securedData: bytes)

  datatype Compact = Compact(numberOfCommands: byte, lastStatusWord: bytes, lastResponseData: bytes)

  const POR_OK: byte := 0
  const RPI: byte := 0x71

  /** `SmsResponsePacket.parse`; the header length counts from TAR to the check octets. */
  function ParseResponse(b: bytes): Option<Response> {
    if |b| < 13 || b[2] < 10 || |b| < 3 + b[2] as int then None
    else Some(Response(b[3..6], b[6..11], b[11], b[12], b[13..3 + b[2] as int], b[3 + b[2] as int..]))
  }

  predicate HasIe(ies: seq<Ie>, iei: byte) {
    exists i :: 0 <= i < |ies| && ies[i].iei == iei
  }

  /** The packet with its ciphered part in the clear. */
  function Opened(k: Keyset, spi: Spi, remainder: bytes): Option<bytes>
    requires IsBlock(k.crypt.blocksize)
  {
    if !spi.porShallBeCiphered then Some(remainder)
    else if |Drop(remainder, 6)| % k.crypt.blocksize != 0 then None
    else Some(Take(remainder, 6) + k.crypt.dec(Drop(remainder, 6)))
  }

  /** The padding is removed from ciphered packets only. */
  function Stripped(spi: Spi, r: Response): Response {
    if spi.porShallBeCiphered && r.pcntr != 0 then r.(securedData := SliceTo(r.securedData, -(r.pcntr as int))) else r
  }

  /** Whether the check octets are what the security parameters ask for; `header` is the UDH. */
  function Checked(k: Keyset, spi: Spi, header: bytes, packet: bytes, r: Response): bool
    requires IsBlock(k.auth.blocksize)
  {
    match spi.porRcCcDs
    case NoRcCcDs => r.ccRc == []
    case Cc => Sign(k.auth, header + Take(packet, 13) + Drop(packet, 13 + |r.ccRc|)) == r.ccRc
    case _ => false
  }

  /** `CompactRemoteResp.parse` of the data of a successful response. */
  function Remote(r: Response): Result<Option<Compact>, OtaError> {
    if r.status != POR_OK || r.securedData == [] then Ok(None)
    else if |r.securedData| < 3 then Err(Malformed)
    else Ok(Some(Compact(r.securedData[0], r.securedData[1..3], r.securedData[3..])))
  }

  /** What `decode_resp` computes. */
  function DecodeResp(k: Keyset, spi: Spi, data: bytes): Result<(Response, Option<Compact>), OtaError>
    requires IsBlock(k.crypt.blocksize) && IsBlock(k.auth.blocksize)
  {
    if data == [] then Err(Malformed)
    else if data[0] != 2 then Err(NotAResponse)
    else if UdhFromBytes(data).None? then Err(Malformed)
    else
      var (ies, remainder) := UdhFromBytes(data).value;
      if !HasIe(ies, RPI) then Err(NotAResponse)
      else if ParseResponse(remainder).None? then Err(Malformed)
      else
        var packet := Opened(k, spi, remainder);
        if packet.None? || ParseResponse(packet.value).None? then Err(Malformed)
        else
          var r := ParseResponse(packet.value).value;
          var res := Stripped(spi, r);
          if !Checked(k, spi, Take(data, 3), packet.value, r) then Err(CheckFailed)
          else
            var dec := Remote(res);
            if dec.Err? then Err(dec.error) else Ok((res, dec.value))
  }

  // ---------------------------------------------------------------------------------------
  // The octets of a response, section 5.2 of ETSI TS 102 225

  /** The packet behind the user data header, in the clear from its seventh octet on. */
  function InTheClear(k: Keyset, spi: Spi, data: bytes): bytes
    requires |data| >= 3
  {
    if spi.porShallBeCiphered then Take(data[3..], 6) + k.crypt.dec(Drop(data[3..], 6)) else data[3..]
  }

  /** Long enough for its fixed fields and for the header it announces. */
  predicate IsPacket(b: bytes) {
    |b| >= 13 && b[2] >= 10 && |b| >= 3 + b[2] as int
  }

  /** The message starts with the user data header of a response: two octets, an element 71 without contents. */
  predicate IsResponse(data: bytes) {
    |data| >= 3 && data[0] == 2 && data[1] == 0x71 && data[2] == 0
  }

  /** The check octets of a packet in the clear are those of all its other octets and of the user data header. */
  predicate IsSigned(k: Keyset, data: bytes, c: bytes)
    requires IsBlock(k.auth.blocksize) && |data| >= 3 && IsPacket(c)
  {
    c[13..3 + c[2] as int] == Sign(k.auth, data[..3] + c[..13] + c[3 + c[2] as int..])
  }

  /** What is left of the data: without the padding octets counted, in ciphered packets. */
  function WithoutPadding(spi: Spi, c: bytes): bytes
    requires IsPacket(c)
  {
    var data := c[3 + c[2] as int..];
    if !spi.porShallBeCiphered then data else if c[11] <= |data| then data[..|data| - c[11]] else []
  }

  lemma HeaderOfResponse(data: bytes)
    requires |data| >= 3 && data[0] == 2
    ensures UdhFromBytes(data).Some? && UdhFromBytes(data).value.1 == data[3..]
    ensures HasIe(UdhFromBytes(data).value.0, RPI) <==> data[1] == 0x71 && data[2] == 0
  {
    var ies := ParseIes(data[1..3]);
    var b := data[1..3];
    if data[2] == 0 {
      assert b[2..] == [];
      assert ies[0] == Ie(data[1], b[2..2]) && ies[1..] == ParseIes([]) == [];
    } else {
      assert ies == [];
    }
  }

  lemma StrippedIsWithoutPadding(spi: Spi, c: bytes)
    requires IsPacket(c)
    ensures ParseResponse(c).Some?
    ensures Stripped(spi, ParseResponse(c).value).securedData == WithoutPadding(spi, c)
  {
  }

  lemma {:induction false} CheckedIsSigned(k: Keyset, spi: Spi, data: bytes, c: bytes)
    requires IsBlock(k.auth.blocksize) && |data| >= 3 && IsPacket(c)
    ensures Checked(k, spi, Take(data, 3), c, ParseResponse(c).value) <==>
            match spi.porRcCcDs
            case NoRcCcDs => c[2] == 10
            case Cc => IsSigned(k, data, c)
            case Rc => false
            case Ds => false
  {
    hide Sign;
    assert Drop(c, 13 + (c[2] as int - 10)) == c[3 + c[2] as int..];
  }

  /** Whether a message is taken for a response at all, before its check octets are looked at. */
  predicate IsOpened(k: Keyset, spi: Spi, data: bytes)
    requires IsBlock(k.crypt.blocksize)
  {
    && IsResponse(data) && IsPacket(data[3..])
    && (spi.porShallBeCiphered ==> (|data| - 9) % k.crypt.blocksize == 0)
    && IsPacket(InTheClear(k, spi, data))
  }

  /**
   What decoding makes of any message. One that can be opened is refused if and only if its check octets are wrong, or a
   successful response has one or two octets of data; with a checksum that covers every other octet of the packet in the
   clear and its user data header, without check octets if none were asked for, and never for a redundancy check or a
   digital signature. Otherwise the octets of its fields come out.
   */
  lemma {:induction false} ResponseOctets(k: Keyset, spi: Spi, data: bytes)
    requires IsBlock(k.crypt.blocksize) && IsBlock(k.auth.blocksize)
    ensures !IsOpened(k, spi, data) ==> DecodeResp(k, spi, data) in {Err(Malformed), Err(NotAResponse)}
    ensures |data| >= 3 && (data[0] != 2 || data[1] != 0x71 || data[2] != 0) ==>
              DecodeResp(k, spi, data) == Err(NotAResponse)
    ensures IsOpened(k, spi, data) ==>
              var c := InTheClear(k, spi, data);
              var secured := WithoutPadding(spi, c);
              var r := DecodeResp(k, spi, data);
              var accepted := match spi.porRcCcDs
                              case NoRcCcDs => c[2] == 10
                              case Cc => IsSigned(k, data, c)
                              case Rc => false
                              case Ds => false;
              if !accepted then r == Err(CheckFailed)
              else if c[12] == 0 && 1 <= |secured| <= 2 then r == Err(Malformed)
              else r == Ok((Response(c[3..6], c[6..11], c[11], c[12], c[13..3 + c[2] as int], secured),
                            if c[12] == 0 && secured != [] then Some(Compact(secured[0], secured[1..3], secured[3..]))
                            else None))
  {
    hide UdhFromBytes, HasIe, Sign, Checked;
    if |data| >= 3 && data[0] == 2 {
      HeaderOfResponse(data);
    } else {
      TooShortOrOther(k, spi, data);
    }
    if IsOpened(k, spi, data) {
      var c := InTheClear(k, spi, data);
      CheckedIsSigned(k, spi, data, c);
      StrippedIsWithoutPadding(spi, c);
    }
  }

  lemma TooShortOrOther(k: Keyset, spi: Spi, data: bytes)
    requires IsBlock(k.crypt.blocksize) && IsBlock(k.auth.blocksize) && (|data| < 3 || data[0] != 2)
    ensures DecodeResp(k, spi, data) in {Err(Malformed), Err(NotAResponse)}
    ensures |data| >= 3 ==> DecodeResp(k, spi, data) == Err(NotAResponse)
  {
    hide ParseResponse, Opened;
  }

  /** `decode_resp`, which overwrites the secured data of the parsed packet. */
  method DecodeResponse(k: Keyset, spi: Spi, data: bytes) returns (r: Result<(Response, Option<Compact>), OtaError>)
    requires IsBlock(k.crypt.blocksize) && IsBlock(k.auth.blocksize)
    ensures r == DecodeResp(k, spi, data)
  {
    hide UdhFromBytes, ParseResponse, Padding;
    if data == [] {
      return Err(Malformed);
    }
    if data[0] != 2 {
      return Err(NotAResponse);
    }
    var udh := UdhFromBytes(data);
    if udh.None? {
      return Err(Malformed);
    }
    var (ies, remainder) := udh.value;
    if !HasIe(ies, RPI) {
      return Err(NotAResponse);
    }
    var rphRhlTar := Take(remainder, 6);
    var parsed := ParseResponse(remainder);
    if parsed.None? {
      return Err(Malformed);
    }
    var res := parsed.value;
    if spi.porShallBeCiphered {
      var cipheredPart := Drop(remainder, 6);
      if |cipheredPart| % k.crypt.blocksize != 0 {
        return Err(Malformed);
      }
      remainder := rphRhlTar + k.crypt.dec(cipheredPart);
      parsed := ParseResponse(remainder);
      if parsed.None? {
        return Err(Malformed);
      }
      res := parsed.value;
      if res.pcntr != 0 {
        res := res.(securedData := SliceTo(res.securedData, -(res.pcntr as int)));
      }
    }
    var lenSig := |res.ccRc|;
    match spi.porRcCcDs {
      case NoRcCcDs =>
        if lenSig != 0 {
          return Err(CheckFailed);
        }
      case Cc =>
        var signed := Take(data, 3) + Take(remainder, 13) + Drop(remainder, 13 + lenSig);
        if Sign(k.auth, signed) != res.ccRc {
          return Err(CheckFailed);
        }
      case Rc =>
        return Err(CheckFailed);
      case Ds =>
        return Err(CheckFailed);
    }
    var dec := Remote(res);
    r := if dec.Err? then Err(dec.error) else Ok((res, dec.value));
  }

  // ---------------------------------------------------------------------------------------
  // A sender that follows the standard

  const UDH: bytes := [2, RPI, 0]

  /** The padding of the ciphered part, from the counter to the data. */
  function RespPadding(k: Keyset, spi: Spi, secured: bytes): bytes
    requires IsBlock(k.crypt.blocksize) && spi.porRcCcDs != Ds
  {
    if spi.porShallBeCiphered then Padding(7 + SigLen(spi.porRcCcDs) + |secured|, k.crypt.blocksize) else []
  }

  /** From the packet length to the status. */
  function RespHead(k: Keyset, spi: Spi, tar: bytes, cntr: bytes, status: byte, secured: bytes): (h: bytes)
    requires IsBlock(k.crypt.blocksize) && spi.porRcCcDs != Ds && |tar| == 3 && |cntr| == 5
    ensures |h| == 13
  {
    var rhl := 10 + SigLen(spi.porRcCcDs);
    var padding := RespPadding(k, spi, secured);
    BigEndian(2, 1 + rhl + |secured| + |padding|) + [rhl] + tar + cntr + [|padding|, status]
  }

  function RespCheck(k: Keyset, spi: Spi, head: bytes, data: bytes): bytes
    requires IsBlock(k.auth.blocksize) && spi.porRcCcDs != Ds
  {
    Check(k, spi.porRcCcDs, UDH + head + data)
  }

  /** The packet before ciphering. */
  function RespPlain(k: Keyset, spi: Spi, tar: bytes, cntr: bytes, status: byte, secured: bytes): bytes
    requires IsBlock(k.crypt.blocksize) && IsBlock(k.auth.blocksize) && spi.porRcCcDs != Ds && |tar| == 3 && |cntr| == 5
  {
    var head := RespHead(k, spi, tar, cntr, status, secured);
    var data := secured + RespPadding(k, spi, secured);
    head + RespCheck(k, spi, head, data) + data
  }

  function BuildResp(k: Keyset, spi: Spi, tar: bytes, cntr: bytes, status: byte, secured: bytes): bytes
    requires IsBlock(k.crypt.blocksize) && IsBlock(k.auth.blocksize) && spi.porRcCcDs != Ds && |tar| == 3 && |cntr| == 5
  {
    var plain := RespPlain(k, spi, tar, cntr, status, secured);
    UDH + (if spi.porShallBeCiphered then Take(plain, 6) + Encrypt(k.crypt, Drop(plain, 6)) else plain)
  }

  // ---------------------------------------------------------------------------------------
  // Round trip of responses

  /** The user data header of a response packet. */
  lemma UdhOfResponse(rest: bytes)
    ensures UdhFromBytes(UDH + rest) == Some(([Ie(RPI, [])], rest))
  {
    var ies := [Ie(RPI, [])];
    assert ies[0] == Ie(RPI, []) && ies[1..] == [] && IesFit(ies);
    assert EncodeIes(ies) == [RPI, 0] + [] + EncodeIes([]) == [RPI, 0];
    assert UDH == [2] + [RPI, 0];
    UdhRoundTrip(ies, rest);
  }

  /** The plain packet falls into its fields. */
  lemma PlainParts(k: Keyset, spi: Spi, tar: bytes, cntr: bytes, status: byte, secured: bytes)
    requires k.Sound() && |tar| == 3 && |cntr| == 5
    requires spi.porRcCcDs == Cc || spi.porRcCcDs == NoRcCcDs
    ensures var plain := RespPlain(k, spi, tar, cntr, status, secured);
            var head := RespHead(k, spi, tar, cntr, status, secured);
            var padding := RespPadding(k, spi, secured);
            var check := RespCheck(k, spi, head, secured + padding);
            && ParseResponse(plain) == Some(Response(tar, cntr, |padding|, status, check, secured + padding))
            && Take(plain, 13) == head && Drop(plain, 13 + |check|) == secured + padding
            && |check| == SigLen(spi.porRcCcDs)
            && |Drop(plain, 6)| == 7 + SigLen(spi.porRcCcDs) + |secured| + |padding|
  {
    hide BigEndian;
    var plain := RespPlain(k, spi, tar, cntr, status, secured);
    var head := RespHead(k, spi, tar, cntr, status, secured);
    var data := secured + RespPadding(k, spi, secured);
    var check := RespCheck(k, spi, head, data);
    assert |check| == SigLen(spi.porRcCcDs);
    assert plain[..13] == head && plain[13..] == check + data;
    assert head[3..6] == tar && head[6..11] == cntr;
    assert plain[3..6] == tar && plain[6..11] == cntr;
    assert plain[13..13 + |check|] == check && plain[13 + |check|..] == data;
  }

  /** Ciphering the part behind the header and deciphering it again gives the plain packet. */
  lemma CipheredOpens(k: Keyset, spi: Spi, plain: bytes)
    requires k.Sound() && spi.porShallBeCiphered && |plain| >= 6 && |Drop(plain, 6)| % k.crypt.blocksize == 0
    ensures var sent := Take(plain, 6) + Encrypt(k.crypt, Drop(plain, 6));
            |sent| == |plain| && Take(sent, 6) == Take(plain, 6) && Opened(k, spi, sent) == Some(plain)
  {
    var sent := Take(plain, 6) + Encrypt(k.crypt, Drop(plain, 6));
    assert PadToMultiple(Drop(plain, 6), k.crypt.blocksize) == Drop(plain, 6);
    assert Take(sent, 6) == Take(plain, 6) && Drop(sent, 6) == Encrypt(k.crypt, Drop(plain, 6));
  }

  /** A packet is long enough to be parsed before deciphering if it is afterwards. */
  lemma ParsesEitherWay(a: bytes, b: bytes)
    requires |a| == |b| && Take(a, 6) == Take(b, 6) && ParseResponse(a).Some?
    ensures ParseResponse(b).Some?
  {
    assert a[2] == Take(a, 6)[2] && b[2] == Take(b, 6)[2];
  }

  /** What opening the packet gives, ciphered or not. */
  lemma BuiltOpens(k: Keyset, spi: Spi, tar: bytes, cntr: bytes, status: byte, secured: bytes)
    requires k.Sound() && |tar| == 3 && |cntr| == 5
    requires spi.porRcCcDs == Cc || spi.porRcCcDs == NoRcCcDs
    ensures var remainder := BuildResp(k, spi, tar, cntr, status, secured)[3..];
            && BuildResp(k, spi, tar, cntr, status, secured) == UDH + remainder
            && ParseResponse(remainder).Some?
            && Opened(k, spi, remainder) == Some(RespPlain(k, spi, tar, cntr, status, secured))
  {
    hide RespPlain, ParseResponse, Padding;
    var plain := RespPlain(k, spi, tar, cntr, status, secured);
    PlainParts(k, spi, tar, cntr, status, secured);
    if spi.porShallBeCiphered {
      CipheredOpens(k, spi, plain);
      ParsesEitherWay(plain, BuildResp(k, spi, tar, cntr, status, secured)[3..]);
    }
  }

  /** The packet announces all octets behind its length. */
  lemma PacketLength(k: Keyset, spi: Spi, tar: bytes, cntr: bytes, status: byte, secured: bytes)
    requires k.Sound() && |tar| == 3 && |cntr| == 5 && |secured| < 65000
    requires spi.porRcCcDs == Cc || spi.porRcCcDs == NoRcCcDs
    ensures var data := BuildResp(k, spi, tar, cntr, status, secured);
            |data| >= 5 && 256 * data[3] as int + data[4] as int == |data| - 5
  {
    hide ParseResponse, RespCheck, RespHead, RespPlain, Padding;
    var plain := RespPlain(k, spi, tar, cntr, status, secured);
    PlainLength(k, spi, tar, cntr, status, secured);
    if spi.porShallBeCiphered {
      PlainParts(k, spi, tar, cntr, status, secured);
      CipheredOpens(k, spi, plain);
      assert Take(plain, 6)[..2] == plain[..2];
    }
  }

  lemma PlainLength(k: Keyset, spi: Spi, tar: bytes, cntr: bytes, status: byte, secured: bytes)
    requires k.Sound() && |tar| == 3 && |cntr| == 5 && |secured| < 65000
    requires spi.porRcCcDs == Cc || spi.porRcCcDs == NoRcCcDs
    ensures var plain := RespPlain(k, spi, tar, cntr, status, secured);
            |plain| >= 13 && 256 * plain[0] as int + plain[1] as int == |plain| - 2
  {
    hide ParseResponse, RespCheck, Padding;
    PlainParts(k, spi, tar, cntr, status, secured);
    assert |RespPadding(k, spi, secured)| < 16;
    TwoOctetLength(|RespPlain(k, spi, tar, cntr, status, secured)| - 2);
  }

  /** Exactly the padding octets are removed, in ciphered packets. */
  lemma PaddingIsStripped(k: Keyset, spi: Spi, secured: bytes, r: Response)
    requires IsBlock(k.crypt.blocksize) && spi.porRcCcDs != Ds
    requires r.pcntr == |RespPadding(k, spi, secured)| && r.securedData == secured + RespPadding(k, spi, secured)
    ensures Stripped(spi, r) == r.(securedData := secured)
  {
    assert (secured + RespPadding(k, spi, secured))[..|secured|] == secured;
  }

  /**
   Every response built as the standard says, plain or ciphered, with a checksum or without, is
   accepted, and exactly its data come out. The one exception is a successful response with one
   or two octets of data, which are no compact remote response.
   */
  lemma ResponseRoundTrip(k: Keyset, spi: Spi, tar: bytes, cntr: bytes, status: byte, secured: bytes)
    requires k.Sound() && |tar| == 3 && |cntr| == 5
    requires spi.porRcCcDs == Cc || spi.porRcCcDs == NoRcCcDs
    ensures var r := DecodeResp(k, spi, BuildResp(k, spi, tar, cntr, status, secured));
            if status == POR_OK && (|secured| == 1 || |secured| == 2) then r == Err(Malformed)
            else
              && r.Ok?
              && r.value.0.tar == tar && r.value.0.cntr == cntr && r.value.0.status == status
              && r.value.0.pcntr == |RespPadding(k, spi, secured)| && r.value.0.securedData == secured
              && r.value.1 == if status == POR_OK && secured != []
                              then Some(Compact(secured[0], secured[1..3], secured[3..])) else None
  {
    hide RespPlain, BuildResp, RespHead, RespPadding, ParseResponse, Opened, Stripped, Padding, RespCheck;
    var plain := RespPlain(k, spi, tar, cntr, status, secured);
    var data := BuildResp(k, spi, tar, cntr, status, secured);
    BuiltOpens(k, spi, tar, cntr, status, secured);
    PlainParts(k, spi, tar, cntr, status, secured);
    UdhOfResponse(data[3..]);
    assert HasIe([Ie(RPI, [])], RPI) by { assert [Ie(RPI, [])][0].iei == RPI; }
    PaddingIsStripped(k, spi, secured, ParseResponse(plain).value);
    CheckHolds(k, spi, tar, cntr, status, secured);
  }

  lemma CheckHolds(k: Keyset, spi: Spi, tar: bytes, cntr: bytes, status: byte, secured: bytes)
    requires k.Sound() && |tar| == 3 && |cntr| == 5
    requires spi.porRcCcDs == Cc || spi.porRcCcDs == NoRcCcDs
    ensures var plain := RespPlain(k, spi, tar, cntr, status, secured);
            && ParseResponse(plain).Some?
            && Checked(k, spi, UDH, plain, ParseResponse(plain).value)
  {
    hide RespPlain, RespHead, RespPadding, ParseResponse, Padding;
    PlainParts(k, spi, tar, cntr, status, secured);
  }
}
