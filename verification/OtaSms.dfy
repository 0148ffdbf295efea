/**
 OTA secured packets in short messages: `OtaDialectSms` of pysim/pySim/ota.py, after section 5
 of ETSI TS 102 225 and 3GPP TS 31.115. The cipher is any pair of inverse functions that keep
 the length of whole blocks, the cryptographic checksum any function with 8-octet values.
 */
module OtaSms {
  import opened Wrappers
  import opened Bytes
  import opened SmsTpdu

  datatype OtaError =
    | InvalidRcCcDs        // ValueError
    | Overflow             // OverflowError: a number does not fit its octets
    | TooLong              // ValueError: more than one short message
    | Malformed            // too short or not a whole number of cipher blocks
    | NotImplemented       // NotImplementedError: redundancy check on receipt
    | CheckFailed          // OtaCheckError
    | NotAResponse         // ValueError: no response packet identifier

  // ---------------------------------------------------------------------------------------
  // Keys and security parameters

  datatype Crypt = Crypt(blocksize: nat, enc: bytes -> bytes, dec: bytes -> bytes)
  {
    /** DES, 3DES or AES in CBC mode, seen from outside. */
    ghost predicate Sound() {
      && (blocksize == 8 || blocksize == 16)
      && forall d: bytes {:trigger enc(d)} :: |d| % blocksize == 0 ==> |enc(d)| == |d| && dec(enc(d)) == d
    }
  }

  datatype Auth = Auth(blocksize: nat, sign: bytes -> bytes)
  {
    ghost predicate Sound() {
      (blocksize == 1 || blocksize == 8) && forall d: bytes :: d != [] ==> |sign(d)| == 8
    }
  }

  datatype Keyset = Keyset(crypt: Crypt, kicIdx: nibble, kicAlgo: nibble,
                           auth: Auth, kidIdx: nibble, kidAlgo: nibble, cntr: nat,
                           crc32: bytes -> bytes)
  {
    ghost predicate Sound() {
      crypt.Sound() && auth.Sound() && forall d: bytes :: |crc32(d)| == 4
    }
  }

  datatype RcCcDs = NoRcCcDs | Rc | Cc | Ds

  type twoBits = c: int | 0 <= c < 4

  datatype Spi = Spi(counter: twoBits, ciphering: bool, rcCcDs: RcCcDs,
                     porInSubmit: bool, porShallBeCiphered: bool, porRcCcDs: RcCcDs, por: twoBits)

  function RcBits(r: RcCcDs): twoBits {
    match r case NoRcCcDs => 0 case Rc => 1 case Cc => 2 case Ds => 3
  }

  function RcOf(bits: twoBits): RcCcDs {
    if bits == 0 then NoRcCcDs else if bits == 1 then Rc else if bits == 2 then Cc else Ds
  }

  function SpiFirst(s: Spi): byte {
    8 * s.counter + 4 * Bit(s.ciphering) + RcBits(s.rcCcDs)
  }

  function SpiSecond(s: Spi): byte {
    32 * Bit(s.porInSubmit) + 16 * Bit(s.porShallBeCiphered) + 4 * RcBits(s.porRcCcDs) + s.por
  }

  function ParseSpi(a: byte, b: byte): Spi {
    Spi(a / 8 % 4, a / 4 % 2 == 1, RcOf(a % 4), b / 32 % 2 == 1, b / 16 % 2 == 1, RcOf(b / 4 % 4), b % 4)
  }

  lemma RcRoundTrip(r: RcCcDs)
    ensures RcOf(RcBits(r)) == r
  {
  }

  lemma FirstBits(c: nat, b: nat, r: nat)
    requires c < 4 && b < 2 && r < 4
    ensures var n := 8 * c + 4 * b + r; n < 32 && n / 8 % 4 == c && n / 4 % 2 == b && n % 4 == r
  {
  }

  lemma SecondBits(a: nat, b: nat, r: nat, p: nat)
    requires a < 2 && b < 2 && r < 4 && p < 4
    ensures var n := 32 * a + 16 * b + 4 * r + p;
            n < 64 && n / 32 % 2 == a && n / 16 % 2 == b && n / 4 % 4 == r && n % 4 == p
  {
  }

  lemma SpiRoundTrip(s: Spi)
    ensures ParseSpi(SpiFirst(s), SpiSecond(s)) == s
  {
    hide RcOf, RcBits;
    RcRoundTrip(s.rcCcDs);
    RcRoundTrip(s.porRcCcDs);
    FirstBits(s.counter, Bit(s.ciphering), RcBits(s.rcCcDs));
    SecondBits(Bit(s.porInSubmit), Bit(s.porShallBeCiphered), RcBits(s.porRcCcDs), s.por);
    ParsedBits(s, SpiFirst(s), SpiSecond(s));
  }

  lemma ParsedBits(s: Spi, a: byte, b: byte)
    requires a / 8 % 4 == s.counter && a / 4 % 2 == Bit(s.ciphering) && RcOf(a % 4) == s.rcCcDs
    requires b / 32 % 2 == Bit(s.porInSubmit) && b / 16 % 2 == Bit(s.porShallBeCiphered)
    requires RcOf(b / 4 % 4) == s.porRcCcDs && b % 4 == s.por
    ensures ParseSpi(a, b) == s
  {
    hide RcOf;
  }

  /** The bits of the two octets, section 5.1.1 of ETSI TS 102 225. */
  lemma SpiOctets(s: Spi)
    ensures var a := SpiFirst(s);
            && a / 8 == s.counter && (a / 4 % 2 == 1 <==> s.ciphering)
            && a % 4 == match s.rcCcDs case NoRcCcDs => 0 case Rc => 1 case Cc => 2 case Ds => 3
    ensures var b := SpiSecond(s);
            && b < 64 && (b / 32 == 1 <==> s.porInSubmit) && (b / 16 % 2 == 1 <==> s.porShallBeCiphered)
            && (b / 4 % 4 == match s.porRcCcDs case NoRcCcDs => 0 case Rc => 1 case Cc => 2 case Ds => 3)
            && b % 4 == s.por
  {
    FirstBits(s.counter, Bit(s.ciphering), RcBits(s.rcCcDs));
    SecondBits(Bit(s.porInSubmit), Bit(s.porShallBeCiphered), RcBits(s.porRcCcDs), s.por);
  }

  /** What `ParseSpi` makes of any two octets. */
  lemma ParsedSpi(a: byte, b: byte)
    ensures var s := ParseSpi(a, b);
            && a / 8 % 4 == s.counter && (a / 4 % 2 == 1 <==> s.ciphering)
            && (a % 4 == match s.rcCcDs case NoRcCcDs => 0 case Rc => 1 case Cc => 2 case Ds => 3)
            && (b / 32 % 2 == 1 <==> s.porInSubmit) && (b / 16 % 2 == 1 <==> s.porShallBeCiphered)
            && (b / 4 % 4 == match s.porRcCcDs case NoRcCcDs => 0 case Rc => 1 case Cc => 2 case Ds => 3)
            && b % 4 == s.por
  {
  }

  /** `_compute_sig_len`; not for digital signatures. */
  function SigLen(r: RcCcDs): (n: nat)
    requires r != Ds
  {
    match r case NoRcCcDs => 0 case Rc => 4 case Cc => 8
  }

  // ---------------------------------------------------------------------------------------
  // Padding

  /** The block sizes of the algorithms: AES-CMAC pads by itself, DES has 8 octets, AES 16. */
  predicate IsBlock(n: nat) {
    n == 1 || n == 8 || n == 16
  }

  /** `_get_padding`: zeros up to the next multiple, none if it is one already. */
  function Padding(inLen: nat, multiple: nat): (p: bytes)
    requires IsBlock(multiple)
    ensures (inLen + |p|) % multiple == 0 && |p| < multiple
    ensures forall i :: 0 <= i < |p| ==> p[i] == 0
  {
    if inLen % multiple == 0 then [] else Zeros(multiple - inLen % multiple)
  }

  /** `pad_to_blocksize`. */
  function PadToMultiple(indat: bytes, multiple: nat): (r: bytes)
    requires IsBlock(multiple)
    ensures indat <= r && |r| % multiple == 0
  {
    indat + Padding(|indat|, multiple)
  }

  function Encrypt(c: Crypt, data: bytes): bytes
    requires IsBlock(c.blocksize)
  {
    c.enc(PadToMultiple(data, c.blocksize))
  }

  function Sign(a: Auth, data: bytes): bytes
    requires IsBlock(a.blocksize)
  {
    a.sign(PadToMultiple(data, a.blocksize))
  }

  /** The checksum is over the data and as many zeros as fill up its last block. */
  lemma SignFillsUp(a: Auth, data: bytes, zeros: bytes)
    requires IsBlock(a.blocksize) && |zeros| < a.blocksize && (|data| + |zeros|) % a.blocksize == 0
    requires forall i :: 0 <= i < |zeros| ==> zeros[i] == 0
    ensures Sign(a, data) == a.sign(data + zeros)
  {
    OnePadding(|data|, a.blocksize, |zeros|);
    assert zeros == Padding(|data|, a.blocksize);
  }

  lemma OnePadding(n: nat, multiple: nat, m: nat)
    requires IsBlock(multiple) && m < multiple && (n + m) % multiple == 0
    ensures |Padding(n, multiple)| == m
  {
  }

  // ---------------------------------------------------------------------------------------
  // Command packets

  /** The header from CHL to TAR. */
  function Head(k: Keyset, tar: bytes, spi: Spi, chl: byte): (h: bytes)
    requires |tar| == 3
    ensures |h| == 8
  {
    [chl, SpiFirst(spi), SpiSecond(spi), 16 * k.kicIdx + k.kicAlgo, 16 * k.kidIdx + k.kidAlgo] + tar
  }

  /** The counter and the number of padding octets. */
  function Count(cntr: nat, padCnt: byte): (c: bytes)
    ensures |c| == 6
  {
    BigEndian(5, cntr) + [padCnt]
  }

  /** The check octets over the packet that starts with the inner packet length. */
  function Check(k: Keyset, r: RcCcDs, packet: bytes): bytes
    requires IsBlock(k.auth.blocksize) && r != Ds
  {
    match r
    case NoRcCcDs => []
    case Rc => k.crc32(packet)
    case Cc => Sign(k.auth, packet)
  }

  /** The data with the padding that makes the ciphered part whole blocks. */
  function PaddedApdu(k: Keyset, spi: Spi, apdu: bytes): bytes
    requires IsBlock(k.crypt.blocksize) && spi.rcCcDs != Ds
  {
    apdu + (if spi.ciphering then Padding(6 + SigLen(spi.rcCcDs) + |apdu|, k.crypt.blocksize) else [])
  }

  /** The length signed inside the packet, computed before the check octets are put in. */
  function InnerCpl(k: Keyset, spi: Spi, apdu: bytes): nat
    requires IsBlock(k.crypt.blocksize) && spi.rcCcDs != Ds
  {
    8 + 6 + |PaddedApdu(k, spi, apdu)| + SigLen(spi.rcCcDs)
  }

  /** Counter, check octets and data: what is ciphered. */
  function Body(k: Keyset, tar: bytes, spi: Spi, apdu: bytes): bytes
    requires IsBlock(k.crypt.blocksize) && IsBlock(k.auth.blocksize) && |tar| == 3 && spi.rcCcDs != Ds
  {
    var data := PaddedApdu(k, spi, apdu);
    var head := Head(k, tar, spi, 13 + SigLen(spi.rcCcDs));
    var count := Count(k.cntr, |data| - |apdu|);
    count + Check(k, spi.rcCcDs, BigEndian(2, InnerCpl(k, spi, apdu)) + head + count + data) + data
  }

  /** `encode_cmd`. */
  function EncodeCmd(k: Keyset, tar: bytes, spi: Spi, apdu: bytes): Result<bytes, OtaError>
    requires IsBlock(k.crypt.blocksize) && IsBlock(k.auth.blocksize) && |tar| == 3
  {
    if spi.rcCcDs == Ds then Err(InvalidRcCcDs)
    else if k.cntr >= Pow256(5) || InnerCpl(k, spi, apdu) >= Pow256(2) then Err(Overflow)
    else
      var head := Head(k, tar, spi, 13 + SigLen(spi.rcCcDs));
      var body := Body(k, tar, spi, apdu);
      if spi.ciphering then
        var packet := head + Encrypt(k.crypt, body);
        if |packet| >= Pow256(2) then Err(Overflow)
        else Fitting(BigEndian(2, |packet|) + packet)
      else Fitting(head + body)
  }

  function Fitting(packet: bytes): Result<bytes, OtaError> {
    if |packet| > 140 then Err(TooLong) else Ok(packet)
  }

  /** `decode_cmd`, which takes every packet to be ciphered. */
  function DecodeCmd(k: Keyset, encoded: bytes): Result<(bytes, Spi, bytes), OtaError>
    requires IsBlock(k.crypt.blocksize) && IsBlock(k.auth.blocksize)
  {
    var cpl := FromBigEndian(Take(encoded, 2));
    var head := Take(Drop(encoded, 2), 8);
    var ciph := Drop(encoded, 10);
    if |ciph| % k.crypt.blocksize != 0 || |head| != 8 then Err(Malformed)
    else
      var plain := k.crypt.dec(ciph);
      var spi := ParseSpi(head[1], head[2]);
      var count := Take(plain, 6);
      var padCnt := FromBigEndian(Drop(count, 5));
      var rest := Drop(plain, 6);
      match spi.rcCcDs
      case Cc =>
        var apdu := Drop(rest, 8);
        if Sign(k.auth, CplBytes(cpl) + head + count + apdu) != Take(rest, 8) then Err(CheckFailed)
        else Ok((head[5..8], spi, SliceTo(apdu, |apdu| - padCnt)))
      case Rc => Err(NotImplemented)
      case NoRcCcDs => Ok((head[5..8], spi, SliceTo(rest, |rest| - padCnt)))
      case Ds => Err(InvalidRcCcDs)
  }

  function CplBytes(cpl: nat): bytes {
    BigEndian(2, cpl)
  }

  // ---------------------------------------------------------------------------------------
  // What sender and receiver agree on

  /** The ciphered part is whole blocks before ciphering, so `encrypt` adds nothing to it. */
  lemma BodyIsWholeBlocks(k: Keyset, tar: bytes, spi: Spi, apdu: bytes)
    requires k.Sound() && |tar| == 3 && spi.ciphering && spi.rcCcDs != Ds
    ensures |Body(k, tar, spi, apdu)| % k.crypt.blocksize == 0
    ensures PadToMultiple(Body(k, tar, spi, apdu), k.crypt.blocksize) == Body(k, tar, spi, apdu)
    ensures |Body(k, tar, spi, apdu)| == 6 + SigLen(spi.rcCcDs) + |PaddedApdu(k, spi, apdu)|
  {
  }

  /**
   The length signed inside the packet is the length sent in front of it, although the one is
   computed before the check octets exist and the other after ciphering: the padding is exact.
   */
  lemma InnerCplIsOuterCpl(k: Keyset, tar: bytes, spi: Spi, apdu: bytes)
    requires k.Sound() && |tar| == 3 && spi.ciphering && spi.rcCcDs != Ds
    ensures InnerCpl(k, spi, apdu)
         == |Head(k, tar, spi, 13 + SigLen(spi.rcCcDs)) + Encrypt(k.crypt, Body(k, tar, spi, apdu))|
  {
    BodyIsWholeBlocks(k, tar, spi, apdu);
  }

  lemma Pow256Of2()
    ensures Pow256(2) == 65536
  {
    assert Pow256(1) == 256;
  }

  lemma PacketFits(k: Keyset, tar: bytes, spi: Spi, apdu: bytes)
    requires k.Sound() && |tar| == 3 && spi.ciphering && k.cntr < Pow256(5) && spi.rcCcDs != Ds
    ensures EncodeCmd(k, tar, spi, apdu).Ok? <==> |Body(k, tar, spi, apdu)| <= 130
  {
    hide Body, Pow256;
    Pow256Of2();
    InnerCplIsOuterCpl(k, tar, spi, apdu);
    BodyIsWholeBlocks(k, tar, spi, apdu);
  }

  /** Rounding up to blocks of 8 or 16 keeps within 130 octets exactly what is within 128. */
  lemma RoundedUp(n: nat, block: nat)
    requires block == 8 || block == 16
    ensures n + |Padding(n, block)| <= 130 <==> n <= 128
  {
  }

  /**
   Encoding with ciphering fits one short message exactly for data up to 114 octets with a checksum, up to 118 with a
   redundancy check, up to 122 without either, whatever the block size.
   */
  lemma EncodingFits(k: Keyset, tar: bytes, spi: Spi, apdu: bytes)
    requires k.Sound() && |tar| == 3 && spi.ciphering && k.cntr < Pow256(5)
    ensures EncodeCmd(k, tar, spi, apdu).Ok? <==>
            spi.rcCcDs != Ds && |apdu| <= match spi.rcCcDs case NoRcCcDs => 122 case Rc => 118 case _ => 114
  {
    hide Body;
    if spi.rcCcDs != Ds {
      PacketFits(k, tar, spi, apdu);
      BodyIsWholeBlocks(k, tar, spi, apdu);
      RoundedUp(6 + SigLen(spi.rcCcDs) + |apdu|, k.crypt.blocksize);
    }
  }

  /** Without ciphering there is no padding, and no length in front. */
  lemma PlainEncodingFits(k: Keyset, tar: bytes, spi: Spi, apdu: bytes)
    requires k.Sound() && |tar| == 3 && !spi.ciphering && k.cntr < Pow256(5)
    ensures EncodeCmd(k, tar, spi, apdu).Ok? <==>
            spi.rcCcDs != Ds && |apdu| <= match spi.rcCcDs case NoRcCcDs => 126 case Rc => 122 case _ => 118
  {
    hide Pow256;
    Pow256Of2();
  }

  /** Digital signatures are refused first, then a counter of more than five octets. */
  lemma EncodingErrors(k: Keyset, tar: bytes, spi: Spi, apdu: bytes)
    requires k.Sound() && |tar| == 3
    ensures EncodeCmd(k, tar, spi, apdu) == Err(InvalidRcCcDs) <==> spi.rcCcDs == Ds
    ensures spi.rcCcDs != Ds && k.cntr >= 0x100_0000_0000 ==> EncodeCmd(k, tar, spi, apdu) == Err(Overflow)
  {
    assert Pow256(5) == 0x100_0000_0000 by {
      assert Pow256(3) == 0x100_0000;
    }
  }

  // ---------------------------------------------------------------------------------------
  // Round trip of commands

  /** What an encoded packet consists of. */
  lemma EncodedParts(k: Keyset, tar: bytes, spi: Spi, apdu: bytes)
    requires k.Sound() && |tar| == 3 && spi.ciphering && spi.rcCcDs != Ds
    requires EncodeCmd(k, tar, spi, apdu).Ok?
    ensures var p := EncodeCmd(k, tar, spi, apdu).value;
            && Take(p, 2) == BigEndian(2, InnerCpl(k, spi, apdu)) && InnerCpl(k, spi, apdu) < Pow256(2)
            && Take(Drop(p, 2), 8) == Head(k, tar, spi, 13 + SigLen(spi.rcCcDs))
            && |Drop(p, 10)| % k.crypt.blocksize == 0
            && k.crypt.dec(Drop(p, 10)) == Body(k, tar, spi, apdu)
  {
    hide Body, Head, InnerCpl;
    InnerCplIsOuterCpl(k, tar, spi, apdu);
    BodyIsWholeBlocks(k, tar, spi, apdu);
    var head, ciph := Head(k, tar, spi, 13 + SigLen(spi.rcCcDs)), Encrypt(k.crypt, Body(k, tar, spi, apdu));
    var p := EncodeCmd(k, tar, spi, apdu).value;
    assert p == BigEndian(2, |head + ciph|) + (head + ciph);
    assert Take(p, 2) == BigEndian(2, |head + ciph|) && Drop(p, 2) == head + ciph;
    assert Drop(p, 10) == ciph;
  }

  // ---------------------------------------------------------------------------------------
  // The octets of a command, section 5.1 of ETSI TS 102 225

  /** The packet from the header on, with the ciphered part in the clear. */
  function InTheClear(k: Keyset, spi: Spi, p: bytes): bytes {
    if spi.ciphering then Take(Drop(p, 2), 8) + k.crypt.dec(Drop(p, 10)) else p
  }

  lemma ClearParts(k: Keyset, tar: bytes, spi: Spi, apdu: bytes)
    requires k.Sound() && |tar| == 3 && EncodeCmd(k, tar, spi, apdu).Ok?
    ensures spi.rcCcDs != Ds && k.cntr < Pow256(5)
    ensures var p := EncodeCmd(k, tar, spi, apdu).value;
            && InTheClear(k, spi, p) == Head(k, tar, spi, 13 + SigLen(spi.rcCcDs)) + Body(k, tar, spi, apdu)
            && (spi.ciphering ==> |p| >= 2 && Take(p, 2) == BigEndian(2, |p| - 2) && |p| - 2 < 65536)
  {
    hide Body, Head, BigEndian, Pow256;
    Pow256Of2();
    if spi.ciphering {
      EncodedParts(k, tar, spi, apdu);
      InnerCplIsOuterCpl(k, tar, spi, apdu);
    }
  }

  /** The header: its length, the security parameters bit by bit, the two keys with their algorithms, the application. */
  lemma HeadOctets(k: Keyset, tar: bytes, spi: Spi, chl: byte)
    requires |tar| == 3
    ensures var h := Head(k, tar, spi, chl);
            && h[0] == chl
            && h[1] / 8 == spi.counter && (h[1] / 4 % 2 == 1 <==> spi.ciphering)
            && (h[1] % 4 == match spi.rcCcDs case NoRcCcDs => 0 case Rc => 1 case Cc => 2 case Ds => 3)
            && h[2] < 64 && (h[2] / 32 == 1 <==> spi.porInSubmit) && (h[2] / 16 % 2 == 1 <==> spi.porShallBeCiphered)
            && (h[2] / 4 % 4 == match spi.porRcCcDs case NoRcCcDs => 0 case Rc => 1 case Cc => 2 case Ds => 3)
            && h[2] % 4 == spi.por
            && h[3] / 16 == k.kicIdx && h[3] % 16 == k.kicAlgo && h[4] / 16 == k.kidIdx && h[4] % 16 == k.kidAlgo
            && h[5..8] == tar
  {
    hide SpiFirst, SpiSecond;
    SpiOctets(spi);
  }

  /** Counter, padding count, check octets, data and padding; `packet` is what the check octets are over. */
  ghost predicate BodyIs(k: Keyset, tar: bytes, spi: Spi, apdu: bytes, b: bytes)
    requires IsBlock(k.crypt.blocksize) && IsBlock(k.auth.blocksize) && |tar| == 3 && spi.rcCcDs != Ds
  {
    var sig := match spi.rcCcDs case NoRcCcDs => 0 case Rc => 4 case Cc => 8;
    var pad := |b| - 6 - sig - |apdu|;
    var n := 14 + sig + |apdu| + pad;
    && pad >= 0 && FromBigEndian(b[..5]) == k.cntr && b[5] == pad
    && (if spi.ciphering then pad < k.crypt.blocksize && (n - 8) % k.crypt.blocksize == 0 else pad == 0)
    && b[6 + sig..6 + sig + |apdu|] == apdu
    && (forall i :: 6 + sig + |apdu| <= i < |b| ==> b[i] == 0)
    && var packet := BigEndian(2, n) + Head(k, tar, spi, 13 + sig) + b[..6] + b[6 + sig..];
       && (spi.rcCcDs == Cc ==> b[6..14] == Sign(k.auth, packet))
       && (spi.rcCcDs == Rc ==> b[6..10] == k.crc32(packet))
  }

  lemma BodyOctets(k: Keyset, tar: bytes, spi: Spi, apdu: bytes)
    requires k.Sound() && |tar| == 3 && spi.rcCcDs != Ds && k.cntr < Pow256(5)
    ensures BodyIs(k, tar, spi, apdu, Body(k, tar, spi, apdu))
  {
    hide Head, BigEndian, Padding, Pow256, Sign;
    var data := PaddedApdu(k, spi, apdu);
    var count := Count(k.cntr, |data| - |apdu|);
    var b := Body(k, tar, spi, apdu);
    BigEndianRoundTrip(5, k.cntr);
    var check := Check(k, spi.rcCcDs, BigEndian(2, InnerCpl(k, spi, apdu)) + Head(k, tar, spi, 13 + SigLen(spi.rcCcDs))
                                      + count + data);
    CheckLength(k, spi.rcCcDs, BigEndian(2, InnerCpl(k, spi, apdu)) + Head(k, tar, spi, 13 + SigLen(spi.rcCcDs))
                               + count + data);
    assert b == count + check + data && |check| == SigLen(spi.rcCcDs);
    assert b[..6] == count && count[..5] == BigEndian(5, k.cntr) && b[..5] == count[..5];
    assert Drop(b, 6 + |check|) == data && b[6..6 + |check|] == check;
  }

  lemma CheckLength(k: Keyset, r: RcCcDs, packet: bytes)
    requires k.Sound() && r != Ds && packet != []
    ensures |Check(k, r, packet)| == SigLen(r)
  {
  }

  /**
   Every octet of an encoded command: behind the two of the length, which an unciphered command lacks, the header, then
   in the clear the counter, the padding count, the check octets and the data with as many zeros as the count says.
   */
  lemma CommandOctets(k: Keyset, tar: bytes, spi: Spi, apdu: bytes)
    requires k.Sound() && |tar| == 3 && EncodeCmd(k, tar, spi, apdu).Ok?
    ensures var p := EncodeCmd(k, tar, spi, apdu).value;
            var c := InTheClear(k, spi, p);
            var sig := match spi.rcCcDs case NoRcCcDs => 0 case Rc => 4 case Cc => 8 case Ds => 0;
            && spi.rcCcDs != Ds && |p| <= 140
            && (spi.ciphering ==> |p| >= 10 && 256 * p[0] as int + p[1] as int == |p| - 2 && p[2..10] == c[..8])
            && |c| >= 14 + sig + |apdu|
            && c[0] == 13 + sig
            && c[1] / 8 == spi.counter && (c[1] / 4 % 2 == 1 <==> spi.ciphering)
            && (c[1] % 4 == match spi.rcCcDs case NoRcCcDs => 0 case Rc => 1 case Cc => 2 case Ds => 3)
            && c[2] < 64 && (c[2] / 32 == 1 <==> spi.porInSubmit) && (c[2] / 16 % 2 == 1 <==> spi.porShallBeCiphered)
            && (c[2] / 4 % 4 == match spi.porRcCcDs case NoRcCcDs => 0 case Rc => 1 case Cc => 2 case Ds => 3)
            && c[2] % 4 == spi.por
            && c[3] / 16 == k.kicIdx && c[3] % 16 == k.kicAlgo && c[4] / 16 == k.kidIdx && c[4] % 16 == k.kidAlgo
            && c[5..8] == tar
            && 256 * (256 * (256 * (256 * c[8] as int + c[9]) + c[10]) + c[11]) + c[12] == k.cntr
            && |c| == 14 + sig + |apdu| + c[13] as int
            && (if spi.ciphering then c[13] < k.crypt.blocksize && (|c| - 8) % k.crypt.blocksize == 0 else c[13] == 0)
            && c[14 + sig..14 + sig + |apdu|] == apdu
            && (forall i :: 14 + sig + |apdu| <= i < |c| ==> c[i] == 0)
  {
    hide EncodeCmd, Head, Body, InTheClear, FromBigEndian, BigEndian;
    var p := EncodeCmd(k, tar, spi, apdu).value;
    CommandFits(k, tar, spi, apdu);
    ClearParts(k, tar, spi, apdu);
    var head, body := Head(k, tar, spi, 13 + SigLen(spi.rcCcDs)), Body(k, tar, spi, apdu);
    var c := InTheClear(k, spi, p);
    HeadOctets(k, tar, spi, 13 + SigLen(spi.rcCcDs));
    BodyOctets(k, tar, spi, apdu);
    FiveOctets(body[0], body[1], body[2], body[3], body[4]);
    assert body[..5] == [body[0], body[1], body[2], body[3], body[4]];
    assert c[5..8] == head[5..8];
    if spi.ciphering {
      LengthOctets(p);
      ClearHeader(k, spi, p);
    }
  }

  lemma CommandFits(k: Keyset, tar: bytes, spi: Spi, apdu: bytes)
    requires k.Sound() && |tar| == 3 && EncodeCmd(k, tar, spi, apdu).Ok?
    ensures |EncodeCmd(k, tar, spi, apdu).value| <= 140
    ensures spi.ciphering ==> |EncodeCmd(k, tar, spi, apdu).value| >= 10
  {
    hide Body, Head, BigEndian, Pow256;
  }

  lemma LengthOctets(p: bytes)
    requires 2 <= |p| < 65538 && Take(p, 2) == BigEndian(2, |p| - 2)
    ensures 256 * p[0] as int + p[1] as int == |p| - 2
  {
    Pow256Of2();
    BigEndianRoundTrip(2, |p| - 2);
    TwoOctets(p[0], p[1]);
    assert Take(p, 2) == [p[0], p[1]];
  }

  lemma ClearHeader(k: Keyset, spi: Spi, p: bytes)
    requires spi.ciphering && |p| >= 10
    ensures InTheClear(k, spi, p)[..8] == p[2..10]
  {
  }

  /** The check octets of a command are over its length, its header, counter, padding count and padded data. */
  lemma CommandIsSigned(k: Keyset, tar: bytes, spi: Spi, apdu: bytes)
    requires k.Sound() && |tar| == 3 && EncodeCmd(k, tar, spi, apdu).Ok? && spi.rcCcDs != NoRcCcDs
    ensures var c := InTheClear(k, spi, EncodeCmd(k, tar, spi, apdu).value);
            |c| < 65536 && var length: bytes := [|c| / 256, |c| % 256];
            && (spi.rcCcDs == Cc ==> |c| >= 22 && c[14..22] == Sign(k.auth, length + c[..14] + c[22..]))
            && (spi.rcCcDs == Rc ==> |c| >= 18 && c[14..18] == k.crc32(length + c[..14] + c[18..]))
  {
    hide EncodeCmd, Head, Body, InTheClear, FromBigEndian, Sign;
    CommandOctets(k, tar, spi, apdu);
    ClearParts(k, tar, spi, apdu);
    BodyOctets(k, tar, spi, apdu);
    var sig := SigLen(spi.rcCcDs);
    var head, body := Head(k, tar, spi, 13 + sig), Body(k, tar, spi, apdu);
    var c := InTheClear(k, spi, EncodeCmd(k, tar, spi, apdu).value);
    ClearIsShort(k, tar, spi, apdu);
    assert c == head + body && c[..14] == head + body[..6] && c[14 + sig..] == body[6 + sig..];
    assert c[14..14 + sig] == body[6..6 + sig];
    TwoOctetLength(|c|);
    assert BigEndian(2, |c|) + head + body[..6] + body[6 + sig..] == BigEndian(2, |c|) + c[..14] + c[14 + sig..];
  }

  lemma ClearIsShort(k: Keyset, tar: bytes, spi: Spi, apdu: bytes)
    requires k.Sound() && |tar| == 3 && EncodeCmd(k, tar, spi, apdu).Ok?
    ensures |InTheClear(k, spi, EncodeCmd(k, tar, spi, apdu).value)| < 65536
  {
    hide Body, Head, BigEndian, Pow256, InTheClear;
    Pow256Of2();
    ClearParts(k, tar, spi, apdu);
    if spi.ciphering {
      InnerCplIsOuterCpl(k, tar, spi, apdu);
      BodyIsWholeBlocks(k, tar, spi, apdu);
    }
  }

  lemma TwoOctetLength(n: nat)
    requires n < 65536
    ensures BigEndian(2, n) == [n / 256, n % 256]
  {
    assert BigEndian(1, n / 256) == [] + [n / 256 % 256];
  }

  /** The ciphered part falls into counter, padding count, check octets and padded data. */
  lemma BodyParts(k: Keyset, tar: bytes, spi: Spi, apdu: bytes)
    requires k.Sound() && |tar| == 3 && spi.ciphering && spi.rcCcDs != Ds
    ensures var body := Body(k, tar, spi, apdu);
            var data := PaddedApdu(k, spi, apdu);
            var count := Count(k.cntr, |data| - |apdu|);
            && Take(body, 6) == count
            && Drop(body, 6) == Check(k, spi.rcCcDs, BigEndian(2, InnerCpl(k, spi, apdu))
                                                     + Head(k, tar, spi, 13 + SigLen(spi.rcCcDs)) + count + data) + data
            && FromBigEndian(Drop(count, 5)) == |data| - |apdu|
            && SliceTo(data, |data| - (|data| - |apdu|)) == apdu
  {
    hide Head, InnerCpl, Check;
    var pad: byte := |PaddedApdu(k, spi, apdu)| - |apdu|;
    assert Drop(Count(k.cntr, pad), 5) == [pad];
    assert FromBigEndian([pad]) == 256 * FromBigEndian([]) + pad;
  }

  lemma HeadParts(k: Keyset, tar: bytes, spi: Spi, chl: byte)
    requires |tar| == 3
    ensures var h := Head(k, tar, spi, chl); ParseSpi(h[1], h[2]) == spi && h[5..8] == tar
  {
    SpiRoundTrip(spi);
  }

  /**
   Decoding an encoded command returns exactly the application, the security parameters and the
   data, with a cryptographic checksum or without, for every block size.
   */
  lemma CommandRoundTrip(k: Keyset, tar: bytes, spi: Spi, apdu: bytes)
    requires k.Sound() && |tar| == 3 && spi.ciphering
    requires spi.rcCcDs == Cc || spi.rcCcDs == NoRcCcDs
    requires EncodeCmd(k, tar, spi, apdu).Ok?
    ensures DecodeCmd(k, EncodeCmd(k, tar, spi, apdu).value) == Ok((tar, spi, apdu))
  {
    hide EncodeCmd, Body, Head, InnerCpl, Count, ParseSpi, PaddedApdu, SliceTo, Pow256;
    EncodedParts(k, tar, spi, apdu);
    BodyParts(k, tar, spi, apdu);
    HeadParts(k, tar, spi, 13 + SigLen(spi.rcCcDs));
    BigEndianRoundTrip(2, InnerCpl(k, spi, apdu));
    var data := PaddedApdu(k, spi, apdu);
    var signed := BigEndian(2, InnerCpl(k, spi, apdu)) + Head(k, tar, spi, 13 + SigLen(spi.rcCcDs))
                  + Count(k.cntr, |data| - |apdu|) + data;
    var check := Check(k, spi.rcCcDs, signed);
    if spi.rcCcDs == Cc {
      assert |check| == 8;
      assert Take(check + data, 8) == check && Drop(check + data, 8) == data;
    } else {
      assert check + data == data;
    }
  }

  /**
   What decoding makes of any packet. It fails on one that is too short or not whole blocks, on a wrong checksum, on a
   redundancy check and on a digital signature, and otherwise gives the octets of the application, the parameters of the
   two SPI octets and the data without the padding.
   */
  lemma {:induction false} DecodedOctets(k: Keyset, p: bytes)
    requires k.Sound()
    ensures var plain := k.crypt.dec(Drop(p, 10));
            var r := DecodeCmd(k, p);
            if |p| < 10 || (|p| - 10) % k.crypt.blocksize != 0 then r == Err(Malformed)
            else if p[3] % 4 == 1 then r == Err(NotImplemented)
            else if p[3] % 4 == 3 then r == Err(InvalidRcCcDs)
            else if p[3] % 4 == 2
                    && Sign(k.auth, p[..10] + Take(plain, 6) + Drop(Drop(plain, 6), 8)) != Take(Drop(plain, 6), 8) then
              r == Err(CheckFailed)
            else
              && r.Ok? && r.value.0 == p[7..10] && r.value.1 == ParseSpi(p[3], p[4])
              && var rest := if p[3] % 4 == 2 then Drop(Drop(plain, 6), 8) else Drop(plain, 6);
                 |plain| >= 6 && plain[5] <= |rest| ==> r.value.2 == rest[..|rest| - plain[5]]
  {
    hide Padding, PadToMultiple, Pow256, BigEndian, FromBigEndian, Sign;
    var plain := k.crypt.dec(Drop(p, 10));
    if |p| >= 10 {
      FromBigEndianRoundTrip(Take(p, 2));
      assert CplBytes(FromBigEndian(Take(p, 2))) + Take(Drop(p, 2), 8) == p[..10];
      assert Take(Drop(p, 2), 8)[5..8] == p[7..10];
      if |plain| >= 6 {
        LastOctet([], plain[5]);
        assert Drop(Take(plain, 6), 5) == [] + [plain[5]];
        NoOctets();
      }
    }
  }

  lemma NoOctets()
    ensures FromBigEndian([]) == 0
  {
  }

  /**
   Whatever is accepted with a checksum was signed: the check octets are those of all the other
   octets of the packet, its length and its header included.
   */
  lemma AcceptedIsSigned(k: Keyset, p: bytes)
    requires k.Sound() && DecodeCmd(k, p).Ok? && DecodeCmd(k, p).value.1.rcCcDs == Cc
    ensures |p| >= 10
    ensures var plain := k.crypt.dec(Drop(p, 10));
            Take(Drop(plain, 6), 8) == Sign(k.auth, p[..10] + Take(plain, 6) + Drop(Drop(plain, 6), 8))
  {
    hide ParseSpi, SliceTo, Padding, PadToMultiple, Pow256, FromBigEndian, BigEndian;
    FromBigEndianRoundTrip(Take(p, 2));
    assert CplBytes(FromBigEndian(Take(p, 2))) + Take(Drop(p, 2), 8) == p[..10];
  }
}
