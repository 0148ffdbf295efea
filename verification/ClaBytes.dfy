/**
 The logical channel number inside the CLA byte (tables 10.3 and 10.4a of ETSI TS 102 221):
 how commands are stamped with it and how it is read back. Bits are picked out with division
 and remainder: `c / 16` is the high nibble, `c / 64 % 2` bit 0x40, `c / 16 % 2` bit 0x10.
 */
module ClaBytes {
  import opened Bytes
  import opened Wrappers

  /** `lchan_nr_from_cla`; `None` is the ValueError. */
  function LchanNrFromCla(cla: byte): Option<nat> {
    if cla / 16 == 0x0 || cla / 16 == 0xA || cla / 16 == 0x8 then Some(cla % 4)
    else if cla / 64 % 2 == 1 && cla / 16 % 2 == 0 then Some(4 + cla % 16)
    else None
  }

  /** `lchan_nr_to_cla`; `None` is the ValueError. */
  function LchanNrToCla(cla: byte, lchanNr: nat): Option<byte> {
    if lchanNr < 4 then
      if cla / 16 == 0x0 || cla / 16 == 0xA || cla / 16 == 0x8 then Some(cla - cla % 4 + lchanNr % 4) else None
    else if lchanNr < 16 then
      if cla / 64 == 1 || cla / 64 == 3 then Some(cla - cla % 16 + (lchanNr - 4) % 16) else None
    else None
  }

  /** `_cla_for_lchan` of the AT modem driver. */
  function ClaForLchan(lchan: nat, proprietary: bool): byte {
    if lchan <= 3 then (if proprietary then 0x80 else 0x00) + lchan % 4
    else (if proprietary then 0xC0 else 0x40) + (lchan - 4) % 16
  }

  /**
   A stamped CLA byte names the channel it was stamped for exactly if the channel is a basic
   one or bit 0x10 of the CLA byte is clear; otherwise reading it back fails.
   */
  lemma StampResolves(cla: byte, lchanNr: nat)
    requires LchanNrToCla(cla, lchanNr).Some?
    ensures LchanNrFromCla(LchanNrToCla(cla, lchanNr).value)
         == if lchanNr < 4 || cla / 16 % 2 == 0 then Some(lchanNr) else None
  {
    var s := LchanNrToCla(cla, lchanNr).value;
    assert s / 16 == cla / 16;
    if lchanNr < 4 {
      assert s % 4 == lchanNr;
    } else {
      assert s % 16 == lchanNr - 4;
      assert cla / 64 == cla / 16 / 4 && s / 64 == s / 16 / 4;
    }
  }

  /** Stamping leaves the class alone: all but the last two bits, for an extended channel all but the last four. */
  lemma StampKeepsClass(cla: byte, lchanNr: nat)
    ensures LchanNrToCla(cla, lchanNr).Some? <==>
            || (lchanNr < 4 && (cla < 0x10 || 0x80 <= cla < 0x90 || 0xA0 <= cla < 0xB0))
            || (4 <= lchanNr < 16 && (0x40 <= cla < 0x80 || 0xC0 <= cla))
    ensures LchanNrToCla(cla, lchanNr).Some? ==>
              var s := LchanNrToCla(cla, lchanNr).value;
              if lchanNr < 4 then s / 4 == cla / 4 && s % 4 == lchanNr else s / 16 == cla / 16 && s % 16 == lchanNr - 4
  {
  }

  /** Which class bytes name a channel, and which. */
  lemma ClassNames(cla: byte)
    ensures LchanNrFromCla(cla) ==
            if cla < 0x10 || 0x80 <= cla < 0x90 || 0xA0 <= cla < 0xB0 then Some(cla % 4)
            else if 0x40 <= cla < 0x50 || 0x60 <= cla < 0x70 || 0xC0 <= cla < 0xD0 || 0xE0 <= cla < 0xF0 then
              Some(4 + cla % 16)
            else None
  {
  }

  /** For instance class byte 0x50 on channel 4. */
  lemma StampedButNotReadBack()
    ensures LchanNrToCla(0x50, 4) == Some(0x50) && LchanNrFromCla(0x50) == None
  {
  }

  /** With a class byte of a basic channel, no command can be stamped for an extended channel. */
  lemma BasicClassCannotBeExtended(cla: byte, lchanNr: nat)
    requires cla / 16 == 0x0 || cla / 16 == 0xA || cla / 16 == 0x8
    ensures LchanNrToCla(cla, lchanNr).Some? <==> lchanNr < 4
  {
  }

  /** The driver's class bytes for all twenty channels are read back as the channel they are for. */
  lemma ModemClassResolves(lchan: nat, proprietary: bool)
    requires lchan < 20
    ensures LchanNrFromCla(ClaForLchan(lchan, proprietary)) == Some(lchan)
    ensures ClaForLchan(lchan, proprietary) >= 0x80 <==> proprietary
    ensures var c := ClaForLchan(lchan, proprietary); if lchan < 4 then c % 0x80 < 4 else 0x40 <= c % 0x80 < 0x50
  {
    hide LchanNrFromCla;
    ClassNames(ClaForLchan(lchan, proprietary));
  }
}
