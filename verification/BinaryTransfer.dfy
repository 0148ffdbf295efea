/**
 Reading and writing a transparent file in chunks: `read_binary` and `update_binary` (pysim/pySim/commands.py),
 `csim_read_binary` (src/at_modem.py) and the UPDATE BINARY loop of `write_file` (src/app.py), against a card.
 */
module BinaryTransfer {
  import opened ApduLength
  import opened Wrappers
  import opened Bytes

  /** The bytes from `offset` on. */
  function Slice(s: bytes, offset: nat, length: nat): bytes
    requires offset + length <= |s|
  {
    s[offset..offset + length]
  }

  /** `s` with `data` written at `offset`. */
  function Splice(s: bytes, offset: nat, data: bytes): (r: bytes)
    requires offset + |data| <= |s|
    ensures |r| == |s|
    ensures Slice(r, offset, |data|) == data
  {
    s[..offset] + data + s[offset + |data|..]
  }

  lemma SliceExtends(s: bytes, offset: nat, n: nat, m: nat)
    requires offset + n + m <= |s|
    ensures Slice(s, offset, n) + Slice(s, offset + n, m) == Slice(s, offset, n + m)
  {
  }

  lemma {:induction false} SpliceExtends(s: bytes, offset: nat, data: bytes, n: nat, m: nat)
    requires n + m <= |data| && offset + n + m <= |s|
    ensures Splice(Splice(s, offset, data[..n]), offset + n, data[n..n + m]) == Splice(s, offset, data[..n + m])
  {
    var once := Splice(s, offset, data[..n]);
    assert once[..offset + n] == s[..offset] + data[..n];
    assert once[offset + n + m..] == s[offset + n + m..];
    assert data[..n + m] == data[..n] + data[n..n + m];
  }

  lemma SpliceNothing(s: bytes, offset: nat)
    requires offset <= |s|
    ensures Splice(s, offset, []) == s
  {
  }

  lemma SpliceOwn(s: bytes, offset: nat, length: nat)
    requires offset + length <= |s|
    ensures Splice(s, offset, Slice(s, offset, length)) == s
  {
  }

  predicate Holds(content: bytes, offset: nat, data: bytes) {
    offset + |data| <= |content| && Slice(content, offset, |data|) == data
  }

  /** The first two parameter bytes of a command, and the offset a card reads from them. */
  function P1(offset: nat): byte
    requires offset < 0x10000
  {
    offset / 256
  }

  function P2(offset: nat): byte {
    offset % 256
  }

  /** A set top bit of P1 announces a short file identifier instead. */
  function OffsetOf(p1: byte, p2: byte): Option<nat> {
    if p1 >= 0x80 then None else Some(p1 as int * 256 + p2 as int)
  }

  lemma OffsetRoundTrip(offset: nat)
    requires offset < 0x10000
    ensures OffsetOf(P1(offset), P2(offset)) == if offset < 0x8000 then Some(offset) else None
  {
  }

  /** The card, with one transparent file selected. A card that is not steady may refuse any command. */
  class Card {
    const steady: bool
    const readable: bool
    const writable: bool
    /** Whether SELECT is answered with control parameters. */
    const talks: bool
    var content: bytes
    /** The data of all UPDATE BINARY commands so far. */
    var received: seq<bytes>

    constructor (steady: bool, readable: bool, writable: bool, talks: bool, content: bytes)
      ensures this.steady == steady && this.readable == readable && this.writable == writable && this.talks == talks
      ensures this.content == content && received == []
    {
      this.steady, this.readable, this.writable, this.talks := steady, readable, writable, talks;
      this.content, this.received := content, [];
    }

    method Select() returns (ok: bool)
      ensures steady ==> ok
    {
      var mood: bool := *;
      ok := steady || mood;
    }

    predicate CanRead(offset: nat, length: nat)
      reads this
    {
      readable && offset + length <= |content|
    }

    predicate CanUpdate(offset: nat, length: nat)
      reads this
    {
      writable && offset + length <= |content|
    }

    /** READ BINARY; an expected length of 0 stands for 256. */
    method Read(p1: byte, p2: byte, le: byte) returns (r: Option<bytes>)
      ensures var length := if le == 0 then 256 else le as int;
              && (r.Some? ==> && OffsetOf(p1, p2).Some? && CanRead(OffsetOf(p1, p2).value, length)
                              && r.value == Slice(content, OffsetOf(p1, p2).value, length))
              && (steady && OffsetOf(p1, p2).Some? && CanRead(OffsetOf(p1, p2).value, length) ==> r.Some?)
    {
      var mood: bool := *;
      var length := if le == 0 then 256 else le as int;
      if (steady || mood) && OffsetOf(p1, p2).Some? && CanRead(OffsetOf(p1, p2).value, length) {
        r := Some(Slice(content, OffsetOf(p1, p2).value, length));
      } else {
        r := None;
      }
    }

    /** UPDATE BINARY; a refused one changes nothing. */
    method Update(p1: byte, p2: byte, data: bytes) returns (ok: bool)
      modifies this
      ensures received == old(received) + [data]
      ensures ok ==> && OffsetOf(p1, p2).Some? && old(CanUpdate(OffsetOf(p1, p2).value, |data|))
                     && content == Splice(old(content), OffsetOf(p1, p2).value, data)
      ensures !ok ==> content == old(content)
      ensures steady && OffsetOf(p1, p2).Some? && old(CanUpdate(OffsetOf(p1, p2).value, |data|)) ==> ok
    {
      var mood: bool := *;
      received := received + [data];
      ok := (steady || mood) && OffsetOf(p1, p2).Some? && CanUpdate(OffsetOf(p1, p2).value, |data|);
      if ok {
        content := Splice(content, OffsetOf(p1, p2).value, data);
      }
    }
  }

  // ---------------------------------------------------------------------------------------
  // Reading

  /** What `read_binary` returns: data; `(None, None)`; or an exception. */
  datatype Reading =
    | Data(data: bytes)
    | Nothing
    | Refused
    /** A read of no bytes returns a status word it never got. */
    | NoStatus

  /** The length a read asks for: by default all the rest of the file. */
  function WantedLength(card: Card, length: Option<int>, offset: nat): int
    reads card
  {
    match length
    case Some(n) => n
    case None => |card.content| - offset
  }

  /** The chunks read so far, if any, are the bytes of the file from `offset` on. */
  ghost predicate IsRead(card: Card, offset: nat, n: nat, total: bytes)
    reads card
  {
    if n == 0 then total == [] else card.CanRead(offset, n) && total == Slice(card.content, offset, n)
  }

  lemma NothingRead(card: Card, offset: nat)
    ensures IsRead(card, offset, 0, [])
  {
  }

  lemma ReadOn(card: Card, offset: nat, n: nat, total: bytes, m: nat, data: bytes)
    requires IsRead(card, offset, n, total) && 0 < m
    requires card.CanRead(offset + n, m) && data == Slice(card.content, offset + n, m)
    ensures IsRead(card, offset, n + m, total + data)
  {
    SliceExtends(card.content, offset, n, m);
  }

  lemma WantedMeans(card: Card, length: Option<int>, offset: nat)
    ensures var wanted := WantedLength(card, length, offset);
            && (0 < wanted && offset + wanted <= |card.content| <==>
                  match length case Some(n) => 0 < n && offset + n <= |card.content| case None => offset < |card.content|)
            && wanted == match length case Some(n) => n case None => |card.content| - offset
  {
  }

  lemma AllRead(card: Card, offset: nat, n: nat, total: bytes)
    requires 0 < n && IsRead(card, offset, n, total)
    ensures card.CanRead(offset, n) && offset + n <= |card.content| && card.readable
    ensures |total| == n && total == Slice(card.content, offset, n)
  {
  }

  /** `read_binary`. */
  method ReadBinary(card: Card, overhead: Option<nat>, length: Option<int>, offset: nat) returns (r: Reading)
    requires 1 <= MaxCmdLen(overhead)
    requires match length case Some(n) => offset + n <= 0x8000 case None => |card.content| <= 0x8000
    ensures r.Data? ==> && 0 < WantedLength(card, length, offset) == |r.data|
                        && offset + |r.data| <= |card.content| && card.readable
                        && r.data == Slice(card.content, offset, |r.data|)
    ensures r.Data? && length.Some? ==> |r.data| == length.value
    ensures r.Data? && length.None? ==> offset + |r.data| == |card.content|
    ensures card.steady && card.talks ==>
              match r
              case Nothing => WantedLength(card, length, offset) < 0
              case NoStatus => WantedLength(card, length, offset) == 0
              case Refused => 0 < WantedLength(card, length, offset)
                              && !card.CanRead(offset, WantedLength(card, length, offset))
              case Data(_) => true
    ensures card.steady && card.talks && card.readable ==>
              (r.Data? <==> match length
                            case Some(n) => 0 < n && offset + n <= |card.content|
                            case None => offset < |card.content|)
    ensures r.NoStatus? ==> WantedLength(card, length, offset) == 0
    ensures !card.talks ==> r.Nothing? || r.Refused?
  {
    hide P1, P2, OffsetOf, WantedLength, IsRead, Slice;
    WantedMeans(card, length, offset);
    var ok := card.Select();
    if !ok {
      return Refused;
    }
    if !card.talks {
      return Nothing;
    }
    var wanted := WantedLength(card, length, offset);
    if wanted < 0 {
      return Nothing;
    }
    var total, chunkOffset: nat := [], 0;
    NothingRead(card, offset);
    while chunkOffset < wanted
      invariant chunkOffset <= wanted && IsRead(card, offset, chunkOffset, total)
    {
      var remaining := wanted - chunkOffset;
      var chunkLen: nat := if MaxCmdLen(overhead) < remaining then MaxCmdLen(overhead) else remaining;
      OffsetRoundTrip(offset + chunkOffset);
      var data := card.Read(P1(offset + chunkOffset), P2(offset + chunkOffset), chunkLen);
      if data.None? {
        return Refused;
      }
      ReadOn(card, offset, chunkOffset, total, chunkLen, data.value);
      total := total + data.value;
      chunkOffset := chunkOffset + chunkLen;
    }
    if wanted == 0 {
      return NoStatus;
    }
    AllRead(card, offset, wanted, total);
    r := Data(total);
  }

  /** `csim_read_binary`: success and data; a failing chunk keeps the chunks before it. */
  method CsimReadBinary(card: Card, length: nat) returns (success: bool, data: bytes)
    requires length <= 0x8000
    ensures success ==> length <= |card.content| && data == Slice(card.content, 0, length)
    ensures !success ==> |data| <= |card.content| && |data| < (if length == 0 then 1 else length)
                         && data == Slice(card.content, 0, |data|)
    ensures card.steady && 0 < length && card.CanRead(0, length) ==> success
  {
    if length <= 255 {
      var r := card.Read(0, 0, length);
      if r.None? {
        return false, [];
      }
      data := r.value;
      if |data| > length {
        data := data[..length];
      }
      return true, data;
    }
    data := [];
    var offset: nat := 0;
    success := false;
    while offset < length
      invariant offset <= length && offset <= |card.content|
      invariant data == Slice(card.content, 0, offset)
      invariant offset > 0 ==> success
    {
      var chunkLen: nat := if 255 < length - offset then 255 else length - offset;
      OffsetRoundTrip(offset);
      var r := card.Read(offset / 256, offset % 256, chunkLen);
      success := r.Some?;
      if !success {
        break;
      }
      SliceExtends(card.content, 0, offset, chunkLen);
      data := data + r.value;
      offset := offset + chunkLen;
    }
  }

  // ---------------------------------------------------------------------------------------
  // Writing

  /** How `update_binary` ends. */
  datatype Writing =
    /** Everything was sent. */
    | Written
    /** The contents were there already and nothing was sent. */
    | Kept
    /** SELECT was refused, or did not tell the size of the file, and nothing was sent. */
    | NotSelected
    /** The chunk after the first `sent` bytes was refused. */
    | Stopped(sent: nat)
    /** Everything was sent, but reading it back failed or gave something else. */
    | NotVerified
    /** There was nothing to send, and the status word that is returned never came. */
    | NoChunk

  /** How much of `data` the card holds after an update ended so. */
  function Sent(w: Writing, data: bytes): (n: nat)
    requires w.Stopped? ==> w.sent <= |data|
    ensures n <= |data|
  {
    match w
    case Stopped(n) => n
    case NotSelected => 0
    case _ => |data|
  }

  /** A card that does what the access conditions allow. */
  predicate Cooperates(card: Card) {
    card.steady && card.talks && card.writable
  }

  /** The file after the first `sent` bytes of `data` were written at `offset`. */
  predicate PrefixWritten(before: bytes, after: bytes, offset: nat, data: bytes, sent: nat)
    requires sent <= |data|
  {
    if sent == 0 then after == before
    else offset + sent <= |before| && after == Splice(before, offset, data[..sent])
  }

  lemma PrefixGrows(before: bytes, after: bytes, offset: nat, data: bytes, sent: nat, more: nat)
    requires 0 < more && sent + more <= |data| && offset + sent + more <= |after|
    requires PrefixWritten(before, after, offset, data, sent)
    ensures |before| == |after|
    ensures PrefixWritten(before, Splice(after, offset + sent, data[sent..sent + more]), offset, data, sent + more)
  {
    if sent == 0 {
      assert data[..0] == [];
      SpliceNothing(before, offset);
    }
    SpliceExtends(before, offset, data, sent, more);
  }

  /** `data` from `k` on in chunks. */
  function Chunks(data: bytes, k: nat, chunk: nat): seq<bytes>
    requires k <= |data| && 0 < chunk
    decreases |data| - k
  {
    if k == |data| then []
    else
      var n := if chunk < |data| - k then k + chunk else |data|;
      [data[k..n]] + Chunks(data, n, chunk)
  }

  function Joined(chunks: seq<bytes>): bytes {
    if chunks == [] then [] else chunks[0] + Joined(chunks[1..])
  }

  /** The chunks join to the data; each but the last has just the size, and that is no larger and not empty. */
  lemma {:induction false} ChunksAddUp(data: bytes, k: nat, chunk: nat)
    requires k <= |data| && 0 < chunk
    ensures Joined(Chunks(data, k, chunk)) == data[k..]
    ensures forall i :: 0 <= i < |Chunks(data, k, chunk)| ==>
              && 0 < |Chunks(data, k, chunk)[i]| <= chunk
              && (i < |Chunks(data, k, chunk)| - 1 ==> |Chunks(data, k, chunk)[i]| == chunk)
    decreases |data| - k
  {
    if k < |data| {
      var n := if chunk < |data| - k then k + chunk else |data|;
      ChunksAddUp(data, n, chunk);
      var rest := Chunks(data, n, chunk);
      assert Chunks(data, k, chunk) == [data[k..n]] + rest && Chunks(data, k, chunk)[1..] == rest;
      assert data[k..n] + data[n..] == data[k..];
    }
  }

  /** The loop of `update_binary`: sends `data` in chunks; the result is how much was accepted. */
  method SendChunks(card: Card, chunk: nat, data: bytes, offset: nat) returns (sent: nat)
    requires 1 <= chunk <= 255 && offset + |data| <= 0x8000
    modifies card
    ensures sent <= |data| && PrefixWritten(old(card.content), card.content, offset, data, sent)
    ensures Cooperates(card) && sent < |data| ==>
              offset + sent + (if chunk < |data| - sent then chunk else |data| - sent) > |card.content|
    ensures Cooperates(card) && offset + |data| <= |card.content| ==> sent == |data|
    ensures sent == |data| ==> card.received == old(card.received) + Chunks(data, 0, chunk)
  {
    hide Splice, PrefixWritten;
    sent := 0;
    assert PrefixWritten(old(card.content), card.content, offset, data, sent) by {
      PrefixOfNothing(card.content, offset, data);
    }
    while sent < |data|
      invariant sent <= |data| && PrefixWritten(old(card.content), card.content, offset, data, sent)
      invariant card.received + Chunks(data, sent, chunk) == old(card.received) + Chunks(data, 0, chunk)
    {
      ghost var received := card.received;
      var chunkLen: nat := if chunk < |data| - sent then chunk else |data| - sent;
      OffsetRoundTrip(offset + sent);
      ghost var before := card.content;
      var ok := card.Update(P1(offset + sent), P2(offset + sent), data[sent..sent + chunkLen]);
      if !ok {
        break;
      }
      PrefixGrows(old(card.content), before, offset, data, sent, chunkLen);
      ChunkIsNext(received, data, sent, chunk, sent + chunkLen);
      sent := sent + chunkLen;
    }
  }

  lemma ChunkIsNext(received: seq<bytes>, data: bytes, k: nat, chunk: nat, n: nat)
    requires k < |data| && 0 < chunk && n == if chunk < |data| - k then k + chunk else |data|
    ensures (received + [data[k..n]]) + Chunks(data, n, chunk) == received + Chunks(data, k, chunk)
  {
  }

  lemma PrefixOfNothing(content: bytes, offset: nat, data: bytes)
    ensures PrefixWritten(content, content, offset, data, 0)
  {
  }

  /**
   `update_binary`, for data already expanded. `lower` says whether the caller's hex digits are lower case, as the
   card's are: `conserve` compares the digits, the verification afterwards does not mind.
   */
  method UpdateBinary(card: Card, overhead: Option<nat>, data: bytes, offset: nat, verify: bool, conserve: bool,
                      lower: bool) returns (w: Writing)
    requires 1 <= MaxCmdLen(overhead) && offset + |data| <= 0x8000
    modifies card
    ensures w.Stopped? ==> w.sent < |data|
    ensures PrefixWritten(old(card.content), card.content, offset, data, Sent(w, data))
    ensures w.Written? || w.NotVerified? ==>
              var chunk := 255 - (if overhead.Some? then overhead.value else 0);
              0 < chunk && card.received == old(card.received) + Chunks(data, 0, chunk)
    ensures w.Kept? ==> conserve && 0 < |data| && old(Holds(card.content, offset, data)) && unchanged(card)
    ensures Cooperates(card) ==>
              match w
              case NotSelected => false
              case Stopped(sent) =>
                && sent < |data|
                && var chunk := 255 - (if overhead.Some? then overhead.value else 0);
                   offset + sent + (if chunk < |data| - sent then chunk else |data| - sent) > |card.content|
              case NotVerified => verify && 0 < |data| && !card.readable
              case NoChunk => |data| == 0
              case _ => 0 < |data|
    ensures Cooperates(card) && offset + |data| <= |card.content| ==> !w.Stopped?
    ensures Cooperates(card) && card.readable && conserve && lower && 0 < |data| && old(Holds(card.content, offset, data))
            ==> w.Kept?
  {
    hide Splice, PrefixWritten, Slice;
    PrefixOfNothing(card.content, offset, data);
    var selected := card.Select();
    if !selected || !card.talks {
      return NotSelected;
    }
    if conserve {
      var current := ReadBinary(card, overhead, Some(|data|), offset);
      if current.Data? && current.data == data && lower {
        KeepingIsWriting(card.content, offset, data);
        return Kept;
      }
    }
    selected := card.Select();
    if !selected {
      return NotSelected;
    }
    var sent := SendChunks(card, MaxCmdLen(overhead), data, offset);
    if sent < |data| {
      return Stopped(sent);
    }
    if |data| > 0 {
      ReadsWhatWasWritten(old(card.content), card.content, offset, data, 0, 0);
    }
    if verify {
      var res := ReadBinary(card, overhead, Some(|data|), offset);
      if res.NoStatus? {
        return NoChunk;
      }
      if !res.Data? || res.data != data {
        return NotVerified;
      }
    }
    w := if |data| == 0 then NoChunk else Written;
  }

  /** The UPDATE BINARY loop of `write_file`, from the start of the file. */
  method WriteFile(card: Card, data: bytes) returns (success: bool)
    requires |data| <= 0x8000
    modifies card
    ensures success ==> PrefixWritten(old(card.content), card.content, 0, data, |data|)
    ensures !success ==> exists sent :: 0 <= sent < |data| && PrefixWritten(old(card.content), card.content, 0, data, sent)
    ensures card.steady && card.writable && |data| <= |card.content| ==> success
  {
    hide Splice, PrefixWritten;
    success := true;
    var offset: nat := 0;
    PrefixOfNothing(card.content, 0, data);
    while offset < |data|
      invariant offset <= |data| && PrefixWritten(old(card.content), card.content, 0, data, offset)
      invariant success && |card.content| == |old(card.content)|
    {
      var chunkLen: nat := if 255 < |data| - offset then 255 else |data| - offset;
      OffsetRoundTrip(offset);
      ghost var before := card.content;
      var ok := card.Update(offset / 256, offset % 256, data[offset..offset + chunkLen]);
      success := ok;
      if !success {
        break;
      }
      PrefixGrows(old(card.content), before, 0, data, offset, chunkLen);
      offset := offset + chunkLen;
    }
  }

  /** Keeping contents that were there already leaves the same file as writing them would. */
  lemma KeepingIsWriting(content: bytes, offset: nat, data: bytes)
    requires 0 < |data| && Holds(content, offset, data)
    ensures PrefixWritten(content, content, offset, data, |data|)
  {
    SpliceOwn(content, offset, |data|);
    assert data[..|data|] == data;
  }

  /** What was written is what a read of the same place gives, and a read of any other place is as before. */
  lemma {:induction false} ReadsWhatWasSent(before: bytes, after: bytes, offset: nat, data: bytes, sent: nat,
                                            at: nat, length: nat)
    requires sent <= |data| && PrefixWritten(before, after, offset, data, sent) && at + length <= |before|
    ensures |after| == |before|
    ensures sent > 0 ==> offset + sent <= |after| && Slice(after, offset, sent) == data[..sent]
    ensures at + length <= offset || offset + sent <= at ==> Slice(after, at, length) == Slice(before, at, length)
  {
  }

  /** So after all of it was written the file holds the data there. */
  lemma {:induction false} ReadsWhatWasWritten(before: bytes, after: bytes, offset: nat, data: bytes,
                                               at: nat, length: nat)
    requires PrefixWritten(before, after, offset, data, |data|) && 0 < |data| && at + length <= |before|
    ensures |after| == |before| && Holds(after, offset, data)
    ensures at + length <= offset || offset + |data| <= at ==> Slice(after, at, length) == Slice(before, at, length)
  {
    assert data[..|data|] == data;
  }
}
