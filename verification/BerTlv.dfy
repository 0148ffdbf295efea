/**
 BER-TLV data objects: the definite length, the object `write_tlv` builds (src/app.py) and `_strip_tlv` opens
 (src/decoder.py), and the two walkers that look for an application identifier (src/at_modem.py). The source
 writes bytes as pairs of hex digits.
 */
module BerTlv {
  import opened Wrappers
  import opened Bytes

  // ---------------------------------------------------------------------------------------
  // Building and stripping one object

  /** The length field of `write_tlv`. */
  function EncodeLength(n: nat): (r: bytes)
    requires n <= 0xFFFF
    ensures |r| == if n <= 0x7F then 1 else if n <= 0xFF then 2 else 3
  {
    if n <= 0x7F then [n]
    else if n <= 0xFF then [0x81, n]
    else [0x82, n / 256, n % 256]
  }

  /** Tag, length and value; `write_tlv` takes the tag as it is given. */
  function BuildTlv(tag: bytes, value: bytes): bytes
    requires |value| <= 0xFFFF
  {
    tag + EncodeLength(|value|) + value
  }

  /** A first byte that says that the tag goes on. */
  predicate TagGoesOn(b: byte) {
    b % 32 == 31
  }

  datatype StripError = NoLengthByte

  /** How many bytes `_strip_tlv` takes off: the tag, the byte it takes for the length, and what that announces. */
  function HeaderLength(b: bytes): Result<nat, StripError>
    requires |b| >= 2
  {
    var i := if TagGoesOn(b[0]) then 2 else 1;
    if i >= |b| then Err(NoLengthByte)
    else Ok(i + 1 + (if b[i] == 0x81 then 1 else if b[i] == 0x82 then 2 else 0))
  }

  /** `_strip_tlv`. */
  method StripTlv(b: bytes) returns (r: Result<bytes, StripError>)
    ensures |b| < 2 ==> r == Ok(b)
    ensures |b| >= 2 && HeaderLength(b).Err? ==> r == Err(NoLengthByte)
    ensures |b| >= 2 && HeaderLength(b).Ok? ==> r == Ok(Drop(b, HeaderLength(b).value))
  {
    if |b| < 2 {
      return Ok(b);
    }
    var i := 1;
    if TagGoesOn(b[0]) {
      i := i + 1;
    }
    if i >= |b| {
      return Err(NoLengthByte);
    }
    var lenByte := b[i];
    i := i + 1;
    if lenByte == 0x81 {
      i := i + 1;
    } else if lenByte == 0x82 {
      i := i + 2;
    }
    r := Ok(Drop(b, i));
  }

  /** What stripping leaves of an object; building always leaves a length byte to read. */
  function Stripped(tag: bytes, value: bytes): bytes
    requires 1 <= |tag| <= 2 && 1 <= |value| <= 0xFFFF
  {
    Drop(BuildTlv(tag, value), HeaderLength(BuildTlv(tag, value)).value)
  }

  /**
   An object with a one-byte tag loses exactly its header, unless the tag claims to go on. Then the first length
   byte is taken for a tag byte, and only for some lengths does the rest still add up.
   */
  lemma {:induction false} OneByteTagStrips(t: byte, value: bytes)
    requires 1 <= |value| <= 0xFFFF
    ensures Stripped([t], value) == value <==>
            || t % 32 != 31
            || (0x80 <= |value| <= 0xFF && |value| != 0x81 && |value| != 0x82)
            || 0x8100 <= |value| <= 0x81FF
  {
    StrippedIs([t], value);
  }

  /**
   An object with a two-byte tag loses exactly its header if the first byte says that the tag goes on. If not, the
   second byte is taken for the length, which adds up only if it happens to announce what follows.
   */
  lemma {:induction false} TwoByteTagStrips(t: byte, u: byte, value: bytes)
    requires 1 <= |value| <= 0xFFFF
    ensures Stripped([t, u], value) == value <==>
            || t % 32 == 31
            || (u == 0x81 && |value| <= 0x7F)
            || (u == 0x82 && 0x80 <= |value| <= 0xFF)
  {
    StrippedIs([t, u], value);
  }

  /** For instance the tags 1F and 01 02 with a value of one byte. */
  lemma HeadersMisread()
    ensures Stripped([0x1F], [7]) == []
    ensures Stripped([1, 2], [7]) == [1, 7]
  {
    assert BuildTlv([0x1F], [7]) == [0x1F, 1, 7] && BuildTlv([1, 2], [7]) == [1, 2, 1, 7];
  }

  /** Stripping gives back the value exactly if it takes off as many bytes as building put on. */
  lemma {:induction false} StrippedIs(tag: bytes, value: bytes)
    requires 1 <= |tag| <= 2 && 1 <= |value| <= 0xFFFF
    ensures HeaderLength(BuildTlv(tag, value)).Ok?
    ensures Stripped(tag, value) == value <==>
            HeaderLength(BuildTlv(tag, value)).value == |tag| + |EncodeLength(|value|)|
    ensures BuildTlv(tag, value)[0] == tag[0]
    ensures BuildTlv(tag, value)[1] == if |tag| == 2 then tag[1] else EncodeLength(|value|)[0]
    ensures |BuildTlv(tag, value)| > 2 &&
            BuildTlv(tag, value)[2] == (
              if |tag| == 2 then EncodeLength(|value|)[0]
              else if |EncodeLength(|value|)| > 1 then EncodeLength(|value|)[1] else value[0])
  {
    var b, n := BuildTlv(tag, value), |tag| + |EncodeLength(|value|)|;
    assert b[n..] == value;
  }

  // ---------------------------------------------------------------------------------------
  // The definite length in general, section 8.1.3 of ITU-T X.690

  /** How many bytes a length of up to 32 bits takes in base 256. */
  function LengthBytes(n: nat): (k: nat)
    requires n < Pow256(4)
    ensures k <= 4 && n < Pow256(k)
  {
    if n == 0 then 0
    else if n < 0x100 then 1
    else if n < 0x1_0000 then 2
    else if n < 0x100_0000 then 3
    else 4
  }

  /** `bertlv_encode_len`. */
  function BerLength(n: nat): (r: bytes)
    requires n < Pow256(4)
    ensures |r| >= 1
  {
    if n < 0x80 then [n] else [0x80 + LengthBytes(n)] + BigEndian(LengthBytes(n), n)
  }

  /** The length takes as few octets as it can: none in front of a short one, no leading zero in a long one. */
  lemma LengthIsShortest(n: nat)
    requires n < Pow256(4)
    ensures var l := BerLength(n);
            if n < 0x80 then l == [n]
            else
              var k := |l| - 1;
              1 <= k <= 4 && l[0] == 0x80 + k && FromBigEndian(l[1..]) == n && l[1] > 0
  {
    hide BigEndian, FromBigEndian, Pow256;
    if n >= 0x80 {
      var k := LengthBytes(n);
      BigEndianRoundTrip(k, n);
      LeadingOctet(n);
    }
  }

  lemma LeadingOctet(n: nat)
    requires 0x80 <= n < Pow256(4)
    ensures LengthBytes(n) > 0 && BigEndian(LengthBytes(n), n)[0] > 0
  {
    hide Pow256;
    Pow256Of4();
    var k := LengthBytes(n);
    if k == 1 {
      FirstOf(1, n);
    } else if k == 2 {
      FirstOf(2, n);
      FirstOf(1, n / 256);
    } else if k == 3 {
      FirstOf(3, n);
      FirstOf(2, n / 256);
      FirstOf(1, n / 256 / 256);
    } else {
      FirstOf(4, n);
      FirstOf(3, n / 256);
      FirstOf(2, n / 256 / 256);
      FirstOf(1, n / 256 / 256 / 256);
    }
  }

  lemma Pow256Of4()
    ensures Pow256(4) == 0x1_0000_0000
  {
    assert Pow256(2) == 65536;
  }

  lemma FirstOf(k: nat, n: nat)
    requires k > 0
    ensures BigEndian(k, n)[0] == if k == 1 then n % 256 else BigEndian(k - 1, n / 256)[0]
  {
  }

  lemma ThreeFormsAreBer(n: nat)
    requires n <= 0xFFFF
    ensures EncodeLength(n) == BerLength(n)
  {
    if n > 0xFF {
      assert BigEndian(2, n) == BigEndian(1, n / 256) + [n % 256];
    }
  }

  /** The size of the object that starts here, once enough of it has arrived: one-byte tag, length, value. */
  function Announced(b: bytes): Option<nat> {
    if |b| < 2 then None
    else if b[1] < 0x80 then Some(2 + b[1] as int)
    else
      var k := b[1] - 0x80;
      if |b| < 2 + k then None else Some(2 + k + FromBigEndian(b[2..2 + k]))
  }

  /** The object itself. */
  function Tlv(tag: byte, value: bytes): (r: bytes)
    requires |value| < Pow256(4)
    ensures |r| >= 2 + |value| && r[0] == tag
  {
    [tag] + BerLength(|value|) + value
  }

  lemma ShortHeader(tag: byte, value: bytes)
    requires |value| < 0x80 && |value| < Pow256(4)
    ensures var b := Tlv(tag, value); b[1] == |value| && |b| == 2 + |value|
  {
    hide Pow256, LengthBytes, BigEndian;
    assert Tlv(tag, value)[1] == BerLength(|value|)[0];
  }

  lemma LongHeader(tag: byte, value: bytes)
    requires 0x80 <= |value| < Pow256(4)
    ensures var b, k := Tlv(tag, value), LengthBytes(|value|);
            b[1] == 0x80 + k && |b| == 2 + k + |value| && b[2..2 + k] == BigEndian(k, |value|)
  {
    hide Pow256, LengthBytes, BigEndian;
    var b, k := Tlv(tag, value), LengthBytes(|value|);
    var l: bytes := [0x80 + k];
    assert b == [tag] + (l + BigEndian(k, |value|)) + value;
    assert b[1] == l[0];
  }

  /** The header of an object says how long it is. */
  lemma {:induction false} HeaderAnnounces(tag: byte, value: bytes)
    requires |value| < Pow256(4)
    ensures var b, k := Tlv(tag, value), LengthBytes(|value|);
            if |value| < 0x80 then b[1] == |value| && |b| == 2 + |value|
            else b[1] == 0x80 + k && |b| == 2 + k + |value| && FromBigEndian(b[2..2 + k]) == |value|
  {
    hide Pow256, LengthBytes, BigEndian, FromBigEndian, BerLength, Tlv;
    if |value| < 0x80 {
      ShortHeader(tag, value);
    } else {
      LongHeader(tag, value);
      BigEndianRoundTrip(LengthBytes(|value|), |value|);
    }
  }

  /** Of a part of an object one can tell the size of the whole, or not yet. */
  lemma {:induction false} PartAnnouncesWhole(tag: byte, value: bytes, n: nat)
    requires |value| < Pow256(4) && n <= |Tlv(tag, value)|
    ensures Announced(Tlv(tag, value)) == Some(|Tlv(tag, value)|)
    ensures Announced(Tlv(tag, value)[..n]).Some? ==> Announced(Tlv(tag, value)[..n]) == Some(|Tlv(tag, value)|)
  {
    hide Tlv, LengthBytes, FromBigEndian;
    var b, k := Tlv(tag, value), LengthBytes(|value|);
    HeaderAnnounces(tag, value);
    if |value| >= 0x80 && 2 + k <= n {
      assert b[..n][2..2 + k] == b[2..2 + k];
    }
  }

  // ---------------------------------------------------------------------------------------
  // Looking for an application identifier

  const FCP_TEMPLATE: byte := 0x62
  const DF_NAME: byte := 0x84
  const APPLICATION_TEMPLATE: byte := 0x61
  const APPLICATION_IDENTIFIER: byte := 0x4F

  /** The value of the first object tagged `want`, reading objects from `i` while it is before `end`. */
  function FirstTagged(b: bytes, i: nat, end: nat, want: byte): Option<bytes>
    decreases |b| - i
  {
    if i >= end || i + 1 >= |b| then None
    else if b[i] == want then Some(Take(b[i + 2..], b[i + 1]))
    else FirstTagged(b, i + 2 + b[i + 1], end, want)
  }

  /** Where the walk through a template starts. */
  function FcpStart(b: bytes): nat
    requires |b| >= 2
  {
    if b[1] > 0x80 then 3 else 2
  }

  /** `_extract_aid_from_fcp`. */
  method ExtractAidFromFcp(b: bytes) returns (aid: Option<bytes>)
    ensures aid == if |b| < 2 || b[0] != FCP_TEMPLATE then None else FirstTagged(b, FcpStart(b), |b|, DF_NAME)
    ensures aid == if |b| < 2 || b[0] != 0x62 then None
                   else FirstValue(ObjectsIn(Drop(b, if b[1] > 0x80 then 3 else 2)), 0x84)
  {
    hide FirstValue, ObjectsIn;
    FcpReads(b);
    if |b| < 2 {
      return None;
    }
    if b[0] != FCP_TEMPLATE {
      return None;
    }
    var i: nat := 2;
    if b[1] > 0x80 {
      i := 3;
    }
    var end := |b|;
    while i < end - 1
      invariant FirstTagged(b, i, |b|, DF_NAME) == FirstTagged(b, FcpStart(b), |b|, DF_NAME)
    {
      var tag := b[i];
      var length := b[i + 1];
      i := i + 2;
      if tag == DF_NAME {
        return Some(Take(b[i..], length));
      }
      i := i + length;
    }
    aid := None;
  }

  /** The objects that begin before the `n`-th byte. */
  function Begun(objects: seq<Object>, n: int): seq<Object> {
    if objects == [] || n <= 0 then [] else [objects[0]] + Begun(objects[1..], n - 2 - |objects[0].value|)
  }

  /** `_parse_dir_record`. */
  method ParseDirRecord(b: bytes) returns (aid: Option<bytes>)
    ensures aid == if |b| < 4 || b[0] != APPLICATION_TEMPLATE then None
                   else FirstTagged(b, 2, 2 + b[1] as int, APPLICATION_IDENTIFIER)
    ensures aid == if |b| < 4 || b[0] != 0x61 then None
                   else FirstValue(Begun(ObjectsIn(b[2..]), b[1] as int), 0x4F)
  {
    hide FirstValue, ObjectsIn, Begun;
    DirReads(b);
    if |b| < 4 {
      return None;
    }
    if b[0] != APPLICATION_TEMPLATE {
      return None;
    }
    var i: nat := 2;
    var end: nat := i + b[1] as int;
    while i < end && i < |b| - 1
      invariant FirstTagged(b, i, end, APPLICATION_IDENTIFIER) == FirstTagged(b, 2, end, APPLICATION_IDENTIFIER)
      decreases |b| - i
    {
      var tag := b[i];
      var length := b[i + 1];
      i := i + 2;
      var value := Take(b[i..], length);
      i := i + length;
      if tag == APPLICATION_IDENTIFIER {
        return Some(value);
      }
    }
    aid := None;
  }

  /** An object with a one-byte tag and a one-byte length. */
  datatype Object = Object(tag: byte, value: bytes)

  predicate Short(objects: seq<Object>) {
    forall i :: 0 <= i < |objects| ==> |objects[i].value| <= 255
  }

  function Encode(objects: seq<Object>): bytes
    requires Short(objects)
  {
    if objects == [] then []
    else [objects[0].tag, |objects[0].value|] + objects[0].value + Encode(objects[1..])
  }

  function FirstValue(objects: seq<Object>, want: byte): Option<bytes> {
    if objects == [] then None
    else if objects[0].tag == want then Some(objects[0].value)
    else FirstValue(objects[1..], want)
  }

  /** One object, wherever it stands. */
  lemma ObjectAt(before: bytes, o: Object, after: bytes, end: nat, want: byte)
    requires |o.value| <= 255 && |before| + 2 <= end
    ensures var head := [o.tag, |o.value|] + o.value;
            FirstTagged(before + head + after, |before|, end, want) ==
            if o.tag == want then Some(o.value) else FirstTagged(before + head + after, |before + head|, end, want)
  {
    var n: byte := |o.value|;
    var b, i := before + ([o.tag, n] + o.value) + after, |before|;
    assert b[i] == o.tag && b[i + 1] == n;
    assert b[i + 2..] == o.value + after;
  }

  /** A walk over any list of objects, whatever stands before and after it, finds the first value of the tag. */
  lemma {:induction false} WalkFindsFirst(before: bytes, objects: seq<Object>, after: bytes, want: byte)
    requires Short(objects)
    ensures var b := before + Encode(objects) + after;
            FirstTagged(b, |before|, |before| + |Encode(objects)|, want) == FirstValue(objects, want)
    decreases |objects|
  {
    hide FirstTagged;
    if objects != [] {
      var o, rest := objects[0], objects[1..];
      var head := [o.tag, |o.value|] + o.value;
      Regroup(before, head, Encode(rest), after);
      ObjectAt(before, o, Encode(rest) + after, |before| + |Encode(objects)|, want);
      WalkFindsFirst(before + head, rest, after, want);
    } else {
      NothingToWalk(before + Encode(objects) + after, |before|, want);
    }
  }

  lemma NothingToWalk(b: bytes, end: nat, want: byte)
    ensures FirstTagged(b, end, end, want) == None
  {
  }

  /** Control parameters with the header of up to 255 bytes: the name of the first DF name object is found. */
  lemma {:induction false} FcpNameIsFound(objects: seq<Object>, long: bool)
    requires Short(objects) && |Encode(objects)| <= (if long then 0xFF else 0x7F)
    ensures var header := [FCP_TEMPLATE] + (if long then [0x81] else []) + [|Encode(objects)|];
            var b := header + Encode(objects);
            |b| >= 2 && b[0] == FCP_TEMPLATE && FirstTagged(b, FcpStart(b), |b|, DF_NAME) == FirstValue(objects, DF_NAME)
  {
    var n: byte := |Encode(objects)|;
    var header: bytes := [FCP_TEMPLATE] + (if long then [0x81] else []) + [n];
    var b := header + Encode(objects);
    assert b + [] == b;
    WalkFindsFirst(header, objects, [], DF_NAME);
  }

  /** The walk does not depend on what stands before the place where it goes on. */
  lemma {:induction false} WalkMoves(before: bytes, content: bytes, i: nat, end: nat, want: byte)
    ensures FirstTagged(before + content, |before| + i, |before| + end, want) == FirstTagged(content, i, end, want)
    decreases |content| - i
  {
    var b := before + content;
    if i < end && i + 1 < |content| {
      assert b[|before| + i] == content[i] && b[|before| + i + 1] == content[i + 1];
      assert b[|before| + i + 2..] == content[i + 2..];
      WalkMoves(before, content, i + 2 + content[i + 1], end, want);
    }
  }

  /**
   A template with a length of two bytes is walked from the second of them on: that byte is taken for a tag and the tag
   of the first object for a length. So the walk goes on in the contents, one byte more than that tag says; or it ends
   at once, if the byte of the length happens to be the tag of a DF name.
   */
  lemma {:induction false} TwoByteLengthIsMisread(hi: byte, lo: byte, content: bytes)
    ensures var b := [FCP_TEMPLATE, 0x82, hi, lo] + content;
            FirstTagged(b, FcpStart(b), |b|, DF_NAME) ==
            if content == [] then None
            else if lo == DF_NAME then Some(Take(content[1..], content[0]))
            else FirstTagged(content, 1 + content[0] as int, |content|, DF_NAME)
  {
    var header: bytes := [FCP_TEMPLATE, 0x82, hi, lo];
    var b := header + content;
    assert b[3] == lo;
    if content != [] {
      assert b[4] == content[0] && b[5..] == content[1..];
      if lo != DF_NAME {
        WalkMoves(header, content, 1 + content[0] as int, |content|, DF_NAME);
      }
    }
  }

  /** The objects of a byte string, the last one as far as it goes. */
  function ObjectsIn(b: bytes): (objects: seq<Object>)
    ensures Short(objects)
    decreases |b|
  {
    if |b| < 2 then [] else [Object(b[0], Take(b[2..], b[1]))] + ObjectsIn(Drop(b, 2 + b[1] as int))
  }

  lemma FirstObject(o: Object, rest: bytes)
    requires |o.value| <= 255
    ensures ObjectsIn([o.tag, |o.value|] + o.value + rest) == [o] + ObjectsIn(rest)
  {
    var n: byte := |o.value|;
    var b := [o.tag, n] + o.value + rest;
    assert b[0] == o.tag && b[1] == n;
    assert Take(b[2..], n) == o.value;
    assert Drop(b, 2 + n as int) == rest;
  }

  /** Reading inverts encoding. */
  lemma {:induction false} ObjectsRoundTrip(objects: seq<Object>)
    requires Short(objects)
    ensures ObjectsIn(Encode(objects)) == objects
    decreases |objects|
  {
    hide ObjectsIn;
    if objects != [] {
      FirstObject(objects[0], Encode(objects[1..]));
      ObjectsRoundTrip(objects[1..]);
    } else {
      NoObjects();
    }
  }

  lemma NoObjects()
    ensures ObjectsIn([]) == []
  {
  }

  lemma ObjectsOf(b: bytes)
    ensures |b| < 2 ==> ObjectsIn(b) == []
    ensures |b| >= 2 ==>
              && ObjectsIn(b) != [] && ObjectsIn(b)[0] == Object(b[0], Take(b[2..], b[1]))
              && ObjectsIn(b)[1..] == ObjectsIn(Drop(b, 2 + b[1] as int))
  {
  }

  /** A walk finds the first value among the objects that one reads from where it starts, up to where it ends. */
  lemma {:induction false} WalkReads(b: bytes, end: nat, want: byte)
    ensures FirstTagged(b, 0, end, want) == FirstValue(Begun(ObjectsIn(b), end), want)
    decreases |b|
  {
    hide ObjectsIn;
    ObjectsOf(b);
    if |b| >= 2 && end > 0 {
      var next := 2 + b[1] as int;
      if next <= |b| && next <= end {
        GoesOn(b, next, end, want);
        WalkReads(Drop(b, next), end - next, want);
      } else {
        ObjectsOf(Drop(b, next));
      }
    }
  }

  lemma GoesOn(b: bytes, i: nat, end: nat, want: byte)
    requires i <= |b| && i <= end
    ensures FirstTagged(b, i, end, want) == FirstTagged(Drop(b, i), 0, end - i, want)
  {
    assert Take(b, i) + Drop(b, i) == b;
    WalkMoves(Take(b, i), Drop(b, i), 0, end - i, want);
  }

  /** All the objects begin before the end. */
  lemma {:induction false} AllBegun(b: bytes)
    ensures Begun(ObjectsIn(b), |b|) == ObjectsIn(b)
    decreases |b|
  {
    hide ObjectsIn;
    ObjectsOf(b);
    if |b| >= 2 {
      AllBegun(Drop(b, 2 + b[1] as int));
    }
  }

  /** So does one to the end of the bytes. */
  lemma WalkToEnd(b: bytes, i: nat, want: byte)
    ensures FirstTagged(b, i, |b|, want) == FirstValue(ObjectsIn(Drop(b, i)), want)
  {
    hide ObjectsIn, Begun, FirstValue;
    if i <= |b| {
      GoesOn(b, i, |b|, want);
      WalkReads(Drop(b, i), |b| - i, want);
      AllBegun(Drop(b, i));
    } else {
      assert Drop(b, i) == [];
      NoneFound(want);
    }
  }

  lemma NoneFound(want: byte)
    ensures FirstValue(ObjectsIn([]), want) == None
  {
  }

  lemma FcpReads(b: bytes)
    ensures |b| >= 2 ==> FirstTagged(b, FcpStart(b), |b|, DF_NAME)
                         == FirstValue(ObjectsIn(Drop(b, if b[1] > 0x80 then 3 else 2)), 0x84)
  {
    if |b| >= 2 {
      WalkToEnd(b, FcpStart(b), DF_NAME);
    }
  }

  lemma DirReads(b: bytes)
    ensures |b| >= 4 ==> FirstTagged(b, 2, 2 + b[1] as int, APPLICATION_IDENTIFIER)
                         == FirstValue(Begun(ObjectsIn(b[2..]), b[1] as int), 0x4F)
  {
    if |b| >= 4 {
      GoesOn(b, 2, 2 + b[1] as int, APPLICATION_IDENTIFIER);
      assert Drop(b, 2) == b[2..];
      WalkReads(b[2..], b[1] as int, APPLICATION_IDENTIFIER);
    }
  }

  /**
   When the first DF name of such a template is found: exactly if it is the first among the objects that one reads where
   the walk goes on, or, where the length ends in the tag of a DF name, if it is the bytes after the first tag.
   */
  lemma {:induction false} TwoByteNameIsFound(hi: byte, lo: byte, objects: seq<Object>)
    requires Short(objects) && hi > 0 && 256 * hi as int + lo as int == |Encode(objects)|
    ensures var content := Encode(objects);
            var b := [FCP_TEMPLATE, 0x82, hi, lo] + content;
            var seen := ObjectsIn(Drop(content, 1 + objects[0].tag as int));
            FirstTagged(b, FcpStart(b), |b|, DF_NAME) == FirstValue(objects, DF_NAME) <==>
            FirstValue(objects, DF_NAME)
            == if lo == DF_NAME then Some(Take(content[1..], objects[0].tag)) else FirstValue(seen, DF_NAME)
  {
    hide FirstTagged, ObjectsIn;
    var content := Encode(objects);
    TwoByteLengthIsMisread(hi, lo, content);
    assert content[0] == objects[0].tag;
    WalkToEnd(content, 1 + content[0] as int, DF_NAME);
  }

  /**
   For instance where the first object is one byte shorter than its tag says, the walk goes on at the second object, and
   nothing is missed if the first was no DF name.
   */
  lemma {:induction false} SecondObjectIsSeen(hi: byte, lo: byte, objects: seq<Object>)
    requires Short(objects) && hi > 0 && 256 * hi as int + lo as int == |Encode(objects)| && lo != DF_NAME
    requires |objects[0].value| + 1 == objects[0].tag as int && objects[0].tag != DF_NAME
    ensures var b := [FCP_TEMPLATE, 0x82, hi, lo] + Encode(objects);
            FirstTagged(b, FcpStart(b), |b|, DF_NAME) == FirstValue(objects, DF_NAME)
  {
    hide FirstTagged, ObjectsIn;
    var content, head := Encode(objects), [objects[0].tag, |objects[0].value|] + objects[0].value;
    assert content == head + Encode(objects[1..]);
    assert Drop(content, |head|) == Encode(objects[1..]);
    ObjectsRoundTrip(objects[1..]);
    TwoByteNameIsFound(hi, lo, objects);
  }

  /** In this template of 260 bytes the DF name is not found. */
  lemma HiddenDfName()
    ensures var objects := [Object(DF_NAME, Zeros(254))];
            var b := [FCP_TEMPLATE, 0x82, 1, 0] + Encode(objects);
            && |Encode(objects)| == 256 && FirstValue(objects, DF_NAME) == Some(Zeros(254))
            && FirstTagged(b, FcpStart(b), |b|, DF_NAME) == None
  {
    var objects := [Object(DF_NAME, Zeros(254))];
    var b := [FCP_TEMPLATE, 0x82, 1, 0] + Encode(objects);
    assert Encode(objects[1..]) == [];
    assert b == [FCP_TEMPLATE, 0x82, 1, 0, DF_NAME, 254] + Zeros(254);
    NoNameInZeros(b, 137);
  }

  lemma {:induction false} NoNameInZeros(b: bytes, i: nat)
    requires forall k :: i <= k < |b| ==> b[k] == 0
    ensures FirstTagged(b, i, |b|, DF_NAME) == None
    decreases |b| - i
  {
    if i + 1 < |b| {
      NoNameInZeros(b, i + 2);
    }
  }

  /** An application template in a record of EF.DIR, filled up with anything: its first identifier is found. */
  lemma {:induction false} DirIdentifierIsFound(objects: seq<Object>, filling: bytes)
    requires Short(objects) && |Encode(objects)| <= 0x7F
    ensures var b := [APPLICATION_TEMPLATE, |Encode(objects)|] + Encode(objects) + filling;
            (if |b| < 4 then None else FirstTagged(b, 2, 2 + b[1] as int, APPLICATION_IDENTIFIER))
            == FirstValue(objects, APPLICATION_IDENTIFIER)
  {
    WalkFindsFirst([APPLICATION_TEMPLATE, |Encode(objects)|], objects, filling, APPLICATION_IDENTIFIER);
  }
}
