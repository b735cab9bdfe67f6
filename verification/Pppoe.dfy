/**
 PPPoE discovery packets (sections 4 and 5 of RFC 2516): the printer, the
 parser with its cursor loops, and the laws that make them inverse.
 */
module Pppoe {
  import opened Bytes

  const TAG_MIN_LENGTH := 4
  const PACKET_MIN_LENGTH := 20
  const ETH_TYPE_DISCOVERY: U16 := 0x8863

  const PADI: Octet := 0x09
  const PADO: Octet := 0x07
  const PADR: Octet := 0x19
  const PADS: Octet := 0x65
  const PADT: Octet := 0xa7

  const TAG_SERVICE_NAME: U16 := 0x0101
  const TAG_AC_NAME: U16 := 0x0102
  const TAG_SERVICE_NAME_ERROR: U16 := 0x0201

  type HwAddr = a: seq<Octet> | |a| == 6 witness [0, 0, 0, 0, 0, 0]

  datatype Tag = Tag(typ: U16, data: seq<Octet>)

  datatype Packet = Packet(src: HwAddr, dst: HwAddr, code: Octet, sid: U16, tags: seq<Tag>)

  // ---------- Validation ----------

  predicate HasTag(typ: U16, tags: seq<Tag>)
  {
    exists i :: 0 <= i < |tags| && tags[i].typ == typ
  }

  predicate KnownCode(code: Octet)
  {
    code == PADI || code == PADO || code == PADR || code == PADS || code == PADT
  }

  // The requirements of RFC 2516 on session identifiers and mandatory tags.
  predicate Valid(p: Packet)
  {
    && KnownCode(p.code)
    && (p.code == PADI || p.code == PADO || p.code == PADR ==> p.sid == 0 && HasTag(TAG_SERVICE_NAME, p.tags))
    && (p.code == PADO ==> HasTag(TAG_AC_NAME, p.tags))
    && (p.code == PADS ==> HasTag(if p.sid == 0 then TAG_SERVICE_NAME_ERROR else TAG_SERVICE_NAME, p.tags))
    && (p.code == PADT ==> p.sid != 0)
  }

  method FindTag(typ: U16, tags: seq<Tag>) returns (found: bool, tag: Tag)
    ensures found <==> HasTag(typ, tags)
    ensures found ==> exists i :: 0 <= i < |tags| && tag == tags[i] && tag.typ == typ
                                  && forall j | 0 <= j < i :: tags[j].typ != typ
  {
    tag := Tag(0, []);
    for i := 0 to |tags|
      invariant forall j | 0 <= j < i :: tags[j].typ != typ
    {
      if tags[i].typ == typ {
        return true, tags[i];
      }
    }
    return false, tag;
  }

  // What each packet must carry; PADS depends on the session identifier.
  function Mandatory(code: Octet, sid: U16): seq<U16>
  {
    if code == PADI || code == PADR then [TAG_SERVICE_NAME]
    else if code == PADO then [TAG_SERVICE_NAME, TAG_AC_NAME]
    else if code == PADS then (if sid == 0 then [TAG_SERVICE_NAME_ERROR] else [TAG_SERVICE_NAME])
    else []
  }

  method Validate(p: Packet) returns (ok: bool)
    ensures ok <==> Valid(p)
  {
    if !KnownCode(p.code) {
      return false;
    }
    var zeroSessionID := p.code != PADT && (p.code == PADS ==> p.sid == 0);
    if zeroSessionID != (p.sid == 0) {
      return false;
    }
    var mandatory := Mandatory(p.code, p.sid);
    if |p.tags| < |mandatory| {
      assert |p.tags| == 1 ==> forall t | HasTag(t, p.tags) :: t == p.tags[0].typ;
      return false;
    }
    for i := 0 to |mandatory|
      invariant forall j | 0 <= j < i :: HasTag(mandatory[j], p.tags)
    {
      var found, _ := FindTag(mandatory[i], p.tags);
      if !found {
        return false;
      }
    }
    assert |mandatory| > 0 ==> HasTag(mandatory[0], p.tags);
    assert |mandatory| > 1 ==> HasTag(mandatory[1], p.tags);
    return true;
  }

  // ---------- Printing ----------

  function TagBytes(t: Tag): seq<Octet>
  {
    U16Bytes(t.typ) + U16Bytes(|t.data| % 0x10000) + t.data
  }

  function TagListBytes(tags: seq<Tag>): seq<Octet>
    decreases |tags|
  {
    if tags == [] then [] else TagBytes(tags[0]) + TagListBytes(tags[1..])
  }

  // The 20 octets of Ethernet and PPPoE header.
  function HeaderBytes(p: Packet, length: U16): (b: seq<Octet>)
    ensures |b| == 20
  {
    p.dst + p.src + U16Bytes(ETH_TYPE_DISCOVERY) + [0x11] + [p.code] + U16Bytes(p.sid) + U16Bytes(length)
  }

  function ToBytes(p: Packet): seq<Octet>
  {
    var tags := TagListBytes(p.tags);
    HeaderBytes(p, |tags| % 0x10000) + tags
  }

  lemma {:induction false} TagListBytesAppend(tags: seq<Tag>, t: Tag)
    ensures TagListBytes(tags + [t]) == TagListBytes(tags) + TagBytes(t)
    decreases |tags|
  {
    if tags == [] {
      assert ([] + [t])[1..] == [];
    } else {
      assert (tags + [t])[1..] == tags[1..] + [t];
      TagListBytesAppend(tags[1..], t);
    }
  }

  method EncodeTagList(tags: seq<Tag>) returns (encoded: seq<Octet>)
    ensures encoded == TagListBytes(tags)
  {
    encoded := [];
    for i := 0 to |tags|
      invariant encoded == TagListBytes(tags[..i])
    {
      assert tags[..i + 1] == tags[..i] + [tags[i]];
      TagListBytesAppend(tags[..i], tags[i]);
      encoded := encoded + TagBytes(tags[i]);
    }
    assert tags[..|tags|] == tags;
  }

  // ---------- Parsing ----------

  function ParseTags(b: seq<Octet>): (r: Result<seq<Tag>>)
    ensures !r.Panic?
    decreases |b|
  {
    if |b| < TAG_MIN_LENGTH then Ok([])
    else
      var length := GetU16(b, 2);
      if length > |b| - 4 then Err
      else Prepend(Tag(GetU16(b, 0), b[4..4 + length]), ParseTags(b[4 + length..]))
  }

  // One packet from its header and payload; anything but a valid discovery packet is an error.
  function PacketFrom(b: seq<Octet>, length: nat): Result<Packet>
    requires 20 + length <= |b|
  {
    if !KnownCode(b[15]) then Err
    else
      match ParseTags(b[20..20 + length])
      case Ok(tags) =>
        var p := Packet(b[6..12], b[0..6], b[15], GetU16(b, 16), tags);
        if Valid(p) then Ok(p) else Err
      case _ => Err
  }

  function ParsePackets(b: seq<Octet>): (r: Result<seq<Packet>>)
    ensures !r.Panic?
    decreases |b|
  {
    if |b| < PACKET_MIN_LENGTH then Ok([])
    else
      var length := GetU16(b, 18);
      if length > |b| - 20 then Err
      else if GetU16(b, 12) != ETH_TYPE_DISCOVERY then ParsePackets(b[20 + length..])
      else
        match PacketFrom(b, length)
        case Ok(p) => Prepend(p, ParsePackets(b[20 + length..]))
        case _ => Err
  }

  // ---------- The cursor loops compute the parsers ----------

  // One turn of the tag loop.
  lemma ParseTagsAt(buf: seq<Octet>, cursor: nat)
    requires cursor + 4 <= |buf|
    ensures ParseTags(buf[cursor..]) ==
            var end := cursor + 4 + GetU16(buf, cursor + 2);
            if end > |buf| then Err
            else Prepend(Tag(GetU16(buf, cursor), buf[cursor + 4..end]), ParseTags(buf[end..]))
  {
    var length: nat := GetU16(buf, cursor + 2);
    assert GetU16(buf[cursor..], 0) == GetU16(buf, cursor) && GetU16(buf[cursor..], 2) == length;
    if cursor + 4 + length <= |buf| {
      SliceOfSlice(buf, cursor, 4, 4 + length);
    }
  }

  method NewTagListFromBuffer(buf: seq<Octet>) returns (r: Result<seq<Tag>>)
    ensures r == ParseTags(buf)
  {
    var tags: seq<Tag> := [];
    var cursor := 0;
    assert buf[0..] == buf;
    AppendedNothing(ParseTags(buf));
    while |buf| - cursor >= TAG_MIN_LENGTH
      invariant 0 <= cursor <= |buf|
      invariant ParseTags(buf) == Appended(tags, ParseTags(buf[cursor..]))
      decreases |buf| - cursor
    {
      ParseTagsAt(buf, cursor);
      var typ, length := GetU16(buf, cursor), GetU16(buf, cursor + 2);
      var payload := cursor + 4;
      if length > |buf| - payload {
        return Err;
      }
      var tag := Tag(typ, buf[payload..payload + length]);
      AppendedPrepend(tags, tag, ParseTags(buf[payload + length..]));
      tags := tags + [tag];
      cursor := payload + length;
    }
    assert ParseTags(buf[cursor..]) == Ok([]) && tags + [] == tags;
    return Ok(tags);
  }

  method NewPacketFromBuffer(b: seq<Octet>, length: nat) returns (r: Result<Packet>)
    requires 20 + length <= |b|
    ensures r == PacketFrom(b, length)
  {
    if !KnownCode(b[15]) {
      return Err;
    }
    var tags := NewTagListFromBuffer(b[20..20 + length]);
    if !tags.Ok? {
      return Err;
    }
    var p := Packet(b[6..12], b[0..6], b[15], GetU16(b, 16), tags.value);
    var ok := Validate(p);
    return if ok then Ok(p) else Err;
  }

  // One turn of the packet loop.
  lemma ParsePacketsAt(b: seq<Octet>, cursor: nat)
    requires cursor + 20 <= |b|
    ensures var rest := b[cursor..];
            var length: nat := GetU16(rest, 18);
            ParsePackets(rest) ==
            if cursor + 20 + length > |b| then Err
            else if GetU16(rest, 12) != ETH_TYPE_DISCOVERY then ParsePackets(b[cursor + 20 + length..])
            else match PacketFrom(rest, length)
                 case Ok(p) => Prepend(p, ParsePackets(b[cursor + 20 + length..]))
                 case _ => Err
  {
    var length: nat := GetU16(b[cursor..], 18);
    if cursor + 20 + length <= |b| {
      SliceOfSlice(b, cursor, 20, 20 + length);
    }
  }

  method ParsePacketBuffer(b: seq<Octet>) returns (r: Result<seq<Packet>>)
    ensures r == ParsePackets(b)
  {
    var packets: seq<Packet> := [];
    var cursor := 0;
    assert b[0..] == b;
    AppendedNothing(ParsePackets(b));
    while |b| - cursor >= PACKET_MIN_LENGTH
      invariant 0 <= cursor <= |b|
      invariant ParsePackets(b) == Appended(packets, ParsePackets(b[cursor..]))
      decreases |b| - cursor
    {
      ParsePacketsAt(b, cursor);
      var rest := b[cursor..];
      var length := GetU16(rest, 18);
      if length > |rest| - 20 {
        return Err;
      }
      var next := cursor + 20 + length;
      if GetU16(rest, 12) == ETH_TYPE_DISCOVERY {
        var packet := NewPacketFromBuffer(rest, length);
        if !packet.Ok? {
          return Err;
        }
        assert ParsePackets(rest) == Prepend(packet.value, ParsePackets(b[next..]));
        AppendedPrepend(packets, packet.value, ParsePackets(b[next..]));
        packets := packets + [packet.value];
      }
      cursor := next;
    }
    assert ParsePackets(b[cursor..]) == Ok([]) && packets + [] == packets;
    return Ok(packets);
  }

  // ---------- Laws ----------

  // The packets the wire can carry.
  predicate WellFormed(p: Packet) { Valid(p) && |TagListBytes(p.tags)| < 0x10000 }

  function EncodeAll(ps: seq<Packet>): seq<Octet>
    decreases |ps|
  {
    if ps == [] then [] else ToBytes(ps[0]) + EncodeAll(ps[1..])
  }

  lemma TagRoundTrip(t: Tag, rest: seq<Octet>)
    requires |t.data| < 0x10000
    ensures ParseTags(TagBytes(t) + rest) == Prepend(t, ParseTags(rest))
  {
  }

  lemma {:induction false} TagListRoundTrip(tags: seq<Tag>)
    requires |TagListBytes(tags)| < 0x10000
    ensures ParseTags(TagListBytes(tags)) == Ok(tags)
    decreases |tags|
  {
    if tags != [] {
      TagListRoundTrip(tags[1..]);
      TagRoundTrip(tags[0], TagListBytes(tags[1..]));
      assert [tags[0]] + tags[1..] == tags;
    }
  }

  lemma HeaderFields(p: Packet, length: U16, rest: seq<Octet>)
    ensures var b := HeaderBytes(p, length) + rest;
            && b[0..6] == p.dst && b[6..12] == p.src && b[15] == p.code
            && GetU16(b, 12) == ETH_TYPE_DISCOVERY && GetU16(b, 16) == p.sid && GetU16(b, 18) == length
            && b[20..] == rest
  {
  }

  lemma PacketRoundTrip(p: Packet, rest: seq<Octet>)
    requires WellFormed(p)
    ensures ParsePackets(ToBytes(p) + rest) == Prepend(p, ParsePackets(rest))
  {
    var tags := TagListBytes(p.tags);
    var b := ToBytes(p) + rest;
    assert b == HeaderBytes(p, |tags|) + (tags + rest);
    HeaderFields(p, |tags|, tags + rest);
    assert b[20..20 + |tags|] == b[20..][..|tags|] == tags;
    assert b[20 + |tags|..] == b[20..][|tags|..] == rest;
    TagListRoundTrip(p.tags);
  }

  // Octets of padding parse as nothing: they are skipped as packets of a foreign Ethernet type.
  lemma {:induction false} PaddingIsIgnored(n: nat)
    ensures ParsePackets(Zeros(n)) == Ok([])
    decreases n
  {
    if n >= 20 {
      assert Zeros(n)[20..] == Zeros(n - 20);
      PaddingIsIgnored(n - 20);
    }
  }

  /** A frame of well-formed packets, padded with any number of zero octets, parses back to those packets. */
  lemma {:induction false} StreamRoundTrip(ps: seq<Packet>, padding: nat)
    requires forall i | 0 <= i < |ps| :: WellFormed(ps[i])
    ensures ParsePackets(EncodeAll(ps) + Zeros(padding)) == Ok(ps)
    decreases |ps|
  {
    if ps == [] {
      assert EncodeAll(ps) + Zeros(padding) == Zeros(padding);
      PaddingIsIgnored(padding);
    } else {
      var rest := EncodeAll(ps[1..]) + Zeros(padding);
      assert EncodeAll(ps) + Zeros(padding) == ToBytes(ps[0]) + rest;
      PacketRoundTrip(ps[0], rest);
      StreamRoundTrip(ps[1..], padding);
      assert [ps[0]] + ps[1..] == ps;
    }
  }

  lemma {:induction false} ParsedTagsFit(b: seq<Octet>)
    ensures ParseTags(b).Ok? ==> |TagListBytes(ParseTags(b).value)| <= |b|
    decreases |b|
  {
    if |b| >= 4 && ParseTags(b).Ok? {
      var length := GetU16(b, 2);
      ParsedTagsFit(b[4 + length..]);
      var tail := ParseTags(b[4 + length..]);
      var t := Tag(GetU16(b, 0), b[4..4 + length]);
      assert ParseTags(b) == Prepend(t, tail);
      assert ([t] + tail.value)[1..] == tail.value;
    }
  }

  // Whatever the parser accepts, the wire can carry.
  lemma {:induction false} ParsedIsWellFormed(b: seq<Octet>, i: nat)
    requires ParsePackets(b).Ok? && i < |ParsePackets(b).value|
    ensures WellFormed(ParsePackets(b).value[i])
    decreases |b|
  {
    var length := GetU16(b, 18);
    var rest := b[20 + length..];
    if GetU16(b, 12) != ETH_TYPE_DISCOVERY {
      ParsedIsWellFormed(rest, i);
    } else if i == 0 {
      ParsedTagsFit(b[20..20 + length]);
    } else {
      ParsedIsWellFormed(rest, i - 1);
    }
  }

  /** Print-then-parse is the identity on every successful parse. */
  lemma ReparseIsIdentity(b: seq<Octet>)
    requires ParsePackets(b).Ok?
    ensures ParsePackets(EncodeAll(ParsePackets(b).value)) == ParsePackets(b)
  {
    var ps := ParsePackets(b).value;
    forall i | 0 <= i < |ps|
      ensures WellFormed(ps[i])
    {
      ParsedIsWellFormed(b, i);
    }
    StreamRoundTrip(ps, 0);
    assert EncodeAll(ps) + Zeros(0) == EncodeAll(ps);
  }

  /** A packet survives the wire exactly when it is valid and its tags fit the 16-bit length field. */
  lemma RoundTripExactly(p: Packet)
    ensures ParsePackets(ToBytes(p)) == Ok([p]) <==> WellFormed(p)
  {
    if WellFormed(p) {
      StreamRoundTrip([p], 0);
      assert EncodeAll([p][1..]) == [];
      assert EncodeAll([p]) + Zeros(0) == ToBytes(p);
    } else if ParsePackets(ToBytes(p)) == Ok([p]) {
      ParsedIsWellFormed(ToBytes(p), 0);
    }
  }
}
