/** The octets of PPPoE discovery packets, position by position, and exactly which octets parse to which packets. */
module PppoeWire {
  import opened Bytes
  import opened P = Pppoe

  // ---------- Printing ----------

  function Tags(p: P.Packet): seq<Octet> { TagListBytes(p.tags) }

  /** A packet, octet by octet (section 4 of RFC 2516): the destination first, version and type 0x11. */
  lemma PacketOctets(p: P.Packet)
    ensures var n := |Tags(p)| % 0x1_0000;
            ToBytes(p)
            == p.dst + p.src
               + [0x88, 0x63, 0x11, p.code, p.sid / 256, p.sid % 256, n / 256, n % 256] + Tags(p)
  {
  }

  /** A tag: type, length and value. */
  lemma TagOctets(t: Tag)
    requires |t.data| < 0x1_0000
    ensures TagBytes(t) == [t.typ / 256, t.typ % 256, |t.data| / 256, |t.data| % 256] + t.data
  {
  }

  predicate HasTags(p: P.Packet, types: set<U16>) { forall t | t in types :: HasTag(t, p.tags) }

  /**
   The valid packets (section 5 of RFC 2516): an initiation or request without
   session names a service, an offer also its concentrator; a confirmation names
   its service, or an error if there is no session; a termination has a session.
   */
  lemma ValidExactly(p: P.Packet)
    ensures Valid(p) <==>
            || (p.code == 0x09 && p.sid == 0 && HasTags(p, {0x0101}))
            || (p.code == 0x07 && p.sid == 0 && HasTags(p, {0x0101, 0x0102}))
            || (p.code == 0x19 && p.sid == 0 && HasTags(p, {0x0101}))
            || (p.code == 0x65 && p.sid == 0 && HasTags(p, {0x0201}))
            || (p.code == 0x65 && p.sid != 0 && HasTags(p, {0x0101}))
            || (p.code == 0xa7 && p.sid != 0)
  {
    HasOne(p, 0x0101);
    HasOne(p, 0x0201);
    HasTwo(p, 0x0101, 0x0102);
  }

  lemma HasOne(p: P.Packet, t: U16)
    ensures HasTags(p, {t}) <==> HasTag(t, p.tags)
  {
    if HasTags(p, {t}) {
      assert t in {t};
    }
  }

  lemma HasTwo(p: P.Packet, t: U16, u: U16)
    ensures HasTags(p, {t, u}) <==> HasTag(t, p.tags) && HasTag(u, p.tags)
  {
    if HasTags(p, {t, u}) {
      assert t in {t, u} && u in {t, u};
    }
  }

  // ---------- Parsing tags ----------

  predicate Small(tags: seq<Tag>) { forall i | 0 <= i < |tags| :: |tags[i].data| < 0x1_0000 }

  // The octets are these tags and less than the header of one more.
  predicate HoldsTags(b: seq<Octet>, tags: seq<Tag>)
  {
    var n := |TagListBytes(tags)|;
    Small(tags) && n <= |b| < n + 4 && b[..n] == TagListBytes(tags)
  }

  lemma Regroup(x: seq<Octet>, y: seq<Octet>, z: seq<Octet>)
    ensures (x + y) + z == x + (y + z)
  {
  }

  lemma {:induction false} TagsParse(b: seq<Octet>, tags: seq<Tag>, tail: seq<Octet>)
    requires Small(tags) && |tail| < 4 && b == TagListBytes(tags) + tail
    ensures ParseTags(b) == Ok(tags)
    decreases |tags|
  {
    if tags == [] {
      assert b == tail;
    } else {
      var others := TagListBytes(tags[1..]);
      Regroup(TagBytes(tags[0]), others, tail);
      TagsParse(others + tail, tags[1..], tail);
      TagRoundTrip(tags[0], others + tail);
      assert [tags[0]] + tags[1..] == tags;
    }
  }

  lemma HoldsMoreTags(b: seq<Octet>, t: Tag, rest: seq<Octet>, tags: seq<Tag>)
    requires |t.data| < 0x1_0000 && HoldsTags(rest, tags) && b == TagBytes(t) + rest
    ensures HoldsTags(b, [t] + tags)
  {
    var all := [t] + tags;
    assert all[1..] == tags;
    assert TagListBytes(all) == TagBytes(t) + TagListBytes(tags);
    var n := |TagListBytes(tags)|;
    assert b[..|TagBytes(t)| + n] == TagBytes(t) + rest[..n];
  }

  lemma FirstTag(b: seq<Octet>, end: nat)
    requires |b| >= 4 && end == 4 + GetU16(b, 2) && end <= |b|
    ensures var t := Tag(GetU16(b, 0), b[4..end]); |t.data| < 0x1_0000 && b == TagBytes(t) + b[end..]
  {
    U16BytesOf(b, 0);
    U16BytesOf(b, 2);
    assert b == b[0..2] + b[2..4] + b[4..end] + b[end..];
  }

  lemma {:induction false} ParsedTagsHeld(b: seq<Octet>)
    requires ParseTags(b).Ok?
    ensures HoldsTags(b, ParseTags(b).value)
    decreases |b|
  {
    if |b| >= 4 {
      var end: nat := 4 + GetU16(b, 2);
      ParsedTagsHeld(b[end..]);
      FirstTag(b, end);
      HoldsMoreTags(b, Tag(GetU16(b, 0), b[4..end]), b[end..], ParseTags(b[end..]).value);
    }
  }

  /** Octets parse to a list of tags exactly if they are those tags and less than one more header. */
  lemma TagsParseExactly(b: seq<Octet>, tags: seq<Tag>)
    ensures ParseTags(b) == Ok(tags) <==> HoldsTags(b, tags)
  {
    if ParseTags(b) == Ok(tags) {
      ParsedTagsHeld(b);
    }
    if HoldsTags(b, tags) {
      var n := |TagListBytes(tags)|;
      assert b == b[..n] + b[n..];
      TagsParse(b, tags, b[n..]);
    }
  }

  // ---------- Parsing frames ----------

  // What a buffer is made of: discovery packets, each with any version octet and up to three octets behind its
  // tags, and frames of other Ethernet types.
  datatype Item = Discovery(p: P.Packet, verType: Octet, slack: seq<Octet>) | Foreign(octets: seq<Octet>)

  predicate ItemOk(i: Item)
  {
    match i
    case Discovery(p, _, slack) => Valid(p) && Small(p.tags) && |slack| < 4 && |Tags(p)| + |slack| < 0x1_0000
    case Foreign(o) => |o| >= 20 && |o| == 20 + o[18] as int * 256 + o[19] && o[12..14] != [0x88, 0x63]
  }

  function Head(dst: HwAddr, src: HwAddr, verType: Octet, code: Octet, sid: U16, n: U16): (h: seq<Octet>)
    ensures |h| == 20
  {
    dst + src + [0x88, 0x63, verType, code, sid / 256, sid % 256, n / 256, n % 256]
  }

  function ItemBytes(i: Item): seq<Octet>
    requires ItemOk(i)
  {
    match i
    case Discovery(p, verType, slack) =>
      Head(p.dst, p.src, verType, p.code, p.sid, |Tags(p)| + |slack|) + (Tags(p) + slack)
    case Foreign(o) => o
  }

  function ItemPackets(i: Item): seq<P.Packet> { if i.Discovery? then [i.p] else [] }

  lemma DiscoveryThenRest(i: Item, rest: seq<Octet>)
    requires ItemOk(i) && i.Discovery?
    ensures ParsePackets(ItemBytes(i) + rest) == Prepend(i.p, ParsePackets(rest))
  {
    var b, body := ItemBytes(i) + rest, Tags(i.p) + i.slack;
    var n := |body|;
    assert b[0..6] == i.p.dst && b[6..12] == i.p.src && b[15] == i.p.code;
    assert GetU16(b, 12) == 0x8863 && GetU16(b, 16) == i.p.sid && GetU16(b, 18) == n;
    assert b[20..20 + n] == body && b[20 + n..] == rest;
    TagsParse(body, i.p.tags, i.slack);
  }

  lemma ForeignThenRest(o: seq<Octet>, rest: seq<Octet>)
    requires ItemOk(Foreign(o))
    ensures ParsePackets(o + rest) == ParsePackets(rest)
  {
    var b := o + rest;
    assert GetU16(b, 18) == |o| - 20 && b[|o|..] == rest;
    assert o[12..14] == [o[12], o[13]];
    assert GetU16(b, 12) != 0x8863;
  }

  lemma ItemThenRest(b: seq<Octet>, i: Item, rest: seq<Octet>, ps: seq<P.Packet>)
    requires ItemOk(i) && b == ItemBytes(i) + rest && ParsePackets(rest) == Ok(ps)
    ensures ParsePackets(b) == Ok(ItemPackets(i) + ps)
  {
    match i
    case Discovery(_, _, _) => DiscoveryThenRest(i, rest);
    case Foreign(o) =>
      ForeignThenRest(o, rest);
      assert [] + ps == ps;
  }

  predicate AreItems(items: seq<Item>) { forall i | 0 <= i < |items| :: ItemOk(items[i]) }

  function ItemsBytes(items: seq<Item>): seq<Octet>
    requires AreItems(items)
    decreases |items|
  {
    if items == [] then [] else ItemBytes(items[0]) + ItemsBytes(items[1..])
  }

  function ItemsPackets(items: seq<Item>): seq<P.Packet>
    decreases |items|
  {
    if items == [] then [] else ItemPackets(items[0]) + ItemsPackets(items[1..])
  }

  predicate Made(b: seq<Octet>, items: seq<Item>, tail: seq<Octet>)
  {
    AreItems(items) && b == ItemsBytes(items) + tail
  }

  // The octets are items and less than a header, and these are the packets among the items.
  ghost predicate Holds(b: seq<Octet>, ps: seq<P.Packet>)
  {
    exists items: seq<Item>, tail: seq<Octet> :: Made(b, items, tail) && |tail| < 20 && ItemsPackets(items) == ps
  }

  lemma {:induction false} ItemsParse(b: seq<Octet>, items: seq<Item>, tail: seq<Octet>)
    requires Made(b, items, tail) && |tail| < 20
    ensures ParsePackets(b) == Ok(ItemsPackets(items))
    decreases |items|
  {
    if items == [] {
      assert b == tail;
    } else {
      var others := ItemsBytes(items[1..]);
      Regroup(ItemBytes(items[0]), others, tail);
      ItemsParse(others + tail, items[1..], tail);
      ItemThenRest(b, items[0], others + tail, ItemsPackets(items[1..]));
    }
  }

  lemma HoldsMore(b: seq<Octet>, item: Item, rest: seq<Octet>, ps: seq<P.Packet>)
    requires ItemOk(item) && Holds(rest, ps) && b == ItemBytes(item) + rest
    ensures Holds(b, ItemPackets(item) + ps)
  {
    var items: seq<Item>, tail: seq<Octet> :| Made(rest, items, tail) && |tail| < 20 && ItemsPackets(items) == ps;
    var all := [item] + items;
    assert all[1..] == items;
    Regroup(ItemBytes(item), ItemsBytes(items), tail);
    assert Made(b, all, tail) && ItemsPackets(all) == ItemPackets(item) + ps;
  }

  // The first frame of a buffer, as an item.
  lemma FirstItem(b: seq<Octet>, length: nat) returns (item: Item)
    requires |b| >= 20 && length == GetU16(b, 18) && 20 + length <= |b|
    requires GetU16(b, 12) == ETH_TYPE_DISCOVERY ==> PacketFrom(b, length).Ok?
    ensures ItemOk(item) && b == ItemBytes(item) + b[20 + length..]
    ensures ItemPackets(item) == if GetU16(b, 12) == ETH_TYPE_DISCOVERY then [PacketFrom(b, length).value] else []
  {
    if GetU16(b, 12) == ETH_TYPE_DISCOVERY {
      item := FirstDiscovery(b, length);
    } else {
      item := Foreign(b[..20 + length]);
      assert item.octets[12..14] == [b[12], b[13]];
      assert b == b[..20 + length] + b[20 + length..];
    }
  }

  lemma FirstDiscovery(b: seq<Octet>, length: nat) returns (item: Item)
    requires |b| >= 20 && length == GetU16(b, 18) && 20 + length <= |b|
    requires GetU16(b, 12) == ETH_TYPE_DISCOVERY && PacketFrom(b, length).Ok?
    ensures ItemOk(item) && item.Discovery? && item.p == PacketFrom(b, length).value
    ensures b == ItemBytes(item) + b[20 + length..]
  {
    var p, body := PacketFrom(b, length).value, b[20..20 + length];
    TagsParseExactly(body, p.tags);
    var n := |Tags(p)|;
    item := Discovery(p, b[14], body[n..]);
    assert body == Tags(p) + body[n..];
    DiscoveryIs(item, b, length);
  }

  lemma DiscoveryIs(item: Item, b: seq<Octet>, length: nat)
    requires |b| >= 20 && length == GetU16(b, 18) && 20 + length <= |b| && GetU16(b, 12) == ETH_TYPE_DISCOVERY
    requires ItemOk(item) && item.Discovery? && item.verType == b[14]
    requires item.p.dst == b[0..6] && item.p.src == b[6..12] && item.p.code == b[15] && item.p.sid == GetU16(b, 16)
    requires Tags(item.p) + item.slack == b[20..20 + length]
    ensures b == ItemBytes(item) + b[20 + length..]
  {
    HeadOf(b);
    Cut(b, length);
  }

  lemma Cut(b: seq<Octet>, length: nat)
    requires 20 + length <= |b|
    ensures b == (b[..20] + b[20..20 + length]) + b[20 + length..]
  {
  }

  lemma HeadOf(b: seq<Octet>)
    requires |b| >= 20 && GetU16(b, 12) == ETH_TYPE_DISCOVERY
    ensures Head(b[0..6], b[6..12], b[14], b[15], GetU16(b, 16), GetU16(b, 18)) == b[..20]
  {
    assert b[12] == 0x88 && b[13] == 0x63;
    assert b[..20] == b[0..6] + b[6..12] + [b[12], b[13], b[14], b[15], b[16], b[17], b[18], b[19]];
  }

  lemma {:induction false} ParsedHolds(b: seq<Octet>)
    requires ParsePackets(b).Ok?
    ensures Holds(b, ParsePackets(b).value)
    decreases |b|
  {
    if |b| < 20 {
      assert Made(b, [], b) && ItemsPackets([]) == [];
    } else {
      var length: nat := GetU16(b, 18);
      var rest := b[20 + length..];
      ParsedHolds(rest);
      var item := FirstItem(b, length);
      HoldsMore(b, item, rest, ParsePackets(rest).value);
      assert [] + ParsePackets(rest).value == ParsePackets(rest).value;
    }
  }

  /**
   The parser returns a list of packets exactly for the octets of those packets,
   among frames of other Ethernet types and with less than a header at the end;
   everything else is an error.
   */
  lemma PacketsParseExactly(b: seq<Octet>, ps: seq<P.Packet>)
    ensures ParsePackets(b) == Ok(ps) <==> Holds(b, ps)
    ensures ParsePackets(b) == Err <==> forall qs: seq<P.Packet> :: !Holds(b, qs)
  {
    forall qs: seq<P.Packet>
      ensures ParsePackets(b) == Ok(qs) <==> Holds(b, qs)
    {
      if ParsePackets(b) == Ok(qs) {
        ParsedHolds(b);
      }
      if Holds(b, qs) {
        var items: seq<Item>, tail: seq<Octet> :| Made(b, items, tail) && |tail| < 20 && ItemsPackets(items) == qs;
        ItemsParse(b, items, tail);
      }
    }
    if ParsePackets(b).Ok? {
      assert Holds(b, ParsePackets(b).value);
    }
  }
}
