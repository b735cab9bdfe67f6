/**
 L2TP control messages (section 3.1 of RFC 2661, section 3.2.1 of RFC 3931):
 the message object, its printer, the parser of received buffers, and the exact
 conditions under which one inverts the other.
 */
module Msg {
  import opened Bytes
  import opened Avp

  datatype Header =
    | V2Header(flagsVer: U16, len: U16, tid: U16, sid: U16, ns: U16, nr: U16)
    | V3Header(flagsVer: U16, len: U16, ccid: U32, ns: U16, nr: U16)

  function WithLen(h: Header, len: U16): Header
  {
    match h
    case V2Header(flagsVer, _, tid, sid, ns, nr) => V2Header(flagsVer, len, tid, sid, ns, nr)
    case V3Header(flagsVer, _, ccid, ns, nr) => V3Header(flagsVer, len, ccid, ns, nr)
  }

  datatype Message = Message(hdr: Header, avps: seq<Avp>)

  const MESSAGE_MIN_LEN := 12

  // ---------- Printing ----------

  function HeaderBytes(h: Header): (b: seq<Octet>)
    ensures |b| == 12
  {
    var common := U16Bytes(h.flagsVer) + U16Bytes(h.len);
    var id := if h.V2Header? then U16Bytes(h.tid) + U16Bytes(h.sid) else U32Bytes(h.ccid);
    common + id + U16Bytes(h.ns) + U16Bytes(h.nr)
  }

  function ToBytes(m: Message): seq<Octet> { HeaderBytes(m.hdr) + AvpsBytes(m.avps) }

  // ---------- Parsing ----------

  function GetV2Header(b: seq<Octet>): Header
    requires |b| >= 12
  {
    V2Header(GetU16(b, 0), GetU16(b, 2), GetU16(b, 4), GetU16(b, 6), GetU16(b, 8), GetU16(b, 10))
  }

  function GetV3Header(b: seq<Octet>): Header
    requires |b| >= 12
  {
    V3Header(GetU16(b, 0), GetU16(b, 2), GetU32(b, 4), GetU16(b, 8), GetU16(b, 10))
  }

  // The first attribute of a list must be the Message Type.
  function WithHeader(h: Header, r: Result<seq<Avp>>): Result<Message>
    requires r.Ok? ==> r.value != []
  {
    match r
    case Ok(avps) => if avps[0].hdr.typ == TYPE_MESSAGE then Ok(Message(h, avps)) else Err
    case Err => Err
    case Panic => Panic
  }

  // b is the buffer cut to the length its header declares.
  function BytesToV2(b: seq<Octet>): Result<Message>
    requires |b| >= 4 ==> GetU16(b, 2) == |b|
  {
    if |b| < 12 then Err
    else if |b| == 12 then Ok(Message(GetV2Header(b), []))
    else WithHeader(GetV2Header(b), ParseAvpList(b[12..]))
  }

  function BytesToV3(b: seq<Octet>): Result<Message>
    requires |b| >= 4 ==> GetU16(b, 2) == |b|
  {
    if |b| < 12 then Err else WithHeader(GetV3Header(b), ParseAvpList(b[12..]))
  }

  // The first message of a buffer; the length test subtracts in 16 bits.
  function FirstMessage(b: seq<Octet>): Result<Message>
    requires |b| >= 12
  {
    var len, version := GetU16(b, 2), GetU16(b, 0) % 16;
    if (len - 4) % 0x10000 > |b| - 4 then Err
    else if len < 4 then Err
    else
      assert GetU16(b[..len], 2) == len;
      if version == 2 then BytesToV2(b[..len])
      else if version == 3 then BytesToV3(b[..len])
      else Err
  }

  // Where the parser continues: it has read 4 octets and then steps over the whole length.
  function AfterFirst(b: seq<Octet>): (rest: seq<Octet>)
    requires |b| >= 12
    ensures |rest| < |b|
  {
    var next := 4 + GetU16(b, 2);
    if next > |b| then [] else b[next..]
  }

  function ParseMessages(b: seq<Octet>): Result<seq<Message>>
    decreases |b|
  {
    if |b| < MESSAGE_MIN_LEN then Ok([])
    else
      match FirstMessage(b)
      case Ok(m) => Prepend(m, ParseMessages(AfterFirst(b)))
      case Err => Err
      case Panic => Panic
  }

  method ParseMessageBuffer(b: seq<Octet>) returns (r: Result<seq<Message>>)
    ensures r == ParseMessages(b)
  {
    var messages: seq<Message> := [];
    var cursor := 0;
    assert b[0..] == b;
    AppendedNothing(ParseMessages(b));
    while |b| - cursor >= MESSAGE_MIN_LEN
      invariant 0 <= cursor
      invariant ParseMessages(b)
             == Appended(messages, ParseMessages(if cursor <= |b| then b[cursor..] else []))
      decreases |b| - cursor
    {
      var rest := b[cursor..];
      var len := GetU16(rest, 2);
      var first := FirstMessage(rest);
      if first.Err? { return Err; }
      if first.Panic? { return Panic; }
      assert AfterFirst(rest) == if cursor + 4 + len <= |b| then b[cursor + 4 + len..] else [];
      AppendedPrepend(messages, first.value, ParseMessages(AfterFirst(rest)));
      messages := messages + [first.value];
      cursor := cursor + 4 + len;
    }
    assert messages + [] == messages;
    return Ok(messages);
  }

  // ---------- The message object ----------

  /** A version 2 message under construction. */
  class V2ControlMessage {
    var header: Header
    var avps: seq<Avp>

    ghost function Value(): Message
      reads this
    {
      Message(header, avps)
    }

    constructor (tid: U16, sid: U16)
      ensures Value() == Message(V2Header(0xc802, 12, tid, sid, 0, 0), [])
    {
      header := V2Header(0xc802, 12, tid, sid, 0, 0);
      avps := [];
    }

    method AppendAvp(a: Avp)
      requires header.V2Header?
      modifies this
      ensures Value() == Appending(old(Value()), a)
    {
      avps := avps + [a];
      header := WithLen(header, (header.len + TotalLen(a.hdr)) % 0x10000);
    }

    method SetTransportSeqNum(ns: U16, nr: U16)
      requires header.V2Header?
      modifies this`header
      ensures header == V2Header(old(header.flagsVer), old(header.len), old(header.tid), old(header.sid), ns, nr)
      ensures avps == old(avps)
    {
      header := V2Header(header.flagsVer, header.len, header.tid, header.sid, ns, nr);
    }

    method Encode() returns (b: seq<Octet>)
      ensures b == ToBytes(Value())
    {
      b := HeaderBytes(header);
      for i := 0 to |avps|
        invariant b == HeaderBytes(header) + AvpsBytes(avps[..i])
      {
        assert avps[..i + 1] == avps[..i] + [avps[i]];
        AvpsBytesAppend(avps[..i], avps[i]);
        b := b + AvpHeaderBytes(avps[i].hdr) + avps[i].data;
      }
      assert avps[..|avps|] == avps;
    }
  }

  function Appending(m: Message, a: Avp): Message
    requires m.hdr.V2Header?
  {
    Message(WithLen(m.hdr, (m.hdr.len + TotalLen(a.hdr)) % 0x10000), m.avps + [a])
  }

  // ---------- Well-formed messages ----------

  predicate AllWellFormed(avps: seq<Avp>) { forall i | 0 <= i < |avps| :: WellFormedAvp(avps[i]) }

  // The length field is the encoded size, the version bits select the header, the Message Type comes first;
  // only version 2 has messages without attributes.
  predicate WellFormed(m: Message)
  {
    && AllWellFormed(m.avps)
    && m.hdr.len == 12 + |AvpsBytes(m.avps)|
    && m.hdr.flagsVer % 16 == (if m.hdr.V2Header? then 2 else 3)
    && (m.avps == [] ==> m.hdr.V2Header?)
    && (m.avps != [] ==> m.avps[0].hdr.typ == TYPE_MESSAGE)
  }

  lemma HeaderFields(h: Header, rest: seq<Octet>)
    ensures var b := HeaderBytes(h) + rest;
            && GetU16(b, 0) == h.flagsVer && GetU16(b, 2) == h.len
            && h == (if h.V2Header? then GetV2Header(b) else GetV3Header(b))
            && b[12..] == rest
  {
  }

  lemma HeaderBytesOf(b: seq<Octet>, v2: bool)
    requires |b| >= 12
    ensures HeaderBytes(if v2 then GetV2Header(b) else GetV3Header(b)) == b[..12]
  {
    U16BytesOf(b, 0);
    U16BytesOf(b, 2);
    U16BytesOf(b, 8);
    U16BytesOf(b, 10);
    if v2 {
      U16BytesOf(b, 4);
      U16BytesOf(b, 6);
      assert b[..12] == b[0..2] + b[2..4] + (b[4..6] + b[6..8]) + b[8..10] + b[10..12];
    } else {
      U32BytesOf(b, 4);
      assert b[..12] == b[0..2] + b[2..4] + b[4..8] + b[8..10] + b[10..12];
    }
  }

  lemma ListRoundTrip(avps: seq<Avp>)
    requires AllWellFormed(avps)
    ensures ParseAvps(AvpsBytes(avps)) == Ok(avps)
  {
    AvpsRoundTrip(avps, []);
    assert AvpsBytes(avps) + [] == AvpsBytes(avps);
    assert avps + [] == avps;
  }

  // A buffer that starts with a header and holds at least the octets the header declares.
  lemma FirstFrom(h: Header, body: seq<Octet>, tail: seq<Octet>)
    requires h.len == 12 + |body|
    requires h.flagsVer % 16 == (if h.V2Header? then 2 else 3)
    ensures var b := HeaderBytes(h) + (body + tail);
            && GetU16(b, 2) == h.len
            && (body != [] ==> FirstMessage(b) == WithHeader(h, ParseAvpList(body)))
            && (body == [] && h.V2Header? ==> FirstMessage(b) == Ok(Message(h, [])))
  {
    var b := HeaderBytes(h) + (body + tail);
    HeaderFields(h, body + tail);
    assert b[..h.len] == HeaderBytes(h) + body;
    HeaderFields(h, body);
  }

  lemma FirstRoundTrip(m: Message, tail: seq<Octet>)
    requires WellFormed(m)
    ensures FirstMessage(ToBytes(m) + tail) == Ok(m)
  {
    var body := AvpsBytes(m.avps);
    assert ToBytes(m) + tail == HeaderBytes(m.hdr) + (body + tail);
    FirstFrom(m.hdr, body, tail);
    ListRoundTrip(m.avps);
    assert m.avps != [] ==> body != [];
  }

  /**
   Printing then parsing: the message comes back, and the parser goes on four
   octets into whatever follows it.
   */
  lemma ParseAfterMessage(m: Message, tail: seq<Octet>)
    requires WellFormed(m)
    ensures ParseMessages(ToBytes(m) + tail) == Prepend(m, ParseMessages(if |tail| < 4 then [] else tail[4..]))
  {
    FirstRoundTrip(m, tail);
    LengthField(m, tail);
    ParseAfterFirst(ToBytes(m), tail, m);
  }

  lemma LengthField(m: Message, tail: seq<Octet>)
    ensures GetU16(ToBytes(m) + tail, 2) == m.hdr.len
  {
  }

  lemma ParseAfterFirst(whole: seq<Octet>, tail: seq<Octet>, m: Message)
    requires |whole| >= 12 && GetU16(whole + tail, 2) == |whole| && FirstMessage(whole + tail) == Ok(m)
    ensures ParseMessages(whole + tail) == Prepend(m, ParseMessages(if |tail| < 4 then [] else tail[4..]))
  {
    AfterFirstOf(whole, tail);
  }

  lemma AfterFirstOf(whole: seq<Octet>, tail: seq<Octet>)
    requires |whole| >= 12 && GetU16(whole + tail, 2) == |whole|
    ensures AfterFirst(whole + tail) == if |tail| < 4 then [] else tail[4..]
  {
  }

  // What a parse of one message says about the octets it came from.
  lemma FirstMessageOrigin(b: seq<Octet>)
    requires |b| >= 12 && FirstMessage(b).Ok?
    ensures var m := FirstMessage(b).value;
            && AllWellFormed(m.avps)
            && m.hdr.len == GetU16(b, 2) && 12 + |AvpsBytes(m.avps)| <= m.hdr.len <= |b|
            && m.hdr.flagsVer % 16 == (if m.hdr.V2Header? then 2 else 3)
            && (m.avps == [] ==> m.hdr.V2Header?)
            && (m.avps != [] ==> m.avps[0].hdr.typ == TYPE_MESSAGE)
            && (12 + |AvpsBytes(m.avps)| == m.hdr.len ==> ToBytes(m) == b[..m.hdr.len])
  {
    var m := FirstMessage(b).value;
    var len := GetU16(b, 2);
    var c := b[..len];
    assert GetU16(c, 0) == GetU16(b, 0) && GetU16(c, 2) == len;
    HeaderBytesOf(c, m.hdr.V2Header?);
    if len > 12 || m.hdr.V3Header? {
      ParsedAvps(c[12..]);
    }
    assert c == c[..12] + c[12..];
  }

  /** A message survives a buffer of its own exactly when it is well formed. */
  lemma RoundTripExactly(m: Message)
    ensures ParseMessages(ToBytes(m)) == Ok([m]) <==> WellFormed(m)
  {
    var b := ToBytes(m);
    if WellFormed(m) {
      ParseAfterMessage(m, []);
      assert b + [] == b;
      assert [m] + [] == [m];
    } else if ParseMessages(b) == Ok([m]) {
      assert FirstMessage(b).Ok? && ([FirstMessage(b).value] + ParseMessages(AfterFirst(b)).value)[0] == m;
      FirstMessageOrigin(b);
      assert false;
    }
  }

  /**
   Parsing then printing: the octets of a received message come back exactly
   when its attributes account for its whole declared length, that is, when
   none was skipped and none was cut off.
   */
  lemma ReprintExactly(b: seq<Octet>)
    requires |b| >= 12 && FirstMessage(b).Ok?
    ensures var m := FirstMessage(b).value;
            m.hdr.len <= |b| && (ToBytes(m) == b[..m.hdr.len] <==> 12 + |AvpsBytes(m.avps)| == m.hdr.len)
  {
    FirstMessageOrigin(b);
  }

  // ---------- Buffers of several messages ----------

  function Concatenated(ms: seq<Message>): seq<Octet>
    decreases |ms|
  {
    if ms == [] then [] else ToBytes(ms[0]) + Concatenated(ms[1..])
  }

  // The octets the parser needs to find these messages: four more after each but the last.
  function Span(ms: seq<Message>): nat
    decreases |ms|
  {
    if ms == [] then 0
    else if |ms| == 1 then ms[0].hdr.len
    else ms[0].hdr.len + 4 + Span(ms[1..])
  }

  lemma {:induction false} ParsedSpanFits(b: seq<Octet>)
    requires ParseMessages(b).Ok?
    ensures Span(ParseMessages(b).value) <= |b|
    decreases |b|
  {
    if |b| >= 12 {
      var m, tail := FirstMessage(b).value, ParseMessages(AfterFirst(b)).value;
      FirstMessageOrigin(b);
      ParsedSpanFits(AfterFirst(b));
      assert ParseMessages(b).value == [m] + tail;
      assert ([m] + tail)[1..] == tail;
      if tail != [] {
        assert |AfterFirst(b)| >= 12;
      }
    }
  }

  lemma {:induction false} ConcatenatedLength(ms: seq<Message>)
    requires forall i | 0 <= i < |ms| :: WellFormed(ms[i])
    ensures ms != [] ==> |Concatenated(ms)| + 4 * (|ms| - 1) == Span(ms)
    decreases |ms|
  {
    if ms != [] {
      ConcatenatedLength(ms[1..]);
    }
  }

  /**
   A buffer of concatenated messages parses to those messages exactly when
   there is at most one of them.
   */
  lemma ConcatenationParsesExactly(ms: seq<Message>)
    requires forall i | 0 <= i < |ms| :: WellFormed(ms[i])
    ensures ParseMessages(Concatenated(ms)) == Ok(ms) <==> |ms| <= 1
  {
    if |ms| == 1 {
      SingleParses(ms[0]);
      assert [ms[0]] == ms;
    } else if |ms| > 1 {
      SeveralDoNotParse(ms);
    }
  }

  // An acknowledgement: a header and nothing else.
  const BARE: Message := Message(V2Header(0xc802, 12, 1, 0, 0, 1), [])

  /** Two acknowledgements in one buffer: the second one is lost without an error. */
  lemma SecondIsLost()
    ensures WellFormed(BARE) && ParseMessages(Concatenated([BARE, BARE])) == Ok([BARE])
  {
    var bytes := ToBytes(BARE);
    assert |bytes| == 12 && bytes + [] == bytes;
    var one, two := [BARE], [BARE, BARE];
    assert Concatenated(one) == bytes + Concatenated(one[1..]);
    assert Concatenated(two) == bytes + Concatenated(two[1..]) && two[1..] == one;
    ParseAfterMessage(BARE, bytes);
    assert [BARE] + [] == [BARE];
  }

  lemma SingleParses(m: Message)
    requires WellFormed(m)
    ensures ParseMessages(Concatenated([m])) == Ok([m])
  {
    assert Concatenated([m][1..]) == [];
    assert Concatenated([m]) == ToBytes(m);
    RoundTripExactly(m);
  }

  lemma SeveralDoNotParse(ms: seq<Message>)
    requires |ms| > 1 && forall i | 0 <= i < |ms| :: WellFormed(ms[i])
    ensures ParseMessages(Concatenated(ms)) != Ok(ms)
  {
    var b := Concatenated(ms);
    assert |b| < Span(ms) by {
      ConcatenatedLength(ms);
    }
    if ParseMessages(b).Ok? {
      ParsedSpanFits(b);
    }
  }

  // Messages separated by four octets of anything.
  function Spaced(ms: seq<Message>, gap: seq<Octet>): seq<Octet>
    decreases |ms|
  {
    if ms == [] then [] else ToBytes(ms[0]) + (gap + Spaced(ms[1..], gap))
  }

  /** With four octets between them any number of messages parse back. */
  lemma {:induction false} SpacedMessagesParse(ms: seq<Message>, gap: seq<Octet>)
    requires |gap| == 4
    requires forall i | 0 <= i < |ms| :: WellFormed(ms[i])
    ensures ParseMessages(Spaced(ms, gap)) == Ok(ms)
    decreases |ms|
  {
    if ms != [] {
      var tail := gap + Spaced(ms[1..], gap);
      ParseAfterMessage(ms[0], tail);
      assert tail[4..] == Spaced(ms[1..], gap);
      SpacedMessagesParse(ms[1..], gap);
      assert [ms[0]] + ms[1..] == ms;
    }
  }
}
