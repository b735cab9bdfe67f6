/** What the messages sent by tunnels and sessions say, in terms of the configuration they are built from. */
module BuiltMessages {
  import opened Bytes
  import opened A = Avp
  import opened Msg
  import opened MsgSpec
  import opened L2tpWire

  // A receiver that looks the type up finds this value.
  ghost predicate Tells(m: Message, typ: U16, v: Value)
  {
    exists i: nat :: IsFirst(m.avps, 0, typ, i) && Decode(m.avps[i]) == Ok(v)
  }

  // The number of attributes, the message type, and where the message is sent.
  ghost predicate Frame(m: Message, n: nat, msgType: U16, tid: U32, sid: U32)
  {
    && m.hdr.V2Header? && m.hdr.flagsVer == 0xc802 && m.hdr.ns == 0 && m.hdr.nr == 0
    && m.hdr.tid == tid && m.hdr.sid == sid
    && |m.avps| == n && Tells(m, 0, VMsg(msgType)) && m.avps[0].hdr.typ == 0
    && (forall i | 0 <= i < n :: IsMandatory(m.avps[i].hdr) <==> m.avps[i].hdr.typ != 2)
  }

  // What each message has to say, field by field.
  ghost predicate Says(m: Message, q: Request)
  {
    match q
    case Sccrq(host, caps, tid) =>
      && Frame(m, 5, 1, 0, 0)
      && Tells(m, 2, VRaw([1, 0])) && Tells(m, 7, VText(host)) && Tells(m, 3, V32(caps))
      && Tells(m, 9, V16(tid % 0x1_0000))
    case Sccrp(host, caps, tid, ptid) =>
      && Frame(m, 5, 2, ptid, 0)
      && Tells(m, 2, VRaw([1, 0])) && Tells(m, 7, VText(host)) && Tells(m, 3, V32(caps))
      && Tells(m, 9, V16(tid % 0x1_0000))
    case Scccn(ptid) => Frame(m, 1, 3, ptid, 0)
    case Stopccn(rc, tid, ptid) =>
      Frame(m, 3, 4, ptid, 0) && Tells(m, 9, V16(tid % 0x1_0000)) && Tells(m, 1, VRes(rc))
    case Hello(ptid) => Frame(m, 1, 6, ptid, 0)
    case Icrq(serial, ptid, sid) =>
      Frame(m, 3, 10, ptid, 0) && Tells(m, 14, V16(sid % 0x1_0000)) && Tells(m, 15, V32(serial))
    case Icrp(ptid, sid, psid) => Frame(m, 2, 11, ptid, psid) && Tells(m, 14, V16(sid % 0x1_0000))
    case Iccn(ptid, psid) => Frame(m, 3, 12, ptid, psid) && Tells(m, 24, V32(0)) && Tells(m, 19, V32(3))
    case Cdn(ptid, rc, sid, psid) =>
      Frame(m, 3, 14, ptid, psid) && Tells(m, 1, VRes(rc)) && Tells(m, 14, V16(sid % 0x1_0000))
  }

  lemma InputTold(q: Request, i: nat, typ: U16, v: Value)
    requires IdsFit(q) && i < |Inputs(q)| && Inputs(q)[i] == AvpIn(typ, v)
    ensures Build(q).Ok? && Tells(Build(q).value, typ, v)
    ensures i < |Build(q).value.avps| && Build(q).value.avps[i].hdr.typ == typ
    ensures IsMandatory(Build(q).value.avps[i].hdr) <==> Mandatory(typ)
  {
    FoundInBuilt(q, i);
    BuiltMessage(q);
    BuildsExactly(VENDOR_IETF, typ, v);
  }

  lemma Framed(q: Request, n: nat, msgType: U16, tid: U32, sid: U32)
    requires IdsFit(q) && |Inputs(q)| == n && Inputs(q)[0] == AvpIn(0, VMsg(msgType))
    requires PeerTunnel(q) == tid && PeerSession(q) == sid
    requires forall i | 0 <= i < n :: Mandatory(Inputs(q)[i].typ) <==> Inputs(q)[i].typ != 2
    ensures Build(q).Ok? && Frame(Build(q).value, n, msgType, tid, sid)
  {
    BuiltMessage(q);
    forall i | 0 <= i < n
      ensures i < |Build(q).value.avps|
      ensures IsMandatory(Build(q).value.avps[i].hdr) <==> Build(q).value.avps[i].hdr.typ != 2
    {
      InputTold(q, i, Inputs(q)[i].typ, Inputs(q)[i].v);
    }
    InputTold(q, 0, 0, VMsg(msgType));
  }

  lemma TunnelBuiltSays(q: Request)
    requires IdsFit(q) && (q.Sccrq? || q.Sccrp? || q.Scccn? || q.Stopccn? || q.Hello?)
    ensures Build(q).Ok? && Says(Build(q).value, q)
  {
    match q
    case Sccrq(host, caps, tid) =>
      Framed(q, 5, 1, 0, 0);
      InputTold(q, 1, 2, VRaw([1, 0]));
      InputTold(q, 2, 7, VText(host));
      InputTold(q, 3, 3, V32(caps));
      InputTold(q, 4, 9, V16(tid % 0x1_0000));
    case Sccrp(host, caps, tid, ptid) =>
      Framed(q, 5, 2, ptid, 0);
      InputTold(q, 1, 2, VRaw([1, 0]));
      InputTold(q, 2, 3, V32(caps));
      InputTold(q, 3, 7, VText(host));
      InputTold(q, 4, 9, V16(tid % 0x1_0000));
    case Scccn(ptid) => Framed(q, 1, 3, ptid, 0);
    case Stopccn(rc, tid, ptid) =>
      Framed(q, 3, 4, ptid, 0);
      InputTold(q, 1, 9, V16(tid % 0x1_0000));
      InputTold(q, 2, 1, VRes(rc));
    case Hello(ptid) => Framed(q, 1, 6, ptid, 0);
  }

  lemma CallBuiltSays(q: Request)
    requires IdsFit(q) && (q.Icrq? || q.Icrp? || q.Iccn? || q.Cdn?)
    ensures Build(q).Ok? && Says(Build(q).value, q)
  {
    match q
    case Icrq(serial, ptid, sid) =>
      Framed(q, 3, 10, ptid, 0);
      InputTold(q, 1, 14, V16(sid % 0x1_0000));
      InputTold(q, 2, 15, V32(serial));
    case Icrp(ptid, sid, psid) =>
      Framed(q, 2, 11, ptid, psid);
      InputTold(q, 1, 14, V16(sid % 0x1_0000));
    case Iccn(ptid, psid) =>
      Framed(q, 3, 12, ptid, psid);
      InputTold(q, 1, 24, V32(0));
      InputTold(q, 2, 19, V32(3));
    case Cdn(ptid, rc, sid, psid) =>
      Framed(q, 3, 14, ptid, psid);
      InputTold(q, 1, 1, VRes(rc));
      InputTold(q, 2, 14, V16(sid % 0x1_0000));
  }

  /**
   A request becomes a message exactly if the peer's identifiers fit 16 bits, and
   the message says what the request says: its type, the identifiers assigned
   cut to 16 bits, the result, the serial number, the host and what it can do,
   each found by its attribute type; it is addressed to the peer's tunnel and
   session; and all attributes but the protocol version carry the M bit.
   */
  lemma BuiltSays(q: Request)
    ensures Build(q).Ok? <==> IdsFit(q)
    ensures Build(q).Ok? ==> Says(Build(q).value, q)
  {
    BuildersExactly(q);
    if IdsFit(q) {
      if q.Icrq? || q.Icrp? || q.Iccn? || q.Cdn? {
        CallBuiltSays(q);
      } else {
        TunnelBuiltSays(q);
      }
    }
  }

  /** And so does the message that the peer parses from its octets, as long as the text fits. */
  lemma ReceivedSays(q: Request)
    requires IdsFit(q) && TextFits(q)
    ensures Build(q).Ok?
    ensures var r := ParseMessages(ToBytes(Build(q).value));
            r.Ok? && |r.value| == 1 && Says(r.value[0], q) && ValidMessage(r.value[0])
  {
    BuiltSays(q);
    BuildersExactly(q);
  }

  function IcrqAvps(serial: U32, sid: U16): seq<A.Avp>
  {
    [NewAvp(0, 0, VMsg(10)).value, NewAvp(0, 14, V16(sid)).value, NewAvp(0, 15, V32(serial)).value]
  }

  lemma IcrqAttributes(serial: U32, sid: U16)
    ensures AvpsBytes(IcrqAvps(serial, sid))
            == [0x80, 8, 0, 0, 0, 0, 0, 10]
               + ([0x80, 8, 0, 0, 0, 14] + U16Bytes(sid)) + ([0x80, 10, 0, 0, 0, 15] + U32Bytes(serial))
  {
    BuiltOctets(0, VMsg(10), U16Bytes(10));
    BuiltOctets(14, V16(sid), U16Bytes(sid));
    BuiltOctets(15, V32(serial), U32Bytes(serial));
    var a := IcrqAvps(serial, sid);
    AvpsOfThree(a[0], a[1], a[2]);
    assert [0x80, 8, 0, 0, 0, 0] + U16Bytes(10) == [0x80, 8, 0, 0, 0, 0, 0, 10];
  }

  lemma IcrqIs(serial: U32, ptid: U16, sid: U32)
    ensures Build(Icrq(serial, ptid, sid))
         == Ok(Message(V2Header(0xc802, 38, ptid, 0, 0, 0), IcrqAvps(serial, sid % 0x1_0000)))
  {
    var q, avps := Icrq(serial, ptid, sid), IcrqAvps(serial, sid % 0x1_0000);
    IcrqAttributes(serial, sid % 0x1_0000);
    assert |AvpsBytes(avps)| == 26;
    BuiltMessage(q);
    BuiltIsWellFormed(q);
    assert Build(q).value.avps == avps;
  }

  /** An incoming call request, octet by octet. */
  lemma IcrqOctets(serial: U32, ptid: U16, sid: U32)
    ensures Build(Icrq(serial, ptid, sid)).Ok?
    ensures var s := sid % 0x1_0000;
            ToBytes(Build(Icrq(serial, ptid, sid)).value)
            == [0xc8, 0x02, 0, 38, ptid / 256, ptid % 256, 0, 0, 0, 0, 0, 0]
               + ([0x80, 8, 0, 0, 0, 0, 0, 10]
                  + ([0x80, 8, 0, 0, 0, 14] + [s / 256, s % 256])
                  + ([0x80, 10, 0, 0, 0, 15]
                     + [serial / 0x100_0000, serial / 0x1_0000 % 256, serial / 256 % 256, serial % 256]))
  {
    IcrqIs(serial, ptid, sid);
    IcrqAttributes(serial, sid % 0x1_0000);
    U32Octets(serial);
    V2HeaderOctets(Build(Icrq(serial, ptid, sid)).value);
  }

  lemma AvpsOfThree(a: A.Avp, b: A.Avp, c: A.Avp)
    ensures AvpsBytes([a, b, c]) == AvpBytes(a) + AvpBytes(b) + AvpBytes(c)
  {
    AvpsBytesAppend([], a);
    AvpsBytesAppend([a], b);
    AvpsBytesAppend([a, b], c);
    assert [] + [a] == [a] && [a] + [b] == [a, b] && [a, b] + [c] == [a, b, c];
  }
}
