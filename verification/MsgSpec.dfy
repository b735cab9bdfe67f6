/**
 Which attributes each control message must and may carry (section 6 of RFC
 2661, section 6.5 of RFC 3931), the validation of messages against that, and
 the messages this implementation builds.
 */
module MsgSpec {
  import opened Bytes
  import opened Avp
  import opened Msg

  datatype Presence = Must | May

  type Spec = map<U16, Presence>

  const SCCRQ: U16 := 1
  const SCCRP: U16 := 2
  const SCCCN: U16 := 3
  const STOPCCN: U16 := 4
  const HELLO: U16 := 6
  const ICRQ: U16 := 10
  const ICRP: U16 := 11
  const ICCN: U16 := 12
  const CDN: U16 := 14
  const ACK: U16 := 20

  function Required(types: set<U16>): Spec { map t | t in types :: Must }

  function Optional(types: set<U16>): Spec { map t | t in types :: May }

  function V2Spec(msgType: U16): Result<Spec>
  {
    if msgType == SCCRQ then Ok(Optional({4, 10, 11, 5, 6, 8}) + Required({0, 2, 7, 3, 9}))
    else if msgType == SCCRP then Ok(Optional({4, 10, 11, 13, 5, 6, 8}) + Required({0, 2, 3, 7, 9}))
    else if msgType == SCCCN then Ok(Optional({13}) + Required({0}))
    else if msgType == STOPCCN then Ok(Required({0, 9, 1}))
    else if msgType == HELLO then Ok(Required({0}))
    else if msgType == ICRQ then Ok(Optional({18, 25, 22, 21, 23}) + Required({0, 14, 15}))
    else if msgType == ICRP then Ok(Required({0, 14}))
    else if msgType == ICCN then
      Ok(Optional({26, 27, 28, 29, 30, 31, 32, 33, 37, 38, 39}) + Required({0, 24, 19}))
    else if msgType == CDN then Ok(Optional({12}) + Required({0, 1, 14}))
    else Err
  }

  function V3Spec(msgType: U16): Result<Spec>
  {
    if msgType == HELLO then Ok(Optional({36, 59}) + Required({0})) else Err
  }

  // ---------- Validation ----------

  /** Every required type is there, every attribute of the specification decodes, and no other is mandatory. */
  ghost predicate Accepts(avps: seq<Avp>, spec: Spec)
  {
    && (forall t | t in spec && spec[t] == Must :: exists a :: a in avps && a.hdr.typ == t)
    && (forall a | a in avps :: if a.hdr.typ in spec then Decode(a).Ok? else !IsMandatory(a.hdr))
  }

  /** Acceptance does not depend on the order of the attributes. */
  lemma AcceptsAnyOrder(avps: seq<Avp>, avps': seq<Avp>, spec: Spec)
    requires multiset(avps) == multiset(avps')
    ensures Accepts(avps, spec) <==> Accepts(avps', spec)
  {
    assert forall a :: a in avps <==> a in multiset(avps);
    assert forall a :: a in avps' <==> a in multiset(avps');
  }

  method ValidateAvps(avps: seq<Avp>, spec: Spec) returns (ok: bool)
    ensures ok <==> Accepts(avps, spec)
  {
    var seen := InitialSeen(spec);
    for i := 0 to |avps|
      invariant seen.Keys == (set t | t in spec && spec[t] == Must)
      invariant forall t | t in seen :: seen[t] <==> exists j :: 0 <= j < i && avps[j].hdr.typ == t
      invariant forall j | 0 <= j < i ::
                  if avps[j].hdr.typ in spec then Decode(avps[j]).Ok? else !IsMandatory(avps[j].hdr)
    {
      var avp := avps[i];
      assert avp in avps;
      if avp.hdr.typ !in spec {
        if IsMandatory(avp.hdr) {
          return false;
        }
      } else {
        if spec[avp.hdr.typ] == Must {
          seen := seen[avp.hdr.typ := true];
        }
        if !Decode(avp).Ok? {
          return false;
        }
      }
    }
    ok := AllSeen(seen);
    if ok {
      forall t | t in spec && spec[t] == Must
        ensures exists a :: a in avps && a.hdr.typ == t
      {
        assert t in seen && seen[t];
        var j :| 0 <= j < |avps| && avps[j].hdr.typ == t;
        assert avps[j] in avps;
      }
    } else {
      var t :| t in seen && !seen[t];
      assert t in spec && spec[t] == Must;
    }
  }

  method InitialSeen(spec: Spec) returns (seen: map<U16, bool>)
    ensures seen.Keys == (set t | t in spec && spec[t] == Must)
    ensures forall t | t in seen :: !seen[t]
  {
    seen := map[];
    var todo := spec.Keys;
    while todo != {}
      invariant todo <= spec.Keys
      invariant seen.Keys == (set t | t in spec.Keys - todo && spec[t] == Must)
      invariant forall t | t in seen :: !seen[t]
      decreases todo
    {
      var t :| t in todo;
      if spec[t] == Must {
        seen := seen[t := false];
      }
      todo := todo - {t};
    }
  }

  method AllSeen(seen: map<U16, bool>) returns (ok: bool)
    ensures ok <==> forall t | t in seen :: seen[t]
  {
    var todo := seen.Keys;
    while todo != {}
      invariant todo <= seen.Keys
      invariant forall t | t in seen && t !in todo :: seen[t]
      decreases todo
    {
      var t :| t in todo;
      if !seen[t] {
        return false;
      }
      todo := todo - {t};
    }
    return true;
  }

  // The type of a message; one without attributes counts as an acknowledgement.
  function TypeOf(m: Message): Result<U16>
  {
    if m.avps == [] then (if m.hdr.V2Header? then Ok(ACK) else Panic)
    else
      match Decode(m.avps[0])
      case Ok(VMsg(t)) => Ok(t)
      case _ => Panic
  }

  ghost predicate ValidMessage(m: Message)
  {
    && TypeOf(m).Ok?
    && var spec := if m.hdr.V2Header? then V2Spec(TypeOf(m).value) else V3Spec(TypeOf(m).value);
       spec.Ok? && Accepts(m.avps, spec.value)
  }

  // ---------- The cause code ----------

  const TYPE_CAUSE_CODE: U16 := 12

  function WithoutCause(avps: seq<Avp>): seq<Avp>
    decreases |avps|
  {
    if avps == [] then []
    else (if avps[0].hdr.typ == TYPE_CAUSE_CODE then [] else [avps[0]]) + WithoutCause(avps[1..])
  }

  lemma {:induction false} WithoutCauseHas(avps: seq<Avp>, a: Avp)
    ensures a in WithoutCause(avps) <==> a in avps && a.hdr.typ != TYPE_CAUSE_CODE
    decreases |avps|
  {
    if avps != [] {
      WithoutCauseHas(avps[1..], a);
      assert avps == [avps[0]] + avps[1..];
    }
  }

  // Accepting a list and accepting it without its cause codes, for any specification that allows the code.
  lemma AcceptsWithoutCause(avps: seq<Avp>, spec: Spec)
    requires AllWellFormed(avps) && TYPE_CAUSE_CODE in spec && spec[TYPE_CAUSE_CODE] != Must
    requires Accepts(WithoutCause(avps), spec)
    ensures Accepts(avps, spec) <==> forall a | a in avps :: a.hdr.typ != TYPE_CAUSE_CODE
  {
    forall a
      ensures a in WithoutCause(avps) <==> a in avps && a.hdr.typ != TYPE_CAUSE_CODE
    {
      WithoutCauseHas(avps, a);
    }
    if a :| a in avps && a.hdr.typ == TYPE_CAUSE_CODE {
      assert WellFormedAvp(a) && !Decode(a).Ok?;
    }
  }

  lemma CdnAllowsCause()
    ensures V2Spec(CDN).Ok? && TYPE_CAUSE_CODE in V2Spec(CDN).value && V2Spec(CDN).value[TYPE_CAUSE_CODE] == May
  {
  }

  /**
   The specification of Call-Disconnect-Notify allows a Q.931 cause code, but its
   data type is not implemented: a received message that is acceptable without
   its cause codes is valid exactly when it has none.
   */
  lemma CauseCodeIsFatal(m: Message)
    requires m.hdr.V2Header? && TypeOf(m) == Ok(CDN) && AllWellFormed(m.avps)
    requires V2Spec(CDN).Ok? && Accepts(WithoutCause(m.avps), V2Spec(CDN).value)
    ensures ValidMessage(m) <==> forall a | a in m.avps :: a.hdr.typ != TYPE_CAUSE_CODE
  {
    CdnAllowsCause();
    AcceptsWithoutCause(m.avps, V2Spec(CDN).value);
  }

  // ---------- Building ----------

  datatype AvpIn = AvpIn(typ: U16, v: Value)

  function AppendAll(m: Message, ins: seq<AvpIn>): (r: Result<Message>)
    requires m.hdr.V2Header?
    ensures r.Ok? ==> r.value.hdr.V2Header?
    decreases |ins|
  {
    if ins == [] then Ok(m)
    else
      match NewAvp(VENDOR_IETF, ins[0].typ, ins[0].v)
      case Ok(a) => AppendAll(Appending(m, a), ins[1..])
      case _ => Err
  }

  function EmptyV2(tid: U16, sid: U16): Message { Message(V2Header(0xc802, 12, tid, sid, 0, 0), []) }

  function BuildV2(ptid: U32, psid: U32, ins: seq<AvpIn>): Result<Message>
  {
    if ptid > 0xffff || psid > 0xffff then Err else AppendAll(EmptyV2(ptid, psid), ins)
  }

  method BuildV2Msg(ptid: U32, psid: U32, ins: seq<AvpIn>) returns (ok: bool, msg: V2ControlMessage?)
    ensures ok <==> BuildV2(ptid, psid, ins).Ok?
    ensures ok ==> msg != null && fresh(msg) && msg.Value() == BuildV2(ptid, psid, ins).value
  {
    if ptid > 0xffff || psid > 0xffff {
      return false, null;
    }
    var m := new V2ControlMessage(ptid, psid);
    assert ins[0..] == ins;
    for i := 0 to |ins|
      invariant m.header.V2Header?
      invariant AppendAll(m.Value(), ins[i..]) == BuildV2(ptid, psid, ins)
    {
      assert ins[i..][0] == ins[i] && ins[i..][1..] == ins[i + 1..];
      var a := NewAvp(VENDOR_IETF, ins[i].typ, ins[i].v);
      if !a.Ok? {
        return false, null;
      }
      m.AppendAvp(a.value);
    }
    return true, m;
  }

  // The list of attributes that a list of inputs gives.
  ghost predicate BuiltFrom(avps: seq<Avp>, ins: seq<AvpIn>)
  {
    && |avps| == |ins|
    && (forall i | 0 <= i < |ins| :: NewAvp(VENDOR_IETF, ins[i].typ, ins[i].v) == Ok(avps[i]))
  }

  // The length field of a message under construction.
  predicate LenTracks(m: Message)
  {
    m.hdr.V2Header? && (AllWellFormed(m.avps) ==> m.hdr.len == (12 + |AvpsBytes(m.avps)|) % 0x10000)
  }

  lemma WrapAdd(x: nat, y: nat)
    ensures (x % 0x10000 + y) % 0x10000 == (x + y) % 0x10000
  {
    var q := x / 0x10000;
    assert x + y == q * 0x10000 + (x % 0x10000 + y);
  }

  lemma LenTracked(m: Message, a: Avp)
    requires LenTracks(m)
    ensures LenTracks(Appending(m, a))
  {
    var m' := Appending(m, a);
    if AllWellFormed(m'.avps) {
      assert forall i | 0 <= i < |m.avps| :: m'.avps[i] == m.avps[i];
      assert m'.avps[|m.avps|] == a;
      AvpsBytesAppend(m.avps, a);
      WrapAdd(12 + |AvpsBytes(m.avps)|, TotalLen(a.hdr));
    }
  }

  lemma {:induction false} AppendAllBuilds(m: Message, ins: seq<AvpIn>, done: seq<AvpIn>)
    requires m.hdr.V2Header? && BuiltFrom(m.avps, done) && LenTracks(m)
    requires forall i | 0 <= i < |ins| :: NewAvp(VENDOR_IETF, ins[i].typ, ins[i].v).Ok?
    ensures var r := AppendAll(m, ins);
            && r.Ok? && BuiltFrom(r.value.avps, done + ins) && LenTracks(r.value)
            && WithLen(r.value.hdr, 0) == WithLen(m.hdr, 0)
    decreases |ins|
  {
    if ins == [] {
      assert done + ins == done;
    } else {
      var a := NewAvp(VENDOR_IETF, ins[0].typ, ins[0].v).value;
      LenTracked(m, a);
      assert (done + [ins[0]]) + ins[1..] == done + ins;
      AppendAllBuilds(Appending(m, a), ins[1..], done + [ins[0]]);
    }
  }

  // ---------- The messages sent by tunnels and sessions ----------

  datatype Request =
    | Sccrq(host: seq<Octet>, caps: U32, tid: U32)
    | Sccrp(host: seq<Octet>, caps: U32, tid: U32, ptid: U32)
    | Scccn(ptid: U32)
    | Stopccn(rc: ResCode, tid: U32, ptid: U32)
    | Hello(ptid: U32)
    | Icrq(serial: U32, ptid: U32, sid: U32)
    | Icrp(ptid: U32, sid: U32, psid: U32)
    | Iccn(ptid: U32, psid: U32)
    | Cdn(ptid: U32, rc: ResCode, sid: U32, psid: U32)

  function RequestType(q: Request): U16
  {
    match q
    case Sccrq(_, _, _) => SCCRQ
    case Sccrp(_, _, _, _) => SCCRP
    case Scccn(_) => SCCCN
    case Stopccn(_, _, _) => STOPCCN
    case Hello(_) => HELLO
    case Icrq(_, _, _) => ICRQ
    case Icrp(_, _, _) => ICRP
    case Iccn(_, _) => ICCN
    case Cdn(_, _, _, _) => CDN
  }

  // Identifiers are 32 bits wide in the configuration and cut to 16 in the attribute.
  function Inputs(q: Request): seq<AvpIn>
  {
    [AvpIn(TYPE_MESSAGE, VMsg(RequestType(q)))] +
    match q
    case Sccrq(host, caps, tid) =>
      [AvpIn(TYPE_PROTOCOL_VERSION, VRaw([1, 0])), AvpIn(TYPE_HOST_NAME, VText(host)),
       AvpIn(TYPE_FRAMING_CAP, V32(caps)), AvpIn(TYPE_TUNNEL_ID, V16(tid % 0x10000))]
    case Sccrp(host, caps, tid, _) =>
      [AvpIn(TYPE_PROTOCOL_VERSION, VRaw([1, 0])), AvpIn(TYPE_FRAMING_CAP, V32(caps)),
       AvpIn(TYPE_HOST_NAME, VText(host)), AvpIn(TYPE_TUNNEL_ID, V16(tid % 0x10000))]
    case Scccn(_) => []
    case Stopccn(rc, tid, _) => [AvpIn(TYPE_TUNNEL_ID, V16(tid % 0x10000)), AvpIn(TYPE_RESULT_CODE, VRes(rc))]
    case Hello(_) => []
    case Icrq(serial, _, sid) => [AvpIn(TYPE_SESSION_ID, V16(sid % 0x10000)), AvpIn(TYPE_CALL_SERIAL, V32(serial))]
    case Icrp(_, sid, _) => [AvpIn(TYPE_SESSION_ID, V16(sid % 0x10000))]
    case Iccn(_, _) => [AvpIn(TYPE_CONNECT_SPEED, V32(0)), AvpIn(TYPE_FRAMING_TYPE, V32(3))]
    case Cdn(_, rc, sid, _) => [AvpIn(TYPE_RESULT_CODE, VRes(rc)), AvpIn(TYPE_SESSION_ID, V16(sid % 0x10000))]
  }

  function PeerTunnel(q: Request): U32 { if q.Sccrq? then 0 else q.ptid }

  function PeerSession(q: Request): U32 { if q.Icrp? || q.Iccn? || q.Cdn? then q.psid else 0 }

  function Build(q: Request): Result<Message> { BuildV2(PeerTunnel(q), PeerSession(q), Inputs(q)) }

  // The identifiers of the peer that a request names fit 16 bits.
  predicate IdsFit(q: Request)
  {
    match q
    case Sccrq(_, _, _) => true
    case Sccrp(_, _, _, ptid) => ptid <= 0xffff
    case Scccn(ptid) => ptid <= 0xffff
    case Stopccn(_, _, ptid) => ptid <= 0xffff
    case Hello(ptid) => ptid <= 0xffff
    case Icrq(_, ptid, _) => ptid <= 0xffff
    case Icrp(ptid, _, psid) => ptid <= 0xffff && psid <= 0xffff
    case Iccn(ptid, psid) => ptid <= 0xffff && psid <= 0xffff
    case Cdn(ptid, _, _, psid) => ptid <= 0xffff && psid <= 0xffff
  }

  lemma IdsFitIs(q: Request)
    ensures IdsFit(q) <==> PeerTunnel(q) <= 0xffff && PeerSession(q) <= 0xffff
  {
  }

  // The only parts of unbounded size: the host name and the error message.
  predicate TextFits(q: Request)
  {
    match q
    case Sccrq(host, _, _) => |host| <= 1017
    case Sccrp(host, _, _, _) => |host| <= 1017
    case Stopccn(rc, _, _) => |rc.errMsg| <= 1013
    case Cdn(_, rc, _, _) => |rc.errMsg| <= 1013
    case _ => true
  }

  lemma InputsEncode(q: Request, i: nat)
    requires i < |Inputs(q)|
    ensures EncodePayload(DataTypeOf(Inputs(q)[i].typ), Inputs(q)[i].v).Ok?
    ensures NewAvp(VENDOR_IETF, Inputs(q)[i].typ, Inputs(q)[i].v).Ok?
  {
  }

  lemma BuiltMessage(q: Request)
    requires IdsFit(q)
    ensures Build(q).Ok?
    ensures BuiltFrom(Build(q).value.avps, Inputs(q)) && LenTracks(Build(q).value)
    ensures WithLen(Build(q).value.hdr, 0) == V2Header(0xc802, 0, PeerTunnel(q), PeerSession(q), 0, 0)
  {
    forall i | 0 <= i < |Inputs(q)|
      ensures NewAvp(VENDOR_IETF, Inputs(q)[i].typ, Inputs(q)[i].v).Ok?
    {
      InputsEncode(q, i);
    }
    IdsFitIs(q);
    AppendAllBuilds(EmptyV2(PeerTunnel(q), PeerSession(q)), Inputs(q), []);
    assert [] + Inputs(q) == Inputs(q);
  }

  lemma BuiltTypes(q: Request, i: nat)
    requires IdsFit(q) && i < |Inputs(q)|
    ensures Build(q).Ok?
    ensures var m := Build(q).value;
            && |m.avps| == |Inputs(q)|
            && m.avps[i].hdr.typ == Inputs(q)[i].typ && m.avps[i].hdr.vendor == VENDOR_IETF
            && Decode(m.avps[i]) == Ok(Inputs(q)[i].v)
            && (WellFormedAvp(m.avps[i]) <==> |m.avps[i].data| <= 1017)
  {
    BuiltMessage(q);
    NewAvpExactly(VENDOR_IETF, Inputs(q)[i].typ, Inputs(q)[i].v);
  }

  /** Every message built passes validation, with its values decoding to what went in. */
  lemma BuiltIsValid(q: Request)
    requires IdsFit(q)
    ensures Build(q).Ok? && TypeOf(Build(q).value) == Ok(RequestType(q))
    ensures ValidMessage(Build(q).value)
    ensures forall i | 0 <= i < |Inputs(q)| ::
              |Build(q).value.avps| == |Inputs(q)| && Decode(Build(q).value.avps[i]) == Ok(Inputs(q)[i].v)
  {
    BuiltMessage(q);
    var m := Build(q).value;
    forall i | 0 <= i < |Inputs(q)|
      ensures m.avps[i].hdr.typ == Inputs(q)[i].typ && Decode(m.avps[i]) == Ok(Inputs(q)[i].v)
    {
      BuiltTypes(q, i);
    }
    assert Inputs(q)[0] == AvpIn(TYPE_MESSAGE, VMsg(RequestType(q)));
    BuiltIsAccepted(q);
  }

  lemma BuiltIsAccepted(q: Request)
    requires IdsFit(q) && Build(q).Ok? && |Build(q).value.avps| == |Inputs(q)|
    requires forall i | 0 <= i < |Inputs(q)| ::
               && Build(q).value.avps[i].hdr.typ == Inputs(q)[i].typ
               && Decode(Build(q).value.avps[i]) == Ok(Inputs(q)[i].v)
    ensures V2Spec(RequestType(q)).Ok? && Accepts(Build(q).value.avps, V2Spec(RequestType(q)).value)
  {
    var avps, ins, spec := Build(q).value.avps, Inputs(q), V2Spec(RequestType(q)).value;
    forall t | t in spec && spec[t] == Must
      ensures exists a :: a in avps && a.hdr.typ == t
    {
      var i := RequiredInput(q, t);
      assert avps[i] in avps && avps[i].hdr.typ == t;
    }
    forall a | a in avps
      ensures if a.hdr.typ in spec then Decode(a).Ok? else !IsMandatory(a.hdr)
    {
      var i :| 0 <= i < |avps| && avps[i] == a;
    }
  }

  // Each required type is the type of one of the inputs.
  lemma RequiredInput(q: Request, t: U16) returns (i: nat)
    requires V2Spec(RequestType(q)).Ok?
    requires t in V2Spec(RequestType(q)).value && V2Spec(RequestType(q)).value[t] == Must
    ensures i < |Inputs(q)| && Inputs(q)[i].typ == t
  {
    var ins := Inputs(q);
    assert ins[0].typ == 0;
    i := 0;
    if t != 0 {
      match q
      case Sccrq(_, _, _) =>
        assert ins[1].typ == 2 && ins[2].typ == 7 && ins[3].typ == 3 && ins[4].typ == 9;
        i := if t == 2 then 1 else if t == 7 then 2 else if t == 3 then 3 else 4;
      case Sccrp(_, _, _, _) =>
        assert ins[1].typ == 2 && ins[2].typ == 3 && ins[3].typ == 7 && ins[4].typ == 9;
        i := if t == 2 then 1 else if t == 3 then 2 else if t == 7 then 3 else 4;
      case Stopccn(_, _, _) =>
        assert ins[1].typ == 9 && ins[2].typ == 1;
        i := if t == 9 then 1 else 2;
      case Icrq(_, _, _) =>
        assert ins[1].typ == 14 && ins[2].typ == 15;
        i := if t == 14 then 1 else 2;
      case Icrp(_, _, _) =>
        assert ins[1].typ == 14;
        i := 1;
      case Iccn(_, _) =>
        assert ins[1].typ == 24 && ins[2].typ == 19;
        i := if t == 24 then 1 else 2;
      case Cdn(_, _, _, _) =>
        assert ins[1].typ == 1 && ins[2].typ == 14;
        i := if t == 1 then 1 else 2;
      case _ =>
    }
  }

  // ---------- The messages built survive the wire ----------

  lemma {:induction false} AvpsLengthBound(avps: seq<Avp>)
    requires AllWellFormed(avps)
    ensures |AvpsBytes(avps)| <= 1023 * |avps|
    decreases |avps|
  {
    if avps != [] {
      assert WellFormedAvp(avps[0]);
      AvpsLengthBound(avps[1..]);
    }
  }

  // The attribute that holds the text, if the message has one.
  function TextIndex(q: Request): nat
  {
    match q
    case Sccrq(_, _, _) => 2
    case Sccrp(_, _, _, _) => 3
    case Stopccn(_, _, _) => 2
    case Cdn(_, _, _, _) => 1
    case _ => 0
  }

  lemma BuiltPayload(q: Request, i: nat)
    requires IdsFit(q) && i < |Inputs(q)|
    ensures Build(q).Ok? && i < |Build(q).value.avps|
    ensures WellFormedAvp(Build(q).value.avps[i]) <==> i != TextIndex(q) || TextFits(q)
  {
    BuiltMessage(q);
    BuiltTypes(q, i);
    InputsEncode(q, i);
    var a := Build(q).value.avps[i];
    assert Ok(a.data) == EncodePayload(DataTypeOf(Inputs(q)[i].typ), Inputs(q)[i].v);
    PayloadSize(q, i);
  }

  lemma PayloadSize(q: Request, i: nat)
    requires i < |Inputs(q)|
    ensures EncodePayload(DataTypeOf(Inputs(q)[i].typ), Inputs(q)[i].v).Ok?
    ensures |EncodePayload(DataTypeOf(Inputs(q)[i].typ), Inputs(q)[i].v).value| <= 1017
            <==> i != TextIndex(q) || TextFits(q)
  {
  }

  lemma BuiltIsWellFormed(q: Request)
    requires IdsFit(q) && TextFits(q)
    ensures Build(q).Ok? && WellFormed(Build(q).value)
  {
    BuiltMessage(q);
    var m := Build(q).value;
    forall i | 0 <= i < |m.avps|
      ensures WellFormedAvp(m.avps[i])
    {
      BuiltPayload(q, i);
    }
    AvpsLengthBound(m.avps);
    assert |m.avps| <= 5;
    BuiltTypes(q, 0);
    assert Inputs(q)[0] == AvpIn(TYPE_MESSAGE, VMsg(RequestType(q)));
  }

  /**
   A message can be built exactly when the peer's identifiers fit 16 bits, and
   once built it comes back from the wire exactly when its text fits an
   attribute; the copy that comes back is the valid message that was sent.
   */
  lemma BuildersExactly(q: Request)
    ensures Build(q).Ok? <==> IdsFit(q)
    ensures Build(q).Ok? ==> ValidMessage(Build(q).value)
    ensures Build(q).Ok? ==> (ParseMessages(ToBytes(Build(q).value)) == Ok([Build(q).value]) <==> TextFits(q))
  {
    if IdsFit(q) {
      BuiltIsValid(q);
      var m := Build(q).value;
      if TextFits(q) {
        BuiltIsWellFormed(q);
      } else {
        BuiltPayload(q, TextIndex(q));
        assert !WellFormedAvp(m.avps[TextIndex(q)]);
      }
      RoundTripExactly(m);
    }
  }

  // ---------- Looking values up ----------

  predicate IsFirst(avps: seq<Avp>, vendor: U16, typ: U16, i: nat)
  {
    && i < |avps| && avps[i].hdr.vendor == vendor && avps[i].hdr.typ == typ
    && (forall j | 0 <= j < i :: avps[j].hdr.vendor != vendor || avps[j].hdr.typ != typ)
  }

  method FindAvp(avps: seq<Avp>, vendor: U16, typ: U16) returns (r: Result<Avp>)
    ensures r.Ok? ==> exists i: nat :: IsFirst(avps, vendor, typ, i) && r.value == avps[i]
    ensures !r.Ok? ==> forall i | 0 <= i < |avps| :: avps[i].hdr.vendor != vendor || avps[i].hdr.typ != typ
  {
    for i := 0 to |avps|
      invariant forall j | 0 <= j < i :: avps[j].hdr.vendor != vendor || avps[j].hdr.typ != typ
    {
      if avps[i].hdr.vendor == vendor && avps[i].hdr.typ == typ {
        assert IsFirst(avps, vendor, typ, i);
        return Ok(avps[i]);
      }
    }
    return Err;
  }

  lemma InputTypesDistinct(q: Request, i: nat, j: nat)
    requires i < j < |Inputs(q)|
    ensures Inputs(q)[i].typ != Inputs(q)[j].typ
  {
  }

  /** A receiver that looks up the type of an input finds the attribute that carries its value. */
  lemma FoundInBuilt(q: Request, i: nat)
    requires IdsFit(q) && i < |Inputs(q)|
    ensures Build(q).Ok? && IsFirst(Build(q).value.avps, VENDOR_IETF, Inputs(q)[i].typ, i)
    ensures Decode(Build(q).value.avps[i]) == Ok(Inputs(q)[i].v)
  {
    BuiltTypes(q, i);
    forall j | 0 <= j < i
      ensures Build(q).value.avps[j].hdr.typ != Inputs(q)[i].typ
    {
      BuiltTypes(q, j);
      InputTypesDistinct(q, j, i);
    }
  }

  // ---------- A disconnect notice that is rejected ----------

  const Disconnect: Request := Cdn(1, ResCode(2, 6, []), 1, 1)
  const Cause: Avp := Avp(AvpHeader(0x8009, VENDOR_IETF, TYPE_CAUSE_CODE), Unimplemented, [0, 16, 0])

  // Adding a small well-formed attribute to a well-formed message gives another.
  lemma AppendedIsWellFormed(m: Message, a: Avp)
    requires WellFormed(m) && m.hdr.V2Header? && m.avps != [] && WellFormedAvp(a)
    requires m.hdr.len + TotalLen(a.hdr) < 0x10000
    ensures WellFormed(Appending(m, a))
  {
    AvpsBytesAppend(m.avps, a);
  }

  lemma CauseAppended(m: Message, a: Avp)
    requires m.hdr.V2Header? && m.avps != [] && TypeOf(m) == Ok(CDN)
    requires WellFormedAvp(a) && a.hdr.typ == TYPE_CAUSE_CODE
    ensures !ValidMessage(Appending(m, a))
  {
    var m' := Appending(m, a);
    assert m'.avps[0] == m.avps[0] && m'.avps[|m.avps|] == a;
    assert TypeOf(m') == Ok(CDN);
    CdnAllowsCause();
    assert a in m'.avps && !Decode(a).Ok?;
  }

  // A message and its copy with a cause code: the one is valid, the other crosses the wire unharmed and is not.
  ghost predicate RejectedWithCause(m: Message)
    requires m.hdr.V2Header?
  {
    var m' := Appending(m, Cause);
    ValidMessage(m) && ParseMessages(ToBytes(m')) == Ok([m']) && !ValidMessage(m')
  }

  lemma CauseIsWellFormed()
    ensures WellFormedAvp(Cause) && TotalLen(Cause.hdr) == 9
  {
  }

  lemma CauseRejects(m: Message)
    requires m.hdr.V2Header? && WellFormed(m) && m.avps != [] && m.hdr.len < 0x8000
    requires ValidMessage(m) && TypeOf(m) == Ok(CDN)
    ensures RejectedWithCause(m)
  {
    CauseIsWellFormed();
    var m' := Appending(m, Cause);
    assert WellFormed(m') by {
      AppendedIsWellFormed(m, Cause);
    }
    assert ParseMessages(ToBytes(m')) == Ok([m']) by {
      RoundTripExactly(m');
    }
    CauseAppended(m, Cause);
  }

  /** Every disconnect notice that the program can build and send, with a cause code, is rejected. */
  lemma BuiltCdnRejected(q: Request)
    requires q.Cdn? && IdsFit(q) && TextFits(q)
    ensures Build(q).Ok? && Build(q).value.hdr.V2Header? && RejectedWithCause(Build(q).value)
  {
    BuiltIsWellFormed(q);
    BuiltMessage(q);
    AvpsLengthBound(Build(q).value.avps);
    BuiltIsValid(q);
    CauseRejects(Build(q).value);
  }

  /** One of them. */
  lemma CauseCodeExample()
    ensures Build(Disconnect).Ok? && Build(Disconnect).value.hdr.V2Header?
    ensures RejectedWithCause(Build(Disconnect).value)
  {
    BuiltCdnRejected(Disconnect);
  }

  // ---------- Identifiers that are always found ----------

  lemma {:induction false} FirstExists(avps: seq<Avp>, typ: U16, n: nat) returns (i: nat)
    requires n < |avps| && avps[n].hdr.vendor == VENDOR_IETF && avps[n].hdr.typ == typ
    ensures i <= n && IsFirst(avps, VENDOR_IETF, typ, i)
    decreases n
  {
    if j :| 0 <= j < n && avps[j].hdr.vendor == VENDOR_IETF && avps[j].hdr.typ == typ {
      i := FirstExists(avps, typ, j);
    } else {
      i := n;
    }
  }

  lemma RepliesRequireIds()
    ensures V2Spec(ICRP).Ok? && TYPE_SESSION_ID in V2Spec(ICRP).value && V2Spec(ICRP).value[TYPE_SESSION_ID] == Must
    ensures V2Spec(SCCRP).Ok? && TYPE_TUNNEL_ID in V2Spec(SCCRP).value && V2Spec(SCCRP).value[TYPE_TUNNEL_ID] == Must
  {
  }

  lemma RequiredIsFound(avps: seq<Avp>, spec: Spec, typ: U16) returns (i: nat)
    requires AllWellFormed(avps) && Accepts(avps, spec) && typ in spec && spec[typ] == Must && DataTypeOf(typ) == Uint16
    ensures IsFirst(avps, VENDOR_IETF, typ, i) && Decode(avps[i]).Ok? && Decode(avps[i]).value.V16?
  {
    var a :| a in avps && a.hdr.typ == typ;
    var n :| 0 <= n < |avps| && avps[n] == a;
    i := FirstExists(avps, typ, n);
    assert avps[i] in avps && WellFormedAvp(avps[i]);
  }

  /**
   A received reply that passes validation always has the identifier that its
   callback looks for, so the branches that give up on a missing identifier are
   not taken: a message that fails validation does not reach the callback.
   */
  lemma IdentifierFound(m: Message) returns (i: nat)
    requires m.hdr.V2Header? && AllWellFormed(m.avps) && ValidMessage(m)
    requires TypeOf(m) == Ok(ICRP) || TypeOf(m) == Ok(SCCRP)
    ensures IsFirst(m.avps, VENDOR_IETF, if TypeOf(m) == Ok(ICRP) then TYPE_SESSION_ID else TYPE_TUNNEL_ID, i)
    ensures Decode(m.avps[i]).Ok? && Decode(m.avps[i]).value.V16?
  {
    RepliesRequireIds();
    if TypeOf(m) == Ok(ICRP) {
      i := RequiredIsFound(m.avps, V2Spec(ICRP).value, TYPE_SESSION_ID);
    } else {
      i := RequiredIsFound(m.avps, V2Spec(SCCRP).value, TYPE_TUNNEL_ID);
    }
  }
}
