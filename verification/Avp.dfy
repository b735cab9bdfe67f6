/**
 Attribute value pairs (section 4.1 of RFC 2661): header bit fields, payload
 encodings, the buffer parser, and the laws between them.

 The masks of the 16-bit flags-and-length field are written as division and
 remainder: bit 0x8000 is the quotient by 0x8000, the mask 0x3ff the remainder
 by 0x400.
 */
module Avp {
  import opened Bytes

  datatype DataType =
    Empty | Uint16 | Uint32 | Uint64 | Text | Raw | ResultCode | MsgId | Unimplemented | Illegal

  datatype AvpHeader = AvpHeader(flagLen: U16, vendor: U16, typ: U16)

  datatype Avp = Avp(hdr: AvpHeader, dataType: DataType, data: seq<Octet>)

  const VENDOR_IETF: U16 := 0
  const HEADER_LEN := 6

  const TYPE_MESSAGE: U16 := 0
  const TYPE_RESULT_CODE: U16 := 1
  const TYPE_PROTOCOL_VERSION: U16 := 2
  const TYPE_FRAMING_CAP: U16 := 3
  const TYPE_HOST_NAME: U16 := 7
  const TYPE_TUNNEL_ID: U16 := 9
  const TYPE_SESSION_ID: U16 := 14
  const TYPE_CALL_SERIAL: U16 := 15
  const TYPE_FRAMING_TYPE: U16 := 19
  const TYPE_CONNECT_SPEED: U16 := 24

  // ---------- The attribute table ----------

  predicate Recognised(typ: U16, vendor: U16) { vendor == VENDOR_IETF && typ < 76 }

  function DataTypeOf(typ: U16): DataType
  {
    if typ == 0 then MsgId
    else if typ == 1 then ResultCode
    else if typ in {6, 9, 10, 14, 29, 68, 69, 70, 71} then Uint16
    else if typ in {3, 4, 15, 16, 17, 18, 19, 24, 25, 38, 60, 61, 63, 64} then Uint32
    else if typ in {74, 75} then Uint64
    else if typ in {7, 8, 21, 22, 23, 30, 37} then Text
    else if typ in {2, 5, 11, 13, 26, 27, 28, 31, 32, 33, 36, 59, 65, 66, 72, 73} then Raw
    else if typ == 39 then Empty
    else if typ in {12, 20, 34, 35, 62} then Unimplemented
    else Illegal
  }

  predicate TableMandatory(typ: U16)
  {
    typ in {0, 1, 3, 4, 7, 9, 10, 11, 12, 13, 14, 15, 16, 17, 18, 19, 21, 22, 23, 24, 34, 35, 36, 39}
  }

  // ---------- Headers ----------

  predicate IsMandatory(h: AvpHeader) { h.flagLen / 0x8000 == 1 }

  predicate IsHidden(h: AvpHeader) { h.flagLen / 0x4000 % 2 == 1 }

  function TotalLen(h: AvpHeader): nat { h.flagLen % 0x400 }

  // Negative when the length field does not even cover the header.
  function DataLen(h: AvpHeader): int { TotalLen(h) - 6 }

  function NewAvpHeader(mandatory: bool, hidden: bool, payloadBytes: nat, vendor: U16, typ: U16): (h: AvpHeader)
    ensures IsMandatory(h) == mandatory && IsHidden(h) == hidden && h.vendor == vendor && h.typ == typ
    ensures TotalLen(h) == (payloadBytes + 6) % 0x400
  {
    var flags := (if mandatory then 0x8000 else 0) + (if hidden then 0x4000 else 0);
    AvpHeader(flags + (payloadBytes + 6) % 0x400, vendor, typ)
  }

  function AvpHeaderBytes(h: AvpHeader): (b: seq<Octet>)
    ensures |b| == 6
  {
    U16Bytes(h.flagLen) + U16Bytes(h.vendor) + U16Bytes(h.typ)
  }

  function GetHeader(b: seq<Octet>): AvpHeader
    requires |b| >= 6
  {
    AvpHeader(GetU16(b, 0), GetU16(b, 2), GetU16(b, 4))
  }

  lemma GetHeaderOf(h: AvpHeader, rest: seq<Octet>)
    ensures GetHeader(AvpHeaderBytes(h) + rest) == h
  {
  }

  lemma HeaderBytesOf(b: seq<Octet>)
    requires |b| >= 6
    ensures AvpHeaderBytes(GetHeader(b)) == b[..6]
  {
  }

  // ---------- Printing and parsing lists of attributes ----------

  function AvpBytes(a: Avp): seq<Octet> { AvpHeaderBytes(a.hdr) + a.data }

  function AvpsBytes(avps: seq<Avp>): seq<Octet>
    decreases |avps|
  {
    if avps == [] then [] else AvpBytes(avps[0]) + AvpsBytes(avps[1..])
  }

  // An attribute of a recognised type whose length field is that of its payload.
  predicate WellFormedAvp(a: Avp)
  {
    && Recognised(a.hdr.typ, a.hdr.vendor)
    && a.dataType == DataTypeOf(a.hdr.typ)
    && TotalLen(a.hdr) == 6 + |a.data|
  }

  /**
   The parser's loop.  An unrecognised attribute that is not mandatory is
   skipped by its header only, so that its payload is parsed next; a length
   below that of the header makes the slice of the payload panic.
   */
  function ParseAvps(b: seq<Octet>): Result<seq<Avp>>
    decreases |b|
  {
    if |b| < HEADER_LEN then Ok([])
    else
      var h := GetHeader(b);
      if !Recognised(h.typ, h.vendor) then
        if IsMandatory(h) then Err else ParseAvps(b[6..])
      else if DataLen(h) > |b| - 6 then Err
      else if DataLen(h) < 0 then Panic
      else
        var end := 6 + DataLen(h);
        Prepend(Avp(h, DataTypeOf(h.typ), b[6..end]), ParseAvps(b[end..]))
  }

  // An empty list is an error.
  function ParseAvpList(b: seq<Octet>): (r: Result<seq<Avp>>)
    ensures r.Ok? ==> r.value != []
  {
    if ParseAvps(b) == Ok([]) then Err else ParseAvps(b)
  }

  // One turn of the attribute loop.
  lemma ParseAvpsAt(b: seq<Octet>, cursor: nat)
    requires cursor + 6 <= |b|
    ensures var h := GetHeader(b[cursor..]);
            var end := cursor + TotalLen(h);
            ParseAvps(b[cursor..]) ==
            if !Recognised(h.typ, h.vendor) then (if IsMandatory(h) then Err else ParseAvps(b[cursor + 6..]))
            else if end > |b| then Err
            else if end < cursor + 6 then Panic
            else Prepend(Avp(h, DataTypeOf(h.typ), b[cursor + 6..end]), ParseAvps(b[end..]))
  {
    var len := TotalLen(GetHeader(b[cursor..]));
    SliceOfSlice(b, cursor, 6, 6);
    if 6 <= len <= |b| - cursor {
      SliceOfSlice(b, cursor, 6, len);
    }
  }

  method ParseAVPBuffer(b: seq<Octet>) returns (r: Result<seq<Avp>>)
    ensures r == ParseAvpList(b)
  {
    var avps: seq<Avp> := [];
    var cursor := 0;
    assert b[0..] == b;
    AppendedNothing(ParseAvps(b));
    while |b| - cursor >= HEADER_LEN
      invariant 0 <= cursor <= |b|
      invariant ParseAvps(b) == Appended(avps, ParseAvps(b[cursor..]))
      decreases |b| - cursor
    {
      ParseAvpsAt(b, cursor);
      var h := GetHeader(b[cursor..]);
      cursor := cursor + 6;
      if !Recognised(h.typ, h.vendor) {
        if IsMandatory(h) {
          return Err;
        }
        continue;
      }
      var n := DataLen(h);
      if n > |b| - cursor {
        return Err;
      }
      if n < 0 {
        return Panic;
      }
      var avp := Avp(h, DataTypeOf(h.typ), b[cursor..cursor + n]);
      AppendedPrepend(avps, avp, ParseAvps(b[cursor + n..]));
      avps := avps + [avp];
      cursor := cursor + n;
    }
    assert ParseAvps(b[cursor..]) == Ok([]) && avps + [] == avps;
    return if |avps| == 0 then Err else Ok(avps);
  }

  // What a header declares, summed over a list.
  method AvpsLengthBytes(avps: seq<Avp>) returns (nb: nat)
    ensures (forall i | 0 <= i < |avps| :: WellFormedAvp(avps[i])) ==> nb == |AvpsBytes(avps)|
  {
    nb := 0;
    for i := 0 to |avps|
      invariant (forall j | 0 <= j < i :: WellFormedAvp(avps[j])) ==> nb == |AvpsBytes(avps[..i])|
    {
      assert avps[..i + 1] == avps[..i] + [avps[i]];
      AvpsBytesAppend(avps[..i], avps[i]);
      nb := nb + TotalLen(avps[i].hdr);
    }
    assert avps[..|avps|] == avps;
  }

  lemma {:induction false} AvpsBytesAppend(avps: seq<Avp>, a: Avp)
    ensures AvpsBytes(avps + [a]) == AvpsBytes(avps) + AvpBytes(a)
    decreases |avps|
  {
    if avps == [] {
      assert ([] + [a])[1..] == [];
    } else {
      assert (avps + [a])[1..] == avps[1..] + [a];
      AvpsBytesAppend(avps[1..], a);
    }
  }

  // ---------- Laws of the list parser ----------

  lemma AvpRoundTrip(a: Avp, rest: seq<Octet>)
    requires WellFormedAvp(a)
    ensures ParseAvps(AvpBytes(a) + rest) == Prepend(a, ParseAvps(rest))
  {
    var b := AvpBytes(a) + rest;
    assert b == AvpHeaderBytes(a.hdr) + (a.data + rest);
    GetHeaderOf(a.hdr, a.data + rest);
    var end := 6 + |a.data|;
    assert b[6..end] == a.data;
    assert b[end..] == rest;
  }

  /** A list of well-formed attributes, followed by anything, parses to itself and then whatever follows. */
  lemma {:induction false} AvpsRoundTrip(avps: seq<Avp>, rest: seq<Octet>)
    requires forall i | 0 <= i < |avps| :: WellFormedAvp(avps[i])
    ensures ParseAvps(AvpsBytes(avps) + rest) == Appended(avps, ParseAvps(rest))
    decreases |avps|
  {
    if avps == [] {
      assert AvpsBytes(avps) + rest == rest;
      AppendedNothing(ParseAvps(rest));
    } else {
      var tail := AvpsBytes(avps[1..]) + rest;
      assert AvpsBytes(avps) + rest == AvpBytes(avps[0]) + tail;
      AvpRoundTrip(avps[0], tail);
      AvpsRoundTrip(avps[1..], rest);
      PrependAppended(avps[0], avps[1..], ParseAvps(rest));
      assert [avps[0]] + avps[1..] == avps;
    }
  }

  /**
   An unrecognised optional attribute is transparent: the buffer parses as if
   its header were not there, its payload taking part in the parse.
   */
  lemma UnknownOptionalIsTransparent(avps: seq<Avp>, h: AvpHeader, rest: seq<Octet>)
    requires forall i | 0 <= i < |avps| :: WellFormedAvp(avps[i])
    requires !Recognised(h.typ, h.vendor) && !IsMandatory(h)
    ensures ParseAvps(AvpsBytes(avps) + (AvpHeaderBytes(h) + rest)) == ParseAvps(AvpsBytes(avps) + rest)
  {
    SkipsHeader(h, rest);
    AvpsRoundTrip(avps, AvpHeaderBytes(h) + rest);
    AvpsRoundTrip(avps, rest);
  }

  // The header of a mandatory attribute of unknown type, at which the parser gives up.
  const UNKNOWN_MANDATORY: seq<Octet> := [0x80, 0x06, 0x00, 0x09, 0x00, 0x01]

  lemma UnknownMandatoryFails()
    ensures ParseAvps(UNKNOWN_MANDATORY) == Err
  {
    assert GetHeader(UNKNOWN_MANDATORY) == AvpHeader(0x8006, 9, 1);
  }

  // Headers of unrecognised optional attributes, one after the other, and nothing else.
  predicate Skippable(b: seq<Octet>)
    decreases |b|
  {
    b == [] || (|b| >= 6 && SkippedHeader(GetHeader(b)) && Skippable(b[6..]))
  }

  predicate SkippedHeader(h: AvpHeader) { !Recognised(h.typ, h.vendor) && !IsMandatory(h) }

  lemma {:induction false} SkippableIsSkipped(b: seq<Octet>, rest: seq<Octet>)
    requires Skippable(b)
    ensures ParseAvps(b + rest) == ParseAvps(rest)
    decreases |b|
  {
    if b == [] {
      assert b + rest == rest;
    } else {
      assert (b + rest)[..6] == b[..6] && GetHeader(b + rest) == GetHeader(b);
      assert (b + rest)[6..] == b[6..] + rest;
      SkippableIsSkipped(b[6..], rest);
    }
  }

  // Octets too short to be a header, and how to go on so that they are noticed.
  function Revealing(b: seq<Octet>): seq<Octet>
    requires 0 < |b| < 6
  {
    if b[0] >= 0x80 then Zeros(6 - |b|) else UNKNOWN_MANDATORY
  }

  lemma FragmentIsNoticed(b: seq<Octet>)
    requires 0 < |b| < 6
    ensures ParseAvps(b + Revealing(b)) != ParseAvps(Revealing(b))
  {
    var w := b + Revealing(b);
    assert w[0] == b[0];
    if b[0] >= 0x80 {
      MandatoryIsNoticed(w);
    } else {
      UnknownMandatoryFails();
      FragmentThenUnknown(b, w);
    }
  }

  lemma MandatoryIsNoticed(w: seq<Octet>)
    requires |w| == 6 && w[0] >= 0x80
    ensures ParseAvps(w) != Ok([])
  {
    assert IsMandatory(GetHeader(w));
  }

  // Whatever the fragment, completing it with that header gives an unrecognised optional one.
  lemma FragmentThenUnknown(b: seq<Octet>, w: seq<Octet>)
    requires 0 < |b| < 6 && b[0] < 0x80 && w == b + UNKNOWN_MANDATORY
    ensures SkippedHeader(GetHeader(w)) && ParseAvps(w) == Ok([])
  {
    var h := GetHeader(w);
    assert h.vendor == (w[2] as int) * 256 + w[3] && h.typ == (w[4] as int) * 256 + w[5];
    assert !IsMandatory(h);
    assert !Recognised(h.typ, h.vendor);
    assert |w[6..]| < 6;
  }

  // The first octets that are not skipped, if any, can be noticed.
  lemma {:induction false} UnskippableIsNoticed(b: seq<Octet>) returns (rest: seq<Octet>)
    requires !Skippable(b)
    ensures ParseAvps(b + rest) != ParseAvps(rest)
    decreases |b|
  {
    if |b| < 6 {
      rest := Revealing(b);
      FragmentIsNoticed(b);
    } else if SkippedHeader(GetHeader(b)) {
      rest := UnskippableIsNoticed(b[6..]);
      assert GetHeader(b + rest) == GetHeader(b) && (b + rest)[6..] == b[6..] + rest;
    } else {
      rest := [];
      assert b + rest == b;
    }
  }

  /**
   RFC 2661 wants an unrecognised optional attribute ignored whole.  The parser
   ignores it whatever follows exactly when its payload is itself a chain of
   headers of unrecognised optional attributes.
   */
  lemma UnknownOptionalIgnoredExactly(h: AvpHeader, payload: seq<Octet>)
    requires SkippedHeader(h)
    ensures (forall rest: seq<Octet> :: ParseAvps(AvpHeaderBytes(h) + (payload + rest)) == ParseAvps(rest))
            <==> Skippable(payload)
  {
    forall rest: seq<Octet>
      ensures ParseAvps(AvpHeaderBytes(h) + (payload + rest)) == ParseAvps(payload + rest)
    {
      SkipsHeader(h, payload + rest);
    }
    if Skippable(payload) {
      forall rest: seq<Octet>
        ensures ParseAvps(AvpHeaderBytes(h) + (payload + rest)) == ParseAvps(rest)
      {
        SkippableIsSkipped(payload, rest);
      }
    } else {
      var rest := UnskippableIsNoticed(payload);
      assert ParseAvps(AvpHeaderBytes(h) + (payload + rest)) != ParseAvps(rest);
    }
  }

  /** No length but zero makes every payload of it ignored. */
  lemma IgnoredLengthIsZero(h: AvpHeader, n: nat)
    requires SkippedHeader(h)
    ensures (forall payload: seq<Octet>, rest: seq<Octet> | |payload| == n ::
               ParseAvps(AvpHeaderBytes(h) + (payload + rest)) == ParseAvps(rest))
            <==> n == 0
  {
    if n == 0 {
      forall payload: seq<Octet>, rest: seq<Octet> | |payload| == n
        ensures ParseAvps(AvpHeaderBytes(h) + (payload + rest)) == ParseAvps(rest)
      {
        UnknownOptionalIgnoredExactly(h, payload);
      }
    } else {
      assert !Skippable(Zeros(n));
      UnknownOptionalIgnoredExactly(h, Zeros(n));
    }
  }

  // An optional attribute of vendor 9 whose payload reads as a Message Type.
  const DISGUISED: seq<Octet> := [0x00, 0x0e, 0x00, 0x09, 0x00, 0x01, 0x80, 0x08, 0x00, 0x00, 0x00, 0x00, 0x00, 0x01]

  /** The payload of an attribute that should be ignored is returned as an attribute of its own. */
  lemma UnknownOptionalExample()
    ensures SkippedHeader(GetHeader(DISGUISED)) && TotalLen(GetHeader(DISGUISED)) == |DISGUISED|
    ensures ParseAvps(DISGUISED) == Ok([Avp(AvpHeader(0x8008, VENDOR_IETF, TYPE_MESSAGE), MsgId, [0x00, 0x01])])
  {
    var inner := DISGUISED[6..];
    assert GetHeader(DISGUISED) == AvpHeader(0x000e, 9, 1);
    assert GetHeader(inner) == AvpHeader(0x8008, 0, 0);
    assert inner[6..8] == [0x00, 0x01] && inner[8..] == [];
    var a := Avp(AvpHeader(0x8008, VENDOR_IETF, TYPE_MESSAGE), MsgId, [0x00, 0x01]);
    assert ParseAvps(inner) == Ok([a] + []) && [a] + [] == [a];
  }

  lemma SkipsHeader(h: AvpHeader, rest: seq<Octet>)
    requires !Recognised(h.typ, h.vendor) && !IsMandatory(h)
    ensures ParseAvps(AvpHeaderBytes(h) + rest) == ParseAvps(rest)
  {
  }

  lemma PrintedAvp(b: seq<Octet>, end: nat)
    requires 6 <= end <= |b| && end == TotalLen(GetHeader(b)) && Recognised(GetHeader(b).typ, GetHeader(b).vendor)
    ensures var a := Avp(GetHeader(b), DataTypeOf(GetHeader(b).typ), b[6..end]);
            WellFormedAvp(a) && AvpBytes(a) == b[..end]
  {
    HeaderBytesOf(b);
  }

  // The attributes are well formed and their octets come from the buffer, all of it unless something was skipped.
  predicate From(avps: seq<Avp>, b: seq<Octet>)
  {
    && (forall i | 0 <= i < |avps| :: WellFormedAvp(avps[i]))
    && |AvpsBytes(avps)| <= |b|
    && (|AvpsBytes(avps)| == |b| ==> AvpsBytes(avps) == b)
  }

  lemma FromCons(a: Avp, tail: seq<Avp>, b: seq<Octet>, end: nat)
    requires end <= |b| && WellFormedAvp(a) && AvpBytes(a) == b[..end] && From(tail, b[end..])
    ensures From([a] + tail, b)
  {
    assert ([a] + tail)[1..] == tail;
    assert b == b[..end] + b[end..];
  }

  /**
   Everything the parser returns is well formed and comes from the buffer:
   printing it gives at most the octets of the buffer, and all of them exactly
   when nothing was skipped.
   */
  lemma {:induction false} ParsedAvps(b: seq<Octet>)
    requires ParseAvps(b).Ok?
    ensures From(ParseAvps(b).value, b)
    decreases |b|
  {
    if |b| >= 6 {
      var h := GetHeader(b);
      var end := TotalLen(h);
      if !Recognised(h.typ, h.vendor) {
        ParsedAvps(b[6..]);
      } else {
        ParsedAvps(b[end..]);
        PrintedAvp(b, end);
        FromCons(Avp(h, DataTypeOf(h.typ), b[6..end]), ParseAvps(b[end..]).value, b, end);
      }
    }
  }

  // ---------- Payloads ----------

  datatype ResCode = ResCode(result: U16, errCode: U16, errMsg: seq<Octet>)

  datatype Value =
    | NoValue
    | V16(u16: U16)
    | V32(u32: U32)
    | V64(u64: U64)
    | VText(text: seq<Octet>)
    | VRaw(raw: seq<Octet>)
    | VRes(rc: ResCode)
    | VMsg(msgType: U16)

  // The value must be of the Go type that belongs to the attribute; attributes without a value cannot be built.
  function EncodePayload(dt: DataType, v: Value): Result<seq<Octet>>
  {
    match (dt, v)
    case (Uint16, V16(x)) => Ok(U16Bytes(x))
    case (Uint32, V32(x)) => Ok(U32Bytes(x))
    case (Uint64, V64(x)) => Ok(U64Bytes(x))
    case (Text, VText(s)) => Ok(s)
    case (Raw, VRaw(s)) => Ok(s)
    case (MsgId, VMsg(t)) => Ok(U16Bytes(t))
    case (ResultCode, VRes(rc)) => Ok(U16Bytes(rc.result) + U16Bytes(rc.errCode) + rc.errMsg)
    case _ => Err
  }

  // A result code may stop after its first field, but not inside its second.
  function DecodeResultCode(b: seq<Octet>): Result<ResCode>
  {
    if |b| < 2 || |b| == 3 then Err
    else if |b| == 2 then Ok(ResCode(GetU16(b, 0), 0, []))
    else Ok(ResCode(GetU16(b, 0), GetU16(b, 2), b[4..]))
  }

  function Decode(a: Avp): Result<Value>
  {
    match a.dataType
    case Empty => Ok(NoValue)
    case Uint16 => if |a.data| == 2 then Ok(V16(GetU16(a.data, 0))) else Err
    case Uint32 => if |a.data| == 4 then Ok(V32(GetU32(a.data, 0))) else Err
    case Uint64 =>
      if |a.data| == 8
      then Ok(V64(GetU32(a.data, 0) as int * 0x1_0000_0000 + GetU32(a.data, 4))) else Err
    case Text => Ok(VText(a.data))
    case Raw => Ok(VRaw(a.data))
    case ResultCode =>
      (match DecodeResultCode(a.data)
       case Ok(rc) => Ok(VRes(rc))
       case _ => Err)
    case MsgId => if |a.data| == 2 then Ok(VMsg(GetU16(a.data, 0))) else Err
    case Unimplemented => Err
    case Illegal => Err
  }

  /** Decoding recovers every value that can be encoded. */
  lemma DecodeEncoded(dt: DataType, v: Value, h: AvpHeader)
    requires EncodePayload(dt, v).Ok?
    ensures Decode(Avp(h, dt, EncodePayload(dt, v).value)) == Ok(v)
  {
  }

  function NewAvp(vendor: U16, typ: U16, v: Value): Result<Avp>
  {
    if !Recognised(typ, vendor) then Err
    else
      match EncodePayload(DataTypeOf(typ), v)
      case Ok(data) =>
        Ok(Avp(NewAvpHeader(TableMandatory(typ), false, |data|, vendor, typ), DataTypeOf(typ), data))
      case _ => Err
  }

  /** A new attribute decodes to its value, and is well formed exactly when its payload fits the 10-bit length. */
  lemma NewAvpExactly(vendor: U16, typ: U16, v: Value)
    requires NewAvp(vendor, typ, v).Ok?
    ensures var a := NewAvp(vendor, typ, v).value;
            && Decode(a) == Ok(v)
            && (WellFormedAvp(a) <==> |a.data| <= 1017)
  {
  }
}
