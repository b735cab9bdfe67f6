/**
 The octets of L2TP control messages, position by position (sections 3.1 and 4.1
 of RFC 2661, section 3.2.1 of RFC 3931), and what each attribute's payload may
 be.
 */
module L2tpWire {
  import opened Bytes
  import opened A = Avp
  import opened Msg

  // ---------- Numbers ----------

  // A number by its four digits.
  lemma Digits(x: U32, a: Octet, b: Octet, c: Octet, d: Octet)
    requires x == a * 0x100_0000 + b * 0x1_0000 + c * 256 + d
    ensures a == x / 0x100_0000 && b == x / 0x1_0000 % 256 && c == x / 256 % 256 && d == x % 256
  {
    assert x / 0x1_0000 == a * 256 + b;
    assert x / 256 == (a * 256 + b) * 256 + c;
  }

  lemma U32Octets(x: U32)
    ensures U32Bytes(x) == [x / 0x100_0000, x / 0x1_0000 % 256, x / 256 % 256, x % 256]
  {
    var b := U32Bytes(x);
    Digits(x, b[0], b[1], b[2], b[3]);
  }

  // ---------- Headers ----------

  /** A version 2 message starts with flags, length, tunnel, session, ns and nr, high octets first. */
  lemma V2HeaderOctets(m: Message)
    requires m.hdr.V2Header?
    ensures var h := m.hdr;
            ToBytes(m) == [h.flagsVer / 256, h.flagsVer % 256, h.len / 256, h.len % 256, h.tid / 256, h.tid % 256,
                           h.sid / 256, h.sid % 256, h.ns / 256, h.ns % 256, h.nr / 256, h.nr % 256]
                          + AvpsBytes(m.avps)
  {
  }

  /** A version 3 message has one 32-bit identifier in place of the two. */
  lemma V3HeaderOctets(m: Message)
    requires m.hdr.V3Header?
    ensures var h := m.hdr;
            ToBytes(m) == [h.flagsVer / 256, h.flagsVer % 256, h.len / 256, h.len % 256,
                           h.ccid / 0x100_0000, h.ccid / 0x1_0000 % 256, h.ccid / 256 % 256, h.ccid % 256,
                           h.ns / 256, h.ns % 256, h.nr / 256, h.nr % 256]
                          + AvpsBytes(m.avps)
  {
    U32Octets(m.hdr.ccid);
  }

  // ---------- Attributes ----------

  /** The M bit is the highest of an attribute, the H bit the next; ten bits of length, vendor and type follow. */
  lemma AvpHeaderOctets(mandatory: bool, hidden: bool, n: nat, vendor: U16, typ: U16)
    requires n <= 1017
    ensures AvpHeaderBytes(NewAvpHeader(mandatory, hidden, n, vendor, typ))
            == [(if mandatory then 0x80 else 0) + (if hidden then 0x40 else 0) + (n + 6) / 256, (n + 6) % 256,
                vendor / 256, vendor % 256, typ / 256, typ % 256]
  {
  }

  /** And they are read from the same places, whatever the other bits say. */
  lemma AvpHeaderReads(b: seq<Octet>)
    requires |b| >= 6
    ensures IsMandatory(GetHeader(b)) <==> b[0] >= 0x80
    ensures IsHidden(GetHeader(b)) <==> b[0] % 0x80 >= 0x40
    ensures TotalLen(GetHeader(b)) == b[0] as int % 4 * 256 + b[1]
    ensures GetHeader(b).vendor == b[2] as int * 256 + b[3] && GetHeader(b).typ == b[4] as int * 256 + b[5]
  {
  }

  // ---------- Payloads ----------

  predicate TwoOctets(typ: U16) { typ in {0, 6, 9, 10, 14, 29, 68, 69, 70, 71} }

  predicate FourOctets(typ: U16) { typ in {3, 4, 24, 25, 38, 60, 61, 63, 64} || 15 <= typ <= 19 }

  predicate EightOctets(typ: U16) { typ in {74, 75} }

  // Reserved numbers, and types the program knows by name only.
  predicate Undecodable(typ: U16) { typ in {12, 20, 34, 35, 62, 67} || 40 <= typ <= 58 }

  // The payload lengths that an attribute of a known type may have.
  predicate SizeOk(typ: U16, n: nat)
  {
    if TwoOctets(typ) then n == 2
    else if FourOctets(typ) then n == 4
    else if EightOctets(typ) then n == 8
    else if typ == 1 then n == 2 || n >= 4
    else !Undecodable(typ)
  }

  /** An attribute decodes exactly if its payload has a length that its type allows. */
  lemma DecodesExactly(a: A.Avp)
    requires WellFormedAvp(a)
    ensures Decode(a).Ok? <==> SizeOk(a.hdr.typ, |a.data|)
  {
  }

  /** The values of fixed size, octet by octet; a result code may end after its first two octets. */
  lemma DecodedValue(a: A.Avp)
    requires WellFormedAvp(a) && Decode(a).Ok?
    ensures var t, d, v := a.hdr.typ, a.data, Decode(a).value;
            && (t == 0 ==> v == VMsg(d[0] as int * 256 + d[1]))
            && (TwoOctets(t) && t != 0 ==> v == V16(d[0] as int * 256 + d[1]))
            && (FourOctets(t) ==>
                  v == V32(d[0] as int * 0x100_0000 + d[1] as int * 0x1_0000 + d[2] as int * 256 + d[3]))
            && (t == 1 && |d| == 2 ==> v == VRes(ResCode(d[0] as int * 256 + d[1], 0, [])))
            && (t == 1 && |d| >= 4 ==>
                  v == VRes(ResCode(d[0] as int * 256 + d[1], d[2] as int * 256 + d[3], d[4..])))
            && (t in {7, 8, 21, 22, 23, 30, 37} ==> v == VText(d))
            && (t in {2, 5, 11, 13, 26, 27, 28, 31, 32, 33, 36, 59, 65, 66, 72, 73} ==> v == VRaw(d))
  {
  }

  lemma DecodedLong(a: A.Avp)
    requires WellFormedAvp(a) && Decode(a).Ok? && EightOctets(a.hdr.typ)
    ensures var d := a.data;
            Decode(a).value
            == V64((d[0] as int * 0x100_0000 + d[1] as int * 0x1_0000 + d[2] as int * 256 + d[3]) * 0x1_0000_0000
                   + (d[4] as int * 0x100_0000 + d[5] as int * 0x1_0000 + d[6] as int * 256 + d[7]))
  {
  }

  // A value of the kind that an attribute holds.
  predicate KindOk(typ: U16, v: Value)
  {
    match v
    case VMsg(_) => typ == 0
    case V16(_) => TwoOctets(typ) && typ != 0
    case V32(_) => FourOctets(typ)
    case V64(_) => EightOctets(typ)
    case VRes(_) => typ == 1
    case VText(_) => typ in {7, 8, 21, 22, 23, 30, 37}
    case VRaw(_) => typ in {2, 5, 11, 13, 26, 27, 28, 31, 32, 33, 36, 59, 65, 66, 72, 73}
    case NoValue => false
  }

  // The types whose attributes are built with the M bit.
  predicate Mandatory(typ: U16)
  {
    typ in {0, 1, 3, 4, 7} || 9 <= typ <= 19 || 21 <= typ <= 24 || 34 <= typ <= 36 || typ == 39
  }

  /** An attribute can be built exactly for the types known, 0 to 75 of vendor 0, and a value of the right kind. */
  lemma BuildsExactly(vendor: U16, typ: U16, v: Value)
    ensures NewAvp(vendor, typ, v).Ok? <==> vendor == 0 && typ <= 75 && KindOk(typ, v)
    ensures NewAvp(vendor, typ, v).Ok? ==>
              var a := NewAvp(vendor, typ, v).value;
              && a.hdr.vendor == 0 && a.hdr.typ == typ && !IsHidden(a.hdr)
              && (IsMandatory(a.hdr) <==> Mandatory(typ))
  {
  }

  /** The octets of an attribute that has been built. */
  lemma BuiltOctets(typ: U16, v: Value, data: seq<Octet>)
    requires NewAvp(0, typ, v).Ok? && EncodePayload(DataTypeOf(typ), v) == Ok(data) && |data| <= 1017
    ensures AvpBytes(NewAvp(0, typ, v).value)
            == [(if Mandatory(typ) then 0x80 else 0) + (|data| + 6) / 256, (|data| + 6) % 256,
                0, 0, typ / 256, typ % 256] + data
  {
    BuildsExactly(0, typ, v);
    AvpHeaderOctets(Mandatory(typ), false, |data|, 0, typ);
  }
}
