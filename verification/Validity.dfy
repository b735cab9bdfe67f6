/** Which messages from the wire pass validation, by the attribute types and payload lengths they carry. */
module Validity {
  import opened Bytes
  import opened A = Avp
  import opened Msg
  import opened MsgSpec
  import opened L2tpWire

  predicate Has(avps: seq<A.Avp>, typ: U16) { exists i :: 0 <= i < |avps| && avps[i].hdr.typ == typ }

  // Every type of must is there; attributes of must and may have a length their type allows, others no M bit.
  predicate Meets(avps: seq<A.Avp>, must: set<U16>, may: set<U16>)
  {
    && (forall t | t in must :: Has(avps, t))
    && (forall i | 0 <= i < |avps| ::
          var t := avps[i].hdr.typ;
          if t in must || t in may then SizeOk(t, |avps[i].data|) else !IsMandatory(avps[i].hdr))
  }

  lemma AcceptsIsMeets(avps: seq<A.Avp>, must: set<U16>, may: set<U16>, spec: Spec)
    requires AllWellFormed(avps) && must !! may
    requires forall t: U16 :: t in spec <==> t in must || t in may
    requires forall t: U16 | t in spec :: spec[t] == Must <==> t in must
    ensures Accepts(avps, spec) <==> Meets(avps, must, may)
  {
    forall i | 0 <= i < |avps|
      ensures Decode(avps[i]).Ok? <==> SizeOk(avps[i].hdr.typ, |avps[i].data|)
    {
      DecodesExactly(avps[i]);
    }
    if Accepts(avps, spec) {
      forall t | t in must
        ensures Has(avps, t)
      {
        var a :| a in avps && a.hdr.typ == t;
      }
      assert forall i | 0 <= i < |avps| :: avps[i] in avps;
    }
    if Meets(avps, must, may) {
      forall t | t in spec && spec[t] == Must
        ensures exists a :: a in avps && a.hdr.typ == t
      {
        var i :| 0 <= i < |avps| && avps[i].hdr.typ == t;
        assert avps[i] in avps;
      }
    }
  }

  lemma SpecIsMeets(avps: seq<A.Avp>, must: set<U16>, may: set<U16>)
    requires AllWellFormed(avps) && must !! may
    ensures Accepts(avps, Optional(may) + Required(must)) <==> Meets(avps, must, may)
  {
    AcceptsIsMeets(avps, must, may, Optional(may) + Required(must));
  }

  lemma RequiredIsMeets(avps: seq<A.Avp>, must: set<U16>)
    requires AllWellFormed(avps)
    ensures Accepts(avps, Required(must)) <==> Meets(avps, must, {})
  {
    AcceptsIsMeets(avps, must, {}, Required(must));
  }

  // The attributes of the messages that set up, keep up and end a tunnel (sections 6.1 to 6.5 of RFC 2661).
  predicate TunnelMessageOk(t: U16, avps: seq<A.Avp>)
  {
    || (t == 1 && Meets(avps, {0, 2, 3, 7, 9}, {4, 5, 6, 8, 10, 11}))
    || (t == 2 && Meets(avps, {0, 2, 3, 7, 9}, {4, 5, 6, 8, 10, 11, 13}))
    || (t == 3 && Meets(avps, {0}, {13}))
    || (t == 4 && Meets(avps, {0, 1, 9}, {}))
    || (t == 6 && Meets(avps, {0}, {}))
  }

  // The attributes of the messages of a call (sections 6.6 to 6.8 and 6.12 of RFC 2661).
  predicate CallMessageOk(t: U16, avps: seq<A.Avp>)
  {
    || (t == 10 && Meets(avps, {0, 14, 15}, {18, 21, 22, 23, 25}))
    || (t == 11 && Meets(avps, {0, 14}, {}))
    || (t == 12 && Meets(avps, {0, 19, 24}, {26, 27, 28, 29, 30, 31, 32, 33, 37, 38, 39}))
    || (t == 14 && Meets(avps, {0, 1, 14}, {12}))
  }

  lemma TunnelSpecs(t: U16, avps: seq<A.Avp>)
    requires AllWellFormed(avps) && t in {1, 2, 3, 4, 6}
    ensures V2Spec(t).Ok? && (Accepts(avps, V2Spec(t).value) <==> TunnelMessageOk(t, avps))
  {
    if t == 1 {
      SpecIsMeets(avps, {0, 2, 3, 7, 9}, {4, 5, 6, 8, 10, 11});
      assert {4, 10, 11, 5, 6, 8} == {4, 5, 6, 8, 10, 11} && {0, 2, 7, 3, 9} == {0, 2, 3, 7, 9};
    } else if t == 2 {
      SpecIsMeets(avps, {0, 2, 3, 7, 9}, {4, 5, 6, 8, 10, 11, 13});
      assert {4, 10, 11, 13, 5, 6, 8} == {4, 5, 6, 8, 10, 11, 13};
    } else if t == 3 {
      SpecIsMeets(avps, {0}, {13});
    } else if t == 4 {
      RequiredIsMeets(avps, {0, 1, 9});
      assert {0, 9, 1} == {0, 1, 9};
    } else {
      RequiredIsMeets(avps, {0});
    }
  }

  lemma ConnectedSpec(avps: seq<A.Avp>)
    requires AllWellFormed(avps)
    ensures V2Spec(12).Ok? && (Accepts(avps, V2Spec(12).value) <==> CallMessageOk(12, avps))
  {
    SpecIsMeets(avps, {0, 19, 24}, {26, 27, 28, 29, 30, 31, 32, 33, 37, 38, 39});
    assert {0, 24, 19} == {0, 19, 24};
  }

  lemma CallSpecs(t: U16, avps: seq<A.Avp>)
    requires AllWellFormed(avps) && t in {10, 11, 12, 14}
    ensures V2Spec(t).Ok? && (Accepts(avps, V2Spec(t).value) <==> CallMessageOk(t, avps))
  {
    if t == 10 {
      SpecIsMeets(avps, {0, 14, 15}, {18, 21, 22, 23, 25});
      assert {18, 25, 22, 21, 23} == {18, 21, 22, 23, 25};
    } else if t == 11 {
      RequiredIsMeets(avps, {0, 14});
    } else if t == 12 {
      ConnectedSpec(avps);
    } else {
      SpecIsMeets(avps, {0, 1, 14}, {12});
    }
  }

  lemma TypeOfParsed(m: Message)
    requires WellFormed(m) && m.avps != []
    ensures var d := m.avps[0].data; TypeOf(m) == if |d| == 2 then Ok(d[0] as int * 256 + d[1]) else Panic
  {
  }

  /**
   The messages from the wire that pass validation, exactly: the first attribute
   holds the message's type in two octets; version 2 has the nine messages below
   with their mandatory and optional attributes, version 3 the HELLO; every
   attribute that belongs to the message has a payload length its type allows,
   and no other has the M bit.
   */
  lemma ValidExactly(m: Message)
    requires WellFormed(m)
    ensures ValidMessage(m) <==>
            && m.avps != [] && |m.avps[0].data| == 2
            && var t := m.avps[0].data[0] as int * 256 + m.avps[0].data[1];
               if m.hdr.V2Header? then TunnelMessageOk(t, m.avps) || CallMessageOk(t, m.avps)
               else t == 6 && Meets(m.avps, {0}, {36, 59})
  {
    if m.avps != [] {
      TypeOfParsed(m);
      if |m.avps[0].data| == 2 {
        var t := m.avps[0].data[0] as int * 256 + m.avps[0].data[1];
        if m.hdr.V3Header? {
          SpecIsMeets(m.avps, {0}, {36, 59});
        } else if t in {1, 2, 3, 4, 6} {
          TunnelSpecs(t, m.avps);
        } else if t in {10, 11, 12, 14} {
          CallSpecs(t, m.avps);
        }
      }
    }
  }
}
