/** Exactly which datagrams parse, and which make the receiver panic. */
module Crash {
  import opened Bytes
  import opened SeqNum
  import opened A = Avp
  import opened Msg
  import opened MsgSpec

  // What the attribute parser steps over: a whole attribute, or the header of one it does not know.
  datatype Item = Whole(a: A.Avp) | Skipped(h: AvpHeader)

  predicate ItemOk(i: Item)
  {
    match i
    case Whole(a) => WellFormedAvp(a)
    case Skipped(h) => SkippedHeader(h)
  }

  function ItemBytes(i: Item): seq<Octet>
  {
    match i
    case Whole(a) => AvpBytes(a)
    case Skipped(h) => AvpHeaderBytes(h)
  }

  function ItemsBytes(items: seq<Item>): seq<Octet>
    decreases |items|
  {
    if items == [] then [] else ItemBytes(items[0]) + ItemsBytes(items[1..])
  }

  // A known attribute whose length does not cover its own header.
  predicate Short(h: AvpHeader) { Recognised(h.typ, h.vendor) && TotalLen(h) < 6 }

  predicate AreItems(items: seq<Item>) { forall i | 0 <= i < |items| :: ItemOk(items[i]) }

  // The octets are these items and then the rest.
  predicate Made(b: seq<Octet>, items: seq<Item>, rest: seq<Octet>)
  {
    AreItems(items) && b == ItemsBytes(items) + rest
  }

  lemma Regroup(x: seq<Octet>, y: seq<Octet>, z: seq<Octet>)
    ensures (x + y) + z == x + (y + z)
  {
  }

  lemma MadeMore(item: Item, items: seq<Item>, rest: seq<Octet>, b: seq<Octet>, b': seq<Octet>)
    requires ItemOk(item) && Made(b, items, rest) && b' == ItemBytes(item) + b
    ensures Made(b', [item] + items, rest)
  {
    assert ([item] + items)[1..] == items;
    Regroup(ItemBytes(item), ItemsBytes(items), rest);
  }

  predicate StartsShort(b: seq<Octet>) { |b| >= 6 && Short(GetHeader(b)) }

  // The octets hold such a header after items that parse.
  ghost predicate HoldsShort(b: seq<Octet>)
  {
    exists items: seq<Item>, rest: seq<Octet> :: Made(b, items, rest) && StartsShort(rest)
  }

  lemma ShortPanics(b: seq<Octet>)
    requires StartsShort(b)
    ensures ParseAvps(b) == Panic
  {
  }

  // The first item, and what is left.
  lemma MadeLess(b: seq<Octet>, items: seq<Item>, tail: seq<Octet>) returns (rest: seq<Octet>)
    requires Made(b, items, tail) && items != []
    ensures Made(rest, items[1..], tail) && b == ItemBytes(items[0]) + rest
  {
    var first, others := ItemBytes(items[0]), ItemsBytes(items[1..]);
    rest := others + tail;
    Regroup(first, others, tail);
  }

  lemma ItemThenPanic(b: seq<Octet>, item: Item, rest: seq<Octet>)
    requires ItemOk(item) && ParseAvps(rest) == Panic && b == ItemBytes(item) + rest
    ensures ParseAvps(b) == Panic
  {
    match item
    case Whole(a) => AvpRoundTrip(a, rest);
    case Skipped(h) => SkipsHeader(h, rest);
  }

  lemma {:induction false} PanicBehindItems(b: seq<Octet>, items: seq<Item>, tail: seq<Octet>)
    requires Made(b, items, tail) && ParseAvps(tail) == Panic
    ensures ParseAvps(b) == Panic
    decreases |items|
  {
    if items == [] {
      assert b == tail;
    } else {
      var rest := MadeLess(b, items, tail);
      PanicBehindItems(rest, items[1..], tail);
      ItemThenPanic(b, items[0], rest);
    }
  }

  // One item in front of octets that hold a short header.
  lemma HoldsShortBehind(item: Item, rest: seq<Octet>, b: seq<Octet>)
    requires ItemOk(item) && HoldsShort(rest) && b == ItemBytes(item) + rest
    ensures HoldsShort(b)
  {
    var items: seq<Item>, tail: seq<Octet> :| Made(rest, items, tail) && StartsShort(tail);
    MadeMore(item, items, tail, rest, b);
  }

  lemma HeadIsShort(b: seq<Octet>)
    requires StartsShort(b)
    ensures HoldsShort(b)
  {
    assert Made(b, [], b);
  }

  // Where a panic comes from.
  lemma PanicCase(b: seq<Octet>)
    requires ParseAvps(b) == Panic
    ensures |b| >= 6
    ensures var h := GetHeader(b);
            || (SkippedHeader(h) && ParseAvps(b[6..]) == Panic)
            || Short(h)
            || (Recognised(h.typ, h.vendor) && 6 <= TotalLen(h) <= |b| && ParseAvps(b[TotalLen(h)..]) == Panic)
  {
  }

  lemma SkippedThenRest(b: seq<Octet>)
    requires |b| >= 6 && SkippedHeader(GetHeader(b))
    ensures b == ItemBytes(Skipped(GetHeader(b))) + b[6..]
  {
    A.HeaderBytesOf(b);
  }

  lemma WholeThenRest(b: seq<Octet>, end: nat)
    requires 6 <= end <= |b| && end == TotalLen(GetHeader(b)) && Recognised(GetHeader(b).typ, GetHeader(b).vendor)
    ensures var a := A.Avp(GetHeader(b), DataTypeOf(GetHeader(b).typ), b[6..end]);
            WellFormedAvp(a) && b == ItemBytes(Whole(a)) + b[end..]
  {
    PrintedAvp(b, end);
    assert b == b[..end] + b[end..];
  }

  lemma {:induction false} PanicHasShort(b: seq<Octet>)
    requires ParseAvps(b) == Panic
    ensures HoldsShort(b)
    decreases |b|
  {
    PanicCase(b);
    var h := GetHeader(b);
    if Short(h) {
      HeadIsShort(b);
    } else if SkippedHeader(h) {
      PanicHasShort(b[6..]);
      SkippedThenRest(b);
      HoldsShortBehind(Skipped(h), b[6..], b);
    } else {
      var end := TotalLen(h);
      PanicHasShort(b[end..]);
      WholeThenRest(b, end);
      HoldsShortBehind(Whole(A.Avp(h, DataTypeOf(h.typ), b[6..end])), b[end..], b);
    }
  }

  /** The attribute parser panics exactly on octets that hold a short header after items that parse. */
  lemma AvpPanicExactly(b: seq<Octet>)
    ensures ParseAvps(b) == Panic <==> HoldsShort(b)
  {
    if ParseAvps(b) == Panic {
      PanicHasShort(b);
    }
    if HoldsShort(b) {
      var items: seq<Item>, rest: seq<Octet> :| Made(b, items, rest) && StartsShort(rest);
      ShortPanics(rest);
      PanicBehindItems(b, items, rest);
    }
  }

  // ---------- What the parser accepts ----------

  function ItemAvps(item: Item): seq<A.Avp> { if item.Whole? then [item.a] else [] }

  function Wholes(items: seq<Item>): seq<A.Avp>
    decreases |items|
  {
    if items == [] then [] else ItemAvps(items[0]) + Wholes(items[1..])
  }

  // The octets are items and less than a header, and these are the attributes among the items.
  ghost predicate Holds(b: seq<Octet>, avps: seq<A.Avp>)
  {
    exists items: seq<Item>, tail: seq<Octet> :: Made(b, items, tail) && |tail| < 6 && Wholes(items) == avps
  }

  lemma ItemThenRest(b: seq<Octet>, item: Item, rest: seq<Octet>, avps: seq<A.Avp>)
    requires ItemOk(item) && ParseAvps(rest) == Ok(avps) && b == ItemBytes(item) + rest
    ensures ParseAvps(b) == Ok(ItemAvps(item) + avps)
  {
    match item
    case Whole(a) => AvpRoundTrip(a, rest);
    case Skipped(h) =>
      SkipsHeader(h, rest);
      assert [] + avps == avps;
  }

  lemma {:induction false} ItemsParse(b: seq<Octet>, items: seq<Item>, tail: seq<Octet>)
    requires Made(b, items, tail) && |tail| < 6
    ensures ParseAvps(b) == Ok(Wholes(items))
    decreases |items|
  {
    if items == [] {
      assert b == tail;
    } else {
      var rest := MadeLess(b, items, tail);
      ItemsParse(rest, items[1..], tail);
      ItemThenRest(b, items[0], rest, Wholes(items[1..]));
    }
  }

  lemma HoldsMore(item: Item, rest: seq<Octet>, b: seq<Octet>, avps: seq<A.Avp>)
    requires ItemOk(item) && Holds(rest, avps) && b == ItemBytes(item) + rest
    ensures Holds(b, ItemAvps(item) + avps)
  {
    var items: seq<Item>, tail: seq<Octet> :| Made(rest, items, tail) && |tail| < 6 && Wholes(items) == avps;
    MadeMore(item, items, tail, rest, b);
    assert ([item] + items)[1..] == items;
    assert Wholes([item] + items) == ItemAvps(item) + avps;
  }

  lemma HoldsNothing(b: seq<Octet>)
    requires |b| < 6
    ensures Holds(b, [])
  {
    assert Made(b, [], b) && Wholes([]) == [];
  }

  lemma {:induction false} ParsedHolds(b: seq<Octet>)
    requires ParseAvps(b).Ok?
    ensures Holds(b, ParseAvps(b).value)
    decreases |b|
  {
    if |b| < 6 {
      HoldsNothing(b);
    } else if SkippedHeader(GetHeader(b)) {
      ParsedHolds(b[6..]);
      SkippedThenRest(b);
      HoldsMore(Skipped(GetHeader(b)), b[6..], b, ParseAvps(b[6..]).value);
      assert [] + ParseAvps(b[6..]).value == ParseAvps(b).value;
    } else {
      var h := GetHeader(b);
      var end := TotalLen(h);
      ParsedHolds(b[end..]);
      WholeThenRest(b, end);
      HoldsMore(Whole(A.Avp(h, DataTypeOf(h.typ), b[6..end])), b[end..], b, ParseAvps(b[end..]).value);
    }
  }

  /** The attribute parser succeeds with a list exactly on octets that are items with that list among them. */
  lemma AvpsParseExactly(b: seq<Octet>, avps: seq<A.Avp>)
    ensures ParseAvps(b) == Ok(avps) <==> Holds(b, avps)
  {
    if ParseAvps(b) == Ok(avps) {
      ParsedHolds(b);
    }
    if Holds(b, avps) {
      var items: seq<Item>, tail: seq<Octet> :| Made(b, items, tail) && |tail| < 6 && Wholes(items) == avps;
      ItemsParse(b, items, tail);
    }
  }

  // ---------- Whole datagrams ----------

  // A message that the parser gets as far as reading attributes of.
  predicate Readable(b: seq<Octet>)
  {
    |b| >= 12 && 12 <= GetU16(b, 2) <= |b| && (GetU16(b, 0) % 16 == 2 || GetU16(b, 0) % 16 == 3)
  }

  function Body(b: seq<Octet>): seq<Octet>
    requires Readable(b)
  {
    b[12..GetU16(b, 2)]
  }

  // Where the parser looks for the next message.
  function NextOf(b: seq<Octet>): seq<Octet>
  {
    if |b| < 12 then []
    else
      var next := 4 + b[2] as int * 256 + b[3];
      if next <= |b| then b[next..] else []
  }

  // The datagram from its i-th message on.
  function Rest(b: seq<Octet>, i: nat): seq<Octet>
    decreases i
  {
    if i == 0 then b else NextOf(Rest(b, i - 1))
  }

  // Behind messages that parse there is one whose body holds a short header.
  ghost predicate ReachesShort(b: seq<Octet>)
    decreases |b|
  {
    Readable(b)
    && (HoldsShort(Body(b)) || (FirstMessage(b).Ok? && ReachesShort(AfterFirst(b))))
  }

  // The first attribute of a body is a Message Type whose value is not two octets.
  ghost predicate BadType(body: seq<Octet>)
  {
    exists avps: seq<A.Avp> ::
      Holds(body, avps) && avps != [] && avps[0].hdr.typ == TYPE_MESSAGE && |avps[0].data| != 2
  }

  lemma FirstOfReadable(b: seq<Octet>)
    requires Readable(b)
    ensures FirstMessage(b) ==
            var h := if GetU16(b, 0) % 16 == 2 then GetV2Header(b) else GetV3Header(b);
            if Body(b) == [] && h.V2Header? then Ok(Message(h, [])) else WithHeader(h, ParseAvpList(Body(b)))
  {
    var len: nat := GetU16(b, 2);
    var c := b[..len];
    assert GetU16(c, 0) == GetU16(b, 0) && GetU16(c, 2) == len;
    assert GetV2Header(c) == GetV2Header(b) && GetV3Header(c) == GetV3Header(b);
    assert c[12..] == Body(b);
  }

  lemma FirstOfUnreadable(b: seq<Octet>)
    requires |b| >= 12 && !Readable(b)
    ensures FirstMessage(b) == Err
  {
  }

  lemma FirstPanicExactly(b: seq<Octet>)
    requires |b| >= 12
    ensures FirstMessage(b) == Panic <==> Readable(b) && HoldsShort(Body(b))
  {
    if Readable(b) {
      FirstOfReadable(b);
      AvpPanicExactly(Body(b));
    } else {
      FirstOfUnreadable(b);
    }
  }

  /** The parser panics on a datagram exactly when a short header stands behind messages and items that parse. */
  lemma {:induction false} ParsePanicExactly(b: seq<Octet>)
    ensures ParseMessages(b) == Panic <==> ReachesShort(b)
    decreases |b|
  {
    if |b| >= 12 {
      FirstPanicExactly(b);
      ParsePanicExactly(AfterFirst(b));
      if !Readable(b) {
        FirstOfUnreadable(b);
      }
    }
  }

  lemma FirstAndRest(b: seq<Octet>, ms: seq<Message>)
    requires ParseMessages(b) == Ok(ms) && ms != []
    ensures |b| >= 12 && FirstMessage(b) == Ok(ms[0]) && ParseMessages(NextOf(b)) == Ok(ms[1..])
  {
    var rest := ParseMessages(AfterFirst(b)).value;
    assert ([FirstMessage(b).value] + rest)[1..] == rest;
  }

  // The messages from the i-th on are what these octets hold.
  predicate ParsesFrom(b: seq<Octet>, ms: seq<Message>, i: nat) { i <= |ms| && ParseMessages(b) == Ok(ms[i..]) }

  lemma NextParses(b: seq<Octet>, ms: seq<Message>, i: nat)
    requires ParsesFrom(b, ms, i) && i < |ms|
    ensures |b| >= 12 && FirstMessage(b) == Ok(ms[i]) && ParsesFrom(NextOf(b), ms, i + 1)
  {
    FirstAndRest(b, ms[i..]);
    assert ms[i..][1..] == ms[i + 1..];
  }

  lemma {:induction false} RestParses(b: seq<Octet>, ms: seq<Message>, i: nat)
    requires ParsesFrom(b, ms, 0) && i <= |ms|
    ensures ParsesFrom(Rest(b, i), ms, i)
    decreases i
  {
    if i > 0 {
      RestParses(b, ms, i - 1);
      var before := Rest(b, i - 1);
      NextParses(before, ms, i - 1);
      assert Rest(b, i) == NextOf(before);
    }
  }

  // The i-th message of a datagram that parses.
  lemma MessageAt(b: seq<Octet>, ms: seq<Message>, i: nat)
    requires ParseMessages(b) == Ok(ms) && i < |ms|
    ensures |Rest(b, i)| >= 12 && FirstMessage(Rest(b, i)) == Ok(ms[i])
  {
    ParsesFromStart(b, ms);
    RestParses(b, ms, i);
    NextParses(Rest(b, i), ms, i);
  }

  lemma BadTypeExactly(body: seq<Octet>, avps: seq<A.Avp>)
    requires ParseAvps(body) == Ok(avps)
    ensures BadType(body) <==> avps != [] && avps[0].hdr.typ == TYPE_MESSAGE && |avps[0].data| != 2
  {
    AvpsParseExactly(body, avps);
    if BadType(body) {
      var found: seq<A.Avp> :|
        Holds(body, found) && found != [] && found[0].hdr.typ == TYPE_MESSAGE && |found[0].data| != 2;
      AvpsParseExactly(body, found);
    }
  }

  lemma TypePanicsExactly(b: seq<Octet>)
    requires |b| >= 12 && FirstMessage(b).Ok?
    ensures Readable(b) && (TypeOf(FirstMessage(b).value) == Panic <==> BadType(Body(b)))
  {
    if !Readable(b) {
      FirstOfUnreadable(b);
      assert false;
    }
    FirstOfReadable(b);
    var m := FirstMessage(b).value;
    assert ParseAvps(Body(b)) == Ok(m.avps);
    BadTypeExactly(Body(b), m.avps);
    ParsedAvps(Body(b));
    assert m.avps != [] ==> WellFormedAvp(m.avps[0]);
  }

  // ---------- What the message parser accepts ----------

  // The header of a message, octet by octet.
  predicate HeaderAt(b: seq<Octet>, h: Header)
    requires |b| >= 12
  {
    && h.flagsVer == b[0] as int * 256 + b[1] && h.len == b[2] as int * 256 + b[3]
    && h.ns == b[8] as int * 256 + b[9] && h.nr == b[10] as int * 256 + b[11]
    && (if b[1] % 16 == 2
        then h.V2Header? && h.tid == b[4] as int * 256 + b[5] && h.sid == b[6] as int * 256 + b[7]
        else h.V3Header?
             && h.ccid == b[4] as int * 0x100_0000 + b[5] as int * 0x1_0000 + b[6] as int * 256 + b[7])
  }

  // The octets start with this message.
  ghost predicate StartsWith(b: seq<Octet>, m: Message)
  {
    && Readable(b) && HeaderAt(b, m.hdr)
    && if m.avps == [] then m.hdr.V2Header? && m.hdr.len == 12
       else Holds(Body(b), m.avps) && m.avps[0].hdr.typ == TYPE_MESSAGE
  }

  lemma HeaderIs(b: seq<Octet>, h: Header)
    requires Readable(b)
    ensures HeaderAt(b, h) <==> h == if GetU16(b, 0) % 16 == 2 then GetV2Header(b) else GetV3Header(b)
  {
  }

  /** The first message of a datagram, exactly. */
  lemma FirstExactly(b: seq<Octet>, m: Message)
    requires |b| >= 12
    ensures FirstMessage(b) == Ok(m) <==> StartsWith(b, m)
  {
    if Readable(b) {
      FirstOfReadable(b);
      HeaderIs(b, m.hdr);
      AvpsParseExactly(Body(b), m.avps);
    } else {
      FirstOfUnreadable(b);
    }
  }

  // The octets are these messages, each starting four octets behind the end of the one before.
  ghost predicate HoldsMessages(b: seq<Octet>, ms: seq<Message>)
  {
    |Rest(b, |ms|)| < 12 && forall i: nat | i < |ms| :: StartsWith(Rest(b, i), ms[i])
  }

  predicate HeadedBy(c: seq<Octet>, m: Message) { |c| >= 12 && FirstMessage(c) == Ok(m) }

  predicate AllHeaded(b: seq<Octet>, ms: seq<Message>) { forall j: nat | j < |ms| :: HeadedBy(Rest(b, j), ms[j]) }

  lemma HeldParse(b: seq<Octet>, ms: seq<Message>)
    requires AllHeaded(b, ms) && |Rest(b, |ms|)| < 12
    ensures ParsesFrom(b, ms, 0)
  {
    var i: nat := |ms|;
    ParsesNothing(Rest(b, i), ms);
    while i > 0
      invariant i <= |ms| && ParsesFrom(Rest(b, i), ms, i)
    {
      i := i - 1;
      HeldStep(b, ms, i);
    }
  }

  lemma HeldStep(b: seq<Octet>, ms: seq<Message>, i: nat)
    requires AllHeaded(b, ms) && i < |ms| && ParsesFrom(Rest(b, i + 1), ms, i + 1)
    ensures ParsesFrom(Rest(b, i), ms, i)
  {
    assert HeadedBy(Rest(b, i), ms[i]);
    assert Rest(b, i + 1) == NextOf(Rest(b, i));
    ParsesWithFirst(Rest(b, i), ms, i);
  }

  lemma HeldAreHeaded(b: seq<Octet>, ms: seq<Message>)
    requires HoldsMessages(b, ms)
    ensures AllHeaded(b, ms)
  {
    forall j: nat | j < |ms|
      ensures HeadedBy(Rest(b, j), ms[j])
    {
      assert StartsWith(Rest(b, j), ms[j]);
      FirstExactly(Rest(b, j), ms[j]);
    }
  }

  lemma ParsesNothing(c: seq<Octet>, ms: seq<Message>)
    requires |c| < 12
    ensures ParsesFrom(c, ms, |ms|)
  {
    assert ms[|ms|..] == [];
  }

  lemma ParsesWithFirst(c: seq<Octet>, ms: seq<Message>, i: nat)
    requires i < |ms| && |c| >= 12 && FirstMessage(c) == Ok(ms[i]) && ParsesFrom(NextOf(c), ms, i + 1)
    ensures ParsesFrom(c, ms, i)
  {
    assert [ms[i]] + ms[i + 1..] == ms[i..];
  }

  lemma ParsedIsHeld(b: seq<Octet>, ms: seq<Message>, i: nat)
    requires ParseMessages(b) == Ok(ms) && i < |ms|
    ensures StartsWith(Rest(b, i), ms[i])
  {
    MessageAt(b, ms, i);
    FirstExactly(Rest(b, i), ms[i]);
  }

  lemma ParsesFromStart(b: seq<Octet>, ms: seq<Message>)
    requires ParseMessages(b) == Ok(ms)
    ensures ParsesFrom(b, ms, 0)
  {
    assert ms[0..] == ms;
  }

  lemma ParsesNoMore(c: seq<Octet>, ms: seq<Message>)
    requires ParsesFrom(c, ms, |ms|)
    ensures |c| < 12
  {
    assert ms[|ms|..] == [];
    NothingLeft(c);
  }

  lemma ParsedEnds(b: seq<Octet>, ms: seq<Message>)
    requires ParseMessages(b) == Ok(ms)
    ensures |Rest(b, |ms|)| < 12
  {
    ParsesFromStart(b, ms);
    RestParses(b, ms, |ms|);
    ParsesNoMore(Rest(b, |ms|), ms);
  }

  lemma NothingLeft(b: seq<Octet>)
    requires ParseMessages(b) == Ok([])
    ensures |b| < 12
  {
  }

  /** The parser returns a list of messages exactly for the octets that hold them at that spacing. */
  lemma MessagesParseExactly(b: seq<Octet>, ms: seq<Message>)
    ensures ParseMessages(b) == Ok(ms) <==> HoldsMessages(b, ms)
  {
    if ParseMessages(b) == Ok(ms) {
      ParsedEnds(b, ms);
      forall i: nat | i < |ms|
        ensures StartsWith(Rest(b, i), ms[i])
      {
        ParsedIsHeld(b, ms, i);
      }
    }
    if HoldsMessages(b, ms) {
      HeldAreHeaded(b, ms);
      HeldParse(b, ms);
      assert ms[0..] == ms;
    }
  }

  // ---------- The receiver ----------

  // The early check of the sequence number.
  predicate NrOk(ns: U16, m: Message) { SeqCompare(m.hdr.nr, SeqIncrement(ns)) <= 0 }

  // The receiver asks a message for its type: each one if all pass the check, else the first that fails it.
  predicate Asked(ns: U16, ms: seq<Message>, i: nat)
    requires i < |ms|
  {
    || (forall j | 0 <= j < |ms| :: NrOk(ns, ms[j]))
    || (!NrOk(ns, ms[i]) && forall j | 0 <= j < i :: NrOk(ns, ms[j]))
  }

  // A datagram crashes a receiver whose ns is given.
  ghost predicate Crashes(ns: U16, b: seq<Octet>)
  {
    match ParseMessages(b)
    case Ok(ms) => exists i: nat :: i < |ms| && Asked(ns, ms, i) && TypeOf(ms[i]) == Panic
    case Err => false
    case Panic => true
  }

  // The datagram parses, and a message that is asked for its type has a bad one.
  ghost predicate AsksBadType(ns: U16, b: seq<Octet>)
  {
    && ParseMessages(b).Ok?
    && exists i: nat :: i < |ParseMessages(b).value| && Asked(ns, ParseMessages(b).value, i)
                        && Readable(Rest(b, i)) && BadType(Body(Rest(b, i)))
  }

  /**
   Any octets a peer may send: the receiver panics exactly when a short header
   stands behind messages and items that parse, or the datagram parses as a
   whole and a message asked for its type has a Message Type that is not two
   octets long.
   */
  lemma CrashesExactly(ns: U16, b: seq<Octet>)
    ensures Crashes(ns, b) <==> ReachesShort(b) || AsksBadType(ns, b)
  {
    ParsePanicExactly(b);
    if ParseMessages(b).Ok? {
      var ms := ParseMessages(b).value;
      forall i: nat | i < |ms|
        ensures Readable(Rest(b, i)) && (TypeOf(ms[i]) == Panic <==> BadType(Body(Rest(b, i))))
      {
        MessageAt(b, ms, i);
        TypePanicsExactly(Rest(b, i));
      }
    }
  }

  // ---------- Datagrams ----------

  const PLAIN_HEADER: seq<Octet> := [0xc8, 0x02, 0x00, 0x12, 0x00, 0x01, 0x00, 0x00, 0x00, 0x00, 0x00, 0x00]
  const SHORT_ATTRIBUTE: seq<Octet> := [0x80, 0x05, 0x00, 0x00, 0x00, 0x00]

  /** One attribute of length five is enough, whatever follows the message. */
  lemma ShortExample(ns: U16, tail: seq<Octet>)
    ensures Crashes(ns, PLAIN_HEADER + SHORT_ATTRIBUTE + tail)
  {
    var b := PLAIN_HEADER + SHORT_ATTRIBUTE + tail;
    assert GetU16(b, 0) == 0xc802 && GetU16(b, 2) == 18;
    assert Body(b) == SHORT_ATTRIBUTE;
    assert GetHeader(SHORT_ATTRIBUTE) == AvpHeader(0x8005, 0, 0);
    HeadIsShort(SHORT_ATTRIBUTE);
    CrashesExactly(ns, b);
  }

  const TYPED_HEADER: seq<Octet> := [0xc8, 0x02, 0x00, 0x15, 0x00, 0x01, 0x00, 0x00, 0x00, 0x00, 0x00, 0x00]
  const THREE_OCTET_TYPE: seq<Octet> := [0x80, 0x09, 0x00, 0x00, 0x00, 0x00, 0x01, 0x02, 0x03]
  const GAP: seq<Octet> := [0x00, 0x00, 0x00, 0x00]
  const BAD_VERSION: seq<Octet> := [0xc8, 0x01, 0x00, 0x0c, 0x00, 0x00, 0x00, 0x00, 0x00, 0x00, 0x00, 0x00]

  lemma TypeBodyParses()
    ensures ParseAvps(THREE_OCTET_TYPE)
         == Ok([A.Avp(AvpHeader(0x8009, 0, 0), MsgId, [0x01, 0x02, 0x03])])
  {
    assert GetHeader(THREE_OCTET_TYPE) == AvpHeader(0x8009, 0, 0);
    var a := A.Avp(AvpHeader(0x8009, 0, 0), MsgId, [0x01, 0x02, 0x03]);
    assert THREE_OCTET_TYPE[6..9] == a.data && THREE_OCTET_TYPE[9..] == [];
    assert ParseAvps(THREE_OCTET_TYPE) == Ok([a] + []) && [a] + [] == [a];
  }

  lemma ThreeOctetTypeParses(tail: seq<Octet>)
    ensures var b := TYPED_HEADER + THREE_OCTET_TYPE + tail;
            && |b| >= 12 && FirstMessage(b).Ok? && TypeOf(FirstMessage(b).value) == Panic
            && FirstMessage(b).value.hdr.nr == 0
            && AfterFirst(b) == if |tail| < 4 then [] else tail[4..]
  {
    var b := TYPED_HEADER + THREE_OCTET_TYPE + tail;
    assert GetU16(b, 0) == 0xc802 && GetU16(b, 2) == 21 && GetU16(b, 10) == 0;
    assert Body(b) == THREE_OCTET_TYPE;
    FirstOfReadable(b);
    TypeBodyParses();
  }

  lemma BadVersionFails()
    ensures ParseMessages(BAD_VERSION) == Err
  {
    assert GetU16(BAD_VERSION, 0) == 0xc801;
    FirstOfUnreadable(BAD_VERSION);
  }

  /** A Message Type of three octets crashes the receiver. */
  lemma TypeExample()
    ensures Crashes(0, TYPED_HEADER + THREE_OCTET_TYPE)
  {
    var b := TYPED_HEADER + THREE_OCTET_TYPE;
    assert b + [] == b;
    ThreeOctetTypeParses([]);
    var m := FirstMessage(b).value;
    assert ParseMessages(AfterFirst(b)) == Ok([]);
    assert ParseMessages(b) == Ok([m]) by { assert [m] + [] == [m]; }
    assert Asked(0, [m], 0) && TypeOf([m][0]) == Panic;
  }

  /** The same message in front of one that does not parse does not crash it. */
  lemma DiscardedTypeExample(ns: U16)
    ensures !Crashes(ns, TYPED_HEADER + THREE_OCTET_TYPE + (GAP + BAD_VERSION))
  {
    var b := TYPED_HEADER + THREE_OCTET_TYPE + (GAP + BAD_VERSION);
    ThreeOctetTypeParses(GAP + BAD_VERSION);
    assert (GAP + BAD_VERSION)[4..] == BAD_VERSION;
    BadVersionFails();
    assert ParseMessages(b) == Err;
  }
}
