/** Inputs that the codec does not restore, one for each way in which it can fail. */
module Counterexamples {
  import opened Options
  import opened Wire
  import opened Names
  import opened Records
  import opened Messages
  import opened RoundTrips

  /* ---- An empty label ---- */

  /** "a..b." is written, and read as "a.". */
  lemma EmptyLabelLost()
    ensures var name := [97, DOT, DOT, 98, DOT];
            && !WellFormed(name)
            && EncodeName(HEADER, [], 100, Parse(name)).Ok?
            && Canonical(Parse(name)) == [97, DOT]
  {
    var s: Bytes := [97, DOT, DOT, 98, DOT];
    var rest: Bytes := [DOT, 98, DOT];
    assert s[2] == DOT && s[1] == DOT;
    assert DotWithin(s, 1).None? by { assert DotWithin(s, 0).None?; }
    assert DotWithin(s, 2) == Some(1) && DotWithin(s, 3) == Some(1);
    assert DotWithin(s, 4) == Some(1) && DotWithin(s, 5) == Some(1);
    assert s[..1] == [97] && s[2..] == rest;
    var name := Part([97], End(rest));
    assert Parse(s) == name;
    assert Flatten(Tail(End(rest))) == [] && Flatten(Tail(name)) == [97, DOT];
    var segs := [Segment(name, HEADER)];
    assert [] + segs == segs;
    assert EncodeName(HEADER + 2, segs, 98, End(rest)) == Ok(Chunk([0], segs));
    assert FindSegment([], name).None?;
  }

  /* ---- An MX record for the root ---- */

  /** An MX record for the root, named by the root. */
  const ROOT_MX := Answer([DOT], 15, 1, 0, More(Num16(10), More(Domain([DOT]), Done)))
  const ROOT_MX_BYTES: Bytes := [0, 0, 15, 0, 1, 0, 0, 0, 0, 0, 3, 0, 10, 0]

  lemma RootMxBody()
    ensures EncodeFields(11, [], 89, Room(2, ROOT_MX.body)) == Ok(Chunk([0, 10, 0], []))
    ensures AnswerSize(ROOT_MX) == 4
  {
    var fs := ROOT_MX.body;
    assert Parse([DOT]) == End([DOT]);
    assert FieldsSize(fs.rest) == 2;
    assert EncodeField(13, [], 87, fs.rest.field) == Ok(Chunk([0], []));
    assert EncodeFields(14, [], 86, Done) == Ok(Chunk([], []));
    var zero: Bytes, pref: Bytes := [0], U16(10);
    assert zero + [] == zero && pref + zero == [0, 10, 0];
    assert EncodeFields(13, [], 87, fs.rest) == Ok(Chunk([0], []));
    assert EncodeFields(11, [], 89, fs) == Ok(Chunk([0, 10, 0], []));
  }

  lemma RootMxIs()
    ensures Typed(ROOT_MX) && NamedAnswer(ROOT_MX) && RootExchange(ROOT_MX) && SameAnswer(ROOT_MX) == ROOT_MX
  {
    assert Parse([DOT]) == End([DOT]);
    var rest := ROOT_MX.body.rest;
    assert Fits(rest.rest, Finish) && IsPlain(rest.rest) && NamedFields(rest.rest);
    assert WellFormed([DOT]) && rest.field == Domain([DOT]);
    assert Fits(rest, Get(GetName, Finish)) && IsPlain(rest) && NamedFields(rest);
    assert Fits(ROOT_MX.body, Get(Get16, Get(GetName, Finish)));
    assert SameFields(rest.rest) == Done && SameFields(rest) == rest;
  }

  lemma RootMxEncoded()
    ensures EncodeAnswer(0, [], 100, ROOT_MX) == Ok(Chunk(ROOT_MX_BYTES, []))
    ensures !AnswerCut(0, [], 100, ROOT_MX)
  {
    hide EncodeFields;
    RootMxBody();
    assert Parse([DOT]) == End([DOT]);
    assert Head(ROOT_MX, 3) == [0, 15, 0, 1, 0, 0, 0, 0, 0, 3];
    assert ROOT_MX_BYTES == [0] + Head(ROOT_MX, 3) + [0, 10, 0];
    FieldsOffsets(11, [], 89, Room(2, ROOT_MX.body), Chunk([0, 10, 0], []));
  }

  /** The encoder writes it, and the decoder refuses it. */
  lemma RootMxRefused()
    ensures EncodeAnswer(0, [], 100, ROOT_MX) == Ok(Chunk(ROOT_MX_BYTES, []))
    ensures DecodeAnswer(ROOT_MX_BYTES, 0, 100) == Err(FormatError)
  {
    hide EncodeAnswer, DecodeAnswer, Typed, AnswerCut, SameAnswer;
    RootMxIs();
    RootMxEncoded();
    RootMxBody();
    UncutAnswerRoundTrip(ROOT_MX_BYTES, 0, [], 100, ROOT_MX, Chunk(ROOT_MX_BYTES, []), 100);
  }

  /* ---- Text that is too long ---- */

  /** A TXT record for the root. */
  function TextRecord(text: Bytes): Answer {
    Answer([DOT], 16, 1, 0, More(Txt(text), Done))
  }

  lemma TextRecordIs(text: Bytes)
    ensures Typed(TextRecord(text)) && NamedAnswer(TextRecord(text)) && SameAnswer(TextRecord(text)) == TextRecord(text)
    ensures AnswerSize(TextRecord(text)) == |text| + 3
  {
    var body := TextRecord(text).body;
    assert Parse([DOT]) == End([DOT]);
    assert WellFormed([DOT]);
    assert Fits(body.rest, Finish) && IsPlain(body.rest) && NamedFields(body.rest) && FieldsSize(body.rest) == 0;
    assert SameFields(body.rest) == Done;
    assert Fits(body, Get(GetText, Finish));
  }

  lemma TextRecordEncoded(at: nat, room: nat, text: Bytes)
    requires |TextBytes(text)| + 11 <= room
    ensures var c := EncodeAnswer(at, [], room, TextRecord(text));
            c.Ok? && |c.value.bytes| == |TextBytes(text)| + 11 && c.value.segs == []
    ensures !AnswerCut(at, [], room, TextRecord(text))
  {
    hide TextBytes;
    var body := TextRecord(text).body;
    assert Parse([DOT]) == End([DOT]);
    assert EncodeFields(at + 11 + |TextBytes(text)|, [], room - 11 - |TextBytes(text)|, Done) == Ok(Chunk([], []));
    assert EncodeFields(at + 11, [], room - 11, body) == Ok(Chunk(TextBytes(text) + [], []));
    assert !FieldsCut(at + 11, [], room - 11, body);
  }

  /** Of 65280 bytes of text nothing comes back. */
  lemma LongTextLost(text: Bytes)
    requires |text| == 65280
    ensures var c := EncodeAnswer(0, [], 70000, TextRecord(text));
            c.Ok? && DecodeAnswer(c.value.bytes, 0, 70000).Ok?
            && DecodeAnswer(c.value.bytes, 0, 70000).value.value == TextRecord([])
  {
    hide EncodeAnswer, DecodeAnswer, Typed, AnswerCut, TextBytes, NamedAnswer, SameAnswer, AnswerSize;
    var a := TextRecord(text);
    TextBytesLength(text);
    TextRecordIs(text);
    TextRecordEncoded(0, 70000, text);
    var c := EncodeAnswer(0, [], 70000, a).value;
    UncutAnswerRoundTrip(c.bytes, 0, [], 70000, a, c, 70000);
  }

  /* ---- A pointer that is cut ---- */

  /** An A record for "a.". */
  const HOST := Answer([97, DOT], 1, 1, 0, More(Fixed([0, 0, 0, 0]), Done))
  const HOST_NAME := Part([97], End([]))

  lemma HostIs()
    ensures Typed(HOST) && NamedAnswer(HOST) && SameAnswer(HOST) == HOST && AnswerSize(HOST) == 3
    ensures Parse([97, DOT]) == HOST_NAME && Canonical(HOST_NAME) == [97, DOT]
  {
    var s: Bytes, body := [97, DOT], HOST.body;
    assert DotWithin(s, 1) == None by { assert DotWithin(s, 0) == None; }
    assert DotWithin(s, 2) == Some(1);
    assert s[..1] == [97] && s[2..] == [];
    assert Parse([]) == End([]);
    assert Parse(s) == HOST_NAME;
    assert Flatten(Nil) == [] && Flatten(Tail(HOST_NAME)) == s;
    assert WellFormed(s);
    assert Fits(body.rest, Finish) && IsPlain(body.rest) && NamedFields(body.rest) && FieldsSize(body.rest) == 0;
    assert SameFields(body.rest) == Done;
    assert Fits(body, Get(GetFixed(4), Finish)) && Fits(body, ShapeOf(Address));
  }

  lemma HostBody(at: nat, segs: seq<Segment>, room: nat)
    requires room >= 4
    ensures EncodeFields(at, segs, room, HOST.body) == Ok(Chunk([0, 0, 0, 0], segs))
    ensures !FieldsCut(at, segs, room, HOST.body)
  {
    var b: Bytes := [0, 0, 0, 0];
    assert EncodeFields(at + 4, segs, room - 4, Done) == Ok(Chunk([], segs));
    assert EncodeField(at, segs, room, HOST.body.field) == Ok(Chunk(b, segs));
    assert b + [] == b;
  }

  /** Written in full the first time. */
  lemma HostFirst(at: nat, room: nat)
    requires room >= 17
    ensures EncodeAnswer(at, [], room, HOST) ==
            Ok(Chunk([1, 97, 0] + Head(HOST, 4) + [0, 0, 0, 0], [Segment(HOST_NAME, at)]))
    ensures |[1, 97, 0] + Head(HOST, 4) + [0, 0, 0, 0]| == 17
    ensures !AnswerCut(at, [], room, HOST)
  {
    hide EncodeFields, FieldsCut;
    HostIs();
    var none: seq<Segment>, one := [], [Segment(HOST_NAME, at)];
    var name: Bytes := [1, 97, 0];
    assert none + [Segment(HOST_NAME, at)] == one;
    assert FindSegment(none, HOST_NAME).None?;
    assert EncodeName(at + 2, one, room - 2, End([])) == Ok(Chunk([0], one));
    assert EncodeName(at, none, room, HOST_NAME) == Ok(Chunk(name, one)) by {
      assert [1] + [97] + [0] == name;
    }
    assert !PointerCut(at + 2, one, End([])) && !PointerCut(at, none, HOST_NAME);
    HostBody(at + 13, one, room - 13);
    assert WithTests(BodyOf(HOST.rtype), HOST.body) == HOST.body;
  }

  /** Written as a pointer the second. */
  lemma HostAgain(at: nat, room: nat, offset: nat)
    requires room >= 16
    ensures var segs := [Segment(HOST_NAME, offset)];
            && EncodeName(at, segs, room, HOST_NAME) == Ok(Chunk(Pointer(offset), segs))
            && EncodeAnswer(at, segs, room, HOST) == Ok(Chunk(Pointer(offset) + Head(HOST, 4) + [0, 0, 0, 0], segs))
            && (PointerCut(at, segs, HOST_NAME) <==> offset >= OFFSET_LIMIT)
    ensures |Pointer(offset) + Head(HOST, 4) + [0, 0, 0, 0]| == 16
  {
    hide EncodeFields, FieldsCut;
    HostIs();
    var segs := [Segment(HOST_NAME, offset)];
    assert FindWithin(segs, HOST_NAME, 0).None?;
    assert FindSegment(segs, HOST_NAME) == Some(0);
    HostBody(at + 12, segs, room - 12);
    assert WithTests(BodyOf(HOST.rtype), HOST.body) == HOST.body;
  }

  /** A packet whose id is 0: text up to offset 16384, and then two addresses of "a.". */
  function WrappedMessage(text: Bytes): Message {
    Message(0, 0, 0, Flags(false, false, false, false, false, false, false, false),
            [], [TextRecord(text), HOST, HOST], [], [])
  }

  const SIZE: nat := 20000

  lemma WrappedEntries(text: Bytes)
    ensures Entries(WrappedMessage(text)) == [Record(TextRecord(text)), Record(HOST), Record(HOST)]
  {
    var rs := [TextRecord(text), HOST, HOST];
    assert rs + [] + [] == rs;
  }

  lemma WrappedEncoded(text: Bytes) returns (first: Chunk, second: Chunk, third: Chunk)
    requires |text| == 16297
    ensures var es, one := Entries(WrappedMessage(text)), [Segment(HOST_NAME, OFFSET_LIMIT)];
            && EncodeAnswer(HEADER, [], SIZE - HEADER, TextRecord(text)) == Ok(first)
            && |first.bytes| == OFFSET_LIMIT - HEADER && first.segs == []
            && EncodeAnswer(OFFSET_LIMIT, [], SIZE - OFFSET_LIMIT, HOST) == Ok(second)
            && |second.bytes| == 17 && second.segs == one
            && EncodeAnswer(OFFSET_LIMIT + 17, one, SIZE - OFFSET_LIMIT - 17, HOST) == Ok(third)
            && third.bytes == Pointer(OFFSET_LIMIT) + Head(HOST, 4) + [0, 0, 0, 0]
            && EncodeEntries(HEADER, [], SIZE - HEADER, es) == Ok(Chunk(first.bytes + second.bytes + third.bytes, one))
    ensures !AnswerCut(HEADER, [], SIZE - HEADER, TextRecord(text))
    ensures !AnswerCut(OFFSET_LIMIT, [], SIZE - OFFSET_LIMIT, HOST)
  {
    hide EncodeAnswer, TextBytes, Head, AnswerCut, Pointer, EncodeName, PointerCut;
    var one := [Segment(HOST_NAME, OFFSET_LIMIT)];
    WrappedEntries(text);
    TextBytesLength(text);
    TextRecordEncoded(HEADER, SIZE - HEADER, text);
    HostFirst(OFFSET_LIMIT, SIZE - OFFSET_LIMIT);
    HostAgain(OFFSET_LIMIT + 17, SIZE - OFFSET_LIMIT - 17, OFFSET_LIMIT);
    first := EncodeAnswer(HEADER, [], SIZE - HEADER, TextRecord(text)).value;
    second := EncodeAnswer(OFFSET_LIMIT, [], SIZE - OFFSET_LIMIT, HOST).value;
    third := EncodeAnswer(OFFSET_LIMIT + 17, one, SIZE - OFFSET_LIMIT - 17, HOST).value;
    var rest := [Record(HOST)];
    assert EncodeEntries(OFFSET_LIMIT + 33, one, SIZE - OFFSET_LIMIT - 33, []) == Ok(Chunk([], one));
    assert rest[1..] == [] && third.bytes + [] == third.bytes;
    assert EncodeEntries(OFFSET_LIMIT + 17, one, SIZE - OFFSET_LIMIT - 17, rest) == Ok(third);
    assert [Record(HOST), Record(HOST)][1..] == rest;
    assert EncodeEntries(OFFSET_LIMIT, [], SIZE - OFFSET_LIMIT, [Record(HOST)] + rest) ==
           Ok(Chunk(second.bytes + third.bytes, one));
    assert Entries(WrappedMessage(text))[1..] == [Record(HOST)] + rest;
    assert first.bytes + (second.bytes + third.bytes) == first.bytes + second.bytes + third.bytes;
  }

  /** The third name is read from offset 0, where the id is, and does not come back. */
  lemma ThirdNameLost(p: Bytes, at: nat, room: nat)
    requires Has(p, at, Pointer(OFFSET_LIMIT)) && |p| > 0 && p[0] == 0
    ensures DecodeAnswer(p, at, room).Err? || DecodeAnswer(p, at, room).value.value.name != HOST.name
  {
    hide ReadName, Has, BodyOf, ShapeOf, ReadFields, N16, N32;
    if ReadName(p, at, room).Ok? {
      var g := ReadName(p, at, room).value;
      ReadNameSucceeds(p, at, room);
      ReadNameIffNameAt(p, at, room, g.value, g.pos);
      if g.value == HOST.name {
        PointerText(p, at, OFFSET_LIMIT, g.value, MAX_LOOP - 1);
      }
    }
  }

  lemma WrappedIsGood(text: Bytes)
    requires |text| == 16297
    ensures var m := WrappedMessage(text);
            SendableMessage(m) && NamedMessage(m) && AllKept(Entries(m)) && EntriesSize(Entries(m)) == |text| + 9
  {
    hide Typed, NamedAnswer, AnswerSize, Entries;
    WrappedEntries(text);
    TextRecordIs(text);
    HostIs();
    var es, last := Entries(WrappedMessage(text)), [Record(HOST)];
    assert last[1..] == [] && es[1..] == [Record(HOST)] + last && es[1..][1..] == last;
    assert AllSendable(last) && AllKept(last) && EntriesSize(last) == AnswerSize(HOST);
    assert AllSendable(es[1..]) && AllKept(es[1..]) && EntriesSize(es[1..]) == 2 * AnswerSize(HOST);
  }

  /** The text and the first address are read back, and the second address is not. */
  lemma WrappedEntriesRead(p: Bytes, text: Bytes, room: nat, c: Chunk)
    requires |text| == 16297 && room >= |text| + 9
    requires EncodeEntries(HEADER, [], SIZE - HEADER, Entries(WrappedMessage(text))) == Ok(c)
    requires Has(p, HEADER, c.bytes) && p[0] == 0
    ensures var es := Entries(WrappedMessage(text));
            DecodeEntries(p, HEADER, room, Asks(es)).Err? || DecodeEntries(p, HEADER, room, Asks(es)).value.value != es
  {
    hide EncodeEntries, EncodeAnswer, DecodeAnswer, DecodeEntries, AnswerCut, Pointer, Head, Typed, NamedAnswer,
         Entries,
         SameAnswer, AnswerSize, Kept, Rejected, LongText, Asks, Parse;
    var first, second, third := WrappedEncoded(text);
    HasParts(p, HEADER, first.bytes + second.bytes, third.bytes);
    HasParts(p, HEADER, first.bytes, second.bytes);
    WrappedEntries(text);
    WrappedKept(text);
    var es, left := Entries(WrappedMessage(text)), room - (|text| + 3);
    UncutAnswerRoundTrip(p, HEADER, [], SIZE - HEADER, TextRecord(text), first, room);
    FirstDecoded(p, HEADER, room, es, Got(es[0], OFFSET_LIMIT, left));
    UncutAnswerRoundTrip(p, OFFSET_LIMIT, [], SIZE - OFFSET_LIMIT, HOST, second, left);
    FirstDecoded(p, OFFSET_LIMIT, left, es[1..], Got(es[1], OFFSET_LIMIT + 17, left - 3));
    ThirdEntryLost(p, OFFSET_LIMIT + 17, third.bytes, left - 3);
    assert es[1..][1..] == [es[2]];
  }

  lemma WrappedKept(text: Bytes)
    requires |text| == 16297
    ensures Kept(TextRecord(text)) && Kept(HOST)
    ensures Typed(TextRecord(text)) && SameAnswer(TextRecord(text)) == TextRecord(text)
    ensures Typed(HOST) && SameAnswer(HOST) == HOST
    ensures AnswerSize(TextRecord(text)) == |text| + 3 && AnswerSize(HOST) == 3
  {
    TextRecordIs(text);
    HostIs();
  }

  lemma ThirdEntryLost(p: Bytes, at: nat, bytes: Bytes, room: nat)
    requires bytes == Pointer(OFFSET_LIMIT) + Head(HOST, 4) + [0, 0, 0, 0]
    requires Has(p, at, bytes) && |p| > 0 && p[0] == 0
    ensures DecodeEntries(p, at, room, Asks([Record(HOST)])).Err?
         || DecodeEntries(p, at, room, Asks([Record(HOST)])).value.value != [Record(HOST)]
  {
    hide DecodeAnswer, Pointer, Head;
    HasParts(p, at, Pointer(OFFSET_LIMIT) + Head(HOST, 4), [0, 0, 0, 0]);
    HasParts(p, at, Pointer(OFFSET_LIMIT), Head(HOST, 4));
    ThirdNameLost(p, at, room);
    if DecodeAnswer(p, at, room).Err? {
      FirstRefused(p, at, room, [Record(HOST)]);
    } else {
      var g := DecodeAnswer(p, at, room).value;
      FirstDecoded(p, at, room, [Record(HOST)], Got(Record(g.value), g.pos, g.room));
    }
  }

  lemma WrappedDecoded(text: Bytes, p: Bytes, room: nat)
    requires |text| == 16297 && room >= |text| + 9
    requires Encode(WrappedMessage(text), SIZE) == Ok(p)
    ensures Decode(p, room) != Ok(WrappedMessage(text))
  {
    hide EncodeEntries, DecodeEntries, Entries, Header, N16, Kinds, Asks, Decode;
    var m := WrappedMessage(text);
    var c := EncodeEntries(HEADER, [], SIZE - HEADER, Entries(m)).value;
    HasParts(p, 0, Header(m), c.bytes);
    HeaderReadBack(p, m);
    KindsOfEntries(m);
    FirstIdByte(p, m);
    WrappedEntriesRead(p, text, room, c);
    if Decode(p, room) == Ok(m) {
      DecodedEntries(p, room, Asks(Entries(m)));
    }
  }

  lemma WrappedFits(text: Bytes)
    requires |text| == 16297 && ValidMessage(WrappedMessage(text))
    ensures Encode(WrappedMessage(text), SIZE).Ok?
  {
    hide EncodeEntries, Entries, WrappedMessage, ValidMessage;
    var first, second, third := WrappedEncoded(text);
  }

  /** Its names are well formed, it has no MX for the root and no text of 65280 bytes, and it is still
      not what comes back: a pointer to offset 16384 names offset 0. */
  lemma WrappedPointer(text: Bytes, room: nat)
    requires |text| == 16297 && room >= |text| + 9
    ensures var m := WrappedMessage(text);
            && SendableMessage(m) && NamedMessage(m) && AllKept(Entries(m)) && EntriesSize(Entries(m)) <= room
            && Encode(m, SIZE).Ok? && MessageCut(m, SIZE)
            && Decode(Encode(m, SIZE).value, room) != Ok(m)
  {
    hide WrappedMessage, Encode, Entries, AllKept, AllSendable, NamedMessage, Decode, MessageCut, EntriesSize;
    var m := WrappedMessage(text);
    WrappedIsGood(text);
    WrappedFits(text);
    var p := Encode(m, SIZE).value;
    WrappedDecoded(text, p, room);
    if !MessageCut(m, SIZE) {
      UncutUndone(m, SIZE, p, room);
    }
  }

  lemma FirstIdByte(p: Bytes, m: Message)
    requires ValidMessage(m) && Has(p, 0, Header(m)) && m.id == 0
    ensures p[0] == 0
  {
    assert p[0] == Header(m)[0];
  }
}
